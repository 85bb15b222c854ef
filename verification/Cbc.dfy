/**
 * Cipher block chaining (section 6.2 of NIST SP 800-38A) and the padding of
 * section 6.3 of RFC 5652, over any block cipher, as the functions that the
 * in-place code is proved against.
 */
module Cbc {
  import opened Common
  import opened Arith
  import AesCipher

  // ----- Exclusive or -----

  function ToBits(a: u8): bv8 { a as bv8 }

  function OfBits(x: bv8): u8 { x as int }

  function Xor(a: u8, b: u8): u8 { OfBits(AesCipher.Plus(ToBits(a), ToBits(b))) }

  lemma NextBits(x: bv8)
    requires x != 255
    ensures OfBits(x + 1) == OfBits(x) + 1
  {
  }

  lemma BitsOfLast()
    ensures OfBits(255) == 255 && OfBits(0) == 0 && ToBits(0) == 0
  {
  }

  lemma {:induction false} OfToBits(a: u8)
    ensures OfBits(ToBits(a)) == a
    decreases a as int
  {
    hide ToBits, OfBits;
    BitsOfLast();
    var n: int := a;
    if n > 0 {
      OfToBits(n - 1);
      var x := ToBits(n - 1);
      NextBits(x);
      ToOfBits(x + 1);
    }
  }

  lemma ToOfBits(x: bv8)
    ensures ToBits(OfBits(x)) == x
  {
  }

  lemma XorLaws(a: u8, b: u8)
    ensures Xor(Xor(a, b), b) == a && Xor(a, b) == Xor(b, a)
  {
    hide ToBits, OfBits, AesCipher.Plus;
    var (x, y) := (ToBits(a), ToBits(b));
    OfToBits(a);
    ToOfBits(AesCipher.Plus(x, y));
    AesCipher.PlusAssociates(x, y, y);
    AesCipher.PlusLaws(y, y);
    AesCipher.PlusLaws(x, y);
  }

  function XorBytes(a: Bytes, b: Bytes): (r: Bytes)
    requires |a| == |b|
    ensures |r| == |a|
    ensures forall i :: 0 <= i < |a| ==> r[i] == Xor(a[i], b[i])
  {
    seq(|a|, i requires 0 <= i < |a| => Xor(a[i], b[i]))
  }

  lemma XorBytesTwice(a: Bytes, b: Bytes)
    requires |a| == |b|
    ensures XorBytes(XorBytes(a, b), b) == a && XorBytes(a, b) == XorBytes(b, a)
  {
    hide Xor;
    forall i | 0 <= i < |a| ensures XorBytes(XorBytes(a, b), b)[i] == a[i] && XorBytes(a, b)[i] == XorBytes(b, a)[i] {
      XorLaws(a[i], b[i]);
    }
  }

  // ----- Block ciphers -----

  /** A block cipher under one key. */
  datatype Block = Block(n: nat, enc: Bytes -> Bytes, dec: Bytes -> Bytes)

  /** On blocks of its length, `dec` undoes `enc`; the library's longest block is 16 bytes. */
  ghost predicate IsCipher(c: Block) {
    && 0 < c.n <= 16
    && (forall b: Bytes :: |b| == c.n ==> |c.enc(b)| == c.n && c.dec(c.enc(b)) == b)
    && (forall b: Bytes :: |b| == c.n ==> |c.dec(b)| == c.n)
  }

  // ----- Chaining -----

  /** The bytes are a whole number of blocks of `n` bytes. */
  predicate Whole(n: nat, x: Bytes) { WholeLength(n, |x|) }

  predicate WholeLength(n: nat, len: nat) { n > 0 && len % n == 0 }

  lemma NoBlocks(n: nat)
    requires n > 0
    ensures Whole(n, [])
  {
    ModStep(n, 0);
  }

  lemma FirstBlock(n: nat, x: Bytes)
    requires Whole(n, x) && x != []
    ensures |x| >= n && Whole(n, x[n..]) && x[..n] + x[n..] == x
  {
    ModPositive(n, |x|);
  }

  lemma WholeSum(n: nat, a: Bytes, b: Bytes)
    requires Whole(n, a)
    ensures Whole(n, a + b) <==> Whole(n, b)
  {
    ModSum(n, |a|, |b|);
  }

  lemma OneBlock(n: nat, a: Bytes)
    requires n > 0 && |a| == n
    ensures Whole(n, a)
  {
    ModStep(n, n);
    ModStep(n, 0);
  }

  ghost function CbcEnc(c: Block, iv: Bytes, x: Bytes): (y: Bytes)
    requires IsCipher(c) && |iv| == c.n && Whole(c.n, x)
    ensures |y| == |x|
    decreases |x|
  {
    if x == [] then [] else
      FirstBlock(c.n, x);
      var y := c.enc(XorBytes(iv, x[..c.n]));
      y + CbcEnc(c, y, x[c.n..])
  }

  ghost function CbcDec(c: Block, iv: Bytes, y: Bytes): (x: Bytes)
    requires IsCipher(c) && |iv| == c.n && Whole(c.n, y)
    ensures |x| == |y|
    decreases |y|
  {
    if y == [] then [] else
      FirstBlock(c.n, y);
      XorBytes(c.dec(y[..c.n]), iv) + CbcDec(c, y[..c.n], y[c.n..])
  }

  /** The chaining value after `y` was produced, or consumed. */
  function Chain(n: nat, iv: Bytes, y: Bytes): (r: Bytes)
    requires |iv| == n
    ensures |r| == n
  {
    if |y| < n then iv else y[|y| - n..]
  }

  lemma ChainSkips(n: nat, iv: Bytes, y: Bytes, rest: Bytes)
    requires Whole(n, rest) && |iv| == n && |y| == n
    ensures Chain(n, iv, y + rest) == Chain(n, y, rest)
  {
    if rest != [] { FirstBlock(n, rest); }
  }

  lemma ChainSum(n: nat, iv: Bytes, y: Bytes, z: Bytes)
    requires |iv| == n && Whole(n, y) && Whole(n, z)
    ensures Chain(n, iv, y + z) == Chain(n, Chain(n, iv, y), z)
  {
    if z == [] {
      assert y + z == y;
    } else {
      FirstBlock(n, z);
    }
  }

  lemma SameLength(n: nat, x: Bytes, y: Bytes)
    requires Whole(n, x) && |x| == |y|
    ensures Whole(n, y)
  {
  }

  /** One block in front of others. */
  lemma CbcSteps(c: Block, iv: Bytes, head: Bytes, rest: Bytes)
    requires IsCipher(c) && |iv| == c.n && |head| == c.n && Whole(c.n, rest)
    ensures Whole(c.n, head + rest)
    ensures var y := c.enc(XorBytes(iv, head)); CbcEnc(c, iv, head + rest) == y + CbcEnc(c, y, rest)
    ensures CbcDec(c, iv, head + rest) == XorBytes(c.dec(head), iv) + CbcDec(c, head, rest)
  {
    OneBlock(c.n, head);
    WholeSum(c.n, head, rest);
    hide Whole;
    assert (head + rest)[..c.n] == head && (head + rest)[c.n..] == rest;
  }

  /** Decryption undoes encryption. */
  lemma {:induction false} CbcRoundTrip(c: Block, iv: Bytes, x: Bytes)
    requires IsCipher(c) && |iv| == c.n && Whole(c.n, x)
    ensures Whole(c.n, CbcEnc(c, iv, x)) && CbcDec(c, iv, CbcEnc(c, iv, x)) == x
    decreases |x|
  {
    SameLength(c.n, x, CbcEnc(c, iv, x));
    if x != [] {
      hide Whole, XorBytes, CbcEnc, CbcDec;
      FirstBlock(c.n, x);
      var (head, tail) := (x[..c.n], x[c.n..]);
      var y := c.enc(XorBytes(iv, head));
      CbcSteps(c, iv, head, tail);
      CbcRoundTrip(c, y, tail);
      CbcSteps(c, iv, y, CbcEnc(c, y, tail));
      XorBytesTwice(iv, head);
      XorBytesTwice(head, iv);
    }
  }

  /** Encrypting in two calls is encrypting in one. */
  lemma {:induction false} CbcEncConcat(c: Block, iv: Bytes, a: Bytes, b: Bytes)
    requires IsCipher(c) && |iv| == c.n && Whole(c.n, a) && Whole(c.n, b)
    ensures Whole(c.n, a + b)
    ensures CbcEnc(c, iv, a + b) == CbcEnc(c, iv, a) + CbcEnc(c, Chain(c.n, iv, CbcEnc(c, iv, a)), b)
    decreases |a|
  {
    WholeSum(c.n, a, b);
    if a == [] {
      assert a + b == b;
    } else {
      hide Whole, CbcEnc, Chain, XorBytes;
      FirstBlock(c.n, a);
      var (head, tail) := (a[..c.n], a[c.n..]);
      WholeSum(c.n, tail, b);
      var y := c.enc(XorBytes(iv, head));
      var rest := CbcEnc(c, y, tail);
      CbcSteps(c, iv, head, tail);
      CbcSteps(c, iv, head, tail + b);
      ConcatAssoc(head, tail, b);
      CbcEncConcat(c, y, tail, b);
      SameLength(c.n, tail, rest);
      ChainSkips(c.n, iv, y, rest);
      ConcatAssoc(y, rest, CbcEnc(c, Chain(c.n, y, rest), b));
    }
  }

  /** Decrypting in two calls is decrypting in one. */
  lemma {:induction false} CbcDecConcat(c: Block, iv: Bytes, a: Bytes, b: Bytes)
    requires IsCipher(c) && |iv| == c.n && Whole(c.n, a) && Whole(c.n, b)
    ensures Whole(c.n, a + b)
    ensures CbcDec(c, iv, a + b) == CbcDec(c, iv, a) + CbcDec(c, Chain(c.n, iv, a), b)
    decreases |a|
  {
    WholeSum(c.n, a, b);
    if a == [] {
      assert a + b == b;
    } else {
      hide Whole, CbcDec, Chain, XorBytes;
      FirstBlock(c.n, a);
      var (head, tail) := (a[..c.n], a[c.n..]);
      WholeSum(c.n, tail, b);
      CbcSteps(c, iv, head, tail);
      CbcSteps(c, iv, head, tail + b);
      ConcatAssoc(head, tail, b);
      CbcDecConcat(c, head, tail, b);
      ChainSkips(c.n, iv, head, tail);
      ConcatAssoc(XorBytes(c.dec(head), iv), CbcDec(c, head, tail), CbcDec(c, Chain(c.n, head, tail), b));
    }
  }

  // ----- Padding -----

  /** `data` filled up to a block of `n` bytes, each added byte telling how many were added. */
  function Pad(data: Bytes, n: nat): (r: Bytes)
    requires |data| < n && n - |data| <= 255
    ensures |r| == n
  {
    data + seq(n - |data|, i => n - |data|)
  }

  /** The block is some data with its padding. */
  ghost predicate IsPadded(block: Bytes) {
    exists d: nat :: PadsAt(block, d)
  }

  ghost predicate PadsAt(block: Bytes, d: nat) {
    d < |block| && |block| - d <= 255 && Pad(block[..d], |block|) == block
  }

  lemma PadsAtOnce(block: Bytes, d: nat, e: nat)
    requires PadsAt(block, d) && PadsAt(block, e)
    ensures d == e
  {
    var n := |block|;
    assert Pad(block[..d], n)[n - 1] == n - d && Pad(block[..e], n)[n - 1] == n - e;
  }

  lemma PaddedPads(data: Bytes, n: nat)
    requires |data| < n && n - |data| <= 255
    ensures PadsAt(Pad(data, n), |data|)
  {
    assert Pad(data, n)[..|data|] == data;
  }

  // ----- Whole messages -----

  /** The message cut into whole blocks, the last of them padded. */
  ghost function Filled(n: nat, x: Bytes): (r: Bytes)
    requires 0 < n <= 16
    ensures Whole(n, r) && r != []
  {
    FilledAligned(n, x);
    x[..|x| - |x| % n] + Pad(x[|x| - |x| % n..], n)
  }

  lemma FilledAligned(n: nat, x: Bytes)
    requires 0 < n <= 16
    ensures |x| % n < n && |x| % n <= |x| && (|x| - |x| % n) % n == 0 && (|x| - |x| % n + n) % n == 0
  {
    Division(n, |x|);
    ModOf(n, |x| / n, 0);
    ModStep(n, n);
    ModStep(n, 0);
    ModSum(n, |x| - |x| % n, n);
  }

  /** The message whose blocks, the last of them padded, are `p`. */
  ghost function Unfilled(n: nat, p: Bytes): Option<Bytes>
    requires 0 < n <= |p|
  {
    var b := p[|p| - n..];
    if IsPadded(b) then var d: nat :| PadsAt(b, d); Some(p[..|p| - n + d]) else None
  }

  lemma UnfilledAt(n: nat, p: Bytes, d: nat)
    requires 0 < n <= |p| && PadsAt(p[|p| - n..], d)
    ensures Unfilled(n, p) == Some(p[..|p| - n + d])
  {
    var b := p[|p| - n..];
    forall e: nat | PadsAt(b, e) ensures e == d {
      PadsAtOnce(b, d, e);
    }
  }

  lemma FilledUnfills(n: nat, x: Bytes)
    requires 0 < n <= 16
    ensures |Filled(n, x)| >= n && Unfilled(n, Filled(n, x)) == Some(x)
  {
    FilledAligned(n, x);
    var p := Filled(n, x);
    FirstBlock(n, p);
    var offset := |x| - |x| % n;
    var b := Pad(x[offset..], n);
    assert |p| == offset + n && p[offset..] == b;
    PaddedPads(x[offset..], n);
    UnfilledAt(n, p, |x| - offset);
    assert p[..|x|] == x;
  }

  lemma RestLength(n: nat, offset: nat, d: nat)
    requires n > 0 && WholeLength(n, offset) && d < n
    ensures (offset + d) % n == d
  {
    ModSum(n, offset, d);
    ModStep(n, d);
  }

  lemma UnfilledFills(n: nat, p: Bytes)
    requires 0 < n <= 16 && Whole(n, p) && n <= |p| && Unfilled(n, p).Some?
    ensures Filled(n, Unfilled(n, p).value) == p
  {
    var (offset, b) := (|p| - n, p[|p| - n..]);
    var d: nat :| PadsAt(b, d);
    UnfilledAt(n, p, d);
    var x := p[..offset + d];
    ModStep(n, |p|);
    RestLength(n, offset, d);
    FilledAligned(n, x);
    assert x[..offset] == p[..offset] && x[offset..] == b[..d];
    assert p[..offset] + b == p;
  }

  /** What a ciphertext says, if it is one: the message it is the encryption of. */
  ghost function Message(c: Block, v: Bytes, y: Bytes): Option<Bytes>
    requires IsCipher(c) && |v| == c.n
  {
    if y == [] || !Whole(c.n, y) then None
    else
      FirstBlock(c.n, y);
      Unfilled(c.n, CbcDec(c, v, y))
  }

  /** Decrypting and unpadding gives back the message. */
  lemma MessageRoundTrip(c: Block, v: Bytes, x: Bytes)
    requires IsCipher(c) && |v| == c.n
    ensures Message(c, v, CbcEnc(c, v, Filled(c.n, x))) == Some(x)
  {
    hide Whole, CbcEnc, CbcDec, Filled, Unfilled;
    CbcRoundTrip(c, v, Filled(c.n, x));
    FilledUnfills(c.n, x);
  }
}
