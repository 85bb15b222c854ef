/**
 * Incremental hashing (crypto/sha1.c, crypto/md5.c, crypto/hash.c) over any
 * compression function: SHA-1 and MD5 differ in their initial words and in the
 * byte order of words and of the message length.
 */
module Hash {
  import opened Common

  /** Bytes per block. */
  const BLOCK: nat := 64

  type u32 = x: int | 0 <= x < 0x1_0000_0000

  const TWO64: nat := 0x1_0000_0000_0000_0000

  datatype Variant = Variant(bigEndian: bool, initial: seq<u32>, compress: (seq<u32>, Bytes) -> seq<u32>)

  const SHA1_INITIAL: seq<u32> := [0x67452301, 0xefcdab89, 0x98badcfe, 0x10325476, 0xc3d2e1f0]
  const MD5_INITIAL: seq<u32> := [0x67452301, 0xefcdab89, 0x98badcfe, 0x10325476]

  function Sha1(compress: (seq<u32>, Bytes) -> seq<u32>): Variant { Variant(true, SHA1_INITIAL, compress) }

  function Md5(compress: (seq<u32>, Bytes) -> seq<u32>): Variant { Variant(false, MD5_INITIAL, compress) }

  // ----- The specification -----

  /** The compression function over the blocks of `x`, starting from `d`. */
  function Fold(v: Variant, d: seq<u32>, x: Bytes): seq<u32>
    requires |x| % BLOCK == 0
    decreases |x|
  {
    if x == [] then d else Fold(v, v.compress(d, x[..BLOCK]), x[BLOCK..])
  }

  lemma {:induction false} FoldConcat(v: Variant, d: seq<u32>, a: Bytes, b: Bytes)
    requires |a| % BLOCK == 0 && |b| % BLOCK == 0
    ensures Fold(v, d, a + b) == Fold(v, Fold(v, d, a), b)
    decreases |a|
  {
    if a == [] {
      assert a + b == b;
    } else {
      assert (a + b)[..BLOCK] == a[..BLOCK] && (a + b)[BLOCK..] == a[BLOCK..] + b;
      FoldConcat(v, v.compress(d, a[..BLOCK]), a[BLOCK..], b);
    }
  }

  lemma FoldOne(v: Variant, d: seq<u32>, b: Bytes)
    requires |b| == BLOCK
    ensures Fold(v, d, b) == v.compress(d, b)
  {
    assert b[..BLOCK] == b && b[BLOCK..] == [];
  }

  function StoreWord(bigEndian: bool, w: u32): (r: Bytes)
    ensures |r| == 4
  {
    var n: int := w;
    if bigEndian then [n / 0x100_0000, n / 0x1_0000 % 256, n / 0x100 % 256, n % 256]
    else [n % 256, n / 0x100 % 256, n / 0x1_0000 % 256, n / 0x100_0000]
  }

  /** The 64-bit length of the message in bits, most or least significant word first. */
  function StoreLength(bigEndian: bool, bits: nat): (r: Bytes)
    requires bits < TWO64
    ensures |r| == 8
  {
    var high: u32 := bits / 0x1_0000_0000;
    var low: u32 := bits % 0x1_0000_0000;
    if bigEndian then StoreWord(true, high) + StoreWord(true, low)
    else StoreWord(false, low) + StoreWord(false, high)
  }

  function Zeroes(n: nat): Bytes { seq(n, i => 0) }

  /** The zero bytes between the one bit and the length. */
  function ZeroCount(len: nat): nat {
    var r := len % BLOCK;
    if r < 56 then 55 - r else 119 - r
  }

  /** They are the fewest that put the length at the end of a block. */
  lemma ZeroCountIsLeast(len: nat, k: nat)
    ensures (len + 1 + ZeroCount(len) + 8) % BLOCK == 0
    ensures (len + 1 + k + 8) % BLOCK == 0 ==> k >= ZeroCount(len)
  {
  }

  /** A one bit, zeroes, and the length of the message in bits. */
  function Padding(bigEndian: bool, len: nat): (r: Bytes)
    ensures (len + |r|) % BLOCK == 0
  {
    ZeroCountIsLeast(len, 0);
    [0x80] + Zeroes(ZeroCount(len)) + StoreLength(bigEndian, 8 * len % TWO64)
  }

  function StoreDigest(bigEndian: bool, d: seq<u32>): Bytes {
    if d == [] then [] else StoreWord(bigEndian, d[0]) + StoreDigest(bigEndian, d[1..])
  }

  /** The digest of a message. */
  function Digest(v: Variant, message: Bytes): Bytes {
    StoreDigest(v.bigEndian, Fold(v, v.initial, message + Padding(v.bigEndian, |message|)))
  }

  // ----- The octets of the padding and of the digest -----

  /** The four octets of a word, most significant first, and least significant first. */
  ghost predicate BigWord(b: Bytes, o: nat, w: int) {
    o + 4 <= |b| && 0x100_0000 * (b[o] as int) + 0x1_0000 * (b[o + 1] as int) + 0x100 * (b[o + 2] as int) + b[o + 3] == w
  }

  ghost predicate LittleWord(b: Bytes, o: nat, w: int) {
    o + 4 <= |b| && 0x100_0000 * (b[o + 3] as int) + 0x1_0000 * (b[o + 2] as int) + 0x100 * (b[o + 1] as int) + b[o] == w
  }

  /** The padded message: a one bit, fewer than 64 zero bytes, and eight bytes, to whole blocks. */
  ghost predicate IsPadded(padded: Bytes, message: Bytes) {
    && |padded| % 64 == 0 && |message| + 9 <= |padded| < |message| + 9 + 64
    && message <= padded && padded[|message|] == 0x80
    && forall i :: |message| < i < |padded| - 8 ==> padded[i] == 0
  }

  lemma StoredWord(w: u32)
    ensures BigWord(StoreWord(true, w), 0, w) && LittleWord(StoreWord(false, w), 0, w)
  {
  }

  lemma PaddedForm(bigEndian: bool, message: Bytes)
    ensures IsPadded(message + Padding(bigEndian, |message|), message)
    ensures var padded := message + Padding(bigEndian, |message|);
      padded[|padded| - 8..] == StoreLength(bigEndian, 8 * |message| % TWO64)
  {
    hide StoreLength;
    var zeroes := Zeroes(ZeroCount(|message|));
    assert forall i :: 0 <= i < |zeroes| ==> Padding(bigEndian, |message|)[i + 1] == zeroes[i] == 0;
  }

  /** The length at the end of the padding, as the two algorithms store its words. */
  lemma StoredLengths(bits: nat)
    requires bits < TWO64
    ensures BigWord(StoreLength(true, bits), 0, bits / 0x1_0000_0000) && BigWord(StoreLength(true, bits), 4, bits % 0x1_0000_0000)
    ensures LittleWord(StoreLength(false, bits), 0, bits % 0x1_0000_0000) && LittleWord(StoreLength(false, bits), 4, bits / 0x1_0000_0000)
  {
    hide StoreWord;
    StoredWord(bits / 0x1_0000_0000);
    StoredWord(bits % 0x1_0000_0000);
  }

  lemma {:induction false} StoredAt(bigEndian: bool, d: seq<u32>, i: nat)
    requires i < |d|
    ensures |StoreDigest(bigEndian, d)| == 4 * |d|
    ensures StoreDigest(bigEndian, d)[4 * i..4 * i + 4] == StoreWord(bigEndian, d[i])
  {
    hide StoreWord;
    StoredLength(bigEndian, d);
    if i > 0 {
      StoredAt(bigEndian, d[1..], i - 1);
    }
  }

  lemma StoredWords(d: seq<u32>)
    ensures forall i :: 0 <= i < |d| ==> BigWord(StoreDigest(true, d), 4 * i, d[i])
    ensures forall i :: 0 <= i < |d| ==> LittleWord(StoreDigest(false, d), 4 * i, d[i])
  {
    forall i | 0 <= i < |d|
      ensures BigWord(StoreDigest(true, d), 4 * i, d[i]) && LittleWord(StoreDigest(false, d), 4 * i, d[i])
    {
      WordAt(d, i);
    }
  }

  lemma WordAt(d: seq<u32>, i: nat)
    requires i < |d|
    ensures BigWord(StoreDigest(true, d), 4 * i, d[i]) && LittleWord(StoreDigest(false, d), 4 * i, d[i])
  {
    hide StoreDigest, StoreWord, BigWord, LittleWord;
    StoredAt(true, d, i);
    StoredAt(false, d, i);
    StoredWord(d[i]);
    Within(StoreDigest(true, d), 4 * i, d[i]);
    Within(StoreDigest(false, d), 4 * i, d[i]);
  }

  lemma Within(b: Bytes, o: nat, w: int)
    requires o + 4 <= |b|
    ensures BigWord(b[o..o + 4], 0, w) ==> BigWord(b, o, w)
    ensures LittleWord(b[o..o + 4], 0, w) ==> LittleWord(b, o, w)
  {
  }

  /** The compression function keeps the number of words. */
  ghost predicate KeepsWords(v: Variant) {
    forall d: seq<u32>, b: Bytes :: |d| == |v.initial| ==> |v.compress(d, b)| == |v.initial|
  }

  lemma {:induction false} FoldLength(v: Variant, d: seq<u32>, x: Bytes)
    requires |x| % BLOCK == 0 && |d| == |v.initial| && KeepsWords(v)
    ensures |Fold(v, d, x)| == |v.initial|
    decreases |x|
  {
    if x != [] {
      FoldLength(v, v.compress(d, x[..BLOCK]), x[BLOCK..]);
    }
  }

  lemma {:induction false} StoredLength(bigEndian: bool, d: seq<u32>)
    ensures |StoreDigest(bigEndian, d)| == 4 * |d|
  {
    if d != [] {
      StoredLength(bigEndian, d[1..]);
    }
  }

  /** Twenty bytes for SHA-1, sixteen for MD5. */
  lemma DigestLength(v: Variant, message: Bytes)
    requires KeepsWords(v)
    ensures |Digest(v, message)| == 4 * |v.initial|
  {
    var padded := message + Padding(v.bigEndian, |message|);
    FoldLength(v, v.initial, padded);
    StoredLength(v.bigEndian, Fold(v, v.initial, padded));
  }

  // ----- The context -----

  class Context {
    const v: Variant
    var digest: seq<u32>
    var count: nat
    const block: array<u8>
    var index: nat

    /** The whole blocks of the message so far, and the rest of it. */
    ghost var whole: Bytes
    ghost var rest: Bytes

    ghost predicate Valid()
      reads this, block
    {
      && block.Length == BLOCK
      && index == |rest| < BLOCK && block[..index] == rest
      && Folded(v, digest, count, whole)
    }

    ghost function Message(): Bytes
      reads this
    {
      whole + rest
    }

    constructor (v: Variant)
      ensures Valid() && Message() == [] && this.v == v && fresh(block)
    {
      this.v := v;
      block := new u8[BLOCK];
      digest, count, index := v.initial, 0, 0;
      whole, rest := [], [];
    }

    /** Takes in one block. */
    method Compress(data: Bytes)
      requires |data| == BLOCK && Folded(v, digest, count, whole)
      modifies this`digest, this`count, this`whole
      ensures Folded(v, digest, count, whole) && whole == old(whole) + data
    {
      FoldedMore(v, digest, count, whole, data);
      digest := v.compress(digest, data);
      count := (count + 1) % TWO64;
      whole := whole + data;
    }

    /** Takes in more of the message. */
    method Update(buffer: array<u8>)
      requires Valid() && buffer != block
      modifies this`digest, this`count, this`index, this`whole, this`rest, block
      ensures Valid() && Message() == old(Message()) + buffer[..]
    {
      hide Folded;
      ghost var before := Message();
      var from := 0;
      assert before + buffer[..from] == before;
      if index != 0 {
        var left := BLOCK - index;
        if buffer.Length < left {
          Store(buffer[..], index);
          ConcatAssoc(whole, rest, buffer[..]);
          rest := rest + buffer[..];
          index := index + buffer.Length;
          assert block[..index] == rest;
          return;
        }
        Store(buffer[..left], index);
        assert block[..] == rest + buffer[..left];
        ConcatAssoc(whole, rest, buffer[..left]);
        Compress(block[..]);
        from := left;
      }
      while buffer.Length - from >= BLOCK
        invariant from <= buffer.Length && Folded(v, digest, count, whole)
        invariant whole == before + buffer[..from]
        modifies this`digest, this`count, this`whole
      {
        assert buffer[..from] + buffer[from..from + BLOCK] == buffer[..from + BLOCK];
        ConcatAssoc(before, buffer[..from], buffer[from..from + BLOCK]);
        Compress(buffer[from..from + BLOCK]);
        from := from + BLOCK;
      }
      index, rest := buffer.Length - from, buffer[from..];
      Store(buffer[from..], 0);
      assert block[..index] == rest;
      assert buffer[..from] + buffer[from..] == buffer[..];
      ConcatAssoc(before, buffer[..from], buffer[from..]);
    }

    /** Copies bytes into the block. */
    method Store(data: Bytes, o: nat)
      requires o + |data| <= block.Length
      modifies block
      ensures block[o..o + |data|] == data && block[..o] == old(block[..o]) && block[o + |data|..] == old(block[o + |data|..])
    {
      for k := 0 to |data|
        invariant forall j :: 0 <= j < k ==> block[o + j] == data[j]
        invariant forall j :: 0 <= j < block.Length && !(o <= j < o + k) ==> block[j] == old(block[j])
      {
        block[o + k] := data[k];
      }
    }

    /** Writes the one bit; if the length no longer fits, the block is filled up and taken in. */
    method StartPadding() returns (i: nat)
      requires Valid()
      modifies this`digest, this`count, this`whole, block
      ensures Folded(v, digest, count, whole) && i <= BLOCK - 8
      ensures index < BLOCK - 8 ==> i == index + 1 && block[..i] == rest + [0x80] && whole == old(whole)
      ensures index >= BLOCK - 8 ==> i == 0 && whole == old(whole) + ((rest + [0x80]) + Zeroes(BLOCK - index - 1))
    {
      hide Folded;
      i := index + 1;
      Store([0x80], index);
      assert block[..i] == rest + [0x80];
      if i > BLOCK - 8 {
        Store(Zeroes(BLOCK - i), i);
        assert block[..] == (rest + [0x80]) + Zeroes(BLOCK - i);
        Compress(block[..]);
        i := 0;
      }
    }

    /** Fills the block up with zeroes and the length, and takes it in. */
    method EndPadding(i: nat, length: Bytes)
      requires Folded(v, digest, count, whole) && block.Length == BLOCK && i <= BLOCK - 8 && |length| == 8
      modifies this`digest, this`count, this`whole, block
      ensures Folded(v, digest, count, whole)
      ensures whole == old(whole) + ((old(block[..i]) + Zeroes(BLOCK - 8 - i)) + length)
    {
      hide Folded;
      ghost var y := block[..i];
      Store(Zeroes(BLOCK - 8 - i), i);
      assert block[..BLOCK - 8] == y + Zeroes(BLOCK - 8 - i);
      Store(length, BLOCK - 8);
      assert block[..] == (y + Zeroes(BLOCK - 8 - i)) + length;
      Compress(block[..]);
    }

    /** Pads the message, gives its digest, and makes the context ready for another. */
    method Final() returns (out: Bytes)
      requires Valid()
      modifies this`digest, this`count, this`index, this`whole, this`rest, block
      ensures out == Digest(v, old(Message()))
      ensures Valid() && Message() == []
    {
      hide Folded, StoreLength, StoreDigest, Fold, Padding, Zeroes;
      ghost var (x, w) := (rest, whole);
      BitCount(v, digest, count, whole, rest);
      var length := StoreLength(v.bigEndian, (count * 512 % TWO64) + index * 8);
      FoldedIs(v, digest, count, whole);
      var i := StartPadding();
      EndPadding(i, length);
      if |x| < BLOCK - 8 {
        PaddedShort(v.bigEndian, w, x, length);
      } else {
        PaddedLong(v.bigEndian, w, x, length);
      }
      FoldedIs(v, digest, count, whole);
      out := StoreDigest(v.bigEndian, digest);
      digest, count, index := v.initial, 0, 0;
      whole, rest := [], [];
      NothingFolded(v);
    }
  }

  lemma FoldedIs(v: Variant, digest: seq<u32>, count: nat, whole: Bytes)
    requires Folded(v, digest, count, whole)
    ensures |whole| % BLOCK == 0 && digest == Fold(v, v.initial, whole)
  {
  }

  lemma NothingFolded(v: Variant)
    ensures Folded(v, v.initial, 0, [])
  {
  }

  /** The bit count put together from the block count and the index, both machine words. */
  lemma BitCount(v: Variant, digest: seq<u32>, count: nat, whole: Bytes, rest: Bytes)
    requires Folded(v, digest, count, whole) && |rest| < BLOCK
    ensures (count * 512 % TWO64) + |rest| * 8 == 8 * |whole + rest| % TWO64
  {
    hide Fold;
  }

  lemma RestOf(w: Bytes, x: Bytes)
    requires |w| % BLOCK == 0 && |x| < BLOCK
    ensures ZeroCount(|w + x|) == if |x| < 56 then 55 - |x| else 119 - |x|
  {
  }

  /** The block made of the end of the message is the rest of it with the padding. */
  lemma PaddedShort(bigEndian: bool, w: Bytes, x: Bytes, length: Bytes)
    requires |w| % BLOCK == 0 && |x| < BLOCK - 8 && length == StoreLength(bigEndian, 8 * |w + x| % TWO64)
    ensures w + (((x + [0x80]) + Zeroes(BLOCK - 8 - (|x| + 1))) + length) == (w + x) + Padding(bigEndian, |w + x|)
  {
    hide StoreLength, Zeroes;
    RestOf(w, x);
    Reassociate(w, x, [0x80], Zeroes(55 - |x|), length);
  }

  lemma Reassociate(w: Bytes, x: Bytes, a: Bytes, z: Bytes, l: Bytes)
    ensures w + (((x + a) + z) + l) == (w + x) + ((a + z) + l)
  {
    ConcatAssoc(x, a, z);
    ConcatAssoc(x, a + z, l);
    ConcatAssoc(w, x, (a + z) + l);
  }

  /** So are the two blocks made of it if the length does not fit. */
  lemma PaddedLong(bigEndian: bool, w: Bytes, x: Bytes, length: Bytes)
    requires |w| % BLOCK == 0 && BLOCK - 8 <= |x| < BLOCK && length == StoreLength(bigEndian, 8 * |w + x| % TWO64)
    ensures (w + ((x + [0x80]) + Zeroes(BLOCK - |x| - 1))) + (([] + Zeroes(BLOCK - 8 - 0)) + length) ==
            (w + x) + Padding(bigEndian, |w + x|)
  {
    hide StoreLength;
    RestOf(w, x);
    var (z1, z2) := (Zeroes(BLOCK - |x| - 1), Zeroes(BLOCK - 8));
    assert z1 + z2 == Zeroes(119 - |x|);
    assert [] + z2 == z2;
    hide Zeroes;
    ConcatAssoc(w, (x + [0x80]) + z1, z2 + length);
    ConcatAssoc((x + [0x80]) + z1, z2, length);
    ConcatAssoc(x + [0x80], z1, z2);
    Reassociate(w, x, [0x80], z1 + z2, length);
  }

  /** The digest words and the block count after the blocks of `whole`; the count has 64 bits. */
  ghost predicate Folded(v: Variant, digest: seq<u32>, count: nat, whole: Bytes) {
    |whole| % BLOCK == 0 && digest == Fold(v, v.initial, whole) && count == |whole| / BLOCK % TWO64
  }

  lemma FoldedMore(v: Variant, digest: seq<u32>, count: nat, whole: Bytes, data: Bytes)
    requires Folded(v, digest, count, whole) && |data| == BLOCK
    ensures Folded(v, v.compress(digest, data), (count + 1) % TWO64, whole + data)
  {
    FoldConcat(v, v.initial, whole, data);
    FoldOne(v, digest, data);
    hide Fold;
  }


  /** However the message is cut into updates, the digest is that of the whole. */
  method HashPieces(v: Variant, pieces: seq<Bytes>) returns (out: Bytes)
    ensures out == Digest(v, Flatten(pieces))
  {
    hide Context.Valid, Context.Message, Digest;
    var ctx := new Context(v);
    assert pieces[..0] == [];
    for i := 0 to |pieces|
      invariant ctx.Valid() && ctx.Message() == Flatten(pieces[..i]) && ctx.v == v && fresh(ctx) && fresh(ctx.block)
    {
      var piece := pieces[i];
      var buffer := new u8[|piece|](k requires 0 <= k < |piece| => piece[k]);
      assert buffer[..] == piece;
      ctx.Update(buffer);
      assert pieces[..i + 1][..i] == pieces[..i];
    }
    assert pieces[..|pieces|] == pieces;
    out := ctx.Final();
  }

  /** SHA-1, with its five words in big-endian order, however the message is cut. */
  method Sha1Pieces(compress: (seq<u32>, Bytes) -> seq<u32>, pieces: seq<Bytes>) returns (out: Bytes)
    requires KeepsWords(Sha1(compress))
    ensures out == Digest(Sha1(compress), Flatten(pieces)) && |out| == 20
    ensures var message := Flatten(pieces);
      var padded := message + Padding(true, |message|);
      var words := Fold(Sha1(compress), [0x67452301, 0xefcdab89, 0x98badcfe, 0x10325476, 0xc3d2e1f0], padded);
      && IsPadded(padded, message)
      && BigWord(padded[|padded| - 8..], 0, 8 * |message| % TWO64 / 0x1_0000_0000)
      && BigWord(padded[|padded| - 8..], 4, 8 * |message| % TWO64 % 0x1_0000_0000)
      && |words| == 5 && forall i :: 0 <= i < 5 ==> BigWord(out, 4 * i, words[i])
  {
    out := HashPieces(Sha1(compress), pieces);
    Sha1Octets(compress, Flatten(pieces));
  }

  lemma Sha1Octets(compress: (seq<u32>, Bytes) -> seq<u32>, message: Bytes)
    requires KeepsWords(Sha1(compress))
    ensures |Digest(Sha1(compress), message)| == 20
    ensures var padded := message + Padding(true, |message|);
      var words := Fold(Sha1(compress), SHA1_INITIAL, padded);
      && IsPadded(padded, message)
      && BigWord(padded[|padded| - 8..], 0, 8 * |message| % TWO64 / 0x1_0000_0000)
      && BigWord(padded[|padded| - 8..], 4, 8 * |message| % TWO64 % 0x1_0000_0000)
      && |words| == 5 && forall i :: 0 <= i < 5 ==> BigWord(Digest(Sha1(compress), message), 4 * i, words[i])
  {
    hide Padding, Fold, StoreLength, StoreDigest, BigWord, LittleWord, IsPadded;
    DigestLength(Sha1(compress), message);
    var padded := message + Padding(true, |message|);
    FoldLength(Sha1(compress), SHA1_INITIAL, padded);
    PaddedForm(true, message);
    StoredLengths(8 * |message| % TWO64);
    StoredWords(Fold(Sha1(compress), SHA1_INITIAL, padded));
  }

  /** MD5, with its four words in little-endian order, however the message is cut. */
  method Md5Pieces(compress: (seq<u32>, Bytes) -> seq<u32>, pieces: seq<Bytes>) returns (out: Bytes)
    requires KeepsWords(Md5(compress))
    ensures out == Digest(Md5(compress), Flatten(pieces)) && |out| == 16
    ensures var message := Flatten(pieces);
      var padded := message + Padding(false, |message|);
      var words := Fold(Md5(compress), [0x67452301, 0xefcdab89, 0x98badcfe, 0x10325476], padded);
      && IsPadded(padded, message)
      && LittleWord(padded[|padded| - 8..], 0, 8 * |message| % TWO64 % 0x1_0000_0000)
      && LittleWord(padded[|padded| - 8..], 4, 8 * |message| % TWO64 / 0x1_0000_0000)
      && |words| == 4 && forall i :: 0 <= i < 4 ==> LittleWord(out, 4 * i, words[i])
  {
    out := HashPieces(Md5(compress), pieces);
    Md5Octets(compress, Flatten(pieces));
  }

  lemma Md5Octets(compress: (seq<u32>, Bytes) -> seq<u32>, message: Bytes)
    requires KeepsWords(Md5(compress))
    ensures |Digest(Md5(compress), message)| == 16
    ensures var padded := message + Padding(false, |message|);
      var words := Fold(Md5(compress), MD5_INITIAL, padded);
      && IsPadded(padded, message)
      && LittleWord(padded[|padded| - 8..], 0, 8 * |message| % TWO64 % 0x1_0000_0000)
      && LittleWord(padded[|padded| - 8..], 4, 8 * |message| % TWO64 / 0x1_0000_0000)
      && |words| == 4 && forall i :: 0 <= i < 4 ==> LittleWord(Digest(Md5(compress), message), 4 * i, words[i])
  {
    hide Padding, Fold, StoreLength, StoreDigest, BigWord, LittleWord, IsPadded;
    DigestLength(Md5(compress), message);
    var padded := message + Padding(false, |message|);
    FoldLength(Md5(compress), MD5_INITIAL, padded);
    PaddedForm(false, message);
    StoredLengths(8 * |message| % TWO64);
    StoredWords(Fold(Md5(compress), MD5_INITIAL, padded));
  }
}
