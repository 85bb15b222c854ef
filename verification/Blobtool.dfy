/**
 * Streaming encryption and decryption (run_cipher in tools/blobtool.c): input
 * comes in pieces of any size, and a block is held back so that the last one
 * can be padded or unpadded.
 */
module Blobtool {
  import opened Common
  import opened Arith
  import opened Cbc
  import opened CipherCtx

  /** `y` is what processing the whole blocks `x` gives, and `iv` the chaining value it leaves. */
  ghost predicate Processed(encrypting: bool, c: Block, v: Bytes, x: Bytes, y: Bytes, iv: Bytes)
    requires IsCipher(c) && |v| == c.n
  {
    if encrypting then Encrypts(c, v, x, y, iv) else Decrypts(c, v, x, y, iv)
  }

  lemma ProcessedBoth(encrypting: bool, c: Block, v: Bytes, a: Bytes, b: Bytes, y: Bytes, iv: Bytes, z: Bytes, iv2: Bytes)
    requires IsCipher(c) && |v| == c.n == |iv|
    requires Processed(encrypting, c, v, a, y, iv) && Processed(encrypting, c, iv, b, z, iv2)
    ensures Processed(encrypting, c, v, a + b, y + z, iv2)
  {
    hide Encrypts, Decrypts;
    if encrypting {
      EncryptsBoth(c, v, a, b, y, iv, z, iv2);
    } else {
      DecryptsBoth(c, v, a, b, y, iv, z, iv2);
    }
  }

  lemma ProcessedNothing(encrypting: bool, c: Block, v: Bytes)
    requires IsCipher(c) && |v| == c.n
    ensures Processed(encrypting, c, v, [], [], v)
  {
    NoBlocks(c.n);
  }

  /** A stream's cipher state, and the output so far. */
  class Pipe {
    const ctx: Context
    const partial: array<u8>
    var offset: nat
    var out: Bytes

    /** The chaining value and the output the stream began with. */
    ghost const start: Bytes
    ghost const header: Bytes
    /** What went through the cipher, what it gave, and what is held back. */
    ghost var body: Bytes
    ghost var given: Bytes
    ghost var held: Bytes

    /** The output is what the cipher gave for the body. */
    ghost predicate Flows()
      reads this, ctx.iv
    {
      && ctx.Valid() && |start| == ctx.block.n
      && Processed(ctx.encrypting, ctx.block, start, body, given, ctx.iv[..])
      && out == header + given
    }

    /** Once there was input, between one byte and one block of it is held back. */
    ghost predicate Valid()
      reads this, partial, ctx.iv
    {
      && Flows()
      && partial != ctx.iv && partial.Length == ctx.block.n
      && offset == |held| <= ctx.block.n && partial[..offset] == held
      && (body != [] ==> held != [])
    }

    /** All the input so far. */
    ghost function Input(): Bytes
      reads this
    {
      body + held
    }

    constructor (ctx: Context, header: Bytes)
      requires ctx.Valid()
      ensures Valid() && fresh(partial) && this.ctx == ctx && this.header == header && start == ctx.iv[..]
      ensures body == [] && held == [] && out == header
    {
      this.ctx, this.header, this.start := ctx, header, ctx.iv[..];
      partial := new u8[ctx.block.n];
      offset, out, body, given, held := 0, header, [], [], [];
      ProcessedNothing(ctx.encrypting, ctx.block, ctx.iv[..]);
    }

    /** Puts whole blocks through the cipher. */
    method Push(inp: array<u8>, i: nat, len: nat)
      requires Flows() && i + len <= inp.Length && WholeLength(ctx.block.n, len) && inp != ctx.iv
      modifies this`out, this`body, this`given, ctx.iv
      ensures Flows() && body == old(body) + inp[i..i + len]
    {
      hide IsCipher, Processed, WholeLength;
      ghost var (b, was) := (inp[i..i + len], ctx.iv[..]);
      var buf := new u8[len];
      var ok := ctx.Process(inp, i, len, buf, 0);
      assert buf[0..0 + len] == buf[..];
      ProcessedIs(ctx.encrypting, ctx.block, was, b, buf[..], ctx.iv[..]);
      ProcessedBoth(ctx.encrypting, ctx.block, start, body, b, given, was, buf[..], ctx.iv[..]);
      ConcatAssoc(header, given, buf[..]);
      out := out + buf[..];
      body, given := body + b, given + buf[..];
    }

    /** Fills the held block up, and lets it go if there is more to come. */
    method Refill(inp: array<u8>, from: nat) returns (i: nat)
      requires Valid() && from <= inp.Length && inp != partial && inp != ctx.iv && offset > 0
      modifies this`offset, this`out, this`body, this`given, this`held, partial, ctx.iv
      ensures Flows() && from <= i <= inp.Length && Input() == old(Input()) + inp[from..i]
      ensures offset == |held| <= ctx.block.n && partial[..offset] == held
      ensures if offset == 0 then i < inp.Length else i == inp.Length
    {
      hide IsCipher, Processed, WholeLength;
      var n := ctx.block.n;
      BlockSize(ctx.block);
      WholeBlock(n);
      var count := Min(n - offset, inp.Length - from);
      i := from + count;
      Copy(inp[from..i], partial, offset);
      ConcatAssoc(body, held, inp[from..i]);
      held := held + inp[from..i];
      offset := offset + count;
      assert partial[..offset] == held;
      if offset == n && i < inp.Length {
        assert partial[0..0 + n] == held;
        Push(partial, 0, n);
        offset, held := 0, [];
        assert body + held == body;
      }
    }

    /** Puts all whole blocks but the last through the cipher, if nothing is held back. */
    method PushBlocks(inp: array<u8>, from: nat) returns (i: nat)
      requires Flows() && from <= inp.Length && inp != ctx.iv && (held == [] || from == inp.Length)
      modifies this`out, this`body, this`given, ctx.iv
      ensures Flows() && from <= i <= inp.Length && inp.Length - i <= ctx.block.n
      ensures body == old(body) + inp[from..i] && (i > from ==> held == [])
      ensures i == inp.Length ==> from == inp.Length
    {
      hide IsCipher, Processed, WholeLength;
      var (n, len) := (ctx.block.n, inp.Length - from);
      BlockSize(ctx.block);
      var count := 0;
      if len / n != 0 {
        count := (len / n) * n;
        WholeCount(n, len);
        if len % n == 0 {
          count := count - n;
        }
        Push(inp, from, count);
      } else {
        SmallCount(n, len);
        assert inp[from..from] == [];
      }
      i := from + count;
    }

    /** Holds the rest back. */
    method Hold(inp: array<u8>, i: nat)
      requires Flows() && i <= inp.Length && inp != partial && inp != ctx.iv && inp.Length - i <= ctx.block.n
      requires partial != ctx.iv && partial.Length == ctx.block.n
      requires offset == |held| <= ctx.block.n && partial[..offset] == held
      requires held == [] || i == inp.Length
      modifies this`offset, this`held, partial
      ensures Flows() && held == old(held) + inp[i..]
      ensures offset == |held| <= ctx.block.n && partial[..offset] == held
    {
      hide IsCipher, Processed;
      Copy(inp[i..], partial, 0);
      held := held + inp[i..];
      offset := offset + (inp.Length - i);
      assert partial[..offset] == held;
    }

    /** One piece of input that is not the last. */
    method Run(inp: array<u8>, from: nat)
      requires Valid() && from <= inp.Length && inp != partial && inp != ctx.iv
      modifies this`offset, this`out, this`body, this`given, this`held, partial, ctx.iv
      ensures Valid() && Input() == old(Input()) + inp[from..]
    {
      hide IsCipher, Processed, Context.Valid;
      ghost var before := Input();
      var i := from;
      assert before + inp[from..i] == before;
      if offset != 0 {
        i := Refill(inp, from);
      }
      ghost var (b, h) := (body, held);
      var j := PushBlocks(inp, i);
      Hold(inp, j);
      Pieces(before, b, h, inp[..], from, i, j);
      assert inp[..][from..] == inp[from..];
    }

    /** The end of the input: pads, or checks and drops the padding. */
    method Finish() returns (ok: bool)
      requires Valid()
      modifies this`out, ctx.iv
      ensures ctx.encrypting ==> ok && out == header + CbcEnc(ctx.block, start, Filled(ctx.block.n, old(Input())))
      ensures !ctx.encrypting ==> (ok <==> Message(ctx.block, start, old(Input())).Some?)
      ensures !ctx.encrypting && ok ==> out == header + Message(ctx.block, start, old(Input())).value
    {
      hide IsCipher, Filled, Message, CbcEnc, CbcDec, Chain, Whole, WholeLength, Encrypts, Decrypts;
      var n := ctx.block.n;
      BlockSize(ctx.block);
      ghost var was := ctx.iv[..];
      assert partial[0..0 + offset] == held;
      var finalbuf := new u8[2 * n];
      var rc, outlen;
      if ctx.encrypting {
        HeldFits(n, held);
        rc, outlen := ctx.FinalEncrypt(partial, 0, offset, finalbuf, 0, 2 * n);
        EncryptsAll(ctx.block, start, body, held, given, was, finalbuf[0..0 + outlen], ctx.iv[..]);
      } else {
        MessageAll(ctx.block, start, body, held, given, was);
        MessageShort(ctx.block, was, held);
        rc, outlen := ctx.FinalDecrypt(partial, 0, offset, finalbuf, 0, 2 * n);
      }
      if !rc.Ok? {
        return false;
      }
      ok := true;
      assert finalbuf[0..0 + outlen] == finalbuf[..outlen];
      ConcatAssoc(header, given, finalbuf[..outlen]);
      out := out + finalbuf[..outlen];
    }
  }

  /** A whole number of blocks in front of a message does not change how it is padded. */
  lemma FilledSum(n: nat, a: Bytes, b: Bytes)
    requires 0 < n <= 16 && Whole(n, a)
    ensures Filled(n, a + b) == a + Filled(n, b)
  {
    ModSum(n, |a|, |b|);
    FilledAligned(n, b);
    var (x, offset) := (a + b, |b| - |b| % n);
    assert x[..|a| + offset] == a + b[..offset] && x[|a| + offset..] == b[offset..];
    ConcatAssoc(a, b[..offset], Pad(b[offset..], n));
  }

  lemma HeldFits(n: nat, held: Bytes)
    requires 0 < n <= 16 && |held| <= n
    ensures |Filled(n, held)| <= 2 * n
  {
    FilledAligned(n, held);
  }

  lemma EncryptsAll(c: Block, v: Bytes, a: Bytes, b: Bytes, y: Bytes, iv: Bytes, z: Bytes, iv2: Bytes)
    requires IsCipher(c) && |v| == c.n == |iv| && Encrypts(c, v, a, y, iv) && Encrypts(c, iv, Filled(c.n, b), z, iv2)
    ensures y + z == CbcEnc(c, v, Filled(c.n, a + b))
  {
    hide Whole, CbcEnc, Chain, Filled;
    EncryptsBoth(c, v, a, Filled(c.n, b), y, iv, z, iv2);
    FilledSum(c.n, a, b);
  }

  /** The message in a ciphertext is its first blocks decrypted, then the message in the rest. */
  lemma MessageAll(c: Block, v: Bytes, a: Bytes, b: Bytes, x: Bytes, iv: Bytes)
    requires IsCipher(c) && |v| == c.n == |iv| && Decrypts(c, v, a, x, iv) && (a != [] ==> b != [])
    ensures Message(c, iv, b).Some? <==> Message(c, v, a + b).Some?
    ensures Message(c, iv, b).Some? ==> Message(c, v, a + b).value == x + Message(c, iv, b).value
  {
    WholeSum(c.n, a, b);
    if Whole(c.n, b) && b != [] {
      FirstBlock(c.n, b);
      CbcDecConcat(c, v, a, b);
      hide Whole, CbcDec, Chain, IsCipher;
      UnfilledSum(c.n, x, CbcDec(c, iv, b));
    }
  }

  lemma UnfilledSum(n: nat, a: Bytes, p: Bytes)
    requires 0 < n <= |p|
    ensures Unfilled(n, p).Some? <==> Unfilled(n, a + p).Some?
    ensures Unfilled(n, p).Some? ==> Unfilled(n, a + p).value == a + Unfilled(n, p).value
  {
    var b := p[|p| - n..];
    assert (a + p)[|a + p| - n..] == b;
    if IsPadded(b) {
      var d: nat :| PadsAt(b, d);
      UnfilledAt(n, p, d);
      UnfilledAt(n, a + p, d);
      TakeMore(a, p, |p| - n + d);
    }
  }

  lemma UnfilledShort(n: nat, p: Bytes)
    requires 0 < n <= |p|
    ensures Unfilled(n, p).Some? ==> |Unfilled(n, p).value| <= |p|
  {
  }

  lemma MessageShort(c: Block, v: Bytes, y: Bytes)
    requires IsCipher(c) && |v| == c.n && |y| <= c.n
    ensures Message(c, v, y).Some? ==> |Message(c, v, y).value| <= c.n
  {
    hide Whole, CbcDec, Unfilled;
    if y != [] && Whole(c.n, y) {
      FirstBlock(c.n, y);
      UnfilledShort(c.n, CbcDec(c, v, y));
    }
  }

  lemma Pieces(before: Bytes, b: Bytes, h: Bytes, inp: Bytes, from: nat, i: nat, j: nat)
    requires from <= i <= j <= |inp| && b + h == before + inp[from..i]
    requires j > i ==> h == []
    ensures (b + inp[i..j]) + (h + inp[j..]) == before + inp[from..]
  {
    if j == i {
      assert inp[i..j] == [];
      assert b + [] == b;
    }
    assert inp[i..j] + inp[j..] == inp[i..] && inp[from..i] + inp[i..] == inp[from..];
    ConcatAssoc(b, h, inp[i..]);
    ConcatAssoc(before, inp[from..i], inp[i..]);
    ConcatAssoc(b, inp[i..j], inp[j..]);
  }

  lemma WholeCount(n: nat, len: nat)
    requires n > 0 && len / n != 0
    ensures (len / n) * n == len - len % n && len % n < n && n <= (len / n) * n
    ensures WholeLength(n, (len / n) * n) && WholeLength(n, (len / n) * n - n)
  {
    Division(n, len);
    assert Mul(n, len / n) == (len / n) * n;
    ModOf(n, len / n, 0);
    MulSplits(n, 1, len / n);
    ModOf(n, len / n - 1, 0);
    assert Mul(n, 1) == n;
  }

  lemma SmallCount(n: nat, len: nat)
    requires n > 0 && len / n == 0
    ensures len < n
  {
    Division(n, len);
  }

  lemma ProcessedIs(encrypting: bool, c: Block, v: Bytes, x: Bytes, y: Bytes, iv: Bytes)
    requires IsCipher(c) && |v| == c.n
    requires if encrypting then Encrypts(c, v, x, y, iv) else Decrypts(c, v, x, y, iv)
    ensures Processed(encrypting, c, v, x, y, iv)
  {
  }

  // ----- The encrypted file -----

  const MAGIC: Bytes := [83, 97, 108, 116, 101, 100, 95, 95]
  const SALT_LEN: nat := 8
  const HEADER_LEN: nat := 16

  /** How a salt and the key root determine the cipher and the first chaining value. */
  datatype Keying = Keying(cipher: Bytes -> Block, iv: Bytes -> Bytes)

  ghost predicate IsKeying(k: Keying) {
    forall salt: Bytes :: |salt| == SALT_LEN ==> IsCipher(k.cipher(salt)) && |k.iv(salt)| == k.cipher(salt).n
  }

  /** The whole output for `data`: the header, then its padded encryption. */
  ghost function Sealed(k: Keying, salt: Bytes, data: Bytes): Bytes
    requires IsKeying(k) && |salt| == SALT_LEN
  {
    var c := k.cipher(salt);
    MAGIC + salt + CbcEnc(c, k.iv(salt), Filled(c.n, data))
  }

  /** What a file says, if it is one. */
  ghost function Opened(k: Keying, file: Bytes): Option<Bytes>
    requires IsKeying(k)
  {
    if |file| < HEADER_LEN || file[..8] != MAGIC then None
    else
      var salt := file[8..HEADER_LEN];
      Message(k.cipher(salt), k.iv(salt), file[HEADER_LEN..])
  }

  lemma SealedOpens(k: Keying, salt: Bytes, data: Bytes)
    requires IsKeying(k) && |salt| == SALT_LEN
    ensures Opened(k, Sealed(k, salt, data)) == Some(data)
  {
    hide CbcEnc, Filled, Message;
    var c := k.cipher(salt);
    var (file, y) := (Sealed(k, salt, data), CbcEnc(c, k.iv(salt), Filled(c.n, data)));
    assert file[..8] == MAGIC && file[8..HEADER_LEN] == salt && file[HEADER_LEN..] == y;
    MessageRoundTrip(c, k.iv(salt), data);
  }

  method Feed(pipe: Pipe, pieces: seq<Bytes>)
    requires pipe.Valid()
    modifies pipe`offset, pipe`out, pipe`body, pipe`given, pipe`held, pipe.partial, pipe.ctx.iv
    ensures pipe.Valid() && pipe.Input() == old(pipe.Input()) + Flatten(pieces)
  {
    hide Pipe.Valid, Pipe.Input;
    ghost var before := pipe.Input();
    assert before + [] == before && pieces[..0] == [];
    for i := 0 to |pieces|
      invariant pipe.Valid() && pipe.Input() == before + Flatten(pieces[..i])
    {
      var a := ToArray(pieces[i]);
      assert a[0..] == pieces[i];
      pipe.Run(a, 0);
      assert pieces[..i + 1][..i] == pieces[..i];
      ConcatAssoc(before, Flatten(pieces[..i]), pieces[i]);
    }
    assert pieces[..|pieces|] == pieces;
  }

  /** Encrypts input that comes in any pieces, the last of them with the end of the input. */
  method Seal(k: Keying, salt: Bytes, pieces: seq<Bytes>) returns (out: Bytes)
    requires IsKeying(k) && |salt| == SALT_LEN
    ensures out == Sealed(k, salt, Flatten(pieces))
    ensures |out| >= 16 && out[..8] == [83, 97, 108, 116, 101, 100, 95, 95] && out[8..16] == salt
  {
    hide IsKeying, IsCipher, CbcEnc, Filled, Flatten, Context.Valid, Pipe.Valid;
    Keyed(k, salt);
    var ctx := new Context(k.cipher(salt), true, Some(k.iv(salt)));
    var pipe := new Pipe(ctx, MAGIC + salt);
    NoInput(pipe, pieces);
    Feed(pipe, pieces);
    var ok := pipe.Finish();
    out := pipe.out;
  }

  lemma NoInput(pipe: Pipe, pieces: seq<Bytes>)
    requires pipe.body == [] && pipe.held == []
    ensures pipe.Input() + Flatten(pieces) == Flatten(pieces)
  {
  }

  /** Decrypts input that comes in any pieces, if the first of them holds the header. */
  method Unseal(k: Keying, pieces: seq<Bytes>) returns (r: Option<Bytes>)
    requires IsKeying(k) && pieces != []
    ensures r == if |pieces[0]| < HEADER_LEN then None else Opened(k, Flatten(pieces))
  {
    hide IsKeying, IsCipher, Message, Flatten, Context.Valid, Pipe.Valid;
    if |pieces[0]| < HEADER_LEN {
      return None;
    }
    var first := pieces[0];
    var rest := [first[HEADER_LEN..]] + pieces[1..];
    FirstPiece(pieces, HEADER_LEN);
    HeaderFirst(first, Flatten(rest));
    if first[..8] != MAGIC {
      return None;
    }
    var salt := first[8..HEADER_LEN];
    Keyed(k, salt);
    var ctx := new Context(k.cipher(salt), false, Some(k.iv(salt)));
    var pipe := new Pipe(ctx, []);
    NoInput(pipe, rest);
    Feed(pipe, rest);
    var ok := pipe.Finish();
    assert ok ==> pipe.out == Message(k.cipher(salt), k.iv(salt), Flatten(rest)).value;
    r := if ok then Some(pipe.out) else None;
  }

  lemma HeaderFirst(first: Bytes, y: Bytes)
    requires |first| >= HEADER_LEN
    ensures var file := first[..HEADER_LEN] + y;
      file[..8] == first[..8] && file[8..HEADER_LEN] == first[8..HEADER_LEN] && file[HEADER_LEN..] == y
  {
  }

  /** The first bytes of the first piece are the first bytes of them all. */
  lemma {:induction false} FirstPiece(pieces: seq<Bytes>, n: nat)
    requires pieces != [] && n <= |pieces[0]|
    ensures Flatten(pieces) == pieces[0][..n] + Flatten([pieces[0][n..]] + pieces[1..])
    decreases |pieces|
  {
    var rest := [pieces[0][n..]] + pieces[1..];
    if |pieces| == 1 {
      assert pieces[..0] == [] && rest[..0] == [] && rest == [pieces[0][n..]];
      assert pieces[0][..n] + pieces[0][n..] == pieces[0];
    } else {
      var (front, last) := (pieces[..|pieces| - 1], pieces[|pieces| - 1]);
      FirstPiece(front, n);
      assert rest[..|rest| - 1] == [front[0][n..]] + front[1..] && rest[|rest| - 1] == last;
      ConcatAssoc(pieces[0][..n], Flatten(rest[..|rest| - 1]), last);
    }
  }

  lemma Keyed(k: Keying, salt: Bytes)
    requires IsKeying(k) && |salt| == SALT_LEN
    ensures IsCipher(k.cipher(salt)) && |k.iv(salt)| == k.cipher(salt).n
  {
  }
}
