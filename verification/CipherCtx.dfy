/**
 * A cipher context in CBC mode: crypto/cbc.c, crypto/pad.c and crypto/cipher.c,
 * working on caller buffers, in place where input and output coincide.
 */
module CipherCtx {
  import opened Common
  import opened Cbc

  /** Bytes of `out` outside `o..o + len` are as they were in `before`. */
  ghost predicate Outside(before: Bytes, after: Bytes, o: nat, len: nat) {
    |before| == |after| && forall k :: 0 <= k < |after| && !(o <= k < o + len) ==> after[k] == before[k]
  }

  method ToArray(x: Bytes) returns (a: array<u8>)
    ensures fresh(a) && a[..] == x
  {
    a := new u8[|x|](i requires 0 <= i < |x| => x[i]);
  }

  method Copy(data: Bytes, out: array<u8>, o: nat)
    requires o + |data| <= out.Length
    modifies out
    ensures out[o..o + |data|] == data && Outside(old(out[..]), out[..], o, |data|)
  {
    for k := 0 to |data|
      invariant forall j :: 0 <= j < k ==> out[o + j] == data[j]
      invariant forall j :: 0 <= j < out.Length && !(o <= j < o + k) ==> out[j] == old(out[j])
    {
      out[o + k] := data[k];
    }
  }

  /** Fills a block up from `datalen` on. */
  method PadBlock(buf: array<u8>, blocklen: nat, datalen: nat) returns (ok: bool)
    requires blocklen <= buf.Length
    modifies buf
    ensures ok == (datalen < blocklen && blocklen - datalen <= 255)
    ensures ok ==> buf[..blocklen] == Pad(old(buf[..datalen]), blocklen) && buf[blocklen..] == old(buf[blocklen..])
    ensures !ok ==> buf[..] == old(buf[..])
  {
    if datalen >= blocklen || blocklen - datalen > 255 {
      return false;
    }
    var pad: u8 := blocklen - datalen;
    for n := datalen to blocklen
      invariant forall k :: datalen <= k < n ==> buf[k] == pad
      invariant forall k :: 0 <= k < buf.Length && !(datalen <= k < n) ==> buf[k] == old(buf[k])
    {
      buf[n] := pad;
    }
    ok := true;
  }

  /** Accepts a block exactly if it is some data with its padding, and tells how much data. */
  method UnpadBlock(buf: array<u8>, blocklen: nat) returns (ok: bool, datalen: nat)
    requires 0 < blocklen <= buf.Length && blocklen <= 255
    ensures ok <==> IsPadded(buf[..blocklen])
    ensures ok ==> PadsAt(buf[..blocklen], datalen)
  {
    ghost var b := buf[..blocklen];
    var pad: int := buf[blocklen - 1];
    if pad == 0 || pad > blocklen {
      NotPadded(b, blocklen - 1);
      return false, 0;
    }
    for n := 1 to pad
      invariant forall k :: blocklen - n <= k < blocklen ==> b[k] == pad
    {
      if buf[blocklen - n - 1] != pad as u8 {
        NotPadded(b, blocklen - n - 1);
        return false, 0;
      }
    }
    datalen := blocklen - pad;
    assert Pad(b[..datalen], blocklen) == b;
    assert PadsAt(b, datalen);
    ok := true;
  }

  lemma PadBytes(b: Bytes, d: nat)
    requires PadsAt(b, d)
    ensures b[|b| - 1] == |b| - d && forall k :: d <= k < |b| ==> b[k] == |b| - d
  {
    forall k | d <= k < |b| ensures b[k] == |b| - d {
      assert Pad(b[..d], |b|)[k] == |b| - d;
    }
  }

  /** A last byte, or one among the last as many as it says, that does not fit. */
  lemma NotPadded(b: Bytes, k: nat)
    requires k < |b| <= 255
    requires var pad: int := b[|b| - 1]; pad == 0 || pad > |b| || (|b| - pad <= k && b[k] != b[|b| - 1])
    ensures !IsPadded(b)
  {
    if d: nat :| PadsAt(b, d) {
      PadBytes(b, d);
    }
  }

  class Context {
    const block: Block
    const iv: array<u8>
    const encrypting: bool

    ghost predicate Valid() {
      IsCipher(block) && iv.Length == block.n
    }

    /** A context with the given chaining value, or zeroes. */
    constructor (block: Block, encrypting: bool, start: Option<Bytes>)
      requires IsCipher(block) && (start.Some? ==> |start.value| == block.n)
      ensures Valid() && fresh(iv) && this.block == block && this.encrypting == encrypting
      ensures iv[..] == if start.Some? then start.value else Zeroes(block.n)
    {
      this.block, this.encrypting := block, encrypting;
      iv := new u8[block.n](i requires 0 <= i < block.n => if start.Some? then start.value[i] else 0);
    }

    method XorIntoIv(inp: array<u8>, i: nat)
      requires iv.Length == block.n && i + block.n <= inp.Length && iv != inp
      modifies iv
      ensures iv[..] == XorBytes(old(iv[..]), inp[i..i + block.n])
    {
      hide Xor;
      ghost var v := iv[..];
      for x := 0 to block.n
        invariant forall k :: 0 <= k < x ==> iv[k] == Xor(v[k], inp[i + k])
        invariant forall k :: x <= k < block.n ==> iv[k] == v[k]
      {
        iv[x] := Xor(iv[x], inp[i + x]);
      }
      assert iv[..] == XorBytes(v, inp[i..i + block.n]);
    }

    method StoreIv(out: array<u8>, o: nat)
      requires iv.Length == block.n && o + block.n <= out.Length && iv != out
      modifies iv
      ensures iv[..] == out[o..o + block.n]
    {
      for x := 0 to block.n
        invariant forall k :: 0 <= k < x ==> iv[k] == out[o + k]
      {
        iv[x] := out[o + x];
      }
    }

    /** One block: the chaining value takes in the plaintext, is encrypted, and becomes the ciphertext. */
    method EncryptBlock(inp: array<u8>, i: nat, out: array<u8>, o: nat)
      requires Valid() && i + block.n <= inp.Length && o + block.n <= out.Length && iv != inp && iv != out
      modifies iv, out
      ensures out[o..o + block.n] == block.enc(XorBytes(old(iv[..]), old(inp[i..i + block.n])))
      ensures iv[..] == out[o..o + block.n]
      ensures Outside(old(out[..]), out[..], o, block.n)
    {
      hide XorBytes, Outside;
      XorIntoIv(inp, i);
      var y := block.enc(iv[..]);
      hide IsCipher;
      Copy(y, out, o);
      StoreIv(out, o);
    }

    /** One block: decrypted and combined with the chaining value, which becomes the ciphertext. */
    method DecryptBlock(inp: array<u8>, i: nat, out: array<u8>, o: nat)
      requires Valid() && i + block.n <= inp.Length && o + block.n <= out.Length && iv != inp && iv != out
      requires inp != out || i == o
      modifies iv, out
      ensures out[o..o + block.n] == XorBytes(block.dec(old(inp[i..i + block.n])), old(iv[..]))
      ensures iv[..] == old(inp[i..i + block.n])
      ensures Outside(old(out[..]), out[..], o, block.n)
    {
      hide XorBytes, IsCipher;
      BlockLength(block, inp[i..i + block.n]);
      DecryptInto(block.dec(inp[i..i + block.n]), inp, i, out, o);
    }

    /** Combines a decrypted block with the chaining value, byte by byte. */
    method DecryptInto(tmp: Bytes, inp: array<u8>, i: nat, out: array<u8>, o: nat)
      requires iv.Length == block.n == |tmp|
      requires i + block.n <= inp.Length && o + block.n <= out.Length && iv != inp && iv != out
      requires inp != out || i == o
      modifies iv, out
      ensures out[o..o + block.n] == XorBytes(tmp, old(iv[..]))
      ensures iv[..] == old(inp[i..i + block.n])
      ensures Outside(old(out[..]), out[..], o, block.n)
    {
      hide Xor;
      var n := block.n;
      ghost var (v, y, before) := (iv[..], inp[i..i + n], out[..]);
      for x := 0 to n
        invariant forall k :: 0 <= k < x ==> out[o + k] == Xor(tmp[k], v[k])
        invariant forall k :: 0 <= k < x ==> iv[k] == y[k]
        invariant forall k :: x <= k < n ==> iv[k] == v[k]
        invariant forall k :: x <= k < n ==> inp[i + k] == y[k]
        invariant forall k :: 0 <= k < out.Length && !(o <= k < o + x) ==> out[k] == before[k]
      {
        var tmpy := Xor(tmp[x], iv[x]);
        iv[x] := inp[i + x];
        out[o + x] := tmpy;
      }
      assert out[o..o + n] == XorBytes(tmp, v);
    }

    /** Whole blocks only; in place if input and output are the same. */
    method CbcEncrypt(inp: array<u8>, i: nat, len: nat, out: array<u8>, o: nat) returns (ok: bool)
      requires Valid() && i + len <= inp.Length && o + len <= out.Length && iv != inp && iv != out
      requires inp != out || i == o
      modifies iv, out
      ensures ok == WholeLength(block.n, len)
      ensures ok ==> Encrypts(block, old(iv[..]), old(inp[i..i + len]), out[o..o + len], iv[..])
      ensures Outside(old(out[..]), out[..], o, len)
      ensures !ok ==> iv[..] == old(iv[..])
    {
      hide IsCipher, Encrypts, Whole, WholeLength, Outside;
      ghost var (v, x, before) := (iv[..], inp[i..i + len], out[..]);
      if !WholeLength(block.n, len) {
        NothingChanged(out[..], o, len);
        return false;
      }
      ghost var (a, rest) := ([], x);
      NothingYet(block, v, x, before, o);
      var done := 0;
      while done < len
        invariant done <= len && |a| == done && x == a + rest && Whole(block.n, rest)
        invariant Encrypts(block, v, a, out[o..o + done], iv[..])
        invariant forall k :: done <= k < len ==> inp[i + k] == x[k]
        invariant Outside(before, out[..], o, done)
        decreases len - done
      {
        a, rest := EncryptNext(inp, i, len, out, o, done, v, before, a, rest);
        done := done + block.n;
      }
      assert a == x;
      ok := true;
    }

    /** The loop's body: the next block of the rest. */
    method EncryptNext(inp: array<u8>, i: nat, len: nat, out: array<u8>, o: nat, done: nat,
                       ghost v: Bytes, ghost before: Bytes, ghost a: Bytes, ghost rest: Bytes)
      returns (ghost a2: Bytes, ghost rest2: Bytes)
      requires Valid() && i + len <= inp.Length && o + len <= out.Length && iv != inp && iv != out
      requires inp != out || i == o
      requires |a| == done < len && |a + rest| == len && Whole(block.n, rest)
      requires |v| == block.n && Encrypts(block, v, a, out[o..o + done], iv[..])
      requires forall k :: done <= k < len ==> inp[i + k] == (a + rest)[k]
      requires Outside(before, out[..], o, done)
      modifies iv, out
      ensures 0 < block.n && done + block.n <= len && |a2| == done + block.n && a + rest == a2 + rest2 && Whole(block.n, rest2)
      ensures Encrypts(block, v, a2, out[o..o + done + block.n], iv[..])
      ensures forall k :: done + block.n <= k < len ==> inp[i + k] == (a + rest)[k]
      ensures Outside(before, out[..], o, done + block.n)
    {
      hide IsCipher, Encrypts, XorBytes, Whole, WholeLength;
      BlockSize(block);
      FirstBlock(block.n, rest);
      ghost var b := rest[..block.n];
      a2, rest2 := a + b, rest[block.n..];
      ConcatAssoc(a, b, rest2);
      ghost var (was, mid) := (iv[..], out[..]);
      assert inp[i + done..i + done + block.n] == b by {
        forall k | 0 <= k < block.n ensures inp[i + done..i + done + block.n][k] == b[k] {
          assert inp[i + (done + k)] == (a + rest)[done + k];
        }
      }
      EncryptBlock(inp, i + done, out, o + done);
      EncryptsMore(block, v, a, b, mid[o..o + done], was, iv[..]);
      Glue(mid, out[..], o, done, block.n);
      Untouched(before, mid, out[..], o, done, block.n);
    }

    /** Whole blocks only; in place if input and output are the same. */
    method CbcDecrypt(inp: array<u8>, i: nat, len: nat, out: array<u8>, o: nat) returns (ok: bool)
      requires Valid() && i + len <= inp.Length && o + len <= out.Length && iv != inp && iv != out
      requires inp != out || i == o
      modifies iv, out
      ensures ok == WholeLength(block.n, len)
      ensures ok ==> Decrypts(block, old(iv[..]), old(inp[i..i + len]), out[o..o + len], iv[..])
      ensures Outside(old(out[..]), out[..], o, len)
      ensures !ok ==> iv[..] == old(iv[..])
    {
      hide IsCipher, Decrypts, Whole, WholeLength, Outside;
      ghost var (v, x, before) := (iv[..], inp[i..i + len], out[..]);
      if !WholeLength(block.n, len) {
        NothingChanged(out[..], o, len);
        return false;
      }
      ghost var (a, rest) := ([], x);
      NothingYet(block, v, x, before, o);
      var done := 0;
      while done < len
        invariant done <= len && |a| == done && x == a + rest && Whole(block.n, rest)
        invariant Decrypts(block, v, a, out[o..o + done], iv[..])
        invariant forall k :: done <= k < len ==> inp[i + k] == x[k]
        invariant Outside(before, out[..], o, done)
        decreases len - done
      {
        a, rest := DecryptNext(inp, i, len, out, o, done, v, before, a, rest);
        done := done + block.n;
      }
      assert a == x;
      ok := true;
    }

    /** The loop's body: the next block of the rest. */
    method DecryptNext(inp: array<u8>, i: nat, len: nat, out: array<u8>, o: nat, done: nat,
                       ghost v: Bytes, ghost before: Bytes, ghost a: Bytes, ghost rest: Bytes)
      returns (ghost a2: Bytes, ghost rest2: Bytes)
      requires Valid() && i + len <= inp.Length && o + len <= out.Length && iv != inp && iv != out
      requires inp != out || i == o
      requires |a| == done < len && |a + rest| == len && Whole(block.n, rest)
      requires |v| == block.n && Decrypts(block, v, a, out[o..o + done], iv[..])
      requires forall k :: done <= k < len ==> inp[i + k] == (a + rest)[k]
      requires Outside(before, out[..], o, done)
      modifies iv, out
      ensures 0 < block.n && done + block.n <= len && |a2| == done + block.n && a + rest == a2 + rest2 && Whole(block.n, rest2)
      ensures Decrypts(block, v, a2, out[o..o + done + block.n], iv[..])
      ensures forall k :: done + block.n <= k < len ==> inp[i + k] == (a + rest)[k]
      ensures Outside(before, out[..], o, done + block.n)
    {
      hide IsCipher, Decrypts, XorBytes, Whole, WholeLength;
      BlockSize(block);
      FirstBlock(block.n, rest);
      ghost var b := rest[..block.n];
      a2, rest2 := a + b, rest[block.n..];
      ConcatAssoc(a, b, rest2);
      ghost var (was, mid) := (iv[..], out[..]);
      assert inp[i + done..i + done + block.n] == b by {
        forall k | 0 <= k < block.n ensures inp[i + done..i + done + block.n][k] == b[k] {
          assert inp[i + (done + k)] == (a + rest)[done + k];
        }
      }
      BlockLength(block, b);
      DecryptBlock(inp, i + done, out, o + done);
      DecryptsMore(block, v, a, b, mid[o..o + done], was, out[o + done..o + done + block.n]);
      Glue(mid, out[..], o, done, block.n);
      Untouched(before, mid, out[..], o, done, block.n);
    }

    /** Whole blocks, in the context's direction. */
    method Process(inp: array<u8>, i: nat, len: nat, out: array<u8>, o: nat) returns (ok: bool)
      requires Valid() && i + len <= inp.Length && o + len <= out.Length && iv != inp && iv != out
      requires inp != out || i == o
      modifies iv, out
      ensures ok == WholeLength(block.n, len)
      ensures ok && encrypting ==> Encrypts(block, old(iv[..]), old(inp[i..i + len]), out[o..o + len], iv[..])
      ensures ok && !encrypting ==> Decrypts(block, old(iv[..]), old(inp[i..i + len]), out[o..o + len], iv[..])
      ensures Outside(old(out[..]), out[..], o, len)
    {
      if encrypting {
        ok := CbcEncrypt(inp, i, len, out, o);
      } else {
        ok := CbcDecrypt(inp, i, len, out, o);
      }
    }

    /** The end of a message to encrypt: pads it to whole blocks. */
    method FinalEncrypt(inp: array<u8>, i: nat, len: nat, out: array<u8>, o: nat, room: nat) returns (rc: Outcome, outlen: nat)
      requires Valid() && i + len <= inp.Length && o + room <= out.Length && iv != inp && iv != out
      requires inp != out || i == o
      modifies iv, out
      ensures rc.Ok? <==> |Filled(block.n, old(inp[i..i + len]))| <= room
      ensures rc.Ok? ==> outlen <= room
      ensures rc.Ok? ==> Encrypts(block, old(iv[..]), Filled(block.n, old(inp[i..i + len])), out[o..o + outlen], iv[..])
      ensures rc.Ok? || rc.Invalid?
      ensures Outside(old(out[..]), out[..], o, room)
    {
      hide IsCipher, Encrypts, Whole, Filled, WholeLength, Pad, Chain;
      BlockSize(block);
      var n := block.n;
      ghost var (v, x) := (iv[..], inp[i..i + len]);
      var tail := len % n;
      TailLength(n, len);
      var offset := len - tail;
      FilledIs(n, x, offset);
      if room < offset + n {
        NothingChanged(out[..], o, room);
        return Invalid, 0;
      }
      var last := new u8[16];
      Copy(inp[i + offset..i + len], last, 0);
      assert last[..tail] == x[offset..];
      var padded := PadBlock(last, n, tail);
      ghost var block2 := Pad(x[offset..], n);
      assert last[0..0 + n] == block2;
      assert inp[i..i + offset] == x[..offset];
      var first := CbcEncrypt(inp, i, offset, out, o);
      ghost var (mid, was) := (out[..], iv[..]);
      WholeBlock(n);
      var second := CbcEncrypt(last, 0, n, out, o + offset);
      EncryptsBoth(block, v, x[..offset], block2, mid[o..o + offset], was, out[o + offset..o + offset + n], iv[..]);
      Glue(mid, out[..], o, offset, n);
      Untouched(old(out[..]), mid, out[..], o, offset, n);
      rc, outlen := Ok, offset + n;
    }

    /** Decrypts all blocks but the last into `out`, and that one into `last`. */
    method DecryptParts(inp: array<u8>, i: nat, len: nat, out: array<u8>, o: nat, last: array<u8>)
      requires Valid() && block.n <= len && i + len <= inp.Length && o + len - block.n <= out.Length && block.n <= last.Length
      requires iv != inp && iv != out && iv != last && last != inp && last != out
      requires inp != out || i == o
      requires WholeLength(block.n, len - block.n)
      modifies iv, out, last
      ensures Decrypts(block, old(iv[..]), old(inp[i..i + len]), out[o..o + len - block.n] + last[..block.n], iv[..])
      ensures Outside(old(out[..]), out[..], o, len - block.n)
    {
      hide IsCipher, Decrypts, Whole, WholeLength, Chain;
      BlockSize(block);
      var (n, offset) := (block.n, len - block.n);
      ghost var (v, y) := (iv[..], inp[i..i + len]);
      assert inp[i..i + offset] == y[..offset];
      var first := CbcDecrypt(inp, i, offset, out, o);
      ghost var (mid, was) := (out[..], iv[..]);
      assert inp[i + offset..i + offset + n] == y[offset..];
      WholeBlock(n);
      var second := CbcDecrypt(inp, i + offset, n, last, 0);
      DecryptsBoth(block, v, y[..offset], y[offset..], mid[o..o + offset], was, last[0..0 + n], iv[..]);
      assert y[..offset] + y[offset..] == y;
    }

    /** The end of a message to decrypt: checks and drops the padding. */
    method FinalDecrypt(inp: array<u8>, i: nat, len: nat, out: array<u8>, o: nat, room: nat) returns (rc: Outcome, outlen: nat)
      requires Valid() && i + len <= inp.Length && o + room <= out.Length && iv != inp && iv != out
      requires inp != out || i == o
      modifies iv, out
      ensures var m := Message(block, old(iv[..]), old(inp[i..i + len]));
        && (rc.Ok? <==> m.Some? && |m.value| <= room)
        && (rc.Ok? ==> outlen == |m.value| && out[o..o + outlen] == m.value)
        && (rc.BadPadding? ==> m.None? && WholeLength(block.n, len))
      ensures Outside(old(out[..]), out[..], o, room)
    {
      hide IsCipher, Decrypts, Whole, WholeLength, Chain, Message;
      BlockSize(block);
      var n := block.n;
      ghost var (v, y, before) := (iv[..], inp[i..i + len], out[..]);
      NothingChanged(out[..], o, room);
      if len == 0 || !WholeLength(n, len) {
        NoMessage(block, v, y);
        return Invalid, 0;
      }
      LastBlock(block, v, y);
      var offset := len - n;
      if room < offset {
        return Invalid, 0;
      }
      var last := new u8[16];
      DecryptParts(inp, i, len, out, o, last);
      ghost var (mid, p) := (out[..], out[o..o + offset] + last[..n]);
      assert last[..n] == p[offset..];
      var ok, datalen := UnpadBlock(last, n);
      MessageIs(block, v, y, p, iv[..], if ok then Some(datalen) else None);
      Widen(before, mid, o, offset, room);
      if !ok {
        return BadPadding, 0;
      }
      if room < offset + datalen {
        return Invalid, 0;
      }
      Copy(last[..n][..datalen], out, o + offset);
      Glue(mid, out[..], o, offset, datalen);
      Untouched(before, mid, out[..], o, offset, datalen);
      Widen(before, out[..], o, offset + datalen, room);
      TakeMore(mid[o..o + offset], last[..n], datalen);
      rc, outlen := Ok, offset + datalen;
    }
  }

  lemma TakeMore(a: Bytes, b: Bytes, d: nat)
    requires d <= |b|
    ensures (a + b)[..|a| + d] == a + b[..d]
  {
  }

  lemma NoMessage(c: Block, v: Bytes, y: Bytes)
    requires IsCipher(c) && |v| == c.n && (y == [] || !WholeLength(c.n, |y|))
    ensures Message(c, v, y) == None
  {
  }

  /** Where the last block begins; no message is shorter than what comes before it. */
  lemma LastBlock(c: Block, v: Bytes, y: Bytes)
    requires IsCipher(c) && |v| == c.n && y != [] && WholeLength(c.n, |y|)
    ensures |y| >= c.n && WholeLength(c.n, |y| - c.n)
    ensures Message(c, v, y).Some? ==> |y| - c.n <= |Message(c, v, y).value|
  {
    FirstBlock(c.n, y);
  }

  /** `d` is what unpadding the last block came to. */
  lemma MessageIs(c: Block, v: Bytes, y: Bytes, p: Bytes, iv: Bytes, d: Option<nat>)
    requires IsCipher(c) && |v| == c.n && y != [] && Decrypts(c, v, y, p, iv) && |y| == |p| >= c.n
    requires d.Some? ==> PadsAt(p[|p| - c.n..], d.value)
    requires d.None? ==> !IsPadded(p[|p| - c.n..])
    ensures Message(c, v, y) == if d.Some? then Some(p[..|p| - c.n + d.value]) else None
  {
    hide Whole;
    if d.Some? {
      UnfilledAt(c.n, p, d.value);
    }
  }

  lemma Widen(before: Bytes, after: Bytes, o: nat, len: nat, room: nat)
    requires Outside(before, after, o, len) && len <= room
    ensures Outside(before, after, o, room)
  {
  }

  datatype Outcome = Ok | Invalid | BadPadding

  lemma TailLength(n: nat, len: nat)
    requires 0 < n <= 16
    ensures len % n < n && len % n <= len && WholeLength(n, len - len % n)
  {
    FilledAligned(n, Zeroes(len));
  }

  lemma FilledIs(n: nat, x: Bytes, offset: nat)
    requires 0 < n <= 16 && |x| % n <= |x| && offset == |x| - |x| % n
    ensures |x| - offset < n && Filled(n, x) == x[..offset] + Pad(x[offset..], n)
  {
    FilledAligned(n, x);
  }

  lemma WholeBlock(n: nat)
    requires 0 < n
    ensures WholeLength(n, n)
  {
    OneBlock(n, Zeroes(n));
  }

  lemma EncryptsBoth(c: Block, v: Bytes, a: Bytes, b: Bytes, y: Bytes, iv: Bytes, z: Bytes, iv2: Bytes)
    requires IsCipher(c) && |v| == c.n == |iv|
    requires Encrypts(c, v, a, y, iv) && Encrypts(c, iv, b, z, iv2)
    ensures Encrypts(c, v, a + b, y + z, iv2)
  {
    hide Whole, CbcEnc, Chain, IsCipher;
    CbcEncConcat(c, v, a, b);
    SameLength(c.n, a, y);
    SameLength(c.n, b, z);
    ChainSum(c.n, v, y, z);
  }

  lemma DecryptsBoth(c: Block, v: Bytes, a: Bytes, b: Bytes, x: Bytes, iv: Bytes, z: Bytes, iv2: Bytes)
    requires IsCipher(c) && |v| == c.n == |iv|
    requires Decrypts(c, v, a, x, iv) && Decrypts(c, iv, b, z, iv2)
    ensures Decrypts(c, v, a + b, x + z, iv2)
  {
    hide Whole, CbcDec, Chain, IsCipher;
    CbcDecConcat(c, v, a, b);
    ChainSum(c.n, v, a, b);
  }

  /** `y` is the encryption of `x`, and `iv` the chaining value it leaves. */
  ghost predicate Encrypts(c: Block, v: Bytes, x: Bytes, y: Bytes, iv: Bytes)
    requires IsCipher(c) && |v| == c.n
  {
    Whole(c.n, x) && y == CbcEnc(c, v, x) && iv == Chain(c.n, v, y)
  }

  ghost predicate Decrypts(c: Block, v: Bytes, y: Bytes, x: Bytes, iv: Bytes)
    requires IsCipher(c) && |v| == c.n
  {
    Whole(c.n, y) && x == CbcDec(c, v, y) && iv == Chain(c.n, v, y)
  }

  lemma NothingYet(c: Block, v: Bytes, x: Bytes, out: Bytes, o: nat)
    requires IsCipher(c) && |v| == c.n && WholeLength(c.n, |x|) && o <= |out|
    ensures Encrypts(c, v, [], out[o..o + 0], v) && Decrypts(c, v, [], out[o..o + 0], v)
    ensures Whole(c.n, x) && Outside(out, out, o, 0)
  {
    NoBlocks(c.n);
  }

  lemma EncryptsMore(c: Block, v: Bytes, a: Bytes, b: Bytes, y: Bytes, iv: Bytes, z: Bytes)
    requires IsCipher(c) && |v| == c.n == |b| == |iv| && Encrypts(c, v, a, y, iv)
    requires z == c.enc(XorBytes(iv, b))
    ensures Encrypts(c, v, a + b, y + z, z)
  {
    OneBlock(c.n, b);
    NoBlocks(c.n);
    BlockLength(c, XorBytes(iv, b));
    hide Whole, XorBytes;
    assert b + [] == b && z + [] == z;
    CbcEncConcat(c, v, a, b);
    CbcSteps(c, iv, b, []);
  }

  lemma DecryptsMore(c: Block, v: Bytes, a: Bytes, b: Bytes, x: Bytes, iv: Bytes, z: Bytes)
    requires IsCipher(c) && |v| == c.n == |b| == |iv| && Decrypts(c, v, a, x, iv)
    requires |c.dec(b)| == c.n && z == XorBytes(c.dec(b), iv)
    ensures Decrypts(c, v, a + b, x + z, b)
  {
    OneBlock(c.n, b);
    NoBlocks(c.n);
    hide Whole, XorBytes;
    assert b + [] == b && z + [] == z;
    CbcDecConcat(c, v, a, b);
    CbcSteps(c, iv, b, []);
  }

  /** What was written stays, and the next block follows it. */
  lemma Glue(before: Bytes, after: Bytes, o: nat, done: nat, n: nat)
    requires Outside(before, after, o + done, n) && o + done + n <= |after|
    ensures after[o..o + done + n] == before[o..o + done] + after[o + done..o + done + n]
  {
  }

  lemma Untouched(before: Bytes, mid: Bytes, after: Bytes, o: nat, done: nat, n: nat)
    requires Outside(before, mid, o, done) && Outside(mid, after, o + done, n)
    ensures Outside(before, after, o, done + n)
    ensures forall k :: o + done + n <= k < |after| ==> after[k] == mid[k]
  {
  }

  lemma NothingChanged(out: Bytes, o: nat, len: nat)
    ensures Outside(out, out, o, len)
  {
  }

  lemma BlockSize(c: Block)
    requires IsCipher(c)
    ensures 0 < c.n <= 16
  {
  }

  lemma BlockLength(c: Block, b: Bytes)
    requires IsCipher(c) && |b| == c.n
    ensures |c.dec(b)| == c.n && |c.enc(b)| == c.n
  {
  }

  function Zeroes(n: nat): Bytes { seq(n, i => 0) }
}
