/** lzf_compress and lzf_decompress (crypto/lzf.c), on arrays, as the original runs them.
    Pointers into the input are positions; a hash table slot may hold any integer, since
    the table is never cleared. */
module Lzf {
  import opened Common
  import opened LzfFormat
  import opened LzfGreedy

  const E2BIG := 7
  const EINVAL := 22

  // ---- Decompression ----

  /** The literal copy loop. */
  method CopyLiteral(out: array<u8>, op: nat, inp: Bytes, ip: nat, n: nat)
    requires op + n <= out.Length && ip + n <= |inp|
    modifies out
    ensures out[..op + n] == old(out[..op]) + inp[ip..ip + n]
    ensures out[op + n..] == old(out[op + n..])
  {
    var k := 0;
    while k < n
      invariant 0 <= k <= n
      invariant out[..op + k] == old(out[..op]) + inp[ip..ip + k]
      invariant out[op + k..] == old(out[op + k..])
    {
      assert old(out[op + k..])[1..] == old(out[op + k + 1..]);
      out[op + k] := inp[ip + k];
      k := k + 1;
      assert out[..op + k] == out[..op + k - 1] + [inp[ip + k - 1]];
      assert inp[ip..ip + k] == inp[ip..ip + k - 1] + [inp[ip + k - 1]];
    }
  }

  /** The back reference copy loop; source and destination may overlap. */
  method CopyReference(out: array<u8>, op: nat, off: nat, n: nat)
    requires off < op && op + n <= out.Length
    modifies out
    ensures out[..op + n] == CopyBack(old(out[..op]), off, n)
    ensures out[op + n..] == old(out[op + n..])
  {
    hide CopyBack;
    var k := 0;
    ghost var (goal, cur) := (CopyBack(out[..op], off, n), out[..op]);
    while k < n
      invariant 0 <= k <= n && cur == out[..op + k]
      invariant CopyBack(cur, off, n - k) == goal
      invariant forall j :: op + k <= j < out.Length ==> out[j] == old(out[j])
    {
      CopyBackStep(cur, off, n - k);
      assert out[op + k - off - 1] == cur[|cur| - off - 1];
      out[op + k] := out[op + k - off - 1];
      cur := cur + [cur[|cur| - off - 1]];
      k := k + 1;
    }
    CopyBackEnds(cur, off);
  }

  lemma CopyBackStep(s: Bytes, off: nat, n: nat)
    requires off < |s| && n > 0
    ensures CopyBack(s, off, n) == CopyBack(s + [s[|s| - off - 1]], off, n - 1)
  {
  }

  lemma CopyBackEnds(s: Bytes, off: nat)
    requires off < |s|
    ensures CopyBack(s, off, 0) == s
  {
  }

  /** What lzf_decompress leaves in r and in the output buffer. */
  ghost predicate Reports(d: Decoded, r: int, written: Bytes) {
    match d
    case Ok(text) => 0 <= r <= |written| && text == written[..r]
    case TooBig => r == -E2BIG
    case Invalid => r == -EINVAL
  }

  /** What one token of input has led to: an error, or the input and output behind it. */
  ghost predicate TokenDone(p: Parsed, err: int, used: int, before: Bytes, after: Bytes) {
    match p
    case NoRoom => err == -E2BIG
    case Malformed => err == -EINVAL
    case Got(t, n) => err == 0 && used == n && (t.BackRef? ==> t.off < |before|) && after == Emit(before, t)
  }

  /** A run of literal octets. */
  method LiteralToken(inp: Bytes, ip0: nat, out: array<u8>, op0: nat) returns (err: int, ip: nat, op: nat)
    requires ip0 < |inp| && op0 <= out.Length && inp[ip0] < 32
    modifies out
    ensures err == 0 ==> op <= out.Length
    ensures TokenDone(ParseToken(inp[ip0..], op0, out.Length), err, ip - ip0, old(out[..op0]), if err == 0 then out[..op] else [])
  {
    ghost var rest := inp[ip0..];
    ip, op, err := ip0, op0, 0;
    var ctrl: int := inp[ip];
    ip := ip + 1;
    ctrl := ctrl + 1;
    if op + ctrl > out.Length {
      err := -E2BIG;
      return;
    }
    if ip + ctrl > |inp| {
      err := -EINVAL;
      return;
    }
    assert inp[ip..ip + ctrl] == rest[1..1 + ctrl];
    CopyLiteral(out, op, inp, ip, ctrl);
    ip, op := ip + ctrl, op + ctrl;
  }

  /** A back reference. */
  method ReferenceToken(inp: Bytes, ip0: nat, out: array<u8>, op0: nat) returns (err: int, ip: nat, op: nat)
    requires ip0 < |inp| && op0 <= out.Length && inp[ip0] >= 32
    modifies out
    ensures err == 0 ==> op <= out.Length
    ensures TokenDone(ParseToken(inp[ip0..], op0, out.Length), err, ip - ip0, old(out[..op0]), if err == 0 then out[..op] else [])
  {
    hide CopyBack;
    ip, op, err := ip0, op0, 0;
    var ctrl: int := inp[ip];
    ip := ip + 1;
    var len := ctrl / 32;
    var ref := op - (ctrl % 32) * 256 - 1;
    if ip >= |inp| {
      err := -EINVAL;
      return;
    }
    if len == 7 {
      len := len + inp[ip];
      ip := ip + 1;
      if ip >= |inp| {
        err := -EINVAL;
        return;
      }
    }
    ref := ref - inp[ip];
    ip := ip + 1;
    if op + len + 2 > out.Length {
      err := -E2BIG;
      return;
    }
    if ref < 0 {
      err := -EINVAL;
      return;
    }
    CopyReference(out, op, op - ref - 1, len + 2);
    op := op + len + 2;
  }

  /** The body of lzf_decompress's loop: one token. */
  method DecompressToken(inp: Bytes, ip0: nat, out: array<u8>, op0: nat) returns (err: int, ip: nat, op: nat)
    requires ip0 < |inp| && op0 <= out.Length
    modifies out
    ensures match ParseToken(inp[ip0..], op0, out.Length)
            case NoRoom => err == -E2BIG
            case Malformed => err == -EINVAL
            case Got(t, used) =>
              err == 0 && ip == ip0 + used && op == op0 + Growth(t) && out[..op] == Emit(old(out[..op0]), t)
  {
    hide ParseToken, Emit;
    if inp[ip0] < 32 {
      err, ip, op := LiteralToken(inp, ip0, out, op0);
    } else {
      err, ip, op := ReferenceToken(inp, ip0, out, op0);
    }
  }

  /** lzf_decompress does what the format says, for every input, including every malformed one. */
  method Decompress(inp: Bytes, out: array<u8>) returns (r: int)
    requires inp != []
    modifies out
    ensures Reports(Decode(inp, out.Length), r, out[..])
  {
    var ip, op := 0, 0;
    assert inp[0..] == inp && out[..0] == [];
    while true
      invariant 0 <= ip < |inp| && 0 <= op <= out.Length
      invariant DecodeFrom(inp[ip..], out[..op], out.Length) == Decode(inp, out.Length)
      decreases |inp| - ip
    {
      ghost var rest := inp[ip..];
      var err, ip', op' := DecompressToken(inp, ip, out, op);
      if err != 0 {
        return err;
      }
      assert rest[ip' - ip..] == inp[ip'..];
      ip, op := ip', op';
      if ip >= |inp| {
        return op;
      }
    }
  }

  // ---- Compression ----

  /** The fields of the main loop's state that the output depends on directly. */
  ghost function Here(ip: nat, op: nat, lit: nat, ts: seq<Token>): At { At([], 0, ip, op, lit, ts) }

  /** The state of the compressor: the tokens ts, written up to the header of the run that
      is being built, encode the input before that run; the run's octets follow its header,
      which has a place but no value yet. The last clause bounds the size. */
  ghost predicate Building(inp: Bytes, out: Bytes, ts: seq<Token>, ip: nat, op: nat, lit: nat) {
    && lit < MAX_LIT && lit <= ip <= |inp| && lit < op
    && op <= |out| + (if lit == 0 then 1 else 0)
    && IsEncoding(ts, out[..op - lit - 1], inp[..ip - lit])
    && (lit > 0 ==> out[op - lit..op] == inp[ip - lit..ip])
    && 32 * (op - lit - 1) <= 33 * (ip - lit)
  }

  lemma BuildingSize(inp: Bytes, out: Bytes, ts: seq<Token>, ip: nat, op: nat, lit: nat)
    requires Building(inp, out, ts, ip, op, lit)
    ensures 1 <= op && lit < MAX_LIT && lit <= ip <= |inp| && ValidTokens(ts)
    ensures op + (|inp| - ip) <= SizeLimit(|inp|) + 1
  {
  }

  lemma StopRun(inp: Bytes, out: Bytes, out': Bytes, ts: seq<Token>, ip: nat, op: nat, lit: nat)
    requires 0 < lit <= MAX_LIT && lit <= ip <= |inp| && lit < op <= |out| == |out'|
    requires IsEncoding(ts, out[..op - lit - 1], inp[..ip - lit])
    requires out[op - lit..op] == inp[ip - lit..ip]
    requires out'[..op] == out[..op - lit - 1] + [lit - 1] + out[op - lit..op]
    ensures IsEncoding(ts + [Literal(inp[ip - lit..ip])], out'[..op], inp[..ip])
  {
    var t := Literal(inp[ip - lit..ip]);
    ExpandOne(inp[..ip - lit], t);
    assert inp[..ip] == inp[..ip - lit] + t.bytes;
    AppendToken(ts, out[..op - lit - 1], inp[..ip - lit], t, inp[..ip]);
    assert out'[..op] == out[..op - lit - 1] + Serialize(t);
  }

  /** One more literal octet; a full run is closed and the next one started. */
  method PutLiteral(inp: Bytes, out: array<u8>, ip: nat, op: nat, lit: nat, ghost ts: seq<Token>)
    returns (ip': nat, op': nat, lit': nat, ghost ts': seq<Token>)
    requires Building(inp, out[..], ts, ip, op, lit)
    requires ip < |inp| && op < out.Length
    modifies out
    ensures Building(inp, out[..], ts', ip', op', lit')
    ensures lit <= ip && Here(ip', op', lit', ts') == Literally(inp, Here(ip, op, lit, ts))
  {
    hide Building, IsEncoding;
    ghost var was := out[..];
    RunSize(inp, was, ts, ip, op, lit);
    out[op] := inp[ip];
    ip', op', lit', ts' := ip + 1, op + 1, lit + 1, ts;
    ghost var mid := out[..];
    LiteralAdded(inp, was, mid, ts, ip, op, lit);
    if lit' == MAX_LIT {
      out[op' - lit' - 1] := lit' - 1;
      ts' := ts + [Literal(inp[ip' - lit'..ip'])];
      RunClosed(inp, mid, out[..], ts, ip', op');
      lit' := 0;
      op' := op' + 1;
    } else {
      RunGoesOn(inp, mid, ts, ip', op', lit');
    }
  }

  lemma RunSize(inp: Bytes, out: Bytes, ts: seq<Token>, ip: nat, op: nat, lit: nat)
    requires Building(inp, out, ts, ip, op, lit)
    ensures lit < MAX_LIT && lit <= ip && lit < op
  {
  }

  /** The run being built, one octet longer and maybe full: Building without its bound on the run. */
  ghost predicate Extended(inp: Bytes, out: Bytes, ts: seq<Token>, ip: nat, op: nat, lit: nat) {
    && 0 < lit <= MAX_LIT && lit <= ip <= |inp| && lit < op <= |out|
    && IsEncoding(ts, out[..op - lit - 1], inp[..ip - lit])
    && out[op - lit..op] == inp[ip - lit..ip]
    && 32 * (op - lit - 1) <= 33 * (ip - lit)
  }

  lemma LiteralAdded(inp: Bytes, was: Bytes, out: Bytes, ts: seq<Token>, ip: nat, op: nat, lit: nat)
    requires Building(inp, was, ts, ip, op, lit) && ip < |inp| && op < |was| && out == was[op := inp[ip]]
    ensures Extended(inp, out, ts, ip + 1, op + 1, lit + 1)
  {
    hide IsEncoding;
    assert out[..op - lit - 1] == was[..op - lit - 1];
    assert out[op - lit..op + 1] == was[op - lit..op] + [inp[ip]];
    assert inp[ip - lit..ip + 1] == inp[ip - lit..ip] + [inp[ip]];
  }

  lemma RunGoesOn(inp: Bytes, out: Bytes, ts: seq<Token>, ip: nat, op: nat, lit: nat)
    requires Extended(inp, out, ts, ip, op, lit) && lit < MAX_LIT
    ensures Building(inp, out, ts, ip, op, lit)
  {
    hide IsEncoding;
  }

  lemma RunClosed(inp: Bytes, mid: Bytes, out: Bytes, ts: seq<Token>, ip: nat, op: nat)
    requires Extended(inp, mid, ts, ip, op, MAX_LIT) && out == mid[op - MAX_LIT - 1 := MAX_LIT - 1]
    ensures Building(inp, out, ts + [Literal(inp[ip - MAX_LIT..ip])], ip, op + 1, 0)
  {
    hide IsEncoding;
    assert out[..op] == mid[..op - MAX_LIT - 1] + [MAX_LIT - 1] + mid[op - MAX_LIT..op];
    StopRun(inp, mid, out, ts, ip, op, MAX_LIT);
    assert out[..op + 1 - 0 - 1] == out[..op] && inp[..ip - 0] == inp[..ip];
  }

  /** The length of the match with the text off + 1 octets back: the sixteen unrolled
      comparisons, then the loop. */
  method MatchLength(inp: Bytes, off: nat, ip: nat) returns (len: nat)
    requires off < ip && ip + 4 < |inp|
    requires forall i :: ip <= i < ip + 3 ==> inp[i] == inp[i - off - 1]
    ensures 3 <= len <= MAX_REF && ip + len <= |inp|
    ensures forall i :: ip <= i < ip + len ==> inp[i] == inp[i - off - 1]
    ensures len == MatchLen(inp, off, ip)
  {
    var ref := ip - off - 1;
    len := 2;
    var maxlen := |inp| - ip - len;
    maxlen := if maxlen > MAX_REF then MAX_REF else maxlen;
    if maxlen > 16 {
      while len < 18
        invariant 2 <= len <= 18
        invariant forall i :: ip <= i <= ip + len ==> inp[i] == inp[i - off - 1]
      {
        len := len + 1;
        if inp[ref + len] != inp[ip + len] {
          ExtentIs(inp, off, ip, 3, MatchLimit(|inp| - ip), len);
          return;
        }
      }
    }
    len := len + 1;
    while len < maxlen && inp[ref + len] == inp[ip + len]
      invariant 3 <= len <= MatchLimit(|inp| - ip) && (maxlen <= 16 ==> len <= maxlen)
      invariant forall i :: ip <= i < ip + len ==> inp[i] == inp[i - off - 1]
    {
      len := len + 1;
    }
    ExtentIs(inp, off, ip, 3, MatchLimit(|inp| - ip), len);
  }

  /** The header and offset octets of a back reference. */
  method PutReference(out: array<u8>, op: nat, off: nat, len: nat) returns (op': nat)
    requires op + 3 <= out.Length && ValidToken(BackRef(off, len))
    modifies out
    ensures op' <= op + 3 && op' == op + |Serialize(BackRef(off, len))|
    ensures out[..op'] == old(out[..op]) + Serialize(BackRef(off, len))
  {
    var l := len - 2;
    op' := op;
    if l < 7 {
      out[op'] := off / 256 + l * 32;
      op' := op' + 1;
    } else {
      out[op'] := off / 256 + 7 * 32;
      op' := op' + 1;
      out[op'] := l - 7;
      op' := op' + 1;
    }
    out[op'] := off % 256;
    op' := op' + 1;
  }

  /** Close the run, or take back its header if it is empty. */
  method EndRun(inp: Bytes, out: array<u8>, ip: nat, op: nat, lit: nat, ghost ts: seq<Token>)
    returns (op': nat, ghost ts': seq<Token>)
    requires Building(inp, out[..], ts, ip, op, lit) && op <= out.Length
    modifies out
    ensures op' == (if lit == 0 then op - 1 else op)
    ensures IsEncoding(ts', out[..op'], inp[..ip])
    ensures lit <= ip <= |inp| && ts' == Close(inp, ip, lit, ts)
  {
    hide IsEncoding;
    ghost var was := out[..];
    out[op - lit - 1] := (lit - 1) % 256;
    op' := op - (if lit == 0 then 1 else 0);
    ts' := ts;
    if lit > 0 {
      assert out[..op] == was[..op - lit - 1] + [lit - 1] + was[op - lit..op];
      StopRun(inp, was, out[..], ts, ip, op, lit);
      ts' := ts + [Literal(inp[ip - lit..ip])];
    } else {
      assert out[..op'] == was[..op'];
    }
  }

  /** Close the run and write a match in its place. */
  method PutMatch(inp: Bytes, out: array<u8>, ip: nat, op: nat, lit: nat, ghost ts: seq<Token>, off: nat, len: nat)
    returns (op': nat, ghost ts': seq<Token>)
    requires Building(inp, out[..], ts, ip, op, lit)
    requires op - (if lit == 0 then 1 else 0) + 4 < out.Length
    requires off < ip && off < MAX_OFF && ip + 4 < |inp| && len == MatchLen(inp, off, ip)
    requires forall i :: ip <= i < ip + len ==> inp[i] == inp[i - off - 1]
    modifies out
    ensures Building(inp, out[..], ts', ip + len, op', 0)
    ensures 1 <= op' <= out.Length
    ensures lit <= ip && 1 <= op && Here(ip + len, op', 0, ts') == Matched(inp, Here(ip, op, lit, ts), off)
  {
    hide IsEncoding, MatchLen, Expand, CopyBack, SerializeAll;
    var t := BackRef(off, len);
    op', ts' := EndRun(inp, out, ip, op, lit, ts);
    ghost var octets := out[..op'];
    op' := PutReference(out, op', off, len);
    MatchContinues(inp, ip, off, len);
    ExpandOne(inp[..ip], t);
    AppendToken(ts', octets, inp[..ip], t, inp[..ip + len]);
    ts' := ts' + [t];
    assert inp[..ip + len - 0] == inp[..ip + len];
    op' := op' + 1;
  }

  /** The two branches of the main loop's body. The result is false where the original returns 0. */
  method PutNext(inp: Bytes, out: array<u8>, ref: int, ip0: nat, op0: nat, lit0: nat, ghost ts0: seq<Token>)
    returns (ok: bool, matched: bool, ip: nat, op: nat, lit: nat, ghost ts: seq<Token>)
    requires Building(inp, out[..], ts0, ip0, op0, lit0) && ip0 < |inp| - 2
    modifies out
    ensures ok ==> Building(inp, out[..], ts, ip, op, lit) && ip0 < ip <= |inp|
    ensures matched == Matches(inp, ref, ip0)
    ensures !ok ==> out.Length < SizeLimit(|inp|) + 4
    ensures lit0 <= ip0 && 1 <= op0
    ensures var g := Here(ip0, op0, lit0, ts0);
      if matched
      then (ok <==> Reused(g) + 4 < out.Length) && (ok ==> Here(ip, op, lit, ts) == Matched(inp, g, ip0 - ref - 1))
      else (ok <==> op0 < out.Length) && (ok ==> Here(ip, op, lit, ts) == Literally(inp, g))
  {
    hide Building, SizeLimit;
    BuildingSize(inp, out[..], ts0, ip0, op0, lit0);
    ok, ip, op, lit, ts := true, ip0, op0, lit0, ts0;
    matched :=
      && ref < ip && ip - ref - 1 < 8192 && ip + 4 < |inp| && ref > 0
      && inp[ref] == inp[ip] && inp[ref + 1] == inp[ip + 1] && inp[ref + 2] == inp[ip + 2];
    if matched {
      var off := ip - ref - 1;
      if op + 3 + 1 >= out.Length {
        if op - (if lit == 0 then 1 else 0) + 3 + 1 >= out.Length {
          ok := false;
          return;
        }
      }
      var len := MatchLength(inp, off, ip);
      op, ts := PutMatch(inp, out, ip, op, lit, ts, off, len);
      lit := 0;
      ip := ip + len;
    } else {
      if op >= out.Length {
        ok := false;
        return;
      }
      ip, op, lit, ts := PutLiteral(inp, out, ip, op, lit, ts);
    }
  }

  /** FRST: the first two octets. */
  method Frst(inp: Bytes, p: nat) returns (h: nat)
    requires p + 1 < |inp|
    ensures h == First(inp, p)
  {
    h := (inp[p] as int) * 0x100 + inp[p + 1];
  }

  /** NEXT: one octet more, in 32 bits. */
  method Next(v: nat, inp: Bytes, p: nat) returns (h: nat)
    requires p + 2 < |inp|
    ensures h == NextHash(v, inp, p)
  {
    h := v * 0x100 % 0x1_0000_0000 + inp[p + 2];
  }

  /** IDX: a shift, a difference and a mask. */
  method Idx(h: nat) returns (slot: nat)
    ensures slot == Slot(h)
  {
    slot := (h / 0x800 - h) % 0x2000;
  }

  /** The body of the main loop. */
  method CompressRound(inp: Bytes, out: array<u8>, htab: array<int>, hval0: nat, ip0: nat, op0: nat, lit0: nat, ghost ts0: seq<Token>)
    returns (ok: bool, hval: nat, ip: nat, op: nat, lit: nat, ghost ts: seq<Token>)
    requires htab.Length == HSIZE && Building(inp, out[..], ts0, ip0, op0, lit0) && ip0 < |inp| - 2
    modifies out, htab
    ensures ok ==> Building(inp, out[..], ts, ip, op, lit) && ip0 < ip <= |inp|
    ensures !ok ==> out.Length < SizeLimit(|inp|) + 4
    ensures lit0 <= ip0 && 1 <= op0
    ensures Round(inp, out.Length, At(old(htab[..]), hval0, ip0, op0, lit0, ts0)) ==
            if ok then Some(At(htab[..], hval, ip, op, lit, ts)) else None
  {
    hide Building, NextHash, First, Slot, SizeLimit, Matches, Serialize, MatchLen;
    hval := Next(hval0, inp, ip0);
    var slot := Idx(hval);
    var ref := htab[slot];
    htab[slot] := ip0;
    var matched;
    ok, matched, ip, op, lit, ts := PutNext(inp, out, ref, ip0, op0, lit0, ts0);
    if ok && matched && ip < |inp| - 2 {
      hval := Frst(inp, ip - 1);
      hval := Next(hval, inp, ip - 1);
      slot := Idx(hval);
      htab[slot] := ip - 1;
    }
  }

  /** lzf_compress. Whatever the hash table held, a non-zero result is an encoding of the
      input, and no more than 1/32 plus one octet longer; with four octets more than that
      to write to, the result is not zero. Exactly what it is depends on the table. */
  method Compress(inp: Bytes, out: array<u8>, htab: array<int>) returns (n: nat)
    requires htab.Length == HSIZE
    modifies out, htab
    ensures n <= out.Length
    ensures n > 0 ==> inp != [] && Encodes(out[..n], inp) && n <= |inp| + |inp| / 32 + 1
    ensures inp != [] && out.Length >= |inp| + |inp| / 32 + 4 ==> n > 0
    ensures Compressed(inp, out.Length, old(htab[..])) == if n == 0 then None else Some(out[..n])
  {
    if |inp| == 0 || out.Length == 0 {
      return 0;
    }
    htab[0] := -1;
    var ip: nat, op: nat, lit: nat := 0, 1, 0;
    ghost var ts: seq<Token> := [];
    assert IsEncoding(ts, out[..0], inp[..0]);
    assert Building(inp, out[..], ts, ip, op, lit);
    hide Building, Encodes, First, Round;
    var hval: nat := 0;
    if |inp| > 1 {
      hval := Frst(inp, 0);
    }
    ghost var goal := Greedily(inp, out.Length, Start(inp, old(htab[..])));
    while ip < |inp| - 2
      invariant Building(inp, out[..], ts, ip, op, lit) && AtOk(inp, At(htab[..], hval, ip, op, lit, ts))
      invariant goal == Greedily(inp, out.Length, At(htab[..], hval, ip, op, lit, ts))
      decreases |inp| - ip
    {
      ghost var g := At(htab[..], hval, ip, op, lit, ts);
      var ok;
      ok, hval, ip, op, lit, ts := CompressRound(inp, out, htab, hval, ip, op, lit, ts);
      if !ok {
        return 0;
      }
      RoundOk(inp, out.Length, g);
    }
    BuildingSize(inp, out[..], ts, ip, op, lit);
    n := Tail(inp, out, ip, op, lit, ts);
  }

  lemma EncodingEnds(ts: seq<Token>, octets: Bytes, text: Bytes)
    requires IsEncoding(ts, octets, text) && text != []
    ensures Encodes(octets, text) && octets != []
  {
    if ts != [] {
      assert SerializeAll(ts) == Serialize(ts[0]) + SerializeAll(ts[1..]);
    }
  }

  /** The end of lzf_compress: the last two octets at most, and the end of the last run. */
  method Tail(inp: Bytes, out: array<u8>, ip0: nat, op0: nat, lit0: nat, ghost ts0: seq<Token>) returns (n: nat)
    requires Building(inp, out[..], ts0, ip0, op0, lit0) && inp != [] && |inp| - 2 <= ip0
    modifies out
    ensures n <= out.Length
    ensures n == 0 <==> op0 + 3 > out.Length
    ensures n > 0 ==> Encodes(out[..n], inp) && n <= SizeLimit(|inp|) + 1
    ensures lit0 <= ip0 <= |inp| && lit0 < MAX_LIT && ValidTokens(ts0)
    ensures n > 0 ==> out[..n] == SerializeAll(Last(inp, ip0, lit0, ts0))
  {
    hide Building, Encodes, SizeLimit;
    var ip: nat, op: nat, lit: nat := ip0, op0, lit0;
    ghost var ts := ts0;
    BuildingSize(inp, out[..], ts, ip, op, lit);
    if op + 3 > out.Length {
      return 0;
    }
    BuildingSize(inp, out[..], ts, ip, op, lit);
    while ip < |inp|
      invariant Building(inp, out[..], ts, ip, op, lit)
      invariant ip <= |inp| && lit <= ip && lit < MAX_LIT && ValidTokens(ts) && Last(inp, ip, lit, ts) == Last(inp, ip0, lit0, ts0)
      invariant op + (|inp| - ip) + (if lit + (|inp| - ip) >= MAX_LIT then 1 else 0) <= out.Length
    {
      ip, op, lit, ts := PutLiteral(inp, out, ip, op, lit, ts);
      BuildingSize(inp, out[..], ts, ip, op, lit);
    }
    BuildingSize(inp, out[..], ts, ip, op, lit);
    n, ts := EndRun(inp, out, ip, op, lit, ts);
    assert inp[..|inp|] == inp;
    EncodingEnds(ts, out[..n], inp);
  }

  /** Whatever the hash table held: if compression succeeds, decompression into a buffer of
      the original size gives the original back. */
  method CompressThenDecompress(inp: Bytes, out: array<u8>, htab: array<int>, back: array<u8>) returns (n: nat, r: int)
    requires htab.Length == HSIZE && back.Length == |inp| && back != out
    modifies out, htab, back
    ensures n > 0 ==> r == |inp| && back[..] == inp
  {
    n := Compress(inp, out, htab);
    r := 0;
    if n > 0 {
      ghost var octets := out[..n];
      DecodeIff(octets, |inp|, inp);
      r := Decompress(out[..n], back);
      assert back[..] == back[..r];
    }
  }
}
