/** The LZF block format of crypto/lzf.c:

      000LLLLL <L+1 octets>       a literal run
      LLLooooo oooooooo           copy L+2 octets from o+1 octets back
      111ooooo LLLLLLLL oooooooo  copy L+9 octets from o+1 octets back */
module LzfFormat {
  import opened Common

  const MAX_LIT := 32
  const MAX_OFF := 8192
  const MAX_REF := 264

  /** BackRef copies len octets, each from off + 1 octets before its own place. */
  datatype Token = Literal(bytes: Bytes) | BackRef(off: nat, len: nat)

  predicate ValidToken(t: Token) {
    match t
    case Literal(bytes) => 1 <= |bytes| <= MAX_LIT
    case BackRef(off, len) => off < MAX_OFF && 3 <= len <= MAX_REF
  }

  ghost predicate ValidTokens(ts: seq<Token>) {
    forall i :: 0 <= i < |ts| ==> ValidToken(ts[i])
  }

  function Serialize(t: Token): Bytes
    requires ValidToken(t)
  {
    match t
    case Literal(bytes) => [|bytes| - 1] + bytes
    case BackRef(off, len) =>
      var l := len - 2;
      if l < 7 then [off / 256 + l * 32, off % 256]
      else [off / 256 + 7 * 32, l - 7, off % 256]
  }

  ghost function SerializeAll(ts: seq<Token>): Bytes
    requires ValidTokens(ts)
  {
    if ts == [] then [] else Serialize(ts[0]) + SerializeAll(ts[1..])
  }

  /** The octets are appended one by one, so a copy may read what it has just written. */
  function CopyBack(out: Bytes, off: nat, len: nat): (r: Bytes)
    requires off < |out|
    ensures |r| == |out| + len && r[..|out|] == out
    decreases len
  {
    if len == 0 then out else CopyBack(out + [out[|out| - off - 1]], off, len - 1)
  }

  /** The meaning of tokens: what they append to the output so far, or None if one of them
      reaches back before its start. */
  ghost function Expand(out: Bytes, ts: seq<Token>): (r: Option<Bytes>)
    ensures r.Some? ==> |out| <= |r.value|
    decreases |ts|
  {
    if ts == [] then Some(out)
    else
      match ts[0]
      case Literal(bytes) => Expand(out + bytes, ts[1..])
      case BackRef(off, len) => if off < |out| then Expand(CopyBack(out, off, len), ts[1..]) else None
  }

  /** The octets are a token sequence whose meaning is the given text. */
  ghost predicate Encodes(octets: Bytes, text: Bytes) {
    exists ts :: IsEncoding(ts, octets, text)
  }

  ghost predicate IsEncoding(ts: seq<Token>, octets: Bytes, text: Bytes) {
    ValidTokens(ts) && SerializeAll(ts) == octets && Expand([], ts) == Some(text)
  }

  // ---- Appending a token ----

  lemma {:induction false} SerializeAppend(ts: seq<Token>, t: Token)
    requires ValidTokens(ts) && ValidToken(t)
    ensures ValidTokens(ts + [t]) && SerializeAll(ts + [t]) == SerializeAll(ts) + Serialize(t)
  {
    if ts == [] {
      assert ts + [t] == [t];
      assert SerializeAll([t]) == Serialize(t) + SerializeAll([t][1..]);
    } else {
      SerializeAppend(ts[1..], t);
      assert (ts + [t])[1..] == ts[1..] + [t];
    }
  }

  lemma {:induction false} ExpandAppend(out: Bytes, ts: seq<Token>, t: Token)
    requires Expand(out, ts).Some?
    ensures Expand(out, ts + [t]) == Expand(Expand(out, ts).value, [t])
    decreases |ts|
  {
    if ts == [] {
      assert ts + [t] == [t];
    } else {
      assert (ts + [t])[1..] == ts[1..] + [t];
      match ts[0]
      case Literal(bytes) => ExpandAppend(out + bytes, ts[1..], t);
      case BackRef(off, len) => ExpandAppend(CopyBack(out, off, len), ts[1..], t);
    }
  }

  lemma ExpandOne(out: Bytes, t: Token)
    ensures t.Literal? ==> Expand(out, [t]) == Some(out + t.bytes)
    ensures t.BackRef? && t.off < |out| ==> Expand(out, [t]) == Some(CopyBack(out, t.off, t.len))
  {
    assert [t][1..] == [];
  }

  lemma AppendToken(ts: seq<Token>, octets: Bytes, text: Bytes, t: Token, text': Bytes)
    requires IsEncoding(ts, octets, text) && ValidToken(t) && Expand(text, [t]) == Some(text')
    ensures IsEncoding(ts + [t], octets + Serialize(t), text')
  {
    SerializeAppend(ts, t);
    ExpandAppend([], ts, t);
  }

  /** A back reference to a place where the text reads the same continues the text, even if
      the two places overlap. */
  lemma {:induction false} MatchContinues(text: Bytes, at: nat, off: nat, len: nat)
    requires off < at && at + len <= |text|
    requires forall i :: at <= i < at + len ==> text[i] == text[i - off - 1]
    ensures CopyBack(text[..at], off, len) == text[..at + len]
    decreases len
  {
    if len > 0 {
      assert text[..at] + [text[at]] == text[..at + 1];
      MatchContinues(text, at + 1, off, len - 1);
    }
  }

  // ---- Decoding ----

  datatype Decoded = Ok(text: Bytes) | TooBig | Invalid

  /** One token at the start of the input, or the error found while reading it. */
  datatype Parsed = Got(t: Token, used: nat) | NoRoom | Malformed

  /** Read one token, given that `done` octets of at most `cap` have been written. */
  function ParseToken(inp: Bytes, done: nat, cap: nat): (r: Parsed)
    requires inp != []
    ensures r.Got? ==> 1 < r.used <= |inp| && ValidToken(r.t) && done + Growth(r.t) <= cap
                       && (r.t.BackRef? ==> r.t.off < done)
  {
    var ctrl: int := inp[0];
    if ctrl < 32 then
      var n := ctrl + 1;
      if done + n > cap then NoRoom
      else if 1 + n > |inp| then Malformed
      else Got(Literal(inp[1..1 + n]), 1 + n)
    else if |inp| <= 1 then Malformed
    else if ctrl / 32 == 7 && |inp| <= 2 then Malformed
    else
      var l: int := if ctrl / 32 == 7 then 7 + inp[1] else ctrl / 32;
      var at := if ctrl / 32 == 7 then 2 else 1;
      var off: int := (ctrl % 32) * 256 + inp[at];
      if done + l + 2 > cap then NoRoom
      else if done - off - 1 < 0 then Malformed
      else Got(BackRef(off, l + 2), at + 1)
  }

  function Growth(t: Token): nat {
    match t
    case Literal(bytes) => |bytes|
    case BackRef(_, len) => len
  }

  function Emit(out: Bytes, t: Token): (r: Bytes)
    requires t.BackRef? ==> t.off < |out|
    ensures |r| == |out| + Growth(t)
  {
    match t
    case Literal(bytes) => out + bytes
    case BackRef(off, len) => CopyBack(out, off, len)
  }

  /** Token by token until the input is used up; the input must not be empty. */
  function DecodeFrom(inp: Bytes, out: Bytes, cap: nat): Decoded
    requires inp != []
    decreases |inp|
  {
    match ParseToken(inp, |out|, cap)
    case NoRoom => TooBig
    case Malformed => Invalid
    case Got(t, used) =>
      if used == |inp| then Ok(Emit(out, t)) else DecodeFrom(inp[used..], Emit(out, t), cap)
  }

  function Decode(inp: Bytes, cap: nat): Decoded
    requires inp != []
  {
    DecodeFrom(inp, [], cap)
  }

  /** What ParseToken finds is what Serialize wrote. */
  lemma ParseSerialized(t: Token, rest: Bytes, done: nat, cap: nat)
    requires ValidToken(t) && done + Growth(t) <= cap && (t.BackRef? ==> t.off < done)
    ensures ParseToken(Serialize(t) + rest, done, cap) == Got(t, |Serialize(t)|)
  {
    var inp := Serialize(t) + rest;
    match t
    case Literal(bytes) => assert inp[1..1 + |bytes|] == bytes;
    case BackRef(off, len) =>
      var l := len - 2;
      assert off == (off / 256) * 256 + off % 256;
      assert inp[0] / 32 == if l < 7 then l else 7;
      assert inp[0] % 32 == off / 256;
  }

  lemma SerializeParsed(inp: Bytes, done: nat, cap: nat)
    requires inp != [] && ParseToken(inp, done, cap).Got?
    ensures var r := ParseToken(inp, done, cap); inp == Serialize(r.t) + inp[r.used..] && |Serialize(r.t)| == r.used
  {
    var r := ParseToken(inp, done, cap);
    var ctrl: int := inp[0];
    assert inp == inp[..r.used] + inp[r.used..];
    if ctrl < 32 {
      assert inp[..r.used] == [ctrl] + inp[1..r.used];
    } else {
      var at := if ctrl / 32 == 7 then 2 else 1;
      var off: int := (ctrl % 32) * 256 + inp[at];
      assert off / 256 == ctrl % 32 && off % 256 == inp[at];
      assert inp[..r.used] == Serialize(r.t);
    }
  }

  /** Completeness: every sensible token sequence that fits is decoded to its meaning. */
  lemma {:induction false} DecodeComplete(ts: seq<Token>, out: Bytes, cap: nat)
    requires ValidTokens(ts) && ts != [] && Expand(out, ts).Some? && |Expand(out, ts).value| <= cap
    ensures SerializeAll(ts) != [] && DecodeFrom(SerializeAll(ts), out, cap) == Ok(Expand(out, ts).value)
    decreases |ts|
  {
    var t, rest := ts[0], SerializeAll(ts[1..]);
    ParseSerialized(t, rest, |out|, cap);
    assert SerializeAll(ts)[|Serialize(t)|..] == rest;
    if |ts| == 1 {
      assert ts[1..] == [];
    } else {
      DecodeComplete(ts[1..], Emit(out, t), cap);
    }
  }

  /** Soundness: whatever is decoded is a token sequence, and the result is its meaning. */
  lemma {:induction false} DecodeSound(inp: Bytes, out: Bytes, cap: nat) returns (ts: seq<Token>)
    requires inp != [] && DecodeFrom(inp, out, cap).Ok?
    ensures ts != [] && ValidTokens(ts) && SerializeAll(ts) == inp
    ensures Expand(out, ts) == Some(DecodeFrom(inp, out, cap).text)
    ensures |DecodeFrom(inp, out, cap).text| <= cap
    decreases |inp|
  {
    var p := ParseToken(inp, |out|, cap);
    SerializeParsed(inp, |out|, cap);
    if p.used == |inp| {
      ts := [p.t];
      assert ts[1..] == [];
      assert inp[p.used..] == [];
    } else {
      var ts' := DecodeSound(inp[p.used..], Emit(out, p.t), cap);
      ts := [p.t] + ts';
      assert ts[1..] == ts';
    }
  }

  /** The decoder accepts exactly the encodings of texts that fit, and returns the text. */
  lemma DecodeIff(inp: Bytes, cap: nat, text: Bytes)
    requires inp != []
    ensures Decode(inp, cap) == Ok(text) <==> Encodes(inp, text) && |text| <= cap
  {
    if Decode(inp, cap) == Ok(text) {
      var ts := DecodeSound(inp, [], cap);
      assert IsEncoding(ts, inp, text);
    }
    if Encodes(inp, text) && |text| <= cap {
      var ts :| IsEncoding(ts, inp, text);
      DecodeComplete(ts, [], cap);
    }
  }
}
