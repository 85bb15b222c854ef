/** The stream format of crypto/lzf-stream.c, and what its decoder makes of any octets,
    however they are cut into calls. */
module LzfWire {
  import opened Common
  import opened LzfFormat

  const MAX_BLOCK := 65535
  const BUFLEN := 65542

  /** zlib's crc32 is a fold of some function over the octets. */
  type CrcStep = (nat, u8) -> nat

  function Crc(step: CrcStep, crc: nat, s: Bytes): (r: nat)
    ensures crc < 0x1_0000_0000 ==> r < 0x1_0000_0000
    decreases |s|
  {
    if s == [] then crc else Crc(step, step(crc, s[0]) % 0x1_0000_0000, s[1..])
  }

  lemma {:induction false} CrcConcat(step: CrcStep, crc: nat, a: Bytes, b: Bytes)
    ensures Crc(step, crc, a + b) == Crc(step, Crc(step, crc, a), b)
    decreases |a|
  {
    if a == [] {
      assert a + b == b;
    } else {
      assert (a + b)[1..] == a[1..] + b;
      CrcConcat(step, step(crc, a[0]) % 0x1_0000_0000, a[1..], b);
    }
  }

  /** STORE16H, LOAD16H, STORE32H, LOAD32H. */
  function Be16(n: nat): (r: Bytes)
    requires n < 0x1_0000
    ensures |r| == 2 && 0x100 * (r[0] as int) + r[1] == n
  {
    [n / 256, n % 256]
  }

  function Load16(s: Bytes): (r: nat)
    requires |s| == 2
    ensures r < 0x1_0000
  {
    var hi: int := s[0];
    hi * 256 + s[1]
  }

  function Be32(n: nat): (r: Bytes)
    requires n < 0x1_0000_0000
    ensures |r| == 4 && 0x100_0000 * (r[0] as int) + 0x1_0000 * (r[1] as int) + 0x100 * (r[2] as int) + r[3] == n
  {
    Be16(n / 0x1_0000) + Be16(n % 0x1_0000)
  }

  function Load32(s: Bytes): nat
    requires |s| == 4
  {
    Load16(s[..2]) * 0x1_0000 + Load16(s[2..])
  }

  const Z: u8 := 90
  const V: u8 := 86

  function RawFrame(block: Bytes): Bytes
    requires |block| <= MAX_BLOCK
  {
    [Z, V, 0] + Be16(|block|) + block
  }

  function PackedFrame(payload: Bytes, size: nat): Bytes
    requires |payload| <= MAX_BLOCK && size <= MAX_BLOCK
  {
    [Z, V, 1] + Be16(|payload|) + Be16(size) + payload
  }

  function Trailer(crc: nat): Bytes
    requires crc < 0x1_0000_0000
  {
    [Z, V, 0x30] + Be32(crc)
  }

  /** The frame is a way to send the block: as it is, or as some LZF encoding of it. */
  ghost predicate IsFrame(frame: Bytes, block: Bytes) {
    && 1 <= |block| <= MAX_BLOCK
    && (frame == RawFrame(block) ||
        exists payload :: IsPacked(frame, payload, block))
  }

  ghost predicate IsPacked(frame: Bytes, payload: Bytes, block: Bytes) {
    1 <= |payload| <= MAX_BLOCK && |block| <= MAX_BLOCK && Encodes(payload, block) && frame == PackedFrame(payload, |block|)
  }

  ghost predicate AreFrames(frames: seq<Bytes>, blocks: seq<Bytes>) {
    |frames| == |blocks| && forall i :: 0 <= i < |frames| ==> IsFrame(frames[i], blocks[i])
  }

  // ---- The decoder ----

  /** enum lzf_decode_state, with what the state needs to know. */
  datatype Phase =
    | WantHeader1
    | WantHeader2
    | WantHeader3(kind: u8)
    | WantData(kind: u8, csize: nat, usize: nat)
    | AtEof
    | DataError

  /** sctx->in_count: set_state. */
  function Need(p: Phase): nat {
    match p
    case WantHeader1 => 1
    case WantHeader2 => 2
    case WantHeader3(kind) => if kind == 0 then 2 else 4
    case WantData(_, csize, _) => csize
    case AtEof => 0
    case DataError => 0
  }

  predicate Stopped(p: Phase) { p.AtEof? || p.DataError? }

  predicate PhaseOk(p: Phase) {
    match p
    case WantHeader3(kind) => kind == 0 || kind == 1 || kind == 0x30
    case WantData(kind, csize, usize) => csize <= MAX_BLOCK && usize <= MAX_BLOCK && (kind == 1 || (kind == 0 && csize == usize))
    case _ => true
  }

  /** `empty` records whether the header of an empty block has been seen. */
  datatype Dec = Dec(phase: Phase, crc: nat, text: Bytes, empty: bool)

  const START := Dec(WantHeader1, 0, [], false)

  predicate EmptyBlock(p: Phase) { p.WantData? && p.csize == 0 }

  function Header1(b: u8): (r: Phase) {
    if b == 0 then AtEof else if b == Z then WantHeader2 else DataError
  }

  function Header2(unit: Bytes): (r: Phase)
    requires |unit| == 2
  {
    if unit[0] != V then DataError
    else if unit[1] == 0 || unit[1] == 1 || unit[1] == 0x30 then WantHeader3(unit[1])
    else DataError
  }

  function Header3(kind: u8, unit: Bytes, crc: nat): (r: Phase)
    requires PhaseOk(WantHeader3(kind)) && |unit| == Need(WantHeader3(kind))
  {
    if kind == 0 then WantData(0, Load16(unit), Load16(unit))
    else if kind == 1 then WantData(1, Load16(unit[..2]), Load16(unit[2..]))
    else if crc != Load32(unit) then DataError else WantHeader1
  }

  /** The block a data unit stands for; None if it does not decode to the promised size.
      An empty packed block, for which the original reads past its input, is refused. */
  function Unpack(kind: u8, unit: Bytes, usize: nat): Option<Bytes> {
    if kind == 0 then Some(unit)
    else if unit == [] then None
    else
      match Decode(unit, usize)
      case Ok(text) => if |text| == usize then Some(text) else None
      case _ => None
  }

  /** What one complete unit of input does. */
  function Act(step: CrcStep, d: Dec, unit: Bytes): (r: Dec)
    requires PhaseOk(d.phase) && |unit| == Need(d.phase)
    ensures PhaseOk(r.phase)
  {
    match d.phase
    case WantHeader1 => d.(phase := Header1(unit[0]))
    case WantHeader2 => d.(phase := Header2(unit))
    case WantHeader3(kind) =>
      var p := Header3(kind, unit, d.crc);
      d.(phase := p, empty := d.empty || EmptyBlock(p))
    case WantData(kind, _, usize) =>
      (match Unpack(kind, unit, usize)
       case Some(block) => Dec(WantHeader1, Crc(step, d.crc, block), d.text + block, d.empty)
       case None => d.(phase := DataError))
    case _ => d
  }

  /** Take units off the input while there are complete ones; the result holds what is left over. */
  function Feed(step: CrcStep, d: Dec, s: Bytes): (r: (Dec, Bytes))
    requires PhaseOk(d.phase)
    ensures PhaseOk(r.0.phase) && (d.empty ==> r.0.empty)
    decreases |s|, if d.phase.WantData? then 1 else 0
  {
    if Stopped(d.phase) || |s| < Need(d.phase) then (d, s)
    else Feed(step, Act(step, d, s[..Need(d.phase)]), s[Need(d.phase)..])
  }

  /** Where the input is cut makes no difference. */
  lemma {:induction false} FeedConcat(step: CrcStep, d: Dec, a: Bytes, b: Bytes)
    requires PhaseOk(d.phase)
    ensures var (d', rest) := Feed(step, d, a); Feed(step, d, a + b) == Feed(step, d', rest + b)
    decreases |a|, if d.phase.WantData? then 1 else 0
  {
    if !Stopped(d.phase) && |a| >= Need(d.phase) {
      var n := Need(d.phase);
      assert (a + b)[..n] == a[..n] && (a + b)[n..] == a[n..] + b;
      FeedConcat(step, Act(step, d, a[..n]), a[n..], b);
    }
  }

  /** The decoder only ever adds to its text. */
  lemma {:induction false} FeedGrows(step: CrcStep, d: Dec, s: Bytes)
    requires PhaseOk(d.phase)
    ensures d.text <= Feed(step, d, s).0.text
    decreases |s|, if d.phase.WantData? then 1 else 0
  {
    if !Stopped(d.phase) && |s| >= Need(d.phase) {
      var n := Need(d.phase);
      FeedGrows(step, Act(step, d, s[..n]), s[n..]);
    }
  }

  lemma Load16Be16(n: nat)
    requires n < 0x1_0000
    ensures Load16(Be16(n)) == n
  {
  }

  lemma Load32Be32(n: nat)
    requires n < 0x1_0000_0000
    ensures Load32(Be32(n)) == n
  {
    Load16Be16(n / 0x1_0000);
    Load16Be16(n % 0x1_0000);
    assert Be32(n)[..2] == Be16(n / 0x1_0000) && Be32(n)[2..] == Be16(n % 0x1_0000);
  }

  /** One unit at the front of the input. */
  lemma FeedUnit(step: CrcStep, d: Dec, unit: Bytes, rest: Bytes)
    requires PhaseOk(d.phase) && !Stopped(d.phase) && |unit| == Need(d.phase)
    ensures Feed(step, d, unit + rest) == Feed(step, Act(step, d, unit), rest)
  {
    assert (unit + rest)[..|unit|] == unit && (unit + rest)[|unit|..] == rest;
  }

  /** The fixed part of a block header. */
  lemma FeedHeader(step: CrcStep, d: Dec, kind: u8, rest: Bytes)
    requires d.phase == WantHeader1 && PhaseOk(WantHeader3(kind))
    ensures Feed(step, d, [Z, V, kind] + rest) == Feed(step, d.(phase := WantHeader3(kind)), rest)
  {
    assert [Z, V, kind] + rest == [Z] + ([V, kind] + rest);
    FeedUnit(step, d, [Z], [V, kind] + rest);
    FeedUnit(step, d.(phase := WantHeader2), [V, kind], rest);
  }

  lemma FeedRaw(step: CrcStep, d: Dec, block: Bytes, rest: Bytes)
    requires d.phase == WantHeader1 && 1 <= |block| <= MAX_BLOCK
    ensures Feed(step, d, RawFrame(block) + rest) == Feed(step, Dec(WantHeader1, Crc(step, d.crc, block), d.text + block, d.empty), rest)
  {
    var d3, d4 := d.(phase := WantHeader3(0)), d.(phase := WantData(0, |block|, |block|));
    assert RawFrame(block) + rest == [Z, V, 0] + (Be16(|block|) + (block + rest));
    FeedHeader(step, d, 0, Be16(|block|) + (block + rest));
    Load16Be16(|block|);
    FeedUnit(step, d3, Be16(|block|), block + rest);
    FeedUnit(step, d4, block, rest);
  }

  lemma UnpackEncoded(payload: Bytes, block: Bytes)
    requires Encodes(payload, block) && payload != []
    ensures Unpack(1, payload, |block|) == Some(block)
  {
    DecodeIff(payload, |block|, block);
  }

  lemma FeedPacked(step: CrcStep, d: Dec, payload: Bytes, block: Bytes, rest: Bytes)
    requires d.phase == WantHeader1 && Encodes(payload, block) && 1 <= |payload| <= MAX_BLOCK && |block| <= MAX_BLOCK
    ensures Feed(step, d, PackedFrame(payload, |block|) + rest) ==
            Feed(step, Dec(WantHeader1, Crc(step, d.crc, block), d.text + block, d.empty), rest)
  {
    UnpackEncoded(payload, block);
    hide Encodes, Unpack, Crc;
    var d3, d4 := d.(phase := WantHeader3(1)), d.(phase := WantData(1, |payload|, |block|));
    var sizes := Be16(|payload|) + Be16(|block|);
    assert PackedFrame(payload, |block|) + rest == [Z, V, 1] + (sizes + (payload + rest));
    FeedHeader(step, d, 1, sizes + (payload + rest));
    Load16Be16(|payload|);
    Load16Be16(|block|);
    assert sizes[..2] == Be16(|payload|) && sizes[2..] == Be16(|block|);
    hide Be16, Load16;
    FeedUnit(step, d3, sizes, payload + rest);
    FeedUnit(step, d4, payload, rest);
  }

  lemma FeedTrailer(step: CrcStep, d: Dec, rest: Bytes)
    requires d.phase == WantHeader1 && d.crc < 0x1_0000_0000
    ensures Feed(step, d, Trailer(d.crc) + rest) == Feed(step, d, rest)
  {
    var d3 := d.(phase := WantHeader3(0x30));
    assert Trailer(d.crc) + rest == [Z, V, 0x30] + (Be32(d.crc) + rest);
    FeedHeader(step, d, 0x30, Be32(d.crc) + rest);
    Load32Be32(d.crc);
    FeedUnit(step, d3, Be32(d.crc), rest);
  }

  /** Any frames for the blocks decode to the blocks. */
  lemma {:induction false} FeedFrames(step: CrcStep, frames: seq<Bytes>, blocks: seq<Bytes>)
    requires AreFrames(frames, blocks)
    ensures Feed(step, START, Flatten(frames)) ==
            (Dec(WantHeader1, Crc(step, 0, Flatten(blocks)), Flatten(blocks), false), [])
    decreases |frames|
  {
    if frames != [] {
      var k := |frames| - 1;
      FeedFrames(step, frames[..k], blocks[..k]);
      FeedConcat(step, START, Flatten(frames[..k]), frames[k]);
      var text := Flatten(blocks[..k]);
      var d := Dec(WantHeader1, Crc(step, 0, text), text, false);
      CrcConcat(step, 0, text, blocks[k]);
      assert [] + frames[k] == frames[k] + [];
      if frames[k] == RawFrame(blocks[k]) {
        FeedRaw(step, d, blocks[k], []);
      } else {
        var payload :| IsPacked(frames[k], payload, blocks[k]);
        FeedPacked(step, d, payload, blocks[k], []);
      }
    }
  }

  /** Every block but the last is as long as it may be. */
  ghost predicate Cut(blocks: seq<Bytes>) {
    forall i :: 0 <= i < |blocks| - 1 ==> |blocks[i]| == MAX_BLOCK
  }

  /** A whole stream: the text cut into blocks, a frame for each, and the trailer over the text. */
  ghost predicate IsStream(step: CrcStep, s: Bytes, text: Bytes) {
    exists frames, blocks :: StreamOf(step, frames, blocks, s, text)
  }

  ghost predicate StreamOf(step: CrcStep, frames: seq<Bytes>, blocks: seq<Bytes>, s: Bytes, text: Bytes) {
    AreFrames(frames, blocks) && Cut(blocks) && Flatten(blocks) == text && s == Flatten(frames) + Trailer(Crc(step, 0, text))
  }

  /** A stream decodes to its text, with nothing left over and the decoder between blocks. */
  lemma FeedStream(step: CrcStep, s: Bytes, text: Bytes)
    requires IsStream(step, s, text)
    ensures Feed(step, START, s) == (Dec(WantHeader1, Crc(step, 0, text), text, false), [])
  {
    var frames, blocks :| StreamOf(step, frames, blocks, s, text);
    FeedFrames(step, frames, blocks);
    FeedConcat(step, START, Flatten(frames), Trailer(Crc(step, 0, text)));
    var d := Dec(WantHeader1, Crc(step, 0, text), text, false);
    assert [] + Trailer(d.crc) == Trailer(d.crc) + [];
    FeedTrailer(step, d, []);
  }
}
