/** Exactly which octets the stream decoder of crypto/lzf-stream.c accepts, and as what text. */
module LzfAccept {
  import opened Common
  import opened LzfFormat
  import opened LzfWire

  /** What a stream is made of. A check gives the checksum of the text before it. */
  datatype Item =
    | Raw(block: Bytes)
    | Packed(payload: Bytes, block: Bytes)
    | Check(n: nat)

  predicate Fits(item: Item) {
    match item
    case Raw(block) => |block| <= MAX_BLOCK
    case Packed(payload, block) => 1 <= |payload| <= MAX_BLOCK && |block| <= MAX_BLOCK
    case Check(n) => n < 0x1_0000_0000
  }

  function Octets(item: Item): Bytes
    requires Fits(item)
  {
    match item
    case Raw(block) => RawFrame(block)
    case Packed(payload, block) => PackedFrame(payload, |block|)
    case Check(n) => [Z, V, 0x30] + Be32(n)
  }

  predicate AllFit(items: seq<Item>) {
    forall i :: 0 <= i < |items| ==> Fits(items[i])
  }

  function Spelled(items: seq<Item>): Bytes
    requires AllFit(items)
  {
    if items == [] then [] else Spelled(items[..|items| - 1]) + Octets(items[|items| - 1])
  }

  function Text(items: seq<Item>): Bytes {
    if items == [] then []
    else
      var last := items[|items| - 1];
      Text(items[..|items| - 1]) + (if last.Check? then [] else last.block)
  }

  /** Packed blocks are LZF encodings of their blocks, and all checks are right. */
  ghost predicate Right(step: CrcStep, items: seq<Item>) {
    AllFit(items) && forall i :: 0 <= i < |items| ==> RightAt(step, items, i)
  }

  ghost predicate RightAt(step: CrcStep, items: seq<Item>, i: nat)
    requires i < |items|
  {
    && (items[i].Packed? ==> Encodes(items[i].payload, items[i].block))
    && (items[i].Check? ==> items[i].n == Crc(step, 0, Text(items[..i])))
  }

  predicate SawEmpty(items: seq<Item>) {
    Raw([]) in items
  }

  /** The octets are those of right items, with or without an end mark, for the text. */
  ghost predicate Accepts(step: CrcStep, s: Bytes, text: Bytes) {
    exists items, eof :: AcceptsAs(step, items, eof, s, text)
  }

  ghost predicate AcceptsAs(step: CrcStep, items: seq<Item>, eof: bool, s: Bytes, text: Bytes) {
    Right(step, items) && text == Text(items) && s == Spelled(items) + EofMark(eof)
  }

  function EofMark(eof: bool): Bytes { if eof then [0] else [] }

  // ---- One item ----

  lemma RightMore(step: CrcStep, items: seq<Item>, item: Item)
    requires Right(step, items) && Fits(item)
    requires item.Packed? ==> Encodes(item.payload, item.block)
    requires item.Check? ==> item.n == Crc(step, 0, Text(items))
    ensures Right(step, items + [item]) && Spelled(items + [item]) == Spelled(items) + Octets(item)
    ensures Text(items + [item]) == Text(items) + (if item.Check? then [] else item.block)
  {
    var more := items + [item];
    assert more[..|items|] == items;
    forall i | 0 <= i < |more| ensures RightAt(step, more, i) {
      if i < |items| {
        assert more[..i] == items[..i] && RightAt(step, items, i);
      }
    }
  }

  lemma RightLess(step: CrcStep, items: seq<Item>, k: nat)
    requires Right(step, items) && k <= |items|
    ensures Right(step, items[..k])
  {
    forall i | 0 <= i < k ensures RightAt(step, items[..k], i) {
      assert RightAt(step, items, i) && items[..k][..i] == items[..i];
    }
  }

  /** Where the decoder stands after an item, if it accepts it. */
  ghost function Passed(step: CrcStep, d: Dec, item: Item): Dec {
    if item.Check? then d
    else Dec(WantHeader1, Crc(step, d.crc, item.block), d.text + item.block, d.empty || item == Raw([]))
  }

  /** A check passes the decoder exactly if it is right. */
  lemma FeedCheck(step: CrcStep, d: Dec, n: nat, rest: Bytes)
    requires d.phase == WantHeader1 && n < 0x1_0000_0000
    ensures Feed(step, d, ([Z, V, 0x30] + Be32(n)) + rest) ==
            Feed(step, d.(phase := if n == d.crc then WantHeader1 else DataError), rest)
  {
    hide Load32, Feed;
    var d3 := d.(phase := WantHeader3(0x30));
    assert ([Z, V, 0x30] + Be32(n)) + rest == [Z, V, 0x30] + (Be32(n) + rest);
    FeedHeader(step, d, 0x30, Be32(n) + rest);
    Load32Be32(n);
    FeedUnit(step, d3, Be32(n), rest);
  }

  lemma FeedEmpty(step: CrcStep, d: Dec, rest: Bytes)
    requires d.phase == WantHeader1
    ensures Feed(step, d, RawFrame([]) + rest) == Feed(step, d.(empty := true), rest)
  {
    hide Feed;
    var d3, d4 := d.(phase := WantHeader3(0)), d.(phase := WantData(0, 0, 0), empty := true);
    assert RawFrame([]) + rest == [Z, V, 0] + (Be16(0) + rest);
    FeedHeader(step, d, 0, Be16(0) + rest);
    Load16Be16(0);
    FeedUnit(step, d3, Be16(0), rest);
    FeedUnit(step, d4, [], rest);
    assert [] + rest == rest && d.text + [] == d.text;
  }

  lemma FeedItem(step: CrcStep, d: Dec, item: Item, rest: Bytes)
    requires d.phase == WantHeader1 && Fits(item)
    requires item.Packed? ==> Encodes(item.payload, item.block)
    requires item.Check? ==> item.n == d.crc
    ensures Feed(step, d, Octets(item) + rest) == Feed(step, Passed(step, d, item), rest)
  {
    hide Feed, Encodes, RawFrame, PackedFrame;
    match item
    case Raw(block) =>
      if block == [] {
        FeedEmpty(step, d, rest);
        assert d.text + [] == d.text;
      } else {
        FeedRaw(step, d, block, rest);
      }
    case Packed(payload, block) => FeedPacked(step, d, payload, block, rest);
    case Check(n) => FeedCheck(step, d, n, rest);
  }

  /** The octets of each item: the letters ZV, a type, sizes and checksum most significant octet
      first, and the data as it is. */
  lemma Layout(item: Item)
    requires Fits(item)
    ensures var s := Octets(item);
      && |s| >= 5 && s[..2] == [0x5a, 0x56] && s[2] == (match item case Raw(_) => 0 case Packed(_, _) => 1 case Check(_) => 0x30)
      && match item
         case Raw(block) => |s| == 5 + |block| && 0x100 * (s[3] as int) + s[4] == |block| && s[5..] == block
         case Packed(payload, block) =>
           && |s| == 7 + |payload| && 0x100 * (s[3] as int) + s[4] == |payload|
           && 0x100 * (s[5] as int) + s[6] == |block| && s[7..] == payload
         case Check(n) =>
           && |s| == 7
           && 0x100_0000 * (s[3] as int) + 0x1_0000 * (s[4] as int) + 0x100 * (s[5] as int) + s[6] == n
  {
    hide Be16, Be32;
    match item
    case Raw(block) => assert Octets(item)[3..5] == Be16(|block|);
    case Packed(payload, block) => assert Octets(item)[3..5] == Be16(|payload|) && Octets(item)[5..7] == Be16(|block|);
    case Check(n) => assert Octets(item)[3..] == Be32(n);
  }

  // ---- What is right is accepted ----

  lemma {:induction false} FeedItems(step: CrcStep, items: seq<Item>)
    requires Right(step, items)
    ensures Feed(step, START, Spelled(items)) == (Dec(WantHeader1, Crc(step, 0, Text(items)), Text(items), SawEmpty(items)), [])
    decreases |items|
  {
    hide Encodes, Octets, Feed, Fits;
    if items == [] {
      FeedNothing(step, START);
    } else {
      var k := |items| - 1;
      var item := items[k];
      RightLess(step, items, k);
      assert RightAt(step, items, k);
      FeedItems(step, items[..k]);
      FeedConcat(step, START, Spelled(items[..k]), Octets(item));
      var text := Text(items[..k]);
      var d := Dec(WantHeader1, Crc(step, 0, text), text, SawEmpty(items[..k]));
      assert [] + Octets(item) == Octets(item) + [];
      FeedItem(step, d, item, []);
      FeedNothing(step, Passed(step, d, item));
      if item.Check? {
        assert text + [] == text;
      } else {
        CrcConcat(step, 0, text, item.block);
      }
      assert items == items[..k] + [item];
    }
  }

  lemma FeedNothing(step: CrcStep, d: Dec)
    requires d.phase == WantHeader1
    ensures Feed(step, d, []) == (d, [])
  {
  }

  lemma FeedEof(step: CrcStep, d: Dec)
    requires d.phase == WantHeader1
    ensures Feed(step, d, [0]) == (d.(phase := AtEof), [])
  {
    assert [0][..1] == [0] && [0][1..] == [];
  }

  // ---- What is accepted is right ----

  /** The item at the front of octets that the decoder goes through to a proper end. */
  ghost predicate Begins(step: CrcStep, d: Dec, item: Item, s: Bytes) {
    && Fits(item) && Octets(item) <= s
    && (item.Packed? ==> Encodes(item.payload, item.block))
    && (item.Check? ==> item.n == d.crc)
  }

  predicate Ended(r: (Dec, Bytes)) {
    r.1 == [] && (r.0.phase.WantHeader1? || r.0.phase.AtEof?)
  }

  lemma Unrolled(step: CrcStep, d: Dec, s: Bytes)
    requires PhaseOk(d.phase) && !d.phase.WantHeader1? && !d.phase.AtEof? && Ended(Feed(step, d, s))
    ensures !Stopped(d.phase) && |s| >= Need(d.phase)
    ensures Feed(step, d, s) == Feed(step, Act(step, d, s[..Need(d.phase)]), s[Need(d.phase)..])
  {
  }

  /** The header of an accepted item. */
  lemma HeaderOf(step: CrcStep, d: Dec, s: Bytes) returns (kind: u8)
    requires d.phase == WantHeader1 && s != [] && s[0] != 0 && Ended(Feed(step, d, s))
    ensures |s| >= 3 && s[..3] == [Z, V, kind] && PhaseOk(WantHeader3(kind))
    ensures Feed(step, d, s) == Feed(step, d.(phase := WantHeader3(kind)), s[3..])
  {
    var d1 := Act(step, d, s[..1]);
    assert Feed(step, d, s) == Feed(step, d1, s[1..]);
    Unrolled(step, d1, s[1..]);
    var unit := s[1..][..2];
    var d2 := Act(step, d1, unit);
    assert s[1..][2..] == s[3..];
    Unrolled(step, d2, s[3..]);
    kind := unit[1];
  }

  lemma Be16Load16(unit: Bytes)
    requires |unit| == 2
    ensures Be16(Load16(unit)) == unit
  {
  }

  lemma Be32Load32(unit: Bytes)
    requires |unit| == 4
    ensures Load32(unit) < 0x1_0000_0000 && Be32(Load32(unit)) == unit
  {
    var (high, low) := (Load16(unit[..2]), Load16(unit[2..]));
    Be16Load16(unit[..2]);
    Be16Load16(unit[2..]);
    assert Load32(unit) / 0x1_0000 == high && Load32(unit) % 0x1_0000 == low;
    assert unit == unit[..2] + unit[2..];
  }

  lemma UnpackedEncodes(payload: Bytes, usize: nat)
    requires Unpack(1, payload, usize).Some?
    ensures payload != [] && |Unpack(1, payload, usize).value| == usize && Encodes(payload, Unpack(1, payload, usize).value)
  {
    hide Decode, Encodes;
    DecodeIff(payload, usize, Unpack(1, payload, usize).value);
  }

  lemma FirstRaw(step: CrcStep, d: Dec, s: Bytes) returns (item: Item)
    requires d.phase == WantHeader3(0) && Ended(Feed(step, d, s))
    ensures item.Raw? && Fits(item) && Be16(|item.block|) + item.block <= s
  {
    hide Crc, Be16, Load16;
    Unrolled(step, d, s);
    var d4 := Act(step, d, s[..2]);
    Unrolled(step, d4, s[2..]);
    Be16Load16(s[..2]);
    item := Raw(s[2..][..Load16(s[..2])]);
    assert s == s[..2] + s[2..];
  }

  lemma FirstPacked(step: CrcStep, d: Dec, s: Bytes) returns (item: Item)
    requires d.phase == WantHeader3(1) && Ended(Feed(step, d, s))
    ensures item.Packed? && Fits(item) && Encodes(item.payload, item.block)
    ensures (Be16(|item.payload|) + Be16(|item.block|)) + item.payload <= s
  {
    hide Crc, Be16, Load16, Unpack, Encodes;
    Unrolled(step, d, s);
    var unit := s[..4];
    var d4 := Act(step, d, unit);
    Unrolled(step, d4, s[4..]);
    var payload := s[4..][..d4.phase.csize];
    var d5 := Act(step, d4, payload);
    assert !d5.phase.DataError?;
    UnpackedEncodes(payload, d4.phase.usize);
    Be16Load16(unit[..2]);
    Be16Load16(unit[2..]);
    item := Packed(payload, Unpack(1, payload, d4.phase.usize).value);
    assert unit == unit[..2] + unit[2..] && s == unit + s[4..];
  }

  lemma FirstCheck(step: CrcStep, d: Dec, s: Bytes) returns (item: Item)
    requires d.phase == WantHeader3(0x30) && Ended(Feed(step, d, s))
    ensures item == Check(d.crc) && Fits(item) && Be32(item.n) <= s
  {
    hide Crc, Be32, Load32;
    Unrolled(step, d, s);
    var d4 := Act(step, d, s[..4]);
    assert !d4.phase.DataError?;
    Be32Load32(s[..4]);
    item := Check(Load32(s[..4]));
  }

  lemma FirstItem(step: CrcStep, d: Dec, s: Bytes) returns (item: Item)
    requires d.phase == WantHeader1 && s != [] && s[0] != 0 && Ended(Feed(step, d, s))
    ensures Begins(step, d, item, s)
  {
    hide Feed, Encodes, Be16, Be32, Ended;
    var kind := HeaderOf(step, d, s);
    assert s == [Z, V, kind] + s[3..];
    if kind == 0 {
      item := FirstRaw(step, d.(phase := WantHeader3(0)), s[3..]);
    } else if kind == 1 {
      item := FirstPacked(step, d.(phase := WantHeader3(1)), s[3..]);
    } else {
      item := FirstCheck(step, d.(phase := WantHeader3(0x30)), s[3..]);
    }
  }

  /** Octets that lead to a proper end are right items, from wherever the decoder stands. */
  lemma {:induction false} ItemsOf(step: CrcStep, d: Dec, before: seq<Item>, s: Bytes) returns (items: seq<Item>)
    requires Right(step, before) && d.phase == WantHeader1
    requires d.text == Text(before) && d.crc == Crc(step, 0, Text(before)) && Ended(Feed(step, d, s))
    ensures Right(step, items) && Feed(step, d, s).0.text == Text(items)
    ensures Spelled(before) + s == Spelled(items) + EofMark(Feed(step, d, s).0.phase.AtEof?)
    decreases |s|
  {
    hide Feed, Crc, Encodes, Octets, RightAt;
    if s == [] {
      FeedNothing(step, d);
      items := before;
    } else if s[0] == 0 {
      EofIsLast(step, d, s);
      items := before;
    } else {
      var item := FirstItem(step, d, s);
      var n := |Octets(item)|;
      OctetsNotEmpty(item);
      assert s == Octets(item) + s[n..];
      FeedItem(step, d, item, s[n..]);
      RightMore(step, before, item);
      if item.Check? {
        assert d.text + [] == d.text;
      } else {
        CrcConcat(step, 0, d.text, item.block);
      }
      items := ItemsOf(step, Passed(step, d, item), before + [item], s[n..]);
      ConcatAssoc(Spelled(before), Octets(item), s[n..]);
    }
  }

  lemma OctetsNotEmpty(item: Item)
    requires Fits(item)
    ensures |Octets(item)| > 0
  {
  }

  lemma EofIsLast(step: CrcStep, d: Dec, s: Bytes)
    requires d.phase == WantHeader1 && s != [] && s[0] == 0 && Ended(Feed(step, d, s))
    ensures s == [0] && Feed(step, d, s).0 == d.(phase := AtEof)
  {
    assert Feed(step, d, s) == Feed(step, Act(step, d, s[..1]), s[1..]);
  }

  /** The decoder takes in all of the octets and ends between two items, or at an end mark, with
      a given text if and only if the octets are right items for that text. */
  lemma FeedIff(step: CrcStep, s: Bytes, text: Bytes)
    ensures Accepts(step, s, text) <==> Ended(Feed(step, START, s)) && Feed(step, START, s).0.text == text
  {
    hide Feed, Right, Spelled, Text;
    if Accepts(step, s, text) {
      var items, eof :| AcceptsAs(step, items, eof, s, text);
      AcceptedAs(step, items, eof, s, text);
    }
    if Ended(Feed(step, START, s)) && Feed(step, START, s).0.text == text {
      NoItems(step);
      var items := ItemsOf(step, START, [], s);
      assert [] + s == s;
      assert AcceptsAs(step, items, Feed(step, START, s).0.phase.AtEof?, s, text);
    }
  }

  lemma NoItems(step: CrcStep)
    ensures Right(step, []) && Spelled([]) == [] && Text([]) == [] && Crc(step, 0, []) == 0
  {
  }

  lemma AcceptedAs(step: CrcStep, items: seq<Item>, eof: bool, s: Bytes, text: Bytes)
    requires AcceptsAs(step, items, eof, s, text)
    ensures Feed(step, START, s) == (Dec(if eof then AtEof else WantHeader1, Crc(step, 0, text), text, SawEmpty(items)), [])
  {
    hide Feed, RightAt, Spelled, Text;
    FeedItems(step, items);
    var d := Feed(step, START, Spelled(items)).0;
    FeedConcat(step, START, Spelled(items), EofMark(eof));
    assert [] + EofMark(eof) == EofMark(eof);
    FeedEof(step, d);
    FeedNothing(step, d);
  }

  // ---- A wrong checksum ----

  /** Frames, and a trailer whose checksum is not that of their blocks. */
  ghost predicate WrongTrailer(step: CrcStep, s: Bytes) {
    exists frames, blocks, n :: WrongTrailerOf(step, frames, blocks, n, s)
  }

  ghost predicate WrongTrailerOf(step: CrcStep, frames: seq<Bytes>, blocks: seq<Bytes>, n: nat, s: Bytes) {
    && AreFrames(frames, blocks) && n < 0x1_0000_0000 && n != Crc(step, 0, Flatten(blocks))
    && s == Flatten(frames) + ([Z, V, 0x30] + Be32(n))
  }

  /** After any frames, a trailer stops the decoder if and only if it has the wrong checksum. */
  lemma TrailerIff(step: CrcStep, frames: seq<Bytes>, blocks: seq<Bytes>, n: nat)
    requires AreFrames(frames, blocks) && n < 0x1_0000_0000
    ensures var r := Feed(step, START, Flatten(frames) + ([Z, V, 0x30] + Be32(n)));
      && (r.0.phase.DataError? <==> n != Crc(step, 0, Flatten(blocks)))
      && r.0.text == Flatten(blocks) && r.1 == [] && !r.0.empty
  {
    hide AreFrames;
    var tail := [Z, V, 0x30] + Be32(n);
    FeedFrames(step, frames, blocks);
    var d := Feed(step, START, Flatten(frames)).0;
    FeedConcat(step, START, Flatten(frames), tail);
    assert [] + tail == tail + [];
    FeedCheck(step, d, n, []);
  }
}
