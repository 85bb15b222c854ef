/** The push-style LZF compressor and decompressor of crypto/lzf-stream.c. A call is given
    some input and room for some output, and reports how much of each it used. */
module LzfStream {
  import opened Common
  import opened LzfFormat
  import opened LzfWire
  import opened LzfAccept
  import Lzf
  import LzfGreedy

  datatype Status = OK | BufferOverflow | BadFormat

  /** struct lzf_stream_ctx. */
  class StreamCtx {
    const step: CrcStep
    const inBuf: array<u8>
    const outBuf: array<u8>
    const htab: array<int>      // the block context
    var crc: nat
    var wroteTrailer: bool
    var phase: Phase
    var inOffset: nat
    var inCount: nat
    var outOffset: nat
    var outCount: nat

    /** All input accepted and all output delivered so far. */
    ghost var taken: Bytes
    ghost var given: Bytes
    /** The blocks encoded so far and their frames. */
    ghost var blocks: seq<Bytes>
    ghost var frames: seq<Bytes>
    /** A final call has encoded the last, short block. */
    ghost var flushed: bool
    /** The header of an empty block has been read. */
    ghost var sawEmpty: bool

    /** The input set aside for the next unit, and the output that waits for room. */
    ghost function Pending(): Bytes
      reads this, inBuf
      requires inOffset <= inBuf.Length
    {
      inBuf[..inOffset]
    }

    ghost function Held(): Bytes
      reads this, outBuf
      requires outOffset <= outCount <= outBuf.Length
    {
      outBuf[outOffset..outCount]
    }

    ghost predicate Sound()
      reads this
    {
      && inBuf.Length == BUFLEN && outBuf.Length == BUFLEN && inBuf != outBuf && htab.Length == LzfGreedy.HSIZE
      && crc < 0x1_0000_0000
      && inOffset <= BUFLEN && inCount <= BUFLEN
      && (if outCount == 0 then outOffset == 0 else outOffset < outCount <= BUFLEN)
    }

    /** lzf_stream_alloc. */
    constructor (step: CrcStep)
      ensures EncValid() && DecValid()
      ensures fresh(inBuf) && fresh(outBuf) && fresh(htab) && this.step == step
      ensures taken == [] && given == [] && !flushed
    {
      this.step := step;
      inBuf := new u8[BUFLEN];
      outBuf := new u8[BUFLEN];
      htab := new int[LzfGreedy.HSIZE];
      crc, wroteTrailer, phase := 0, false, WantHeader1;
      inOffset, inCount, outOffset, outCount := 0, 1, 0, 0;
      taken, given, blocks, frames, flushed, sawEmpty := [], [], [], [], false, false;
    }

    // ---- Buffering ----

    /** consume_input: the next unit of inCount octets, once it is complete. */
    method ConsumeInput(avail: Bytes) returns (unit: Option<Bytes>, rest: Bytes)
      requires Sound() && (inOffset < inCount || inOffset == 0)
      modifies this`inOffset, this`taken, inBuf
      ensures Sound()
      ensures unit.Some? ==> |unit.value| == inCount && unit.value + rest == old(Pending()) + avail && Pending() == []
      ensures unit.None? ==> rest == [] && Pending() == old(Pending()) + avail && inOffset < inCount
      ensures |rest| <= |avail| && avail[|avail| - |rest|..] == rest
      ensures taken == old(taken) + avail[..|avail| - |rest|]
    {
      if inOffset == 0 && |avail| >= inCount {
        unit := Some(avail[..inCount]);
        rest := avail[inCount..];
        taken := taken + avail[..inCount];
        return;
      }
      var consuming := Min(|avail|, inCount - inOffset);
      forall i | 0 <= i < consuming {
        inBuf[inOffset + i] := avail[i];
      }
      rest := avail[consuming..];
      assert inBuf[..inOffset + consuming] == old(Pending()) + avail[..consuming];
      inOffset := inOffset + consuming;
      taken := taken + avail[..consuming];
      if inOffset == inCount {
        unit := Some(inBuf[..inCount]);
        inOffset := 0;
      } else {
        unit := None;
      }
    }

    /** produce_output: deliver as much of the held output as there is room for. */
    method ProduceOutput(room: nat) returns (bytes: Bytes)
      requires Sound()
      modifies this`outOffset, this`outCount, this`given
      ensures Sound() && |bytes| <= room
      ensures given == old(given) + bytes && given + Held() == old(given + Held())
      ensures outCount == 0 || |bytes| == room
      ensures |bytes| == Min(room, old(|Held()|))
    {
      var producing := Min(room, outCount - outOffset);
      bytes := outBuf[outOffset..outOffset + producing];
      given := given + bytes;
      outOffset := outOffset + producing;
      assert old(Held()) == bytes + outBuf[outOffset..outCount];
      if outOffset == outCount {
        outOffset, outCount := 0, 0;
      }
    }

    /** get_output_buffer, and the store of the data in the place it returns. */
    method StoreOutput(data: Bytes, room: nat) returns (bytes: Bytes)
      requires Sound() && outCount == 0 && 0 < |data| <= BUFLEN
      modifies this`outOffset, this`outCount, this`given, outBuf
      ensures Sound() && |bytes| <= room
      ensures given == old(given) + bytes && given + Held() == old(given) + data
    {
      if room >= |data| {
        bytes := data;
        given := given + data;
      } else {
        bytes := [];
        forall i | 0 <= i < |data| {
          outBuf[i] := data[i];
        }
        outCount := |data|;
        assert outBuf[0..outCount] == data;
      }
    }

    // ---- Compression ----

    ghost predicate EncValid()
      reads this, inBuf, outBuf
      ensures EncValid() ==> Sound()
    {
      && Sound() && inOffset < MAX_BLOCK && phase == WantHeader1
      && Encoding(step, blocks, frames, crc)
      && taken == Flatten(blocks) + Pending()
      && given + Held() == Flatten(frames) + TrailerIf(wroteTrailer, crc)
      && (wroteTrailer ==> flushed) && Blocking(blocks, flushed) && (flushed ==> inOffset == 0)
    }

    /** data_encode: one block becomes one frame, packed whenever the compressor succeeds in
        MAX_BLOCK octets, even if that is longer. */
    method DataEncode(block: Bytes, room: nat) returns (bytes: Bytes)
      requires Sound() && outCount == 0 && 1 <= |block| <= MAX_BLOCK
      requires Encoding(step, blocks, frames, crc) && given == Flatten(frames)
      modifies this`crc, this`outOffset, this`outCount, this`given, this`blocks, this`frames, outBuf, htab
      ensures Sound() && |bytes| <= room && given == old(given) + bytes
      ensures blocks == old(blocks) + [block] && Encoding(step, blocks, frames, crc)
      ensures given + Held() == Flatten(frames)
      ensures frames == old(frames) + [FrameFor(block, LzfGreedy.Compressed(block, MAX_BLOCK, old(htab[..])))]
    {
      hide Encodes, Encoding, Flatten, RawFrame, PackedFrame, IsFrame, IsPacked, Crc, LzfGreedy.Compressed;
      FrameLengths();
      ghost var frame;
      crc := Crc(step, crc, block);
      var packed := new u8[MAX_BLOCK];
      var n := Lzf.Compress(block, packed, htab);
      if n == 0 {
        frame := RawFrame(block);
        bytes := StoreOutput(RawFrame(block), room);
        RawIsFrame(block);
      } else {
        var payload := packed[..n];
        frame := PackedFrame(payload, |block|);
        PackedIsFrame(payload, block);
        bytes := StorePacked(payload, |block|, room);
      }
      EncodingGrows(step, blocks, frames, old(crc), block, frame);
      blocks, frames := blocks + [block], frames + [frame];
    }

    /** The rest of data_encode for a block that was compressed into the output buffer. */
    method StorePacked(payload: Bytes, size: nat, room: nat) returns (bytes: Bytes)
      requires Sound() && outCount == 0 && 1 <= |payload| <= MAX_BLOCK && size <= MAX_BLOCK
      modifies this`outOffset, this`outCount, this`given, outBuf
      ensures Sound() && |bytes| <= room
      ensures given == old(given) + bytes && given + Held() == old(given) + PackedFrame(payload, size)
    {
      var frame := PackedFrame(payload, size);
      forall i | 0 <= i < |frame| {
        outBuf[i] := frame[i];
      }
      outCount := |payload| + 7;
      assert outBuf[0..outCount] == frame;
      bytes := ProduceOutput(room);
    }

    /** One round of the loop of lzf_stream_compress_process: a full block, if there is one. */
    method EncodeNext(avail: Bytes, room: nat) returns (more: bool, n: nat, bytes: Bytes)
      requires EncValid() && outCount == 0 && (flushed ==> avail == [])
      modifies this, inBuf, outBuf, htab
      ensures EncValid() && flushed == old(flushed) && wroteTrailer == old(wroteTrailer)
      ensures n <= |avail| && taken == old(taken) + avail[..n]
      ensures |bytes| <= room && given == old(given) + bytes
      ensures more ==> n > 0
      ensures !more ==> n == |avail| && outCount == 0 && bytes == []
    {
      hide Encoding, Flatten, Blocking, Trailer, TrailerIf, FrameFor, LzfGreedy.Compressed;
      ghost var aside := Pending();
      assert wroteTrailer ==> flushed;
      inCount := MAX_BLOCK;
      var unit, rest := ConsumeInput(avail);
      n := |avail| - |rest|;
      if unit.None? {
        assert avail[..|avail|] == avail;
        Regroup(Flatten(blocks), aside, avail, Pending());
        return false, n, [];
      }
      UnitTaken(aside, avail, unit.value, rest);
      Regroup(Flatten(blocks), aside, avail[..n], unit.value);
      NoTrailer(crc);
      assert given == Flatten(frames) by { assert given + Held() == given; }
      bytes := DataEncode(unit.value, room);
      BlockingGrows(old(blocks), unit.value);
      AppendPart(old(blocks), unit.value);
      NoTrailer(crc);
      assert Pending() == [] && taken == Flatten(blocks);
      more := true;
    }

    /** lzf_stream_compress_process. */
    method CompressProcess(inp: Bytes, room: nat) returns (used: nat, bytes: Bytes)
      requires EncValid() && (flushed ==> inp == [])
      modifies this, inBuf, outBuf, htab
      ensures EncValid() && flushed == old(flushed) && wroteTrailer == old(wroteTrailer)
      ensures used <= |inp| && taken == old(taken) + inp[..used]
      ensures |bytes| <= room && given == old(given) + bytes
      ensures outCount == 0 ==> used == |inp|
      ensures old(outCount) > 0 && room > 0 ==> bytes != []
      ensures used == 0 ==> given + Held() == old(given + Held())
    {
      hide EncValid;
      used := 0;
      bytes := FlushOutput(room);
      var first := |bytes|;
      while outCount == 0
        invariant EncValid() && flushed == old(flushed) && wroteTrailer == old(wroteTrailer)
        invariant used == 0 ==> given + Held() == old(given + Held())
        invariant 0 <= used <= |inp| && taken == old(taken) + inp[..used]
        invariant |bytes| <= room && given == old(given) + bytes && first <= |bytes|
        decreases |inp| - used
      {
        var more, n, out := EncodeNext(inp[used..], room - |bytes|);
        Regroup(old(taken), inp[..used], inp[used..][..n], inp[..used + n]);
        Regroup(old(given), bytes, out, bytes + out);
        used := used + n;
        bytes := bytes + out;
        if !more {
          break;
        }
      }
    }

    /** produce_output at the start of a call. */
    method FlushOutput(room: nat) returns (bytes: Bytes)
      requires EncValid()
      modifies this`outOffset, this`outCount, this`given
      ensures EncValid() && |bytes| <= room && given == old(given) + bytes
      ensures old(outCount) > 0 && room > 0 ==> bytes != []
      ensures given + Held() == old(given + Held())
    {
      hide Encoding, Flatten, Blocking, TrailerIf;
      bytes := ProduceOutput(room);
    }

    /** The part of lzf_stream_compress_final that encodes the buffered input. */
    method EncodeLast(room: nat) returns (bytes: Bytes)
      requires EncValid() && outCount == 0
      modifies this, outBuf, htab
      ensures EncValid() && flushed && wroteTrailer == old(wroteTrailer) && taken == old(taken)
      ensures |bytes| <= room && given == old(given) + bytes
      ensures old(flushed) ==> outCount == 0
    {
      hide Encoding, Flatten, Trailer, TrailerIf, FrameFor, LzfGreedy.Compressed;
      bytes := [];
      if inOffset > 0 {
        NoTrailer(crc);
        assert given == Flatten(frames) by { assert given + Held() == given; }
        bytes := DataEncode(inBuf[..inOffset], room);
        BlockingGrows(old(blocks), inBuf[..inOffset]);
        AppendPart(old(blocks), inBuf[..inOffset]);
        NoTrailer(crc);
        inOffset := 0;
        assert taken == Flatten(blocks) + Pending();
      }
      flushed := true;
    }

    method WriteTrailer(room: nat) returns (bytes: Bytes)
      requires EncValid() && outCount == 0 && flushed && !wroteTrailer
      modifies this, outBuf
      ensures EncValid() && flushed && wroteTrailer && taken == old(taken)
      ensures |bytes| <= room && given == old(given) + bytes
    {
      hide Encoding, Flatten, Blocking;
      assert given == Flatten(frames) by { assert given + Held() == given; }
      bytes := StoreOutput(Trailer(crc), room);
      wroteTrailer := true;
    }

    /** Once all output is out, what was given is a stream of what was taken. */
    lemma Finished()
      requires EncValid() && wroteTrailer && outCount == 0
      ensures IsStream(step, given, taken)
    {
      hide AreFrames, Cut, Flatten, Trailer;
      assert taken == Flatten(blocks);
      assert given == Flatten(frames) + Trailer(crc);
      assert StreamOf(step, frames, blocks, given, taken);
    }

    /** lzf_stream_compress_final. */
    method CompressFinal(inp: Bytes, room: nat) returns (status: Status, used: nat, bytes: Bytes)
      requires EncValid() && (flushed ==> inp == [])
      modifies this, inBuf, outBuf, htab
      ensures EncValid()
      ensures used <= |inp| && taken == old(taken) + inp[..used]
      ensures |bytes| <= room && given == old(given) + bytes
      ensures status == OK ==> used == |inp| && outCount == 0 && IsStream(step, given, taken)
      ensures status != OK ==> status == BufferOverflow && outCount > 0
      ensures flushed ==> used == |inp|
      ensures old(outCount) > 0 && room > 0 ==> bytes != []
      ensures (old(flushed) ==> flushed) && (old(wroteTrailer) ==> wroteTrailer)
      ensures status != OK && used == 0 && flushed == old(flushed) && wroteTrailer == old(wroteTrailer) ==>
                given + Held() == old(given + Held())
    {
      hide EncValid;
      used, bytes := CompressProcess(inp, room);
      if outCount > 0 {
        return BufferOverflow, used, bytes;
      }
      var more := EncodeLast(room - |bytes|);
      Regroup(old(given), bytes, more, bytes + more);
      bytes := bytes + more;
      if outCount > 0 {
        return BufferOverflow, used, bytes;
      }
      if !wroteTrailer {
        more := WriteTrailer(room - |bytes|);
        Regroup(old(given), bytes, more, bytes + more);
        bytes := bytes + more;
      }
      if outCount > 0 {
        return BufferOverflow, used, bytes;
      }
      Finished();
      return OK, used, bytes;
    }

    // ---- Decompression ----

    /** The octets taken so far, fed to the decoder all at once, lead to the present state. */
    ghost predicate DecValid()
      reads this, inBuf, outBuf
      ensures DecValid() ==> Sound()
    {
      && Sound() && PhaseOk(phase) && inCount == Need(phase) && (inOffset < inCount || inOffset == 0)
      && (EmptyBlock(phase) ==> sawEmpty)
      && Decoding(step, taken, phase, crc, given + Held(), sawEmpty, Pending())
    }

    /** set_state. */
    method SetState(p: Phase)
      modifies this`phase, this`inCount
      ensures phase == p && inCount == Need(p)
    {
      phase := p;
      match p
      case WantHeader1 => inCount := 1;
      case WantHeader2 => inCount := 2;
      case WantHeader3(kind) => inCount := if kind == 0 then 2 else 4;
      case WantData(_, csize, _) => inCount := csize;
      case AtEof => inCount := 0;
      case DataError => inCount := 0;
    }

    /** data_decode, and the store of the block it makes. */
    method DataDecode(unit: Bytes, room: nat) returns (bytes: Bytes)
      requires Sound() && phase.WantData? && PhaseOk(phase) && |unit| == phase.csize && outCount == 0
      modifies this`phase, this`inCount, this`crc, this`outOffset, this`outCount, this`given, outBuf
      ensures Sound() && inCount == Need(phase) && |bytes| <= room && given == old(given) + bytes
      ensures match Unpack(old(phase).kind, unit, old(phase).usize)
              case Some(block) => phase == WantHeader1 && crc == Crc(step, old(crc), block) && given + Held() == old(given) + block
              case None => phase == DataError
    {
      var block: Bytes;
      var ok := true;
      if phase.kind == 0 {
        block := unit;
      } else {
        var text := new u8[phase.usize];
        var r := -Lzf.EINVAL;
        if unit != [] {
          r := Lzf.Decompress(unit, text);
        }
        ok := r == phase.usize;
        block := text[..];
        UnpackReported(unit, phase.usize, r, block);
      }
      bytes := [];
      if block != [] {
        bytes := StoreOutput(block, room);
      }
      if ok {
        crc := Crc(step, crc, block);
        SetState(WantHeader1);
      } else {
        SetState(DataError);
      }
    }

    /** header_decode_1, header_decode_2 and header_decode_3. */
    method HeaderDecode(unit: Bytes)
      requires Sound() && PhaseOk(phase) && !Stopped(phase) && !phase.WantData? && |unit| == Need(phase) && inOffset == 0
      requires Decoding(step, taken, phase, crc, given + Held(), sawEmpty, unit)
      modifies this`phase, this`inCount, this`sawEmpty
      ensures DecValid()
    {
      hide Decoding, Header3, Header2, Header1;
      ghost var d := Act(step, Dec(phase, crc, given + Held(), sawEmpty), unit);
      DecodingActs(step, taken, phase, crc, given + Held(), sawEmpty, unit);
      HeadersFit(step, Dec(phase, crc, given + Held(), sawEmpty), unit);
      match phase
      case WantHeader1 => SetState(Header1(unit[0]));
      case WantHeader2 => SetState(Header2(unit));
      case WantHeader3(kind) =>
        SetState(Header3(kind, unit, crc));
        sawEmpty := sawEmpty || EmptyBlock(phase);
      assert phase == d.phase && sawEmpty == d.empty && Pending() == [];
    }

    /** data_decode, as the loop sees it. */
    method BlockDecode(unit: Bytes, room: nat) returns (bytes: Bytes)
      requires Sound() && PhaseOk(phase) && phase.WantData? && |unit| == Need(phase) && inOffset == 0 && outCount == 0
      requires Decoding(step, taken, phase, crc, given + Held(), sawEmpty, unit)
      modifies this`phase, this`inCount, this`crc, this`outOffset, this`outCount, this`given, outBuf
      ensures DecValid() && |bytes| <= room && given == old(given) + bytes
      ensures !phase.WantData?
    {
      DecodingActs(step, taken, phase, crc, given + Held(), sawEmpty, unit);
      assert |unit| == phase.csize;
      hide Decoding, Crc, Unpack;
      assert given + Held() == given;
      bytes := DataDecode(unit, room);
      if phase.DataError? {
        DecodingError(step, taken, old(crc), old(given), crc, given + Held(), sawEmpty);
      }
      assert Pending() == [];
    }

    /** The switch of lzf_stream_decompress_process: act on one complete unit. */
    method DecodeUnit(unit: Bytes, room: nat) returns (bytes: Bytes)
      requires Sound() && PhaseOk(phase) && !Stopped(phase) && |unit| == Need(phase) && inOffset == 0
      requires Decoding(step, taken, phase, crc, given + Held(), sawEmpty, unit)
      requires phase.WantData? ==> outCount == 0
      modifies this`phase, this`inCount, this`crc, this`outOffset, this`outCount, this`given, this`sawEmpty, outBuf
      ensures DecValid() && |bytes| <= room && given == old(given) + bytes
      ensures old(phase).WantData? ==> !phase.WantData?
    {
      hide Decoding, Need, PhaseOk;
      if phase.WantData? {
        bytes := BlockDecode(unit, room);
      } else {
        HeaderDecode(unit);
        bytes := [];
      }
    }

    /** One round of the loop of lzf_stream_decompress_process. */
    method DecodeNext(avail: Bytes, room: nat) returns (more: bool, status: Status, n: nat, bytes: Bytes)
      requires DecValid()
      modifies this, inBuf, outBuf
      ensures DecValid() && n <= |avail| && taken == old(taken) + avail[..n]
      ensures |bytes| <= room && given == old(given) + bytes
      ensures more ==> status == OK && !Stopped(old(phase)) && (n > 0 || (old(phase).WantData? && !phase.WantData?))
      ensures status == OK || status == BadFormat
      ensures !more && status == OK ==> !phase.DataError? && (outCount > 0 || n == |avail|)
      ensures !more && status == OK && outCount == 0 ==> Stopped(phase) || inOffset < inCount
      ensures status == BadFormat ==> phase.DataError? || (phase.AtEof? && n < |avail|)
    {
      hide Decoding, PhaseOk;
      assert given + [] == given;
      if phase.WantData? && outCount > 0 {
        assert avail[..0] == [];
        return false, OK, 0, [];
      }
      ghost var aside := Pending();
      var unit, rest := ConsumeInput(avail);
      n := |avail| - |rest|;
      if Stopped(phase) {
        assert unit.value == [] && n == 0 && avail[..n] == [];
        assert taken == old(taken) && Pending() == aside;
        if phase.DataError? || |rest| > 0 {
          return false, BadFormat, n, [];
        }
        return false, OK, n, [];
      }
      DecodingTakes(step, old(taken), phase, crc, given + Held(), sawEmpty, aside, avail[..n]);
      if unit.None? {
        assert avail[..n] == avail;
        return false, OK, n, [];
      }
      UnitTaken(aside, avail, unit.value, rest);
      bytes := DecodeUnit(unit.value, room);
      more, status := true, OK;
    }

    /** lzf_stream_decompress_process. */
    method DecompressProcess(inp: Bytes, room: nat) returns (status: Status, used: nat, bytes: Bytes)
      requires DecValid()
      modifies this, inBuf, outBuf
      ensures DecValid() && used <= |inp| && taken == old(taken) + inp[..used]
      ensures |bytes| <= room && given == old(given) + bytes
      ensures status == OK || status == BadFormat
      ensures status == OK && outCount == 0 ==> used == |inp| && (Stopped(phase) || inOffset < inCount)
      ensures forall s, text :: IsStream(step, s, text) && taken <= s ==> status == OK
      ensures WrongTrailer(step, taken) ==> status == BadFormat
      ensures status == BadFormat ==> phase.DataError? || (phase.AtEof? && used < |inp|)
      ensures |bytes| >= Min(room, old(|Held()|))
    {
      hide DecValid, IsStream, WrongTrailer;
      used, status := 0, OK;
      bytes := FlushDecoded(room);
      while true
        invariant DecValid() && 0 <= used <= |inp| && taken == old(taken) + inp[..used]
        invariant |bytes| <= room && given == old(given) + bytes && |bytes| >= Min(room, old(|Held()|))
        decreases |inp| - used, if phase.WantData? then 1 else 0
      {
        var more, st, n, out := DecodeNext(inp[used..], room - |bytes|);
        Regroup(old(taken), inp[..used], inp[used..][..n], inp[..used + n]);
        Regroup(old(given), bytes, out, bytes + out);
        used, bytes := used + n, bytes + out;
        if !more {
          forall s, text | IsStream(step, s, text) && taken <= s
            ensures st == OK
          {
            StreamAhead(s, text);
          }
          if WrongTrailer(step, taken) {
            TrailerRefused();
          }
          return st, used, bytes;
        }
      }
    }

    /** On the way through a stream the decoder sees neither an error nor an end mark; at its
        end it has the whole text and is between blocks. */
    lemma StreamAhead(s: Bytes, text: Bytes)
      requires DecValid() && IsStream(step, s, text) && taken <= s
      ensures !Stopped(phase) && given + Held() <= text
      ensures taken == s ==> phase == WantHeader1 && inOffset == 0 && given + Held() == text
    {
      FeedStream(step, s, text);
      DecodingPrefix(step, s, text, taken, phase, crc, given + Held(), sawEmpty, Pending());
    }

    /** An error that the decoder has met it remembers. */
    lemma ErrorIsKept()
      requires DecValid() && Feed(step, START, taken).0.phase.DataError? && !Feed(step, START, taken).0.empty
      ensures phase.DataError?
    {
    }

    lemma TrailerRefused()
      requires DecValid() && WrongTrailer(step, taken)
      ensures phase.DataError?
    {
      hide AreFrames, Feed, DecValid;
      var frames, blocks, n :| WrongTrailerOf(step, frames, blocks, n, taken);
      TrailerIff(step, frames, blocks, n);
      ErrorIsKept();
    }

    /** Between two items with nothing set aside, what has been taken in is right items for
        what has come out. */
    lemma AcceptedSoFar()
      requires DecValid() && (phase.WantHeader1? || phase.AtEof?) && inOffset == 0
      ensures Accepts(step, taken, given + Held())
    {
      FeedIff(step, taken, given + Held());
    }

    /** After right items without an empty block the decoder is between two items. */
    lemma AcceptedEnds(items: seq<Item>, eof: bool, text: Bytes)
      requires DecValid() && AcceptsAs(step, items, eof, taken, text) && !SawEmpty(items)
      ensures (phase.WantHeader1? || phase.AtEof?) && inOffset == 0 && given + Held() == text
    {
      hide AcceptsAs;
      AcceptedAs(step, items, eof, taken, text);
    }

    method FlushDecoded(room: nat) returns (bytes: Bytes)
      requires DecValid()
      modifies this`outOffset, this`outCount, this`given
      ensures DecValid() && |bytes| <= room && given == old(given) + bytes
      ensures |bytes| == Min(room, old(|Held()|))
    {
      hide Decoding;
      bytes := ProduceOutput(room);
    }

    /** lzf_stream_decompress_final. */
    method DecompressFinal(inp: Bytes, room: nat) returns (status: Status, used: nat, bytes: Bytes)
      requires DecValid()
      modifies this, inBuf, outBuf
      ensures DecValid() && used <= |inp| && taken == old(taken) + inp[..used]
      ensures |bytes| <= room && given == old(given) + bytes
      ensures status == OK ==> used == |inp| && outCount == 0
      ensures status == BufferOverflow ==> outCount > 0
      ensures status == OK ==> Accepts(step, taken, given)
      ensures forall items, eof, text :: AcceptsAs(step, items, eof, taken, text) && !SawEmpty(items) && used == |inp| ==>
                (status == if outCount == 0 then OK else BufferOverflow) && (status == OK ==> given == text)
      ensures WrongTrailer(step, taken) ==> status == BadFormat
      ensures forall s, text :: IsStream(step, s, text) && taken <= s && (used == |inp| ==> taken == s) ==>
                (status == if outCount == 0 then OK else BufferOverflow) && (status == OK ==> given == text)
      ensures forall s, text :: IsStream(step, s, text) && old(taken) == s && inp == [] && old(|Held()|) <= room ==> status == OK
      ensures |bytes| >= Min(room, old(|Held()|))
    {
      hide Decoding, IsStream, WrongTrailer, Accepts, AcceptsAs;
      ghost var held := Held();
      forall s, text | IsStream(step, s, text) && taken == s && inp == []
        ensures given + held == text
      {
        StreamAhead(s, text);
      }
      status, used, bytes := DecompressProcess(inp, room);
      forall items, eof, text | AcceptsAs(step, items, eof, taken, text) && !SawEmpty(items)
        ensures (phase.WantHeader1? || phase.AtEof?) && inOffset == 0 && given + Held() == text
      {
        AcceptedEnds(items, eof, text);
      }
      if status != OK {
        return;
      }
      forall s, text | IsStream(step, s, text) && taken == s
        ensures phase == WantHeader1 && inOffset == 0 && given + Held() == text
      {
        StreamAhead(s, text);
      }
      if used == |inp| && (if phase.WantHeader1? || phase.AtEof? then inOffset > 0 else true) {
        return BadFormat, used, bytes;
      }
      if outCount > 0 {
        return BufferOverflow, used, bytes;
      }
      HeldNothing();
      AcceptedSoFar();
    }

    lemma HeldNothing()
      requires DecValid() && outCount == 0
      ensures given + Held() == given
    {
    }
  }

  lemma DecodingPrefix(step: CrcStep, s: Bytes, text: Bytes, taken: Bytes, phase: Phase, crc: nat, out: Bytes, empty: bool, pending: Bytes)
    requires PhaseOk(phase) && Decoding(step, taken, phase, crc, out, empty, pending) && taken <= s
    requires Feed(step, START, s) == (Dec(WantHeader1, Crc(step, 0, text), text, false), [])
    ensures !Stopped(phase) && (taken == s ==> !empty) && out <= text
    ensures taken == s && |pending| < Need(phase) ==> phase == WantHeader1 && pending == [] && out == text
  {
    var start, rest := START, s[|taken|..];
    assert s == taken + rest;
    FeedConcat(step, start, taken, rest);
    var (d, aside) := Feed(step, start, taken);
    FeedGrows(step, d, aside + rest);
    FeedGrows(step, Dec(phase, crc, out, empty), pending);
  }

  lemma DecodingError(step: CrcStep, taken: Bytes, crc: nat, text: Bytes, crc': nat, text': Bytes, empty: bool)
    requires Decoding(step, taken, DataError, crc, text, empty, [])
    ensures Decoding(step, taken, DataError, crc', text', empty, [])
  {
  }

  lemma UnpackReported(unit: Bytes, usize: nat, r: int, written: Bytes)
    requires |written| == usize && (unit == [] ==> r < 0)
    requires unit != [] ==> Lzf.Reports(Decode(unit, usize), r, written)
    ensures Unpack(1, unit, usize) == if r == usize then Some(written) else None
  {
    if r == usize {
      assert written[..r] == written;
    }
  }

  ghost predicate Decoding(step: CrcStep, taken: Bytes, phase: Phase, crc: nat, text: Bytes, empty: bool, pending: Bytes)
    requires PhaseOk(phase)
  {
    var whole := Feed(step, START, taken);
    if phase.DataError? then whole.0.phase.DataError?
    else whole == Feed(step, Dec(phase, crc, text, empty), pending)
  }

  /** More input arrives. */
  lemma DecodingTakes(step: CrcStep, taken: Bytes, phase: Phase, crc: nat, text: Bytes, empty: bool, pending: Bytes, more: Bytes)
    requires PhaseOk(phase) && Decoding(step, taken, phase, crc, text, empty, pending)
    requires Stopped(phase) ==> more == []
    ensures Decoding(step, taken + more, phase, crc, text, empty, pending + more)
  {
    if Stopped(phase) {
      assert taken + more == taken && pending + more == pending;
    } else {
      FeedConcat(step, START, taken, more);
      FeedConcat(step, Dec(phase, crc, text, empty), pending, more);
    }
  }

  /** A complete unit is acted on. */
  lemma DecodingActs(step: CrcStep, taken: Bytes, phase: Phase, crc: nat, text: Bytes, empty: bool, unit: Bytes)
    requires PhaseOk(phase) && !Stopped(phase) && |unit| == Need(phase) && Decoding(step, taken, phase, crc, text, empty, unit)
    ensures var d := Act(step, Dec(phase, crc, text, empty), unit); Decoding(step, taken, d.phase, d.crc, d.text, d.empty, [])
  {
    FeedUnit(step, Dec(phase, crc, text, empty), unit, []);
    assert unit + [] == unit;
  }

  /** A header never leads to an unmarked empty block, and asks for no more than fits the buffer. */
  lemma HeadersFit(step: CrcStep, d: Dec, unit: Bytes)
    requires PhaseOk(d.phase) && !Stopped(d.phase) && !d.phase.WantData? && |unit| == Need(d.phase)
    ensures var r := Act(step, d, unit); Need(r.phase) <= BUFLEN && (EmptyBlock(r.phase) ==> r.empty)
    ensures Act(step, d, unit).crc == d.crc && Act(step, d, unit).text == d.text
  {
  }

  /** The frame for a block and what the compressor made of it. */
  ghost function FrameFor(block: Bytes, packed: Option<Bytes>): Bytes
    requires |block| <= MAX_BLOCK
  {
    if packed.Some? && |packed.value| <= MAX_BLOCK then PackedFrame(packed.value, |block|) else RawFrame(block)
  }

  lemma NoTrailer(crc: nat)
    requires crc < 0x1_0000_0000
    ensures TrailerIf(false, crc) == []
  {
  }

  /** The frames written so far are for the blocks taken so far, and the checksum is theirs. */
  ghost predicate Encoding(step: CrcStep, blocks: seq<Bytes>, frames: seq<Bytes>, crc: nat) {
    AreFrames(frames, blocks) && crc == Crc(step, 0, Flatten(blocks)) && crc < 0x1_0000_0000
  }

  /** All blocks are full; once the input has ended, all but the last. */
  ghost predicate Blocking(blocks: seq<Bytes>, flushed: bool) {
    if flushed then Cut(blocks) else forall i :: 0 <= i < |blocks| ==> |blocks[i]| == MAX_BLOCK
  }

  ghost function TrailerIf(wrote: bool, crc: nat): Bytes
    requires crc < 0x1_0000_0000
  {
    if wrote then Trailer(crc) else []
  }

  lemma FrameLengths()
    ensures forall block: Bytes :: |block| <= MAX_BLOCK ==> |RawFrame(block)| == |block| + 5
    ensures forall payload: Bytes, size: nat :: |payload| <= MAX_BLOCK && size <= MAX_BLOCK ==> |PackedFrame(payload, size)| == |payload| + 7
  {
  }

  lemma RawIsFrame(block: Bytes)
    requires 1 <= |block| <= MAX_BLOCK
    ensures IsFrame(RawFrame(block), block)
  {
  }

  lemma PackedIsFrame(payload: Bytes, block: Bytes)
    requires 1 <= |block| <= MAX_BLOCK && 1 <= |payload| <= MAX_BLOCK && Encodes(payload, block)
    ensures IsFrame(PackedFrame(payload, |block|), block)
  {
    hide Encodes;
    assert IsPacked(PackedFrame(payload, |block|), payload, block);
  }

  lemma EncodingGrows(step: CrcStep, blocks: seq<Bytes>, frames: seq<Bytes>, crc: nat, block: Bytes, frame: Bytes)
    requires Encoding(step, blocks, frames, crc) && IsFrame(frame, block)
    ensures Encoding(step, blocks + [block], frames + [frame], Crc(step, crc, block))
    ensures Flatten(frames + [frame]) == Flatten(frames) + frame
    ensures Flatten(blocks + [block]) == Flatten(blocks) + block
  {
    hide IsFrame;
    AppendPart(blocks, block);
    AppendPart(frames, frame);
    CrcConcat(step, 0, Flatten(blocks), block);
  }

  lemma BlockingGrows(blocks: seq<Bytes>, block: Bytes)
    requires Blocking(blocks, false)
    ensures |block| == MAX_BLOCK ==> Blocking(blocks + [block], false)
    ensures Blocking(blocks + [block], true)
  {
  }

  lemma UnitTaken(pending: Bytes, avail: Bytes, unit: Bytes, rest: Bytes)
    requires unit + rest == pending + avail && |rest| <= |avail|
    ensures pending + avail[..|avail| - |rest|] == unit
  {
    assert (unit + rest)[..|unit|] == unit;
    assert (pending + avail)[..|unit|] == pending + avail[..|avail| - |rest|];
  }

  lemma AppendPart(parts: seq<Bytes>, part: Bytes)
    ensures Flatten(parts + [part]) == Flatten(parts) + part
  {
    assert (parts + [part])[..|parts|] == parts;
  }

  lemma Regroup(a: Bytes, b: Bytes, c: Bytes, bc: Bytes)
    requires b + c == bc
    ensures (a + b) + c == a + bc
  {
  }
}
