/** Callers of crypto/lzf-stream.c: they cut their input as they like, offer what room they
    like, and repeat the final call until the context is done. */
module LzfRoundTrip {
  import opened Common
  import opened LzfWire
  import opened LzfStream

  /** How a caller behaves: it makes so many calls before its final ones, offers so much of
      its remaining input to the i-th of them, with so much room; then it gives all the rest to
      final calls, with so much room at the i-th of those. */
  datatype Caller = Caller(calls: nat, offer: nat -> nat, room: nat -> nat, lastRoom: nat -> nat)

  /** Without room a final call gets nowhere. */
  ghost predicate Persistent(caller: Caller) {
    forall i :: caller.lastRoom(i) > 0
  }

  /** The final calls of an encoder's caller end with OK, and with a whole stream. */
  method FinishEncoding(ctx: StreamCtx, text: Bytes, start: nat, caller: Caller) returns (status: Status, out: Bytes)
    requires Persistent(caller) && ctx.EncValid() && start <= |text| && ctx.taken == text[..start] && !ctx.flushed
    modifies ctx, ctx.inBuf, ctx.outBuf, ctx.htab
    ensures status == OK && ctx.given == old(ctx.given) + out && IsStream(ctx.step, ctx.given, text)
  {
    hide IsStream, StreamCtx.EncValid;
    var i, at := 0, start;
    out, status := [], BufferOverflow;
    while status != OK
      invariant ctx.EncValid() && 0 <= at <= |text| && ctx.taken == text[..at] && ctx.given == old(ctx.given) + out
      invariant ctx.flushed ==> at == |text|
      invariant status == OK ==> at == |text| && IsStream(ctx.step, ctx.given, text)
      decreases status != OK, |text| - at, !ctx.flushed, !ctx.wroteTrailer, ctx.outCount - ctx.outOffset
    {
      var st, used, bytes := ctx.CompressFinal(text[at..], caller.lastRoom(i));
      Regroup(old(ctx.given), out, bytes, out + bytes);
      assert text[..at] + text[at..][..used] == text[..at + used];
      i, at, out, status := i + 1, at + used, out + bytes, st;
      assert text[..|text|] == text;
    }
  }

  /** Any caller gets a whole stream for its input, and the last final call reports OK. */
  method EncodeAll(step: CrcStep, text: Bytes, caller: Caller) returns (status: Status, out: Bytes)
    requires Persistent(caller)
    ensures status == OK && IsStream(step, out, text)
  {
    hide IsStream, StreamCtx.EncValid, Persistent;
    var ctx := new StreamCtx(step);
    var i, at := 0, 0;
    out := [];
    while i < caller.calls
      invariant ctx.EncValid() && fresh(ctx) && fresh(ctx.inBuf) && fresh(ctx.outBuf) && fresh(ctx.htab) && ctx.step == step
      invariant 0 <= at <= |text| && ctx.taken == text[..at] && ctx.given == out && !ctx.flushed
    {
      var piece := text[at..][..Min(caller.offer(i), |text| - at)];
      var used, bytes := ctx.CompressProcess(piece, caller.room(i));
      assert text[..at] + piece[..used] == text[..at + used];
      i, at, out := i + 1, at + used, out + bytes;
    }
    var last;
    status, last := FinishEncoding(ctx, text, at, caller);
    out := out + last;
  }

  /** The final calls of a decoder's caller end with OK, and with the whole text. */
  method FinishDecoding(ctx: StreamCtx, stream: Bytes, ghost text: Bytes, start: nat, caller: Caller)
    returns (status: Status, out: Bytes)
    requires Persistent(caller) && ctx.DecValid() && start <= |stream| && ctx.taken == stream[..start]
    requires IsStream(ctx.step, stream, text)
    modifies ctx, ctx.inBuf, ctx.outBuf
    ensures status == OK && ctx.given == old(ctx.given) + out == text
  {
    hide IsStream, StreamCtx.DecValid;
    var i, at := 0, start;
    out, status := [], BufferOverflow;
    ctx.StreamAhead(stream, text);
    while status != OK
      invariant ctx.DecValid() && 0 <= at <= |stream| && ctx.taken == stream[..at]
      invariant ctx.given == old(ctx.given) + out <= text
      invariant status == OK ==> ctx.given == text
      decreases status != OK, |stream| - at, |text| - |ctx.given|, ctx.outCount == 0
    {
      var st, used, bytes := ctx.DecompressFinal(stream[at..], caller.lastRoom(i));
      Regroup(old(ctx.given), out, bytes, out + bytes);
      assert stream[..at] + stream[at..][..used] == stream[..at + used];
      i, at, out, status := i + 1, at + used, out + bytes, st;
      assert stream[..|stream|] == stream;
      ctx.StreamAhead(stream, text);
    }
  }

  /** Any caller gets the text of a stream back, and the last final call reports OK. */
  method DecodeAll(step: CrcStep, stream: Bytes, ghost text: Bytes, caller: Caller) returns (status: Status, out: Bytes)
    requires Persistent(caller) && IsStream(step, stream, text)
    ensures status == OK && out == text
  {
    hide IsStream, StreamCtx.DecValid, Persistent;
    var ctx := new StreamCtx(step);
    var i, at := 0, 0;
    out := [];
    while i < caller.calls
      invariant ctx.DecValid() && fresh(ctx) && fresh(ctx.inBuf) && fresh(ctx.outBuf) && ctx.step == step
      invariant 0 <= at <= |stream| && ctx.taken == stream[..at] && ctx.given == out
    {
      var piece := stream[at..][..Min(caller.offer(i), |stream| - at)];
      var st, used, bytes := ctx.DecompressProcess(piece, caller.room(i));
      assert stream[..at] + piece[..used] == stream[..at + used];
      assert IsStream(step, stream, text) && ctx.taken <= stream;
      assert st == OK;
      i, at, out := i + 1, at + used, out + bytes;
    }
    var last;
    status, last := FinishDecoding(ctx, stream, text, at, caller);
    out := out + last;
  }

  /** However the two callers cut their input, and whatever room they offer, the decoder's
      caller gets back exactly what the encoder's caller put in. */
  method StreamRoundTrip(step: CrcStep, text: Bytes, sender: Caller, receiver: Caller)
    returns (sent: Status, stream: Bytes, received: Status, out: Bytes)
    requires Persistent(sender) && Persistent(receiver)
    ensures sent == OK && IsStream(step, stream, text)
    ensures received == OK && out == text
  {
    sent, stream := EncodeAll(step, text, sender);
    received, out := DecodeAll(step, stream, text, receiver);
  }
}
