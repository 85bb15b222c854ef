/** The cursor that cuts a read or write of the virtual disk into chunks
    (io_start and io_chunk in parcelkeeper/fuse_image.c), in 32-bit unsigned arithmetic. */
module IoCursor {
  import opened Common

  const TWO32: int := 0x1_0000_0000

  /** Conversion to `unsigned`. */
  function U32(x: int): nat { x % TWO32 }

  /** The chunk number and the offset within the chunk, as io_chunk computes them. */
  function IndexOf(pos: nat, chunksize: nat): nat
    requires chunksize > 0
  {
    U32(pos / chunksize)
  }

  function OffsetOf(pos: nat, chunk: nat, chunksize: nat): nat {
    U32(pos - U32(chunk * chunksize))
  }

  function Rem(pos: nat, chunksize: nat): (r: nat)
    requires chunksize > 0
    ensures r < chunksize
  {
    pos % chunksize
  }

  /** One segment; `at` is its place in the caller's buffer. */
  datatype Segment = Segment(chunk: nat, offset: nat, length: nat, at: nat)

  /** Where the I/O has to stop. */
  function Limit(start: nat, count: nat, chunksize: nat, chunks: nat): nat {
    if start >= DiskEnd(chunks, chunksize) then start else Min(start + count, DiskEnd(chunks, chunksize))
  }

  function DiskEnd(chunks: nat, chunksize: nat): nat { chunks * chunksize }

  /** The first chunk number fits the `unsigned` field, or what is left of it is past the end
      of the disk all the same. Later numbers need no condition: the walk ends at the end of
      the disk, whose number fits. */
  predicate IndexOk(start: nat, count: nat, chunksize: nat, chunks: nat)
    requires chunksize > 0
  {
    count == 0 || start / chunksize < TWO32 || IndexOf(start, chunksize) >= chunks
  }

  /** The segments lie inside chunks, are not empty, and cover exactly [start, upTo) in order. */
  ghost predicate Covers(segs: seq<Segment>, start: nat, upTo: nat, chunksize: nat, chunks: nat)
    requires chunksize > 0
  {
    && (forall i :: 0 <= i < |segs| ==>
          && 0 < segs[i].length && segs[i].offset + segs[i].length <= chunksize
          && segs[i].chunk < chunks
          && segs[i].chunk * chunksize + segs[i].offset == start + segs[i].at)
    && (forall i :: 0 <= i < |segs| - 1 ==> segs[i + 1].at == segs[i].at + segs[i].length)
    && (if segs == [] then upTo == start
        else segs[0].at == 0 && start + segs[|segs| - 1].at + segs[|segs| - 1].length == upTo)
  }

  lemma DivMod(p: nat, q: nat)
    requires q > 0
    ensures p == (p / q) * q + p % q && 0 <= p % q < q
  {
  }

  lemma MulLess(a: nat, b: nat, q: nat)
    requires a < b && q > 0
    ensures a * q + q <= b * q
  {
    assert (a + 1) * q <= b * q;
  }

  /** The 32-bit offset is right even where `chunk * chunksize` wraps around, and even
      where the chunk number itself did. */
  lemma OffsetSurvivesWrap(pos: nat, chunksize: nat)
    requires 0 < chunksize < TWO32
    ensures OffsetOf(pos, IndexOf(pos, chunksize), chunksize) == Rem(pos, chunksize)
  {
    DivMod(pos, chunksize);
    ModMul(pos / chunksize, chunksize);
    var m := (pos / chunksize) * chunksize;
    assert m == (m / TWO32) * TWO32 + U32(m);
    assert pos - U32(m) == (m / TWO32) * TWO32 + pos % chunksize;
    ModAdd(m / TWO32, pos % chunksize);
  }

  lemma ModAdd(k: nat, r: nat)
    requires r < TWO32
    ensures (k * TWO32 + r) % TWO32 == r
  {
  }

  class Cursor {
    const start: nat       // off_t
    const count: nat       // size_t
    const chunksize: nat   // parcel->chunksize
    const chunks: nat      // parcel->chunks
    var chunk: nat
    var offset: nat
    var length: nat
    var bufOffset: nat
    var eof: bool

    ghost predicate Valid()
      reads this
    {
      && 0 < chunksize < TWO32 && chunks < TWO32 && count < TWO32
      && bufOffset + length <= count
    }

    /** io_start. */
    constructor (start: nat, count: nat, chunksize: nat, chunks: nat)
      requires 0 < chunksize < TWO32 && chunks < TWO32 && count < TWO32
      ensures Valid() && bufOffset == 0 && length == 0 && !eof
      ensures this.start == start && this.count == count && this.chunksize == chunksize && this.chunks == chunks
    {
      this.start, this.count, this.chunksize, this.chunks := start, count, chunksize, chunks;
      chunk, offset, length, bufOffset, eof := 0, 0, 0, 0, false;
    }

    /** io_chunk: the next segment starts where the last one ended, lies within one chunk of
        the disk, and is as long as the chunk and the request allow. */
    method Next() returns (more: bool)
      requires Valid()
      modifies this
      ensures bufOffset == old(bufOffset + length)
      ensures var pos := start + bufOffset;
              && (more <==> bufOffset < count && IndexOf(pos, chunksize) < chunks)
              && (more ==> Valid() && chunk == IndexOf(pos, chunksize) && offset == Rem(pos, chunksize)
                           && length == Min(chunksize - Rem(pos, chunksize), count - bufOffset))
              && eof == (old(eof) || (bufOffset < count && IndexOf(pos, chunksize) >= chunks))
    {
      hide IndexOf, OffsetOf, Rem;
      bufOffset := U32(bufOffset + length);
      if bufOffset >= count {
        return false;
      }
      chunk := IndexOf(start + bufOffset, chunksize);
      if chunk >= chunks {
        eof := true;
        return false;
      }
      OffsetSurvivesWrap(start + bufOffset, chunksize);
      offset := OffsetOf(start + bufOffset, chunk, chunksize);
      length := U32(Min(U32(chunksize - offset), count - bufOffset));
      return true;
    }
  }

  lemma ModMul(a: nat, b: nat)
    ensures (U32(a) * b) % TWO32 == (a * b) % TWO32
  {
    var k := a / TWO32;
    assert a == k * TWO32 + U32(a);
    calc {
      (a * b) % TWO32;
      ((k * TWO32 + U32(a)) * b) % TWO32;
      { assert (k * TWO32 + U32(a)) * b == (k * b) * TWO32 + U32(a) * b; }
      ((k * b) * TWO32 + U32(a) * b) % TWO32;
      { ModShift(k * b, U32(a) * b); }
      (U32(a) * b) % TWO32;
    }
  }

  lemma ModShift(k: nat, x: nat)
    ensures (k * TWO32 + x) % TWO32 == x % TWO32
  {
    assert x == (x / TWO32) * TWO32 + x % TWO32;
    assert k * TWO32 + x == (k + x / TWO32) * TWO32 + x % TWO32;
    ModAdd(k + x / TWO32, x % TWO32);
  }

  /** The loop of image_read and image_write over the cursor. The segments cut the request,
      up to the end of the disk, into pieces of single chunks, if and only if the first chunk
      number is no victim of wrap-around; and then `eof` tells whether the request went past
      the end of the disk. */
  method Walk(start: nat, count: nat, chunksize: nat, chunks: nat) returns (segs: seq<Segment>, eof: bool)
    requires 0 < chunksize < TWO32 && chunks < TWO32 && count < TWO32
    ensures Covers(segs, start, Limit(start, count, chunksize, chunks), chunksize, chunks) <==>
            IndexOk(start, count, chunksize, chunks)
    ensures IndexOk(start, count, chunksize, chunks) ==> (eof <==> count > 0 && start + count > DiskEnd(chunks, chunksize))
  {
    hide IndexOf, OffsetOf, Rem, Covers, Placed, Limit;
    var cur := new Cursor(start, count, chunksize, chunks);
    segs := [];
    ghost var ok := IndexOk(start, count, chunksize, chunks);
    CoverNothing(start, chunksize, chunks);
    var more := cur.Next();
    PlaceFirst(start, count, chunksize, chunks);
    while more
      invariant more ==> cur.Valid()
      invariant fresh(cur) && cur.start == start && cur.count == count && cur.chunksize == chunksize && cur.chunks == chunks
      invariant cur.bufOffset <= count
      invariant more ==> cur.bufOffset < count && cur.offset < chunksize
      invariant more ==> cur.length == Min(chunksize - cur.offset, count - cur.bufOffset)
      invariant !ok ==> more || segs != []
      invariant segs != [] ==> segs[|segs| - 1].length > 0
      invariant ok ==> Covers(segs, start, start + cur.bufOffset, chunksize, chunks)
      invariant ok && more ==> !cur.eof && Placed(start + cur.bufOffset, chunksize, chunks, cur.chunk, cur.offset)
      invariant ok && !more ==> (cur.eof <==> cur.bufOffset < count)
      invariant ok && cur.eof ==> start + cur.bufOffset >= DiskEnd(chunks, chunksize)
      decreases if more then count - cur.bufOffset + 1 else 0
    {
      ghost var before, pos := segs, start + cur.bufOffset;
      segs := segs + [Segment(cur.chunk, cur.offset, cur.length, cur.bufOffset)];
      if ok {
        ExtendCover(before, segs, start, pos, pos + cur.length, chunksize, chunks);
        PlaceNext(pos, cur.chunk, cur.offset, cur.length, chunksize, chunks);
      }
      more := cur.Next();
    }
    eof := cur.eof;
    if ok {
      CoverEnds(segs, start, count, cur.bufOffset, chunksize, chunks);
    } else {
      WrongCover(segs, start, count, chunksize, chunks);
    }
  }

  /** A request whose first chunk number wrapped should have found the end of the disk. */
  lemma WrongCover(segs: seq<Segment>, start: nat, count: nat, chunksize: nat, chunks: nat)
    requires 0 < chunksize && chunks < TWO32 && !IndexOk(start, count, chunksize, chunks)
    requires segs != [] && segs[|segs| - 1].length > 0
    ensures !Covers(segs, start, Limit(start, count, chunksize, chunks), chunksize, chunks)
  {
    QuotientPlaces(start, chunksize, chunks);
  }

  lemma CoverNothing(start: nat, chunksize: nat, chunks: nat)
    requires chunksize > 0
    ensures Covers([], start, start, chunksize, chunks)
  {
  }

  /** A cover that stopped at the end of the request or of the disk stopped at the limit. */
  lemma CoverEnds(segs: seq<Segment>, start: nat, count: nat, at: nat, chunksize: nat, chunks: nat)
    requires chunksize > 0 && at <= count && Covers(segs, start, start + at, chunksize, chunks)
    requires at < count ==> start + at >= DiskEnd(chunks, chunksize)
    ensures start + at == Limit(start, count, chunksize, chunks)
    ensures at < count <==> count > 0 && start + count > DiskEnd(chunks, chunksize)
  {
    if at > 0 {
      var last := segs[|segs| - 1];
      MulLess(last.chunk, chunks, chunksize);
    }
  }

  ghost predicate Placed(pos: nat, chunksize: nat, chunks: nat, chunk: nat, offset: nat)
    requires chunksize > 0
  {
    chunk < chunks && offset < chunksize && chunk * chunksize + offset == pos
  }

  /** The cursor finds the right chunk for a position, or the end of the disk. */
  ghost predicate Finds(pos: nat, chunksize: nat, chunks: nat)
    requires 0 < chunksize
  {
    if IndexOf(pos, chunksize) < chunks
    then Placed(pos, chunksize, chunks, IndexOf(pos, chunksize), Rem(pos, chunksize))
    else pos >= DiskEnd(chunks, chunksize)
  }

  lemma PlaceFirst(start: nat, count: nat, chunksize: nat, chunks: nat)
    requires 0 < chunksize && chunks < TWO32
    ensures IndexOk(start, count, chunksize, chunks) && count > 0 ==> Finds(start, chunksize, chunks)
    ensures !IndexOk(start, count, chunksize, chunks) ==> count > 0 && IndexOf(start, chunksize) < chunks
  {
    QuotientPlaces(start, chunksize, chunks);
  }

  /** The position after a segment of a chunk of the disk is in that chunk or at the start of
      the next, whose number fits. */
  lemma PlaceNext(pos: nat, chunk: nat, offset: nat, length: nat, chunksize: nat, chunks: nat)
    requires 0 < chunksize && chunks < TWO32 && Placed(pos, chunksize, chunks, chunk, offset)
    requires offset + length <= chunksize
    ensures Finds(pos + length, chunksize, chunks)
  {
    hide Rem;
    var next := pos + length;
    DivMod(next, chunksize);
    if next / chunksize > chunk + 1 {
      MulLess(chunk + 1, next / chunksize, chunksize);
    }
    QuotientPlaces(next, chunksize, chunks);
  }

  lemma QuotientPlaces(pos: nat, chunksize: nat, chunks: nat)
    requires 0 < chunksize
    ensures var q := pos / chunksize;
      if q < chunks then Placed(pos, chunksize, chunks, q, Rem(pos, chunksize)) else pos >= DiskEnd(chunks, chunksize)
  {
    var q := pos / chunksize;
    DivMod(pos, chunksize);
    if q >= chunks {
      MulMono(chunks, q, chunksize);
    }
  }

  lemma MulMono(a: nat, b: nat, q: nat)
    requires a <= b
    ensures a * q <= b * q
  {
  }

  lemma ExtendCover(before: seq<Segment>, segs: seq<Segment>, start: nat, mid: nat, upTo: nat, chunksize: nat, chunks: nat)
    requires chunksize > 0 && start <= mid < upTo && Covers(before, start, mid, chunksize, chunks)
    requires |segs| == |before| + 1 && segs[..|before|] == before
    requires var last := segs[|before|];
             && last.at == mid - start && last.length == upTo - mid
             && Placed(mid, chunksize, chunks, last.chunk, last.offset)
             && last.offset + last.length <= chunksize
    ensures Covers(segs, start, upTo, chunksize, chunks)
  {
    assert forall i :: 0 <= i < |before| ==> segs[i] == before[i];
  }

  /** A request that the cursor gets wrong: byte 2^41 of a disk of one 512-byte chunk finds
      byte 0 instead of the end of the disk. A write can ask for it; a kernel that knows the
      size of the file cuts reads off before they get here. */
  method IndexWraps() returns (chunk: nat, offset: nat, more: bool)
    ensures !IndexOk(0x200_0000_0000, 1, 512, 1)
    ensures more && chunk == 0 && offset == 0
  {
    var cur := new Cursor(0x200_0000_0000, 1, 512, 1);
    more := cur.Next();
    chunk, offset := cur.chunk, cur.offset;
  }
}
