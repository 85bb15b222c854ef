/**
 * Compacting the hoard while no other process changes it: chunks move from the
 * highest rows into the lowest free ones, then the tail of the table and of the
 * file is cut off.
 */
module Compaction {
  import opened Common
  import opened HoardState
  import opened HoardSteps
  import opened HoardInvariant
  import opened HoardTheorems
  import opened HoardRefs

  // ----- Measures -----

  ghost function Sum(s: set<nat>): nat
    decreases |s|
  {
    if s == {} then 0 else
    var x :| x in s; x + Sum(s - {x})
  }

  lemma {:induction false} SumWithout(s: set<nat>, x: nat)
    requires x in s
    ensures Sum(s) == x + Sum(s - {x})
    decreases |s|
  {
    var y :| y in s && Sum(s) == y + Sum(s - {y});
    if y != x {
      SumWithout(s - {y}, x);
      SumWithout(s - {x}, y);
      assert s - {y} - {x} == s - {x} - {y};
    }
  }

  /** The sum of the tagged offsets falls with every move. */
  lemma MoveFalls(digest: Bytes -> Tag, t: Table, f: File, from: nat, to: nat)
    requires TableOk(t) && MoveOk(digest, t, f, from, to)
    ensures Sum(TaggedRows(MovedTable(t, from, to))) < Sum(TaggedRows(t))
    ensures |TaggedRows(MovedTable(t, from, to))| == |TaggedRows(t)|
  {
    var (a, b) := (TaggedRows(t), TaggedRows(MovedTable(t, from, to)));
    SumWithout(a, from);
    SumWithout(b, to);
    assert b - {to} == a - {from};
    assert |a - {from}| == |a| - 1 && |b - {to}| == |b| - 1;
  }

  // ----- Counting -----

  lemma {:induction false} GridSize(n: nat)
    ensures |NewOffsets(0, n)| == n
  {
    if n == 0 {
      assert NewOffsets(0, 0) == {};
    } else {
      GridSize(n - 1);
      OneMore(0, n - 1);
      assert (n - 1) * STEP !in NewOffsets(0, n - 1);
    }
  }

  lemma SubsetSize(a: set<nat>, b: set<nat>)
    requires a <= b
    ensures |a| <= |b|
    ensures a != b ==> |a| < |b|
  {
    assert b == a + (b - a);
    assert |b| == |a| + |b - a|;
  }

  /** Every untagged row is unallocated: no process holds a slot. */
  ghost predicate NoneReserved(t: Table) {
    forall o :: o in t && t[o].inUse ==> t[o].tag.Some?
  }

  /** The free rows within the space that the tagged rows would fill. */
  function Gaps(t: Table): set<nat> {
    set o | o in t && !t[o].inUse && o < |TaggedRows(t)| * STEP
  }

  /** A move writes one slot, whole: the chunk's bytes, and zeroes behind them. */
  lemma MoveWritesSlot(digest: Bytes -> Tag, t: Table, f: File, from: nat, to: nat)
    requires MoveOk(digest, t, f, from, to)
    ensures var (g, n) := (MovedFile(t, f, from, to), t[from].length);
      && to in g && |g[to]| == 131072 && n <= |f[from]| && g[to][..n] == f[from][..n]
      && (forall i :: n <= i < 131072 ==> g[to][i] == 0)
      && forall o :: o != to ==> SameAt(f, g, o)
  {
  }

  /** A move goes from beyond the space the chunks need into it. */
  lemma MoveIntoSpace(digest: Bytes -> Tag, t: Table, f: File, from: nat, to: nat)
    requires TableOk(t) && NoneReserved(t) && MoveOk(digest, t, f, from, to)
    ensures to < |TaggedRows(t)| * STEP <= from
  {
    var n: nat :| Rows(t, n);
    var tagged := TaggedRows(t);
    var space := NewOffsets(0, |tagged|);
    GridSize(|tagged|);
    if to >= |tagged| * STEP {
      forall o | o in space ensures o in tagged {
        assert o in t && !Unallocated(t, o);
      }
      assert from in tagged && from !in space;
      SubsetSize(space, tagged);
    }
    if from < |tagged| * STEP {
      forall o | o in tagged ensures o in space {
        assert Tagged(t, o) && OnGrid(0, o);
      }
      assert OnGrid(0, to) && to in space && to !in tagged;
      SubsetSize(tagged, space);
    }
  }

  lemma MoveFillsGap(digest: Bytes -> Tag, t: Table, f: File, from: nat, to: nat)
    requires TableOk(t) && NoneReserved(t) && MoveOk(digest, t, f, from, to)
    ensures NoneReserved(MovedTable(t, from, to))
    ensures |Gaps(MovedTable(t, from, to))| == |Gaps(t)| - 1
  {
    MoveIntoSpace(digest, t, f, from, to);
    MoveFalls(digest, t, f, from, to);
    assert Gaps(MovedTable(t, from, to)) == Gaps(t) - {to};
    assert to in Gaps(t);
  }

  /** Every free row lies above every tagged one. */
  ghost predicate Compacted(t: Table) {
    forall o: nat, q: nat :: Unallocated(t, o) && Tagged(t, q) ==> q < o
  }

  /** Every chunk that the cursor will not come to is below every free row. */
  ghost predicate Settled(t: Table, cursor: set<nat>) {
    forall q: nat, u: nat :: Tagged(t, q) && q !in cursor && Unallocated(t, u) ==> q < u
  }

  lemma NoGapBelow(t: Table, cursor: set<nat>, from: nat, to: Option<nat>)
    requires TableOk(t) && Settled(t, cursor) && Tagged(t, from) && forall q :: q in cursor ==> q <= from
    requires to.None? ==> forall q: nat :: !Unallocated(t, q)
    requires to.Some? ==> LowestFree(t, to.value) && to.value >= from
    ensures Compacted(t)
  {
  }

  /** While there is a free row below the cursor, its next row is the highest tagged one. */
  lemma HighestOfCursor(t: Table, cursor: set<nat>, from: nat, to: nat)
    requires Settled(t, cursor) && Tagged(t, from) && (forall q :: q in cursor ==> q <= from) && Unallocated(t, to) && to < from
    ensures HighestTagged(t, from)
  {
  }

  lemma SettledMove(t: Table, cursor: set<nat>, from: nat, to: nat)
    requires TableOk(t) && Settled(t, cursor) && cursor <= TaggedRows(t) && from in cursor && LowestFree(t, to) && to < from
    ensures Settled(MovedTable(t, from, to), cursor - {from}) && cursor - {from} <= TaggedRows(MovedTable(t, from, to))
  {
    var v := MovedTable(t, from, to);
    forall q: nat, u: nat | Tagged(v, q) && q !in cursor - {from} && Unallocated(v, u)
      ensures q < u
    {
      assert u == from || (Unallocated(t, u) && to < u);
      assert q == to || (Tagged(t, q) && q !in cursor && q < to);
    }
  }

  lemma CompactedHasNoGaps(t: Table)
    requires TableOk(t) && Compacted(t)
    ensures Gaps(t) == {}
  {
    var n: nat :| Rows(t, n);
    if o :| o in Gaps(t) {
      assert Unallocated(t, o);
      var k: nat := o / STEP;
      GridSize(k);
      forall q | q in TaggedRows(t) ensures q in NewOffsets(0, k) {
        assert Tagged(t, q) && OnGrid(0, q);
      }
      SubsetSize(TaggedRows(t), NewOffsets(0, k));
    }
  }

  // ----- Runs of moves -----

  lemma {:induction false} OneMoreMove(digest: Bytes -> Tag, t: Table, f: File, moves: seq<(nat, nat)>, from: nat, to: nat)
    requires MovesOk(digest, t, f, moves)
    requires var (u, g) := AfterMoves(digest, t, f, moves); MoveOk(digest, u, g, from, to)
    ensures MovesOk(digest, t, f, moves + [(from, to)])
    ensures var (u, g) := AfterMoves(digest, t, f, moves);
      AfterMoves(digest, t, f, moves + [(from, to)]) == (MovedTable(u, from, to), MovedFile(u, g, from, to))
    decreases |moves|
  {
    var more := moves + [(from, to)];
    if moves == [] {
      assert more[1..] == [];
    } else {
      var (a, b) := moves[0];
      assert more[0] == moves[0] && more[1..] == moves[1..] + [(from, to)];
      OneMoreMove(digest, MovedTable(t, a, b), MovedFile(t, f, a, b), moves[1..], from, to);
    }
  }

  lemma {:induction false} MovesFall(digest: Bytes -> Tag, t: Table, f: File, moves: seq<(nat, nat)>)
    requires TableOk(t) && MovesOk(digest, t, f, moves)
    ensures var u := AfterMoves(digest, t, f, moves).0; Sum(TaggedRows(u)) + |moves| <= Sum(TaggedRows(t))
    decreases |moves|
  {
    hide TableOk, TaggedRows, Sum;
    if moves != [] {
      var (from, to) := moves[0];
      MoveKeeps(digest, t, f, from, to);
      MoveFalls(digest, t, f, from, to);
      MovesFall(digest, MovedTable(t, from, to), MovedFile(t, f, from, to), moves[1..]);
    }
  }

  lemma {:induction false} MovesFillGaps(digest: Bytes -> Tag, t: Table, f: File, moves: seq<(nat, nat)>)
    requires TableOk(t) && NoneReserved(t) && MovesOk(digest, t, f, moves)
    ensures var u := AfterMoves(digest, t, f, moves).0; NoneReserved(u) && |Gaps(u)| + |moves| == |Gaps(t)|
    decreases |moves|
  {
    hide TableOk, NoneReserved, Gaps;
    if moves != [] {
      var (from, to) := moves[0];
      MoveKeeps(digest, t, f, from, to);
      MoveFillsGap(digest, t, f, from, to);
      MovesFillGaps(digest, MovedTable(t, from, to), MovedFile(t, f, from, to), moves[1..]);
    }
  }

  lemma MoveHeldBefore(digest: Bytes -> Tag, t: Table, f: File, from: nat, to: nat, tag: Tag, data: Bytes)
    requires TableOk(t) && MoveOk(digest, t, f, from, to)
    requires Held(MovedTable(t, from, to), MovedFile(t, f, from, to), tag, data)
    ensures Held(t, f, tag, data)
  {
    var (u, g) := (MovedTable(t, from, to), MovedFile(t, f, from, to));
    var o :| HeldAt(u, g, o, tag, data);
    if o == to {
      assert g[to][..t[from].length] == f[from][..t[from].length];
      assert HeldAt(t, f, from, tag, data);
    } else {
      assert HeldAt(t, f, o, tag, data);
    }
  }

  /** Moving neither loses, nor adds, nor alters a chunk. */
  lemma {:induction false} MovesHoldIff(digest: Bytes -> Tag, t: Table, f: File, moves: seq<(nat, nat)>, tag: Tag, data: Bytes)
    requires TableOk(t) && MovesOk(digest, t, f, moves)
    ensures var (u, g) := AfterMoves(digest, t, f, moves); Held(u, g, tag, data) <==> Held(t, f, tag, data)
    decreases |moves|
  {
    hide TableOk, Held;
    if moves != [] {
      var (from, to) := moves[0];
      var (u, g) := (MovedTable(t, from, to), MovedFile(t, f, from, to));
      MoveKeeps(digest, t, f, from, to);
      if Held(t, f, tag, data) { MoveHolds(digest, t, f, from, to, tag, data); }
      if Held(u, g, tag, data) { MoveHeldBefore(digest, t, f, from, to, tag, data); }
      MovesHoldIff(digest, u, g, moves[1..], tag, data);
    }
  }

  ghost predicate AllReadable(digest: Bytes -> Tag, t: Table, f: File) {
    forall o :: Tagged(t, o) ==> 0 < t[o].length <= SLOT && Intact(digest, f, o, t[o].tag.value, t[o].length)
  }

  lemma MoveReadable(digest: Bytes -> Tag, t: Table, f: File, from: nat, to: nat)
    requires AllReadable(digest, t, f) && MoveOk(digest, t, f, from, to)
    ensures AllReadable(digest, MovedTable(t, from, to), MovedFile(t, f, from, to))
  {
    var (u, g) := (MovedTable(t, from, to), MovedFile(t, f, from, to));
    assert g[to][..t[from].length] == f[from][..t[from].length];
    assert forall o :: Tagged(u, o) && o != to ==> Tagged(t, o) && u[o] == t[o];
  }

  lemma {:induction false} MovesReadable(digest: Bytes -> Tag, t: Table, f: File, moves: seq<(nat, nat)>)
    requires AllReadable(digest, t, f) && MovesOk(digest, t, f, moves)
    ensures var (u, g) := AfterMoves(digest, t, f, moves); AllReadable(digest, u, g)
    decreases |moves|
  {
    hide AllReadable;
    if moves != [] {
      var (from, to) := moves[0];
      MoveReadable(digest, t, f, from, to);
      MovesReadable(digest, MovedTable(t, from, to), MovedFile(t, f, from, to), moves[1..]);
    }
  }

  lemma NotAllReadable(digest: Bytes -> Tag, t: Table, f: File, moves: seq<(nat, nat)>, o: nat)
    requires MovesOk(digest, t, f, moves)
    requires var (u, g) := AfterMoves(digest, t, f, moves); Tagged(u, o) && !Readable(digest, u, g, o)
    ensures !AllReadable(digest, t, f)
  {
    if AllReadable(digest, t, f) {
      MovesReadable(digest, t, f, moves);
    }
  }

  lemma {:induction false} AppendMoves(digest: Bytes -> Tag, t: Table, f: File, a: seq<(nat, nat)>, b: seq<(nat, nat)>)
    requires MovesOk(digest, t, f, a)
    requires var (u, g) := AfterMoves(digest, t, f, a); MovesOk(digest, u, g, b)
    ensures MovesOk(digest, t, f, a + b)
    ensures var (u, g) := AfterMoves(digest, t, f, a); AfterMoves(digest, t, f, a + b) == AfterMoves(digest, u, g, b)
    decreases |a|
  {
    if a == [] {
      assert a + b == b;
    } else {
      var (from, to) := a[0];
      assert (a + b)[0] == a[0] && (a + b)[1..] == a[1..] + b;
      AppendMoves(digest, MovedTable(t, from, to), MovedFile(t, f, from, to), a[1..], b);
    }
  }

  /** The same chunks are held, each with the same bytes. */
  ghost predicate SameChunks(t: Table, f: File, u: Table, g: File) {
    forall tag, data :: Held(t, f, tag, data) <==> Held(u, g, tag, data)
  }

  lemma MovesSameChunks(digest: Bytes -> Tag, t: Table, f: File, moves: seq<(nat, nat)>)
    requires TableOk(t) && MovesOk(digest, t, f, moves)
    ensures var (u, g) := AfterMoves(digest, t, f, moves); SameChunks(t, f, u, g)
  {
    forall tag, data ensures var (u, g) := AfterMoves(digest, t, f, moves); Held(u, g, tag, data) <==> Held(t, f, tag, data) {
      MovesHoldIff(digest, t, f, moves, tag, data);
    }
  }

  lemma TruncateSameChunks(t: Table, f: File, cut: nat)
    requires TableOk(t) && CutsAt(t, cut)
    ensures SameChunks(t, f, TruncatedTable(t, cut), TruncatedFile(f, cut))
  {
    var (u, g) := (TruncatedTable(t, cut), TruncatedFile(f, cut));
    forall tag, data ensures Held(t, f, tag, data) <==> Held(u, g, tag, data) {
      if Held(t, f, tag, data) {
        TruncateKeepsUsed(t, f, cut);
        HeldKept(t, f, u, g, tag, data);
      }
      if o :| HeldAt(u, g, o, tag, data) {
        assert HeldAt(t, f, o, tag, data);
      }
    }
  }

  /** With no slot reserved, a compacted and truncated table is just its chunks. */
  lemma NothingButChunks(t: Table, cut: nat)
    requires TableOk(t) && Compacted(t) && NoneReserved(t) && CutsAt(t, cut)
    ensures forall o :: o in TruncatedTable(t, cut) ==> Tagged(TruncatedTable(t, cut), o)
  {
    forall o | o in t && o < cut ensures Tagged(t, o) {
      assert Tagged(t, cut - STEP);
      assert !Unallocated(t, o);
    }
  }

  lemma TruncateStaysCompacted(t: Table, cut: nat)
    requires Compacted(t)
    ensures Compacted(TruncatedTable(t, cut))
  {
    var u := TruncatedTable(t, cut);
    forall o: nat, q: nat | Unallocated(u, o) && Tagged(u, q) ensures q < o {
      assert Unallocated(t, o) && Tagged(t, q);
    }
  }

  // ----- The compactor -----

  class Compactor {
    const digest: Bytes -> Tag
    var chunks: Table
    var refs: set<(nat, Tag)>
    var file: File

    constructor (digest: Bytes -> Tag, chunks: Table, refs: set<(nat, Tag)>, file: File)
      ensures this.digest == digest && this.chunks == chunks && this.refs == refs && this.file == file
    {
      this.digest, this.chunks, this.refs, this.file := digest, chunks, refs, file;
    }

    /** The number of moves to expect. */
    method CountMoves() returns (moves: nat)
      ensures moves == |Gaps(chunks)|
    {
      var offset := |TaggedRows(chunks)| * STEP;
      moves := |set o | o in chunks && !chunks[o].inUse && o < offset|;
    }

    /** The next row of a cursor that goes from the highest offset down. */
    method FindHighest(rows: set<nat>) returns (from: nat)
      requires rows != {}
      ensures from in rows && forall q :: q in rows ==> q <= from
    {
      var rest := rows;
      from :| from in rest;
      while rest != {}
        invariant rest <= rows && from in rows
        invariant forall q :: q in rows && q !in rest ==> q <= from
        decreases rest
      {
        var o :| o in rest;
        if from < o {
          from := o;
        }
        rest := rest - {o};
      }
    }

    method FindLowestFree() returns (to: Option<nat>)
      ensures to.None? ==> forall q: nat :: !Unallocated(chunks, q)
      ensures to.Some? ==> LowestFree(chunks, to.value)
    {
      to := None;
      var rest := FreeRows(chunks);
      while rest != {}
        invariant rest <= FreeRows(chunks)
        invariant to.None? ==> forall q: nat :: Unallocated(chunks, q) ==> q in rest
        invariant to.Some? ==> Unallocated(chunks, to.value)
        invariant to.Some? ==> forall q: nat :: Unallocated(chunks, q) && q !in rest ==> to.value <= q
        decreases rest
      {
        var o :| o in rest;
        if to.None? || o < to.value {
          to := Some(o);
        }
        rest := rest - {o};
      }
    }

    /** One transaction of at most MOVES moves, of the rows a cursor finds that was opened before
        the first of them; a chunk that cannot be read undoes it. */
    method Iteration() returns (ok: bool, moved: nat, done: bool, ghost moves: seq<(nat, nat)>)
      requires TableOk(chunks)
      modifies this`chunks, this`file
      ensures MovesOk(digest, old(chunks), old(file), moves) && |moves| == moved <= 16
      ensures ok ==> (chunks, file) == AfterMoves(digest, old(chunks), old(file), moves)
      ensures !ok ==> chunks == old(chunks) && file == AfterMoves(digest, old(chunks), old(file), moves).1
      ensures ok && done ==> Compacted(chunks)
      ensures ok && !done ==> moved == Min(16, |TaggedRows(old(chunks))|) > 0
      ensures forall h, p, s :: Sees(h, p, old(chunks), s, old(file)) ==>
        if ok then LeavesWith(digest, h, Step.Compact(p, moves), chunks, s, file)
        else exists to :: LeavesWith(digest, h, CompactUndone(p, moves, to, None), chunks, s, file)
      ensures AllReadable(digest, old(chunks), old(file)) ==> ok
    {
      hide TableOk, AllReadable, Sees, LeavesWith;
      var saved := chunks;
      var cursor := TaggedRows(chunks);
      ok, moved, done, moves := true, 0, cursor == {}, [];
      while moved < MOVES && cursor != {}
        invariant moved <= MOVES && |moves| == moved && saved == old(chunks) && TableOk(chunks)
        invariant MovesOk(digest, old(chunks), old(file), moves)
        invariant (chunks, file) == AfterMoves(digest, old(chunks), old(file), moves)
        invariant cursor <= TaggedRows(chunks) && Settled(chunks, cursor)
        invariant moved + |cursor| == |TaggedRows(old(chunks))|
        invariant done <==> TaggedRows(old(chunks)) == {}
      {
        var from := FindHighest(cursor);
        var to := FindLowestFree();
        if to.None? || to.value >= from {
          NoGapBelow(chunks, cursor, from, to);
          CompactIsStep(digest, old(chunks), old(file), moves);
          done := true;
          return;
        }
        HighestOfCursor(chunks, cursor, from, to.value);
        if !Readable(digest, chunks, file, from) {
          NotAllReadable(digest, old(chunks), old(file), moves, from);
          CompactUndoneIsStep(digest, old(chunks), old(file), moves, from, to.value);
          ok, chunks := false, saved;
          return;
        }
        OneMoreMove(digest, old(chunks), old(file), moves, from, to.value);
        MoveKeeps(digest, chunks, file, from, to.value);
        SettledMove(chunks, cursor, from, to.value);
        file := MovedFile(chunks, file, from, to.value);
        chunks := MovedTable(chunks, from, to.value);
        cursor, moved, moves := cursor - {from}, moved + 1, moves + [(from, to.value)];
      }
      CompactIsStep(digest, old(chunks), old(file), moves);
    }

    /** Drops the rows, and the part of the file, behind the last allocated row. A commit that
        fails puts the rows back. */
    method Truncate(commits: bool) returns (cut: nat)
      modifies this`chunks, this`file
      ensures CutsAt(old(chunks), cut)
      ensures chunks == (if commits then TruncatedTable(old(chunks), cut) else old(chunks)) && file == TruncatedFile(old(file), cut)
      ensures FileEnds(chunks, file)
      ensures forall h, p, s :: Sees(h, p, old(chunks), s, old(file)) ==>
                LeavesWith(digest, h, if commits then Step.Truncate(p, cut) else TruncateUndone(p, cut), chunks, s, file)
    {
      hide Sees, LeavesWith;
      var saved := chunks;
      cut := 0;
      var rest := set o | o in chunks && chunks[o].inUse;
      while rest != {}
        invariant forall o :: o in rest ==> o in chunks && chunks[o].inUse
        invariant forall o :: o in chunks && chunks[o].inUse && o !in rest ==> o + STEP <= cut
        invariant cut == 0 || (cut >= STEP && cut - STEP in chunks && chunks[cut - STEP].inUse)
        decreases rest
      {
        var o :| o in rest;
        if o + STEP > cut {
          cut := o + STEP;
        }
        rest := rest - {o};
      }
      TruncateIsStep(digest, chunks, file, cut);
      TruncateEndsFile(chunks, file, cut);
      file := TruncatedFile(file, cut);
      chunks := TruncatedTable(chunks, cut);
      if !commits {
        chunks := saved;
      }
    }

    /**
     * Collects garbage, moves chunks down until no free row is below a chunk, and
     * truncates, which may fail to commit.  `predicted` is the count made beforehand.
     */
    method Compact(commits: bool) returns (ok: bool, moved: nat, predicted: nat)
      requires TableOk(chunks)
      modifies this
      ensures TableOk(chunks) && refs == old(refs)
      ensures commits && AllReadable(digest, Collected(old(chunks), old(refs)), old(file)) ==> ok
      ensures SameChunks(Collected(old(chunks), old(refs)), old(file), chunks, file)
      ensures forall tag :: HasTag(chunks, tag) <==> HasTag(old(chunks), tag) && Referenced(old(refs), tag)
      ensures ok ==> Compacted(chunks) && FileEnds(chunks, file)
      ensures ok && NoneReserved(old(chunks)) ==> moved == predicted && forall o :: o in chunks ==> Tagged(chunks, o)
    {
      hide TableOk, Compacted, NoneReserved, Gaps, HasTag, Referenced, SameTags, FileEnds, AllReadable, SameChunks, MovesOk, AfterMoves, Collected, Sum, TaggedRows;
      chunks := Collected(chunks, refs);
      CollectOk(old(chunks), refs);
      CollectTags(old(chunks), refs);
      ghost var t, f := chunks, file;
      predicted := CountMoves();
      ok, moved := true, 0;
      var done := false;
      ghost var all := [];
      NoMoves(digest, t, f);
      while !done
        invariant ok && refs == old(refs)
        invariant MovesOk(digest, t, f, all) && AfterMoves(digest, t, f, all) == (chunks, file)
        invariant |all| == moved && TableOk(chunks)
        invariant done ==> Compacted(chunks)
        decreases Sum(TaggedRows(chunks)), !done
      {
        ghost var before, beforeFile := chunks, file;
        var cur;
        ghost var moves;
        ok, cur, done, moves := Iteration();
        if !ok {
          ItWasUnreadable(digest, t, f, all);
          MovesSameChunks(digest, t, f, all);
          MovesSameTags(digest, t, f, all);
          SameTagsAre(t, chunks);
          MovesKeepUsed(digest, before, beforeFile, moves);
          KeptSameChunks(before, beforeFile, file);
          SameChunksTrans(t, f, before, beforeFile, chunks, file);
          return;
        }
        MovesKeep(digest, before, beforeFile, moves);
        MovesFall(digest, before, beforeFile, moves);
        AppendMoves(digest, t, f, all, moves);
        moved, all := moved + cur, all + moves;
      }
      MovesSameChunks(digest, t, f, all);
      MovesSameTags(digest, t, f, all);
      ghost var packed, packedFile := chunks, file;
      ghost var cut := Truncate(commits);
      if !commits {
        ok := false;
        TruncateKeepsUsed(packed, packedFile, cut);
        KeptSameChunks(packed, packedFile, file);
        SameTagsAre(t, packed);
        SameChunksTrans(t, f, packed, packedFile, chunks, file);
        return;
      }
      TruncateOk(packed, cut);
      TruncateSameChunks(packed, packedFile, cut);
      TruncateStaysCompacted(packed, cut);
      TruncateSameTags(packed, cut);
      SameTagsAre(t, packed);
      SameTagsAre(packed, chunks);
      SameChunksTrans(t, f, packed, packedFile, chunks, file);
      if NoneReserved(old(chunks)) {
        CollectNoneReserved(old(chunks), refs);
        MovesFillGaps(digest, t, f, all);
        CompactedHasNoGaps(packed);
        NothingButChunks(packed, cut);
      }
    }
  }

  /** Nothing is kept in the file behind the last allocated row. */
  ghost predicate FileEnds(t: Table, f: File) {
    forall o :: o in f ==> exists q :: q in t && t[q].inUse && o < q + 256
  }

  lemma TruncateEndsFile(t: Table, f: File, cut: nat)
    requires CutsAt(t, cut)
    ensures FileEnds(t, TruncatedFile(f, cut)) && FileEnds(TruncatedTable(t, cut), TruncatedFile(f, cut))
  {
    if cut > 0 {
      var q: nat := cut - STEP;
      assert q in t && t[q].inUse && q in TruncatedTable(t, cut);
    }
  }

  lemma TruncateIsStep(digest: Bytes -> Tag, t: Table, f: File, cut: nat)
    requires CutsAt(t, cut)
    ensures forall h, p, s :: Sees(h, p, t, s, f) ==>
              && LeavesWith(digest, h, Truncate(p, cut), TruncatedTable(t, cut), s, TruncatedFile(f, cut))
              && LeavesWith(digest, h, TruncateUndone(p, cut), t, s, TruncatedFile(f, cut))
  {
    forall h: Hoard, p, s | Sees(h, p, t, s, f) ensures h.procs[p := s] == h.procs {
    }
  }

  lemma CompactIsStep(digest: Bytes -> Tag, t: Table, f: File, moves: seq<(nat, nat)>)
    requires MovesOk(digest, t, f, moves) && |moves| <= MOVES
    ensures var (u, g) := AfterMoves(digest, t, f, moves);
      forall h, p, s :: Sees(h, p, t, s, f) ==> LeavesWith(digest, h, Compact(p, moves), u, s, g)
  {
    hide MovesOk, AfterMoves;
    forall h: Hoard, p, s | Sees(h, p, t, s, f) ensures h.procs[p := s] == h.procs {
    }
  }

  lemma CompactUndoneIsStep(digest: Bytes -> Tag, t: Table, f: File, moves: seq<(nat, nat)>, from: nat, to: nat)
    requires MovesOk(digest, t, f, moves)
    requires var u := AfterMoves(digest, t, f, moves).0; LowestFree(u, to) && Tagged(u, from) && to < from
    ensures forall h, p, s :: Sees(h, p, t, s, f) ==>
              LeavesWith(digest, h, CompactUndone(p, moves, to, None), t, s, AfterMoves(digest, t, f, moves).1)
  {
    hide MovesOk, AfterMoves;
    forall h: Hoard, p, s | Sees(h, p, t, s, f) ensures h.procs[p := s] == h.procs {
    }
  }

  lemma CollectOk(t: Table, refs: set<(nat, Tag)>)
    requires TableOk(t)
    ensures TableOk(Collected(t, refs))
  {
    ReleaseOk(t, Collected(t, refs));
  }

  /** The tables list the same chunks. */
  ghost predicate SameTags(t: Table, u: Table) {
    forall tag :: HasTag(t, tag) <==> HasTag(u, tag)
  }

  lemma SameTagsAre(t: Table, u: Table)
    requires SameTags(t, u)
    ensures forall tag :: HasTag(t, tag) <==> HasTag(u, tag)
  {
  }

  lemma CollectTags(t: Table, refs: set<(nat, Tag)>)
    ensures forall tag :: HasTag(Collected(t, refs), tag) <==> HasTag(t, tag) && Referenced(refs, tag)
  {
    hide HasTag, Referenced, Collected;
    forall tag ensures HasTag(Collected(t, refs), tag) <==> HasTag(t, tag) && Referenced(refs, tag) {
      CollectedTags(t, refs, tag);
    }
  }

  lemma MoveSameTags(digest: Bytes -> Tag, t: Table, f: File, from: nat, to: nat)
    requires TaggedAllocated(t) && MoveOk(digest, t, f, from, to)
    ensures SameTags(t, MovedTable(t, from, to))
  {
    var u := MovedTable(t, from, to);
    forall tag ensures HasTag(t, tag) <==> HasTag(u, tag) {
      if o :| o in t && t[o].tag == Some(tag) {
        assert o != to;
        assert u[if o == from then to else o].tag == Some(tag);
      }
      if o :| o in u && u[o].tag == Some(tag) {
        assert t[if o == to then from else o].tag == Some(tag);
      }
    }
  }

  lemma {:induction false} MovesSameTags(digest: Bytes -> Tag, t: Table, f: File, moves: seq<(nat, nat)>)
    requires TableOk(t) && MovesOk(digest, t, f, moves)
    ensures SameTags(t, AfterMoves(digest, t, f, moves).0)
    decreases |moves|
  {
    hide TableOk, HasTag;
    if moves != [] {
      var (from, to) := moves[0];
      MoveKeeps(digest, t, f, from, to);
      TagsAllocated(t);
      MoveSameTags(digest, t, f, from, to);
      MovesSameTags(digest, MovedTable(t, from, to), MovedFile(t, f, from, to), moves[1..]);
    }
  }

  lemma TagsAllocated(t: Table)
    requires TableOk(t)
    ensures TaggedAllocated(t)
  {
  }

  lemma TruncateSameTags(t: Table, cut: nat)
    requires TableOk(t) && CutsAt(t, cut)
    ensures SameTags(t, TruncatedTable(t, cut))
  {
    var u := TruncatedTable(t, cut);
    forall tag ensures HasTag(t, tag) <==> HasTag(u, tag) {
      if o :| o in t && t[o].tag == Some(tag) {
        assert Tagged(t, o);
        assert o in u && u[o].tag == Some(tag);
      }
    }
  }

  lemma CollectNoneReserved(t: Table, refs: set<(nat, Tag)>)
    requires NoneReserved(t)
    ensures NoneReserved(Collected(t, refs))
  {
  }

  lemma NoMoves(digest: Bytes -> Tag, t: Table, f: File)
    ensures MovesOk(digest, t, f, []) && AfterMoves(digest, t, f, []) == (t, f)
  {
  }

  lemma ItWasUnreadable(digest: Bytes -> Tag, t: Table, f: File, all: seq<(nat, nat)>)
    requires MovesOk(digest, t, f, all)
    requires var (u, g) := AfterMoves(digest, t, f, all); !AllReadable(digest, u, g)
    ensures !AllReadable(digest, t, f)
  {
    if AllReadable(digest, t, f) {
      MovesReadable(digest, t, f, all);
    }
  }

  lemma KeptSameChunks(t: Table, f: File, g: File)
    requires TableOk(t) && KeepsUsed(t, f, g)
    ensures SameChunks(t, f, t, g)
  {
    forall tag, data ensures Held(t, f, tag, data) <==> Held(t, g, tag, data) {
      if Held(t, f, tag, data) { HeldKept(t, f, t, g, tag, data); }
      if Held(t, g, tag, data) { HeldKept(t, g, t, f, tag, data); }
    }
  }

  lemma SameChunksTrans(t: Table, f: File, u: Table, g: File, v: Table, h: File)
    requires SameChunks(t, f, u, g) && SameChunks(u, g, v, h)
    ensures SameChunks(t, f, v, h)
  {
    hide Held;
  }
}
