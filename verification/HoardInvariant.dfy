/**
 * Every transaction keeps the hoard's tables consistent: offsets without gaps,
 * tagged rows allocated, tags unique, and the slots of different processes
 * disjoint, allocated and untagged in the shared table.
 */
module HoardInvariant {
  import opened Common
  import opened HoardState
  import opened HoardSteps

  ghost predicate KeysApart(a: Slots, b: Slots) { forall o :: o in a ==> o !in b }

  // ----- Flushing -----

  lemma FlushedTags(t: Table, s: Slots)
    requires TaggedAllocated(t) && SlotsOk(t, s)
    ensures TaggedAllocated(Flushed(t, s))
  {
  }

  lemma FlushedUnique(t: Table, s: Slots)
    requires UniqueTags(t) && SlotsOk(t, s)
    ensures UniqueTags(Flushed(t, s))
  {
    var u := Flushed(t, s);
    forall o, q | Tagged(u, o) && Tagged(u, q) && u[o].tag == u[q].tag ensures o == q {
      if o !in s && q !in s {
        assert Tagged(t, o) && Tagged(t, q);
      }
    }
  }

  lemma FlushOk(t: Table, s: Slots)
    requires TableOk(t) && SlotsOk(t, s)
    ensures TableOk(Flushed(t, s))
  {
    FlushedTags(t, s);
    FlushedUnique(t, s);
    var n: nat :| Rows(t, n);
    assert Rows(Flushed(t, s), n);
  }

  /** The slots of another process are not affected by a flush. */
  lemma FlushFrame(t: Table, s: Slots, other: Slots)
    requires SlotsOk(t, other) && KeysApart(other, s)
    ensures SlotsOk(Flushed(t, s), other)
  {
  }

  // ----- Reserving -----

  lemma EndIsRowCount(t: Table, n: nat, end: nat)
    requires Rows(t, n) && EndsAt(t, end)
    ensures end == n * STEP
  {
    if n == 0 {
      assert t.Keys == {};
    } else {
      assert (n - 1) * STEP in t;
    }
  }

  lemma OneMore(start: nat, i: nat)
    ensures NewOffsets(start, i + 1) == NewOffsets(start, i) + {start + i * STEP}
  {
    assert OnGrid(start, start + i * STEP);
    forall o: nat | OnGrid(start, o) && start + i * STEP <= o < start + (i + 1) * STEP ensures o == start + i * STEP {
    }
  }

  lemma EndOfRows(t: Table, n: nat)
    requires Rows(t, n)
    ensures EndsAt(t, n * STEP)
  {
    if n == 0 {
      assert t.Keys == {};
    } else {
      assert (n - 1) * STEP in t;
    }
  }

  lemma SomeEnd(t: Table) returns (end: nat)
    requires TableOk(t)
    ensures EndsAt(t, end)
  {
    var n: nat :| Rows(t, n);
    EndOfRows(t, n);
    end := n * STEP;
  }

  lemma ExpandedRows(t: Table, n: nat, take: set<nat>, end: nat)
    requires Rows(t, n) && EndsAt(t, end) && take <= FreeRows(t)
    ensures Rows(Expanded(t, take, end), n + (if |take| < EXPAND then EXPAND - |take| else 0))
  {
    EndIsRowCount(t, n, end);
    var m: nat := if |take| < EXPAND then EXPAND - |take| else 0;
    var u := Expanded(t, take, end);
    forall o: nat ensures o in u <==> o % STEP == 0 && o < (n + m) * STEP {
      assert o in NewOffsets(end, m) <==> o < end + m * STEP && OnGrid(end, o);
    }
  }

  lemma ExpandOk(t: Table, take: set<nat>, end: nat)
    requires TableOk(t) && EndsAt(t, end) && take <= FreeRows(t)
    ensures TableOk(Expanded(t, take, end))
    ensures SlotsOk(Expanded(t, take, end), NewSlots(take, end))
  {
    var n: nat :| Rows(t, n);
    ExpandedRows(t, n, take, end);
    EndIsRowCount(t, n, end);
    var u := Expanded(t, take, end);
    assert forall o :: Tagged(u, o) ==> Tagged(t, o) && u[o].tag == t[o].tag;
  }

  /** Newly reserved slots belong to nobody else. */
  lemma ExpandFrame(t: Table, take: set<nat>, end: nat, other: Slots)
    requires TableOk(t) && EndsAt(t, end) && take <= FreeRows(t)
    requires SlotsOk(t, other)
    ensures SlotsOk(Expanded(t, take, end), other)
    ensures KeysApart(other, NewSlots(take, end))
  {
    var n: nat :| Rows(t, n);
    EndIsRowCount(t, n, end);
  }

  lemma ChoiceKeeps(t: Table, s: Slots, c: Choice)
    requires TableOk(t) && SlotsOk(t, s) && ChoiceOk(t, s, c)
    ensures TableOk(ChosenTable(t, s, c)) && SlotsOk(ChosenTable(t, s, c), ChosenSlots(s, c))
    ensures c.o in ChosenSlots(s, c)
  {
    if c.Renewed? {
      FlushOk(t, s);
      ExpandOk(Flushed(t, s), c.take, c.end);
    }
  }

  lemma ChoiceFrame(t: Table, s: Slots, c: Choice, other: Slots)
    requires TableOk(t) && SlotsOk(t, s) && ChoiceOk(t, s, c)
    requires SlotsOk(t, other) && KeysApart(other, s)
    ensures SlotsOk(ChosenTable(t, s, c), other) && KeysApart(other, ChosenSlots(s, c))
  {
    if c.Renewed? {
      FlushOk(t, s);
      FlushFrame(t, s, other);
      ExpandFrame(Flushed(t, s), c.take, c.end, other);
    }
  }

  // ----- Releasing -----

  /** `u` differs from `t` only in rows that lost their tag or their allocation. */
  ghost predicate Releases(t: Table, u: Table) {
    && u.Keys == t.Keys
    && forall o :: o in t ==> u[o] == t[o] || u[o] == FREE || (t[o].tag.None? && u[o] == t[o].(inUse := false))
  }

  lemma ReleaseOk(t: Table, u: Table)
    requires TableOk(t) && Releases(t, u)
    ensures TableOk(u)
  {
    var n: nat :| Rows(t, n);
    assert Rows(u, n);
    assert forall o :: Tagged(u, o) ==> Tagged(t, o) && u[o] == t[o];
  }

  /** Slots stay reserved when no untagged row is released. */
  lemma ReleaseFrame(t: Table, u: Table, s: Slots)
    requires Releases(t, u) && SlotsOk(t, s)
    requires forall o :: o in t && t[o].tag.None? ==> u[o] == t[o]
    ensures SlotsOk(u, s)
  {
  }

  // ----- Compacting -----

  lemma MoveKeeps(digest: Bytes -> Tag, t: Table, f: File, from: nat, to: nat)
    requires TableOk(t) && MoveOk(digest, t, f, from, to)
    ensures TableOk(MovedTable(t, from, to))
    ensures forall q: nat :: Tagged(MovedTable(t, from, to), q) ==> q < from
  {
    var n: nat :| Rows(t, n);
    var u := MovedTable(t, from, to);
    assert Rows(u, n);
    forall q: nat | Tagged(u, q) ensures q < from && (q != to ==> Tagged(t, q) && u[q] == t[q]) {
      if q != to { assert Tagged(t, q); }
    }
  }

  lemma MoveFrame(digest: Bytes -> Tag, t: Table, f: File, from: nat, to: nat, s: Slots)
    requires TableOk(t) && MoveOk(digest, t, f, from, to) && SlotsOk(t, s)
    ensures SlotsOk(MovedTable(t, from, to), s)
  {
  }

  ghost predicate SameAt(f: File, g: File, o: nat) {
    (o in f <==> o in g) && (o in f ==> f[o] == g[o])
  }

  lemma {:induction false} MovesKeep(digest: Bytes -> Tag, t: Table, f: File, moves: seq<(nat, nat)>)
    requires TableOk(t) && MovesOk(digest, t, f, moves)
    ensures TableOk(AfterMoves(digest, t, f, moves).0)
    decreases |moves|
  {
    if moves != [] {
      var (from, to) := moves[0];
      MoveKeeps(digest, t, f, from, to);
      MovesKeep(digest, MovedTable(t, from, to), MovedFile(t, f, from, to), moves[1..]);
    }
  }

  lemma {:induction false} MovesFrame(digest: Bytes -> Tag, t: Table, f: File, moves: seq<(nat, nat)>, s: Slots)
    requires TableOk(t) && MovesOk(digest, t, f, moves) && SlotsOk(t, s)
    ensures SlotsOk(AfterMoves(digest, t, f, moves).0, s)
    decreases |moves|
  {
    if moves != [] {
      var (from, to) := moves[0];
      MoveKeeps(digest, t, f, from, to);
      MoveFrame(digest, t, f, from, to, s);
      MovesFrame(digest, MovedTable(t, from, to), MovedFile(t, f, from, to), moves[1..], s);
    }
  }

  /**
   * A compaction transaction writes only where the table it started from had
   * no allocated row, so undoing it in the tables alone loses nothing.
   */
  lemma {:induction false} MovesWriteFree(digest: Bytes -> Tag, t: Table, f: File, moves: seq<(nat, nat)>, top: nat)
    requires TableOk(t) && MovesOk(digest, t, f, moves)
    requires forall q: nat :: Tagged(t, q) ==> q < top
    ensures forall o: nat :: o >= top || (o in t && t[o].inUse) ==> SameAt(f, AfterMoves(digest, t, f, moves).1, o)
    ensures forall q: nat :: Tagged(AfterMoves(digest, t, f, moves).0, q) ==> q < top
    decreases |moves|
  {
    hide TableOk;
    if moves != [] {
      var (from, to) := moves[0];
      MoveKeeps(digest, t, f, from, to);
      var (u, g) := (MovedTable(t, from, to), MovedFile(t, f, from, to));
      MovesWriteFree(digest, u, g, moves[1..], from);
      var last := AfterMoves(digest, t, f, moves).1;
      forall o: nat | o >= top || (o in t && t[o].inUse) ensures SameAt(f, last, o) {
        assert o >= from || (o in u && u[o].inUse);
        assert SameAt(g, last, o);
      }
    }
  }

  /** A free row that compaction could still fill was free from the start. */
  lemma {:induction false} MovesFreeBelow(digest: Bytes -> Tag, t: Table, f: File, moves: seq<(nat, nat)>, o: nat, q: nat)
    requires TableOk(t) && MovesOk(digest, t, f, moves)
    requires Unallocated(AfterMoves(digest, t, f, moves).0, o) && Tagged(AfterMoves(digest, t, f, moves).0, q) && o < q
    ensures Unallocated(t, o)
    decreases |moves|
  {
    hide TableOk;
    if moves != [] {
      var (from, to) := moves[0];
      var (u, g) := (MovedTable(t, from, to), MovedFile(t, f, from, to));
      MoveKeeps(digest, t, f, from, to);
      MovesFreeBelow(digest, u, g, moves[1..], o, q);
      MovesWriteFree(digest, u, g, moves[1..], from);
    }
  }

  // ----- Truncating -----

  lemma TruncateOk(t: Table, cut: nat)
    requires TableOk(t) && CutsAt(t, cut)
    ensures TableOk(TruncatedTable(t, cut))
    ensures forall o :: o in t && t[o].inUse ==> o in TruncatedTable(t, cut)
  {
    var n: nat :| Rows(t, n);
    var u := TruncatedTable(t, cut);
    assert Rows(u, cut / STEP) by {
      if cut != 0 { assert (cut - STEP) % STEP == 0; }
    }
    assert forall o :: Tagged(u, o) ==> Tagged(t, o) && u[o] == t[o];
  }

  // ----- Every step -----

  lemma SlotFilled(t: Table, s: Slots, o: nat, slot: Slot)
    requires SlotsOk(t, s) && o in s
    requires slot.tag.Some? ==> forall q :: q in s ==> s[q].tag != slot.tag
    ensures SlotsOk(t, s[o := slot])
  {
  }

  lemma ProcsUpdated(t: Table, procs: map<nat, Slots>, p: nat, s: Slots)
    requires Disjoint(procs) && SlotsOk(t, s)
    requires forall q :: q in procs && q != p ==> SlotsOk(t, procs[q]) && KeysApart(procs[q], s)
    ensures ProcsOk(t, procs[p := s])
  {
    hide SlotsOk;
  }

  lemma PutKeeps(h: Hoard, p: nat, c: Choice, slot: Slot)
    requires Inv(h) && p in h.procs && ChoiceOk(h.chunks, h.procs[p], c)
    requires c.o in ChosenSlots(h.procs[p], c)
    requires slot.tag.Some? ==> forall o :: o in ChosenSlots(h.procs[p], c) ==> ChosenSlots(h.procs[p], c)[o].tag != slot.tag
    ensures TableOk(ChosenTable(h.chunks, h.procs[p], c))
    ensures ProcsOk(ChosenTable(h.chunks, h.procs[p], c), h.procs[p := ChosenSlots(h.procs[p], c)[c.o := slot]])
  {
    hide TableOk, SlotsOk, ChoiceOk, ChosenTable, ChosenSlots;
    var (t, s) := (h.chunks, h.procs[p]);
    var (t', s') := (ChosenTable(t, s, c), ChosenSlots(s, c)[c.o := slot]);
    ChoiceKeeps(t, s, c);
    SlotFilled(t', ChosenSlots(s, c), c.o, slot);
    forall q | q in h.procs && q != p ensures SlotsOk(t', h.procs[q]) && KeysApart(h.procs[q], s') {
      ChoiceFrame(t, s, c, h.procs[q]);
    }
    ProcsUpdated(t', h.procs, p, s');
  }

  lemma FlushKeeps(h: Hoard, p: nat)
    requires Inv(h) && p in h.procs
    ensures TableOk(Flushed(h.chunks, h.procs[p]))
    ensures ProcsOk(Flushed(h.chunks, h.procs[p]), h.procs[p := map[]])
  {
    FlushOk(h.chunks, h.procs[p]);
    forall q | q in h.procs && q != p ensures SlotsOk(Flushed(h.chunks, h.procs[p]), h.procs[q]) {
      FlushFrame(h.chunks, h.procs[p], h.procs[q]);
    }
  }

  lemma ReleaseKeeps(h: Hoard, u: Table)
    requires Inv(h) && Releases(h.chunks, u)
    requires forall o :: o in h.chunks && h.chunks[o].tag.None? ==> u[o] == h.chunks[o]
    ensures TableOk(u) && ProcsOk(u, h.procs)
  {
    ReleaseOk(h.chunks, u);
    forall q | q in h.procs ensures SlotsOk(u, h.procs[q]) {
      ReleaseFrame(h.chunks, u, h.procs[q]);
    }
  }

  lemma CompactKeeps(digest: Bytes -> Tag, h: Hoard, moves: seq<(nat, nat)>)
    requires Inv(h) && MovesOk(digest, h.chunks, h.file, moves)
    ensures var t := AfterMoves(digest, h.chunks, h.file, moves).0; TableOk(t) && ProcsOk(t, h.procs)
  {
    MovesKeep(digest, h.chunks, h.file, moves);
    forall q | q in h.procs ensures SlotsOk(AfterMoves(digest, h.chunks, h.file, moves).0, h.procs[q]) {
      MovesFrame(digest, h.chunks, h.file, moves, h.procs[q]);
    }
  }

  lemma TruncateKeeps(h: Hoard, cut: nat)
    requires Inv(h) && CutsAt(h.chunks, cut)
    ensures TableOk(TruncatedTable(h.chunks, cut)) && ProcsOk(TruncatedTable(h.chunks, cut), h.procs)
  {
    TruncateOk(h.chunks, cut);
  }

  lemma CleanupKeeps(t: Table, refs: set<(nat, Tag)>, gc: bool)
    requires TableOk(t)
    ensures TableOk(if gc then Collected(Reclaimed(t), refs) else Reclaimed(t))
  {
    ReleaseOk(t, Reclaimed(t));
    ReleaseOk(Reclaimed(t), Collected(Reclaimed(t), refs));
  }

  lemma InvalidateSlotKeeps(h: Hoard, p: nat, o: nat)
    requires Inv(h) && p in h.procs
    ensures ProcsOk(h.chunks, h.procs[p := InvalidatedSlot(h.procs[p], o)])
  {
  }

  lemma StepInv(digest: Bytes -> Tag, h: Hoard, s: Step)
    requires Inv(h) && Enabled(digest, h, s)
    ensures Inv(Apply(digest, h, s))
  {
    hide TableOk, SlotsOk;
    match s {
      case Put(p, tag, data, c) =>
        assert SlotsOk(h.chunks, h.procs[p]);
        ChoiceKeeps(h.chunks, h.procs[p], c);
        PutKeeps(h, p, c, Slot(Some(tag), |data|));
      case Flush(p) => FlushKeeps(h, p);
      case Invalidate(_, o, tag) => ReleaseKeeps(h, Invalidated(h.chunks, o, tag));
      case InvalidateSlot(p, o) => InvalidateSlotKeeps(h, p, o);
      case Collect(_) => ReleaseKeeps(h, Collected(h.chunks, h.refs));
      case Cleanup(_, gc) => CleanupKeeps(h.chunks, h.refs, gc);
      case Compact(_, moves) => CompactKeeps(digest, h, moves);
      case Truncate(_, cut) => TruncateKeeps(h, cut);
      case Open(p) => assert SlotsOk(h.chunks, map[]) by { NoSlots(h.chunks); }
      case _ =>
    }
  }

  lemma NoSlots(t: Table)
    ensures SlotsOk(t, map[])
  {
  }

  /**
   * In every run of any number of processes: row offsets are exactly 0, STEP,
   * 2*STEP, ...; a tagged row is allocated; no two rows carry one tag; and the
   * slots processes have reserved are disjoint, allocated and untagged in the
   * shared table.
   */
  lemma {:induction false} RunInv(digest: Bytes -> Tag, h: Hoard, steps: seq<Step>)
    requires Inv(h) && Runs(digest, h, steps)
    ensures Inv(After(digest, h, steps))
    decreases |steps|
  {
    hide Inv, Enabled, Apply;
    if steps != [] {
      StepInv(digest, h, steps[0]);
      RunInv(digest, Apply(digest, h, steps[0]), steps[1..]);
    }
  }

  lemma NewHoard(digest: Bytes -> Tag)
    ensures Inv(NEW) && Integrity(digest, NEW)
  {
    assert Rows(NEW.chunks, 0);
  }
}
