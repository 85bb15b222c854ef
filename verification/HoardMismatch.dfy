/**
 * A run of the hoard after which a row's bytes do not hash to its tag.  A put
 * that must first flush its slot table releases a slot whose chunk another
 * process published meanwhile, may pick that very slot again, writes to it, and
 * is rolled back: the slot table lists the old chunk again, but the bytes are
 * gone.  If the other copy is then invalidated, the next flush publishes the
 * mismatch.
 */
module HoardMismatch {
  import opened Common
  import opened HoardState
  import opened HoardSteps
  import opened HoardInvariant
  import opened HoardTheorems

  /** The digest used here: no two chunks collide. */
  function Self(b: Bytes): Tag { b }

  /** Process `p` has chunk [0] in slot `o`, and another process has published it in row `q`. */
  ghost predicate Twice(h: Hoard, p: nat, o: nat, q: nat) {
    && Inv(h) && p in h.procs
    && o in h.procs[p] && h.procs[p][o] == Slot(Some([0]), 1)
    && q in h.chunks && h.chunks[q].tag == Some([0])
  }

  ghost predicate Mismatch(h: Hoard, steps: seq<Step>) {
    Runs(Self, h, steps) && !TableIntact(Self, After(Self, h, steps).chunks, After(Self, h, steps).file)
  }

  lemma PublishesMismatch(h: Hoard, p: nat, o: nat)
    requires Inv(h) && p in h.procs && o in h.procs[p] && h.procs[p][o] == Slot(Some([0]), 1)
    requires !HasTag(h.chunks, [0]) && o in h.file && |h.file[o]| >= 1 && h.file[o][0] == 1
    ensures Mismatch(h, [Flush(p)])
  {
    var after := Apply(Self, h, Flush(p));
    assert Runs(Self, after, []) && After(Self, after, []) == after;
    assert [Flush(p)][1..] == [];
    assert After(Self, h, [Flush(p)]) == after;
    assert o in after.chunks && after.chunks[o] == Row(Some([0]), 1, true);
    assert Tagged(after.chunks, o);
    assert after.file[o][..1] == [1];
  }

  lemma Prepend(h: Hoard, s: Step, rest: seq<Step>)
    requires Enabled(Self, h, s) && Mismatch(Apply(Self, h, s), rest)
    ensures Mismatch(h, [s] + rest)
  {
    hide Enabled, Apply, TableIntact;
    assert ([s] + rest)[1..] == rest;
  }

  lemma InvalidatedIsGone(t: Table, q: nat, tag: Tag)
    requires UniqueTags(t) && q in t && t[q].tag == Some(tag)
    ensures !HasTag(Invalidated(t, q, tag), tag)
  {
    var u := Invalidated(t, q, tag);
    if r :| r in u && u[r].tag == Some(tag) {
      assert Tagged(t, r) && Tagged(t, q);
    }
  }

  lemma LacksOne(h: Hoard, p: nat, o: nat, q: nat)
    requires Twice(h, p, o, q) && Filling(h, p, o)
    ensures !SlotHasTag(h.procs[p], [1]) && !HasTag(h.chunks, [1])
  {
    assert forall r :: r in h.procs[p] && h.procs[p][r].tag.Some? ==> h.procs[p][r].tag.value[0] == 0;
    assert forall r :: r in h.chunks && h.chunks[r].tag.Some? ==> Tagged(h.chunks, r);
  }

  lemma UndoneThenPublished(h: Hoard, p: nat, o: nat, q: nat) returns (steps: seq<Step>)
    requires Twice(h, p, o, q) && Filling(h, p, o) && forall r :: r in h.procs[p] ==> h.procs[p][r].tag.Some?
    ensures Mismatch(h, steps)
  {
    var s := h.procs[p];
    assert Taken(h.chunks, o, [0]);
    assert Unallocated(Flushed(h.chunks, s), o);
    var c := MayRenewAt(h.chunks, s, o);
    LacksOne(h, p, o, q);
    InvalidatedIsGone(h.chunks, q, [0]);
    steps := OverwrittenThenPublished(h, p, o, q, c);
  }

  lemma OverwrittenThenPublished(h: Hoard, p: nat, o: nat, q: nat, c: Choice) returns (steps: seq<Step>)
    requires Twice(h, p, o, q) && ChoiceOk(h.chunks, h.procs[p], c) && c.o == o
    requires !SlotHasTag(h.procs[p], [1]) && !HasTag(h.chunks, [1]) && !HasTag(Invalidated(h.chunks, q, [0]), [0])
    ensures Mismatch(h, steps)
  {
    hide Inv, ChoiceOk, Mismatch;
    var undone := PutUndone(p, [1], [1], c, SLOT);
    var h1 := Apply(Self, h, undone);
    StepInv(Self, h, undone);
    var h2 := Apply(Self, h1, Invalidate(p, q, [0]));
    StepInv(Self, h1, Invalidate(p, q, [0]));
    PublishesMismatch(h2, p, o);
    Prepend(h1, Invalidate(p, q, [0]), [Flush(p)]);
    Prepend(h, undone, [Invalidate(p, q, [0])] + [Flush(p)]);
    steps := [undone] + ([Invalidate(p, q, [0])] + [Flush(p)]);
  }

  function Zeros(n: nat): Bytes { seq(n, i => 0) }

  function UnusedSlots(s: Slots): set<nat> { set r | r in s && s[r].tag.None? }

  /** Slots but `o` are unused or filled with a run of zeroes whose length tells the slot. */
  ghost predicate Filling(h: Hoard, p: nat, o: nat)
    requires p in h.procs
  {
    && (forall r :: r in h.procs[p] ==> r < 65536 && r % STEP == 0)
    && (forall r :: r in h.procs[p] && r != o && h.procs[p][r].tag.Some? ==>
          h.procs[p][r].tag.value == Zeros(2 + r / STEP))
    && (forall r :: Tagged(h.chunks, r) ==> h.chunks[r].tag == Some([0]))
  }

  lemma MayFill(h: Hoard, p: nat, o: nat, q: nat, r: nat)
    requires Twice(h, p, o, q) && Filling(h, p, o)
    requires r in h.procs[p] && h.procs[p][r].tag.None?
    ensures Enabled(Self, h, Put(p, Zeros(2 + r / STEP), Zeros(2 + r / STEP), Unused(r)))
  {
    var tag := Zeros(2 + r / STEP);
    assert forall x :: x in h.procs[p] && h.procs[p][x].tag.Some? ==> |h.procs[p][x].tag.value| == if x == o then 1 else 2 + x / STEP;
    assert forall x :: x in h.chunks && h.chunks[x].tag == Some(tag) ==> Tagged(h.chunks, x);
  }

  lemma FillOne(h: Hoard, p: nat, o: nat, q: nat, r: nat) returns (put: Step)
    requires Twice(h, p, o, q) && Filling(h, p, o)
    requires r in h.procs[p] && h.procs[p][r].tag.None?
    ensures Enabled(Self, h, put)
    ensures var after := Apply(Self, h, put);
      && Twice(after, p, o, q) && Filling(after, p, o)
      && UnusedSlots(after.procs[p]) == UnusedSlots(h.procs[p]) - {r}
  {
    hide Inv;
    var tag := Zeros(2 + r / STEP);
    put := Put(p, tag, tag, Unused(r));
    MayFill(h, p, o, q, r);
    StepInv(Self, h, put);
    var after := Apply(Self, h, put);
    assert after.procs[p] == h.procs[p][r := Slot(Some(tag), |tag|)];
  }

  lemma {:induction false} FillThenMismatch(h: Hoard, p: nat, o: nat, q: nat) returns (steps: seq<Step>)
    requires Twice(h, p, o, q) && Filling(h, p, o)
    ensures Mismatch(h, steps)
    decreases |UnusedSlots(h.procs[p])|
  {
    hide Apply, Enabled, Filling, Inv;
    if r :| r in h.procs[p] && h.procs[p][r].tag.None? {
      var put := FillOne(h, p, o, q, r);
      var after := Apply(Self, h, put);
      assert r in UnusedSlots(h.procs[p]);
      var rest := FillThenMismatch(after, p, o, q);
      Prepend(h, put, rest);
      steps := [put] + rest;
    } else {
      steps := UndoneThenPublished(h, p, o, q);
    }
  }

  /** A process without slots, when no row is free, grows the table. */
  lemma MayGrow(t: Table, end: nat)
    requires EndsAt(t, end) && forall o :: o in t ==> t[o].inUse
    ensures ChoiceOk(t, map[], Renewed(end, {}, end))
    ensures ChosenTable(t, map[], Renewed(end, {}, end)) == Expanded(t, {}, end)
  {
    assert Flushed(t, map[]) == t;
    assert FreeRows(t) == {};
    assert OnGrid(end, end);
  }

  lemma GrownRows(t: Table, n: nat)
    requires Rows(t, n) && EndsAt(t, n * STEP) && forall o :: o in t ==> t[o].inUse && t[o].tag.None?
    ensures var u := Expanded(t, {}, n * STEP);
      Rows(u, n + EXPAND) && forall o :: o in u ==> u[o].inUse && u[o].tag.None?
  {
    ExpandedRows(t, n, {}, n * STEP);
  }

  /** Process 1 has put the chunk and holds the whole table; process 2 has yet to put it. */
  ghost predicate Halfway(h: Hoard) {
    && Inv(h)
    && Rows(h.chunks, EXPAND) && (forall o :: o in h.chunks ==> h.chunks[o].inUse && h.chunks[o].tag.None?)
    && h.procs.Keys == {1, 2} && h.procs[2] == map[]
    && 0 in h.procs[1] && h.procs[1][0] == Slot(Some([0]), 1)
    && (forall r :: r in h.procs[1] && r != 0 ==> h.procs[1][r].tag.None?)
  }

  lemma FlushOfOne(t: Table, s: Slots, q: nat)
    requires q in t && q in s && s[q] == Slot(Some([0]), 1)
    requires forall r :: r in s && r != q ==> s[r].tag.None?
    requires forall o :: o in t ==> t[o].tag.None?
    ensures Flushed(t, s)[q].tag == Some([0])
    ensures forall o :: Tagged(Flushed(t, s), o) ==> Flushed(t, s)[o].tag == Some([0])
  {
  }

  lemma SecondFlush(h: Hoard, s: Slots, t: Table, after: Hoard)
    requires Halfway(h)
    requires t == Expanded(h.chunks, {}, 65536) && s == NewSlots({}, 65536)[65536 := Slot(Some([0]), 1)]
    requires after.chunks == Flushed(t, s) && 1 in after.procs && after.procs[1] == h.procs[1] && Inv(after)
    ensures Twice(after, 1, 0, 65536) && Filling(after, 1, 0)
  {
    hide NewSlots, Expanded;
    EndOfRows(h.chunks, EXPAND);
    GrownRows(h.chunks, EXPAND);
    assert 65536 in t;
    assert forall r :: r in s && r != 65536 ==> s[r].tag.None? by { NewAreUnused({}, 65536); }
    FlushOfOne(t, s, 65536);
    assert SlotsOk(h.chunks, h.procs[1]);
  }

  lemma NewAreUnused(take: set<nat>, end: nat)
    ensures forall r :: r in NewSlots(take, end) ==> NewSlots(take, end)[r].tag.None?
  {
  }

  lemma SecondPut(h: Hoard) returns (put: Step)
    requires Halfway(h)
    ensures Enabled(Self, h, put)
    ensures var after := Apply(Self, h, put);
      && Inv(after) && after.procs.Keys == {1, 2} && after.procs[1] == h.procs[1]
      && after.chunks == Expanded(h.chunks, {}, 65536)
      && after.procs[2] == NewSlots({}, 65536)[65536 := Slot(Some([0]), 1)]
  {
    hide Inv, Expanded, NewSlots;
    EndOfRows(h.chunks, EXPAND);
    MayGrow(h.chunks, 65536);
    put := Put(2, [0], [0], Renewed(65536, {}, 65536));
    StepInv(Self, h, put);
  }

  lemma FromHalfway(h: Hoard) returns (steps: seq<Step>)
    requires Halfway(h)
    ensures Mismatch(h, steps)
  {
    hide Inv, Twice, Filling, Halfway, Mismatch, Flushed, Expanded, NewSlots;
    var put := SecondPut(h);
    var h1 := Apply(Self, h, put);
    var h2 := Apply(Self, h1, Flush(2));
    StepInv(Self, h1, Flush(2));
    SecondFlush(h, h1.procs[2], h1.chunks, h2);
    var rest := FillThenMismatch(h2, 1, 0, 65536);
    Prepend(h1, Flush(2), rest);
    Prepend(h, put, [Flush(2)] + rest);
    steps := [put] + ([Flush(2)] + rest);
  }

  lemma FirstPut(h: Hoard) returns (put: Step)
    requires Inv(h) && h.chunks == map[] && h.procs == map[1 := map[], 2 := map[]]
    ensures Enabled(Self, h, put) && Halfway(Apply(Self, h, put))
  {
    hide Inv;
    assert Rows(map[], 0);
    EndOfRows(map[], 0);
    MayGrow(map[], 0);
    GrownRows(map[], 0);
    NewAreUnused({}, 0);
    put := Put(1, [0], [0], Renewed(0, {}, 0));
    StepInv(Self, h, put);
  }

  /** The digests do not collide, every step is allowed, and yet a published row's bytes do not have its tag. */
  lemma IntegrityCanFail() returns (steps: seq<Step>)
    ensures Mismatch(NEW, steps)
  {
    hide Inv, Mismatch, Halfway;
    NewHoard(Self);
    var h1 := Apply(Self, NEW, Open(1));
    StepInv(Self, NEW, Open(1));
    var h2 := Apply(Self, h1, Open(2));
    StepInv(Self, h1, Open(2));
    var put := FirstPut(h2);
    var rest := FromHalfway(Apply(Self, h2, put));
    Prepend(h2, put, rest);
    Prepend(h1, Open(2), [put] + rest);
    Prepend(NEW, Open(1), [Open(2)] + ([put] + rest));
    steps := [Open(1)] + ([Open(2)] + ([put] + rest));
  }
}
