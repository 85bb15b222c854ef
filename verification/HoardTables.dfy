/**
 * The transactions of one process, statement by statement, on its view of the
 * hoard: the shared table, its own slot table and the data file.  Each is shown
 * to have the effect that the step system gives to the transaction.
 */
module HoardTables {
  import opened Common
  import opened HoardState
  import opened HoardSteps
  import opened HoardInvariant
  import opened HoardTheorems

  /** What is left to happen to a put once its statements are done. */
  datatype Ending = Commits | WriteFails(k: nat) | CommitFails

  /** How many bytes of the slot the put then writes. */
  function Progress(data: Bytes, ending: Ending): nat {
    if |data| > SLOT then 0 else if ending.WriteFails? then Min(ending.k, SLOT) else SLOT
  }

  datatype PutResult = Present | Stored | Failed

  class Session {
    const digest: Bytes -> Tag
    var chunks: Table
    var slots: Slots
    var file: File

    constructor (digest: Bytes -> Tag, chunks: Table, file: File)
      ensures this.digest == digest && this.chunks == chunks && this.file == file && slots == map[]
    {
      this.digest, this.chunks, this.file, slots := digest, chunks, file, map[];
    }

    /** Publishes the slot table: a tag that some other row already has releases the slot instead. */
    method FlushSlotCache()
      requires SlotsOk(chunks, slots)
      modifies this`chunks, this`slots
      ensures chunks == Flushed(old(chunks), old(slots)) && slots == map[]
      ensures forall h, p :: Sees(h, p, old(chunks), old(slots), file) ==> LeavesWith(digest, h, Flush(p), chunks, slots, file)
    {
      hide Sees, LeavesWith;
      var todo := set o | o in slots && slots[o].tag.Some?;
      while todo != {}
        invariant todo <= slots.Keys && slots == old(slots) && chunks.Keys == old(chunks).Keys
        invariant forall o :: o in todo ==> slots[o].tag.Some?
        invariant FlushedBut(old(chunks), slots, chunks, todo)
        decreases todo
      {
        var o :| o in todo;
        PartlyFlushedTaken(old(chunks), slots, chunks, todo, o);
        var constrained := exists q :: q in chunks && q != o && chunks[q].tag == slots[o].tag;
        if constrained {
          chunks := chunks[o := chunks[o].(inUse := false)];
        } else {
          chunks := chunks[o := Row(slots[o].tag, slots[o].length, true)];
        }
        todo := todo - {o};
      }
      chunks := map o | o in chunks :: if o in slots && slots[o].tag.None? then chunks[o].(inUse := false) else chunks[o];
      slots := map[];
      assert chunks == Flushed(old(chunks), old(slots));
      FlushIsStep(digest, old(chunks), old(slots), file);
    }

    /** At most EXPAND unallocated rows, all of them if there are no more. */
    method SelectFree() returns (take: set<nat>)
      ensures MayTake(chunks, take)
    {
      var rest := FreeRows(chunks);
      take := {};
      while rest != {} && |take| < EXPAND
        invariant take !! rest && take + rest == FreeRows(chunks)
        invariant |take| <= EXPAND
        decreases rest
      {
        var o :| o in rest;
        take, rest := take + {o}, rest - {o};
      }
      TakeIsMost(chunks, take, rest);
    }

    /** The offset just past the last row, or 0 if there is none. */
    method EndOfTable() returns (end: nat)
      ensures EndsAt(chunks, end)
    {
      end := 0;
      var rest := chunks.Keys;
      while rest != {}
        invariant rest <= chunks.Keys
        invariant rest == chunks.Keys ==> end == 0
        invariant rest != chunks.Keys ==> end >= STEP && end - STEP in chunks
        invariant forall o :: o in chunks && o !in rest ==> o + STEP <= end
        decreases rest
      {
        var o :| o in rest;
        if o + STEP > end {
          end := o + STEP;
        }
        rest := rest - {o};
      }
    }

    /** Reserves EXPAND slots: unallocated rows first, then new rows at the end of the table. */
    method ExpandSlotCache() returns (ghost take: set<nat>, ghost end: nat)
      requires TableOk(chunks) && slots == map[]
      modifies this`chunks, this`slots
      ensures MayTake(old(chunks), take) && EndsAt(old(chunks), end)
      ensures chunks == Expanded(old(chunks), take, end) && slots == NewSlots(take, end)
    {
      hide NewOffsets, OnGrid, Expanded, Claimed, Inserted, WithUnused, NewSlots, Reserved, TableOk, EndsAt;
      var reclaimed := SelectFree();
      take := reclaimed;
      end := SomeEnd(chunks);
      slots := WithUnused(slots, reclaimed);
      SlotsAreNew(take, end);
      ClaimedIsExpanded(chunks, take, end);
      chunks := Claimed(chunks, slots.Keys);
      var needed := EXPAND - |reclaimed|;
      if needed == 0 {
        return;
      }
      var start := EndOfTable();
      SameEnd(old(chunks), chunks, start, end);
      AddSlots(start, needed);
      chunks := Inserted(chunks, slots.Keys);
    }

    method AddSlots(start: nat, needed: nat)
      modifies this`slots
      ensures slots == WithUnused(old(slots), NewOffsets(start, needed))
    {
      for i := 0 to needed
        invariant slots == WithUnused(old(slots), NewOffsets(start, i))
      {
        OneMore(start, i);
        slots := slots[start + i * STEP := UNUSED];
      }
    }

    /** An unused slot, after publishing the old slots and reserving new ones if need be. */
    method AllocateSlot() returns (o: nat, ghost c: Choice)
      requires TableOk(chunks) && SlotsOk(chunks, slots)
      modifies this`chunks, this`slots
      ensures ChoiceOk(old(chunks), old(slots), c) && c.o == o
      ensures chunks == ChosenTable(old(chunks), old(slots), c) && slots == ChosenSlots(old(slots), c)
      ensures o in slots && slots[o].tag.None?
    {
      hide TableOk, SlotsOk, Flushed, Expanded, MayTake, EndsAt, Reserved;
      ghost var take, end, first := {}, 0, true;
      while forall q :: q in slots ==> slots[q].tag.Some?
        invariant first ==> chunks == old(chunks) && slots == old(slots)
        invariant !first ==> (forall q :: q in old(slots) ==> old(slots)[q].tag.Some?)
        invariant !first ==> MayTake(Flushed(old(chunks), old(slots)), take) && EndsAt(Flushed(old(chunks), old(slots)), end)
        invariant !first ==> chunks == Expanded(Flushed(old(chunks), old(slots)), take, end)
        invariant !first ==> slots == NewSlots(take, end) && exists q :: q in slots && slots[q].tag.None?
        decreases first
      {
        FlushOk(chunks, slots);
        FlushSlotCache();
        take, end := ExpandSlotCache();
        first := false;
        SomeReserved(Flushed(old(chunks), old(slots)), take, end);
      }
      o :| o in slots && slots[o].tag.None?;
      c := if first then Unused(o) else Renewed(o, take, end);
    }

    ghost predicate Has(tag: Tag)
      reads this
    {
      SlotHasTag(slots, tag) || HasTag(chunks, tag)
    }

    /**
     * One attempt to store a chunk.  A failure after the slot was chosen puts
     * the tables back but leaves in the file as much of the slot as was written.
     */
    method PutChunk(tag: Tag, data: Bytes, ending: Ending) returns (r: PutResult, ghost c: Choice)
      requires TableOk(chunks) && SlotsOk(chunks, slots)
      modifies this
      ensures TableOk(chunks) && SlotsOk(chunks, slots)
      ensures r.Present? <==> old(Has(tag))
      ensures r.Stored? <==> !old(Has(tag)) && |data| <= SLOT && ending.Commits?
      ensures r.Present? ==> chunks == old(chunks) && slots == old(slots) && file == old(file)
      ensures r.Stored? ==>
        && ChoiceOk(old(chunks), old(slots), c)
        && chunks == ChosenTable(old(chunks), old(slots), c)
        && slots == ChosenSlots(old(slots), c)[c.o := Slot(Some(tag), |data|)]
        && file == old(file)[c.o := Padded(data)]
      ensures r.Stored? ==>
        && c.o in file && |file[c.o]| == 131072 && file[c.o][..|data|] == data
        && forall i :: |data| <= i < 131072 ==> file[c.o][i] == 0
      ensures r.Failed? ==>
        && ChoiceOk(old(chunks), old(slots), c)
        && chunks == old(chunks) && slots == old(slots)
        && file == TornFile(old(file), c.o, data, Progress(data, ending))
      ensures digest(data) == tag ==>
        forall h, p :: Sees(h, p, old(chunks), old(slots), old(file)) ==>
          match r
          case Present => true
          case Stored => LeavesWith(digest, h, Put(p, tag, data, c), chunks, slots, file)
          case Failed => LeavesWith(digest, h, PutUndone(p, tag, data, c, Progress(data, ending)), chunks, slots, file)
    {
      hide TableOk, SlotsOk, ChoiceOk, ChosenTable, ChosenSlots, Sees, LeavesWith;
      c := Unused(0);
      if exists o :: o in slots && slots[o].tag == Some(tag) {
        return Present, c;
      }
      if exists o :: o in chunks && chunks[o].tag == Some(tag) {
        return Present, c;
      }
      var savedChunks, savedSlots := chunks, slots;
      ChosenLacks(chunks, slots, tag);
      var o;
      o, c := AllocateSlot();
      ChoiceKeeps(old(chunks), old(slots), c);
      SlotFilled(chunks, slots, o, Slot(Some(tag), |data|));
      slots := slots[o := Slot(Some(tag), |data|)];
      if digest(data) == tag {
        PutIsStep(digest, old(chunks), old(slots), file, tag, data, c);
        PutUndoneIsStep(digest, old(chunks), old(slots), file, tag, data, c, Progress(data, ending));
      }
      if |data| > SLOT {
        chunks, slots := savedChunks, savedSlots;
        return Failed, c;
      }
      if ending.WriteFails? {
        file := TornFile(file, o, data, Progress(data, ending));
        chunks, slots := savedChunks, savedSlots;
        return Failed, c;
      }
      WrittenWhole(file, o, data);
      file := file[o := Padded(data)];
      if ending.CommitFails? {
        chunks, slots := savedChunks, savedSlots;
        return Failed, c;
      }
      r := Stored;
    }

    /**
     * Looks a chunk up in the slot table, then in the shared table.  An entry whose
     * bytes are not the chunk's is dropped and the search starts over.
     */
    method GetChunk(tag: Tag) returns (r: Option<Bytes>)
      requires TableOk(chunks) && SlotsOk(chunks, slots)
      modifies this`chunks, this`slots
      ensures TableOk(chunks) && SlotsOk(chunks, slots)
      ensures r.Some? ==> digest(r.value) == tag && 0 < |r.value| <= SLOT
      ensures r.None? <==> !Has(tag)
      ensures DropsBad(digest, file, old(chunks), chunks, tag)
      ensures DropsBadSlots(digest, file, old(slots), slots, tag)
      ensures Invalidates(digest, old(chunks), old(slots), file, chunks, slots, tag)
    {
      hide TableOk, SlotsOk, DropsBad, DropsBadSlots, Invalidates;
      NothingDropped(digest, file, chunks, slots, tag);
      NothingInvalidated(digest, chunks, slots, file, tag);
      while true
        invariant TableOk(chunks) && SlotsOk(chunks, slots)
        invariant DropsBad(digest, file, old(chunks), chunks, tag)
        invariant DropsBadSlots(digest, file, old(slots), slots, tag)
        invariant Invalidates(digest, old(chunks), old(slots), file, chunks, slots, tag)
        decreases TaggedSlots(slots), TaggedRows(chunks)
      {
        if o :| o in slots && slots[o].tag == Some(tag) {
          if Reads(digest, file, o, tag, slots[o].length) {
            return Some(file[o][..slots[o].length]);
          }
          SlotDropped(digest, file, chunks, old(slots), slots, o, tag);
          SlotInvalidated(digest, old(chunks), old(slots), file, chunks, slots, tag, o);
          slots := InvalidatedSlot(slots, o);
        } else if o :| o in chunks && chunks[o].tag == Some(tag) {
          if Reads(digest, file, o, tag, chunks[o].length) {
            return Some(file[o][..chunks[o].length]);
          }
          RowDropped(digest, file, old(chunks), chunks, slots, o, tag);
          RowInvalidated(digest, old(chunks), old(slots), file, chunks, slots, tag, o);
          chunks := Invalidated(chunks, o, tag);
        } else {
          return None;
        }
      }
    }
  }

  lemma FlushIsStep(digest: Bytes -> Tag, t: Table, s: Slots, f: File)
    ensures forall h, p :: Sees(h, p, t, s, f) ==> LeavesWith(digest, h, Flush(p), Flushed(t, s), map[], f)
  {
  }

  lemma PutIsStep(digest: Bytes -> Tag, t: Table, s: Slots, f: File, tag: Tag, data: Bytes, c: Choice)
    requires digest(data) == tag && !SlotHasTag(s, tag) && !HasTag(t, tag) && ChoiceOk(t, s, c)
    ensures |data| <= SLOT ==>
      forall h, p :: Sees(h, p, t, s, f) ==>
        LeavesWith(digest, h, Put(p, tag, data, c), ChosenTable(t, s, c), ChosenSlots(s, c)[c.o := Slot(Some(tag), |data|)], f[c.o := Padded(data)])
  {
    hide ChoiceOk, ChosenTable, ChosenSlots, HasTag, SlotHasTag;
  }

  lemma PutUndoneIsStep(digest: Bytes -> Tag, t: Table, s: Slots, f: File, tag: Tag, data: Bytes, c: Choice, k: nat)
    requires digest(data) == tag && !SlotHasTag(s, tag) && !HasTag(t, tag) && ChoiceOk(t, s, c)
    requires k <= SLOT && (|data| <= SLOT || k == 0)
    ensures forall h, p :: Sees(h, p, t, s, f) ==>
              LeavesWith(digest, h, PutUndone(p, tag, data, c, k), t, s, TornFile(f, c.o, data, k))
  {
    hide ChoiceOk, TornFile, HasTag, SlotHasTag;
    forall h, p | Sees(h, p, t, s, f)
      ensures LeavesWith(digest, h, PutUndone(p, tag, data, c, k), t, s, TornFile(f, c.o, data, k))
    {
      assert h.procs[p := s] == h.procs;
    }
  }

  lemma WrittenWhole(f: File, o: nat, data: Bytes)
    requires |data| <= SLOT
    ensures TornFile(f, o, data, SLOT) == f[o := Padded(data)]
  {
    assert Torn(if o in f then f[o] else [], data, SLOT) == Padded(data);
  }

  function TaggedSlots(s: Slots): set<nat> { set o | o in s && s[o].tag.Some? }

  /** From `t` to `u` only rows that claimed to hold the chunk `tag`, and did not, were freed. */
  ghost predicate DropsBad(digest: Bytes -> Tag, f: File, t: Table, u: Table, tag: Tag) {
    && u.Keys == t.Keys
    && forall o :: o in t && u[o] != t[o] ==>
         u[o] == FREE && t[o].tag == Some(tag) && !(0 < t[o].length <= SLOT && Intact(digest, f, o, tag, t[o].length))
  }

  ghost predicate DropsBadSlots(digest: Bytes -> Tag, f: File, s: Slots, r: Slots, tag: Tag) {
    && r.Keys == s.Keys
    && forall o :: o in s && r[o] != s[o] ==>
         r[o] == UNUSED && s[o].tag == Some(tag) && !(0 < s[o].length <= SLOT && Intact(digest, f, o, tag, s[o].length))
  }

  // ----- Reading is a run of invalidations -----

  /** Some invalidations of the chunk by process `p` lead from one hoard to the other. */
  ghost predicate LedBy(digest: Bytes -> Tag, h: Hoard, after: Hoard, p: nat, tag: Tag) {
    exists steps :: Runs(digest, h, steps) && After(digest, h, steps) == after && AllInvalidate(steps, p, tag)
  }

  predicate AllInvalidate(steps: seq<Step>, p: nat, tag: Tag) {
    forall i :: 0 <= i < |steps| ==>
      steps[i].p == p && (steps[i].InvalidateSlot? || (steps[i].Invalidate? && steps[i].tag == tag))
  }

  /** In any hoard that the process sees as `t`, `s` and `f`, invalidations lead to `u` and `r`. */
  ghost predicate Invalidates(digest: Bytes -> Tag, t: Table, s: Slots, f: File, u: Table, r: Slots, tag: Tag) {
    forall h, p :: Sees(h, p, t, s, f) ==> LedBy(digest, h, h.(chunks := u, procs := h.procs[p := r]), p, tag)
  }

  lemma NothingInvalidated(digest: Bytes -> Tag, t: Table, s: Slots, f: File, tag: Tag)
    ensures Invalidates(digest, t, s, f, t, s, tag)
  {
    forall h, p | Sees(h, p, t, s, f) ensures LedBy(digest, h, h.(chunks := t, procs := h.procs[p := s]), p, tag) {
      assert h.procs[p := s] == h.procs;
      assert Runs(digest, h, []) && After(digest, h, []) == h && AllInvalidate([], p, tag);
    }
  }

  lemma {:induction false} OneMoreStep(digest: Bytes -> Tag, h: Hoard, steps: seq<Step>, s: Step)
    requires Runs(digest, h, steps) && Enabled(digest, After(digest, h, steps), s)
    ensures Runs(digest, h, steps + [s]) && After(digest, h, steps + [s]) == Apply(digest, After(digest, h, steps), s)
    decreases |steps|
  {
    hide Enabled, Apply;
    if steps == [] {
      var next := Apply(digest, h, s);
      assert [s][1..] == [] && [] + [s] == [s];
      assert Runs(digest, next, []) && After(digest, next, []) == next;
    } else {
      assert (steps + [s])[1..] == steps[1..] + [s];
      OneMoreStep(digest, Apply(digest, h, steps[0]), steps[1..], s);
    }
  }

  lemma LedFurther(digest: Bytes -> Tag, h: Hoard, mid: Hoard, p: nat, tag: Tag, s: Step)
    requires LedBy(digest, h, mid, p, tag) && Enabled(digest, mid, s) && AllInvalidate([s], p, tag)
    ensures LedBy(digest, h, Apply(digest, mid, s), p, tag)
  {
    hide Enabled, Apply;
    var steps :| Runs(digest, h, steps) && After(digest, h, steps) == mid && AllInvalidate(steps, p, tag);
    OneMoreStep(digest, h, steps, s);
    assert [s][0] == s;
    assert AllInvalidate(steps + [s], p, tag);
  }

  lemma SlotInvalidated(digest: Bytes -> Tag, t: Table, s: Slots, f: File, u: Table, r: Slots, tag: Tag, o: nat)
    requires Invalidates(digest, t, s, f, u, r, tag)
    ensures Invalidates(digest, t, s, f, u, InvalidatedSlot(r, o), tag)
  {
    hide LedBy;
    forall h, p | Sees(h, p, t, s, f)
      ensures LedBy(digest, h, h.(chunks := u, procs := h.procs[p := InvalidatedSlot(r, o)]), p, tag)
    {
      var mid := h.(chunks := u, procs := h.procs[p := r]);
      LedFurther(digest, h, mid, p, tag, InvalidateSlot(p, o));
      assert mid.procs[p := InvalidatedSlot(r, o)] == h.procs[p := InvalidatedSlot(r, o)];
    }
  }

  lemma RowInvalidated(digest: Bytes -> Tag, t: Table, s: Slots, f: File, u: Table, r: Slots, tag: Tag, o: nat)
    requires Invalidates(digest, t, s, f, u, r, tag)
    ensures Invalidates(digest, t, s, f, Invalidated(u, o, tag), r, tag)
  {
    hide LedBy;
    forall h, p | Sees(h, p, t, s, f)
      ensures LedBy(digest, h, h.(chunks := Invalidated(u, o, tag), procs := h.procs[p := r]), p, tag)
    {
      LedFurther(digest, h, h.(chunks := u, procs := h.procs[p := r]), p, tag, Invalidate(p, o, tag));
    }
  }

  lemma NothingDropped(digest: Bytes -> Tag, f: File, t: Table, s: Slots, tag: Tag)
    ensures DropsBad(digest, f, t, t, tag) && DropsBadSlots(digest, f, s, s, tag)
  {
  }

  lemma SlotDropped(digest: Bytes -> Tag, f: File, t: Table, s: Slots, r: Slots, o: nat, tag: Tag)
    requires SlotsOk(t, r) && DropsBadSlots(digest, f, s, r, tag)
    requires o in r && r[o].tag == Some(tag) && !Reads(digest, f, o, tag, r[o].length)
    ensures SlotsOk(t, InvalidatedSlot(r, o)) && DropsBadSlots(digest, f, s, InvalidatedSlot(r, o), tag)
    ensures TaggedSlots(InvalidatedSlot(r, o)) < TaggedSlots(r)
  {
    assert o in TaggedSlots(r) && o !in TaggedSlots(InvalidatedSlot(r, o));
  }

  lemma RowDropped(digest: Bytes -> Tag, f: File, t: Table, u: Table, s: Slots, o: nat, tag: Tag)
    requires TableOk(u) && SlotsOk(u, s) && DropsBad(digest, f, t, u, tag)
    requires o in u && u[o].tag == Some(tag) && !Reads(digest, f, o, tag, u[o].length)
    ensures TableOk(Invalidated(u, o, tag)) && SlotsOk(Invalidated(u, o, tag), s)
    ensures DropsBad(digest, f, t, Invalidated(u, o, tag), tag)
    ensures TaggedRows(Invalidated(u, o, tag)) < TaggedRows(u)
  {
    ReleaseOk(u, Invalidated(u, o, tag));
    ReleaseFrame(u, Invalidated(u, o, tag), s);
    assert o in TaggedRows(u) && o !in TaggedRows(Invalidated(u, o, tag));
  }

  /** Whatever slots a put ends up with, a tag that was in neither table is not among them. */
  lemma ChosenLacks(t: Table, s: Slots, tag: Tag)
    requires !SlotHasTag(s, tag)
    ensures forall c: Choice, o :: ChoiceOk(t, s, c) && o in ChosenSlots(s, c) ==> ChosenSlots(s, c)[o].tag != Some(tag)
  {
  }

  lemma SomeReserved(t: Table, take: set<nat>, end: nat)
    requires MayTake(t, take)
    ensures exists q :: q in NewSlots(take, end) && NewSlots(take, end)[q].tag.None?
  {
    if o :| o in take {
      assert o in NewSlots(take, end);
    } else {
      assert take == {} && OnGrid(end, end);
      assert end in NewSlots(take, end);
    }
  }

  function WithUnused(s: Slots, keys: set<nat>): Slots {
    map o | o in s.Keys + keys :: if o in keys then UNUSED else s[o]
  }

  function Claimed(t: Table, take: set<nat>): Table {
    map o | o in t :: if o in take then t[o].(inUse := true) else t[o]
  }

  /** The table with an allocated, untagged row added for each slot that has none. */
  function Inserted(t: Table, keys: set<nat>): Table {
    map o | o in t.Keys + keys :: if o in t then t[o] else Row(None, 0, true)
  }

  lemma SlotsAreNew(take: set<nat>, end: nat)
    requires |take| <= EXPAND
    ensures WithUnused(map[], take).Keys == take
    ensures WithUnused(WithUnused(map[], take), NewOffsets(end, EXPAND - |take|)) == NewSlots(take, end)
    ensures NewSlots(take, end).Keys == Reserved(take, end)
    ensures |take| == EXPAND ==> WithUnused(map[], take) == NewSlots(take, end)
  {
    assert |take| == EXPAND ==> NewOffsets(end, 0) == {};
    hide NewOffsets;
  }

  lemma ClaimedIsExpanded(t: Table, take: set<nat>, end: nat)
    requires take <= t.Keys && |take| <= EXPAND
    ensures Claimed(t, take).Keys == t.Keys
    ensures Inserted(Claimed(t, take), Reserved(take, end)) == Expanded(t, take, end)
    ensures |take| == EXPAND ==> Claimed(t, take) == Expanded(t, take, end)
  {
    assert |take| == EXPAND ==> NewOffsets(end, 0) == {};
    hide NewOffsets;
  }

  lemma TakeIsMost(t: Table, take: set<nat>, rest: set<nat>)
    requires take !! rest && take + rest == FreeRows(t) && |take| <= EXPAND
    requires rest == {} || |take| == EXPAND
    ensures MayTake(t, take)
  {
    assert |take + rest| == |take| + |rest|;
  }

  lemma SameEnd(t: Table, u: Table, a: nat, b: nat)
    requires t.Keys == u.Keys && EndsAt(u, a) && EndsAt(t, b)
    ensures a == b
  {
    assert t == map[] <==> t.Keys == {};
    assert u == map[] <==> u.Keys == {};
  }

  /** The tagged slots outside `todo` have been dealt with, and nothing else has. */
  ghost predicate FlushedBut(t: Table, s: Slots, u: Table, todo: set<nat>) {
    forall o :: o in t && o in u ==>
      u[o] == if o in s && s[o].tag.Some? && o !in todo then FlushedRow(t, s, o) else t[o]
  }

  /** Slots already published do not stand in the way of the next one. */
  lemma PartlyFlushedTaken(t: Table, s: Slots, u: Table, todo: set<nat>, o: nat)
    requires SlotsOk(t, s) && u.Keys == t.Keys && FlushedBut(t, s, u, todo)
    requires o in todo && o in s && s[o].tag.Some?
    ensures Taken(u, o, s[o].tag.value) <==> Taken(t, o, s[o].tag.value)
  {
    var tag := s[o].tag.value;
    if q :| q in u && q != o && u[q].tag == Some(tag) {
      assert q in t && q != o && t[q].tag == Some(tag);
    }
    if q :| q in t && q != o && t[q].tag == Some(tag) {
      assert q in u && q != o && u[q].tag == Some(tag);
    }
  }
}
