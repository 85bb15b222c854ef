/**
 * What the hoard's data is worth over a run: which chunks stay, with which
 * bytes, and when the bytes behind a tag have that tag as their digest.
 */
module HoardTheorems {
  import opened Common
  import opened HoardState
  import opened HoardSteps
  import opened HoardInvariant

  // ----- No transaction loses a referenced chunk -----

  /** Row `o` holds the chunk `tag`, whose bytes are `data`. */
  predicate HeldAt(t: Table, f: File, o: nat, tag: Tag, data: Bytes) {
    && o in t && t[o].tag == Some(tag)
    && o in f && t[o].length <= |f[o]| && f[o][..t[o].length] == data
  }

  /** The hoard has the chunk `tag`, whose bytes are `data`. */
  ghost predicate Held(t: Table, f: File, tag: Tag, data: Bytes) {
    exists o :: HeldAt(t, f, o, tag, data)
  }

  /** The steps that may take a chunk away: a reader found it damaged, or nothing references it. */
  ghost predicate MayDrop(h: Hoard, s: Step, tag: Tag) {
    match s
    case Invalidate(_, o, bad) => bad == tag
    case Collect(_) => !Referenced(h.refs, tag)
    case Cleanup(_, gc) => gc && !Referenced(h.refs, tag)
    case _ => false
  }

  lemma ChosenIsUntagged(t: Table, s: Slots, c: Choice)
    requires TableOk(t) && SlotsOk(t, s) && ChoiceOk(t, s, c)
    ensures !Tagged(t, c.o)
  {
    if c.Renewed? {
      FlushOk(t, s);
      var u := Flushed(t, s);
      var n: nat :| Rows(u, n);
      EndIsRowCount(u, n, c.end);
      assert c.o in u ==> c.o in FreeRows(u);
      assert forall o :: Tagged(t, o) ==> o in u && u[o] == t[o];
    }
  }

  /** Flushing and reserving leave tagged rows alone. */
  lemma ChosenKeepsRows(t: Table, s: Slots, c: Choice, o: nat)
    requires SlotsOk(t, s) && TaggedAllocated(t) && ChoiceOk(t, s, c) && Tagged(t, o)
    ensures Tagged(ChosenTable(t, s, c), o) && ChosenTable(t, s, c)[o] == t[o]
  {
  }

  lemma MoveHolds(digest: Bytes -> Tag, t: Table, f: File, from: nat, to: nat, tag: Tag, data: Bytes)
    requires TableOk(t) && MoveOk(digest, t, f, from, to) && Held(t, f, tag, data)
    ensures Held(MovedTable(t, from, to), MovedFile(t, f, from, to), tag, data)
  {
    var (u, g) := (MovedTable(t, from, to), MovedFile(t, f, from, to));
    var o :| HeldAt(t, f, o, tag, data);
    if o == from {
      assert g[to][..t[from].length] == data;
      assert HeldAt(u, g, to, tag, data);
    } else {
      assert o != to;
      assert HeldAt(u, g, o, tag, data);
    }
  }

  lemma {:induction false} MovesHold(digest: Bytes -> Tag, t: Table, f: File, moves: seq<(nat, nat)>, tag: Tag, data: Bytes)
    requires TableOk(t) && MovesOk(digest, t, f, moves) && Held(t, f, tag, data)
    ensures var (u, g) := AfterMoves(digest, t, f, moves); Held(u, g, tag, data)
    decreases |moves|
  {
    hide TableOk, Held;
    if moves != [] {
      var (from, to) := moves[0];
      MoveKeeps(digest, t, f, from, to);
      MoveHolds(digest, t, f, from, to, tag, data);
      MovesHold(digest, MovedTable(t, from, to), MovedFile(t, f, from, to), moves[1..], tag, data);
    }
  }

  /** The file stays as it is wherever a row is allocated. */
  ghost predicate KeepsUsed(t: Table, f: File, g: File) {
    forall o :: o in t && t[o].inUse ==> SameAt(f, g, o)
  }

  lemma UndoneKeepsUsed(digest: Bytes -> Tag, t: Table, f: File, moves: seq<(nat, nat)>, to: nat, torn: Option<Bytes>)
    requires TableOk(t) && MovesOk(digest, t, f, moves)
    requires var u := AfterMoves(digest, t, f, moves).0; LowestFree(u, to) && exists q :: Tagged(u, q) && to < q
    ensures var g := AfterMoves(digest, t, f, moves).1; KeepsUsed(t, f, if torn.Some? then g[to := torn.value] else g)
  {
    var n: nat :| Rows(t, n);
    MovesWriteFree(digest, t, f, moves, n * STEP);
    var u := AfterMoves(digest, t, f, moves).0;
    var q :| Tagged(u, q) && to < q;
    MovesFreeBelow(digest, t, f, moves, to, q);
  }

  lemma MovesKeepUsed(digest: Bytes -> Tag, t: Table, f: File, moves: seq<(nat, nat)>)
    requires TableOk(t) && MovesOk(digest, t, f, moves)
    ensures KeepsUsed(t, f, AfterMoves(digest, t, f, moves).1)
  {
    var n: nat :| Rows(t, n);
    MovesWriteFree(digest, t, f, moves, n * STEP);
  }

  lemma TruncateKeepsUsed(t: Table, f: File, cut: nat)
    requires CutsAt(t, cut)
    ensures KeepsUsed(t, f, TruncatedFile(f, cut))
  {
  }

  lemma HeldKept(t: Table, f: File, u: Table, g: File, tag: Tag, data: Bytes)
    requires Held(t, f, tag, data) && TaggedAllocated(t) && KeepsUsed(t, f, g)
    requires forall o :: Tagged(t, o) && t[o].tag == Some(tag) ==> o in u && u[o] == t[o]
    ensures Held(u, g, tag, data)
  {
    var o :| HeldAt(t, f, o, tag, data);
    assert Tagged(t, o);
    assert HeldAt(u, g, o, tag, data);
  }

  lemma FlushHolds(t: Table, s: Slots, f: File, tag: Tag, data: Bytes)
    requires TaggedAllocated(t) && SlotsOk(t, s) && Held(t, f, tag, data)
    ensures Held(Flushed(t, s), f, tag, data)
  {
    HeldKept(t, f, Flushed(t, s), f, tag, data);
  }

  lemma PutHolds(h: Hoard, p: nat, c: Choice, bytes: Bytes, tag: Tag, data: Bytes)
    requires Inv(h) && p in h.procs && ChoiceOk(h.chunks, h.procs[p], c) && Held(h.chunks, h.file, tag, data)
    ensures Held(ChosenTable(h.chunks, h.procs[p], c), h.file[c.o := bytes], tag, data)
    ensures Held(h.chunks, h.file[c.o := bytes], tag, data)
  {
    var (t, s, g) := (h.chunks, h.procs[p], h.file[c.o := bytes]);
    var o :| HeldAt(t, h.file, o, tag, data);
    ChosenIsUntagged(t, s, c);
    ChosenKeepsRows(t, s, c, o);
    assert HeldAt(t, g, o, tag, data);
    assert HeldAt(ChosenTable(t, s, c), g, o, tag, data);
  }

  lemma HeldStep(digest: Bytes -> Tag, h: Hoard, s: Step, tag: Tag, data: Bytes)
    requires Inv(h) && Enabled(digest, h, s)
    requires Held(h.chunks, h.file, tag, data) && !MayDrop(h, s, tag)
    ensures var after := Apply(digest, h, s); Held(after.chunks, after.file, tag, data)
  {
    hide Held, Flushed, Expanded, UniqueTags, Disjoint, AfterMoves, MovesOk;
    var (t, f) := (h.chunks, h.file);
    match s {
      case Put(p, _, bytes, c) => PutHolds(h, p, c, Padded(bytes), tag, data);
      case PutUndone(p, _, bytes, c, k) =>
        if k > 0 { PutHolds(h, p, c, Torn(if c.o in f then f[c.o] else [], bytes, k), tag, data); }
      case Flush(p) => FlushHolds(t, h.procs[p], f, tag, data);
      case Invalidate(_, o, bad) => HeldKept(t, f, Invalidated(t, o, bad), f, tag, data);
      case Collect(_) => HeldKept(t, f, Collected(t, h.refs), f, tag, data);
      case Cleanup(_, gc) =>
        HeldKept(t, f, if gc then Collected(Reclaimed(t), h.refs) else Reclaimed(t), f, tag, data);
      case Compact(_, moves) => MovesHold(digest, t, f, moves, tag, data);
      case CompactUndone(_, moves, to, torn) =>
        UndoneKeepsUsed(digest, t, f, moves, to, torn);
        HeldKept(t, f, t, Apply(digest, h, s).file, tag, data);
      case Truncate(_, cut) =>
        TruncateKeepsUsed(t, f, cut);
        HeldKept(t, f, TruncatedTable(t, cut), TruncatedFile(f, cut), tag, data);
      case TruncateUndone(_, cut) =>
        TruncateKeepsUsed(t, f, cut);
        HeldKept(t, f, t, TruncatedFile(f, cut), tag, data);
      case _ =>
    }
  }

  /** At no step of the run is the chunk both unreferenced and collected, or invalidated. */
  ghost predicate NeverDropped(digest: Bytes -> Tag, h: Hoard, steps: seq<Step>, tag: Tag)
    requires Runs(digest, h, steps)
    decreases |steps|
  {
    steps == [] ||
    (!MayDrop(h, steps[0], tag) && NeverDropped(digest, Apply(digest, h, steps[0]), steps[1..], tag))
  }

  /**
   * In every run a chunk of the shared table that is referenced whenever garbage
   * is collected, and that no reader found damaged, stays there with its bytes:
   * whatever the other processes put, flush, move, truncate or roll back.
   * `HoardRefs.RunHolds` tells when that is by the steps of the run.
   */
  lemma {:induction false} RunKeeps(digest: Bytes -> Tag, h: Hoard, steps: seq<Step>, tag: Tag, data: Bytes)
    requires Inv(h) && Runs(digest, h, steps)
    requires Held(h.chunks, h.file, tag, data) && NeverDropped(digest, h, steps, tag)
    ensures var after := After(digest, h, steps); Held(after.chunks, after.file, tag, data)
    decreases |steps|
  {
    hide Inv, Enabled, Apply, Held, MayDrop;
    if steps != [] {
      StepInv(digest, h, steps[0]);
      HeldStep(digest, h, steps[0], tag, data);
      RunKeeps(digest, Apply(digest, h, steps[0]), steps[1..], tag, data);
    }
  }

  /** A flush publishes every chunk of the slot table: its tag is then in the shared table. */
  lemma FlushPublishes(t: Table, s: Slots, tag: Tag)
    requires SlotsOk(t, s)
    ensures HasTag(Flushed(t, s), tag) <==> HasTag(t, tag) || SlotHasTag(s, tag)
  {
    var u := Flushed(t, s);
    if HasTag(t, tag) {
      var o :| o in t && t[o].tag == Some(tag);
      assert o in u && u[o].tag == Some(tag);
    } else if SlotHasTag(s, tag) {
      var o :| o in s && s[o].tag == Some(tag);
      assert o in u && u[o].tag == Some(tag);
    }
  }

  // ----- Bytes match tags -----

  lemma KeptIntact(digest: Bytes -> Tag, t: Table, f: File, g: File)
    requires TaggedAllocated(t) && TableIntact(digest, t, f) && KeepsUsed(t, f, g)
    ensures TableIntact(digest, t, g)
  {
  }

  lemma KeptSlotsIntact(digest: Bytes -> Tag, t: Table, s: Slots, f: File, g: File)
    requires SlotsOk(t, s) && SlotsIntact(digest, s, f) && KeepsUsed(t, f, g)
    ensures SlotsIntact(digest, s, g)
  {
  }

  lemma KeptIntegrity(digest: Bytes -> Tag, h: Hoard, g: File)
    requires Inv(h) && Integrity(digest, h) && KeepsUsed(h.chunks, h.file, g)
    ensures Integrity(digest, h.(file := g))
  {
    KeptIntact(digest, h.chunks, h.file, g);
    forall p | p in h.procs ensures SlotsIntact(digest, h.procs[p], g) {
      KeptSlotsIntact(digest, h.chunks, h.procs[p], h.file, g);
    }
  }

  lemma FlushIntact(digest: Bytes -> Tag, t: Table, s: Slots, f: File)
    requires SlotsOk(t, s) && TableIntact(digest, t, f) && SlotsIntact(digest, s, f)
    ensures TableIntact(digest, Flushed(t, s), f)
  {
    var u := Flushed(t, s);
    forall o | Tagged(u, o) ensures Intact(digest, f, o, u[o].tag.value, u[o].length) {
      if o !in s { assert Tagged(t, o); }
    }
  }

  lemma ChosenIntact(digest: Bytes -> Tag, t: Table, s: Slots, f: File, c: Choice)
    requires TableOk(t) && SlotsOk(t, s) && ChoiceOk(t, s, c)
    requires TableIntact(digest, t, f) && SlotsIntact(digest, s, f)
    ensures TableIntact(digest, ChosenTable(t, s, c), f)
  {
    if c.Renewed? {
      FlushIntact(digest, t, s, f);
      var (u, v) := (Flushed(t, s), ChosenTable(t, s, c));
      assert forall o :: Tagged(v, o) ==> Tagged(u, o) && u[o].tag == v[o].tag && u[o].length == v[o].length;
    }
  }

  /** What a put writes stands behind no tag of the table or of another process. */
  lemma ChosenSpares(h: Hoard, p: nat, c: Choice)
    requires Inv(h) && p in h.procs && ChoiceOk(h.chunks, h.procs[p], c)
    ensures !Tagged(ChosenTable(h.chunks, h.procs[p], c), c.o)
    ensures forall q :: q in h.procs && q != p ==> c.o !in h.procs[q]
  {
    ChoiceKeeps(h.chunks, h.procs[p], c);
    forall q | q in h.procs && q != p ensures c.o !in h.procs[q] {
      ChoiceFrame(h.chunks, h.procs[p], c, h.procs[q]);
    }
  }

  lemma WrittenIntact(digest: Bytes -> Tag, t: Table, f: File, o: nat, data: Bytes)
    requires TableIntact(digest, t, f) && !Tagged(t, o)
    ensures TableIntact(digest, t, f[o := data])
  {
  }

  lemma WrittenSlotsIntact(digest: Bytes -> Tag, s: Slots, f: File, o: nat, data: Bytes)
    requires SlotsIntact(digest, s, f) && (o in s ==> s[o].tag.None?)
    ensures SlotsIntact(digest, s, f[o := data])
  {
  }

  lemma FilledIntact(digest: Bytes -> Tag, s: Slots, f: File, o: nat, data: Bytes)
    requires SlotsIntact(digest, s, f) && |data| <= SLOT
    ensures SlotsIntact(digest, s[o := Slot(Some(digest(data)), |data|)], f[o := Padded(data)])
  {
    assert Padded(data)[..|data|] == data;
  }

  lemma PutIntegrity(digest: Bytes -> Tag, h: Hoard, p: nat, c: Choice, data: Bytes)
    requires Inv(h) && Integrity(digest, h)
    requires p in h.procs && ChoiceOk(h.chunks, h.procs[p], c) && |data| <= SLOT
    ensures var s := ChosenSlots(h.procs[p], c)[c.o := Slot(Some(digest(data)), |data|)];
      Integrity(digest, h.(chunks := ChosenTable(h.chunks, h.procs[p], c),
                           file := h.file[c.o := Padded(data)], procs := h.procs[p := s]))
  {
    var (t, s, f) := (h.chunks, h.procs[p], h.file);
    ChosenIntact(digest, t, s, f, c);
    ChosenSpares(h, p, c);
    WrittenIntact(digest, ChosenTable(t, s, c), f, c.o, Padded(data));
    assert SlotsIntact(digest, ChosenSlots(s, c), f);
    FilledIntact(digest, ChosenSlots(s, c), f, c.o, data);
    forall q | q in h.procs && q != p ensures SlotsIntact(digest, h.procs[q], f[c.o := Padded(data)]) {
      WrittenSlotsIntact(digest, h.procs[q], f, c.o, Padded(data));
    }
  }

  lemma MoveIntact(digest: Bytes -> Tag, t: Table, f: File, from: nat, to: nat)
    requires TableOk(t) && MoveOk(digest, t, f, from, to) && TableIntact(digest, t, f)
    ensures TableIntact(digest, MovedTable(t, from, to), MovedFile(t, f, from, to))
  {
    var (u, g) := (MovedTable(t, from, to), MovedFile(t, f, from, to));
    assert g[to][..t[from].length] == f[from][..t[from].length];
    assert forall o :: Tagged(u, o) && o != to ==> Tagged(t, o) && u[o] == t[o];
  }

  lemma {:induction false} MovesIntact(digest: Bytes -> Tag, t: Table, f: File, moves: seq<(nat, nat)>)
    requires TableOk(t) && MovesOk(digest, t, f, moves) && TableIntact(digest, t, f)
    ensures var (u, g) := AfterMoves(digest, t, f, moves); TableIntact(digest, u, g)
    decreases |moves|
  {
    hide TableOk, TableIntact;
    if moves != [] {
      var (from, to) := moves[0];
      MoveKeeps(digest, t, f, from, to);
      MoveIntact(digest, t, f, from, to);
      MovesIntact(digest, MovedTable(t, from, to), MovedFile(t, f, from, to), moves[1..]);
    }
  }

  lemma CompactIntegrity(digest: Bytes -> Tag, h: Hoard, moves: seq<(nat, nat)>)
    requires Inv(h) && Integrity(digest, h) && MovesOk(digest, h.chunks, h.file, moves)
    ensures var (t, f) := AfterMoves(digest, h.chunks, h.file, moves); Integrity(digest, h.(chunks := t, file := f))
  {
    MovesIntact(digest, h.chunks, h.file, moves);
    MovesKeepUsed(digest, h.chunks, h.file, moves);
    KeptIntegrity(digest, h, AfterMoves(digest, h.chunks, h.file, moves).1);
  }

  // ----- Puts that are rolled back -----

  /** Writing `data` over these bytes, or only its beginning, leaves the first `length` of them as they were. */
  predicate Survives(was: Bytes, length: nat, data: Bytes) {
    || length == 0
    || |data| > SLOT
    || (length <= SLOT && length <= |was| && Padded(data)[..length] == was[..length])
  }

  /**
   * Whatever slot a put of `data` picks from these tables, rolling it back can do
   * no harm: there is an unused slot, or the write would leave every chunk as it
   * is whose slot the flush releases.
   */
  ghost predicate SafeToUndo(t: Table, s: Slots, f: File, data: Bytes) {
    || (exists q :: q in s && s[q].tag.None?)
    || (forall o :: o in s && s[o].tag.Some? && Taken(t, o, s[o].tag.value) ==>
          o in f && Survives(f[o], s[o].length, data))
  }

  lemma {:induction false} SubsetOfSize(s: set<nat>, o: nat, k: nat) returns (r: set<nat>)
    requires o in s && 0 < k <= |s|
    ensures r <= s && |r| == k && o in r
    decreases |s|
  {
    if |s| == k {
      r := s;
    } else {
      var rest := s - {o};
      assert |rest| == |s| - 1 > 0;
      var x :| x in rest;
      r := SubsetOfSize(s - {x}, o, k);
    }
  }

  /** Once all slots are filled, a put may end up in any slot that the flush releases. */
  lemma MayRenewAt(t: Table, s: Slots, o: nat) returns (c: Choice)
    requires TableOk(t) && SlotsOk(t, s)
    requires forall q :: q in s ==> s[q].tag.Some?
    requires Unallocated(Flushed(t, s), o)
    ensures ChoiceOk(t, s, c) && c.o == o
  {
    FlushOk(t, s);
    var u := Flushed(t, s);
    assert o in FreeRows(u);
    assert |FreeRows(u)| > 0 by { assert FreeRows(u) != {}; }
    var take := SubsetOfSize(FreeRows(u), o, Min(EXPAND, |FreeRows(u)|));
    var end := SomeEnd(u);
    c := Renewed(o, take, end);
  }

  /** If it is safe, a put picks no slot that lists a chunk, or one that lists a chunk the write leaves as it is. */
  lemma SafeChoice(t: Table, s: Slots, f: File, data: Bytes, c: Choice)
    requires TableOk(t) && SlotsOk(t, s) && SafeToUndo(t, s, f, data) && ChoiceOk(t, s, c)
    ensures c.o in s && s[c.o].tag.Some? ==> c.o in f && Survives(f[c.o], s[c.o].length, data)
  {
    hide Survives;
    if c.Renewed? && c.o in s {
      var u := Flushed(t, s);
      assert c.o in u && !OnGrid(c.end, c.o);
      assert c.o in FreeRows(u);
    }
  }

  /** If it is not, a put may pick one that lists a chunk the write damages. */
  lemma UnsafeChoice(t: Table, s: Slots, f: File, data: Bytes) returns (c: Choice)
    requires TableOk(t) && SlotsOk(t, s) && !SafeToUndo(t, s, f, data)
    ensures ChoiceOk(t, s, c) && c.o in s && s[c.o].tag.Some?
    ensures c.o !in f || !Survives(f[c.o], s[c.o].length, data)
  {
    hide Survives;
    var o :| o in s && s[o].tag.Some? && Taken(t, o, s[o].tag.value) && (o !in f || !Survives(f[o], s[o].length, data));
    assert Unallocated(Flushed(t, s), o);
    c := MayRenewAt(t, s, o);
  }

  /** What a rolled-back put writes can damage nothing but the chunk its own process lists there. */
  lemma UndoneDamage(digest: Bytes -> Tag, h: Hoard, p: nat, c: Choice, junk: Bytes)
    requires Inv(h) && Integrity(digest, h) && p in h.procs && ChoiceOk(h.chunks, h.procs[p], c)
    ensures var (s, g) := (h.procs[p], h.file[c.o := junk]);
      Integrity(digest, h.(file := g)) <==>
      (c.o in s && s[c.o].tag.Some? ==> Intact(digest, g, c.o, s[c.o].tag.value, s[c.o].length))
  {
    var (s, g) := (h.procs[p], h.file[c.o := junk]);
    ChosenIsUntagged(h.chunks, s, c);
    ChosenSpares(h, p, c);
    WrittenIntact(digest, h.chunks, h.file, c.o, junk);
    forall q | q in h.procs && q != p ensures SlotsIntact(digest, h.procs[q], g) {
      WrittenSlotsIntact(digest, h.procs[q], h.file, c.o, junk);
    }
    assert SlotsIntact(digest, s, g) <==> (c.o in s && s[c.o].tag.Some? ==> Intact(digest, g, c.o, s[c.o].tag.value, s[c.o].length));
  }

  /** However far the write came, bytes that survive it are there afterwards. */
  lemma TornSurvives(was: Bytes, length: nat, data: Bytes, k: nat)
    requires |data| <= SLOT && k <= SLOT && length <= |was| && Survives(was, length, data)
    ensures length <= |Torn(was, data, k)| && Torn(was, data, k)[..length] == was[..length]
  {
    var torn := Torn(was, data, k);
    forall i | 0 <= i < length ensures i < |torn| && torn[i] == was[i] {
      assert Padded(data)[..length][i] == was[..length][i];
    }
  }

  /** Written completely, the bytes that do not survive are not. */
  lemma OverwrittenIsLost(was: Bytes, length: nat, data: Bytes)
    requires length <= |was| && !Survives(was, length, data)
    ensures Torn(was, data, SLOT) == Padded(data)
    ensures length <= SLOT ==> Padded(data)[..length] != was[..length]
  {
    assert |Padded(data)| == SLOT;
  }

  lemma SafeUndone(digest: Bytes -> Tag, h: Hoard, p: nat, c: Choice, data: Bytes, k: nat)
    requires Inv(h) && Integrity(digest, h) && p in h.procs && ChoiceOk(h.chunks, h.procs[p], c)
    requires k <= SLOT && (|data| <= SLOT || k == 0) && SafeToUndo(h.chunks, h.procs[p], h.file, data)
    ensures Integrity(digest, h.(file := TornFile(h.file, c.o, data, k)))
  {
    hide Inv, Torn, Survives, SafeToUndo, TableIntact, ChoiceOk;
    InvIs(h);
    var (s, f) := (h.procs[p], h.file);
    if k == 0 {
      assert h.(file := f) == h;
    } else {
      SafeChoice(h.chunks, s, f, data, c);
      UndoneDamage(digest, h, p, c, Torn(if c.o in f then f[c.o] else [], data, k));
      if c.o in s && s[c.o].tag.Some? {
        assert Intact(digest, f, c.o, s[c.o].tag.value, s[c.o].length);
        TornSurvives(f[c.o], s[c.o].length, data, k);
      }
    }
  }

  ghost predicate CollisionFree(digest: Bytes -> Tag) {
    forall a, b :: digest(a) == digest(b) ==> a == b
  }

  /** Rolled back once the whole slot is written, an unsafe put leaves a listed chunk damaged. */
  lemma UnsafeUndone(digest: Bytes -> Tag, h: Hoard, p: nat, data: Bytes) returns (c: Choice)
    requires CollisionFree(digest) && Inv(h) && Integrity(digest, h) && p in h.procs
    requires !SafeToUndo(h.chunks, h.procs[p], h.file, data)
    ensures |data| <= SLOT && ChoiceOk(h.chunks, h.procs[p], c)
    ensures !Integrity(digest, h.(file := TornFile(h.file, c.o, data, SLOT)))
  {
    hide Inv, Torn, Survives, SafeToUndo, TableIntact, ChoiceOk;
    InvIs(h);
    var (s, f) := (h.procs[p], h.file);
    c := UnsafeChoice(h.chunks, s, f, data);
    var length := s[c.o].length;
    assert Intact(digest, f, c.o, s[c.o].tag.value, length);
    Fits(f[c.o], length, data);
    OverwrittenIsLost(f[c.o], length, data);
    UndoneDamage(digest, h, p, c, Padded(data));
  }

  lemma Fits(was: Bytes, length: nat, data: Bytes)
    requires !Survives(was, length, data)
    ensures |data| <= SLOT
  {
  }

  /**
   * Exactly when a put may be rolled back, for a chunk that is in neither table
   * and a digest without collisions: every choice of a slot, and every torn or
   * complete write to it, leaves the bytes matching the tags if and only if the
   * put is safe when it begins.
   */
  lemma UndoneIff(digest: Bytes -> Tag, h: Hoard, p: nat, tag: Tag, data: Bytes)
    requires CollisionFree(digest) && Inv(h) && Integrity(digest, h) && p in h.procs
    requires digest(data) == tag && !SlotHasTag(h.procs[p], tag) && !HasTag(h.chunks, tag)
    ensures SafeToUndo(h.chunks, h.procs[p], h.file, data) <==>
            forall c, k :: Enabled(digest, h, PutUndone(p, tag, data, c, k)) ==>
                           Integrity(digest, Apply(digest, h, PutUndone(p, tag, data, c, k)))
  {
    hide Integrity, Inv, SafeToUndo, ChoiceOk, TornFile;
    if SafeToUndo(h.chunks, h.procs[p], h.file, data) {
      forall c, k | Enabled(digest, h, PutUndone(p, tag, data, c, k))
        ensures Integrity(digest, Apply(digest, h, PutUndone(p, tag, data, c, k)))
      {
        SafeUndone(digest, h, p, c, data, k);
      }
    } else {
      var c := UnsafeUndone(digest, h, p, data);
      assert Enabled(digest, h, PutUndone(p, tag, data, c, SLOT));
    }
  }

  /** A table with fewer tags is as good as before. */
  lemma FewerTags(digest: Bytes -> Tag, t: Table, u: Table, f: File)
    requires TableIntact(digest, t, f) && forall o :: Tagged(u, o) ==> Tagged(t, o) && u[o] == t[o]
    ensures TableIntact(digest, u, f)
  {
  }

  lemma FlushIntegrity(digest: Bytes -> Tag, h: Hoard, p: nat)
    requires Inv(h) && Integrity(digest, h) && p in h.procs
    ensures Integrity(digest, h.(chunks := Flushed(h.chunks, h.procs[p]), procs := h.procs[p := map[]]))
  {
    FlushIntact(digest, h.chunks, h.procs[p], h.file);
  }

  lemma TruncateIntegrity(digest: Bytes -> Tag, h: Hoard, cut: nat)
    requires Inv(h) && Integrity(digest, h) && CutsAt(h.chunks, cut)
    ensures Integrity(digest, h.(file := TruncatedFile(h.file, cut)))
    ensures Integrity(digest, h.(chunks := TruncatedTable(h.chunks, cut), file := TruncatedFile(h.file, cut)))
  {
    TruncateKeepsUsed(h.chunks, h.file, cut);
    KeptIntegrity(digest, h, TruncatedFile(h.file, cut));
    FewerTags(digest, h.chunks, TruncatedTable(h.chunks, cut), TruncatedFile(h.file, cut));
  }

  /** The steps that touch neither the slots' offsets nor the file. */
  lemma TableStepIntegrity(digest: Bytes -> Tag, h: Hoard, s: Step)
    requires Integrity(digest, h) && Enabled(digest, h, s)
    requires s.Invalidate? || s.InvalidateSlot? || s.Collect? || s.Cleanup? || s.Open? || s.Exit? || s.SyncRefs? || s.RemoveParcel?
    ensures Integrity(digest, Apply(digest, h, s))
  {
    var after := Apply(digest, h, s);
    FewerTags(digest, h.chunks, after.chunks, h.file);
  }

  ghost predicate UndoesSafely(h: Hoard, s: Step) {
    s.PutUndone? && s.p in h.procs ==> SafeToUndo(h.chunks, h.procs[s.p], h.file, s.data)
  }

  ghost predicate AlwaysSafe(digest: Bytes -> Tag, h: Hoard, steps: seq<Step>)
    requires Runs(digest, h, steps)
    decreases |steps|
  {
    steps == [] ||
    (UndoesSafely(h, steps[0]) && AlwaysSafe(digest, Apply(digest, h, steps[0]), steps[1..]))
  }

  lemma IntegrityStep(digest: Bytes -> Tag, h: Hoard, s: Step)
    requires Inv(h) && Integrity(digest, h) && Enabled(digest, h, s) && UndoesSafely(h, s)
    ensures Integrity(digest, Apply(digest, h, s))
  {
    hide Inv, Integrity;
    match s {
      case Put(p, _, data, c) => PutIntegrity(digest, h, p, c, data);
      case PutUndone(p, _, data, c, k) => SafeUndone(digest, h, p, c, data, k);
      case Flush(p) => FlushIntegrity(digest, h, p);
      case Compact(_, moves) => CompactIntegrity(digest, h, moves);
      case CompactUndone(_, moves, to, torn) =>
        InvIs(h);
        UndoneKeepsUsed(digest, h.chunks, h.file, moves, to, torn);
        KeptIntegrity(digest, h, Apply(digest, h, s).file);
      case Truncate(_, cut) => TruncateIntegrity(digest, h, cut);
      case TruncateUndone(_, cut) => TruncateIntegrity(digest, h, cut);
      case _ => TableStepIntegrity(digest, h, s);
    }
  }

  lemma InvIs(h: Hoard)
    requires Inv(h)
    ensures TableOk(h.chunks) && ProcsOk(h.chunks, h.procs)
  {
  }

  /**
   * In every run in which every rolled-back put began with tables that were safe,
   * the bytes of every tagged row, and of every tagged slot, hash to the tag.
   */
  lemma {:induction false} RunIntegrity(digest: Bytes -> Tag, h: Hoard, steps: seq<Step>)
    requires Inv(h) && Integrity(digest, h) && Runs(digest, h, steps) && AlwaysSafe(digest, h, steps)
    ensures Integrity(digest, After(digest, h, steps))
    decreases |steps|
  {
    hide Inv, Integrity, Enabled, Apply, UndoesSafely;
    if steps != [] {
      StepInv(digest, h, steps[0]);
      IntegrityStep(digest, h, steps[0]);
      RunIntegrity(digest, Apply(digest, h, steps[0]), steps[1..]);
    }
  }
}
