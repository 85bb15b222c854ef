/** The invariant is kept by every step in which a thread changes only entries it holds. */
module ImageHeld {
  import opened Common
  import opened ImageState
  import opened ImageSteps
  import opened ImageInvariant

  predicate Waits(p: Thread) {
    p.WaitFlag? || p.WaitBuffer?
  }

  /** Thread t moves to position q and changes only what its busy flags protect. */
  ghost predicate HeldChange(s: State, t: Tid, img: Image, q: Thread) {
    && t in s.th
    && !Waits(s.th[t]) && !Waits(q) && Holds(q) == Holds(s.th[t])
    && img.chunksize == s.img.chunksize
    && img.reclaimable == s.img.reclaimable
    && img.allocatable <= s.img.allocatable
    && img.entries.Keys == s.img.entries.Keys
    && img.backing.Keys == s.img.backing.Keys
    && (forall c :: c in img.entries ==>
          img.entries[c].busy == s.img.entries[c].busy && img.entries[c].waiters == s.img.entries[c].waiters)
    && (forall c :: c !in Holds(q) ==>
          && (c in img.entries ==> img.entries[c] == s.img.entries[c])
          && (c in img.backing ==> img.backing[c] == s.img.backing[c])
          && (c in img.dirty <==> c in s.img.dirty)
          && (c in img.tainted <==> c in s.img.tainted))
  }

  /** What has to hold of the held entries afterwards. */
  ghost predicate HeldOk(img: Image, t: Tid, q: Thread) {
    && PosOk(img, q)
    && NoDup(img.dirty)
    && (img.leaveDirty <==> img.tainted != {})
    && forall c :: c in Holds(q) ==>
        && c in img.entries && c in img.backing && |img.backing[c]| == img.chunksize
        && (img.entries[c].data.Some? ==> |img.entries[c].data.value| == img.chunksize)
        && (img.entries[c].dirty ==> img.entries[c].data.Some?)
        && (c in img.dirty <==> img.entries[c].dirty && !MidClean(q, c))
        && (c !in img.tainted ==> HeldData(img, c, q))
  }

  ghost predicate HeldData(img: Image, c: Chunk, q: Thread)
    requires c in img.entries && c in img.backing
  {
    var e := img.entries[c];
    && !e.error
    && (e.dirty ==> e.loaded)
    && (e.data.Some? && e.loaded && !e.dirty && !Unmarked(q, c) ==> e.data.value == img.backing[c])
    && (e.data.Some? && !e.loaded ==> FillsSoon(q, c, img.chunksize))
    && (WrittenBack(q, c) ==> e.data == Some(img.backing[c]))
  }

  lemma HeldRefs(s: State, t: Tid, img: Image, q: Thread)
    requires Refs(s) && HeldChange(s, t, img, q)
    ensures Refs(State(img, s.th[t := q]))
  {
  }

  lemma HeldCounts(s: State, t: Tid, img: Image, q: Thread)
    requires Counts(s) && HeldChange(s, t, img, q)
    ensures Counts(State(img, s.th[t := q]))
  {
    var th := s.th[t := q];
    forall c | c in img.entries
      ensures img.entries[c].waiters == |Waiting(th, c)|
    {
      assert Waiting(th, c) == Waiting(s.th, c);
    }
  }

  lemma HeldShape(s: State, t: Tid, img: Image, q: Thread)
    requires Shape(s) && HeldChange(s, t, img, q) && HeldOk(img, t, q)
    ensures Shape(State(img, s.th[t := q]))
  {
    forall c | c in img.backing
      ensures |img.backing[c]| == img.chunksize
    {
      assert c in s.img.backing;
    }
  }

  lemma HeldZombies(s: State, t: Tid, img: Image, q: Thread)
    requires NoZombies(s, None) && Refs(s) && HeldChange(s, t, img, q)
    ensures NoZombies(State(img, s.th[t := q]), None)
  {
    forall x | x in img.entries && img.entries[x].busy.None? && img.entries[x].waiters == 0
      ensures img.entries[x].data.Some?
    {
      assert s.img.entries[x].busy.None?;
      assert x !in Holds(s.th[t]);
    }
  }

  lemma HeldQueues(s: State, t: Tid, img: Image, q: Thread)
    requires Queues(s) && HeldChange(s, t, img, q) && HeldOk(img, t, q)
    ensures Queues(State(img, s.th[t := q]))
  {
    HeldRefs(s, t, img, q);
    var s' := State(img, s.th[t := q]);
    forall c
      ensures c in img.reclaimable <==> c in img.entries && Idling(img.entries[c])
      ensures c in img.dirty <==> c in img.entries && img.entries[c].dirty && !InMidClean(s', c)
    {
      if c in Holds(q) {
        assert s.img.entries[c].busy == Some(t);
      }
    }
  }

  lemma HeldPositions(s: State, t: Tid, img: Image, q: Thread)
    requires Positions(s) && Refs(s) && HeldChange(s, t, img, q) && HeldOk(img, t, q)
    ensures Positions(State(img, s.th[t := q]))
  {
    forall x | x in s.th && x != t
      ensures PosOk(img, s.th[x])
    {
      OtherPosition(s, t, img, q, x);
    }
  }

  lemma OtherPosition(s: State, t: Tid, img: Image, q: Thread, x: Tid)
    requires Refs(s) && HeldChange(s, t, img, q) && x in s.th && x != t && PosOk(s.img, s.th[x])
    ensures PosOk(img, s.th[x])
  {
    assert forall c :: c in Holds(s.th[x]) ==> c in s.img.entries && s.img.entries[c].busy == Some(x);
    assert forall c :: c in Holds(s.th[x]) ==> c !in Holds(q);
    PosFrame(s.img, img, s.th[x]);
  }

  lemma PosFrame(img: Image, img': Image, p: Thread)
    requires PosOk(img, p) && img'.chunksize == img.chunksize && img'.allocatable <= img.allocatable
    requires forall c :: c in Holds(p) && c in img.entries ==> c in img'.entries && img'.entries[c] == img.entries[c]
    ensures PosOk(img', p)
  {
    match p
    case GotFlag(v, ForVictim(c, op)) => assert v in Holds(p) && c in Holds(p);
    case WaitBuffer(c, _, _) => assert c in Holds(p);
    case EvictIO(c, op, v) => assert v in Holds(p) && c in Holds(p);
    case EvictFin(c, op, v) => assert v in Holds(p) && c in Holds(p);
    case CleanVictim(c, op, v) => assert v in Holds(p) && c in Holds(p);
    case Populating(c, _) => assert c in Holds(p);
    case Using(c, _) => assert c in Holds(p);
    case Releasing(c, _) => assert c in Holds(p);
    case Dropping(c, next) =>
      assert c in Holds(p);
      if next.UseBuffer? { assert next.c in Holds(p); }
    case CleanIO(c, _) => assert c in Holds(p);
    case CleanFin(c, _) => assert c in Holds(p);
    case _ =>
  }

  lemma HeldWakeups(s: State, t: Tid, img: Image, q: Thread)
    requires Wakeups(s) && HeldChange(s, t, img, q)
    ensures Wakeups(State(img, s.th[t := q]))
  {
    var th := s.th[t := q];
    assert WokenForBuffer(th) == WokenForBuffer(s.th);
    forall c, x | c in img.entries && img.entries[c].busy.None? && x in th && BlockedOn(th[x], Available(c))
      ensures exists w :: w in th && WaitsOn(th[w], c) && th[w].woken
    {
      assert BlockedOn(s.th[x], Available(c));
      var w :| w in s.th && WaitsOn(s.th[w], c) && s.th[w].woken;
      assert th[w] == s.th[w];
    }
  }

  lemma HeldDataKept(s: State, t: Tid, img: Image, q: Thread)
    requires Refs(s) && Shape(s) && Data(s) && HeldChange(s, t, img, q) && HeldOk(img, t, q)
    requires Refs(State(img, s.th[t := q])) && Shape(State(img, s.th[t := q]))
    ensures Data(State(img, s.th[t := q]))
  {
    var s' := State(img, s.th[t := q]);
    forall c | c in img.entries && c !in img.tainted
      ensures DataOk(s', c)
    {
      if c in Holds(q) {
        assert img.entries[c].busy == Some(t);
      } else {
        assert DataOk(s, c);
      }
    }
  }

  /** The invariant is kept by a held change that leaves the held entries in order. */
  lemma HeldInv(s: State, t: Tid, img: Image, q: Thread, cap: nat)
    requires Inv(s, cap) && HeldChange(s, t, img, q) && HeldOk(img, t, q)
    requires Budget(State(img, s.th), cap)
    ensures Inv(State(img, s.th[t := q]), cap)
  {
    HeldRefs(s, t, img, q);
    HeldCounts(s, t, img, q);
    HeldShape(s, t, img, q);
    HeldZombies(s, t, img, q);
    HeldQueues(s, t, img, q);
    HeldPositions(s, t, img, q);
    HeldWakeups(s, t, img, q);
    HeldDataKept(s, t, img, q);
  }

  /** The entries a thread holds, before a step: everything a held change builds on. */
  ghost predicate Local(s: State, t: Tid) {
    && LocalOk(s, t)
    && NoDup(s.img.dirty)
    && (s.img.leaveDirty <==> s.img.tainted != {})
    && forall c :: c in Holds(s.th[t]) ==>
        |s.img.backing[c]| == s.img.chunksize && (c !in s.img.tainted ==> HeldData(s.img, c, s.th[t]))
  }

  lemma InvGivesLocal(s: State, t: Tid, cap: nat)
    requires Inv(s, cap) && t in s.th
    ensures Local(s, t)
  {
    InvLocal(s, t);
    HeldDataBefore(s, t);
  }

  lemma HeldDataBefore(s: State, t: Tid)
    requires Refs(s) && Shape(s) && Data(s) && LocalOk(s, t)
    ensures forall c :: c in Holds(s.th[t]) ==>
              |s.img.backing[c]| == s.img.chunksize && (c !in s.img.tainted ==> HeldData(s.img, c, s.th[t]))
  {
    forall c | c in Holds(s.th[t]) && c !in s.img.tainted
      ensures HeldData(s.img, c, s.th[t])
    {
      assert DataOk(s, c);
    }
  }

  /** Thread t may go from its position to q: it holds the same entries, and plays the same
      part for each of them. */
  ghost predicate SameRoles(s: State, t: Tid, q: Thread) {
    && t in s.th && !Waits(s.th[t]) && !Waits(q) && Holds(q) == Holds(s.th[t])
    && forall c :: c in Holds(q) ==>
        && (MidClean(q, c) <==> MidClean(s.th[t], c))
        && (c !in s.img.tainted ==>
              && (WrittenBack(q, c) ==> WrittenBack(s.th[t], c))
              && (Unmarked(s.th[t], c) ==> Unmarked(q, c))
              && (FillsSoon(s.th[t], c, s.img.chunksize) ==> FillsSoon(q, c, s.img.chunksize)))
  }

  lemma MoveHeld(s: State, t: Tid, q: Thread)
    requires Local(s, t) && SameRoles(s, t, q) && PosOk(s.img, q)
    ensures HeldChange(s, t, s.img, q) && HeldOk(s.img, t, q)
  {
  }

  lemma AllocateHeld(s: State, t: Tid, c: Chunk, op: Op, junk: Bytes)
    requires Local(s, t) && s.th[t] == GotFlag(c, ForIO(op))
    requires c in s.img.entries && s.img.entries[c].data.None? && s.img.allocatable > 0 && |junk| == s.img.chunksize
    ensures HeldChange(s, t, Allocate(s.img, c, junk), AfterBuffer(c, op, s.img.chunksize))
    ensures HeldOk(Allocate(s.img, c, junk), t, AfterBuffer(c, op, s.img.chunksize))
  {
  }

  lemma StartEvictHeld(s: State, t: Tid, c: Chunk, op: Op, v: Chunk)
    requires Local(s, t) && s.th[t] == GotFlag(v, ForVictim(c, op))
    requires v in s.img.entries && s.img.entries[v].dirty
    ensures HeldChange(s, t, LeaveDirtyQueue(s.img, v), EvictIO(c, op, v))
    ensures HeldOk(LeaveDirtyQueue(s.img, v), t, EvictIO(c, op, v))
  {
  }

  lemma StartCleanHeld(s: State, t: Tid, c: Chunk, force: bool)
    requires Local(s, t) && s.th[t] == GotFlag(c, ForClean(force))
    requires c in s.img.entries && s.img.entries[c].dirty
    ensures HeldChange(s, t, LeaveDirtyQueue(s.img, c), CleanIO(c, force))
    ensures HeldOk(LeaveDirtyQueue(s.img, c), t, CleanIO(c, force))
  {
  }

  lemma EvictUpdateHeld(s: State, t: Tid, c: Chunk, op: Op, v: Chunk, o: Outcome)
    requires Local(s, t) && s.th[t] == EvictIO(c, op, v) && OutcomeFits(o, s.img.chunksize)
    requires v in s.img.entries && s.img.entries[v].data.Some?
    ensures HeldChange(s, t, WriteBack(s.img, v, o), EvictFin(c, op, v))
    ensures HeldOk(WriteBack(s.img, v, o), t, EvictFin(c, op, v))
  {
  }

  lemma CleanUpdateHeld(s: State, t: Tid, c: Chunk, force: bool, o: Outcome)
    requires Local(s, t) && s.th[t] == CleanIO(c, force) && OutcomeFits(o, s.img.chunksize)
    requires c in s.img.entries && s.img.entries[c].data.Some?
    ensures HeldChange(s, t, WriteBack(s.img, c, o), CleanFin(c, force))
    ensures HeldOk(WriteBack(s.img, c, o), t, CleanFin(c, force))
  {
  }

  lemma FinishEvictHeld(s: State, t: Tid, c: Chunk, op: Op, v: Chunk)
    requires Local(s, t) && s.th[t] == EvictFin(c, op, v) && v in s.img.entries
    ensures HeldChange(s, t, MarkClean(s.img, v), CleanVictim(c, op, v))
    ensures HeldOk(MarkClean(s.img, v), t, CleanVictim(c, op, v))
  {
  }

  lemma CleanFinishHeld(s: State, t: Tid, c: Chunk, force: bool)
    requires Local(s, t) && s.th[t] == CleanFin(c, force) && c in s.img.entries
    ensures HeldChange(s, t, MarkClean(s.img, c), Dropping(c, NextDirty(force)))
    ensures HeldOk(MarkClean(s.img, c), t, Dropping(c, NextDirty(force)))
  {
  }

  lemma StealHeld(s: State, t: Tid, c: Chunk, op: Op, v: Chunk)
    requires Local(s, t) && s.th[t] == CleanVictim(c, op, v) && c in s.img.entries && v in s.img.entries && c != v
    ensures HeldChange(s, t, Steal(s.img, c, v), Dropping(v, UseBuffer(c, op)))
    ensures HeldOk(Steal(s.img, c, v), t, Dropping(v, UseBuffer(c, op)))
  {
  }

  lemma LoadHeld(s: State, t: Tid, c: Chunk, op: Op, o: Outcome)
    requires Local(s, t) && s.th[t] == Populating(c, op) && OutcomeFits(o, s.img.chunksize)
    requires c in s.img.entries && c in s.img.backing
    ensures HeldChange(s, t, Populate(s.img, c, o), Using(c, op))
    ensures HeldOk(Populate(s.img, c, o), t, Using(c, op))
  {
  }

  lemma FillHeld(s: State, t: Tid, c: Chunk, off: nat, bytes: Bytes)
    requires Local(s, t) && s.th[t] == Using(c, WriteSeg(off, bytes))
    requires c in s.img.entries && s.img.entries[c].data.Some? && off + |bytes| <= |s.img.entries[c].data.value|
    ensures HeldChange(s, t, Fill(s.img, c, off, bytes), Releasing(c, true))
    ensures HeldOk(Fill(s.img, c, off, bytes), t, Releasing(c, true))
  {
  }

  lemma MarkDirtyHeld(s: State, t: Tid, c: Chunk, d: bool)
    requires Local(s, t) && s.th[t] == Releasing(c, d) && c in s.img.entries
    ensures HeldChange(s, t, MarkDirty(s.img, c), Dropping(c, Return))
    ensures HeldOk(MarkDirty(s.img, c), t, Dropping(c, Return))
  {
    assert c in Holds(s.th[t]);
    if !s.img.entries[c].dirty {
      assert c !in s.img.dirty;
      assert NoDup(s.img.dirty + [c]);
    }
  }

  ghost function BudgetSum(img: Image): nat {
    img.allocatable + |Buffered(img)|
  }

  /** The entries with a buffer are the same as before. */
  ghost predicate SameBuffers(img: Image, img': Image) {
    && img'.allocatable == img.allocatable && img'.entries.Keys == img.entries.Keys
    && forall c :: c in img.entries ==> (img'.entries[c].data.Some? <==> img.entries[c].data.Some?)
  }

  lemma SameBudget(img: Image, img': Image)
    requires SameBuffers(img, img')
    ensures BudgetSum(img') == BudgetSum(img)
  {
    assert Buffered(img') == Buffered(img);
  }

  lemma AllocateBudget(img: Image, c: Chunk, junk: Bytes)
    requires c in img.entries && img.entries[c].data.None? && img.allocatable > 0
    ensures BudgetSum(Allocate(img, c, junk)) == BudgetSum(img)
  {
    assert Buffered(Allocate(img, c, junk)) == Buffered(img) + {c};
  }

  lemma StealBudget(img: Image, c: Chunk, v: Chunk)
    requires c in img.entries && v in img.entries && img.entries[c].data.None? && img.entries[v].data.Some?
    ensures BudgetSum(Steal(img, c, v)) == BudgetSum(img)
  {
    assert Buffered(Steal(img, c, v)) == Buffered(img) - {v} + {c};
  }

  /** Step a is a held change that leaves the held entries in order and the budget balanced. */
  ghost predicate HeldEffect(s: State, a: Step)
    requires Enabled(s, a) && Safe(s, a)
  {
    var s' := Apply(s, a);
    && a.t in s'.th && s'.th == s.th[a.t := s'.th[a.t]]
    && HeldChange(s, a.t, s'.img, s'.th[a.t])
    && HeldOk(s'.img, a.t, s'.th[a.t])
    && BudgetSum(s'.img) == BudgetSum(s.img)
  }

  lemma GetBufferEffect(s: State, a: Step)
    requires Local(s, a.t) && Enabled(s, a) && Safe(s, a) && HeldStep(s, a) && a.GetBuffer?
    ensures HeldEffect(s, a)
  {
    hide HeldChange, HeldOk;
    var t := a.t;
    var p := s.th[t];
    if s.img.entries[p.c].data.Some? {
      MoveHeld(s, t, Using(p.c, p.why.op));
    } else {
      AllocateHeld(s, t, p.c, p.why.op, a.junk);
      AllocateBudget(s.img, p.c, a.junk);
    }
  }

  lemma LoadEffect(s: State, a: Step)
    requires Local(s, a.t) && Enabled(s, a) && Safe(s, a) && HeldStep(s, a) && a.Load?
    ensures HeldEffect(s, a)
  {
    hide HeldChange, HeldOk;
    var t := a.t;
    var p := s.th[t];
    LoadHeld(s, t, p.c, p.op, a.o);
    SameBudget(s.img, Populate(s.img, p.c, a.o));
  }

  lemma CopyEffect(s: State, a: Step)
    requires Local(s, a.t) && Enabled(s, a) && Safe(s, a) && HeldStep(s, a) && a.Copy?
    ensures HeldEffect(s, a)
  {
    hide HeldChange, HeldOk;
    var t := a.t;
    var p := s.th[t];
    if s.img.entries[p.c].error || p.op.ReadSeg? {
      MoveHeld(s, t, Releasing(p.c, false));
    } else {
      FillHeld(s, t, p.c, p.op.off, p.op.bytes);
      SameBudget(s.img, Fill(s.img, p.c, p.op.off, p.op.bytes));
    }
  }

  lemma FinishEffect(s: State, a: Step)
    requires Local(s, a.t) && Enabled(s, a) && Safe(s, a) && HeldStep(s, a) && a.Finish?
    ensures HeldEffect(s, a)
  {
    hide HeldChange, HeldOk;
    var t := a.t;
    var p := s.th[t];
    if p.dirtied {
      MarkDirtyHeld(s, t, p.c, p.dirtied);
      SameBudget(s.img, MarkDirty(s.img, p.c));
    } else {
      MoveHeld(s, t, Dropping(p.c, Return));
    }
  }

  lemma StartEvictEffect(s: State, a: Step)
    requires Local(s, a.t) && Enabled(s, a) && Safe(s, a) && HeldStep(s, a) && a.StartEvict?
    ensures HeldEffect(s, a)
  {
    hide HeldChange, HeldOk;
    var t := a.t;
    var p := s.th[t];
    if s.img.entries[p.c].dirty {
      StartEvictHeld(s, t, p.why.c, p.why.op, p.c);
      SameBudget(s.img, LeaveDirtyQueue(s.img, p.c));
    } else {
      MoveHeld(s, t, CleanVictim(p.why.c, p.why.op, p.c));
    }
  }

  lemma EvictUpdateEffect(s: State, a: Step)
    requires Local(s, a.t) && Enabled(s, a) && Safe(s, a) && HeldStep(s, a) && a.EvictUpdate?
    ensures HeldEffect(s, a)
  {
    hide HeldChange, HeldOk;
    var t := a.t;
    var p := s.th[t];
    EvictUpdateHeld(s, t, p.c, p.op, p.v, a.o);
    SameBudget(s.img, WriteBack(s.img, p.v, a.o));
  }

  lemma FinishEvictEffect(s: State, a: Step)
    requires Local(s, a.t) && Enabled(s, a) && Safe(s, a) && HeldStep(s, a) && a.FinishEvict?
    ensures HeldEffect(s, a)
  {
    hide HeldChange, HeldOk;
    var t := a.t;
    var p := s.th[t];
    FinishEvictHeld(s, t, p.c, p.op, p.v);
    SameBudget(s.img, MarkClean(s.img, p.v));
  }

  lemma TakeBufferEffect(s: State, a: Step)
    requires Local(s, a.t) && Enabled(s, a) && Safe(s, a) && HeldStep(s, a) && a.TakeBuffer?
    ensures HeldEffect(s, a)
  {
    hide HeldChange, HeldOk;
    var t := a.t;
    var p := s.th[t];
    StealHeld(s, t, p.c, p.op, p.v);
    StealBudget(s.img, p.c, p.v);
  }

  lemma BeginCleanEffect(s: State, a: Step)
    requires Local(s, a.t) && Enabled(s, a) && Safe(s, a) && HeldStep(s, a) && a.BeginClean?
    ensures HeldEffect(s, a)
  {
    hide HeldChange, HeldOk;
    var t := a.t;
    var p := s.th[t];
    MoveHeld(s, t, CleanLoop(a.force));
  }

  lemma CleanNextEffect(s: State, a: Step)
    requires Local(s, a.t) && Enabled(s, a) && Safe(s, a) && HeldStep(s, a) && a.CleanNext?
    ensures HeldEffect(s, a)
  {
    hide HeldChange, HeldOk;
    var t := a.t;
    var p := s.th[t];
    MoveHeld(s, t, Idle);
  }

  lemma CleanDecideEffect(s: State, a: Step)
    requires Local(s, a.t) && Enabled(s, a) && Safe(s, a) && HeldStep(s, a) && a.CleanDecide?
    ensures HeldEffect(s, a)
  {
    hide HeldChange, HeldOk;
    var t := a.t;
    var p := s.th[t];
    if !s.img.entries[p.c].dirty {
      MoveHeld(s, t, Dropping(p.c, NextDirty(p.why.force)));
    } else if !p.why.force && !a.ripe {
      MoveHeld(s, t, Dropping(p.c, Return));
    } else {
      StartCleanHeld(s, t, p.c, p.why.force);
      SameBudget(s.img, LeaveDirtyQueue(s.img, p.c));
    }
  }

  lemma CleanUpdateEffect(s: State, a: Step)
    requires Local(s, a.t) && Enabled(s, a) && Safe(s, a) && HeldStep(s, a) && a.CleanUpdate?
    ensures HeldEffect(s, a)
  {
    hide HeldChange, HeldOk;
    var t := a.t;
    var p := s.th[t];
    CleanUpdateHeld(s, t, p.c, p.force, a.o);
    SameBudget(s.img, WriteBack(s.img, p.c, a.o));
  }

  lemma CleanFinishEffect(s: State, a: Step)
    requires Local(s, a.t) && Enabled(s, a) && Safe(s, a) && HeldStep(s, a) && a.CleanFinish?
    ensures HeldEffect(s, a)
  {
    hide HeldChange, HeldOk;
    var t := a.t;
    var p := s.th[t];
    CleanFinishHeld(s, t, p.c, p.force);
    SameBudget(s.img, MarkClean(s.img, p.c));
  }

  lemma StepEffect(s: State, a: Step)
    requires Local(s, a.t) && Enabled(s, a) && Safe(s, a) && HeldStep(s, a)
    ensures HeldEffect(s, a)
  {
    hide Local, HeldEffect;
    match a
    case GetBuffer(_, _) => GetBufferEffect(s, a);
    case Load(_, _) => LoadEffect(s, a);
    case Copy(_) => CopyEffect(s, a);
    case Finish(_) => FinishEffect(s, a);
    case StartEvict(_) => StartEvictEffect(s, a);
    case EvictUpdate(_, _) => EvictUpdateEffect(s, a);
    case FinishEvict(_) => FinishEvictEffect(s, a);
    case TakeBuffer(_) => TakeBufferEffect(s, a);
    case BeginClean(_, _) => BeginCleanEffect(s, a);
    case CleanNext(_) => CleanNextEffect(s, a);
    case CleanDecide(_, _) => CleanDecideEffect(s, a);
    case CleanUpdate(_, _) => CleanUpdateEffect(s, a);
    case CleanFinish(_) => CleanFinishEffect(s, a);
  }

  lemma HeldStepInv(s: State, a: Step, cap: nat)
    requires Inv(s, cap) && Enabled(s, a) && Safe(s, a) && HeldStep(s, a)
    ensures Inv(Apply(s, a), cap)
  {
    InvGivesLocal(s, a.t, cap);
    StepEffect(s, a);
    HeldInv(s, a.t, Apply(s, a).img, Apply(s, a).th[a.t], cap);
  }

  /** The steps in which a thread changes only entries it holds. */
  predicate HeldStep(s: State, a: Step) {
    a.t in s.th &&
    match a
    case GetBuffer(_, _) =>
      s.th[a.t].GotFlag? && s.th[a.t].c in s.img.entries && (s.img.entries[s.th[a.t].c].data.Some? || s.img.allocatable > 0)
    case CleanNext(_) => s.img.dirty == []
    case BeginIO(_, _, _) => false
    case Spurious(_) => false
    case Retry(_) => false
    case RetryBuffer(_) => false
    case Drop(_, _) => false
    case _ => true
  }
}
