/** The main results about the chunk cache. */
module ImageTheorems {
  import opened Common
  import opened ImageState
  import opened ImageSteps
  import opened ImageInvariant
  import opened ImageHeld
  import opened ImageFlags

  // ---- Every step keeps the invariant ----

  lemma BeginIOInv(s: State, a: Step, cap: nat)
    requires Inv(s, cap) && a.BeginIO? && Enabled(s, a) && Safe(s, a)
    ensures Inv(Apply(s, a), cap)
  {
    LookupCore(s, a.c, cap);
    BeginCanEnter(s, a);
    hide Inv, Core, NoZombies, CanEnter, EnterAcquire, Lookup;
    EnterInv(State(Lookup(s.img, a.c), s.th), a.t, a.c, ForIO(a.op), cap);
  }

  lemma BeginCanEnter(s: State, a: Step)
    requires a.BeginIO? && Enabled(s, a)
    ensures CanEnter(State(Lookup(s.img, a.c), s.th), a.t, a.c, ForIO(a.op))
  {
  }

  lemma CleanNextInv(s: State, a: Step, cap: nat)
    requires Inv(s, cap) && a.CleanNext? && Enabled(s, a) && Safe(s, a) && s.img.dirty != []
    ensures Inv(Apply(s, a), cap)
  {
    CleanCanEnter(s, a);
    CoreSuffices(s, s.img.dirty[0], cap);
    hide Inv, Core, NoZombies, CanEnter, EnterAcquire;
    EnterInv(s, a.t, s.img.dirty[0], ForClean(s.th[a.t].force), cap);
  }

  lemma CleanCanEnter(s: State, a: Step)
    requires Queues(s) && a.CleanNext? && Enabled(s, a) && Safe(s, a) && s.img.dirty != []
    ensures CanEnter(s, a.t, s.img.dirty[0], ForClean(s.th[a.t].force))
  {
    assert s.img.dirty[0] in s.img.dirty;
  }

  lemma CoreSuffices(s: State, c: Chunk, cap: nat)
    requires Inv(s, cap)
    ensures Core(s, cap) && NoZombies(s, Some(c))
  {
    hide Core;
  }

  /** The head of the reclaimable queue is never busy, so the thread that evicts does not wait for it. */
  lemma VictimIsFree(s: State, t: Tid, c: Chunk, op: Op)
    requires Queues(s) && t in s.th && s.img.reclaimable != []
    requires s.th[t] == GotFlag(c, ForIO(op)) || s.th[t] == WaitBuffer(c, op, true)
    requires c in s.img.entries && s.img.entries[c].data.None? && OpFits(op, s.img.chunksize)
    ensures CanEnter(s, t, s.img.reclaimable[0], ForVictim(c, op)) && s.img.entries[s.img.reclaimable[0]].busy.None?
  {
    var v := s.img.reclaimable[0];
    assert v in s.img.reclaimable;
    assert v in s.img.entries && Idling(s.img.entries[v]);
  }

  lemma PickVictimInv(s: State, t: Tid, c: Chunk, op: Op, cap: nat)
    requires Inv(s, cap) && t in s.th
    requires s.th[t] == GotFlag(c, ForIO(op)) || s.th[t] == WaitBuffer(c, op, true)
    requires c in s.img.entries && s.img.entries[c].data.None? && OpFits(op, s.img.chunksize) && s.img.allocatable == 0
    requires s.img.reclaimable != [] ==> s.img.reclaimable[0] in s.img.entries
    ensures Inv(PickVictim(s, t, c, op), cap)
  {
    if s.img.reclaimable == [] {
      BlockInv(s, t, WaitBuffer(c, op, false), cap);
    } else {
      VictimIsFree(s, t, c, op);
      EnterInv(s, t, s.img.reclaimable[0], ForVictim(c, op), cap);
    }
  }

  lemma RetryTakes(s: State, t: Tid)
    requires t in s.th && s.th[t].WaitFlag? && CanGrab(s, t, s.th[t].c, s.th[t].why) && s.th[t].c !in s.img.reclaimable
    ensures var p := s.th[t]; Grabbed(s, t, p.c, p.why) == State(TakeFlag(s.img, p.c, t), s.th[t := GotFlag(p.c, p.why)])
  {
    WithoutAbsent(s.img.reclaimable, s.th[t].c);
  }

  lemma RetryInv(s: State, a: Step, cap: nat)
    requires Inv(s, cap) && a.Retry? && Enabled(s, a) && Safe(s, a)
    ensures Inv(Apply(s, a), cap)
  {
    var p := s.th[a.t];
    assert PosOk(s.img, p);
    if s.img.entries[p.c].busy.Some? {
      BlockInv(s, a.t, WaitFlag(p.c, p.why, false), cap);
    } else {
      RetryTakes(s, a.t);
      GrabInv(s, a.t, p.c, p.why, cap);
    }
  }

  lemma GetBufferInv(s: State, a: Step, cap: nat)
    requires Inv(s, cap) && (a.GetBuffer? || a.RetryBuffer?) && Enabled(s, a) && Safe(s, a) && !HeldStep(s, a)
    ensures Inv(Apply(s, a), cap)
  {
    var p := s.th[a.t];
    assert PosOk(s.img, p);
    PickVictimInv(s, a.t, p.c, if a.GetBuffer? then p.why.op else p.op, cap);
  }

  lemma DropStepInv(s: State, a: Step, cap: nat)
    requires Inv(s, cap) && a.Drop? && Enabled(s, a) && Safe(s, a)
    ensures Inv(Apply(s, a), cap)
  {
    var p := s.th[a.t];
    assert PosOk(s.img, p);
    assert p.c in Holds(p);
    DropInv(s, a.t, p.c, p.next, a.wake, cap);
  }

  lemma StepInv(s: State, a: Step, cap: nat)
    requires Inv(s, cap) && Enabled(s, a) && Safe(s, a)
    ensures Inv(Apply(s, a), cap)
  {
    if HeldStep(s, a) {
      HeldStepInv(s, a, cap);
    } else {
      match a
      case BeginIO(_, _, _) => BeginIOInv(s, a, cap);
      case Spurious(_) => SpuriousInv(s, a.t, cap);
      case Retry(_) => RetryInv(s, a, cap);
      case GetBuffer(_, _) => GetBufferInv(s, a, cap);
      case RetryBuffer(_) => GetBufferInv(s, a, cap);
      case CleanNext(_) => CleanNextInv(s, a, cap);
      case Drop(_, _) => DropStepInv(s, a, cap);
    }
  }

  lemma NextInv(s: State, a: Step, s': State, cap: nat)
    requires Inv(s, cap) && Next(s, a, s')
    ensures Safe(s, a) && Inv(s', cap)
  {
    hide Inv, Safe, Apply, Enabled;
    StepsAreSafe(s, a, cap);
    StepInv(s, a, cap);
  }

  /** In every run that starts with an empty cache, every state satisfies the invariant and
      no step is unsafe: the budget balances, the queues hold exactly the entries they
      should, no freed entry is touched and no g_assert fires. */
  lemma {:induction false} RunInv(states: seq<State>, steps: seq<Step>, cap: nat, n: nat)
    requires Run(states, steps) && Init(states[0], cap) && n < |states|
    ensures Inv(states[n], cap)
    ensures n < |steps| ==> Enabled(states[n], steps[n]) && Safe(states[n], steps[n])
  {
    hide Inv, Safe, Apply, Enabled, Init;
    if n == 0 {
      InitInv(states[0], cap);
    } else {
      RunInv(states, steps, cap, n - 1);
      assert Next(states[n - 1], steps[n - 1], states[n - 1 + 1]);
      NextInv(states[n - 1], steps[n - 1], states[n], cap);
    }
    if n < |steps| {
      assert Next(states[n], steps[n], states[n + 1]);
      NextInv(states[n], steps[n], states[n + 1], cap);
    }
  }

  // ---- The cache never gets stuck ----

  predicate Runnable(p: Thread) {
    !p.Idle? && !Blocked(p)
  }

  /** A step that carries on an operation, without relying on a spurious wakeup. */
  predicate Progress(a: Step) {
    !a.BeginIO? && !a.BeginClean? && !a.Spurious?
  }

  ghost predicate CanProgress(s: State) {
    exists a :: Progress(a) && Enabled(s, a)
  }

  ghost predicate InUse(s: State) {
    exists t :: t in s.th && !s.th[t].Idle?
  }

  ghost predicate SomeRunnable(s: State) {
    exists t :: t in s.th && Runnable(s.th[t])
  }

  /** A thread that holds an entry with a buffer is not blocked. */
  lemma BufferHolderRuns(s: State, c: Chunk)
    requires Refs(s) && Positions(s) && c in s.img.entries && s.img.entries[c].busy.Some? && s.img.entries[c].data.Some?
    ensures SomeRunnable(s)
  {
    var h := s.img.entries[c].busy.value;
    assert c in Holds(s.th[h]) && PosOk(s.img, s.th[h]);
    assert Runnable(s.th[h]);
  }

  lemma FreeEntryWaiterRuns(s: State, c: Chunk, t: Tid)
    requires Wakeups(s) && c in s.img.entries && s.img.entries[c].busy.None? && t in s.th && WaitsOn(s.th[t], c)
    ensures SomeRunnable(s)
  {
    if Blocked(s.th[t]) {
      assert BlockedOn(s.th[t], Available(c));
      var w :| w in s.th && WaitsOn(s.th[w], c) && s.th[w].woken;
      assert Runnable(s.th[w]);
    } else {
      assert Runnable(s.th[t]);
    }
  }

  lemma SetNonEmpty<T>(x: set<T>)
    requires |x| > 0
    ensures exists e :: e in x
  {
    if x == {} {
    }
  }

  /** While a thread is blocked for want of a buffer, a thread that has one is not. */
  lemma BlockedForBuffer(s: State, t: Tid, cap: nat)
    requires Inv(s, cap) && cap >= 1 && t in s.th && BlockedOn(s.th[t], Reclaimable)
    ensures SomeRunnable(s)
  {
    if WokenForBuffer(s.th) != {} {
      var w :| w in WokenForBuffer(s.th);
      assert Runnable(s.th[w]);
    } else {
      assert PosOk(s.img, s.th[t]);
      assert s.img.reclaimable == [];
      BufferOutThere(s, cap);
    }
  }

  lemma BufferOutThere(s: State, cap: nat)
    requires Queues(s) && Budget(s, cap) && Positions(s) && Wakeups(s) && Counts(s)
    requires cap >= 1 && s.img.allocatable == 0 && s.img.reclaimable == []
    ensures SomeRunnable(s)
  {
    SetNonEmpty(Buffered(s.img));
    var c :| c in Buffered(s.img);
    if s.img.entries[c].busy.Some? {
      BufferHolderRuns(s, c);
    } else {
      assert !Idling(s.img.entries[c]);
      SetNonEmpty(Waiting(s.th, c));
      var w :| w in Waiting(s.th, c);
      FreeEntryWaiterRuns(s, c, w);
    }
  }

  lemma BlockedForFlag(s: State, t: Tid, cap: nat)
    requires Inv(s, cap) && cap >= 1 && t in s.th && s.th[t].WaitFlag?
    ensures SomeRunnable(s)
  {
    var c := s.th[t].c;
    if s.img.entries[c].busy.None? {
      FreeEntryWaiterRuns(s, c, t);
    } else {
      var h := s.img.entries[c].busy.value;
      assert c in Holds(s.th[h]) && PosOk(s.img, s.th[h]);
      if Blocked(s.th[h]) {
        BlockedForBuffer(s, h, cap);
      } else {
        assert Runnable(s.th[h]);
      }
    }
  }

  lemma SomeoneRuns(s: State, cap: nat)
    requires Inv(s, cap) && cap >= 1 && InUse(s)
    ensures SomeRunnable(s)
  {
    var t :| t in s.th && !s.th[t].Idle?;
    if s.th[t].WaitFlag? {
      BlockedForFlag(s, t, cap);
    } else if BlockedOn(s.th[t], Reclaimable) {
      BlockedForBuffer(s, t, cap);
    } else {
      assert Runnable(s.th[t]);
    }
  }

  lemma WakeExists(th: Threads, sig: Signal) returns (wake: Option<Tid>)
    ensures ValidWake(th, sig, wake)
  {
    if w :| w in th && BlockedOn(th[w], sig) {
      wake := Some(w);
    } else {
      wake := None;
    }
  }

  lemma RunnableSteps(s: State, t: Tid) returns (a: Step)
    requires t in s.th && Runnable(s.th[t])
    ensures a.t == t && Progress(a) && Enabled(s, a)
  {
    var p := s.th[t];
    match p
    case WaitFlag(_, _, _) => a := Retry(t);
    case GotFlag(_, ForIO(_)) => a := GetBuffer(t, seq(s.img.chunksize, _ => 0));
    case GotFlag(_, ForVictim(_, _)) => a := StartEvict(t);
    case GotFlag(_, ForClean(_)) => a := CleanDecide(t, true);
    case WaitBuffer(_, _, _) => a := RetryBuffer(t);
    case EvictIO(_, _, _) => a := EvictUpdate(t, Done);
    case EvictFin(_, _, _) => a := FinishEvict(t);
    case CleanVictim(_, _, _) => a := TakeBuffer(t);
    case Populating(_, _) => a := Load(t, Done);
    case Using(_, _) => a := Copy(t);
    case Releasing(_, _) => a := Finish(t);
    case Dropping(c, _) =>
      var wake := WakeExists(s.th, if c in s.img.entries then ReleaseSignal(s.img, c) else NoSignal);
      a := Drop(t, wake);
    case CleanLoop(_) => a := CleanNext(t);
    case CleanIO(_, _) => a := CleanUpdate(t, Done);
    case CleanFin(_, _) => a := CleanFinish(t);
  }

  /** In every run with at least one buffer of capacity, whenever some operation is under
      way, some thread can carry on, and it does not need a spurious wakeup to do so. */
  lemma NeverStuck(states: seq<State>, steps: seq<Step>, cap: nat, n: nat)
    requires Run(states, steps) && Init(states[0], cap) && n < |states| && cap >= 1
    ensures InUse(states[n]) ==> CanProgress(states[n])
  {
    if InUse(states[n]) {
      RunInv(states, steps, cap, n);
      SomeoneRuns(states[n], cap);
      var t :| t in states[n].th && Runnable(states[n].th[t]);
      var a := RunnableSteps(states[n], t);
    }
  }

  /** With no capacity at all the first read of a chunk leaves the cache stuck. */
  lemma StuckWithoutBuffers(s: State, t: Tid, c: Chunk) returns (states: seq<State>, steps: seq<Step>)
    requires Init(s, 0) && t in s.th && c in s.img.backing
    ensures Run(states, steps) && states[0] == s
    ensures InUse(states[|steps|]) && !CanProgress(states[|steps|])
  {
    var op := ReadSeg(0, 0);
    var a1, a2 := BeginIO(t, c, op), GetBuffer(t, s.img.backing[c]);
    var s1 := Apply(s, a1);
    assert s1.th == s.th[t := GotFlag(c, ForIO(op))];
    var s2 := Apply(s1, a2);
    assert s2.th == s.th[t := WaitBuffer(c, op, false)];
    states, steps := [s, s1, s2], [a1, a2];
    assert Next(s, a1, s1) && Next(s1, a2, s2);
    assert !s2.th[t].Idle?;
    forall a | Enabled(s2, a)
      ensures !Progress(a)
    {
      assert s2.th[a.t].Idle? || s2.th[a.t] == WaitBuffer(c, op, false);
    }
  }

  /** image_init: megabytes of cache times whole chunks in a megabyte, as a 32-bit number. */
  function InitialBudget(chunkCache: nat, chunksize: nat): nat
    requires chunksize > 0
  {
    chunkCache * (0x10_0000 / chunksize) % 0x1_0000_0000
  }

  /** A configuration never gets stuck if and only if that product does not wrap to zero. It
      does for chunks above 1 MiB, and for 2^21 megabytes of cache with chunks of 512 bytes. */
  lemma NeverStuckIff(s: State, chunkCache: nat, t: Tid, c: Chunk)
    requires s.img.chunksize > 0
    requires Init(s, InitialBudget(chunkCache, s.img.chunksize)) && t in s.th && c in s.img.backing
    ensures chunkCache * (0x10_0000 / s.img.chunksize) % 0x1_0000_0000 != 0 <==>
            forall states, steps :: Run(states, steps) && states[0] == s && InUse(states[|steps|]) ==> CanProgress(states[|steps|])
  {
    hide CanProgress, InUse, Init;
    var cap := InitialBudget(chunkCache, s.img.chunksize);
    if cap != 0 {
      forall states, steps | Run(states, steps) && states[0] == s
        ensures InUse(states[|steps|]) ==> CanProgress(states[|steps|])
      {
        RunLength(states, steps);
        NeverStuck(states, steps, cap, |steps|);
      }
    } else {
      var states, steps := StuckWithoutBuffers(s, t, c);
    }
  }

  lemma RunLength(states: seq<State>, steps: seq<Step>)
    requires Run(states, steps)
    ensures |states| == |steps| + 1
  {
  }

  // ---- The cache is a flat disk ----

  /** What one step does to the bytes of one chunk, and what it returns of them. */
  ghost predicate StepIsFlat(s: State, a: Step, c: Chunk)
    requires Enabled(s, a) && Safe(s, a)
  {
    var s' := Apply(s, a);
    var ev := EventOf(s, a);
    && c in s.img.backing && c in s'.img.backing
    && s.img.tainted <= s'.img.tainted
    && (c !in s'.img.tainted ==>
          match ev
          case DidWrite(d, off, bytes) =>
            if d == c
            then off + |bytes| <= |Content(s.img, c)| && Content(s'.img, c) == Overwrite(Content(s.img, c), off, bytes)
            else Content(s'.img, c) == Content(s.img, c)
          case DidRead(d, off, bytes) =>
            && Content(s'.img, c) == Content(s.img, c)
            && (d == c ==> off + |bytes| <= |Content(s.img, c)| && bytes == Content(s.img, c)[off..off + |bytes|])
          case Silent => Content(s'.img, c) == Content(s.img, c))
  }

  lemma LoadIsFlat(s: State, a: Step, c: Chunk)
    requires Local(s, a.t) && Enabled(s, a) && Safe(s, a) && HeldStep(s, a) && c in s.img.backing
    requires a.GetBuffer? || a.Load?
    ensures StepIsFlat(s, a, c)
  {
    assert s.th[a.t].c in Holds(s.th[a.t]);
  }

  lemma CopyIsFlat(s: State, a: Step, c: Chunk)
    requires Local(s, a.t) && Enabled(s, a) && Safe(s, a) && HeldStep(s, a) && c in s.img.backing
    requires a.Copy? || a.Finish?
    ensures StepIsFlat(s, a, c)
  {
    assert s.th[a.t].c in Holds(s.th[a.t]);
  }

  lemma UseIsFlat(s: State, a: Step, c: Chunk)
    requires Local(s, a.t) && Enabled(s, a) && Safe(s, a) && HeldStep(s, a) && c in s.img.backing
    requires a.GetBuffer? || a.Load? || a.Copy? || a.Finish?
    ensures StepIsFlat(s, a, c)
  {
    hide Local, Safe, HeldStep, StepIsFlat;
    if a.GetBuffer? || a.Load? {
      LoadIsFlat(s, a, c);
    } else {
      CopyIsFlat(s, a, c);
    }
  }

  lemma EvictIsFlat(s: State, a: Step, c: Chunk)
    requires Local(s, a.t) && Enabled(s, a) && Safe(s, a) && HeldStep(s, a) && c in s.img.backing
    requires a.StartEvict? || a.EvictUpdate? || a.FinishEvict? || a.TakeBuffer?
    ensures StepIsFlat(s, a, c)
  {
    var p := s.th[a.t];
    assert p.c in Holds(p);
    if !a.StartEvict? {
      assert p.v in Holds(p);
    }
  }

  lemma CleanIsFlat(s: State, a: Step, c: Chunk)
    requires Local(s, a.t) && Enabled(s, a) && Safe(s, a) && c in s.img.backing
    requires a.BeginClean? || a.CleanDecide? || a.CleanUpdate? || a.CleanFinish?
    ensures StepIsFlat(s, a, c)
  {
  }

  lemma EnterIsFlat(s: State, a: Step, c: Chunk)
    requires Local(s, a.t) && Enabled(s, a) && Safe(s, a) && c in s.img.backing
    requires a.BeginIO? || a.CleanNext? || a.Retry?
    ensures StepIsFlat(s, a, c)
  {
    hide Local, HeldData, PosOk;
  }

  lemma WaitIsFlat(s: State, a: Step, c: Chunk)
    requires Local(s, a.t) && Enabled(s, a) && Safe(s, a) && c in s.img.backing
    requires a.Spurious? || a.GetBuffer? || a.RetryBuffer? || a.Drop?
    requires a.GetBuffer? ==> !HeldStep(s, a)
    ensures StepIsFlat(s, a, c)
  {
  }

  lemma EveryStepIsFlat(s: State, a: Step, cap: nat)
    requires Inv(s, cap) && Enabled(s, a) && Safe(s, a)
    ensures forall c :: c in s.img.backing ==> StepIsFlat(s, a, c)
  {
    InvGivesLocal(s, a.t, cap);
    hide Inv, StepIsFlat;
    forall c | c in s.img.backing
      ensures StepIsFlat(s, a, c)
    {
      OneStepIsFlat(s, a, c);
    }
  }

  lemma OneStepIsFlat(s: State, a: Step, c: Chunk)
    requires Local(s, a.t) && Enabled(s, a) && Safe(s, a) && c in s.img.backing
    ensures StepIsFlat(s, a, c)
  {
    hide StepIsFlat;
    if a.StartEvict? || a.EvictUpdate? || a.FinishEvict? || a.TakeBuffer? {
      EvictIsFlat(s, a, c);
    } else if a.BeginClean? || a.CleanDecide? || a.CleanUpdate? || a.CleanFinish? {
      CleanIsFlat(s, a, c);
    } else if a.BeginIO? || a.CleanNext? || a.Retry? {
      EnterIsFlat(s, a, c);
    } else if a.Load? || a.Copy? || a.Finish? || (a.GetBuffer? && HeldStep(s, a)) {
      UseIsFlat(s, a, c);
    } else {
      WaitIsFlat(s, a, c);
    }
  }

  /** The events of a run. An unsafe step shows nothing; by RunInv there is none. */
  ghost function Events(states: seq<State>, steps: seq<Step>): seq<Event>
    requires |states| == |steps| + 1
  {
    seq(|steps|, i requires 0 <= i < |steps| => SafeEvent(states[i], steps[i]))
  }

  ghost function SafeEvent(s: State, a: Step): Event {
    if Enabled(s, a) && Safe(s, a) then EventOf(s, a) else Silent
  }

  /** A disk without a cache: the bytes of one chunk, after the given events. */
  function FlatDisk(initial: Bytes, c: Chunk, evs: seq<Event>): Bytes {
    if evs == [] then initial
    else
      var before := FlatDisk(initial, c, evs[..|evs| - 1]);
      match evs[|evs| - 1]
      case DidWrite(d, off, bytes) => if d == c && off + |bytes| <= |before| then Overwrite(before, off, bytes) else before
      case _ => before
  }

  /** A read returned what the chunk of the flat disk held at that time. */
  ghost predicate ReadIsRight(initial: Bytes, c: Chunk, evs: seq<Event>, k: nat)
    requires k < |evs|
  {
    evs[k].DidRead? && evs[k].c == c ==>
      var disk := FlatDisk(initial, c, evs[..k]);
      evs[k].off + |evs[k].bytes| <= |disk| && evs[k].bytes == disk[evs[k].off..evs[k].off + |evs[k].bytes|]
  }

  lemma FlatStart(s: State, cap: nat, c: Chunk, evs: seq<Event>)
    requires Init(s, cap) && c in s.img.backing
    ensures Content(s.img, c) == FlatDisk(s.img.backing[c], c, evs[..0])
  {
  }

  lemma FlatStep(s: State, a: Step, s': State, c: Chunk, initial: Bytes, evs: seq<Event>, n: nat)
    requires Enabled(s, a) && Safe(s, a) && s' == Apply(s, a) && StepIsFlat(s, a, c) && c !in s'.img.tainted
    requires n < |evs| && evs[n] == EventOf(s, a)
    requires Content(s.img, c) == FlatDisk(initial, c, evs[..n])
    ensures Content(s'.img, c) == FlatDisk(initial, c, evs[..n + 1])
    ensures ReadIsRight(initial, c, evs, n)
  {
    hide Enabled, Safe, Apply, EventOf;
    assert evs[..n + 1][..n] == evs[..n];
  }

  /** In every run, for every chunk whose backing calls have all succeeded: the cache shows
      the bytes that a flat disk would show, and every read of the chunk returned what the
      flat disk held at the time. */
  lemma {:induction false} CacheIsFlatDisk(states: seq<State>, steps: seq<Step>, cap: nat, c: Chunk, n: nat)
    requires Run(states, steps) && Init(states[0], cap) && c in states[0].img.backing && n < |states|
    requires c !in states[n].img.tainted
    ensures c in states[n].img.backing
    ensures Content(states[n].img, c) == FlatDisk(states[0].img.backing[c], c, Events(states, steps)[..n])
    ensures forall k :: 0 <= k < n ==> ReadIsRight(states[0].img.backing[c], c, Events(states, steps), k)
  {
    hide Inv, Enabled, Safe, Apply, EventOf, FlatDisk, ReadIsRight, Content, Init;
    if n == 0 {
      FlatStart(states[0], cap, c, Events(states, steps));
    } else {
      var initial, evs := states[0].img.backing[c], Events(states, steps);
      RunInv(states, steps, cap, n - 1);
      var s, a, s' := states[n - 1], steps[n - 1], states[n];
      assert Next(s, a, states[n - 1 + 1]);
      BackingKept(states, steps, cap, c, n - 1);
      EveryStepIsFlat(s, a, cap);
      assert StepIsFlat(s, a, c);
      CacheIsFlatDisk(states, steps, cap, c, n - 1);
      FlatStep(s, a, s', c, initial, evs, n - 1);
    }
  }

  lemma {:induction false} BackingKept(states: seq<State>, steps: seq<Step>, cap: nat, c: Chunk, n: nat)
    requires Run(states, steps) && Init(states[0], cap) && c in states[0].img.backing && n < |states|
    ensures c in states[n].img.backing
  {
    hide Inv, Enabled, Safe, Apply, EventOf, Content, Init;
    if n > 0 {
      BackingKept(states, steps, cap, c, n - 1);
      RunInv(states, steps, cap, n - 1);
      assert Next(states[n - 1], steps[n - 1], states[n - 1 + 1]);
      EveryStepIsFlat(states[n - 1], steps[n - 1], cap);
      assert StepIsFlat(states[n - 1], steps[n - 1], c);
    }
  }
}
