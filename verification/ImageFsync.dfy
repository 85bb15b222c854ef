/** What one call of do_fsync (parcelkeeper/fuse.c) may rely on, from the state it finds.

    Every write-back stores what the disk shows at that moment. A chunk that is up to date
    in the store when a sync begins therefore stays fresh, whatever the other threads do. A
    chunk that is behind may be taken off the dirty queue by another thread, and the sync
    then returns without waiting for it. */
module ImageFsync {
  import opened Common
  import opened ImageState
  import opened ImageSteps
  import opened ImageInvariant
  import opened ImageHeld
  import opened ImageTheorems
  import opened ImageSync

  // ---- A chunk that is up to date ----

  /** A step leaves a chunk of the store alone, spoils it, or stores what the disk shows of it. */
  lemma StoresWhatShows(s: State, a: Step, c: Chunk, cap: nat)
    requires Inv(s, cap) && Enabled(s, a) && Safe(s, a) && c in s.img.backing
    ensures var s' := Apply(s, a);
      && c in s'.img.backing && s.img.tainted <= s'.img.tainted
      && (c in s'.img.tainted || s'.img.backing[c] == s.img.backing[c] || s'.img.backing[c] == Content(s.img, c))
  {
    hide Inv, Apply, Safe;
    if a.EvictUpdate? || a.CleanUpdate? {
      InvGivesLocal(s, a.t, cap);
      UpdateStores(s, a, c);
    } else {
      SameStore(s, a);
    }
  }

  lemma UpdateStores(s: State, a: Step, c: Chunk)
    requires Local(s, a.t) && Enabled(s, a) && Safe(s, a) && (a.EvictUpdate? || a.CleanUpdate?) && c in s.img.backing
    ensures var s' := Apply(s, a);
      && c in s'.img.backing && s.img.tainted <= s'.img.tainted
      && (c in s'.img.tainted || s'.img.backing[c] == s.img.backing[c] || s'.img.backing[c] == Content(s.img, c))
  {
    var d := if a.EvictUpdate? then s.th[a.t].v else s.th[a.t].c;
    assert d in Holds(s.th[a.t]);
  }

  lemma SameStore(s: State, a: Step)
    requires Enabled(s, a) && Safe(s, a) && !a.EvictUpdate? && !a.CleanUpdate?
    ensures Apply(s, a).img.backing == s.img.backing && s.img.tainted <= Apply(s, a).img.tainted
  {
    hide Without, ValidWake, Overwrite, OpFits, Content, Resume, AfterBuffer, ReleaseSignal;
  }

  lemma {:induction false} InvAlong(states: seq<State>, steps: seq<Step>, cap: nat, n: nat)
    requires Run(states, steps) && Inv(states[0], cap) && n < |states|
    ensures Inv(states[n], cap)
    ensures n < |steps| ==> Enabled(states[n], steps[n]) && Safe(states[n], steps[n]) && states[n + 1] == Apply(states[n], steps[n])
  {
    hide Inv, Safe, Apply, Enabled;
    if n > 0 {
      InvAlong(states, steps, cap, n - 1);
      assert Next(states[n - 1], steps[n - 1], states[n - 1 + 1]);
      NextInv(states[n - 1], steps[n - 1], states[n], cap);
    }
    if n < |steps| {
      assert Next(states[n], steps[n], states[n + 1]);
      NextInv(states[n], steps[n], states[n + 1], cap);
    }
  }

  /** From any reachable state, and whatever steps follow: if the store has what the disk
      shows of a chunk, it keeps having what the disk showed at some moment since. */
  lemma {:induction false} SettledStaysFresh(states: seq<State>, steps: seq<Step>, cap: nat, c: Chunk, n: nat)
    requires Run(states, steps) && Inv(states[0], cap) && n < |states|
    requires c in states[0].img.backing && states[0].img.backing[c] == Content(states[0].img, c)
    requires c !in states[n].img.tainted
    ensures Fresh(states, 0, n, c)
  {
    hide Inv, Safe, Apply, Enabled, Content;
    if n == 0 {
      assert 0 <= 0 <= n && states[n].img.backing[c] == Content(states[0].img, c);
    } else {
      InvAlong(states, steps, cap, n - 1);
      BackingAlong(states, steps, cap, c, n - 1);
      StoresWhatShows(states[n - 1], steps[n - 1], c, cap);
      SettledStaysFresh(states, steps, cap, c, n - 1);
      var m :| 0 <= m <= n - 1 && c in states[m].img.backing && states[n - 1].img.backing[c] == Content(states[m].img, c);
      var k := if states[n].img.backing[c] == states[n - 1].img.backing[c] then m else n - 1;
      assert 0 <= k <= n && c in states[k].img.backing && states[n].img.backing[c] == Content(states[k].img, c);
    }
  }

  lemma {:induction false} BackingAlong(states: seq<State>, steps: seq<Step>, cap: nat, c: Chunk, n: nat)
    requires Run(states, steps) && Inv(states[0], cap) && n < |states| && c in states[0].img.backing
    ensures c in states[n].img.backing
  {
    hide Inv, Safe, Apply, Enabled, Content;
    if n > 0 {
      BackingAlong(states, steps, cap, c, n - 1);
      InvAlong(states, steps, cap, n - 1);
      StoresWhatShows(states[n - 1], steps[n - 1], c, cap);
    }
  }

  // ---- A chunk that is behind ----

  /** Thread t is in the loop of a forced clean. Thread u is idle, or has chunk c off the
      dirty queue and not yet written back. No other thread is inside the cache. */
  ghost predicate Sweeping(s: State, t: Tid, u: Tid, c: Chunk, cap: nat) {
    && Inv(s, cap)
    && t in s.th && u in s.th && t != u && s.th[t] == CleanLoop(true)
    && (s.th[u].Idle? || s.th[u] == CleanIO(c, false))
    && (forall v :: v in s.th && v != t && v != u ==> s.th[v].Idle?)
    && Missed(s, c)
    && (c in s.img.dirty <==> s.th[u].Idle?)
  }

  /** The store does not have what the disk shows of the chunk, and no call failed for it. */
  predicate Missed(s: State, c: Chunk) {
    c in s.img.backing && c in s.img.entries && c !in s.img.tainted && s.img.backing[c] != Content(s.img, c)
  }

  /** The chunk is, in the cache and in the store, as it was. */
  predicate Untouched(s: State, s': State, c: Chunk) {
    && c in s.img.backing && c in s'.img.backing && s'.img.backing[c] == s.img.backing[c]
    && Content(s'.img, c) == Content(s.img, c)
  }

  ghost predicate AllUntouched(s: State, states: seq<State>, c: Chunk) {
    forall i :: 0 <= i < |states| ==> Untouched(s, states[i], c)
  }

  lemma Prepend(s: State, a: Step, states: seq<State>, steps: seq<Step>)
    requires Run(states, steps) && Next(s, a, states[0])
    ensures Run([s] + states, [a] + steps)
  {
    hide Next;
    var (ss, aa) := ([s] + states, [a] + steps);
    forall i {:trigger aa[i]} | 0 <= i < |aa| ensures Next(ss[i], aa[i], ss[i + 1]) {
      if i > 0 { assert Next(states[i - 1], steps[i - 1], states[i - 1 + 1]); }
    }
  }

  /** Thread x, at the top of the cleaning loop, takes the queue's head off the queue. */
  ghost function TookHead(s: State, x: Tid, d: Chunk, force: bool): State
    requires d in s.img.entries
  {
    State(TakeFlag(Enlist(s.img, d), d, x), s.th[x := GotFlag(d, ForClean(force))])
  }

  ghost function TookOff(s: State, x: Tid, d: Chunk, force: bool): (r: State)
    requires d in s.img.entries
    ensures d in r.img.entries && r.img.entries[d].data == s.img.entries[d].data
  {
    State(LeaveDirtyQueue(TookHead(s, x, d, force).img, d), s.th[x := CleanIO(d, force)])
  }

  lemma Dequeues(s: State, x: Tid, d: Chunk, force: bool)
    requires x in s.th && s.th[x] == CleanLoop(force) && s.img.dirty != [] && s.img.dirty[0] == d
    requires d in s.img.entries && s.img.entries[d].busy.None? && s.img.entries[d].dirty
    ensures Next(s, CleanNext(x), TookHead(s, x, d, force))
    ensures Next(TookHead(s, x, d, force), CleanDecide(x, true), TookOff(s, x, d, force))
  {
    var s1 := TookHead(s, x, d, force);
    assert s1.th[x := CleanIO(d, force)] == s.th[x := CleanIO(d, force)];
  }

  /** The states after thread x, in cache_update for chunk d, has written it back and let it go. */
  ghost function WroteBack(s: State, x: Tid, d: Chunk, force: bool): State
    requires d in s.img.entries && s.img.entries[d].data.Some?
  {
    State(WriteBack(s.img, d, Done), s.th[x := CleanFin(d, force)])
  }

  ghost function MarkedClean(s: State, x: Tid, d: Chunk, force: bool): State
    requires d in s.img.entries && s.img.entries[d].data.Some?
  {
    State(MarkClean(WriteBack(s.img, d, Done), d), s.th[x := Dropping(d, NextDirty(force))])
  }

  ghost function LetGo(s: State, x: Tid, d: Chunk, force: bool): State
    requires d in s.img.entries && s.img.entries[d].data.Some?
  {
    State(ReleaseFlag(MarkClean(WriteBack(s.img, d, Done), d), d), s.th[x := CleanLoop(force)])
  }

  lemma Saves(s: State, x: Tid, d: Chunk, force: bool)
    requires x in s.th && s.th[x] == CleanIO(d, force) && d in s.img.entries && s.img.entries[d].data.Some?
    requires forall v :: v in s.th ==> !s.th[v].WaitFlag? && !s.th[v].WaitBuffer?
    ensures Next(s, CleanUpdate(x, Done), WroteBack(s, x, d, force))
    ensures Next(WroteBack(s, x, d, force), CleanFinish(x), MarkedClean(s, x, d, force))
    ensures Next(MarkedClean(s, x, d, force), Drop(x, None), LetGo(s, x, d, force))
  {
    var s3, s4 := WroteBack(s, x, d, force), MarkedClean(s, x, d, force);
    assert s3.th[x := Dropping(d, NextDirty(force))] == s4.th;
    assert s4.th[x := CleanLoop(force)] == s.th[x := CleanLoop(force)];
  }

  /** The head of the dirty queue is not in use: only chunk c may be, and then it is off the queue. */
  lemma HeadIsFree(s: State, t: Tid, u: Tid, c: Chunk, cap: nat)
    requires Sweeping(s, t, u, c, cap) && s.img.dirty != []
    ensures var d := s.img.dirty[0];
      && d in s.img.entries && s.img.entries[d].busy.None? && s.img.entries[d].dirty && s.img.entries[d].data.Some?
      && (d == c ==> s.th[u].Idle?)
  {
    hide Refs, Queues, Shape, Counts, Budget, Positions, Wakeups, Data, NoZombies, Missed;
    FreeHead(s, c);
  }

  lemma FreeHead(s: State, c: Chunk)
    requires Refs(s) && Queues(s) && Shape(s) && s.img.dirty != []
    requires forall v :: v in s.th ==> s.th[v].Idle? || s.th[v].CleanLoop? || (s.th[v] == CleanIO(c, false) && c !in s.img.dirty)
    ensures var d := s.img.dirty[0];
      d in s.img.entries && s.img.entries[d].busy.None? && s.img.entries[d].dirty && s.img.entries[d].data.Some?
  {
    hide Idling, InMidClean;
    var d := s.img.dirty[0];
    assert d in s.img.dirty;
    NobodyHolds(s, d);
  }

  lemma NobodyHolds(s: State, d: Chunk)
    requires Refs(s) && d in s.img.entries && forall v :: v in s.th ==> d !in Holds(s.th[v])
    ensures s.img.entries[d].busy.None?
  {
    hide Holds;
  }

  /** Thread u takes chunk c off the dirty queue and is about to write it back. */
  lemma Grabs(s: State, t: Tid, u: Tid, c: Chunk, cap: nat) returns (s': State)
    requires Sweeping(s, t, u, c, cap) && s.img.dirty != [] && s.img.dirty[0] == c
    ensures Sweeping(s', t, u, c, cap) && |s'.img.dirty| < |s.img.dirty|
    ensures var s0 := s.(th := s.th[u := CleanLoop(false)]);
      var s1 := TookHead(s0, u, c, false);
      && Next(s, BeginClean(u, false), s0) && Next(s0, CleanNext(u), s1) && Next(s1, CleanDecide(u, true), s')
      && Untouched(s, s0, c) && Untouched(s, s1, c) && Untouched(s, s', c)
  {
    hide Inv;
    var s0 := s.(th := s.th[u := CleanLoop(false)]);
    HeadIsFree(s, t, u, c, cap);
    NextInv(s, BeginClean(u, false), s0, cap);
    Dequeues(s0, u, c, false);
    var s1 := TookHead(s0, u, c, false);
    s' := TookOff(s0, u, c, false);
    NextInv(s0, CleanNext(u), s1, cap);
    NextInv(s1, CleanDecide(u, true), s', cap);
    QueueShrinks(s, cap);
  }

  lemma QueueShrinks(s: State, cap: nat)
    requires Inv(s, cap) && s.img.dirty != []
    ensures |Without(s.img.dirty, s.img.dirty[0])| < |s.img.dirty|
  {
  }

  /** Thread t writes the head of the dirty queue back. */
  lemma Cleans(s: State, t: Tid, u: Tid, c: Chunk, cap: nat) returns (s': State)
    requires Sweeping(s, t, u, c, cap) && s.img.dirty != [] && s.img.dirty[0] != c
    requires s.img.dirty[0] in s.img.entries && s.img.entries[s.img.dirty[0]].data.Some?
    ensures Sweeping(s', t, u, c, cap) && |s'.img.dirty| < |s.img.dirty|
    ensures var d := s.img.dirty[0];
      var s1, s2 := TookHead(s, t, d, true), TookOff(s, t, d, true);
      var s3, s4 := WroteBack(s2, t, d, true), MarkedClean(s2, t, d, true);
      && Next(s, CleanNext(t), s1) && Next(s1, CleanDecide(t, true), s2)
      && Next(s2, CleanUpdate(t, Done), s3) && Next(s3, CleanFinish(t), s4) && Next(s4, Drop(t, None), s')
      && Untouched(s, s1, c) && Untouched(s, s2, c) && Untouched(s, s3, c) && Untouched(s, s4, c) && Untouched(s, s', c)
  {
    hide Inv, Next, Content, Without, Enlist, TakeFlag, LeaveDirtyQueue, WriteBack, MarkClean, ReleaseFlag;
    var d := s.img.dirty[0];
    HeadIsFree(s, t, u, c, cap);
    QueueShrinks(s, cap);
    Dequeues(s, t, d, true);
    var s1, s2 := TookHead(s, t, d, true), TookOff(s, t, d, true);
    Saves(s2, t, d, true);
    s' := LetGo(s2, t, d, true);
    RoundEffect(s, t, d, c);
    RoundInv(s, s1, s2, WroteBack(s2, t, d, true), MarkedClean(s2, t, d, true), s', t, cap);
  }

  lemma RoundEffect(s: State, t: Tid, d: Chunk, c: Chunk)
    requires t in s.th && s.th[t] == CleanLoop(true) && d in s.img.entries && s.img.entries[d].data.Some?
    requires Missed(s, c) && d != c
    ensures var s1, s2 := TookHead(s, t, d, true), TookOff(s, t, d, true);
      var s3, s4, s' := WroteBack(s2, t, d, true), MarkedClean(s2, t, d, true), LetGo(s2, t, d, true);
      && Untouched(s, s1, c) && Untouched(s, s2, c) && Untouched(s, s3, c) && Untouched(s, s4, c) && Untouched(s, s', c)
      && s'.th == s.th && s'.img.dirty == Without(s.img.dirty, d) && Missed(s', c)
  {
    hide Without;
    var s1, s2 := TookHead(s, t, d, true), TookOff(s, t, d, true);
    assert s2.img.entries[c] == s.img.entries[c];
  }

  lemma RoundInv(s: State, s1: State, s2: State, s3: State, s4: State, s': State, t: Tid, cap: nat)
    requires Inv(s, cap) && Next(s, CleanNext(t), s1) && Next(s1, CleanDecide(t, true), s2)
    requires Next(s2, CleanUpdate(t, Done), s3) && Next(s3, CleanFinish(t), s4) && Next(s4, Drop(t, None), s')
    ensures Inv(s', cap)
  {
    hide Inv, Next;
    NextInv(s, CleanNext(t), s1, cap);
    NextInv(s1, CleanDecide(t, true), s2, cap);
    NextInv(s2, CleanUpdate(t, Done), s3, cap);
    NextInv(s3, CleanFinish(t), s4, cap);
    NextInv(s4, Drop(t, None), s', cap);
  }

  /** From there thread t can empty the dirty queue while chunk c stays as it is. */
  lemma {:induction false} Sweep(s: State, t: Tid, u: Tid, c: Chunk, cap: nat)
    returns (states: seq<State>, steps: seq<Step>)
    requires Sweeping(s, t, u, c, cap)
    ensures Run(states, steps) && states[0] == s && AllUntouched(s, states, c)
    ensures AboutToReturn(states[|steps|], t) && c !in states[|steps|].img.tainted
    decreases |s.img.dirty|
  {
    hide Inv, Next, Content, TookHead, TookOff, WroteBack, MarkedClean;
    if s.img.dirty == [] {
      states, steps := [s], [];
    } else {
      var d := s.img.dirty[0];
      HeadIsFree(s, t, u, c, cap);
      if d == c {
        var s' := Grabs(s, t, u, c, cap);
        states, steps := Sweep(s', t, u, c, cap);
        var s0 := s.(th := s.th[u := CleanLoop(false)]);
        var s1 := TookHead(s0, u, c, false);
        states, steps := Longer(s, s1, CleanDecide(u, true), states, steps, c);
        states, steps := Longer(s, s0, CleanNext(u), states, steps, c);
        states, steps := Longer(s, s, BeginClean(u, false), states, steps, c);
      } else {
        var s' := Cleans(s, t, u, c, cap);
        states, steps := Sweep(s', t, u, c, cap);
        var s1, s2 := TookHead(s, t, d, true), TookOff(s, t, d, true);
        states, steps := Longer(s, MarkedClean(s2, t, d, true), Drop(t, None), states, steps, c);
        states, steps := Longer(s, WroteBack(s2, t, d, true), CleanFinish(t), states, steps, c);
        states, steps := Longer(s, s2, CleanUpdate(t, Done), states, steps, c);
        states, steps := Longer(s, s1, CleanDecide(t, true), states, steps, c);
        states, steps := Longer(s, s, CleanNext(t), states, steps, c);
      }
    }
  }

  lemma Longer(s: State, first: State, a: Step, states: seq<State>, steps: seq<Step>, c: Chunk)
    returns (states': seq<State>, steps': seq<Step>)
    requires Run(states, steps) && Next(first, a, states[0])
    requires Untouched(s, first, c) && (AllUntouched(s, states, c) || (Untouched(s, states[0], c) && AllUntouched(states[0], states, c)))
    ensures Run(states', steps') && states'[0] == first && AllUntouched(s, states', c)
    ensures states'[|steps'|] == states[|steps|]
  {
    hide Next, Content;
    Prepend(first, a, states, steps);
    states', steps' := [first] + states, [a] + steps;
  }

  // ---- Exactly when ----

  ghost predicate AllIdle(s: State) {
    forall v :: v in s.th ==> s.th[v].Idle?
  }

  /** A run in which a sync begins in state s, and that ends where thread t's sync returns. */
  ghost predicate SyncFrom(states: seq<State>, steps: seq<Step>, s: State, t: Tid, c: Chunk) {
    && Run(states, steps) && states[0] == s
    && steps != [] && steps[0] == BeginClean(t, true)
    && AboutToReturn(states[|steps|], t) && c !in states[|steps|].img.tainted
  }

  lemma MissedIsQueued(s: State, c: Chunk, cap: nat)
    requires Inv(s, cap) && AllIdle(s) && c in s.img.backing && c !in s.img.tainted && s.img.backing[c] != Content(s.img, c)
    ensures c in s.img.entries && c in s.img.dirty
  {
    hide Counts, Budget, Positions, Wakeups, NoZombies, Idling;
    assert DataOk(s, c);
    NobodyHolds(s, c);
  }

  /** The sync of a chunk that is behind may return without having stored it. */
  lemma MissedIsNotFresh(s: State, cap: nat, t: Tid, u: Tid, c: Chunk) returns (states: seq<State>, steps: seq<Step>)
    requires Inv(s, cap) && AllIdle(s) && t in s.th && u in s.th && t != u
    requires c in s.img.backing && c !in s.img.tainted && s.img.backing[c] != Content(s.img, c)
    ensures SyncFrom(states, steps, s, t, c) && !Fresh(states, 0, |steps|, c)
  {
    hide Inv, Content;
    MissedIsQueued(s, c, cap);
    var s1 := s.(th := s.th[t := CleanLoop(true)]);
    NextInv(s, BeginClean(t, true), s1, cap);
    states, steps := Sweep(s1, t, u, c, cap);
    hide Next;
    var last := states[|steps|];
    Prepend(s, BeginClean(t, true), states, steps);
    states, steps := [s] + states, [BeginClean(t, true)] + steps;
    assert states[|steps|] == last;
    assert AllUntouched(s, states, c);
    assert Untouched(s, states[|steps|], c);
  }

  /** On a disk at rest, with another thread about: a sync leaves the store with a chunk as
      the disk showed it at some moment since the sync began, in every run, if and only if
      the store had the chunk when it began. */
  lemma SyncedIff(s: State, cap: nat, t: Tid, u: Tid, c: Chunk)
    requires Inv(s, cap) && AllIdle(s) && t in s.th && u in s.th && t != u && c in s.img.backing && c !in s.img.tainted
    ensures s.img.backing[c] == Content(s.img, c) <==>
            forall states, steps :: SyncFrom(states, steps, s, t, c) ==> Fresh(states, 0, |steps|, c)
  {
    hide Inv, Content, Fresh, AboutToReturn, Next;
    if s.img.backing[c] == Content(s.img, c) {
      forall states, steps | SyncFrom(states, steps, s, t, c) ensures Fresh(states, 0, |steps|, c) {
        SettledStaysFresh(states, steps, cap, c, |steps|);
      }
    } else {
      var states, steps := MissedIsNotFresh(s, cap, t, u, c);
    }
  }
}
