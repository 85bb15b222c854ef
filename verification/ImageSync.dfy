/** What image_sync promises while other threads are inside the cache.

    do_fsync (parcelkeeper/fuse.c) calls it beside readers, writers and the cleaner.
    entry_clean takes an entry off the dirty queue before it writes the entry back, so a
    forced clean may find the queue empty while another thread still has a chunk to write. */
module ImageSync {
  import opened Common
  import opened ImageState
  import opened ImageSteps
  import opened ImageInvariant
  import opened ImageTheorems

  /** The thread's forced clean finds the dirty queue empty: its next step returns. */
  ghost predicate AboutToReturn(s: State, t: Tid) {
    t in s.th && s.th[t] == CleanLoop(true) && s.img.dirty == []
  }

  /** A thread has yet to write the chunk back, or to mark it dirty, and is about to. */
  predicate Unsaved(p: Thread, c: Chunk) {
    (p.EvictIO? && p.v == c) || (p.CleanIO? && p.c == c) || Unmarked(p, c)
  }

  ghost predicate InFlight(s: State, c: Chunk) {
    exists h :: h in s.th && Unsaved(s.th[h], c)
  }

  /** The backing store does not have the bytes of the chunk's buffer. */
  predicate Behind(img: Image, c: Chunk) {
    c in img.entries && c in img.backing && img.entries[c].data != Some(img.backing[c])
  }

  lemma NotQueuedIsSaved(s: State, c: Chunk, cap: nat)
    requires Inv(s, cap) && s.img.dirty == [] && c in s.img.backing && c !in s.img.tainted
    requires !InFlight(s, c)
    ensures s.img.backing[c] == Content(s.img, c)
  {
    if c in s.img.entries {
      assert DataOk(s, c);
      if s.img.entries[c].dirty {
        assert c !in s.img.dirty;
        assert InMidClean(s, c);
      }
    }
  }

  lemma InFlightShows(s: State, c: Chunk)
    requires Refs(s) && Shape(s) && Positions(s) && Data(s)
    requires c in s.img.backing && c !in s.img.tainted && InFlight(s, c)
    ensures c in s.img.entries && s.img.entries[c].data == Some(Content(s.img, c))
  {
    var h :| h in s.th && Unsaved(s.th[h], c);
    assert c in Holds(s.th[h]);
    assert PosOk(s.img, s.th[h]) && DataOk(s, c) by {
      hide PosOk, DataOk;
    }
    HolderShows(s, c, h);
  }

  lemma HolderShows(s: State, c: Chunk, h: Tid)
    requires Refs(s) && c in s.img.entries && c in s.img.backing && s.img.entries[c].busy == Some(h) && h in s.th
    requires Unsaved(s.th[h], c) && PosOk(s.img, s.th[h]) && DataOk(s, c)
    ensures s.img.entries[c].data == Some(Content(s.img, c))
  {
    hide Refs;
  }

  /** In every run, when a sync is about to return, a chunk whose backing calls have all
      succeeded has the bytes of every write so far in the backing store, exactly unless
      some thread has the chunk in hand and its buffer differs from the store. */
  lemma SyncedUnlessInFlight(states: seq<State>, steps: seq<Step>, cap: nat, n: nat, t: Tid, c: Chunk)
    requires Run(states, steps) && Init(states[0], cap) && n < |states| && AboutToReturn(states[n], t)
    requires c in states[0].img.backing && c !in states[n].img.tainted
    ensures c in states[n].img.backing
    ensures states[n].img.backing[c] == FlatDisk(states[0].img.backing[c], c, Events(states, steps)[..n])
            <==> !(InFlight(states[n], c) && Behind(states[n].img, c))
  {
    hide Init, Run, FlatDisk, Events, ReadIsRight;
    RunInv(states, steps, cap, n);
    CacheIsFlatDisk(states, steps, cap, c, n);
    if InFlight(states[n], c) {
      InFlightShows(states[n], c);
    } else {
      NotQueuedIsSaved(states[n], c, cap);
    }
  }

  /** A chunk in hand is written back by the next step of the thread that has it, if it is
      already off the dirty queue. */
  lemma InFlightLands(s: State, a: Step, c: Chunk, cap: nat)
    requires Inv(s, cap) && Enabled(s, a) && Safe(s, a) && Unsaved(s.th[a.t], c) && !Unmarked(s.th[a.t], c)
    ensures c in Apply(s, a).img.backing
    ensures c !in Apply(s, a).img.tainted ==> Apply(s, a).img.backing[c] == Content(Apply(s, a).img, c) == Content(s.img, c)
  {
    assert c in Holds(s.th[a.t]);
    if c !in s.img.tainted {
      assert DataOk(s, c);
    }
  }

  // ---- A sync that returns too early ----

  /** What a sync begun by step i owes its caller at state n: the store has the chunk as the
      disk showed it at some moment since. */
  ghost predicate Fresh(states: seq<State>, i: nat, n: nat, c: Chunk)
    requires n < |states|
  {
    exists m :: i <= m <= n && c in states[m].img.backing && c in states[n].img.backing &&
                states[n].img.backing[c] == Content(states[m].img, c)
  }

  /** Every sync of the run that is about to return at its end has done what it owes. */
  ghost predicate SyncsAreFresh(states: seq<State>, steps: seq<Step>)
    requires |states| == |steps| + 1
  {
    forall i, t, c :: 0 <= i < |steps| && steps[i] == BeginClean(t, true) && AboutToReturn(states[|steps|], t) &&
                      c in states[0].img.backing && c !in states[|steps|].img.tainted ==>
                      Fresh(states, i, |steps|, c)
  }

  /** Only chunk c is in the cache, and only thread t inside it. */
  ghost function Alone(s: State, t: Tid, c: Chunk, e: Entry, left: nat, queue: seq<Chunk>, p: Thread): State {
    State(s.img.(entries := map[c := e], allocatable := left, dirty := queue), s.th[t := p])
  }

  lemma WriteBegins(s: State, t: Tid, c: Chunk, op: Op, cap: nat)
    requires Init(s, cap) && cap >= 1 && t in s.th && c in s.img.backing
    requires op.WriteSeg? && op.off == 0 && |op.bytes| == s.img.chunksize
    ensures var e := FreshEntry().(busy := Some(t));
      var s1 := Alone(s, t, c, e, cap, [], GotFlag(c, ForIO(op)));
      var s2 := Alone(s, t, c, e.(data := Some(s.img.backing[c])), cap - 1, [], Using(c, op));
      Next(s, BeginIO(t, c, op), s1) && Next(s1, GetBuffer(t, s.img.backing[c]), s2)
  {
  }

  lemma WriteCopies(s: State, t: Tid, c: Chunk, op: Op, left: nat)
    requires t in s.th && c in s.img.backing && |s.img.backing[c]| == s.img.chunksize
    requires op.WriteSeg? && op.off == 0 && |op.bytes| == s.img.chunksize
    ensures var e := FreshEntry().(busy := Some(t));
      var s2 := Alone(s, t, c, e.(data := Some(s.img.backing[c])), left, [], Using(c, op));
      var s3 := Alone(s, t, c, e.(data := Some(op.bytes), loaded := true), left, [], Releasing(c, true));
      Next(s2, Copy(t), s3)
  {
    assert Overwrite(s.img.backing[c], 0, op.bytes) == op.bytes;
  }

  /** The cache after a write of a whole chunk has ended. */
  ghost function Written(s: State, c: Chunk, bytes: Bytes, left: nat): State {
    State(s.img.(entries := map[c := Entry(None, 0, Some(bytes), true, false, true)], allocatable := left,
          dirty := [c], reclaimable := [c]), s.th)
  }

  lemma WriteEnds(s: State, t: Tid, c: Chunk, bytes: Bytes, cap: nat)
    requires Init(s, cap) && cap >= 1 && t in s.th
    ensures var e := Entry(Some(t), 0, Some(bytes), false, false, true);
      var s3 := Alone(s, t, c, e, cap - 1, [], Releasing(c, true));
      var s4 := Alone(s, t, c, e.(dirty := true), cap - 1, [c], Dropping(c, Return));
      Next(s3, Finish(t), s4) && Next(s4, Drop(t, None), Written(s, c, bytes, cap - 1))
  {
    var e := Entry(Some(t), 0, Some(bytes), true, false, true);
    var s4 := Alone(s, t, c, e, cap - 1, [c], Dropping(c, Return));
    assert s4.th[t := Idle] == s.th;
  }

  lemma CleanerTakes(s: State, u: Tid, c: Chunk, bytes: Bytes, cap: nat)
    requires Init(s, cap) && cap >= 1 && u in s.th
    ensures var s5 := Written(s, c, bytes, cap - 1);
      var s6 := s5.(th := s.th[u := CleanLoop(false)]);
      var s7 := Alone(s, u, c, Entry(Some(u), 0, Some(bytes), true, false, true), cap - 1, [c], GotFlag(c, ForClean(false)));
      Next(s5, BeginClean(u, false), s6) && Next(s6, CleanNext(u), s7)
  {
    var s6 := Written(s, c, bytes, cap - 1).(th := s.th[u := CleanLoop(false)]);
    WithoutHead(c);
    assert Apply(s6, CleanNext(u)).img.entries == map[c := Entry(Some(u), 0, Some(bytes), true, false, true)];
    assert s6.th[u := GotFlag(c, ForClean(false))] == s.th[u := GotFlag(c, ForClean(false))];
  }

  lemma CleanerStarts(s: State, u: Tid, c: Chunk, bytes: Bytes, left: nat)
    requires u in s.th
    ensures var e := Entry(Some(u), 0, Some(bytes), true, false, true);
      var s7 := Alone(s, u, c, e, left, [c], GotFlag(c, ForClean(false)));
      Next(s7, CleanDecide(u, true), Alone(s, u, c, e, left, [], CleanIO(c, false)))
  {
    var s7 := Alone(s, u, c, Entry(Some(u), 0, Some(bytes), true, false, true), left, [c], GotFlag(c, ForClean(false)));
    WithoutHead(c);
    assert s7.th[u := CleanIO(c, false)] == s.th[u := CleanIO(c, false)];
  }

  lemma WithoutHead(c: Chunk)
    ensures Without([c], c) == []
  {
    assert [c][1..] == [];
  }

  /** The states of a run in which thread t writes a chunk, thread u starts to write it back,
      and thread t asks for a sync. */
  ghost function EarlyStates(s: State, t: Tid, u: Tid, c: Chunk, bytes: Bytes, cap: nat): seq<State>
    requires cap >= 1 && c in s.img.backing
  {
    var e := Entry(Some(t), 0, None, false, false, false);
    var e' := Entry(Some(u), 0, Some(bytes), true, false, true);
    var s5 := Written(s, c, bytes, cap - 1);
    var s8 := Alone(s, u, c, e', cap - 1, [], CleanIO(c, false));
    [s,
     Alone(s, t, c, e, cap, [], GotFlag(c, ForIO(WriteSeg(0, bytes)))),
     Alone(s, t, c, e.(data := Some(s.img.backing[c])), cap - 1, [], Using(c, WriteSeg(0, bytes))),
     Alone(s, t, c, e.(data := Some(bytes), loaded := true), cap - 1, [], Releasing(c, true)),
     Alone(s, t, c, e.(data := Some(bytes), loaded := true, dirty := true), cap - 1, [c], Dropping(c, Return)),
     s5,
     s5.(th := s.th[u := CleanLoop(false)]),
     Alone(s, u, c, e', cap - 1, [c], GotFlag(c, ForClean(false))),
     s8,
     s8.(th := s8.th[t := CleanLoop(true)])]
  }

  ghost function EarlySteps(s: State, t: Tid, u: Tid, c: Chunk, bytes: Bytes): seq<Step>
    requires c in s.img.backing
  {
    [BeginIO(t, c, WriteSeg(0, bytes)), GetBuffer(t, s.img.backing[c]), Copy(t), Finish(t), Drop(t, None),
     BeginClean(u, false), CleanNext(u), CleanDecide(u, true), BeginClean(t, true)]
  }

  lemma EarlyRun(s: State, t: Tid, u: Tid, c: Chunk, bytes: Bytes, cap: nat)
    requires Init(s, cap) && cap >= 1 && t in s.th && u in s.th && t != u && c in s.img.backing
    requires |bytes| == s.img.chunksize
    ensures Run(EarlyStates(s, t, u, c, bytes, cap), EarlySteps(s, t, u, c, bytes))
  {
    hide Next, Init, Alone, Written, AboutToReturn, Content;
    InitSizes(s, cap);
    WriteBegins(s, t, c, WriteSeg(0, bytes), cap);
    WriteCopies(s, t, c, WriteSeg(0, bytes), cap - 1);
    WriteEnds(s, t, c, bytes, cap);
    CleanerTakes(s, u, c, bytes, cap);
    CleanerStarts(s, u, c, bytes, cap - 1);
    SyncBegins(s, t, u, c, bytes, cap);
  }

  lemma SyncBegins(s: State, t: Tid, u: Tid, c: Chunk, bytes: Bytes, cap: nat)
    requires Init(s, cap) && cap >= 1 && t in s.th && u in s.th && t != u && c in s.img.backing
    ensures var states := EarlyStates(s, t, u, c, bytes, cap);
      && Next(states[8], BeginClean(t, true), states[9])
      && states[8].th[t].Idle? && AboutToReturn(states[9], t) && states[9].img.tainted == {}
      && states[9].img.backing == s.img.backing == states[8].img.backing
      && Content(states[8].img, c) == Content(states[9].img, c) == bytes
  {
  }

  lemma InitSizes(s: State, cap: nat)
    requires Init(s, cap)
    ensures forall c :: c in s.img.backing ==> |s.img.backing[c]| == s.img.chunksize
  {
  }

  /** A thread writes a chunk and its write returns. The cleaner takes the chunk off the dirty
      queue. Then the thread asks for a sync, which returns before the chunk is in the store. */
  lemma SyncReturnsEarly(s: State, t: Tid, u: Tid, c: Chunk, bytes: Bytes, cap: nat)
    returns (states: seq<State>, steps: seq<Step>)
    requires Init(s, cap) && cap >= 1 && t in s.th && u in s.th && t != u && c in s.img.backing
    requires |bytes| == s.img.chunksize && bytes != s.img.backing[c]
    ensures Run(states, steps) && states[0] == s && |steps| == 9 && steps[8] == BeginClean(t, true)
    ensures states[8].th[t].Idle? && AboutToReturn(states[9], t) && states[9].img.tainted == {}
    ensures c in states[8].img.backing && c in states[9].img.backing
    ensures Content(states[8].img, c) == Content(states[9].img, c) == bytes != states[9].img.backing[c]
    ensures !SyncsAreFresh(states, steps)
  {
    hide Run, Init, Next, Content, AboutToReturn;
    states, steps := EarlyStates(s, t, u, c, bytes, cap), EarlySteps(s, t, u, c, bytes);
    EarlyRun(s, t, u, c, bytes, cap);
    SyncBegins(s, t, u, c, bytes, cap);
    assert !Fresh(states, 8, 9, c);
  }

  // ---- Exactly when a sync can be relied on ----

  /** No thread appears or goes away. */
  lemma {:induction false} RunThreads(states: seq<State>, steps: seq<Step>, cap: nat, n: nat)
    requires Run(states, steps) && Init(states[0], cap) && n < |states|
    ensures states[n].th.Keys == states[0].th.Keys
  {
    hide Inv, Safe, Enabled, Init, Apply;
    if n > 0 {
      RunThreads(states, steps, cap, n - 1);
      RunInv(states, steps, cap, n - 1);
      assert Next(states[n - 1], steps[n - 1], states[n - 1 + 1]);
      StepThreads(states[n - 1], steps[n - 1]);
    }
  }

  lemma StepThreads(s: State, a: Step)
    requires Enabled(s, a) && Safe(s, a)
    ensures Apply(s, a).th.Keys == s.th.Keys
  {
  }

  lemma LoneSyncIsFresh(states: seq<State>, steps: seq<Step>, cap: nat, i: nat, t: Tid, c: Chunk)
    requires Run(states, steps) && Init(states[0], cap) && i < |steps| && steps[i] == BeginClean(t, true)
    requires AboutToReturn(states[|steps|], t) && c in states[0].img.backing && c !in states[|steps|].img.tainted
    requires forall u :: u in states[0].th ==> u == t
    ensures Fresh(states, i, |steps|, c)
  {
    var n := |steps|;
    RunThreads(states, steps, cap, n);
    RunInv(states, steps, cap, n);
    BackingKept(states, steps, cap, c, n);
    assert !InFlight(states[n], c);
    NotQueuedIsSaved(states[n], c, cap);
  }

  /** Every sync of every run can be relied on if and only if one thread has the cache to
      itself, as in image_shutdown. The cleaner is a second one for as long as the disk is
      in use. */
  lemma SyncIff(s: State, cap: nat, t: Tid, c: Chunk)
    requires Init(s, cap) && cap >= 1 && s.img.chunksize >= 1 && t in s.th && c in s.img.backing
    ensures (forall u :: u in s.th ==> u == t) <==>
            forall states, steps :: Run(states, steps) && states[0] == s ==> SyncsAreFresh(states, steps)
  {
    hide Init, Next, Fresh, AboutToReturn;
    if u :| u in s.th && u != t {
      InitSizes(s, cap);
      var bytes := OtherBytes(s.img.backing[c]);
      var states, steps := SyncReturnsEarly(s, t, u, c, bytes, cap);
    } else {
      forall states, steps | Run(states, steps) && states[0] == s
        ensures |states| == |steps| + 1 && SyncsAreFresh(states, steps)
      {
        RunLength(states, steps);
        LoneSyncsAreFresh(states, steps, cap);
      }
    }
  }

  lemma LoneSyncsAreFresh(states: seq<State>, steps: seq<Step>, cap: nat)
    requires Run(states, steps) && Init(states[0], cap)
    requires forall u, v :: u in states[0].th && v in states[0].th ==> u == v
    ensures SyncsAreFresh(states, steps)
  {
    forall i, t, c | 0 <= i < |steps| && steps[i] == BeginClean(t, true) && AboutToReturn(states[|steps|], t) &&
                     c in states[0].img.backing && c !in states[|steps|].img.tainted
      ensures Fresh(states, i, |steps|, c)
    {
      RunThreads(states, steps, cap, |steps|);
      assert t in states[|steps|].th.Keys;
      LoneSyncIsFresh(states, steps, cap, i, t, c);
    }
  }

  /** Other bytes of the same length. */
  function OtherBytes(b: Bytes): (r: Bytes)
    requires b != []
    ensures |r| == |b| && r != b
  {
    [if b[0] == 0 then 1 else 0] + b[1..]
  }
}
