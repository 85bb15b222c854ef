/** The invariant is kept by the steps that wait for, take or drop a busy flag. */
module ImageFlags {
  import opened Common
  import opened ImageState
  import opened ImageSteps
  import opened ImageInvariant
  import opened ImageHeld

  /** A position that says nothing about the data of the entries held. */
  predicate Plain(p: Thread) {
    p.Idle? || p.CleanLoop? || p.WaitFlag? || p.WaitBuffer? || p.GotFlag?
  }

  lemma CountUpdate(th: Threads, t: Tid, q: Thread, c: Chunk)
    requires t in th
    ensures |Waiting(th[t := q], c)| == |Waiting(th, c)| - (if WaitsOn(th[t], c) then 1 else 0) + (if WaitsOn(q, c) then 1 else 0)
  {
    var w, w' := Waiting(th, c), Waiting(th[t := q], c);
    assert w' - {t} == w - {t};
    assert w' == if WaitsOn(q, c) then (w - {t}) + {t} else w - {t};
    assert w == if WaitsOn(th[t], c) then (w - {t}) + {t} else w - {t};
  }

  // ---- Moves between waiting positions ----

  ghost predicate SameClaims(p: Thread, q: Thread) {
    && Plain(p) && Plain(q) && Holds(q) == Holds(p)
    && (p.WaitFlag? <==> q.WaitFlag?) && (p.WaitFlag? ==> q.c == p.c)
  }

  lemma ClaimMove(s: State, t: Tid, q: Thread, cap: nat)
    requires Inv(s, cap) && t in s.th && SameClaims(s.th[t], q) && PosOk(s.img, q)
    requires Wakeups(State(s.img, s.th[t := q]))
    ensures Inv(State(s.img, s.th[t := q]), cap)
  {
    ClaimRefs(s, t, q);
    ClaimCounts(s, t, q);
    ClaimData(s, t, q);
  }

  lemma ClaimRefs(s: State, t: Tid, q: Thread)
    requires Queues(s) && t in s.th && SameClaims(s.th[t], q)
    ensures Queues(State(s.img, s.th[t := q]))
  {
    hide NoDup, Idling, WaitsOn;
  }

  lemma ClaimCounts(s: State, t: Tid, q: Thread)
    requires Counts(s) && t in s.th && SameClaims(s.th[t], q)
    ensures Counts(State(s.img, s.th[t := q]))
  {
    forall c | c in s.img.entries
      ensures s.img.entries[c].waiters == |Waiting(s.th[t := q], c)|
    {
      CountUpdate(s.th, t, q, c);
    }
  }

  lemma ClaimData(s: State, t: Tid, q: Thread)
    requires Queues(s) && Shape(s) && Data(s) && t in s.th && SameClaims(s.th[t], q)
    requires Queues(State(s.img, s.th[t := q])) && Shape(State(s.img, s.th[t := q]))
    ensures Data(State(s.img, s.th[t := q]))
  {
    forall c | c in s.img.entries && c !in s.img.tainted
      ensures DataOk(State(s.img, s.th[t := q]), c)
    {
      assert DataOk(s, c);
    }
  }

  /** A thread in g_cond_wait is woken, by a signal or spuriously. */
  lemma WakeKeepsWakeups(s: State, w: Tid)
    requires Wakeups(s) && w in s.th && Blocked(s.th[w])
    ensures Wakeups(State(s.img, s.th[w := Woken(s.th[w])]))
  {
    var th := s.th[w := Woken(s.th[w])];
    assert WokenForBuffer(th) == WokenForBuffer(s.th) + (if s.th[w].WaitBuffer? then {w} else {});
    forall c, x | c in s.img.entries && s.img.entries[c].busy.None? && x in th && BlockedOn(th[x], Available(c))
      ensures exists y :: y in th && WaitsOn(th[y], c) && th[y].woken
    {
      var y :| y in s.th && WaitsOn(s.th[y], c) && s.th[y].woken;
      assert WaitsOn(th[y], c) && th[y].woken;
    }
  }

  lemma SpuriousInv(s: State, w: Tid, cap: nat)
    requires Inv(s, cap) && w in s.th && Blocked(s.th[w])
    ensures Inv(State(s.img, s.th[w := Woken(s.th[w])]), cap)
  {
    WakeKeepsWakeups(s, w);
    assert PosOk(s.img, s.th[w]);
    ClaimMove(s, w, Woken(s.th[w]), cap);
  }

  lemma BlockWakeups(s: State, t: Tid, q: Thread)
    requires Wakeups(s) && t in s.th && (s.th[t].WaitFlag? <==> q.WaitFlag?)
    requires q.WaitFlag? ==> q.c == s.th[t].c && q.c in s.img.entries && s.img.entries[q.c].busy.Some?
    requires q.WaitBuffer? ==> s.img.reclaimable == []
    requires s.th[t].WaitBuffer? ==> q.WaitBuffer?
    ensures Wakeups(State(s.img, s.th[t := q]))
  {
    var th := s.th[t := q];
    if !q.WaitBuffer? {
      assert WokenForBuffer(th) == WokenForBuffer(s.th);
    }
    forall c, x | c in s.img.entries && s.img.entries[c].busy.None? && x in th && BlockedOn(th[x], Available(c))
      ensures exists y :: y in th && WaitsOn(th[y], c) && th[y].woken
    {
      assert BlockedOn(s.th[x], Available(c));
      var y :| y in s.th && WaitsOn(s.th[y], c) && s.th[y].woken;
      assert WaitsOn(th[y], c) && th[y].woken;
    }
  }

  /** Going back to g_cond_wait, because the condition still fails. */
  lemma BlockInv(s: State, t: Tid, q: Thread, cap: nat)
    requires Inv(s, cap) && t in s.th && SameClaims(s.th[t], q) && PosOk(s.img, q)
    requires q.WaitFlag? ==> q.c in s.img.entries && s.img.entries[q.c].busy.Some?
    requires q.WaitBuffer? ==> s.img.reclaimable == []
    requires s.th[t].WaitBuffer? ==> q.WaitBuffer?
    ensures Inv(State(s.img, s.th[t := q]), cap)
  {
    BlockWakeups(s, t, q);
    ClaimMove(s, t, q, cap);
  }

  // ---- Taking a busy flag ----

  /** The entry of chunk c becomes busy for thread t and leaves the reclaimable queue. */
  function Grab(img: Image, c: Chunk, t: Tid, waiters: nat): Image
    requires c in img.entries
  {
    img.(reclaimable := Without(img.reclaimable, c),
    entries := img.entries[c := img.entries[c].(busy := Some(t), waiters := waiters)])
  }

  ghost predicate CanGrab(s: State, t: Tid, c: Chunk, why: Purpose) {
    && t in s.th && Plain(s.th[t]) && c in s.img.entries && s.img.entries[c].busy.None?
    && Holds(GotFlag(c, why)) == Holds(s.th[t]) + {c}
    && (s.th[t].WaitFlag? ==> s.th[t].c == c && s.img.entries[c].waiters > 0)
    && (s.th[t].WaitBuffer? ==> c in s.img.reclaimable)
    && PosOk(s.img, GotFlag(c, why))
  }

  function GrabCount(s: State, t: Tid, c: Chunk): int
    requires t in s.th && c in s.img.entries
  {
    if s.th[t].WaitFlag? then s.img.entries[c].waiters - 1 else s.img.entries[c].waiters
  }

  ghost function Grabbed(s: State, t: Tid, c: Chunk, why: Purpose): State
    requires CanGrab(s, t, c, why)
  {
    State(Grab(s.img, c, t, GrabCount(s, t, c)), s.th[t := GotFlag(c, why)])
  }

  lemma GrabRefs(s: State, t: Tid, c: Chunk, why: Purpose)
    requires Refs(s) && CanGrab(s, t, c, why)
    ensures Refs(Grabbed(s, t, c, why))
  {
    assert Holds(GotFlag(c, why)) == Holds(s.th[t]) + {c};
  }

  lemma GrabCounts(s: State, t: Tid, c: Chunk, why: Purpose)
    requires Counts(s) && CanGrab(s, t, c, why)
    ensures Counts(Grabbed(s, t, c, why))
  {
    var s' := Grabbed(s, t, c, why);
    forall x | x in s'.img.entries
      ensures s'.img.entries[x].waiters == |Waiting(s'.th, x)|
    {
      CountUpdate(s.th, t, GotFlag(c, why), x);
    }
  }

  lemma GrabQueues(s: State, t: Tid, c: Chunk, why: Purpose)
    requires Queues(s) && CanGrab(s, t, c, why) && Refs(Grabbed(s, t, c, why))
    ensures Queues(Grabbed(s, t, c, why))
  {
    var s' := Grabbed(s, t, c, why);
    forall x
      ensures x in s'.img.reclaimable <==> x in s'.img.entries && Idling(s'.img.entries[x])
      ensures x in s'.img.dirty <==> x in s'.img.entries && s'.img.entries[x].dirty && !InMidClean(s', x)
    {
    }
  }

  lemma GrabBudget(s: State, t: Tid, c: Chunk, why: Purpose, cap: nat)
    requires Budget(s, cap) && CanGrab(s, t, c, why)
    ensures Budget(Grabbed(s, t, c, why), cap)
  {
    assert Buffered(Grabbed(s, t, c, why).img) == Buffered(s.img);
  }

  lemma GrabPositions(s: State, t: Tid, c: Chunk, why: Purpose)
    requires Positions(s) && Refs(s) && CanGrab(s, t, c, why)
    ensures Positions(Grabbed(s, t, c, why))
  {
    var s' := Grabbed(s, t, c, why);
    forall x | x in s'.th
      ensures PosOk(s'.img, s'.th[x])
    {
      if x != t {
        assert c !in Holds(s.th[x]);
        PosFrame(s.img, s'.img, s.th[x]);
      }
    }
  }

  lemma GrabWakeups(s: State, t: Tid, c: Chunk, why: Purpose)
    requires Wakeups(s) && NoDup(s.img.reclaimable) && CanGrab(s, t, c, why)
    ensures Wakeups(Grabbed(s, t, c, why))
  {
    var s' := Grabbed(s, t, c, why);
    assert WokenForBuffer(s'.th) == WokenForBuffer(s.th) - {t};
    forall x, y | x in s'.img.entries && s'.img.entries[x].busy.None? && y in s'.th && BlockedOn(s'.th[y], Available(x))
      ensures exists w :: w in s'.th && WaitsOn(s'.th[w], x) && s'.th[w].woken
    {
      assert BlockedOn(s.th[y], Available(x));
      var w :| w in s.th && WaitsOn(s.th[w], x) && s.th[w].woken;
      assert s'.th[w] == s.th[w];
    }
  }

  lemma GrabData(s: State, t: Tid, c: Chunk, why: Purpose)
    requires Refs(s) && Shape(s) && Data(s) && CanGrab(s, t, c, why)
    requires Refs(Grabbed(s, t, c, why)) && Shape(Grabbed(s, t, c, why))
    ensures Data(Grabbed(s, t, c, why))
  {
    var s' := Grabbed(s, t, c, why);
    forall x | x in s'.img.entries && x !in s'.img.tainted
      ensures DataOk(s', x)
    {
      assert DataOk(s, x);
      if x != c && s.img.entries[x].busy.Some? {
        assert x in Holds(s.th[s.img.entries[x].busy.value]);
      }
    }
  }

  lemma GrabShape(s: State, t: Tid, c: Chunk, why: Purpose)
    requires Shape(s) && NoZombies(s, Some(c)) && CanGrab(s, t, c, why)
    ensures Shape(Grabbed(s, t, c, why)) && NoZombies(Grabbed(s, t, c, why), None)
  {
  }

  lemma GrabInv(s: State, t: Tid, c: Chunk, why: Purpose, cap: nat)
    requires Core(s, cap) && NoZombies(s, Some(c)) && CanGrab(s, t, c, why)
    ensures Inv(Grabbed(s, t, c, why), cap)
  {
    GrabRefs(s, t, c, why);
    GrabCounts(s, t, c, why);
    GrabShape(s, t, c, why);
    GrabQueues(s, t, c, why);
    GrabBudget(s, t, c, why, cap);
    GrabPositions(s, t, c, why);
    GrabWakeups(s, t, c, why);
    GrabData(s, t, c, why);
  }

  // ---- Waiting for a busy flag ----

  ghost predicate CanQueue(s: State, t: Tid, c: Chunk, why: Purpose) {
    && t in s.th && Plain(s.th[t]) && !Waits(s.th[t])
    && c in s.img.entries && s.img.entries[c].busy.Some?
    && Holds(WaitFlag(c, why, false)) == Holds(s.th[t]) && PosOk(s.img, WaitFlag(c, why, false))
  }

  ghost function Queued(s: State, t: Tid, c: Chunk, why: Purpose): State
    requires CanQueue(s, t, c, why)
  {
    State(Enlist(s.img, c), s.th[t := WaitFlag(c, why, false)])
  }

  lemma QueueRefs(s: State, t: Tid, c: Chunk, why: Purpose)
    requires Refs(s) && CanQueue(s, t, c, why)
    ensures Refs(Queued(s, t, c, why))
  {
  }

  lemma QueueCounts(s: State, t: Tid, c: Chunk, why: Purpose)
    requires Refs(s) && Counts(s) && CanQueue(s, t, c, why)
    ensures Counts(Queued(s, t, c, why))
  {
    var s' := Queued(s, t, c, why);
    forall x | x in s'.img.entries
      ensures s'.img.entries[x].waiters == |Waiting(s'.th, x)|
    {
      CountUpdate(s.th, t, WaitFlag(c, why, false), x);
    }
  }

  lemma QueueQueues(s: State, t: Tid, c: Chunk, why: Purpose)
    requires Queues(s) && CanQueue(s, t, c, why) && Refs(Queued(s, t, c, why))
    ensures Queues(Queued(s, t, c, why))
  {
    var s' := Queued(s, t, c, why);
    forall x
      ensures x in s'.img.reclaimable <==> x in s'.img.entries && Idling(s'.img.entries[x])
      ensures x in s'.img.dirty <==> x in s'.img.entries && s'.img.entries[x].dirty && !InMidClean(s', x)
    {
    }
  }

  lemma QueuePositions(s: State, t: Tid, c: Chunk, why: Purpose)
    requires Positions(s) && Wakeups(s) && NoDup(s.img.reclaimable) && CanQueue(s, t, c, why)
    ensures Positions(Queued(s, t, c, why)) && Wakeups(Queued(s, t, c, why))
  {
    var s' := Queued(s, t, c, why);
    assert WokenForBuffer(s'.th) == WokenForBuffer(s.th);
    forall x, y | x in s'.img.entries && s'.img.entries[x].busy.None? && y in s'.th && BlockedOn(s'.th[y], Available(x))
      ensures exists w :: w in s'.th && WaitsOn(s'.th[w], x) && s'.th[w].woken
    {
      assert BlockedOn(s.th[y], Available(x));
      var w :| w in s.th && WaitsOn(s.th[w], x) && s.th[w].woken;
      assert s'.th[w] == s.th[w];
    }
  }

  lemma QueueData(s: State, t: Tid, c: Chunk, why: Purpose)
    requires Refs(s) && Shape(s) && Data(s) && CanQueue(s, t, c, why)
    requires Refs(Queued(s, t, c, why)) && Shape(Queued(s, t, c, why))
    ensures Data(Queued(s, t, c, why))
  {
    var s' := Queued(s, t, c, why);
    forall x | x in s'.img.entries && x !in s'.img.tainted
      ensures DataOk(s', x)
    {
      assert DataOk(s, x);
    }
  }

  lemma QueueInv(s: State, t: Tid, c: Chunk, why: Purpose, cap: nat)
    requires Core(s, cap) && NoZombies(s, Some(c)) && CanQueue(s, t, c, why)
    ensures Inv(Queued(s, t, c, why), cap)
  {
    QueueRefs(s, t, c, why);
    QueueCounts(s, t, c, why);
    QueueQueues(s, t, c, why);
    QueuePositions(s, t, c, why);
    QueueShape(s, t, c, why, cap);
    QueueData(s, t, c, why);
  }

  lemma QueueShape(s: State, t: Tid, c: Chunk, why: Purpose, cap: nat)
    requires Shape(s) && NoZombies(s, Some(c)) && Budget(s, cap) && CanQueue(s, t, c, why)
    ensures Shape(Queued(s, t, c, why)) && NoZombies(Queued(s, t, c, why), None) && Budget(Queued(s, t, c, why), cap)
  {
    assert Buffered(Queued(s, t, c, why).img) == Buffered(s.img);
  }

  // ---- Dropping a busy flag ----

  ghost predicate CanDrop(s: State, t: Tid, c: Chunk, next: Then) {
    && t in s.th && s.th[t] == Dropping(c, next) && PosOk(s.img, s.th[t])
    && c in s.img.entries && s.img.entries[c].busy == Some(t)
  }

  /** The state after _entry_release, leaving out the signal. */
  ghost function Dropped(s: State, t: Tid, c: Chunk, next: Then): State
    requires CanDrop(s, t, c, next)
  {
    State(ReleaseFlag(s.img, c), s.th[t := Resume(next, s.img.chunksize)])
  }

  lemma NoWaiters(s: State, c: Chunk)
    requires Counts(s) && c in s.img.entries && s.img.entries[c].waiters == 0
    ensures forall x :: x in s.th ==> !WaitsOn(s.th[x], c)
  {
    assert forall x :: x in s.th && WaitsOn(s.th[x], c) ==> x in Waiting(s.th, c);
  }

  lemma DropRefs(s: State, t: Tid, c: Chunk, next: Then)
    requires Refs(s) && CanDrop(s, t, c, next)
    requires s.img.entries[c].waiters == 0 ==> forall x :: x in s.th ==> !WaitsOn(s.th[x], c)
    ensures Refs(Dropped(s, t, c, next))
  {
    var s' := Dropped(s, t, c, next);
    assert next.UseBuffer? ==> next.c != c;
    hide PosOk;
    assert Holds(s'.th[t]) == Holds(s.th[t]) - {c};
    forall x, d | x in s'.th && d in Holds(s'.th[x])
      ensures d in s'.img.entries && s'.img.entries[d].busy == Some(x)
    {
      assert d in Holds(s.th[x]);
    }
    forall d | d in s'.img.entries && s'.img.entries[d].busy.Some?
      ensures s'.img.entries[d].busy.value in s'.th && d in Holds(s'.th[s'.img.entries[d].busy.value])
    {
      assert d in Holds(s.th[s.img.entries[d].busy.value]);
    }
  }

  lemma DropCounts(s: State, t: Tid, c: Chunk, next: Then)
    requires Counts(s) && CanDrop(s, t, c, next)
    ensures Counts(Dropped(s, t, c, next))
  {
    var s' := Dropped(s, t, c, next);
    forall x | x in s'.img.entries
      ensures s'.img.entries[x].waiters == |Waiting(s'.th, x)|
    {
      CountUpdate(s.th, t, s'.th[t], x);
    }
  }

  lemma DropShape(s: State, t: Tid, c: Chunk, next: Then, cap: nat)
    requires Shape(s) && NoZombies(s, None) && Budget(s, cap) && CanDrop(s, t, c, next)
    ensures Shape(Dropped(s, t, c, next)) && NoZombies(Dropped(s, t, c, next), None)
    ensures Budget(Dropped(s, t, c, next), cap)
  {
    assert Buffered(Dropped(s, t, c, next).img) == Buffered(s.img);
  }

  lemma DropReclaimable(s: State, t: Tid, c: Chunk, next: Then, x: Chunk)
    requires Queues(s) && Shape(s) && CanDrop(s, t, c, next)
    ensures var img := Dropped(s, t, c, next).img; x in img.reclaimable <==> x in img.entries && Idling(img.entries[x])
  {
  }

  lemma DropDirty(s: State, t: Tid, c: Chunk, next: Then, x: Chunk)
    requires Queues(s) && Shape(s) && CanDrop(s, t, c, next) && Refs(Dropped(s, t, c, next))
    ensures var s' := Dropped(s, t, c, next);
      x in s'.img.dirty <==> x in s'.img.entries && s'.img.entries[x].dirty && !InMidClean(s', x)
  {
    hide NoDup, Idling, PosOk, Holds;
  }

  lemma DropQueues(s: State, t: Tid, c: Chunk, next: Then)
    requires Queues(s) && Shape(s) && CanDrop(s, t, c, next) && Refs(Dropped(s, t, c, next))
    ensures Queues(Dropped(s, t, c, next))
  {
    var s' := Dropped(s, t, c, next);
    assert c !in s.img.reclaimable;
    assert NoDup(s.img.reclaimable + [c]);
    forall x
      ensures x in s'.img.reclaimable <==> x in s'.img.entries && Idling(s'.img.entries[x])
      ensures x in s'.img.dirty <==> x in s'.img.entries && s'.img.entries[x].dirty && !InMidClean(s', x)
    {
      DropReclaimable(s, t, c, next, x);
      DropDirty(s, t, c, next, x);
    }
  }

  lemma DropPositions(s: State, t: Tid, c: Chunk, next: Then)
    requires Refs(s) && Positions(s) && CanDrop(s, t, c, next)
    ensures Positions(Dropped(s, t, c, next))
  {
    var s' := Dropped(s, t, c, next);
    forall x | x in s'.th
      ensures PosOk(s'.img, s'.th[x])
    {
      if x != t {
        assert c !in Holds(s.th[x]);
        PosFrame(s.img, s'.img, s.th[x]);
      }
    }
  }

  lemma DropDataOk(s: State, t: Tid, c: Chunk, next: Then, x: Chunk)
    requires Refs(s) && CanDrop(s, t, c, next) && Refs(Dropped(s, t, c, next))
    requires x in Dropped(s, t, c, next).img.entries && x in s.img.backing && DataOk(s, x)
    ensures DataOk(Dropped(s, t, c, next), x)
  {
    assert next.UseBuffer? ==> next.c != c;
    hide PosOk;
    if x != c && s.img.entries[x].busy == Some(t) {
      assert x in Holds(s.th[t]);
    }
  }

  lemma DropData(s: State, t: Tid, c: Chunk, next: Then)
    requires Refs(s) && Shape(s) && Data(s) && CanDrop(s, t, c, next)
    requires Refs(Dropped(s, t, c, next)) && Shape(Dropped(s, t, c, next))
    ensures Data(Dropped(s, t, c, next))
  {
    hide PosOk, DataOk, Refs;
    var s' := Dropped(s, t, c, next);
    forall x | x in s'.img.entries && x !in s'.img.tainted
      ensures DataOk(s', x)
    {
      DropDataOk(s, t, c, next, x);
    }
  }

  lemma DropWakesWaiter(s: State, t: Tid, c: Chunk, next: Then, wake: Option<Tid>)
    requires Wakeups(s) && Counts(s) && CanDrop(s, t, c, next) && ValidWake(s.th, ReleaseSignal(s.img, c), wake)
    requires CanDrop(State(s.img, ApplyWake(s.th, wake)), t, c, next)
    ensures var s' := Dropped(State(s.img, ApplyWake(s.th, wake)), t, c, next);
            forall x, y :: x in s'.img.entries && s'.img.entries[x].busy.None? && y in s'.th && BlockedOn(s'.th[y], Available(x)) ==>
                           exists w :: w in s'.th && WaitsOn(s'.th[w], x) && s'.th[w].woken
  {
    var s' := Dropped(State(s.img, ApplyWake(s.th, wake)), t, c, next);
    forall x, y | x in s'.img.entries && s'.img.entries[x].busy.None? && y in s'.th && BlockedOn(s'.th[y], Available(x))
      ensures exists w :: w in s'.th && WaitsOn(s'.th[w], x) && s'.th[w].woken
    {
      assert BlockedOn(s.th[y], Available(x));
      if x == c {
        assert y in Waiting(s.th, c);
        var w := wake.value;
        assert WaitsOn(s'.th[w], c) && s'.th[w].woken;
      } else {
        var w :| w in s.th && WaitsOn(s.th[w], x) && s.th[w].woken;
        assert WaitsOn(s'.th[w], x) && s'.th[w].woken;
      }
    }
  }

  lemma DropWakesTaker(s: State, t: Tid, c: Chunk, next: Then, wake: Option<Tid>)
    requires Wakeups(s) && CanDrop(s, t, c, next) && ValidWake(s.th, ReleaseSignal(s.img, c), wake)
    requires CanDrop(State(s.img, ApplyWake(s.th, wake)), t, c, next)
    ensures var s' := Dropped(State(s.img, ApplyWake(s.th, wake)), t, c, next);
            forall x :: x in s'.th && BlockedOn(s'.th[x], Reclaimable) ==> |s'.img.reclaimable| <= |WokenForBuffer(s'.th)|
  {
    var s' := Dropped(State(s.img, ApplyWake(s.th, wake)), t, c, next);
    forall x | x in s'.th && BlockedOn(s'.th[x], Reclaimable)
      ensures |s'.img.reclaimable| <= |WokenForBuffer(s'.th)|
    {
      assert BlockedOn(s.th[x], Reclaimable);
      if ReleaseSignal(s.img, c) == Reclaimable {
        assert WokenForBuffer(s'.th) == WokenForBuffer(s.th) + {wake.value};
      } else {
        assert WokenForBuffer(s'.th) == WokenForBuffer(s.th);
      }
    }
  }

  lemma DropQuietInv(s: State, t: Tid, c: Chunk, next: Then, cap: nat)
    requires Inv(s, cap) && CanDrop(s, t, c, next) && Wakeups(Dropped(s, t, c, next))
    ensures Inv(Dropped(s, t, c, next), cap)
  {
    if s.img.entries[c].waiters == 0 {
      NoWaiters(s, c);
    }
    DropRefs(s, t, c, next);
    DropCounts(s, t, c, next);
    DropShape(s, t, c, next, cap);
    DropQueues(s, t, c, next);
    DropPositions(s, t, c, next);
    DropData(s, t, c, next);
  }

  lemma CanDropWoken(s: State, t: Tid, c: Chunk, next: Then, wake: Option<Tid>)
    requires CanDrop(s, t, c, next) && ValidWake(s.th, ReleaseSignal(s.img, c), wake)
    ensures CanDrop(State(s.img, ApplyWake(s.th, wake)), t, c, next)
  {
  }

  /** _entry_release with its signal: first the wakeup, then the release. */
  lemma DropInv(s: State, t: Tid, c: Chunk, next: Then, wake: Option<Tid>, cap: nat)
    requires Inv(s, cap) && CanDrop(s, t, c, next) && ValidWake(s.th, ReleaseSignal(s.img, c), wake)
    ensures Inv(State(ReleaseFlag(s.img, c), ApplyWake(s.th, wake)[t := Resume(next, s.img.chunksize)]), cap)
  {
    var s1 := State(s.img, ApplyWake(s.th, wake));
    CanDropWoken(s, t, c, next, wake);
    if wake.Some? {
      SpuriousInv(s, wake.value, cap);
    }
    DropWakesWaiter(s, t, c, next, wake);
    DropWakesTaker(s, t, c, next, wake);
    DropQuietInv(s1, t, c, next, cap);
  }

  // ---- The steps ----

  lemma WithoutAbsent(q: seq<Chunk>, c: Chunk)
    requires c !in q
    ensures Without(q, c) == q
  {
    if q != [] {
      WithoutAbsent(q[1..], c);
    }
  }

  /** A lookup may add an entry that nobody uses yet; only NoZombies notices. */
  lemma LookupCore(s: State, c: Chunk, cap: nat)
    requires Inv(s, cap) && c in s.img.backing
    ensures Core(State(Lookup(s.img, c), s.th), cap) && NoZombies(State(Lookup(s.img, c), s.th), Some(c))
  {
    if c !in s.img.entries {
      LookupData(s, c);
      LookupQueues(s, c);
      LookupCounts(s, c, cap);
      LookupPositions(s, c);
      LookupWakeups(s, c);
    }
  }

  lemma LookupQueues(s: State, c: Chunk)
    requires Queues(s) && c !in s.img.entries && Refs(State(Lookup(s.img, c), s.th))
    ensures Queues(State(Lookup(s.img, c), s.th))
  {
  }

  lemma LookupCounts(s: State, c: Chunk, cap: nat)
    requires Refs(s) && Counts(s) && Budget(s, cap) && NoZombies(s, None) && c !in s.img.entries
    ensures var s' := State(Lookup(s.img, c), s.th); Counts(s') && Budget(s', cap) && NoZombies(s', Some(c))
  {
    assert Buffered(Lookup(s.img, c)) == Buffered(s.img);
    assert Waiting(s.th, c) == {};
  }

  lemma LookupWakeups(s: State, c: Chunk)
    requires Refs(s) && Wakeups(s) && c !in s.img.entries
    ensures Wakeups(State(Lookup(s.img, c), s.th))
  {
  }

  lemma LookupPositions(s: State, c: Chunk)
    requires Positions(s) && c !in s.img.entries
    ensures Positions(State(Lookup(s.img, c), s.th))
  {
    forall x | x in s.th
      ensures PosOk(Lookup(s.img, c), s.th[x])
    {
      PosFrame(s.img, Lookup(s.img, c), s.th[x]);
    }
  }

  lemma LookupData(s: State, c: Chunk)
    requires Refs(s) && Shape(s) && Data(s) && c in s.img.backing && c !in s.img.entries
    ensures var s' := State(Lookup(s.img, c), s.th); Refs(s') && Shape(s') && Data(s')
  {
    var s' := State(Lookup(s.img, c), s.th);
    assert Refs(s') && Shape(s');
    forall x | x in s'.img.entries && x !in s'.img.tainted
      ensures DataOk(s', x)
    {
      if x != c { assert DataOk(s, x); }
    }
  }

  ghost predicate CanEnter(s: State, t: Tid, c: Chunk, why: Purpose) {
    && t in s.th && Plain(s.th[t]) && !s.th[t].WaitFlag? && c in s.img.entries
    && (if s.img.entries[c].busy.None? then CanGrab(s, t, c, why) else CanQueue(s, t, c, why))
  }

  lemma EnterIsGrab(s: State, t: Tid, c: Chunk, why: Purpose)
    requires CanGrab(s, t, c, why) && !s.th[t].WaitFlag?
    ensures EnterAcquire(s.img, s.th, t, c, why) == Grabbed(s, t, c, why)
  {
  }

  /** _entry_acquire, up to its first wait or to its end. */
  lemma EnterInv(s: State, t: Tid, c: Chunk, why: Purpose, cap: nat)
    requires Core(s, cap) && NoZombies(s, Some(c)) && CanEnter(s, t, c, why)
    ensures Inv(EnterAcquire(s.img, s.th, t, c, why), cap)
  {
    if s.img.entries[c].busy.None? {
      EnterIsGrab(s, t, c, why);
      GrabInv(s, t, c, why, cap);
    } else {
      QueueInv(s, t, c, why, cap);
    }
  }
}
