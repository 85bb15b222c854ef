/**
 * The lock file protocol of parcelkeeper/util.c for any number of processes,
 * which may be killed at any point.  Each step is one system call.  A file keeps
 * its identity while it is open, whatever happens to its name.
 */
module Lockfile {
  import opened Common

  /** Where a process is: between system calls, with the file it has open. */
  datatype Place =
    | Outside
    | Opened(file: nat)
    | Locked(file: nat)
      /** Past the link check: the lock file is acquired. */
    | Holding(file: nat)
      /** The name is gone, the lock not yet. */
    | Unlinked(file: nat)

  /** The file that the path names, the owner of each locked file, the processes, and an unused file. */
  datatype State = State(path: Option<nat>, locks: map<nat, nat>, procs: map<nat, Place>, next: nat)

  datatype Step =
    | Open(p: nat)
    | Lock(p: nat)
    | Check(p: nat)
    | Unlink(p: nat)
    | Close(p: nat)
      /** The kernel closes the files of a process that ends and drops its locks. */
    | Die(p: nat)

  const NEW := State(None, map[], map[], 0)

  function PlaceOf(s: State, p: nat): Place { if p in s.procs then s.procs[p] else Outside }

  predicate Enabled(s: State, step: Step) {
    match step
    case Open(p) => PlaceOf(s, p).Outside?
    case Lock(p) => PlaceOf(s, p).Opened?
    case Check(p) => PlaceOf(s, p).Locked?
    case Unlink(p) => PlaceOf(s, p).Holding?
    case Close(p) => PlaceOf(s, p).Unlinked?
    case Die(p) => true
  }

  /** Closing a file drops the process's lock on it. */
  function Left(s: State, p: nat): State {
    s.(locks := map f | f in s.locks && s.locks[f] != p :: s.locks[f], procs := s.procs[p := Outside])
  }

  function Apply(s: State, step: Step): State
    requires Enabled(s, step)
  {
    match step
    case Open(p) =>
      if s.path.Some? then s.(procs := s.procs[p := Opened(s.path.value)])
      else s.(path := Some(s.next), procs := s.procs[p := Opened(s.next)], next := s.next + 1)
    case Lock(p) =>
      var f := s.procs[p].file;
      if f in s.locks then Left(s, p)
      else s.(locks := s.locks[f := p], procs := s.procs[p := Locked(f)])
    case Check(p) =>
      var f := s.procs[p].file;
      if s.path == Some(f) then s.(procs := s.procs[p := Holding(f)]) else Left(s, p)
    case Unlink(p) => s.(path := None, procs := s.procs[p := Unlinked(s.procs[p].file)])
    case Close(p) => Left(s, p)
    case Die(p) => Left(s, p)
  }

  ghost predicate Runs(s: State, steps: seq<Step>)
    decreases |steps|
  {
    steps == [] || (Enabled(s, steps[0]) && Runs(Apply(s, steps[0]), steps[1..]))
  }

  ghost function After(s: State, steps: seq<Step>): State
    requires Runs(s, steps)
    decreases |steps|
  {
    if steps == [] then s else After(Apply(s, steps[0]), steps[1..])
  }

  // ----- The invariant -----

  predicate Owns(place: Place, f: nat) {
    (place.Locked? || place.Holding? || place.Unlinked?) && place.file == f
  }

  ghost predicate Inv(s: State) {
    && (forall f :: f in s.locks ==> Owns(PlaceOf(s, s.locks[f]), f))
    && (forall p, f :: Owns(PlaceOf(s, p), f) ==> f in s.locks && s.locks[f] == p)
    && (forall p :: PlaceOf(s, p).Holding? ==> s.path == Some(PlaceOf(s, p).file))
    && (forall p :: !PlaceOf(s, p).Outside? ==> PlaceOf(s, p).file < s.next)
    && (s.path.Some? ==> s.path.value < s.next)
  }

  lemma LeftInv(s: State, p: nat)
    requires Inv(s)
    ensures Inv(Left(s, p))
  {
    var t := Left(s, p);
    assert forall q :: q != p ==> PlaceOf(t, q) == PlaceOf(s, q);
  }

  lemma AtMostOne(s: State, p: nat, q: nat)
    requires Inv(s) && PlaceOf(s, p).Holding? && PlaceOf(s, q).Holding?
    ensures p == q
  {
    var f := PlaceOf(s, p).file;
    assert s.path == Some(f) && PlaceOf(s, q).file == f;
    Owner(s, p, f);
    Owner(s, q, f);
  }

  lemma Owner(s: State, p: nat, f: nat)
    requires Inv(s) && Owns(PlaceOf(s, p), f)
    ensures f in s.locks && s.locks[f] == p
  {
  }

  lemma UnlinkInv(s: State, p: nat)
    requires Inv(s) && Enabled(s, Unlink(p))
    ensures Inv(Apply(s, Unlink(p)))
  {
    var t := Apply(s, Unlink(p));
    assert forall q :: q != p ==> PlaceOf(t, q) == PlaceOf(s, q);
    forall q | PlaceOf(s, q).Holding? ensures q == p {
      AtMostOne(s, p, q);
    }
    forall q, f | Owns(PlaceOf(t, q), f) ensures f in t.locks && t.locks[f] == q {
      assert Owns(PlaceOf(s, q), f);
    }
    forall f | f in t.locks ensures Owns(PlaceOf(t, t.locks[f]), f) {
      assert Owns(PlaceOf(s, s.locks[f]), f);
    }
  }

  lemma StepInv(s: State, step: Step)
    requires Inv(s) && Enabled(s, step)
    ensures Inv(Apply(s, step))
  {
    if step.Unlink? {
      UnlinkInv(s, step.p);
    } else {
      LeftInv(s, step.p);
      var t := Apply(s, step);
      assert forall q :: q != step.p ==> PlaceOf(t, q) == PlaceOf(s, q);
    }
  }

  lemma {:induction false} RunInv(s: State, steps: seq<Step>)
    requires Inv(s) && Runs(s, steps)
    ensures Inv(After(s, steps))
    decreases |steps|
  {
    hide Inv, Enabled, Apply;
    if steps != [] {
      StepInv(s, steps[0]);
      RunInv(Apply(s, steps[0]), steps[1..]);
    }
  }

  /**
   * In every run, a process past the link check and before its unlink holds the
   * lock on the very file that the path names; so there is at most one.
   */
  lemma MutualExclusion(steps: seq<Step>, p: nat, q: nat)
    requires Runs(NEW, steps)
    ensures var s := After(NEW, steps);
      PlaceOf(s, p).Holding? ==>
        && s.path == Some(PlaceOf(s, p).file) && s.path.value in s.locks && s.locks[s.path.value] == p
        && (PlaceOf(s, q).Holding? ==> p == q)
  {
    assert Inv(NEW);
    RunInv(NEW, steps);
    var s := After(NEW, steps);
    hide Runs, After;
    if PlaceOf(s, p).Holding? {
      assert Owns(PlaceOf(s, p), PlaceOf(s, p).file);
      if PlaceOf(s, q).Holding? {
        AtMostOne(s, p, q);
      }
    }
  }

  /**
   * However the processes before it ended, a process that runs alone acquires the
   * lock file exactly if the named file is not locked by another process.
   */
  lemma AcquiresIff(s: State, p: nat)
    requires Inv(s) && PlaceOf(s, p).Outside?
    ensures Runs(s, [Open(p), Lock(p)])
    ensures var t := After(s, [Open(p), Lock(p)]);
      if s.path.Some? && s.path.value in s.locks then PlaceOf(t, p).Outside?
      else Enabled(t, Check(p)) && PlaceOf(Apply(t, Check(p)), p).Holding?
  {
    var (t, steps) := (Apply(s, Open(p)), [Open(p), Lock(p)]);
    var u := Apply(t, Lock(p));
    assert steps[1..] == [Lock(p)] && [Lock(p)][1..] == [];
    assert After(t, [Lock(p)]) == u;
    assert forall f :: f in s.locks ==> f < s.next;
  }

  /** Once the holder has released the lock file, any process that runs alone acquires it. */
  lemma HandsOver(s: State, p: nat, q: nat)
    requires Inv(s) && PlaceOf(s, p).Holding? && PlaceOf(s, q).Outside?
    ensures Runs(s, [Unlink(p), Close(p)])
    ensures var t := After(s, [Unlink(p), Close(p)]);
      && PlaceOf(t, p).Outside? && t.path.None?
      && Runs(t, [Open(q), Lock(q)]) && Enabled(After(t, [Open(q), Lock(q)]), Check(q))
      && PlaceOf(Apply(After(t, [Open(q), Lock(q)]), Check(q)), q).Holding?
  {
    var t := Apply(s, Unlink(p));
    var u := Apply(t, Close(p));
    assert [Unlink(p), Close(p)][1..] == [Close(p)] && [Close(p)][1..] == [];
    assert After(t, [Close(p)]) == u;
    StepInv(s, Unlink(p));
    StepInv(t, Close(p));
    AcquiresIff(u, q);
  }

  // ----- No lock file is left behind -----

  /** Some process has the file that the path names open, and is not yet done with it. */
  ghost predicate Attended(s: State) {
    s.path.Some? ==> exists p :: Attends(PlaceOf(s, p), s.path.value)
  }

  predicate Attends(place: Place, f: nat) {
    (place.Opened? || place.Locked? || place.Holding?) && place.file == f
  }

  /** A process that has removed the name does not come to own it again. */
  ghost predicate Gone(s: State) {
    forall p :: PlaceOf(s, p).Unlinked? ==> s.path != Some(PlaceOf(s, p).file)
  }

  lemma StepAttended(s: State, step: Step)
    requires Inv(s) && Attended(s) && Gone(s) && Enabled(s, step) && !step.Die?
    ensures Attended(Apply(s, step)) && Gone(Apply(s, step))
  {
    var t := Apply(s, step);
    assert forall q :: q != step.p ==> PlaceOf(t, q) == PlaceOf(s, q);
    if t.path.Some? {
      if step.Open? {
        assert forall q :: q != step.p ==> PlaceOf(s, q).Outside? || PlaceOf(s, q).file < s.next;
        assert Attends(PlaceOf(t, step.p), t.path.value);
      } else {
        var q :| Attends(PlaceOf(s, q), s.path.value);
        if step.Lock? && step.p == q && s.path.value in s.locks {
          assert Attends(PlaceOf(t, s.locks[s.path.value]), t.path.value);
        } else {
          assert Attends(PlaceOf(t, q), t.path.value);
        }
      }
    }
  }

  lemma {:induction false} RunAttended(s: State, steps: seq<Step>)
    requires Inv(s) && Attended(s) && Gone(s) && Runs(s, steps) && forall i :: 0 <= i < |steps| ==> !steps[i].Die?
    ensures Attended(After(s, steps))
    decreases |steps|
  {
    hide Inv, Attended, Gone;
    if steps != [] {
      StepInv(s, steps[0]);
      StepAttended(s, steps[0]);
      RunAttended(Apply(s, steps[0]), steps[1..]);
    }
  }

  /**
   * In every run in which no process is killed, the lock file exists only while some
   * process is about to lock it or holds it: once all have released it, it is gone.
   */
  lemma NothingLeftBehind(steps: seq<Step>)
    requires Runs(NEW, steps) && forall i :: 0 <= i < |steps| ==> !steps[i].Die?
    ensures Attended(After(NEW, steps))
    ensures (forall p :: PlaceOf(After(NEW, steps), p).Outside? || PlaceOf(After(NEW, steps), p).Unlinked?) ==>
              After(NEW, steps).path.None?
  {
    assert Inv(NEW) && Attended(NEW) && Gone(NEW);
    RunAttended(NEW, steps);
  }
}
