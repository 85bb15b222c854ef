/** What image_read and image_write answer, told by what was asked: which bytes a read gets,
    which bytes a write puts, and exactly when a request is refused with an error. */
module ImageAnswers {
  import opened Common
  import opened ImageState
  import opened ImageSteps
  import opened ImageInvariant
  import opened ImageHeld
  import opened ImageTheorems

  // ---- A thread works on the request it was given ----

  datatype Request = Request(c: Chunk, op: Op)

  /** The request whose bytes the thread has yet to copy. */
  function Asked(p: Thread): Option<Request> {
    match p
    case WaitFlag(c, ForIO(op), _) => Some(Request(c, op))
    case WaitFlag(_, ForVictim(c, op), _) => Some(Request(c, op))
    case GotFlag(c, ForIO(op)) => Some(Request(c, op))
    case GotFlag(_, ForVictim(c, op)) => Some(Request(c, op))
    case WaitBuffer(c, op, _) => Some(Request(c, op))
    case EvictIO(c, op, _) => Some(Request(c, op))
    case EvictFin(c, op, _) => Some(Request(c, op))
    case CleanVictim(c, op, _) => Some(Request(c, op))
    case Populating(c, op) => Some(Request(c, op))
    case Using(c, op) => Some(Request(c, op))
    case Dropping(_, UseBuffer(c, op)) => Some(Request(c, op))
    case _ => None
  }

  lemma AskedKept(s: State, a: Step, t: Tid)
    requires Enabled(s, a) && Safe(s, a) && t in s.th && Asked(s.th[t]).Some? && a != Copy(t)
    ensures t in Apply(s, a).th && Asked(Apply(s, a).th[t]) == Asked(s.th[t])
  {
    hide Without, Enlist, TakeFlag, ReleaseFlag, Allocate, Steal, WriteBack, Populate, Fill, MarkDirty, MarkClean, Lookup;
  }

  lemma AskedBegins(s: State, t: Tid, c: Chunk, op: Op)
    requires Enabled(s, BeginIO(t, c, op)) && Safe(s, BeginIO(t, c, op))
    ensures var th := Apply(s, BeginIO(t, c, op)).th; t in th && Asked(th[t]) == Some(Request(c, op))
  {
  }

  /** From the step that begins a request to the copy of its bytes, with no other copy by the
      same thread between them, the thread works on that request. */
  lemma {:induction false} AskedUntilCopy(states: seq<State>, steps: seq<Step>, cap: nat, i: nat, n: nat, t: Tid, c: Chunk, op: Op)
    requires Run(states, steps) && Init(states[0], cap) && i < n < |states| && steps[i] == BeginIO(t, c, op)
    requires forall k :: i < k < n ==> steps[k] != Copy(t)
    ensures t in states[n].th && Asked(states[n].th[t]) == Some(Request(c, op))
    decreases n
  {
    hide Inv, Safe, Enabled, Init, Apply;
    RunInv(states, steps, cap, n - 1);
    assert Next(states[n - 1], steps[n - 1], states[n - 1 + 1]);
    if n == i + 1 {
      AskedBegins(states[i], t, c, op);
    } else {
      AskedUntilCopy(states, steps, cap, i, n - 1, t, c, op);
      AskedKept(states[n - 1], steps[n - 1], t);
    }
  }

  // ---- What it is answered ----

  /** The bytes the entry of a thread about to copy has, for a chunk whose backing calls succeeded. */
  lemma BufferShows(s: State, t: Tid, cap: nat)
    requires Inv(s, cap) && t in s.th && s.th[t].Using? && s.th[t].c !in s.img.tainted
    ensures var c := s.th[t].c;
      && c in s.img.entries && c in s.img.backing && !s.img.entries[c].error && OpFits(s.th[t].op, s.img.chunksize)
      && s.img.entries[c].data.Some? && |s.img.entries[c].data.value| == s.img.chunksize
      && (s.th[t].op.ReadSeg? ==> s.img.entries[c].data.value == Content(s.img, c))
  {
    InvGivesLocal(s, t, cap);
    hide Inv;
    assert s.th[t].c in Holds(s.th[t]);
  }

  /** The event that a request is due, given the bytes of its chunk. */
  predicate Answers(ev: Event, c: Chunk, op: Op, disk: Bytes) {
    match op
    case ReadSeg(off, len) => off + len <= |disk| && ev == DidRead(c, off, disk[off..off + len])
    case WriteSeg(off, bytes) => off + |bytes| <= |disk| && ev == DidWrite(c, off, bytes)
  }

  lemma CopyAnswers(s: State, t: Tid, cap: nat)
    requires Inv(s, cap) && Enabled(s, Copy(t)) && Safe(s, Copy(t)) && s.th[t].c !in s.img.tainted
    ensures s.th[t].c in s.img.backing && Answers(EventOf(s, Copy(t)), s.th[t].c, s.th[t].op, Content(s.img, s.th[t].c))
  {
    BufferShows(s, t, cap);
    assert |Content(s.img, s.th[t].c)| == s.img.chunksize;
  }

  /** In every run, a request on a chunk whose backing calls have all succeeded is answered as
      asked: a read gets exactly the bytes that the flat disk holds, at that moment, in the range
      asked for, and a write puts exactly its bytes where it was asked to. */
  lemma RequestIsAnswered(states: seq<State>, steps: seq<Step>, cap: nat, i: nat, n: nat, t: Tid, c: Chunk, op: Op)
    requires Run(states, steps) && Init(states[0], cap) && c in states[0].img.backing
    requires i < n < |steps| && steps[i] == BeginIO(t, c, op) && steps[n] == Copy(t)
    requires forall k :: i < k < n ==> steps[k] != Copy(t)
    requires c !in states[n].img.tainted
    ensures t in states[n].th && states[n].th[t] == Using(c, op)
    ensures Answers(Events(states, steps)[n], c, op, FlatDisk(states[0].img.backing[c], c, Events(states, steps)[..n]))
  {
    hide Inv, Safe, Init, Content, EventOf, FlatDisk, Answers;
    AskedUntilCopy(states, steps, cap, i, n, t, c, op);
    RunInv(states, steps, cap, n);
    CacheIsFlatDisk(states, steps, cap, c, n);
    CopyAnswers(states[n], t, cap);
  }

  // ---- Byte by byte ----

  /** The event is a write to chunk c that covers byte j of it. */
  predicate Covers(ev: Event, c: Chunk, size: nat, j: nat) {
    ev.DidWrite? && ev.c == c && ev.off <= j < ev.off + |ev.bytes| <= size
  }

  /** Event k is the last one to have written byte j. */
  ghost predicate LastToCover(evs: seq<Event>, k: nat, c: Chunk, size: nat, j: nat) {
    k < |evs| && Covers(evs[k], c, size, j) && forall m :: k < m < |evs| ==> !Covers(evs[m], c, size, j)
  }

  ghost predicate NeverCovered(evs: seq<Event>, c: Chunk, size: nat, j: nat) {
    forall m :: 0 <= m < |evs| ==> !Covers(evs[m], c, size, j)
  }

  /** A byte of the flat disk is the one that was last written there, or the initial one. */
  lemma {:induction false} LastWriteWins(initial: Bytes, c: Chunk, evs: seq<Event>, j: nat)
    requires j < |initial|
    ensures |FlatDisk(initial, c, evs)| == |initial|
    ensures NeverCovered(evs, c, |initial|, j) ==> FlatDisk(initial, c, evs)[j] == initial[j]
    ensures forall k: nat :: LastToCover(evs, k, c, |initial|, j) ==> FlatDisk(initial, c, evs)[j] == evs[k].bytes[j - evs[k].off]
    decreases |evs|
  {
    if evs != [] {
      var n := |evs| - 1;
      var front := evs[..n];
      LastWriteWins(initial, c, front, j);
      forall k: nat | LastToCover(evs, k, c, |initial|, j)
        ensures FlatDisk(initial, c, evs)[j] == evs[k].bytes[j - evs[k].off]
      {
        assert k < n ==> LastToCover(front, k, c, |initial|, j) && !Covers(evs[n], c, |initial|, j);
      }
      assert NeverCovered(evs, c, |initial|, j) ==> NeverCovered(front, c, |initial|, j) && !Covers(evs[n], c, |initial|, j);
    }
  }

  /** In every run, each byte that a read gets, of a chunk whose backing calls have succeeded, is
      the one last written to its place, or the one the local cache began with. */
  lemma ReadsLastWritten(states: seq<State>, steps: seq<Step>, cap: nat, i: nat, n: nat, t: Tid, c: Chunk, off: nat, len: nat, j: nat)
    requires Run(states, steps) && Init(states[0], cap) && c in states[0].img.backing
    requires i < n < |steps| && steps[i] == BeginIO(t, c, ReadSeg(off, len)) && steps[n] == Copy(t)
    requires forall k :: i < k < n ==> steps[k] != Copy(t)
    requires c !in states[n].img.tainted && off <= j < off + len
    ensures var (evs, initial) := (Events(states, steps), states[0].img.backing[c]);
      && evs[n].DidRead? && evs[n].c == c && evs[n].off == off && |evs[n].bytes| == len && j < |initial|
      && (NeverCovered(evs[..n], c, |initial|, j) ==> evs[n].bytes[j - off] == initial[j])
      && forall k: nat :: LastToCover(evs[..n], k, c, |initial|, j) ==> evs[n].bytes[j - off] == evs[k].bytes[j - evs[k].off]
  {
    hide Next, Init, FlatDisk, SafeEvent, LastToCover, NeverCovered;
    RequestIsAnswered(states, steps, cap, i, n, t, c, ReadSeg(off, len));
    var (evs, initial) := (Events(states, steps), states[0].img.backing[c]);
    FlatSize(initial, c, evs[..n]);
    LastWriteWins(initial, c, evs[..n], j);
    assert evs[n].bytes[j - off] == FlatDisk(initial, c, evs[..n])[j];
    LastIsThere(evs[..n], c, |initial|, j);
  }

  lemma {:induction false} FlatSize(initial: Bytes, c: Chunk, evs: seq<Event>)
    ensures |FlatDisk(initial, c, evs)| == |initial|
    decreases |evs|
  {
    if evs != [] {
      FlatSize(initial, c, evs[..|evs| - 1]);
    }
  }

  lemma LastIsThere(evs: seq<Event>, c: Chunk, size: nat, j: nat)
    ensures forall k: nat :: LastToCover(evs, k, c, size, j) ==> k < |evs| && evs[k].DidWrite? && evs[k].off <= j < evs[k].off + |evs[k].bytes|
  {
  }

  // ---- When it is refused ----

  /** The step is a backing call for the entry of chunk c, and fails. */
  predicate FailsFor(s: State, a: Step, c: Chunk)
    requires a.t in s.th
  {
    var p := s.th[a.t];
    || (a.Load? && a.o.Failed? && p.Populating? && p.c == c)
    || (a.EvictUpdate? && a.o.Failed? && p.EvictIO? && p.v == c)
    || (a.CleanUpdate? && a.o.Failed? && p.CleanIO? && p.c == c)
  }

  lemma ErrorStep(s: State, a: Step, c: Chunk)
    requires Enabled(s, a) && Safe(s, a) && c in Apply(s, a).img.entries
    ensures Apply(s, a).img.entries[c].error <==> c in s.img.entries && (s.img.entries[c].error || FailsFor(s, a, c))
  {
    hide Safe, Apply, Enabled;
    if a.Load? || a.EvictUpdate? || a.CleanUpdate? {
      CallErrors(s, a, c);
    } else if a.BeginIO? || a.Retry? || a.CleanNext? || a.Drop? {
      FlagErrors(s, a, c);
    } else {
      OtherErrors(s, a, c);
    }
  }

  lemma CallErrors(s: State, a: Step, c: Chunk)
    requires Enabled(s, a) && Safe(s, a) && c in Apply(s, a).img.entries && (a.Load? || a.EvictUpdate? || a.CleanUpdate?)
    ensures Apply(s, a).img.entries[c].error <==> c in s.img.entries && (s.img.entries[c].error || FailsFor(s, a, c))
  {
  }

  lemma FlagErrors(s: State, a: Step, c: Chunk)
    requires Enabled(s, a) && Safe(s, a) && c in Apply(s, a).img.entries
    requires a.BeginIO? || a.Retry? || a.CleanNext? || a.Drop?
    ensures Apply(s, a).img.entries[c].error <==> c in s.img.entries && s.img.entries[c].error
  {
    hide Without, ValidWake;
  }

  lemma OtherErrors(s: State, a: Step, c: Chunk)
    requires Enabled(s, a) && Safe(s, a) && c in Apply(s, a).img.entries
    requires !a.Load? && !a.EvictUpdate? && !a.CleanUpdate? && !a.BeginIO? && !a.Retry? && !a.CleanNext? && !a.Drop?
    ensures Apply(s, a).img.entries[c].error <==> c in s.img.entries && s.img.entries[c].error
  {
    hide Without, ValidWake;
  }

  /** A backing call for the entry of chunk c has failed, and the entry has not been freed since. */
  ghost predicate FailedSince(states: seq<State>, steps: seq<Step>, n: nat, c: Chunk)
    requires |states| == |steps| + 1 && n < |states|
  {
    exists i :: FailedAt(states, steps, i, n, c)
  }

  ghost predicate FailedAt(states: seq<State>, steps: seq<Step>, i: nat, n: nat, c: Chunk)
    requires |states| == |steps| + 1 && n < |states|
  {
    && i < n && steps[i].t in states[i].th && FailsFor(states[i], steps[i], c)
    && forall k :: i <= k <= n ==> c in states[k].img.entries
  }

  lemma {:induction false} ErrorIff(states: seq<State>, steps: seq<Step>, cap: nat, n: nat, c: Chunk)
    requires Run(states, steps) && Init(states[0], cap) && n < |states| && c in states[n].img.entries
    ensures states[n].img.entries[c].error <==> FailedSince(states, steps, n, c)
    decreases n
  {
    hide Inv, Safe, Apply, FailsFor;
    if n > 0 {
      RunInv(states, steps, cap, n - 1);
      assert Next(states[n - 1], steps[n - 1], states[n - 1 + 1]);
      ErrorStep(states[n - 1], steps[n - 1], c);
      if c in states[n - 1].img.entries {
        ErrorIff(states, steps, cap, n - 1, c);
        var m := n - 1;
        if i: nat :| FailedAt(states, steps, i, m, c) {
          assert FailedAt(states, steps, i, n, c);
        }
        if FailsFor(states[n - 1], steps[n - 1], c) {
          assert FailedAt(states, steps, n - 1, n, c);
        }
        if i: nat :| FailedAt(states, steps, i, n, c) {
          assert i < n - 1 ==> FailedAt(states, steps, i, n - 1, c);
        }
      }
    }
  }

  lemma CopyRefuses(s: State, t: Tid)
    requires Enabled(s, Copy(t)) && Safe(s, Copy(t))
    ensures var c := s.th[t].c;
      && (EventOf(s, Copy(t)).Silent? <==> s.img.entries[c].error)
      && (EventOf(s, Copy(t)).Silent? ==> Apply(s, Copy(t)) == State(s.img, s.th[t := Releasing(c, false)]))
  {
  }

  /** In every run, a request is refused if and only if a backing call for the entry it uses has
      failed and the entry has not been freed since; a refused request changes no bytes. */
  lemma RefusedIff(states: seq<State>, steps: seq<Step>, cap: nat, n: nat, t: Tid)
    requires Run(states, steps) && Init(states[0], cap) && n < |steps| && steps[n] == Copy(t)
    ensures t in states[n].th && states[n].th[t].Using?
    ensures Events(states, steps)[n].Silent? <==> FailedSince(states, steps, n, states[n].th[t].c)
    ensures Events(states, steps)[n].Silent? ==>
              states[n + 1] == State(states[n].img, states[n].th[t := Releasing(states[n].th[t].c, false)])
  {
    hide Inv, Apply, EventOf, Init;
    RunInv(states, steps, cap, n);
    assert Next(states[n], steps[n], states[n + 1]);
    CopyRefuses(states[n], t);
    ErrorIff(states, steps, cap, n, states[n].th[t].c);
  }
}
