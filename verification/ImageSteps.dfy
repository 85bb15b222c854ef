/** The threads of the chunk cache, and what each may do between two points at which the
    image lock is free. The model lets another thread in at more points than the lock
    does, so its runs include every run of the program.

    Condition variables are modelled down to the signal: a thread inside g_cond_wait is
    blocked until a signal (or a spurious wakeup) sets its `woken` flag. */
module ImageSteps {
  import opened Common
  import opened ImageState

  /** One segment of an image_read or image_write. */
  datatype Op =
    | ReadSeg(off: nat, len: nat)
    | WriteSeg(off: nat, bytes: Bytes)

  predicate WholeWrite(op: Op, chunksize: nat) {
    op.WriteSeg? && |op.bytes| == chunksize
  }

  predicate OpFits(op: Op, chunksize: nat) {
    match op
    case ReadSeg(off, len) => off + len <= chunksize
    case WriteSeg(off, bytes) => off + |bytes| <= chunksize
  }

  /** Why a thread wants a busy flag. */
  datatype Purpose =
    | ForIO(op: Op)
    | ForVictim(c: Chunk, op: Op)   // to take the buffer away, for the I/O on chunk c
    | ForClean(force: bool)

  /** What a thread does after an _entry_release. */
  datatype Then =
    | Return
    | NextDirty(force: bool)
    | UseBuffer(c: Chunk, op: Op)

  datatype Thread =
    | Idle
    | WaitFlag(c: Chunk, why: Purpose, woken: bool)      // in _entry_acquire
    | GotFlag(c: Chunk, why: Purpose)
    | WaitBuffer(c: Chunk, op: Op, woken: bool)          // on reclaimable_cond
    | EvictIO(c: Chunk, op: Op, v: Chunk)                // in cache_update for the victim
    | EvictFin(c: Chunk, op: Op, v: Chunk)
    | CleanVictim(c: Chunk, op: Op, v: Chunk)
    | Populating(c: Chunk, op: Op)                       // in cache_get
    | Using(c: Chunk, op: Op)
    | Releasing(c: Chunk, dirtied: bool)                 // at the start of entry_release
    | Dropping(c: Chunk, next: Then)                     // before _entry_release
    | CleanLoop(force: bool)                             // top of entry_clean_all's loop
    | CleanIO(c: Chunk, force: bool)                     // in cache_update
    | CleanFin(c: Chunk, force: bool)

  type Threads = map<Tid, Thread>

  datatype State = State(img: Image, th: Threads)

  /** The chunks whose busy flag a thread in this position holds. */
  function Holds(p: Thread): set<Chunk> {
    match p
    case Idle => {}
    case WaitFlag(_, ForVictim(c, _), _) => {c}
    case WaitFlag(_, _, _) => {}
    case GotFlag(v, ForVictim(c, _)) => {v, c}
    case GotFlag(c, _) => {c}
    case WaitBuffer(c, _, _) => {c}
    case EvictIO(c, _, v) => {c, v}
    case EvictFin(c, _, v) => {c, v}
    case CleanVictim(c, _, v) => {c, v}
    case Populating(c, _) => {c}
    case Using(c, _) => {c}
    case Releasing(c, _) => {c}
    case Dropping(c, UseBuffer(c', _)) => {c, c'}
    case Dropping(c, _) => {c}
    case CleanLoop(_) => {}
    case CleanIO(c, _) => {c}
    case CleanFin(c, _) => {c}
  }

  predicate WaitsOn(p: Thread, c: Chunk) {
    p.WaitFlag? && p.c == c
  }

  /** The chunk a thread is writing back, if any. */
  predicate MidClean(p: Thread, c: Chunk) {
    ((p.EvictIO? || p.EvictFin?) && p.v == c) || ((p.CleanIO? || p.CleanFin?) && p.c == c)
  }

  predicate Blocked(p: Thread) {
    (p.WaitFlag? || p.WaitBuffer?) && !p.woken
  }

  predicate BlockedOn(p: Thread, sig: Signal) {
    match sig
    case Available(c) => p.WaitFlag? && p.c == c && !p.woken
    case Reclaimable => p.WaitBuffer? && !p.woken
    case NoSignal => false
  }

  /** g_cond_signal wakes one blocked thread, if there is one; which one is not known. */
  ghost predicate ValidWake(th: Threads, sig: Signal, wake: Option<Tid>) {
    match wake
    case Some(w) => w in th && BlockedOn(th[w], sig)
    case None => forall w :: w in th ==> !BlockedOn(th[w], sig)
  }

  function Woken(p: Thread): Thread
    requires p.WaitFlag? || p.WaitBuffer?
  {
    p.(woken := true)
  }

  function ApplyWake(th: Threads, wake: Option<Tid>): Threads
    requires wake.Some? ==> wake.value in th && (th[wake.value].WaitFlag? || th[wake.value].WaitBuffer?)
  {
    match wake
    case Some(w) => th[w := Woken(th[w])]
    case None => th
  }

  datatype Step =
    | BeginIO(t: Tid, c: Chunk, op: Op)
    | BeginClean(t: Tid, force: bool)
    | Spurious(t: Tid)
    | Retry(t: Tid)
    | GetBuffer(t: Tid, junk: Bytes)
    | RetryBuffer(t: Tid)
    | StartEvict(t: Tid)
    | EvictUpdate(t: Tid, o: Outcome)
    | FinishEvict(t: Tid)
    | TakeBuffer(t: Tid)
    | Load(t: Tid, o: Outcome)
    | Copy(t: Tid)
    | Finish(t: Tid)
    | Drop(t: Tid, wake: Option<Tid>)
    | CleanNext(t: Tid)
    | CleanDecide(t: Tid, ripe: bool)
    | CleanUpdate(t: Tid, o: Outcome)
    | CleanFinish(t: Tid)

  predicate OutcomeFits(o: Outcome, chunksize: nat) {
    o.Failed? ==> |o.junk| == chunksize
  }

  /** The thread is where the step starts, and the step's choices are possible ones. */
  ghost predicate Enabled(s: State, a: Step) {
    a.t in s.th &&
    var p := s.th[a.t];
    match a
    case BeginIO(_, c, op) => p.Idle? && c in s.img.backing && OpFits(op, s.img.chunksize)
    case BeginClean(_, _) => p.Idle?
    case Spurious(_) => Blocked(p)
    case Retry(_) => p.WaitFlag? && p.woken
    case GetBuffer(_, junk) => p.GotFlag? && p.why.ForIO? && |junk| == s.img.chunksize
    case RetryBuffer(_) => p.WaitBuffer? && p.woken
    case StartEvict(_) => p.GotFlag? && p.why.ForVictim?
    case EvictUpdate(_, o) => p.EvictIO? && OutcomeFits(o, s.img.chunksize)
    case FinishEvict(_) => p.EvictFin?
    case TakeBuffer(_) => p.CleanVictim?
    case Load(_, o) => p.Populating? && OutcomeFits(o, s.img.chunksize)
    case Copy(_) => p.Using?
    case Finish(_) => p.Releasing?
    case Drop(_, wake) => p.Dropping? && (p.c in s.img.entries ==> ValidWake(s.th, ReleaseSignal(s.img, p.c), wake))
    case CleanNext(_) => p.CleanLoop?
    case CleanDecide(_, _) => p.GotFlag? && p.why.ForClean?
    case CleanUpdate(_, o) => p.CleanIO? && OutcomeFits(o, s.img.chunksize)
    case CleanFinish(_) => p.CleanFin?
  }

  /** _entry_acquire, up to its first wait or to its end. */
  function EnterAcquire(img: Image, th: Threads, t: Tid, c: Chunk, why: Purpose): State
    requires c in img.entries
  {
    var img' := Enlist(img, c);
    if img'.entries[c].busy.None?
    then State(TakeFlag(img', c, t), th[t := GotFlag(c, why)])
    else State(img', th[t := WaitFlag(c, why, false)])
  }

  /** Where entry_acquire goes once the entry has a buffer that was not filled before. */
  function AfterBuffer(c: Chunk, op: Op, chunksize: nat): Thread {
    if WholeWrite(op, chunksize) then Using(c, op) else Populating(c, op)
  }

  function Resume(next: Then, chunksize: nat): Thread {
    match next
    case Return => Idle
    case NextDirty(force) => CleanLoop(force)
    case UseBuffer(c, op) => AfterBuffer(c, op, chunksize)
  }

  /** The memory accesses of the step are to entries that exist and have buffers, and its
      g_asserts hold. `ImageInvariant.StepsAreSafe` proves this of every reachable state. */
  ghost predicate Safe(s: State, a: Step)
    requires Enabled(s, a)
  {
    var p := s.th[a.t];
    var img := s.img;
    match a
    case Retry(_) => p.c in img.entries && img.entries[p.c].waiters > 0
    case GetBuffer(_, _) =>
      p.c in img.entries &&
      (img.entries[p.c].data.None? && img.allocatable == 0 && img.reclaimable != [] ==> img.reclaimable[0] in img.entries)
    case RetryBuffer(_) => img.reclaimable != [] ==> img.reclaimable[0] in img.entries
    case StartEvict(_) => p.c in img.entries && (img.entries[p.c].dirty ==> p.c in img.dirty && img.entries[p.c].data.Some?)
    case EvictUpdate(_, _) => p.v in img.entries && img.entries[p.v].data.Some?
    case FinishEvict(_) => p.v in img.entries && p.v !in img.dirty
    case TakeBuffer(_) => p.c in img.entries && p.v in img.entries && p.c != p.v && img.entries[p.v].data.Some?
    case Load(_, _) => p.c in img.entries && p.c in img.backing && img.entries[p.c].data.Some?
    case Copy(_) => p.c in img.entries && img.entries[p.c].data.Some? && |img.entries[p.c].data.value| == img.chunksize
                    && OpFits(p.op, img.chunksize)
    case Finish(_) => p.c in img.entries && (!img.entries[p.c].dirty ==> p.c !in img.dirty)
    case Drop(_, _) => p.c in img.entries && p.c !in img.reclaimable
    case CleanNext(_) => img.dirty != [] ==> img.dirty[0] in img.entries
    case CleanDecide(_, _) =>
      p.c in img.entries && (img.entries[p.c].dirty ==> p.c in img.dirty && img.entries[p.c].data.Some?)
    case CleanUpdate(_, _) => p.c in img.entries && img.entries[p.c].data.Some?
    case CleanFinish(_) => p.c in img.entries && p.c !in img.dirty
    case _ => true
  }

  /** The wait for a reclaimable entry, and the choice of the victim at the queue's head. */
  function PickVictim(s: State, t: Tid, c: Chunk, op: Op): State
    requires s.img.reclaimable != [] ==> s.img.reclaimable[0] in s.img.entries
  {
    if s.img.reclaimable == [] then s.(th := s.th[t := WaitBuffer(c, op, false)])
    else EnterAcquire(s.img, s.th, t, s.img.reclaimable[0], ForVictim(c, op))
  }

  /** The state after a step. */
  ghost function Apply(s: State, a: Step): State
    requires Enabled(s, a) && Safe(s, a)
  {
    var p := s.th[a.t];
    var img := s.img;
    var th := s.th;
    var t := a.t;
    match a
    case BeginIO(_, c, op) => EnterAcquire(Lookup(img, c), th, t, c, ForIO(op))
    case BeginClean(_, force) => State(img, th[t := CleanLoop(force)])
    case Spurious(_) => State(img, th[t := Woken(p)])
    case Retry(_) =>
      if img.entries[p.c].busy.Some? then State(img, th[t := WaitFlag(p.c, p.why, false)])
      else State(TakeFlag(img, p.c, t), th[t := GotFlag(p.c, p.why)])
    case GetBuffer(_, junk) =>
      if img.entries[p.c].data.Some? then State(img, th[t := Using(p.c, p.why.op)])
      else if img.allocatable > 0 then
        State(Allocate(img, p.c, junk), th[t := AfterBuffer(p.c, p.why.op, img.chunksize)])
      else PickVictim(s, t, p.c, p.why.op)
    case RetryBuffer(_) => PickVictim(s, t, p.c, p.op)
    case StartEvict(_) =>
      if img.entries[p.c].dirty
      then State(LeaveDirtyQueue(img, p.c), th[t := EvictIO(p.why.c, p.why.op, p.c)])
      else State(img, th[t := CleanVictim(p.why.c, p.why.op, p.c)])
    case EvictUpdate(_, o) => State(WriteBack(img, p.v, o), th[t := EvictFin(p.c, p.op, p.v)])
    case FinishEvict(_) => State(MarkClean(img, p.v), th[t := CleanVictim(p.c, p.op, p.v)])
    case TakeBuffer(_) => State(Steal(img, p.c, p.v), th[t := Dropping(p.v, UseBuffer(p.c, p.op))])
    case Load(_, o) => State(Populate(img, p.c, o), th[t := Using(p.c, p.op)])
    case Copy(_) =>
      if img.entries[p.c].error then State(img, th[t := Releasing(p.c, false)])
      else if p.op.ReadSeg? then State(img, th[t := Releasing(p.c, false)])
      else State(Fill(img, p.c, p.op.off, p.op.bytes), th[t := Releasing(p.c, true)])
    case Finish(_) => State(if p.dirtied then MarkDirty(img, p.c) else img, th[t := Dropping(p.c, Return)])
    case Drop(_, wake) => State(ReleaseFlag(img, p.c), ApplyWake(th, wake)[t := Resume(p.next, img.chunksize)])
    case CleanNext(_) =>
      if img.dirty == [] then State(img, th[t := Idle])
      else EnterAcquire(img, th, t, img.dirty[0], ForClean(p.force))
    case CleanDecide(_, ripe) =>
      var e := img.entries[p.c];
      if !e.dirty then State(img, th[t := Dropping(p.c, NextDirty(p.why.force))])
      else if !p.why.force && !ripe then State(img, th[t := Dropping(p.c, Return)])
      else State(LeaveDirtyQueue(img, p.c), th[t := CleanIO(p.c, p.why.force)])
    case CleanUpdate(_, o) => State(WriteBack(img, p.c, o), th[t := CleanFin(p.c, p.force)])
    case CleanFinish(_) => State(MarkClean(img, p.c), th[t := Dropping(p.c, NextDirty(p.force))])
  }

  /** What the user of the disk sees of a step. */
  datatype Event =
    | Silent
    | DidRead(c: Chunk, off: nat, bytes: Bytes)
    | DidWrite(c: Chunk, off: nat, bytes: Bytes)

  ghost function EventOf(s: State, a: Step): Event
    requires Enabled(s, a) && Safe(s, a)
  {
    var p := s.th[a.t];
    if a.Copy? && !s.img.entries[p.c].error then
      match p.op
      case ReadSeg(off, len) => DidRead(p.c, off, s.img.entries[p.c].data.value[off..off + len])
      case WriteSeg(off, bytes) => DidWrite(p.c, off, bytes)
    else Silent
  }

  /** image_init: no entry, no thread inside the cache, the whole budget unused. */
  ghost predicate Init(s: State, cap: nat) {
    && s.img.entries == map[]
    && s.img.dirty == [] && s.img.reclaimable == []
    && s.img.allocatable == cap
    && !s.img.leaveDirty && s.img.tainted == {}
    && (forall c :: c in s.img.backing ==> |s.img.backing[c]| == s.img.chunksize)
    && (forall t :: t in s.th ==> s.th[t].Idle?)
  }

  /** One step of the program. After an unsafe step anything may follow. */
  ghost predicate Next(s: State, a: Step, s': State) {
    Enabled(s, a) && (Safe(s, a) ==> s' == Apply(s, a))
  }

  /** A run: every state follows from the one before by the step between them. */
  ghost predicate Run(states: seq<State>, steps: seq<Step>) {
    && |states| == |steps| + 1
    && forall i {:trigger steps[i]} :: 0 <= i < |steps| ==> Next(states[i], steps[i], states[i + 1])
  }
}
