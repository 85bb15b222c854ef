/** What holds of the chunk cache in every reachable state. */
module ImageInvariant {
  import opened Common
  import opened ImageState
  import opened ImageSteps

  ghost function Waiting(th: Threads, c: Chunk): set<Tid> {
    set t | t in th && WaitsOn(th[t], c)
  }

  ghost function WokenForBuffer(th: Threads): set<Tid> {
    set t | t in th && th[t].WaitBuffer? && th[t].woken
  }

  /** No thread refers to a freed entry, and an entry is busy exactly when one thread,
      the one the flag names, holds it. */
  ghost predicate Refs(s: State) {
    && (forall t, c :: t in s.th && c in Holds(s.th[t]) ==> c in s.img.entries && s.img.entries[c].busy == Some(t))
    && (forall t :: t in s.th && s.th[t].WaitFlag? ==> s.th[t].c in s.img.entries)
    && (forall c :: c in s.img.entries && s.img.entries[c].busy.Some? ==>
          s.img.entries[c].busy.value in s.th && c in Holds(s.th[s.img.entries[c].busy.value]))
  }

  /** `waiters` counts the threads inside _entry_acquire. */
  ghost predicate Counts(s: State) {
    forall c :: c in s.img.entries ==> s.img.entries[c].waiters == |Waiting(s.th, c)|
  }

  ghost predicate InMidClean(s: State, c: Chunk)
    requires c in s.img.entries && Refs(s)
  {
    s.img.entries[c].busy.Some? && MidClean(s.th[s.img.entries[c].busy.value], c)
  }

  /** Sizes; only chunks of the disk are cached; a dirty entry has a buffer. */
  ghost predicate Shape(s: State) {
    && (forall c :: c in s.img.backing ==> |s.img.backing[c]| == s.img.chunksize)
    && (forall c :: c in s.img.entries ==> c in s.img.backing)
    && (forall c :: c in s.img.entries && s.img.entries[c].data.Some? ==> |s.img.entries[c].data.value| == s.img.chunksize)
    && (forall c :: c in s.img.entries && s.img.entries[c].dirty ==> s.img.entries[c].data.Some?)
  }

  /** An entry that nobody uses has a buffer; otherwise it would have been freed.
      `c` is left out: it has just been looked up. */
  ghost predicate NoZombies(s: State, c: Option<Chunk>) {
    forall x :: x in s.img.entries && Some(x) != c && s.img.entries[x].busy.None? && s.img.entries[x].waiters == 0 ==>
                s.img.entries[x].data.Some?
  }

  ghost predicate Idling(e: Entry) {
    e.data.Some? && e.busy.None? && e.waiters == 0
  }

  /** Which entries are on the two queues. */
  ghost predicate Queues(s: State) {
    && Refs(s)
    && NoDup(s.img.reclaimable) && NoDup(s.img.dirty)
    && (forall c :: c in s.img.reclaimable <==> c in s.img.entries && Idling(s.img.entries[c]))
    && (forall c :: c in s.img.dirty <==> c in s.img.entries && s.img.entries[c].dirty && !InMidClean(s, c))
  }

  /** The buffers in use and the unused part of the budget make up the whole. */
  ghost predicate Budget(s: State, cap: nat) {
    s.img.allocatable + |Buffered(s.img)| == cap
  }

  /** What a thread's position says of the entries it holds. */
  ghost predicate PosOk(img: Image, p: Thread) {
    match p
    case WaitFlag(_, ForVictim(_, _), _) => false
    case WaitFlag(_, ForIO(op), _) => OpFits(op, img.chunksize)
    case GotFlag(v, ForVictim(c, op)) => EvictOk(img, c, op, v)
    case GotFlag(_, ForIO(op)) => OpFits(op, img.chunksize)
    case WaitBuffer(c, op, _) => c in img.entries && img.entries[c].data.None? && img.allocatable == 0 && OpFits(op, img.chunksize)
    case EvictIO(c, op, v) => EvictOk(img, c, op, v) && img.entries[v].dirty
    case EvictFin(c, op, v) => EvictOk(img, c, op, v) && img.entries[v].dirty
    case CleanVictim(c, op, v) => EvictOk(img, c, op, v) && !img.entries[v].dirty
    case Populating(c, op) => BufferOk(img, c, op) && !img.entries[c].loaded && !WholeWrite(op, img.chunksize)
    case Using(c, op) => BufferOk(img, c, op)
    case Releasing(c, _) => c in img.entries && img.entries[c].data.Some?
    case Dropping(c, next) => c in img.entries && (next.UseBuffer? ==> c != next.c && BufferOk(img, next.c, next.op) && !img.entries[next.c].loaded)
    case CleanIO(c, _) => c in img.entries && img.entries[c].dirty && img.entries[c].data.Some?
    case CleanFin(c, _) => c in img.entries && img.entries[c].dirty && img.entries[c].data.Some?
    case _ => true
  }

  ghost predicate BufferOk(img: Image, c: Chunk, op: Op) {
    c in img.entries && img.entries[c].data.Some? && OpFits(op, img.chunksize)
  }

  ghost predicate EvictOk(img: Image, c: Chunk, op: Op, v: Chunk) {
    && c != v && c in img.entries && img.entries[c].data.None? && OpFits(op, img.chunksize)
    && v in img.entries && img.entries[v].data.Some?
  }

  ghost predicate Positions(s: State) {
    forall t :: t in s.th ==> PosOk(s.img, s.th[t])
  }

  /** No wakeup is lost: a free entry with a blocked waiter also has a woken one, and while
      a thread is blocked for a buffer, every reclaimable entry has a woken thread to take it. */
  ghost predicate Wakeups(s: State) {
    && (forall c, t :: c in s.img.entries && s.img.entries[c].busy.None? && t in s.th && BlockedOn(s.th[t], Available(c)) ==>
          exists w :: w in s.th && WaitsOn(s.th[w], c) && s.th[w].woken)
    && (forall t :: t in s.th && BlockedOn(s.th[t], Reclaimable) ==> |s.img.reclaimable| <= |WokenForBuffer(s.th)|)
  }

  /** The buffers and the backing store agree, for each chunk whose backing calls have all succeeded. */
  ghost predicate DataOk(s: State, c: Chunk)
    requires Refs(s) && c in s.img.entries && c in s.img.backing
  {
    var e := s.img.entries[c];
    && !e.error
    && (e.dirty ==> e.loaded)
    && (e.data.Some? && e.loaded && !e.dirty && !(e.busy.Some? && Unmarked(s.th[e.busy.value], c)) ==>
          e.data.value == s.img.backing[c])
    && (e.data.Some? && !e.loaded ==> e.busy.Some? && FillsSoon(s.th[e.busy.value], c, s.img.chunksize))
    && (e.busy.Some? && WrittenBack(s.th[e.busy.value], c) ==> e.data == Some(s.img.backing[c]))
  }

  predicate FillsSoon(p: Thread, c: Chunk, chunksize: nat) {
    || (p.Populating? && p.c == c)
    || (p.Using? && p.c == c && WholeWrite(p.op, chunksize))
    || (p.Dropping? && p.next.UseBuffer? && p.next.c == c)
  }

  /** The thread has changed the buffer and has yet to mark the entry dirty. */
  predicate Unmarked(p: Thread, c: Chunk) {
    p == Releasing(c, true)
  }

  predicate WrittenBack(p: Thread, c: Chunk) {
    (p.EvictFin? && p.v == c) || (p.CleanFin? && p.c == c)
  }

  ghost predicate Data(s: State)
    requires Refs(s) && Shape(s)
  {
    && (s.img.leaveDirty <==> s.img.tainted != {})
    && (forall c :: c in s.img.entries && c !in s.img.tainted ==> DataOk(s, c))
  }

  ghost predicate Core(s: State, cap: nat) {
    Refs(s) && Counts(s) && Shape(s) && Queues(s) && Budget(s, cap) && Positions(s) && Wakeups(s) && Data(s)
  }

  ghost predicate Inv(s: State, cap: nat) {
    Core(s, cap) && NoZombies(s, None)
  }

  lemma InitInv(s: State, cap: nat)
    requires Init(s, cap)
    ensures Inv(s, cap)
  {
    assert Buffered(s.img) == {};
  }

  /** What the invariant says of the entries a thread uses. */
  ghost predicate LocalOk(s: State, t: Tid) {
    && t in s.th
    && PosOk(s.img, s.th[t])
    && (forall c :: c in Holds(s.th[t]) ==>
          && c in s.img.entries && s.img.entries[c].busy == Some(t)
          && c !in s.img.reclaimable
          && (c in s.img.dirty <==> s.img.entries[c].dirty && !MidClean(s.th[t], c))
          && (s.img.entries[c].dirty ==> s.img.entries[c].data.Some?)
          && c in s.img.backing
          && (s.img.entries[c].data.Some? ==> |s.img.entries[c].data.value| == s.img.chunksize))
    && (s.th[t].WaitFlag? ==> s.th[t].c in s.img.entries && s.img.entries[s.th[t].c].waiters > 0)
    && (s.img.dirty != [] ==> s.img.dirty[0] in s.img.entries)
    && (s.img.reclaimable != [] ==> s.img.reclaimable[0] in s.img.entries)
  }

  lemma InvLocal(s: State, t: Tid)
    requires Queues(s) && Counts(s) && Positions(s) && Shape(s) && t in s.th
    ensures LocalOk(s, t)
  {
    if s.th[t].WaitFlag? {
      assert t in Waiting(s.th, s.th[t].c);
    }
    assert s.img.dirty != [] ==> s.img.dirty[0] in s.img.dirty;
    assert s.img.reclaimable != [] ==> s.img.reclaimable[0] in s.img.reclaimable;
  }

  lemma LocalSafe(s: State, a: Step)
    requires Enabled(s, a) && LocalOk(s, a.t)
    ensures Safe(s, a)
  {
  }

  /** No step reads a freed entry or a missing buffer, and no g_assert fires. */
  lemma StepsAreSafe(s: State, a: Step, cap: nat)
    requires Inv(s, cap) && Enabled(s, a)
    ensures Safe(s, a)
  {
    InvLocal(s, a.t);
    LocalSafe(s, a);
  }
}
