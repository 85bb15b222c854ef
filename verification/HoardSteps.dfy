/**
 * Any number of Parcelkeeper processes sharing one hoard cache.  A step is one
 * SQL transaction, committed or rolled back, or a process coming or going.  A
 * rollback restores the tables but not what was written to the data file.
 */
module HoardSteps {
  import opened Common
  import opened HoardState

  /** `procs` holds the slot table of each process that has the hoard open. */
  datatype Hoard = Hoard(chunks: Table, refs: set<(nat, Tag)>, file: File, procs: map<nat, Slots>)

  datatype Step =
    | Open(p: nat)
    | Put(p: nat, tag: Tag, data: Bytes, choice: Choice)
      /** A put undone after the first `k` bytes of the slot were written. */
    | PutUndone(p: nat, tag: Tag, data: Bytes, choice: Choice, k: nat)
    | Flush(p: nat)
    | Invalidate(p: nat, o: nat, tag: Tag)
    | InvalidateSlot(p: nat, o: nat)
    | SyncRefs(p: nat, parcel: nat, tags: set<Tag>, newChunks: bool)
    | RemoveParcel(p: nat, parcel: nat)
    | Collect(p: nat)
      /** Shutdown's cleanup, with or without garbage collection; the process then ends. */
    | Cleanup(p: nat, gc: bool)
      /** The end of a process that did not or could not clean up, or its crash. */
    | Exit(p: nat)
    | Compact(p: nat, moves: seq<(nat, nat)>)
      /** Moves undone, possibly in the middle of writing, with `torn` left at the next destination. */
    | CompactUndone(p: nat, moves: seq<(nat, nat)>, to: nat, torn: Option<Bytes>)
    | Truncate(p: nat, cut: nat)
    | TruncateUndone(p: nat, cut: nat)

  ghost predicate Enabled(digest: Bytes -> Tag, h: Hoard, s: Step) {
    if s.Open? then s.p !in h.procs else s.p in h.procs && EnabledOf(digest, h, s)
  }

  /** Process `p` holds the chunk `tag` nowhere yet, and may pick this slot for it. */
  ghost predicate MayPut(digest: Bytes -> Tag, h: Hoard, p: nat, tag: Tag, data: Bytes, c: Choice)
    requires p in h.procs
  {
    && digest(data) == tag
    && !SlotHasTag(h.procs[p], tag)
    && !HasTag(h.chunks, tag)
    && ChoiceOk(h.chunks, h.procs[p], c)
  }

  ghost predicate EnabledOf(digest: Bytes -> Tag, h: Hoard, s: Step)
    requires s.p in h.procs
  {
    match s
    case Put(p, tag, data, choice) =>
      MayPut(digest, h, p, tag, data, choice) && |data| <= SLOT
    case PutUndone(p, tag, data, choice, k) =>
      MayPut(digest, h, p, tag, data, choice) && k <= SLOT && (|data| <= SLOT || k == 0)
    case Cleanup(p, _) => h.procs.Keys == {p}
    case Compact(_, moves) => |moves| <= MOVES && MovesOk(digest, h.chunks, h.file, moves)
    case CompactUndone(_, moves, to, _) =>
      && MovesOk(digest, h.chunks, h.file, moves)
      && LowestFree(AfterMoves(digest, h.chunks, h.file, moves).0, to)
      && exists from :: Tagged(AfterMoves(digest, h.chunks, h.file, moves).0, from) && to < from
    case Truncate(_, cut) => CutsAt(h.chunks, cut)
    case TruncateUndone(_, cut) => CutsAt(h.chunks, cut)
    case _ => true
  }

  ghost function Apply(digest: Bytes -> Tag, h: Hoard, s: Step): Hoard
    requires Enabled(digest, h, s)
  {
    match s
    case Open(p) => h.(procs := h.procs[p := map[]])
    case Put(p, tag, data, c) =>
      h.(chunks := ChosenTable(h.chunks, h.procs[p], c),
         file := h.file[c.o := Padded(data)],
         procs := h.procs[p := ChosenSlots(h.procs[p], c)[c.o := Slot(Some(tag), |data|)]])
    case PutUndone(_, _, data, c, k) => h.(file := TornFile(h.file, c.o, data, k))
    case Flush(p) => h.(chunks := Flushed(h.chunks, h.procs[p]), procs := h.procs[p := map[]])
    case Invalidate(p, o, tag) => h.(chunks := Invalidated(h.chunks, o, tag))
    case InvalidateSlot(p, o) => h.(procs := h.procs[p := InvalidatedSlot(h.procs[p], o)])
    case SyncRefs(_, parcel, tags, newChunks) => h.(refs := SyncedRefs(h.refs, parcel, tags, newChunks))
    case RemoveParcel(_, parcel) => h.(refs := set r | r in h.refs && r.0 != parcel)
    case Collect(_) => h.(chunks := Collected(h.chunks, h.refs))
    case Cleanup(p, gc) =>
      h.(chunks := if gc then Collected(Reclaimed(h.chunks), h.refs) else Reclaimed(h.chunks),
         procs := h.procs - {p})
    case Exit(p) => h.(procs := h.procs - {p})
    case Compact(_, moves) =>
      var (t, f) := AfterMoves(digest, h.chunks, h.file, moves);
      h.(chunks := t, file := f)
    case CompactUndone(_, moves, to, torn) =>
      var f := AfterMoves(digest, h.chunks, h.file, moves).1;
      h.(file := if torn.Some? then f[to := torn.value] else f)
    case Truncate(_, cut) => h.(chunks := TruncatedTable(h.chunks, cut), file := TruncatedFile(h.file, cut))
    case TruncateUndone(_, cut) => h.(file := TruncatedFile(h.file, cut))
  }

  /** These are the tables and the file as process `p` sees them. */
  ghost predicate Sees(h: Hoard, p: nat, t: Table, s: Slots, f: File) {
    p in h.procs && h.chunks == t && h.procs[p] == s && h.file == f
  }

  /** The step is possible, leaves process `p` with these tables and this file, and changes nothing else. */
  ghost predicate LeavesWith(digest: Bytes -> Tag, h: Hoard, step: Step, t: Table, s: Slots, f: File) {
    Enabled(digest, h, step) && Apply(digest, h, step) == h.(chunks := t, file := f, procs := h.procs[step.p := s])
  }

  const NEW := Hoard(map[], {}, map[], map[])

  /** `steps` leads from `h` through enabled steps only. */
  ghost predicate Runs(digest: Bytes -> Tag, h: Hoard, steps: seq<Step>)
    decreases |steps|
  {
    steps == [] || (Enabled(digest, h, steps[0]) && Runs(digest, Apply(digest, h, steps[0]), steps[1..]))
  }

  ghost function After(digest: Bytes -> Tag, h: Hoard, steps: seq<Step>): Hoard
    requires Runs(digest, h, steps)
    decreases |steps|
  {
    if steps == [] then h else After(digest, Apply(digest, h, steps[0]), steps[1..])
  }

  // ----- The invariant -----

  ghost predicate Disjoint(procs: map<nat, Slots>) {
    forall p, q, o :: p in procs && q in procs && p != q && o in procs[p] ==> o !in procs[q]
  }

  ghost predicate ProcsOk(t: Table, procs: map<nat, Slots>) {
    && (forall p :: p in procs ==> SlotsOk(t, procs[p]))
    && Disjoint(procs)
  }

  ghost predicate Inv(h: Hoard) { TableOk(h.chunks) && ProcsOk(h.chunks, h.procs) }

  ghost predicate Integrity(digest: Bytes -> Tag, h: Hoard) {
    && TableIntact(digest, h.chunks, h.file)
    && forall p :: p in h.procs ==> SlotsIntact(digest, h.procs[p], h.file)
  }
}
