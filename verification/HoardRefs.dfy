/**
 * Which chunks the parcels of a hoard refer to, told by the steps of a run, and
 * what garbage collection makes of that.
 */
module HoardRefs {
  import opened Common
  import opened HoardState
  import opened HoardSteps
  import opened HoardInvariant
  import opened HoardTheorems

  // ----- References over a run -----

  /** The step gives the parcel a reference to the chunk. */
  predicate Adds(s: Step, parcel: nat, tag: Tag) {
    s.SyncRefs? && s.parcel == parcel && tag in s.tags
  }

  /** The step takes the parcel's reference away: the parcel is removed, or has done without the chunk. */
  predicate Drops(s: Step, parcel: nat, tag: Tag) {
    || (s.RemoveParcel? && s.parcel == parcel)
    || (s.SyncRefs? && s.parcel == parcel && !s.newChunks && tag !in s.tags)
  }

  /** The parcel refers to the chunk after these steps: from the start or since some step, and no later step took that away. */
  ghost predicate RefersTo(refs: set<(nat, Tag)>, steps: seq<Step>, parcel: nat, tag: Tag) {
    || ((parcel, tag) in refs && forall j :: 0 <= j < |steps| ==> !Drops(steps[j], parcel, tag))
    || exists i :: AddedAt(steps, i, parcel, tag)
  }

  ghost predicate AddedAt(steps: seq<Step>, i: nat, parcel: nat, tag: Tag) {
    i < |steps| && Adds(steps[i], parcel, tag) && forall j :: i < j < |steps| ==> !Drops(steps[j], parcel, tag)
  }

  lemma RefStep(digest: Bytes -> Tag, h: Hoard, s: Step, parcel: nat, tag: Tag)
    requires Enabled(digest, h, s)
    ensures (parcel, tag) in Apply(digest, h, s).refs <==>
            Adds(s, parcel, tag) || ((parcel, tag) in h.refs && !Drops(s, parcel, tag))
  {
  }

  lemma RefersHead(refs: set<(nat, Tag)>, next: set<(nat, Tag)>, steps: seq<Step>, parcel: nat, tag: Tag)
    requires steps != []
    requires (parcel, tag) in next <==> Adds(steps[0], parcel, tag) || ((parcel, tag) in refs && !Drops(steps[0], parcel, tag))
    ensures RefersTo(refs, steps, parcel, tag) <==> RefersTo(next, steps[1..], parcel, tag)
  {
    var rest := steps[1..];
    assert forall j :: 0 <= j < |rest| ==> rest[j] == steps[j + 1];
    if i: nat :| AddedAt(steps, i, parcel, tag) {
      assert i > 0 ==> AddedAt(rest, i - 1, parcel, tag);
    }
    if i: nat :| AddedAt(rest, i, parcel, tag) {
      assert AddedAt(steps, i + 1, parcel, tag);
    }
    if (parcel, tag) in next && forall j :: 0 <= j < |rest| ==> !Drops(rest[j], parcel, tag) {
      assert forall j :: 0 < j < |steps| ==> steps[j] == rest[j - 1];
      assert Adds(steps[0], parcel, tag) ==> AddedAt(steps, 0, parcel, tag);
    }
  }

  /**
   * In every run, a parcel refers to a chunk in the end if and only if it did so
   * at the start or some sync of that parcel listed the chunk, and since then the
   * parcel was not removed and no full sync of it left the chunk out.
   */
  lemma {:induction false} RefersIff(digest: Bytes -> Tag, h: Hoard, steps: seq<Step>, parcel: nat, tag: Tag)
    requires Runs(digest, h, steps)
    ensures (parcel, tag) in After(digest, h, steps).refs <==> RefersTo(h.refs, steps, parcel, tag)
    decreases |steps|
  {
    hide Enabled, Apply, Adds, Drops;
    if steps != [] {
      var next := Apply(digest, h, steps[0]);
      RefStep(digest, h, steps[0], parcel, tag);
      RefersHead(h.refs, next.refs, steps, parcel, tag);
      RefersIff(digest, next, steps[1..], parcel, tag);
    }
  }

  // ----- Referenced chunks stay -----

  predicate Collects(s: Step) { s.Collect? || (s.Cleanup? && s.gc) }

  /** No step invalidates the chunk, and whenever garbage is collected some parcel refers to it. */
  ghost predicate Spared(refs: set<(nat, Tag)>, steps: seq<Step>, tag: Tag) {
    forall i :: 0 <= i < |steps| ==> SparedAt(refs, steps, i, tag)
  }

  ghost predicate SparedAt(refs: set<(nat, Tag)>, steps: seq<Step>, i: nat, tag: Tag)
    requires i < |steps|
  {
    && !(steps[i].Invalidate? && steps[i].tag == tag)
    && (Collects(steps[i]) ==> exists parcel :: RefersTo(refs, steps[..i], parcel, tag))
  }

  lemma SparedFirst(h: Hoard, steps: seq<Step>, tag: Tag)
    requires steps != [] && SparedAt(h.refs, steps, 0, tag)
    ensures !MayDrop(h, steps[0], tag)
  {
    if Collects(steps[0]) {
      var parcel: nat :| RefersTo(h.refs, steps[..0], parcel, tag);
      assert (parcel, tag) in h.refs && (parcel, tag).1 == tag;
    }
  }

  lemma SparedLater(digest: Bytes -> Tag, h: Hoard, steps: seq<Step>, tag: Tag)
    requires steps != [] && Enabled(digest, h, steps[0]) && Spared(h.refs, steps, tag)
    ensures Spared(Apply(digest, h, steps[0]).refs, steps[1..], tag)
  {
    hide Enabled, Apply, RefersTo;
    var (next, rest) := (Apply(digest, h, steps[0]).refs, steps[1..]);
    forall i | 0 <= i < |rest| ensures SparedAt(next, rest, i, tag) {
      assert SparedAt(h.refs, steps, i + 1, tag);
      if Collects(rest[i]) {
        var parcel: nat :| RefersTo(h.refs, steps[..i + 1], parcel, tag);
        RefStep(digest, h, steps[0], parcel, tag);
        RefersHead(h.refs, next, steps[..i + 1], parcel, tag);
        assert steps[..i + 1][1..] == rest[..i];
      }
    }
  }

  lemma {:induction false} SparedIsKept(digest: Bytes -> Tag, h: Hoard, steps: seq<Step>, tag: Tag)
    requires Runs(digest, h, steps) && Spared(h.refs, steps, tag)
    ensures NeverDropped(digest, h, steps, tag)
    decreases |steps|
  {
    hide Enabled, Apply, MayDrop, SparedAt;
    if steps != [] {
      assert SparedAt(h.refs, steps, 0, tag);
      SparedFirst(h, steps, tag);
      SparedLater(digest, h, steps, tag);
      SparedIsKept(digest, Apply(digest, h, steps[0]), steps[1..], tag);
    }
  }

  /**
   * In every run, a chunk of the shared table that no reader found damaged, and
   * that some parcel refers to whenever garbage is collected, stays there with its
   * bytes: whatever the processes put, flush, move, truncate or roll back, and
   * whatever the other parcels do with their references.
   */
  lemma RunHolds(digest: Bytes -> Tag, h: Hoard, steps: seq<Step>, tag: Tag, data: Bytes)
    requires Inv(h) && Runs(digest, h, steps)
    requires Held(h.chunks, h.file, tag, data) && Spared(h.refs, steps, tag)
    ensures var after := After(digest, h, steps); Held(after.chunks, after.file, tag, data)
  {
    SparedIsKept(digest, h, steps, tag);
    RunKeeps(digest, h, steps, tag, data);
  }

  // ----- Other chunks go -----

  /** Garbage collection frees exactly the tagged rows that nothing references. */
  lemma CollectedIff(t: Table, refs: set<(nat, Tag)>, o: nat)
    requires o in t
    ensures var u := Collected(t, refs);
      && u.Keys == t.Keys
      && (Tagged(u, o) <==> Tagged(t, o) && Referenced(refs, t[o].tag.value))
      && (Tagged(u, o) || !Tagged(t, o) ==> u[o] == t[o])
      && (Tagged(t, o) && !Tagged(u, o) ==> u[o].tag.None? && u[o].length == 0 && !u[o].inUse)
  {
  }

  /** Cleanup lets go of every row that is allocated without a tag, and of no other. */
  lemma ReclaimedIff(t: Table, o: nat)
    requires o in t
    ensures var u := Reclaimed(t);
      && u.Keys == t.Keys && u[o].tag == t[o].tag && u[o].length == t[o].length
      && (u[o].inUse <==> t[o].inUse && Tagged(t, o))
  {
  }

  /** Over any run that ends with a collection: the tags left are those there were that some parcel then refers to. */
  lemma CollectLeaves(digest: Bytes -> Tag, h: Hoard, steps: seq<Step>, p: nat, tag: Tag)
    requires Runs(digest, h, steps) && Enabled(digest, After(digest, h, steps), Collect(p))
    ensures var before := After(digest, h, steps);
      HasTag(Apply(digest, before, Collect(p)).chunks, tag) <==>
      HasTag(before.chunks, tag) && exists parcel :: RefersTo(h.refs, steps, parcel, tag)
  {
    hide RefersTo;
    var before := After(digest, h, steps);
    CollectedTags(before.chunks, before.refs, tag);
    if Referenced(before.refs, tag) {
      var r :| r in before.refs && r.1 == tag;
      RefersIff(digest, h, steps, r.0, tag);
    }
    if parcel: nat :| RefersTo(h.refs, steps, parcel, tag) {
      RefersIff(digest, h, steps, parcel, tag);
    }
  }

  lemma CollectedTags(t: Table, refs: set<(nat, Tag)>, tag: Tag)
    ensures HasTag(Collected(t, refs), tag) <==> HasTag(t, tag) && Referenced(refs, tag)
  {
    var u := Collected(t, refs);
    if HasTag(t, tag) && Referenced(refs, tag) {
      var o :| o in t && t[o].tag == Some(tag);
      assert o in u && u[o].tag == Some(tag);
    }
  }

  /** After a cleanup no process has the hoard open, and exactly the tagged rows are allocated. */
  lemma CleanupLeaves(digest: Bytes -> Tag, h: Hoard, p: nat, gc: bool, tag: Tag)
    requires Inv(h) && Enabled(digest, h, Cleanup(p, gc))
    ensures var after := Apply(digest, h, Cleanup(p, gc));
      && after.procs == map[]
      && (forall o :: o in after.chunks ==> (after.chunks[o].inUse <==> Tagged(after.chunks, o)))
      && (HasTag(after.chunks, tag) <==> HasTag(h.chunks, tag) && (gc ==> Referenced(h.refs, tag)))
  {
    var (t, u) := (h.chunks, Reclaimed(h.chunks));
    assert HasTag(u, tag) <==> HasTag(t, tag) by {
      if o :| o in t && t[o].tag == Some(tag) { assert o in u && u[o].tag == Some(tag); }
    }
    CollectedTags(u, h.refs, tag);
  }

  // ----- After crashes -----

  /** However many processes have the hoard open, once all but one are gone that one has it to itself. */
  lemma {:induction false} Deserted(digest: Bytes -> Tag, h: Hoard, p: nat) returns (steps: seq<Step>)
    requires p in h.procs
    ensures Runs(digest, h, steps) && After(digest, h, steps) == h.(procs := map[p := h.procs[p]])
    ensures forall i :: 0 <= i < |steps| ==> steps[i].Exit? && steps[i].p != p
    decreases |h.procs|
  {
    hide Enabled, Apply;
    if q :| q in h.procs && q != p {
      Leaves(digest, h, q);
      var next := Apply(digest, h, Exit(q));
      Fewer(h.procs, q);
      var rest := Deserted(digest, next, p);
      steps := [Exit(q)] + rest;
      assert steps[1..] == rest;
    } else {
      steps := [];
      assert h.procs == map[p := h.procs[p]];
    }
  }

  lemma Leaves(digest: Bytes -> Tag, h: Hoard, q: nat)
    requires q in h.procs
    ensures Enabled(digest, h, Exit(q)) && Apply(digest, h, Exit(q)) == h.(procs := h.procs - {q})
  {
  }

  lemma Fewer(procs: map<nat, Slots>, q: nat)
    requires q in procs
    ensures |procs - {q}| < |procs|
  {
    assert (procs - {q}).Keys == procs.Keys - {q};
    assert |(procs - {q}).Keys| < |procs.Keys|;
  }

  /**
   * From every consistent hoard: when all processes but one have ended, in
   * whatever way, the cleanup of the last gives back every row that they had
   * reserved, and no chunk of the shared table is lost.
   */
  lemma RecoversAfterCrashes(digest: Bytes -> Tag, h: Hoard, p: nat) returns (steps: seq<Step>)
    requires Inv(h) && p in h.procs
    ensures Runs(digest, h, steps)
    ensures forall i :: 0 <= i < |steps| ==> steps[i].Exit? && steps[i].p != p
    ensures var last := After(digest, h, steps);
      && Enabled(digest, last, Cleanup(p, false))
      && var after := Apply(digest, last, Cleanup(p, false));
         && Inv(after) && after.file == h.file && after.refs == h.refs
         && (forall o :: o in after.chunks ==> (after.chunks[o].inUse <==> Tagged(after.chunks, o)))
         && (forall tag :: HasTag(after.chunks, tag) <==> HasTag(h.chunks, tag))
  {
    hide Inv, HasTag;
    steps := Deserted(digest, h, p);
    RunInv(digest, h, steps);
    var last := After(digest, h, steps);
    var after := Apply(digest, last, Cleanup(p, false));
    StepInv(digest, last, Cleanup(p, false));
    forall tag ensures HasTag(after.chunks, tag) <==> HasTag(h.chunks, tag) {
      CleanupLeaves(digest, last, p, false, tag);
    }
    CleanupLeaves(digest, last, p, false, []);
  }
}
