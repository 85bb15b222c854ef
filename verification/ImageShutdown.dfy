/** image_shutdown, which the last thread left in the cache runs. `ImageSync` has the forced
    clean of image_sync, beside other threads. */
module ImageShutdown {
  import opened Common
  import opened ImageState
  import opened ImageSteps
  import opened ImageInvariant

  /** Nobody is inside the cache. */
  ghost predicate Quiet(img: Image) {
    && (forall c :: c in img.backing ==> |img.backing[c]| == img.chunksize)
    && (img.leaveDirty <==> img.tainted != {})
    && NoDup(img.reclaimable) && NoDup(img.dirty)
    && (forall c :: c in img.reclaimable <==> c in img.entries)
    && (forall c :: c in img.dirty <==> c in img.entries && img.entries[c].dirty)
    && (forall c :: c in img.entries ==> QuietEntry(img, c))
  }

  ghost predicate QuietEntry(img: Image, c: Chunk)
    requires c in img.entries
  {
    var e := img.entries[c];
    && c in img.backing && e.busy.None? && e.waiters == 0
    && e.data.Some? && |e.data.value| == img.chunksize
    && (c !in img.tainted ==> e.loaded && (!e.dirty ==> e.data.value == img.backing[c]))
  }

  /** When the last operation has ended, the cache is as image_shutdown expects it. */
  lemma IdleIsQuiet(s: State, cap: nat)
    requires Inv(s, cap) && forall t :: t in s.th ==> s.th[t].Idle?
    ensures Quiet(s.img)
  {
    forall c | c in s.img.entries
      ensures QuietEntry(s.img, c) && (c in s.img.reclaimable)
    {
      assert s.img.entries[c].busy.None?;
      assert Waiting(s.th, c) == {};
      if c !in s.img.tainted { assert DataOk(s, c); }
    }
  }

  /** The chunks whose bytes the virtual disk still shows as before. */
  ghost predicate ContentKept(before: Image, after: Image) {
    && after.backing.Keys == before.backing.Keys
    && before.tainted <= after.tainted
    && forall c :: c in before.backing && c !in after.tainted ==> Content(after, c) == Content(before, c)
  }

  class ImageCache {
    const chunksize: nat
    var entries: map<Chunk, Entry>
    var dirty: seq<Chunk>
    var reclaimable: seq<Chunk>
    var allocatable: nat
    var backing: map<Chunk, Bytes>
    var leaveDirty: bool
    ghost var tainted: set<Chunk>

    ghost function Img(): Image
      reads this
    {
      Image(chunksize, entries, dirty, reclaimable, allocatable, backing, leaveDirty, tainted)
    }

    /** queue_delete_with_link. */
    method Unlink(q: seq<Chunk>, c: Chunk) returns (r: seq<Chunk>)
      ensures r == Without(q, c)
    {
      r := [];
      for i := 0 to |q|
        invariant r + Without(q[i..], c) == Without(q, c)
      {
        assert q[i..][1..] == q[i + 1..];
        if q[i] != c {
          r := r + [q[i]];
        }
      }
      assert q[|q|..] == [];
    }

    /** _entry_acquire; nobody is left to wait for. */
    method AcquireFlag(c: Chunk, t: Tid)
      requires c in entries && entries[c].busy.None?
      modifies this
      ensures Img() == TakeFlag(Enlist(old(Img()), c), c, t)
    {
      hide Without, NoDup;
      reclaimable := Unlink(reclaimable, c);
      entries := entries[c := entries[c].(waiters := entries[c].waiters + 1)];
      entries := entries[c := entries[c].(busy := Some(t), waiters := entries[c].waiters - 1)];
    }

    /** _entry_release. */
    method DropFlag(c: Chunk)
      requires c in entries && c !in reclaimable
      modifies this
      ensures Img() == ReleaseFlag(old(Img()), c)
    {
      entries := entries[c := entries[c].(busy := None)];
      if entries[c].waiters > 0 {
        // g_cond_signal(available)
      } else if entries[c].data.None? {
        entries := entries - {c};
      } else {
        reclaimable := reclaimable + [c];
      }
    }

    /** cache_update, which may fail at any time. */
    method CacheUpdate(c: Chunk) returns (o: Outcome)
      requires c in entries && entries[c].data.Some?
      modifies this`backing
      ensures OutcomeFits(o, chunksize)
      ensures backing == old(backing)[c := if o.Done? then entries[c].data.value else o.junk]
    {
      var fails: bool := *;
      var junk: Bytes := *;
      if fails && |junk| == chunksize {
        o := Failed(junk);
        backing := backing[c := junk];
      } else {
        o := Done;
        backing := backing[c := entries[c].data.value];
      }
    }

    /** entry_clean; the requires clauses are its three g_asserts. */
    method EntryClean(c: Chunk) returns (o: Outcome)
      requires c in entries
      requires entries[c].dirty
      requires c in dirty
      requires entries[c].data.Some?
      modifies this
      ensures OutcomeFits(o, chunksize)
      ensures Img() == MarkClean(WriteBack(LeaveDirtyQueue(old(Img()), c), c, o), c)
    {
      dirty := Unlink(dirty, c);
      o := CacheUpdate(c);
      if o.Failed? {
        leaveDirty := true;
        tainted := tainted + {c};
        entries := entries[c := entries[c].(error := true)];
      }
      entries := entries[c := entries[c].(dirty := false)];
    }

    /** entry_clean_all without other threads: with `force`, every dirty chunk is written back,
        and the bytes of the disk do not change. */
    method EntryCleanAll(force: bool, t: Tid)
      requires Quiet(Img())
      modifies this
      ensures Quiet(Img()) && ContentKept(old(Img()), Img())
      ensures force ==> dirty == []
    {
      while dirty != []
        invariant Quiet(Img()) && ContentKept(old(Img()), Img())
        decreases |dirty|
      {
        var c := dirty[0];
        ghost var before := Img();
        assert c in dirty;
        AcquireFlag(c, t);
        assert entries[c].dirty;
        var ripe: bool := *;
        if !force && !ripe {
          DropFlag(c);
          SkipKeepsQuiet(before, c, t);
          break;
        }
        var o := EntryClean(c);
        DropFlag(c);
        CleanKeepsQuiet(before, c, t, o);
      }
    }

    /** The first part of image_shutdown: the last forced clean. */
    method WriteBackDirty(t: Tid)
      requires Quiet(Img())
      modifies this
      ensures Quiet(Img()) && ContentKept(old(Img()), Img())
      ensures dirty == []
      ensures forall c :: c in backing && c !in tainted ==> backing[c] == old(Content(Img(), c))
    {
      EntryCleanAll(true, t);
      assert forall c :: c in backing && c !in tainted ==> Content(Img(), c) == backing[c];
    }

    /** image_shutdown: its g_asserts hold, the table ends empty, and every chunk whose
        backing calls succeeded is in the local cache as the disk last showed it. */
    method Shutdown(t: Tid)
      requires Quiet(Img())
      modifies this
      ensures entries == map[] && dirty == [] && reclaimable == []
      ensures leaveDirty <==> tainted != {}
      ensures forall c :: c in old(backing) && c !in tainted ==> c in backing && backing[c] == old(Content(Img(), c))
    {
      WriteBackDirty(t);
      FreeAll(t);
    }

    /** Takes the buffer of the first reclaimable entry and lets go of the entry. */
    method FreeHead(t: Tid)
      requires Quiet(Img()) && dirty == [] && reclaimable != []
      modifies this
      ensures Quiet(Img()) && dirty == [] && |reclaimable| < old(|reclaimable|)
      ensures backing == old(backing) && tainted == old(tainted) && leaveDirty == old(leaveDirty)
    {
      hide Quiet, QuietEntry, TakeFlag, Enlist, ReleaseFlag, Without, NoDup;
      var c := reclaimable[0];
      ghost var img := Img();
      HeadIsClean(img, c);
      FreedFields(img, c, t);
      FreeKeepsQuiet(img, img.(entries := img.entries - {c}, reclaimable := Without(img.reclaimable, c)), c);
      AcquireFlag(c, t);
      assert !entries[c].dirty;
      assert entries[c].data.Some?;
      entries := entries[c := entries[c].(data := None)];
      DropFlag(c);
    }

    /** image_shutdown's loop over the reclaimable entries. */
    method FreeAll(t: Tid)
      requires Quiet(Img()) && dirty == []
      modifies this
      ensures entries == map[] && reclaimable == [] && dirty == []
      ensures backing == old(backing) && tainted == old(tainted) && leaveDirty == old(leaveDirty)
    {
      while reclaimable != []
        invariant Quiet(Img()) && dirty == []
        invariant backing == old(backing) && tainted == old(tainted) && leaveDirty == old(leaveDirty)
        decreases |reclaimable|
      {
        FreeHead(t);
      }
      assert entries.Keys == {};
    }
  }

  lemma HeadIsClean(img: Image, c: Chunk)
    requires Quiet(img) && img.dirty == [] && c in img.reclaimable
    ensures c in img.entries
    ensures var e := img.entries[c]; !e.dirty && e.data.Some? && e.busy.None? && e.waiters == 0
  {
    assert QuietEntry(img, c);
  }

  ghost function Emptied(img: Image, c: Chunk): Image
    requires c in img.entries
  {
    img.(entries := img.entries[c := img.entries[c].(data := None)])
  }

  /** Taking an entry's flag, its buffer, and letting go of it removes the entry. */
  lemma FreedFields(img: Image, c: Chunk, t: Tid)
    requires c in img.entries
    requires var e := img.entries[c]; !e.dirty && e.data.Some? && e.busy.None? && e.waiters == 0
    ensures var taken := TakeFlag(Enlist(img, c), c, t);
      && c in taken.entries && !taken.entries[c].dirty && taken.entries[c].data.Some?
      && c !in taken.reclaimable
      && ReleaseFlag(Emptied(taken, c), c) ==
         img.(entries := img.entries - {c}, reclaimable := Without(img.reclaimable, c))
  {
    var last := ReleaseFlag(Emptied(TakeFlag(Enlist(img, c), c, t), c), c);
    assert last.entries == img.entries - {c};
  }

  lemma FreeKeepsQuiet(img: Image, img': Image, c: Chunk)
    requires Quiet(img) && c in img.entries && c !in img.dirty
    requires img' == img.(entries := img'.entries, reclaimable := Without(img.reclaimable, c))
    requires img'.entries == img.entries - {c}
    ensures Quiet(img') && |img'.reclaimable| < |img.reclaimable|
  {
    forall x | x in img'.entries
      ensures QuietEntry(img', x)
    {
      assert QuietEntry(img, x);
    }
  }

  /** The state after entry_clean_all has treated one chunk. */
  ghost function Cleaned(img: Image, c: Chunk, t: Tid, o: Outcome): Image
    requires c in img.entries && img.entries[c].data.Some?
  {
    ReleaseFlag(MarkClean(WriteBack(LeaveDirtyQueue(TakeFlag(Enlist(img, c), c, t), c), c, o), c), c)
  }

  ghost predicate IsCleaned(img: Image, img': Image, c: Chunk, o: Outcome) {
    && c in img.entries && img.entries[c].data.Some?
    && img'.chunksize == img.chunksize && img'.allocatable == img.allocatable
    && img'.entries == img.entries[c := img.entries[c].(dirty := false, error := img.entries[c].error || o.Failed?)]
    && img'.dirty == Without(img.dirty, c)
    && img'.reclaimable == Without(img.reclaimable, c) + [c]
    && img'.backing == img.backing[c := if o.Failed? then o.junk else img.entries[c].data.value]
    && img'.leaveDirty == (img.leaveDirty || o.Failed?)
    && img'.tainted == (if o.Failed? then img.tainted + {c} else img.tainted)
  }

  lemma CleanedFields(img: Image, c: Chunk, t: Tid, o: Outcome)
    requires c in img.entries && img.entries[c].data.Some? && img.entries[c].waiters == 0 && img.entries[c].busy.None?
    ensures IsCleaned(img, Cleaned(img, c, t, o), c, o)
  {
  }

  lemma CleanKeepsQuiet(img: Image, c: Chunk, t: Tid, o: Outcome)
    requires Quiet(img) && c in img.dirty && OutcomeFits(o, img.chunksize)
    ensures Quiet(Cleaned(img, c, t, o)) && ContentKept(img, Cleaned(img, c, t, o))
  {
    CleanedFields(img, c, t, o);
    CleanedQuiet(img, Cleaned(img, c, t, o), c, o);
    CleanedContent(img, Cleaned(img, c, t, o), c, o);
  }

  lemma CleanedQuiet(img: Image, img': Image, c: Chunk, o: Outcome)
    requires Quiet(img) && c in img.dirty && OutcomeFits(o, img.chunksize) && IsCleaned(img, img', c, o)
    ensures Quiet(img')
  {
    assert QuietEntry(img, c);
    assert NoDup(Without(img.reclaimable, c) + [c]);
    forall x | x in img'.entries
      ensures QuietEntry(img', x)
    {
      assert QuietEntry(img, x);
    }
  }

  lemma CleanedContent(img: Image, img': Image, c: Chunk, o: Outcome)
    requires Quiet(img) && c in img.dirty && IsCleaned(img, img', c, o)
    ensures ContentKept(img, img')
  {
    assert QuietEntry(img, c);
  }

  lemma SkippedFields(img: Image, c: Chunk, t: Tid)
    requires c in img.entries && img.entries[c].data.Some? && img.entries[c].waiters == 0 && img.entries[c].busy.None?
    ensures ReleaseFlag(TakeFlag(Enlist(img, c), c, t), c) == img.(reclaimable := Without(img.reclaimable, c) + [c])
  {
    var img' := ReleaseFlag(TakeFlag(Enlist(img, c), c, t), c);
    assert img'.entries == img.entries;
  }

  lemma RequeuedQuiet(img: Image, c: Chunk)
    requires Quiet(img) && c in img.dirty
    ensures Quiet(img.(reclaimable := Without(img.reclaimable, c) + [c]))
  {
    var img' := img.(reclaimable := Without(img.reclaimable, c) + [c]);
    assert QuietEntry(img, c);
    forall x | x in img'.entries
      ensures QuietEntry(img', x)
    {
      assert QuietEntry(img, x);
    }
  }

  lemma SkipKeepsQuiet(img: Image, c: Chunk, t: Tid)
    requires Quiet(img) && c in img.dirty
    ensures var img' := ReleaseFlag(TakeFlag(Enlist(img, c), c, t), c); Quiet(img') && ContentKept(img, img')
  {
    assert QuietEntry(img, c);
    SkippedFields(img, c, t);
    RequeuedQuiet(img, c);
    hide Quiet, ReleaseFlag, TakeFlag, Enlist;
  }
}
