/** The decrypted-chunk cache of parcelkeeper/fuse_image.c: the state guarded by the
    image lock, and the stretches of code that change it while the lock is held.

    Every cache_entry is named by its chunk number, the key of the `chunks` hash table.
    That a thread never uses an entry which has been freed is therefore something to
    prove: see `ImageInvariant.Refs`. */
module ImageState {
  import opened Common

  type Chunk = nat
  type Tid = nat

  /** struct cache_entry.
      `busy` also says which thread set the flag. `loaded` is an auxiliary variable: it
      records whether the buffer has been filled since it was handed to this entry.
      No step ever branches on either piece of extra information. */
  datatype Entry = Entry(
    busy: Option<Tid>,
    waiters: nat,
    data: Option<Bytes>,
    dirty: bool,
    error: bool,
    loaded: bool)

  /** The `image` part of struct pk_fuse, the local cache behind it, and `leave_dirty`.
      `dirty` and `reclaimable` are the two GQueues; an entry's `dirty_link` or
      `reclaimable_link` is non-NULL exactly when its chunk is on that queue.
      `tainted` is an auxiliary variable: the chunks for which a cache_get or
      cache_update has failed. */
  datatype Image = Image(
    chunksize: nat,
    entries: map<Chunk, Entry>,
    dirty: seq<Chunk>,
    reclaimable: seq<Chunk>,
    allocatable: nat,
    backing: map<Chunk, Bytes>,
    leaveDirty: bool,
    tainted: set<Chunk>)

  ghost predicate NoDup(q: seq<Chunk>) {
    forall i, j :: 0 <= i < j < |q| ==> q[i] != q[j]
  }

  /** queue_delete_with_link: does nothing when the chunk is not queued. */
  function Without(q: seq<Chunk>, c: Chunk): (r: seq<Chunk>)
    ensures forall x :: x in r <==> x in q && x != c
    ensures NoDup(q) ==> NoDup(r) && |r| == |q| - (if c in q then 1 else 0)
  {
    if q == [] then []
    else if q[0] == c then
      assert NoDup(q) ==> NoDup(q[1..]) && c !in q[1..];
      Without(q[1..], c)
    else
      assert NoDup(q) ==> NoDup(q[1..]) && q[0] !in q[1..];
      [q[0]] + Without(q[1..], c)
  }

  function FreshEntry(): Entry {
    Entry(None, 0, None, false, false, false)
  }

  /** Look the chunk up in the hash table, adding an empty entry if there is none. */
  function Lookup(img: Image, c: Chunk): (r: Image) {
    if c in img.entries then img else img.(entries := img.entries[c := FreshEntry()])
  }

  /** _entry_acquire, up to the first test of `busy`. */
  function Enlist(img: Image, c: Chunk): Image
    requires c in img.entries
  {
    var e := img.entries[c];
    img.(reclaimable := Without(img.reclaimable, c), entries := img.entries[c := e.(waiters := e.waiters + 1)])
  }

  /** _entry_acquire, once `busy` has been seen clear. */
  function TakeFlag(img: Image, c: Chunk, t: Tid): Image
    requires c in img.entries && img.entries[c].waiters > 0
  {
    var e := img.entries[c];
    img.(entries := img.entries[c := e.(busy := Some(t), waiters := e.waiters - 1)])
  }

  /** _entry_release. */
  function ReleaseFlag(img: Image, c: Chunk): Image
    requires c in img.entries
  {
    var e := img.entries[c].(busy := None);
    if e.waiters > 0 then
      img.(entries := img.entries[c := e])
    else if e.data.None? then
      img.(entries := img.entries - {c})
    else
      img.(entries := img.entries[c := e], reclaimable := img.reclaimable + [c])
  }

  /** The condition variable that _entry_release signals. */
  datatype Signal = Available(c: Chunk) | Reclaimable | NoSignal

  function ReleaseSignal(img: Image, c: Chunk): Signal
    requires c in img.entries
  {
    if img.entries[c].waiters > 0 then Available(c)
    else if img.entries[c].data.None? then NoSignal
    else Reclaimable
  }

  /** Give the entry a buffer from the unused part of the budget. The buffer comes with
      whatever bytes the allocator left in it. */
  function Allocate(img: Image, c: Chunk, junk: Bytes): Image
    requires c in img.entries && img.allocatable > 0
  {
    img.(allocatable := img.allocatable - 1,
    entries := img.entries[c := img.entries[c].(data := Some(junk), loaded := false)])
  }

  /** Hand the buffer of entry `v` to entry `c`. */
  function Steal(img: Image, c: Chunk, v: Chunk): Image
    requires c in img.entries && v in img.entries && c != v
  {
    var ents := img.entries[c := img.entries[c].(data := img.entries[v].data, loaded := false)];
    img.(entries := ents[v := img.entries[v].(data := None, loaded := false)])
  }

  /** entry_clean, up to the release of the image lock. */
  function LeaveDirtyQueue(img: Image, c: Chunk): Image {
    img.(dirty := Without(img.dirty, c))
  }

  /** entry_clean, after the image lock has been taken again. */
  function MarkClean(img: Image, c: Chunk): Image
    requires c in img.entries
  {
    img.(entries := img.entries[c := img.entries[c].(dirty := false)])
  }

  /** entry_release, before the busy flag is dropped. */
  function MarkDirty(img: Image, c: Chunk): Image
    requires c in img.entries
  {
    if img.entries[c].dirty then img
    else img.(entries := img.entries[c := img.entries[c].(dirty := true)], dirty := img.dirty + [c])
  }

  /** What a call of cache_get or cache_update does. A failed call may leave any bytes in
      the place it was to fill. */
  datatype Outcome = Done | Failed(junk: Bytes)

  function SetError(img: Image, c: Chunk): Image
    requires c in img.entries
  {
    img.(leaveDirty := true, tainted := img.tainted + {c},
    entries := img.entries[c := img.entries[c].(error := true)])
  }

  /** cache_update on the entry's buffer, with the error handling of entry_clean. */
  function WriteBack(img: Image, c: Chunk, o: Outcome): Image
    requires c in img.entries && img.entries[c].data.Some?
  {
    match o
    case Done => img.(backing := img.backing[c := img.entries[c].data.value])
    case Failed(junk) => SetError(img.(backing := img.backing[c := junk]), c)
  }

  /** cache_get into the entry's buffer, with the error handling of entry_acquire. */
  function Populate(img: Image, c: Chunk, o: Outcome): Image
    requires c in img.entries && c in img.backing
  {
    match o
    case Done => img.(entries := img.entries[c := img.entries[c].(data := Some(img.backing[c]), loaded := true)])
    case Failed(junk) => SetError(img.(entries := img.entries[c := img.entries[c].(data := Some(junk))]), c)
  }

  /** memcpy of a write segment into the entry's buffer. */
  function Fill(img: Image, c: Chunk, off: nat, bytes: Bytes): Image
    requires c in img.entries && img.entries[c].data.Some?
    requires off + |bytes| <= |img.entries[c].data.value|
  {
    var e := img.entries[c];
    img.(entries := img.entries[c := e.(
    data := Some(Overwrite(e.data.value, off, bytes)),
    loaded := e.loaded || |bytes| == img.chunksize)])
  }

  /** The bytes of a chunk as the virtual disk shows them. */
  function Content(img: Image, c: Chunk): Bytes
    requires c in img.backing
  {
    if c in img.entries && img.entries[c].data.Some? && img.entries[c].loaded
    then img.entries[c].data.value
    else img.backing[c]
  }

  /** The entries that hold a buffer. */
  function Buffered(img: Image): set<Chunk> {
    set c | c in img.entries && img.entries[c].data.Some?
  }
}
