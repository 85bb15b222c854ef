/**
 * The hoard cache's tables: the shared `chunks` table, one private slot table
 * per process, and the data file.  Each function below is the effect that one
 * piece of a transaction in parcelkeeper/hoard.c or parcelkeeper/hoard_modes.c
 * has on them.
 */
module HoardState {
  import opened Common

  /** Sectors per slot: a 128 KiB chunk in units of 512 bytes. */
  const STEP: nat := 256
  /** Bytes per slot. */
  const SLOT: nat := 131072
  /** Slots a process reserves at a time. */
  const EXPAND: nat := 256
  /** Rows moved by one compaction transaction. */
  const MOVES: nat := 16

  type Tag = Bytes

  /** `inUse` is the column `allocated`. */
  datatype Row = Row(tag: Option<Tag>, length: nat, inUse: bool)

  datatype Slot = Slot(tag: Option<Tag>, length: nat)

  /** The columns of `chunks` and of `temp.slots`, by offset. */
  type Table = map<nat, Row>
  type Slots = map<nat, Slot>

  /** The data file: what stands at each slot's offset, up to the end of the file. */
  type File = map<nat, Bytes>

  const FREE := Row(None, 0, false)
  const UNUSED := Slot(None, 0)

  predicate Tagged(t: Table, o: nat) { o in t && t[o].tag.Some? }

  predicate Unallocated(t: Table, o: nat) { o in t && !t[o].inUse }

  ghost predicate HasTag(t: Table, tag: Tag) {
    exists o :: o in t && t[o].tag == Some(tag)
  }

  ghost predicate SlotHasTag(s: Slots, tag: Tag) {
    exists o :: o in s && s[o].tag == Some(tag)
  }

  function FreeRows(t: Table): set<nat> { set o | o in t && !t[o].inUse }

  function TaggedRows(t: Table): set<nat> { set o | o in t && t[o].tag.Some? }

  // ----- What must hold of the tables -----

  /** The rows are exactly those at offsets 0, STEP, 2*STEP, ..., n of them. */
  ghost predicate Rows(t: Table, n: nat) {
    forall o: nat :: o in t <==> o % STEP == 0 && o < n * STEP
  }

  ghost predicate UniqueTags(t: Table) {
    forall o, q :: Tagged(t, o) && Tagged(t, q) && t[o].tag == t[q].tag ==> o == q
  }

  ghost predicate TaggedAllocated(t: Table) {
    forall o :: Tagged(t, o) ==> t[o].inUse
  }

  ghost predicate TableOk(t: Table) {
    && (exists n: nat :: Rows(t, n))
    && UniqueTags(t)
    && TaggedAllocated(t)
  }

  /** A process's slots are rows it alone may fill: allocated, and untagged in the shared table. */
  ghost predicate SlotsOk(t: Table, s: Slots) {
    && (forall o :: o in s ==> o in t && t[o].inUse && t[o].tag.None?)
    && (forall o, q :: o in s && q in s && s[o].tag.Some? && s[o].tag == s[q].tag ==> o == q)
  }

  /** The bytes of a `length`-byte chunk kept at offset `o` have digest `tag`. */
  predicate Intact(digest: Bytes -> Tag, f: File, o: nat, tag: Tag, length: nat) {
    o in f && length <= |f[o]| && digest(f[o][..length]) == tag
  }

  ghost predicate TableIntact(digest: Bytes -> Tag, t: Table, f: File) {
    forall o :: Tagged(t, o) ==> Intact(digest, f, o, t[o].tag.value, t[o].length)
  }

  ghost predicate SlotsIntact(digest: Bytes -> Tag, s: Slots, f: File) {
    forall o :: o in s && s[o].tag.Some? ==> Intact(digest, f, o, s[o].tag.value, s[o].length)
  }

  // ----- Flushing the slot cache -----

  /** Some other row already carries the tag, so giving it to row `o` violates uniqueness. */
  ghost predicate Taken(t: Table, o: nat, tag: Tag) {
    exists q :: q in t && q != o && t[q].tag == Some(tag)
  }

  ghost function FlushedRow(t: Table, s: Slots, o: nat): Row
    requires o in t
  {
    if o !in s then t[o]
    else if s[o].tag.Some? && !Taken(t, o, s[o].tag.value) then Row(s[o].tag, s[o].length, true)
    else t[o].(inUse := false)
  }

  /** The shared table after every slot of `s` was given its tag or released. */
  ghost function Flushed(t: Table, s: Slots): Table {
    map o | o in t :: FlushedRow(t, s, o)
  }

  // ----- Reserving slots -----

  /** The first offset past the table's end. */
  ghost predicate EndsAt(t: Table, end: nat) {
    if t == map[] then end == 0
    else end >= STEP && end - STEP in t && forall o :: o in t ==> o <= end - STEP
  }

  predicate OnGrid(end: nat, o: nat) { end <= o && (o - end) % STEP == 0 }

  function NewOffsets(end: nat, n: nat): set<nat> {
    set o: nat | o < end + n * STEP && OnGrid(end, o)
  }

  /** `take` is what a query for at most EXPAND unallocated rows may return. */
  predicate MayTake(t: Table, take: set<nat>) {
    take <= FreeRows(t) && |take| == Min(EXPAND, |FreeRows(t)|)
  }

  /** The offsets a process holds after reserving `take` and growing the table from `end`. */
  function Reserved(take: set<nat>, end: nat): set<nat> {
    take + NewOffsets(end, if |take| < EXPAND then EXPAND - |take| else 0)
  }

  function Expanded(t: Table, take: set<nat>, end: nat): Table {
    map o | o in t.Keys + Reserved(take, end) ::
      if o !in t then Row(None, 0, true)
      else if o in take then t[o].(inUse := true)
      else t[o]
  }

  function NewSlots(take: set<nat>, end: nat): Slots {
    map o | o in Reserved(take, end) :: UNUSED
  }

  /** How allocate_slot found a slot: among the unused ones, or by flushing and reserving more. */
  datatype Choice = Unused(o: nat) | Renewed(o: nat, take: set<nat>, end: nat)

  ghost predicate ChoiceOk(t: Table, s: Slots, c: Choice) {
    match c
    case Unused(o) => o in s && s[o].tag.None?
    case Renewed(o, take, end) =>
      && (forall q :: q in s ==> s[q].tag.Some?)
      && MayTake(Flushed(t, s), take)
      && EndsAt(Flushed(t, s), end)
      && o in Reserved(take, end)
  }

  ghost function ChosenTable(t: Table, s: Slots, c: Choice): Table {
    if c.Unused? then t else Expanded(Flushed(t, s), c.take, c.end)
  }

  function ChosenSlots(s: Slots, c: Choice): Slots {
    if c.Unused? then s else NewSlots(c.take, c.end)
  }

  /** What a write of `data` leaves in a slot: the bytes, then zeroes up to the slot's size. */
  function Padded(data: Bytes): Bytes
    requires |data| <= SLOT
  {
    data + seq(SLOT - |data|, i => 0)
  }

  /** A slot's bytes after a write of `data` stopped `k` bytes into the slot. */
  function Torn(was: Bytes, data: Bytes, k: nat): Bytes
    requires |data| <= SLOT && k <= SLOT
  {
    Padded(data)[..k] + (if k < |was| then was[k..Min(|was|, SLOT)] else [])
  }

  /** The file after a write to offset `o` stopped `k` bytes into the slot; no write begins on too much data. */
  function TornFile(f: File, o: nat, data: Bytes, k: nat): File
    requires k <= SLOT && (|data| <= SLOT || k == 0)
  {
    if k == 0 then f else f[o := Torn(if o in f then f[o] else [], data, k)]
  }

  // ----- Releasing rows -----

  function Invalidated(t: Table, o: nat, tag: Tag): Table {
    if o in t && t[o].tag == Some(tag) then t[o := FREE] else t
  }

  function InvalidatedSlot(s: Slots, o: nat): Slots {
    if o in s then s[o := UNUSED] else s
  }

  /** Garbage collection: tagged rows whose tag nothing references are freed. */
  function Collected(t: Table, refs: set<(nat, Tag)>): Table {
    map o | o in t :: if t[o].tag.Some? && !Referenced(refs, t[o].tag.value) then FREE else t[o]
  }

  predicate Referenced(refs: set<(nat, Tag)>, tag: Tag) {
    exists r :: r in refs && r.1 == tag
  }

  /** Cleanup with no other process about: allocated rows without a tag belong to nobody. */
  function Reclaimed(t: Table): Table {
    map o | o in t :: if t[o].tag.None? then t[o].(inUse := false) else t[o]
  }

  /** A parcel's references replaced by the tags of its keyring, or only added to. */
  function SyncedRefs(refs: set<(nat, Tag)>, parcel: nat, tags: set<Tag>, newChunks: bool): set<(nat, Tag)> {
    (set r | r in refs && (newChunks || r.0 != parcel || r.1 in tags)) + (set tag | tag in tags :: (parcel, tag))
  }

  // ----- Compaction -----

  ghost predicate HighestTagged(t: Table, o: nat) {
    Tagged(t, o) && forall q: nat :: Tagged(t, q) ==> q <= o
  }

  ghost predicate LowestFree(t: Table, o: nat) {
    Unallocated(t, o) && forall q: nat :: Unallocated(t, q) ==> o <= q
  }

  /** Reading a chunk back checks its length and its digest. */
  predicate Reads(digest: Bytes -> Tag, f: File, o: nat, tag: Tag, length: nat) {
    0 < length <= SLOT && Intact(digest, f, o, tag, length)
  }

  predicate Readable(digest: Bytes -> Tag, t: Table, f: File, o: nat) {
    Tagged(t, o) && Reads(digest, f, o, t[o].tag.value, t[o].length)
  }

  function MovedTable(t: Table, from: nat, to: nat): Table
    requires from in t
  {
    t[from := FREE][to := Row(t[from].tag, t[from].length, true)]
  }

  function MovedFile(t: Table, f: File, from: nat, to: nat): File
    requires from in t && from in f && t[from].length <= |f[from]| && t[from].length <= SLOT
  {
    f[to := Padded(f[from][..t[from].length])]
  }

  ghost predicate MoveOk(digest: Bytes -> Tag, t: Table, f: File, from: nat, to: nat) {
    HighestTagged(t, from) && LowestFree(t, to) && to < from && Readable(digest, t, f, from)
  }

  /** `moves` (source, destination) is a run of compaction moves that starts on these tables. */
  ghost predicate MovesOk(digest: Bytes -> Tag, t: Table, f: File, moves: seq<(nat, nat)>)
    decreases |moves|
  {
    moves == [] ||
    (var (from, to) := moves[0];
     MoveOk(digest, t, f, from, to) &&
     MovesOk(digest, MovedTable(t, from, to), MovedFile(t, f, from, to), moves[1..]))
  }

  ghost function AfterMoves(digest: Bytes -> Tag, t: Table, f: File, moves: seq<(nat, nat)>): (Table, File)
    requires MovesOk(digest, t, f, moves)
    decreases |moves|
  {
    if moves == [] then (t, f)
    else
      var (from, to) := moves[0];
      AfterMoves(digest, MovedTable(t, from, to), MovedFile(t, f, from, to), moves[1..])
  }

  /** Where truncation cuts: just past the last allocated row. */
  ghost predicate CutsAt(t: Table, cut: nat) {
    && (forall o :: o in t && t[o].inUse ==> o + STEP <= cut)
    && (cut == 0 || (cut >= STEP && cut - STEP in t && t[cut - STEP].inUse))
  }

  function TruncatedTable(t: Table, cut: nat): Table { map o | o in t && o < cut :: t[o] }

  function TruncatedFile(f: File, cut: nat): File { map o | o in f && o < cut :: f[o] }
}
