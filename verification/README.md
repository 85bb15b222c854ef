# A model of the OpenISR client in Dafny

OpenISR keeps the disk of a virtual machine as encrypted, compressed, content-addressed
chunks. This project models the parts of its client that are hardest to get right and
proves what they promise. `dafny verify dfyconfig.toml` covers the whole project.

**The chunk cache** (`parcelkeeper/fuse_image.c`): decrypted chunks in a fixed number of
buffers, shared by any number of FUSE threads and a cleaner thread under one lock, with a
busy flag per entry, a dirty queue, a queue of reclaimable entries, and eviction that lets
go of the lock half way. `ImageState` has the effect of each stretch of code between two
points where the lock is free; `ImageSteps` makes them the steps of a system of threads,
with condition variables as explicit wakeup flags, so that a lost wakeup would be visible.
`ImageInvariant`, `ImageFlags` and `ImageHeld` prove the invariant, `ImageTheorems` the
theorems over whole runs, `ImageAnswers` what each read and write is answered, `ImageSync` and `ImageFsync` what a sync beside other threads is worth,
`ImageShutdown` the loops of the shutdown, `IoCursor` the cutting of a request into chunks.

**The LZF codec and its stream format** (`crypto/lzf.c`, `crypto/lzf-stream.c`):
`LzfFormat` defines the token format and what it means, `LzfGreedy` which tokens the
compressor picks, as a function of its input, its room and its hash table, `Lzf` the
compressor and the decompressor on arrays, `LzfRepeat` for which inputs the result depends on
what was in the table, `LzfStale` one such input, `LzfWire` the framing and the decoder as a fold
over units, `LzfAccept` exactly which octets the decoder accepts,
`LzfStream` the push-style contexts with their buffers, and `LzfRoundTrip` their callers.

**The hoard** (`parcelkeeper/hoard.c`, `parcelkeeper/hoard_modes.c`): a chunk store shared
by any number of processes. `HoardState` gives the effect of each piece of a transaction on
the tables and the data file, `HoardSteps` the system of processes, `HoardInvariant` and
`HoardTheorems` what every run keeps, `HoardRefs` which chunks are referenced and what garbage
collection makes of that, `HoardMismatch` a run that ends with a row whose bytes do not have its tag, `HoardTables` the statements of each transaction, and `Compaction` the
compactor. That the bytes given to a put have the digest given with them is what its callers
see to (`parcelkeeper/transport.c:238-247`).

**The crypto stack** (`crypto/`, `libutil/chunk.c`, `tools/blobtool.c`): `AesCipher` is
FIPS 197, `Aes` the table-driven code, `Cbc` and `CipherCtx` the chaining mode with padding
on caller buffers, `AesBlock` the two put together, `Hash` the incremental hashes, `Chunk`
the convergent encoding of chunks, `ChunkStack` that encoding over the SHA-1, the AES and the
LZF of the other modules, and `Blobtool` the streaming cipher.

**The lock file** (`parcelkeeper/util.c`): `Lockfile` is the protocol with crashes at any
point.

Five properties that one might expect do not hold of the code. For each the project has an
input or a run that shows it, and says when the property does hold:

- When `image_sync` returns, the local cache has what was written before it was called. A sync
  may return early, because another thread takes a chunk off the dirty queue before it writes
  the chunk back (`ImageSync.SyncReturnsEarly`). Called on a disk at rest, beside another
  thread, it can be relied on for a chunk exactly if the local cache had the chunk before the
  call (`ImageFsync.SyncedIff`), and for everything exactly if one thread has the cache to
  itself, as in the shutdown (`ImageSync.SyncIff`). What it promises in any case is in
  `ImageSync.SyncedUnlessInFlight` and `ImageFsync.SettledStaysFresh`.
- The chunk cache cannot get stuck. This holds exactly if the number of buffers, a 32-bit
  product, does not come out as zero: it does for chunks above 1 MiB, and where the product
  wraps (`ImageTheorems.NeverStuckIff`).
- A request is cut into the chunks it covers, up to the end of the disk. This holds exactly
  if the number of its first chunk fits 32 bits, or what is left of it is past the end of the
  disk all the same (`IoCursor.Walk`, `IoCursor.IndexWraps`).
- The bytes of every tagged row of the hoard have the row's tag as their digest. A put that is
  rolled back can break this exactly if, when it begins, its process has no unused slot and
  lists a chunk that some other row of the shared table also has, and the padded data would
  change that chunk's bytes (`HoardTheorems.UndoneIff`, `HoardTheorems.RunIntegrity`,
  `HoardMismatch.IntegrityCanFail`).
- The same chunk always has the same key and tag. This holds without compression and with
  zlib. With LZF it holds exactly for the chunks for which the compressor, started with a
  cleared table, never looks up a slot it has not written while some place inside the chunk
  would match; and for those of which no table makes anything short enough
  (`LzfRepeat.SteadyIff`, `LzfRepeat.RepeatableIff`, `ChunkStack.ConvergentIff`,
  `ChunkStack.LzfDiverges`). It would hold for all if the table were cleared, but the `memset`
  in `lzf_compress` has the size of a pointer (`LzfRepeat.ClearedTablesAgree`).

Where code and comment differ, the model follows the code: the option that sets up the hash
table of `lzf_compress` promises repeatable compression, and does not deliver it. That what is
compressed decompresses to the input is proved for every table.

Foreign calls are parameters: the backing store of the chunk cache may fail at any call and
leave arbitrary bytes behind; hash functions, the compression functions of SHA-1 and MD5, the
CRC step, zlib and the AES substitution table with its inverse are arbitrary functions with
the stated properties; what the allocator leaves in the memory it hands out is arbitrary too.
Bytes are integers below 256, except in AES, where they are bit-vectors.

## Model

| member | source | states |
|---|---|---|
| ImageTheorems.RunInv | parcelkeeper/fuse_image.c:86-253 | in every run of any number of threads from an empty cache, every state satisfies the invariant (buffer budget balances, reclaimable queue is exactly the idle buffered entries, dirty queue exactly the dirty ones but one in mid-clean, waiter counts exact, no lost wakeup) and every step's asserts and memory accesses are safe |
| ImageTheorems.StepInv | parcelkeeper/fuse_image.c:86-253 | each of the eighteen kinds of step keeps the invariant, whatever the other threads are doing |
| ImageInvariant.StepsAreSafe | parcelkeeper/fuse_image.c:86-191 | the invariant rules out touching a freed entry or a missing buffer and the failure of any g_assert |
| ImageInvariant.InitInv | parcelkeeper/fuse_image.c:352-358 | the cache as image_init sets it up satisfies the invariant |
| ImageHeld.HeldInv | parcelkeeper/fuse_image.c:99-102 | a thread that changes only entries whose busy flag it holds, in the ways the code does, keeps the invariant for every other thread |
| ImageFlags.GrabInv | parcelkeeper/fuse_image.c:110-119 | taking the busy flag, at once or after a wait, keeps the invariant |
| ImageFlags.QueueInv | parcelkeeper/fuse_image.c:110-116 | starting to wait for a busy flag keeps the invariant |
| ImageFlags.DropInv | parcelkeeper/fuse_image.c:122-141 | releasing the busy flag, with the signal it sends and whichever thread that wakes, keeps the invariant, and no waiter is forgotten |
| ImageFlags.LookupCore | parcelkeeper/fuse_image.c:153-161 | a lookup that creates an entry disturbs nothing but the rule that unused entries do not exist, and that only for this chunk |
| ImageTheorems.VictimIsFree | parcelkeeper/fuse_image.c:175-180 | the entry at the head of the reclaimable queue is never busy, so the thread that evicts never waits while it holds its own entry |
| ImageTheorems.NeverStuck | parcelkeeper/fuse_image.c:110-191 | with at least one buffer, in every reachable state with an operation under way some thread can take a step, without help from a spurious wakeup |
| ImageTheorems.StuckWithoutBuffers | parcelkeeper/fuse_image.c:164-174 | with no buffers, a run of two steps after which a read waits and nothing can happen |
| ImageTheorems.NeverStuckIff | parcelkeeper/fuse_image.c:333-358 | for every configuration: no run gets stuck if and only if the 32-bit product of cache megabytes and whole chunks per megabyte is not zero |
| ImageTheorems.EveryStepIsFlat | parcelkeeper/fuse_image.c:86-229 | of all steps only the copy of a write changes what a chunk appears to hold, and by just the bytes written; loading, cleaning, evicting and failing to get a buffer do not |
| ImageTheorems.CacheIsFlatDisk | parcelkeeper/fuse_image.c:408-462 | in every run, for every chunk whose backing calls succeeded so far, the cache shows what a flat disk would after the same writes, and every read returned what the flat disk held at that moment |
| ImageAnswers.AskedUntilCopy | parcelkeeper/fuse_image.c:143-191 | in every run, from the start of a request to the copy of its bytes, through every wait, eviction and load, the thread works on the chunk, the range and the bytes it was asked for |
| ImageAnswers.RequestIsAnswered | parcelkeeper/fuse_image.c:408-456 | in every run, a read of a range of a chunk whose backing calls succeeded gets exactly the bytes that the flat disk holds in that range at that moment, and a write puts exactly its bytes where it was asked to |
| ImageAnswers.LastWriteWins | parcelkeeper/fuse_image.c:421-422 | each byte of the flat disk is the one of the last write that covered it, or the initial one |
| ImageAnswers.ReadsLastWritten | parcelkeeper/fuse_image.c:408-428 | in every run, each byte that a read gets, of a chunk whose backing calls succeeded, is the one last written to its place by any thread, or the one the local cache began with |
| ImageAnswers.RefusedIff | parcelkeeper/fuse_image.c:417-444 | in every run, a read or write is refused if and only if a cache_get or cache_update for the entry it uses has failed since the entry was made, and then it changes nothing |
| ImageSync.SyncedUnlessInFlight | parcelkeeper/fuse_image.c:233-253 | in every run, when a forced clean finds the dirty queue empty, a chunk whose backing calls succeeded has all the writes so far in the backing store, exactly unless some thread is writing it back or has yet to mark it dirty and its buffer differs from the store |
| ImageSync.InFlightLands | parcelkeeper/fuse_image.c:92-104 | a chunk that is off the dirty queue and not yet written is in the backing store, as the disk shows it, after the next step of the thread that has it, unless that step's backing call fails |
| ImageSync.SyncReturnsEarly | parcelkeeper/fuse.c:160-178 | a run in which a write returns, the cleaner takes the chunk off the dirty queue, and a sync asked for after that returns with the old bytes still in the backing store and no call failed |
| ImageSync.SyncIff | parcelkeeper/fuse_image.c:457-462 | with at least one buffer, and chunks of at least one byte: every sync of every run leaves the backing store with each chunk as the disk showed it at some moment since the sync began, if and only if there is but one thread |
| ImageFsync.StoresWhatShows | parcelkeeper/fuse_image.c:92-104 | whatever the threads do, a step whose backing call does not fail leaves a chunk of the backing store alone, or stores what the disk shows of it at that moment |
| ImageFsync.SettledStaysFresh | parcelkeeper/fuse.c:160-178 | from every reachable state and for every continuation: if the backing store has a chunk when a sync begins, it has the chunk as the disk showed it at some moment since whenever the sync returns |
| ImageFsync.MissedIsNotFresh | parcelkeeper/fuse_image.c:233-253 | from every state at rest in which the backing store lacks a chunk, and with another thread about, there is a run in which a sync writes all other dirty chunks back, no call fails, and the sync returns while that chunk is not stored |
| ImageFsync.SyncedIff | parcelkeeper/fuse.c:160-178 | on a disk at rest, with another thread about, in every run of a sync the backing store ends with a chunk as the disk showed it at some moment since the sync began, if and only if it had the chunk when the sync began |
| ImageShutdown.IdleIsQuiet | parcelkeeper/fuse_image.c:300-331 | when the last operation has ended, the cache is in the state that shutdown's asserts rely on |
| ImageShutdown.ImageCache.EntryClean | parcelkeeper/fuse_image.c:86-106 | takes the entry off the dirty queue, writes its buffer back, and marks it clean even if that failed, in which case the entry has its error set and the session is left dirty |
| ImageShutdown.ImageCache.EntryCleanAll | parcelkeeper/fuse_image.c:233-253 | for the last thread in the cache only: with force, ends with no dirty entry; the disk shows the same bytes for every chunk whose backing calls succeeded |
| ImageShutdown.ImageCache.WriteBackDirty | parcelkeeper/fuse_image.c:311-313 | for the last thread in the cache only, as in the shutdown: afterwards the backing store holds, for every chunk whose backing calls succeeded, what the disk shows |
| ImageShutdown.ImageCache.Shutdown | parcelkeeper/fuse_image.c:311-327 | its asserts hold, table and queues end empty, leave_dirty is set exactly if some backing call failed, and every other chunk is in the backing store as last shown |
| IoCursor.OffsetSurvivesWrap | parcelkeeper/fuse_image.c:401-402 | the 32-bit offset is the position modulo the chunk size even where chunk times chunk size wraps |
| IoCursor.Cursor.Next | parcelkeeper/fuse_image.c:389-406 | the next segment begins where the last one ended, in the chunk its position names, and is as long as chunk and request allow; false at the end of the request or of the disk |
| IoCursor.Walk | parcelkeeper/fuse_image.c:377-406 | the segments are in order, not empty, each inside one chunk, and exactly cut up the request as far as the disk goes, if and only if the request is empty, its first chunk number fits 32 bits, or the number reduced to 32 bits is past the end of the disk too; eof is then set if and only if the request passes the end of the disk |
| IoCursor.IndexWraps | parcelkeeper/fuse_image.c:394-400 | a request past the end of the disk whose chunk number does not fit 32 bits finds the wrong chunk instead of the end of the disk |
| LzfFormat.DecodeIff | crypto/lzf.c:208-215 | decoding succeeds with a given text exactly if the octets are tokens of the grammar that stand for that text and the text fits |
| LzfFormat.ParseSerialized | crypto/lzf.c:208-215 | parsing a written token gives the token back and finds its end |
| LzfFormat.SerializeParsed | crypto/lzf.c:466-515 | whatever parses is the written form of the token it parses to |
| LzfFormat.MatchContinues | crypto/lzf.c:527-537 | a match that overlaps its own output continues the text |
| Lzf.CopyReference | crypto/lzf.c:527-537 | the copy loop, octet by octet and overlapping, leaves the back reference's meaning behind what was there |
| Lzf.DecompressToken | crypto/lzf.c:466-538 | one token: which error for which malformed or oversized input, or the token's octets appended |
| Lzf.Decompress | crypto/lzf.c:455-543 | for every non-empty input, the result and the error are those of the format's definition, and writes stay inside the buffer |
| Lzf.MatchLength | crypto/lzf.c:312-356 | the unrolled comparisons and the loop find where the two texts first differ, within a limit of at most 264 octets and of the input |
| Lzf.PutLiteral | crypto/lzf.c:407-417 | one more literal, closing a full run and reserving the next header |
| Lzf.PutMatch | crypto/lzf.c:321-370 | closes the run, or takes back its unused header, and writes the match in its place |
| Lzf.PutNext | crypto/lzf.c:295-418 | either branch of the main loop keeps the encoding right and moves on, and gives up only if the output buffer is shorter than the size bound plus four |
| Lzf.Tail | crypto/lzf.c:421-438 | the last octets and the end of the last run; fails exactly if fewer than three octets are left |
| LzfGreedy.CompressedEncodes | crypto/lzf.c:242-439 | whatever the hash table holds, the tokens that the compressor picks stand for the input and fit the room |
| LzfRepeat.TablesAgreeIff | crypto/lzf.c:295-310 | two hash tables of which one gives a result give the same result if and only if they lead to the same decision at each lookup of a slot that the run has not written before |
| LzfRepeat.SteadyIff | crypto/lzf.c:278-284 | for every input, room and longest acceptable output, all hash tables give the same result if and only if the run from a cleared table looks up no unwritten slot while some place in the input would match, or, where that run gives no acceptable result, if no way of filling the table gives one |
| LzfRepeat.RepeatableIff | crypto/lzf.c:278-284 | with room for the longest output, an input becomes the same octets with every hash table if and only if, in the run from a cleared table, each lookup finds a slot that was written before or no place in the input matches |
| LzfRepeat.ClearedTablesAgree | crypto/lzf.c:278-284 | two hash tables that differ only in slots naming no place inside the input give the same output |
| LzfStale.TablesMatter | crypto/lzf.c:278-284 | an input of 512 octets that becomes different octets with a cleared table and with one that names a place the loop passed without entering it |
| Lzf.CompressRound | crypto/lzf.c:288-419 | the body of the main loop takes the output, the table and the positions from one state of the token-level description to the next, or gives up exactly where it does |
| Lzf.Compress | crypto/lzf.c:242-439 | for every hash table, the result is exactly what the token-level description makes of input, room and table; a non-zero one is an encoding of the input of at most in_len + in_len/32 + 1 octets, and it is non-zero if in_len >= 1 and out_len >= in_len + in_len/32 + 4 |
| Lzf.CompressThenDecompress | crypto/lzf.c:242-543 | if compression succeeds, decompression into a buffer of the input's size gives the input back |
| LzfWire.FeedConcat | crypto/lzf-stream.c:458-511 | decoding in two pieces is decoding in one: the decoder's state and the rest of the input do not depend on the cut |
| LzfWire.FeedFrames | crypto/lzf-stream.c:348-456 | a sequence of frames decodes to the blocks they frame |
| LzfWire.FeedStream | crypto/lzf-stream.c:348-511 | a whole stream decodes to its text and leaves the decoder between frames with the checksum of the text |
| LzfAccept.FeedIff | crypto/lzf-stream.c:348-456 | for all octets and every text: the decoder takes them all in, ends between two frames or at an end mark, and has that text, if and only if they are raw frames, packed frames that encode their blocks, and trailers that each give the checksum of the text before them, for that text |
| LzfAccept.TrailerIff | crypto/lzf-stream.c:404-413 | after any frames, a trailer with any checksum stops the decoder with an error if and only if it is not the checksum of the blocks |
| LzfAccept.Layout | crypto/lzf-stream.c:389-413 | the octets of frames and trailers: the letters ZV, the type, sizes and checksum most significant octet first, and the data |
| LzfStream.StreamCtx.ConsumeInput | crypto/lzf-stream.c:117-139 | yields a unit once it is complete, from the input or by way of the buffer, and keeps the rest |
| LzfStream.StreamCtx.ProduceOutput | crypto/lzf-stream.c:155-199 | gives out as much of the buffered output as there is room for, in order |
| LzfStream.StreamCtx.DataEncode | crypto/lzf-stream.c:237-268 | one block becomes one frame, packed whenever the compressor succeeds in 65535 octets, even if that is longer than the block, and raw otherwise |
| LzfStream.StreamCtx.CompressProcess | crypto/lzf-stream.c:270-299 | for any piece of input and any room, what has been given out is frames for full blocks of what has been taken in, and nothing taken in is lost |
| LzfStream.StreamCtx.CompressFinal | crypto/lzf-stream.c:301-344 | when it reports OK, all the output of all calls is a stream (frames of 65535-byte blocks, then one trailer) for all the input of all calls; otherwise it asks for more room |
| LzfStream.StreamCtx.HeaderDecode | crypto/lzf-stream.c:348-420 | acts on a complete header as the wire format says; with LzfAccept.FeedIff, accepts exactly the headers of frames and of trailers with the right checksum |
| LzfStream.StreamCtx.DataDecode | crypto/lzf-stream.c:422-456 | unpacks a block and adds it to the checksum, or stops with an error if it does not have the promised size |
| LzfStream.StreamCtx.DecompressProcess | crypto/lzf-stream.c:458-511 | for any piece of input and any room, state and output are those of decoding all the input so far, buffered output is given out as far as there is room, a prefix of a stream is never refused, and frames with a wrong checksum behind them always are |
| LzfStream.StreamCtx.DecompressFinal | crypto/lzf-stream.c:513-532 | reports OK only for octets that are right frames and trailers for exactly what has been given out; after such octets without an empty block it reports OK or, while output is left, asks for more room; a wrong checksum is always reported; after a whole stream, room for what is buffered is enough for OK |
| LzfRoundTrip.EncodeAll | crypto/lzf-stream.c:270-344 | for every way of cutting the input and every room, with some room at each final call, the final calls end with OK and all the output is a stream for the input |
| LzfRoundTrip.DecodeAll | crypto/lzf-stream.c:458-532 | for every way of cutting a stream and every room, with some room at each final call, no call refuses it, the final calls end with OK, and all the output is the stream's text |
| LzfRoundTrip.StreamRoundTrip | crypto/lzf-stream.c:237-532 | however the two callers cut their input and whatever room they offer, decoding what was encoded ends with OK and gives exactly the input |
| HoardInvariant.RunInv | parcelkeeper/hoard.c:225-422 | in every run of any number of processes, row offsets are exactly 0, step, 2·step, …, tagged rows are allocated, no tag occurs twice, and reserved slots of different processes are disjoint, allocated and untagged in the shared table |
| HoardInvariant.StepInv | parcelkeeper/hoard.c:610-686 | each transaction, committed or rolled back, keeps all that |
| HoardInvariant.FlushOk | parcelkeeper/hoard.c:290-348 | publishing a slot table keeps the shared table consistent |
| HoardInvariant.ExpandOk | parcelkeeper/hoard.c:225-287 | reserving free rows and growing the table leaves no gap, and the new slots are allocated and untagged |
| HoardInvariant.ExpandFrame | parcelkeeper/hoard.c:225-287 | newly reserved slots belong to no other process, whose slots stay reserved |
| HoardInvariant.MovesWriteFree | parcelkeeper/hoard_modes.c:459-540 | a compaction transaction writes only where no row was allocated when it began, so rolling back the tables alone loses nothing |
| HoardInvariant.TruncateOk | parcelkeeper/hoard_modes.c:542-616 | truncation deletes unallocated rows only and leaves no gap |
| HoardRefs.RefersIff | parcelkeeper/hoard.c:688-751 | in every run, a parcel refers to a chunk in the end if and only if it did at the start or some sync of that parcel listed the chunk, and since then the parcel was not removed and no full sync of it left the chunk out |
| HoardRefs.RunHolds | parcelkeeper/hoard.c:869-1008 | in every run, a chunk of the shared table that no reader found damaged, and that some parcel refers to, by the steps of the run, whenever garbage is collected, stays with its bytes |
| HoardTheorems.RunKeeps | parcelkeeper/hoard.c:869-1008 | the same, with the references read off the states of the run |
| HoardRefs.CollectedIff | parcelkeeper/hoard.c:869-876 | garbage collection frees exactly the tagged rows that nothing references, completely, and leaves all others as they are |
| HoardRefs.CollectLeaves | parcelkeeper/hoard.c:869-898 | after any run and a collection, the tags left are those that were there and that some parcel, by the steps of the run, refers to |
| HoardRefs.CleanupLeaves | parcelkeeper/hoard.c:953-969 | after a cleanup exactly the tagged rows are allocated; the tags are the same, or with garbage collection the referenced ones |
| HoardRefs.RecoversAfterCrashes | parcelkeeper/hoard.c:900-1008 | from every consistent hoard, once all other processes have ended in whatever way, the cleanup of the last one gives back all rows they had reserved and loses no chunk |
| HoardTheorems.HeldStep | parcelkeeper/hoard.c:869-876 | one step loses or alters a chunk only by invalidating it or by collecting it while nothing references it |
| HoardTheorems.FlushPublishes | parcelkeeper/hoard.c:290-348 | after a flush the shared table has exactly the tags it had and those of the slot table |
| HoardTheorems.RunIntegrity | parcelkeeper/hoard.c:610-686 | in every run in which each rolled-back put was safe when it began, whatever part of it was written, the bytes of every tagged row and of every tagged slot hash to the tag |
| HoardTheorems.UndoneIff | parcelkeeper/hoard.c:610-686 | for a digest without collisions: every slot a put of a new chunk may pick, and every part of the padded slot it may have written when it is rolled back, keep all bytes matching their tags, if and only if before the put its process has an unused slot, or the data is too long to be written, or, padded, begins with the bytes of every chunk it lists that another row of the shared table also has |
| HoardTheorems.UnsafeUndone | parcelkeeper/hoard.c:591-608 | if not, there is a slot that the put may pick such that rolling it back after a complete write leaves a listed chunk whose bytes do not hash to its tag |
| HoardTheorems.MayRenewAt | parcelkeeper/hoard.c:358-389 | once all slots of a process are filled, a put may pick any slot that the flush releases |
| HoardMismatch.IntegrityCanFail | parcelkeeper/hoard.c:358-389 | a run from a new hoard, with digests that do not collide and a put rolled back after its slot was written, that ends with a published row whose bytes do not have its tag |
| HoardTables.Session.FlushSlotCache | parcelkeeper/hoard.c:290-348 | row by row, each slot's tag is published unless another row has it, in which case, as for an unused slot, the row is freed; the slot table ends empty; in any hoard that the process sees this way, this is the step Flush |
| HoardTables.Session.ExpandSlotCache | parcelkeeper/hoard.c:225-287 | takes up to 256 unallocated rows and as many new ones as are missing |
| HoardTables.Session.AllocateSlot | parcelkeeper/hoard.c:358-389 | the retry loop ends with an unused slot, after at most one flush and expansion |
| HoardTables.Session.PutChunk | parcelkeeper/hoard.c:591-686 | when a chunk is already present, stored, or refused; after a failure the tables are as before and the chosen slot has as many bytes of the padded data as were written, then what it had before; in any hoard that the process sees this way, this is the step Put or PutUndone |
| HoardTables.Session.GetChunk | parcelkeeper/hoard.c:497-582 | returns bytes that hash to the tag, or nothing exactly if neither table has the tag in the end; drops only entries that claim the tag and cannot be read back; in any hoard that the process sees this way, this is a run of invalidations |
| Compaction.MoveFalls | parcelkeeper/hoard_modes.c:428-457 | each move lowers the sum of the tagged offsets |
| Compaction.MoveIntoSpace | parcelkeeper/hoard_modes.c:379-426 | with no slot reserved, a move goes from beyond the space that the chunks need into it |
| Compaction.MoveWritesSlot | parcelkeeper/hoard_modes.c:428-457 | a move writes one whole slot, the chunk's bytes and then zeroes, and touches no other |
| Compaction.MovesHoldIff | parcelkeeper/hoard_modes.c:428-457 | a run of moves neither loses nor adds nor alters a chunk |
| Compaction.CompactedHasNoGaps | parcelkeeper/hoard_modes.c:379-426 | once every free row is above every tagged one, the count of moves to make is zero |
| Compaction.Compactor.CountMoves | parcelkeeper/hoard_modes.c:379-426 | the number of unallocated rows within the space the chunks would fill |
| Compaction.Compactor.Iteration | parcelkeeper/hoard_modes.c:459-540 | moves the at most sixteen rows of a cursor opened at the start, highest first, each to the lowest free row; done only if no free row is below a tagged one; not done means that all rows of the cursor, at least one, were moved; an unreadable chunk undoes the tables; in any hoard, this is the step Compact or CompactUndone |
| Compaction.Compactor.Truncate | parcelkeeper/hoard_modes.c:542-616 | cuts table and file just behind the last allocated row; if the commit fails the table is as before; in any hoard, this is the step Truncate or TruncateUndone |
| Compaction.Compactor.Compact | parcelkeeper/hoard_modes.c:618-660 | terminates, keeps every collected-table chunk with its bytes even on failure, ends with exactly the tags that were there and are referenced, with every free row above every tagged one, and if no slot was reserved makes exactly the predicted number of moves and leaves nothing but chunks |
| AesCipher.MixInverse | crypto/aes_tab.h:32-44 | InvMixColumns undoes MixColumns |
| AesCipher.InvMixLinear | crypto/aes.c:157-192 | InvMixColumns may be applied to a round key before it is added |
| AesCipher.InverseCipher | crypto/aes.c:348-454 | the equivalent inverse cipher of section 5.3.5 of FIPS 197, with its derived keys, undoes the cipher, for every number of rounds and every substitution table with an inverse |
| Aes.EncWordPacks | crypto/aes.c:239-263 | four table lookups give a column of SubBytes, ShiftRows, MixColumns and AddRoundKey |
| Aes.DecWordPacks | crypto/aes.c:366-389 | four table lookups give a column of a round of the equivalent inverse cipher |
| Aes.NextWord | crypto/aes.c:97-148 | each word of the key schedule, for all three key lengths, is what section 5.2 of FIPS 197 defines |
| Aes.RconTable | crypto/aes_tab.h:996-1000 | the constants are the powers of x in GF(2^8) |
| Aes.AesKey.Init | crypto/aes.c:77-203 | accepts exactly keys of 16, 24 or 32 bytes, and then holds the key schedule and the keys of the equivalent inverse cipher |
| Aes.AesKey.InvertKeys | crypto/aes.c:153-200 | the decryption keys are the round keys in reverse, all but first and last through InvMixColumns |
| Aes.AesKey.Encrypt | crypto/aes.c:212-329 | the loop of two rounds per pass computes the cipher of section 5.1 of FIPS 197, in place or not |
| Aes.AesKey.Decrypt | crypto/aes.c:338-457 | the loop computes the equivalent inverse cipher, in place or not |
| Aes.DecryptionUndoes | crypto/aes.c:212-457 | under one key of any of the three lengths, decryption gives back the block |
| Aes.RoundTrip | crypto/aes.c:77-457 | setting up a key, encrypting and decrypting in place leaves the block as it was |
| AesBlock.AesIsCipher | crypto/aes.c:459-465 | AES under any key is a block cipher as the modes need it |
| AesBlock.AesComputes | crypto/aes.c:459-465 | on every block, that cipher is what the AES code computes |
| Cbc.CbcRoundTrip | crypto/cbc.c:44-154 | CBC decryption undoes CBC encryption for every block cipher and every number of blocks |
| Cbc.CbcEncConcat | crypto/cipher.c:99-107 | encrypting in two calls is encrypting in one |
| Cbc.CbcDecConcat | crypto/cipher.c:99-107 | decrypting in two calls is decrypting in one |
| Cbc.MessageRoundTrip | crypto/cipher.c:109-166 | decrypting and unpadding gives back a message of any length |
| Cbc.UnfilledFills | crypto/pad.c:37-53 | what unpadding accepts is the padding of what it returns |
| Cbc.FilledUnfills | crypto/pad.c:23-53 | padding is undone, whatever the message |
| CipherCtx.PadBlock | crypto/pad.c:23-35 | when it pads, and the padded block |
| CipherCtx.UnpadBlock | crypto/pad.c:37-53 | accepts a block if and only if it is the padding of some data, and reports the length of that data |
| CipherCtx.Context.constructor | crypto/cipher.c:74-97 | the chaining value is the given one or zeroes |
| CipherCtx.Context.CbcEncrypt | crypto/cbc.c:44-95 | refuses anything but whole blocks; the output is CBC encryption, also in place, the chaining value its last block, and no other byte changes |
| CipherCtx.Context.CbcDecrypt | crypto/cbc.c:105-154 | the same for decryption |
| CipherCtx.Context.Process | crypto/cipher.c:99-107 | whole blocks in the context's direction |
| CipherCtx.Context.FinalEncrypt | crypto/cipher.c:127-143 | succeeds exactly if the padded message fits, and then the output is its encryption |
| CipherCtx.Context.FinalDecrypt | crypto/cipher.c:144-165 | succeeds exactly if the input is the encryption of a padded message that fits, and then gives that message |
| Chunk.Encode | libutil/chunk.c:143-264 | succeeds exactly for known algorithms and chunks that are whole blocks or compress well enough; key, tag, output and compression type are those of the convergent encoding of what the compressor made of the chunk in the memory it found; the tag is the digest of the output |
| Chunk.Decode | libutil/chunk.c:266-404 | succeeds exactly if lengths, padding, key and decompression all agree, and then gives the chunk |
| Chunk.AlwaysEncodable | libutil/chunk.c:195-249 | every chunk whose length is a positive multiple of 16 can be encoded, whatever the compressor does |
| Chunk.EncodingShrinks | libutil/chunk.c:200-248 | an encoding is no longer than the chunk, and shorter if still marked compressed |
| Chunk.ChunkRoundTrip | libutil/chunk.c:143-404 | decoding an encoding with its key and its compression type gives back the chunk, if and only if the chunk is not empty |
| Chunk.SameEncodingIff | libutil/chunk.c:177-206 | two encodings of a chunk are the same, key and tag included, if and only if the compressor made the same of it both times |
| ChunkStack.StackIsSound | libutil/chunk.c:143-264 | SHA-1 over any compression function, AES over any substitution table with an inverse, and LZF meet all that the chunk encoding asks of its primitives, and are the SHA-1, the AES and the LZF of the other modules |
| ChunkStack.Convergent | libutil/chunk.c:177-206 | whatever memory the compressor finds, a chunk has one encoding, key and tag included, without compression, with zlib, and with LZF for the chunks that the next row describes |
| ChunkStack.ConvergentIff | libutil/chunk.c:177-206 | a chunk of whole blocks has one encoding with LZF, whatever memory the compressor finds, if and only if the run from a cleared table, in the room the chunk offers, is not disturbed, or no table gives an output short enough to keep |
| ChunkStack.UnsettledDiffers | libutil/chunk.c:195-221 | for every other chunk of whole blocks there are two memories with which its keys are the digests of different octets |
| ChunkStack.LzfDiverges | libutil/chunk.c:177-221 | a chunk of 512 octets that LZF encodes under two keys, those of two compressed forms that differ in an octet |
| Chunk.DecodingIsKeyed | libutil/chunk.c:344-363 | a successful decode implies that the payload hashes to the key |
| Blobtool.Pipe.Run | tools/blobtool.c:377-403 | for any piece of input, all but 1 to 16 held-back bytes of all the input so far have gone through the cipher, in order |
| Blobtool.Pipe.Finish | tools/blobtool.c:404-412 | the output of all calls is the header and the one-shot padded encryption of all the input; when decrypting, the message, or failure exactly if there is none |
| Blobtool.Seal | tools/blobtool.c:331-413 | however the input is cut, the output is the eight octets Salted__, the salt, and the one-shot encryption |
| Blobtool.Unseal | tools/blobtool.c:331-413 | however the input is cut after the header, the output is the message of the whole file |
| Blobtool.SealedOpens | tools/blobtool.c:331-413 | opening what was sealed gives back the data |
| Hash.Context.Update | crypto/sha1.c:60-89 | for any cuts, the digest words, the 64-bit block count and the partial block are those of the concatenation |
| Hash.Context.Final | crypto/sha1.c:93-130 | the digest folds the compression function over the padded concatenation, and the context is ready for a new message |
| Hash.HashPieces | crypto/hash.c:55-65 | however a message is cut into updates, the digest is the fold of the compression function over the padded whole |
| Hash.Sha1Pieces | crypto/sha1.c:40-130 | however a message is cut, the twenty octets are the five words, each most significant octet first, of the fold over the message padded with a one bit, the fewest zeroes and its length in bits, most significant octet first (section 5.1.1 of FIPS 180-4) |
| Hash.Md5Pieces | crypto/md5.c:36-133 | the same for MD5, in sixteen octets, words and length least significant octet first (sections 3.1, 3.2 and 3.5 of RFC 1321) |
| Hash.ZeroCountIsLeast | crypto/sha1.c:91-113 | the zero bytes of the padding are the fewest that put the length at the end of a block (section 5.1.1 of FIPS 180-4, section 3.1 of RFC 1321) |
| Hash.BitCount | crypto/md5.c:122-126 | the bit count made of the wrapping block count and the index is the message's length in bits modulo 2^64 |
| Hash.Context.constructor | crypto/hash.c:34-47 | a new context stands at the empty message |
| Lockfile.RunInv | parcelkeeper/util.c:267-314 | in every run with any number of processes, killed at any point, locks have exactly the owners the processes' positions say, and a holder's file is the one the path names |
| Lockfile.MutualExclusion | parcelkeeper/util.c:267-314 | a process past the link check and before its unlink holds the lock on the very file the path names, and it is the only one |
| Lockfile.AcquiresIff | parcelkeeper/util.c:267-302 | however earlier processes ended, a process that runs alone acquires the lock file exactly if no other process has the named file locked |
| Lockfile.HandsOver | parcelkeeper/util.c:267-314 | once the holder has released the lock file, its name is gone and any process that runs alone acquires it |
| Lockfile.NothingLeftBehind | parcelkeeper/util.c:304-314 | in every run in which no process is killed, the lock file exists only while some process is about to lock it or holds it |

## Left out

- FUSE mounting, signals, the command line, logging, statistics and the shared-memory chunk map: user interface and plumbing.
- SQLite: a transaction is one atomic step, so lock promotion, busy handlers and the retry loops around a transaction do not appear; each retry is a further step.
- The local cache (`parcelkeeper/cache.c`) appears only as a map from chunks to bytes that may fail.
- The byte counts and error codes that image_read and image_write return; each segment of a request is an operation of its own, as it is in the code.
- zlib, LZMA and the CRC polynomial: a codec with a round trip, and an arbitrary fold.
- `crypto/hmac.c`, `crypto/mac.c`, `crypto/sha1-compress.c`, `crypto/md5-compress.c`, the ECB mode and Blowfish.
- The literal entries of the AES tables: a table is defined by what the comment at its head says it holds.
- The wall clock: whether a dirty entry is old enough to write back is a free choice at each step, and so the cleaner's sleep is not modelled.
- The word-wise exclusive or and the assembly copy loop: the bytewise forms are modelled.
- Hoard schema creation and upgrades, the `parcels` table, the `crypto` column (there is one suite) and the repairs of `check_hoard`.
- Wrap-around of 32-bit sector offsets in the hoard, which needs a file of a terabyte.
- HoardTables.Session.GetChunk: what other processes do between its lookup, its read and its invalidation does not appear there; in the step system an invalidation is a step of its own, at any time and of any row.
- Chunk.Decode: a compressed payload of no bytes, on which the LZF decompressor reads past its input, is refused.
- LzfWire.Unpack: an empty packed block, on which the original reads past its input, is refused.
- LzfStream.StreamCtx.CompressFinal: a caller that has once called final gives no more input, as crypto/isrcrypto.h:201-231 asks; the buffers of the caller are sequences, so their overlap with the context is not modelled.
- Hard links to the lock file made by others, and file systems without a lock manager.
- The key derivation of blobtool is an arbitrary function from the salt to a cipher and a chaining value; dying with a message is a failed result.
