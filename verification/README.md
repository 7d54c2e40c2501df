# ChunkGate: verified model of the storage core

ChunkGate stores objects as deduplicated, reference-counted chunks behind an S3-style interface. This
project models the parts of it where a mistake loses or corrupts data, and proves what they keep:

- **Metadata and garbage collection.** `Metadata`, `MemoryStores`, `GcMachine`, `OrphanAge`, `Sweepers`,
  `Backends`, `Contents`: reference counts and the committed index in every reachable state; uploads, deletes and
  sweeps interleaved step by step, with the exact condition under which a sweep may remove a block; what one sweep
  removes.
- **The row store.** `RowStores`, `Shards`, `RowSimulation`, `ServedUploads`: one database per tenant; their SQL
  transactions, row by row, simulate the one in-memory store of all tenants, and uploads give them nothing they refuse.
- **Chunking and reading.** `Chunkers`, `ChunkStreams`, `ObjectService`, `Ranges`: the rolling-hash chunker against a
  whole-input specification, store-then-read, range reads and the range header.
- **Multipart uploads.** `Multipart`, `MultipartLedger`, `MultipartRuns`, `CompleteUpload`: sessions, parts, the byte
  counter on every failure path, interleaved calls against memory and store, restart at any moment, and what
  completion stores.
- **Around them.** `Limits` (compare-and-swap reservations, upload semaphore), `Drains` (shutdown), `DeltaClient`
  (chunk cache and reconstruction), `QueryStrings`, `SigV4`, `AuthHeaders`, `HeaderTexts` and `Signatures` (request
  signing on both ends). `Int64`, `Sums`, `NatSets`, `ByteData` and `Text` hold the arithmetic and string functions
  all of them share.

`dafny verify dfyconfig.toml` checks the whole project. Methods carry the source's loops and field updates and are
proved against specification functions; lemmas prove what those functions keep. State machines have one step per
place where another thread can get in.

Conventions. SHA-256 (whole or its head), MD5, HMAC and lower-casing are function parameters; where a result needs
freedom from hash collisions it is stated for the byte strings in use only. Times are integers. A `reliable`, `calm`
or `honest` flag says that calls into the outside do not fail; with the flag off, every such call may fail at any
time. Strings handed out by random generators (object and upload ids) are parameters required to be unused. Tenants,
buckets and keys are opaque; the index key joins them with NUL, so results that need the join to be injective ask for
tenant and bucket without NUL.

Findings that contradict what the documentation suggests, or what the code seems meant to do:

- `docs/gc.md` says that the orphan age keeps the collector away from nearby uploads. It does not: for every orphan age
  there is a run in which an upload that takes no time at all reuses a block that a sweep listed at the same instant
  then removes (`GcMachine.OrphanAgeAloneIsUnsafe`).
  `GcMachine.RemovalSafeIffGuarded` gives the exact condition a removal would have to check.
- Undoing a part restores a saved reservation. If another part of the same upload was reserved for in between, bytes stay
  counted with nothing to account for them (`MultipartLedger.OverlappingUndoLeaks`), through every careful continuation
  (`MultipartLedger.LeakStays`); `MultipartLedger.StepKeepsLedgerIff` gives the exact condition, and
  `MultipartRuns.SequentialRunsAgree` shows that calls which do not overlap on one upload always meet it.
- `docs/metadata.md` says that each tenant receives an isolated database file. The file is named after the sanitized
  tenant, and sanitizing is not injective: the empty tenant and the one called `default` share a file
  (`RowSimulation.EmptyTenantIsDefault`). `RowSimulation.AlikeIffSeparate` shows that the databases answer as the
  in-memory store does if and only if the tenants' sanitized names differ, which they do when all are nonempty and of
  letters, digits, `-` and `_` (`Shards.PlainTenantsSeparate`).
- The delta client asks for everything missing in one request, and the server takes at most 1000 names: with more than
  1000 chunks missing a download never succeeds (`DeltaClient.Client.Download`).
- `nextPowerOfTwo` never returns for an average size above 2^62 (`ChunkStreams.DoublingReachesIff`).
- The range parser departs from section 14.1.2 of RFC 9110 in these ways, and `Ranges.RfcAnswerIff` and
  `Ranges.AcceptedOutsideForm` show that there are no others for a single range: it accepts a plus sign, a minus sign
  on zero, and white space around the two numbers (`Ranges.SignsAndSpacesAccepted`); it refuses a last position or
  suffix length above int64 that the RFC cuts down to the size (`Ranges.LargeNumbersRefused`); and it compares the unit
  name by case (`Ranges.UpperCaseUnitRefused`).
- Part sizes are added up in int64. From 2^63 bytes on an upload's reservation would turn negative
  (`Multipart.WrappedTotalTidyIff` has the exact condition, `Multipart.WrappedTotalTurnsNegative` two such parts).

## Model

| member | source | states |
|---|---|---|
| `Metadata.ObjectKeyInjective` | internal/metadata/memory.go:338-340 | joined index keys are equal only for equal tenant, bucket and key, when tenant and bucket hold no NUL |
| `Metadata.ReachableStoreExact` | internal/metadata/memory.go:53-127 | after any allowed sequence of create, commit, delete and forget from the empty store: the index maps each key to exactly one committed object, and each block's count is the number of occurrences, with multiplicity, in the tenant's committed manifests |
| `Metadata.ClampNeverFires` | internal/metadata/memory.go:324-336 | in every reachable store the guarded decrement loses nothing: each released chunk list occurs within the count |
| `Metadata.CommitKeepsInv` | internal/metadata/memory.go:53-85 | replacing an object keeps index and counts exact, even when the previous object under the key is released in the same call |
| `Metadata.DeleteKeepsInv` | internal/metadata/memory.go:105-127 | deleting keeps index and counts exact |
| `Metadata.ForgetKeepsInv` | internal/metadata/memory.go:156-169 | forgetting zero-count blocks keeps index and counts exact |
| `Metadata.LookupsAreAMap` | internal/metadata/memory.go:87-103 | seen through lookups the store is a plain map: commit is an update at one key, delete a removal, create and forget are invisible |
| `Metadata.ReferencedIsCounted` | internal/metadata/memory.go:312-322 | a chunk of a committed manifest has a positive count |
| `Metadata.CountsMove` | internal/metadata/memory.go:312-336 | adding or releasing a chunk list stamps each block it names, gives it the size of its last mention and moves its count by the number of mentions; all other blocks stay |
| `MemoryStores.MemoryStore.CommitObject` | internal/metadata/memory.go:53-85 | the method's new state is the commit function of the old one; it succeeds exactly for a pending id |
| `MemoryStores.MemoryStore.Delete` | internal/metadata/memory.go:105-127 | the method's new state is the delete function of the old one, and the manifest returned is the one a lookup found |
| `MemoryStores.MemoryStore.IncrementLocked` | internal/metadata/memory.go:312-322 | the loop adds each chunk's multiplicity, stamps the time and stores the last size |
| `MemoryStores.MemoryStore.DecrementLocked` | internal/metadata/memory.go:324-336 | the loop subtracts each chunk's multiplicity, never below zero, and stamps the time |
| `MemoryStores.MemoryStore.ListUnreferencedBlocksOlderThan` | internal/metadata/memory.go:133-154 | distinct zero-count blocks at or before the cutoff, and all of them when fewer than the limit exist |
| `MemoryStores.MemoryStore.Forget` | internal/metadata/memory.go:156-169 | exactly the listed blocks whose count is zero disappear |
| `GcMachine.GuardedStepKeeps` | internal/object/service.go:71-142 | every step of every upload, delete and sweep keeps: no dangling chunk, blocks named by content, exact counts, in-flight uploads backed by blocks; a removal only under the guard |
| `GcMachine.GuardedRunsAreSafe` | internal/gc/sweeper.go:111-147 | in every guarded run of any number of uploads, deletes and sweeps, with backend deletes stopping anywhere, each chunk of each committed manifest has a block that hashes to its name |
| `GcMachine.GuardedRunsAreDurable` | internal/object/service.go:227-273 | after any such run a committed object still assembles to the body it was stored with |
| `GcMachine.RemovalSafeIffGuarded` | internal/gc/sweeper.go:124-143 | a removal leaves every guarded continuation safe if and only if the block's count is zero and no in-flight upload of the tenant has seen it |
| `GcMachine.OrphanAgeAloneIsUnsafe` | internal/gc/sweeper.go:109-118 | for every orphan age a concrete run, legal in all but the guard, ends with a committed manifest whose block is gone, although the upload begins, is swept under and commits at one instant |
| `OrphanAge.ListedMeansUnreferencedSinceCutoff` | internal/gc/sweeper.go:109-118 | over any history with a monotone clock, a hash a sweep lists had no committed reference in any state current after the cutoff up to the listing |
| `OrphanAge.SweptMeansUnreferenced` | internal/gc/sweeper.go:109-143 | what a sweep has removed, completed or broken off, had no committed reference in any state that was current less than the orphan age ago |
| `Backends.BlockStore.DeleteBlocks` | internal/backend/fs.go:126-140 | success removes exactly the named blocks; failure removes some of them and nothing else |
| `Backends.BlockStore.PutBlock` | internal/backend/fs.go:41-74 | an existing block is never overwritten; a failure changes nothing |
| `Sweepers.Sweeper.DeleteWithRetry` | internal/gc/sweeper.go:159-183 | whatever the retries did, only named blocks are gone, and all of them on success |
| `Sweepers.Sweeper.SweepBatch` | internal/gc/sweeper.go:111-147 | one list, delete and forget: metadata forgets the batch only after the backend deleted all of it |
| `Sweepers.Sweeper.Sweep` | internal/gc/sweeper.go:93-152 | terminates; on success, always so with a reliable backend, exactly the blocks without a reference for at least the orphan age, a day unless set, are gone from store and backend of every tenant, for every batch size, and the count reported is their number; whatever happens no younger and no referenced block goes |
| `RowStores.RowStore.CommitObject` | internal/metadata/sqlite.go:60-119 | the transaction row by row, any statement of which may fail: on success the rows are the commit of the old rows, otherwise all rows are as before; the unique committed row per key survives |
| `RowStores.RowStore.AttachObjectChunks` | internal/metadata/sqlite.go:718-760 | one row per chunk in order and one count per occurrence |
| `RowStores.RowStore.DetachObjectChunks` | internal/metadata/sqlite.go:762-779 | all rows of the object go and each count drops once per row |
| `RowStores.RowStore.DeleteObject` | internal/metadata/sqlite.go:136-167 | success equals the row-level delete and returns the manifest found; not found or a failure midway leaves the rows unchanged |
| `RowStores.RowStore.ForgetBlocks` | internal/metadata/sqlite.go:203-219 | exactly the listed rows with count zero disappear, or, when a statement fails, none |
| `Shards.OwnOperation` | internal/metadata/sqlite.go:415-453 | what one tenant owns of the shared in-memory store is a store by itself: the tenant's operation followed by taking its part equals taking the part first |
| `Shards.OtherOperation` | internal/metadata/memory.go:34-127 | an operation of one tenant leaves every other tenant's objects, index entries and counts alone |
| `Shards.ShardLookup` | internal/metadata/memory.go:87-103 | a lookup in the shared store is a lookup in the tenant's part of it |
| `RowSimulation.OpSimulates` | internal/metadata/sqlite.go:60-119 | every operation, of any of the tenants that share no database, keeps all their databases in agreement with the one in-memory store: object rows, gapless chunk rows of committed objects only, block counts and stamps |
| `RowSimulation.RowStoreSimulatesMemoryStore` | internal/metadata/sqlite.go:121-134 | after any operation sequence of any number of tenants that share no database, in each tenant's database each ref_count is the number of chunk rows with that hash and every lookup answers as the in-memory store of all tenants does |
| `RowSimulation.AlikeIffSeparate` | internal/metadata/sqlite.go:415-453 | for any set of tenants: in all runs all lookups in their databases answer as the in-memory store does if and only if no two of the tenants have the same sanitized name |
| `RowSimulation.SharedDatabase` | internal/metadata/shards.go:23-48 | of two tenants with the same sanitized name, one finds what the other stored, where the in-memory store has nothing |
| `RowSimulation.EmptyTenantIsDefault` | internal/metadata/shards.go:24-26 | the empty tenant and the one called default are such a pair |
| `Shards.PlainTenantsSeparate` | internal/metadata/shards.go:27-47 | tenants with nonempty names of letters, digits, dash and underscore share no database |
| `Shards.SafeNamesArePlain` | internal/metadata/shards.go:23-48 | whatever the tenant's name, its database file's name holds letters, digits, dash and underscore only |
| `RowSimulation.ForgetKeepsReferencedRows` | internal/metadata/sqlite.go:203-219 | forgetting never drops a block that a chunk row names |
| `ServedUploads.RefsAreValid` | internal/object/service.go:95-120 | the references of a body are valid chunk rows if and only if no piece hashes to the empty name |
| `ServedUploads.UploadsAreServed` | internal/object/service.go:83-133 | in every state that keeps the step machine's invariant, what an upload, a delete or a sweep does to the metadata is an operation the simulation covers: an upload commits under the tenant, bucket and key given at create, with well-formed chunks |
| `ServedUploads.UploadCommitSucceeds` | internal/object/service.go:126-133 | an upload's commit meets every check of the transaction in its tenant's database, when the databases of all tenants agree with the in-memory store |
| `ServedUploads.GuardedRunsAreMirrored` | internal/object/service.go:71-142 | through every guarded run of any number of tenants that share no database, databases that take the same operations keep agreeing with the shared store, and an upload's next commit meets every check of its transaction |
| `Chunkers.MaskTestIsLocal` | internal/chunker/chunker.go:213-231 | with mask 2^k - 1, once k bytes have entered the chunk the test of the masked hash depends only on the last k bytes |
| `Chunkers.PiecesPartition` | internal/chunker/chunker.go:158-259 | the specification's chunks concatenate to the input and none is empty |
| `Chunkers.PieceSizes` | internal/chunker/chunker.go:213-231 | all chunks but the last have between minimum and maximum size; the last at most the maximum |
| `Chunkers.CutsFollowContent` | internal/chunker/chunker.go:213-231 | with mask 2^k - 1, each chunk but the last is full or its hash ends in k zero bits, and no shorter chunk from the minimum on was either |
| `Chunkers.PiecesAreContentCut` | internal/chunker/chunker.go:213-244 | the specification's chunks are the input cut wherever size and content say so |
| `Chunkers.ContentCutUnique` | internal/chunker/chunker.go:213-231 | there is only one way to cut an input like that |
| `Chunkers.HashAppend` | internal/chunker/chunker.go:215-216 | the hash is the sum modulo 2^64 of the table entries, each times two to the number of bytes after it |
| `Chunkers.RestartAfterCut` | internal/chunker/chunker.go:246-259 | after a cut the remaining chunks are those of the remaining bytes alone |
| `Chunkers.SharedSuffixSharesChunks` | internal/chunker/chunker.go:213-259 | two inputs both cut where a shared suffix begins chunk that suffix identically |
| `Chunkers.OffsetsContiguous` | internal/chunker/chunker.go:246-259 | each chunk starts where the ones before it end |
| `ChunkStreams.NextPowerOfTwo` | internal/chunker/chunker.go:285-294 | the least power of two not below its argument, for arguments up to 2^62 |
| `ChunkStreams.DoublingReachesIff` | internal/chunker/chunker.go:285-294 | int64 doubling from 1 reaches the target if and only if the target is at most 2^62; above it the loop never ends |
| `ChunkStreams.New` | internal/chunker/chunker.go:45-78 | the sizes are those set or 512 KiB, 1 MiB and 4 MiB, each raised to the one before, and the mask is one less than the least power of two not below the average |
| `ChunkStreams.StreamProcessor.WriteByte` | internal/chunker/chunker.go:213-231 | one byte of the loop keeps current, hash, offset and emitted chunks in step with the specification |
| `ChunkStreams.StreamProcessor.Flush` | internal/chunker/chunker.go:233-244 | the end of input leaves exactly the specification's chunks; the empty input leaves one empty chunk |
| `ChunkStreams.ReadSmallPrefix` | internal/chunker/chunker.go:261-283 | reads a prefix and says whether it exceeds the threshold, losing no byte, for every fragmentation |
| `ChunkStreams.StreamBuiltin` | internal/chunker/chunker.go:158-188 | for every fragmentation, data with EOF included, the emitted chunks are the specification's; an aborted stream emits a prefix of them |
| `ChunkStreams.Stream` | internal/chunker/chunker.go:94-123 | however the input arrives: up to a positive threshold it is one chunk, empty it is one empty chunk, and everything else is cut by content, each chunk starting where the ones before it end; after an error the chunks handed out are the first of them |
| `ChunkStreams.Split` | internal/chunker/chunker.go:80-92 | from the options to the chunks: sizes, power of two and cuts, for every fragmentation |
| `ObjectService.Service.Put` | internal/object/service.go:71-142 | a committed body is found by lookup with its chunk list, size, headers, times and the quoted digest of the whole body as ETag, all its blocks present; a broken stream is never committed; a failure before the commit, or of the commit once all blocks are written, changes no lookup and no count; no block is overwritten |
| `ObjectService.Service.PutThenOpen` | internal/object/service.go:144-154 | what is stored is what is read back, for every body, partition, prior store and prior backend |
| `ObjectService.Service.OpenChunks` | internal/object/service.go:227-273 | a range read yields exactly body[start..end] by opening exactly the nonempty chunks that meet it, in order; the invalid-chunk-range error never occurs |
| `ObjectService.ClipStep` | internal/object/service.go:240-262 | the shares of consecutive chunks add up to the range of the body |
| `ObjectService.Service.ReadChunks` | internal/object/service.go:172-225 | selected chunks in the order in which the request first names them, each once, each hashing to its name and of its manifest's size; a name outside the manifest is refused |
| `ObjectService.IntersectsIff` | internal/object/service.go:230-239 | a read opens a chunk exactly when some byte position of it lies in the range |
| `Contents.AssembleRefs` | internal/object/service.go:227-273 | reading a chunk list from content-named blocks gives the stored body back |
| `Ranges.AcceptsExactly` | internal/api/ranges.go:21-79 | the parser accepts a header if and only if it denotes a nonempty range of the object, and then returns that range |
| `Ranges.AcceptedRangeInside` | internal/api/ranges.go:21-79 | an accepted range satisfies 0 <= start <= end < size |
| `Ranges.RfcAnswerIff` | internal/api/ranges.go:21-79 | a header of the form of section 14.1.2 of RFC 9110 is answered as the RFC says if and only if the RFC refuses it too, or its unit is in lower case and its last number fits int64 |
| `Ranges.RfcRangesAccepted` | internal/api/ranges.go:44-79 | every such header in the usual spelling whose last number, if any, fits int64 gets the RFC's range or is refused as the RFC does |
| `Ranges.AcceptedOutsideForm` | internal/api/ranges.go:25-39 | a header outside that form is accepted exactly when it reads as a range with white space around its numbers or a sign on one of them |
| `Ranges.SignsAndSpacesAccepted` | internal/api/ranges.go:25-39 | three headers outside the form, with a plus, a minus and inner spaces, each accepted |
| `Ranges.LargeNumbersRefused` | internal/api/ranges.go:70-73 | for every number above int64 and every size, a last position and a suffix length that the RFC grants and the parser refuses |
| `Ranges.UpperCaseUnitRefused` | internal/api/ranges.go:22-24 | a header with a capital in its unit name that the RFC grants and the parser refuses |
| `Limits.ReserveExact` | internal/limits/reservations.go:36-46 | the wrap test refuses exactly the sums above the capacity, or above int64 when unlimited |
| `Limits.DiskReservations.TryReserve` | internal/limits/reservations.go:29-46 | succeeds exactly when the bytes are not negative and fit, and then adds them |
| `Limits.StepsAreAtomic` | internal/limits/reservations.go:29-62 | in any interleaving a step changes the counter by a whole reservation or release, within bounds and never clamped |
| `Limits.FailedCheckReturnsBytes` | internal/limits/disk.go:33-38 | after a failed disk check the caller's load and swap lower the counter by exactly the bytes it had taken |
| `Limits.RefusedOnlyWhenFull` | internal/limits/reservations.go:36-46 | a caller is refused exactly at a moment when its bytes do not fit |
| `Limits.ReservationsBalance` | internal/limits/reservations.go:29-62 | in every interleaving of compare-and-swap loops the counter is what callers hold, in 0..capacity, and zero once nothing is held |
| `Limits.SemaphoreBounded` | internal/limits/reservations.go:116-165 | with a fixed limit the active count is the number of unreleased holders and never exceeds it, however often releases repeat |
| `Limits.AdmittedIffFree` | internal/limits/reservations.go:119-134 | a try is admitted exactly when a permit was free when it looked and the count has not changed since |
| `Limits.ReleaseFreesOne` | internal/limits/reservations.go:130-134 | a release frees one permit, and a repeated one none |
| `Multipart.Manager.Create` | internal/multipart/manager.go:108-168 | success adds the session in memory and store and reserves its size; every failure leaves sessions, store and counter as they were; when nothing around fails, each outcome exactly under its own condition on size limit and free bytes |
| `Multipart.Manager.PutPart` | internal/multipart/manager.go:200-276 | success replaces the part in memory, store and file; every failure path leaves the store, the other files and the reservations exact; no part and no upload ever exceeds its limit; when nothing around fails, a part is taken exactly when its number is positive, the upload exists, the part and the upload's new total are within their limits and the bytes fit, and each error has its own condition |
| `Multipart.Manager.ReserveForPart` | internal/multipart/manager.go:467-504 | the session's reservation becomes the sum of its parts' sizes and the counter grows by the increase only; refused exactly when that sum exceeds the upload limit or does not fit |
| `Multipart.Manager.RollbackReservation` | internal/multipart/manager.go:506-520 | the saved part and reservation are put back and an increase is returned |
| `Multipart.RestoreUndoes` | internal/multipart/manager.go:506-520 | restoring after replacing a part gives the session before, whether or not the part existed |
| `Multipart.NewTotalBounds` | internal/multipart/manager.go:478-500 | the new total is at least the part and at most the part plus what was reserved |
| `Multipart.WrappedTotalTidyIff` | internal/multipart/manager.go:478-500 | with sizes added up in int64, the session keeps a nonnegative reservation equal to its parts' sizes exactly when the true total fits int64 |
| `Multipart.WrappedTotalTurnsNegative` | internal/multipart/manager.go:478-500 | a part of 2^63 - 1 bytes and one of 1 byte leave the session with the reservation -2^63 |
| `Multipart.Manager.DeleteSession` | internal/multipart/manager.go:445-465 | the session leaves store and memory together and its bytes are returned, loaded or not; other uploads' files stay |
| `Multipart.Manager.Open` | internal/multipart/manager.go:278-307 | yields the bytes last accepted for each listed part, concatenated in list order, or an error; without a list, all parts in ascending order |
| `Multipart.Manager.LoadActive` | internal/multipart/manager.go:328-362 | success leaves memory equal to the store with the counter exact; a fresh manager fails only if the stored reservations do not fit |
| `Multipart.SaveKeepsHonest` | internal/multipart/manager.go:247-273 | after a part is saved each recorded part's size and ETag still describe the bytes accepted, and its file holds those or is gone |
| `Multipart.RunThenRestart` | internal/multipart/manager.go:328-362 | after any calls made one after another from an empty start, however they failed, a fresh manager rebuilds the same sessions, parts and reserved total, and no part or upload is over its limit |
| `MultipartLedger.StepKeepsLedgerIff` | internal/multipart/manager.go:405-554 | with calls interleaved freely a step keeps counter = session reservations + outstanding amounts if and only if it is not an undo over a changed reservation nor a create over an existing one |
| `MultipartLedger.CarefulRunsBalance` | internal/multipart/manager.go:405-554 | in every interleaving without such steps the balance holds at every moment and the capacity is never exceeded |
| `MultipartLedger.NothingIsClamped` | internal/multipart/manager.go:548-554 | what a call still has to give back is part of the counter, so the clamp at zero never fires |
| `MultipartLedger.UndisturbedUndoIsExact` | internal/multipart/manager.go:506-520 | if no other step writes the session between reserve and undo, the undo restores the session exactly and keeps the balance |
| `MultipartLedger.StepDrifts` | internal/multipart/manager.go:405-554 | from any state, balanced or leaking, a step moves the counter away from sessions and calls by exactly what an undo or a create over a changed reservation gets wrong |
| `MultipartLedger.OverlappingUndoLeaks` | internal/multipart/manager.go:506-520 | a concrete nine-step run with two parts of one upload leaves bytes counted that no session or call accounts for, and memory and store with different reservations |
| `MultipartLedger.LeakStays` | internal/multipart/manager.go:506-520 | what has leaked once stays counted through every careful continuation |
| `MultipartLedger.QuietLedgerExact` | internal/multipart/manager.go:405-554 | with no call in progress the counter is exactly what the sessions reserve |
| `MultipartLedger.SavedPartStays` | internal/multipart/manager.go:256-270 | in every interleaving a saved part stays in the store as it is until that part is saved again or its upload dropped or created anew |
| `MultipartLedger.DroppedStaysGone` | internal/multipart/manager.go:445-465 | in every interleaving a dropped upload stays out of the store until it is created again |
| `MultipartRuns.SequentialRunsAgree` | internal/multipart/manager.go:108-526 | when calls on one upload follow one another and all else interleaves freely, over memory, store and counter and with any failures: every undo is careful, the counter is exact at every moment, and memory and store agree up to the calls in progress |
| `MultipartRuns.UndoAgrees` | internal/multipart/manager.go:506-520 | the undo of a part leaves the session in memory exactly as the store has it |
| `MultipartRuns.DurableFits` | internal/multipart/manager.go:328-362 | at every moment of such a run from an empty start what the store records fits into the capacity; with no call in progress memory and store hold the same sessions and the counter is their total |
| `MultipartRuns.RestartAt` | internal/multipart/manager.go:328-362 | a fresh manager started at any moment of such a run, even in the middle of calls, rebuilds exactly the stored sessions and parts within the old capacity, and after a quiet moment the old manager's sessions and total |
| `CompleteUpload.ValidateCompletedParts` | internal/api/multipart_handlers.go:216-245 | accepts exactly the nonempty, strictly ascending lists of uploaded parts numbered 1 to 10000 with matching nonempty ETags; otherwise the error is that of the first bad entry |
| `CompleteUpload.AcceptableIff` | internal/api/multipart_handlers.go:216-245 | a list is acceptable if and only if it is nonempty and no entry has a problem given the one before it |
| `CompleteUpload.AcceptableWrittenOut` | internal/api/multipart_handlers.go:216-249 | that is, if it names uploaded parts numbered 1 to 10000 in strictly ascending order with tags that agree up to white space, quotes and case |
| `CompleteUpload.ProblemWrittenOut` | internal/api/multipart_handlers.go:216-245 | InvalidPartOrder is for a number in range that does not ascend, InvalidPart for every other bad entry |
| `CompleteUpload.Complete` | internal/api/multipart_handlers.go:117-198 | completion stores exactly the concatenation of the listed parts' accepted bytes under the session's bucket and key, then drops the session; a rejected list changes nothing and gets the code of its first bad entry; when nothing around fails, an acceptable list whose parts' files are there is completed, any other list is rejected, and an upload is reported missing exactly when it is |
| `CompleteUpload.UploadAndComplete` | internal/api/multipart_handlers.go:117-198 | over a whole upload with parts in any order, re-uploads and failures, the object stored is the concatenation, in the listed order, of the latest acknowledged bodies; when nothing around fails, a part is acknowledged exactly when no limit speaks against it at that moment, and the upload is completed exactly when the list is acceptable for the acknowledged parts |
| `Drains.CounterExact` | internal/ops/drain.go:17-35 | in every interleaving the wait group counts exactly the calls that added themselves and have not yet undone or finished |
| `Drains.DrainedForGood` | internal/ops/drain.go:37-62 | from any moment with draining set and the counter at zero, no admitted upload is in progress and none is ever admitted again |
| `Drains.LateProbesAreUndone` | internal/ops/drain.go:21-28 | a call not admitted when draining began is never admitted, however it interleaves with the flag |
| `Drains.LateProbeReturns` | internal/ops/drain.go:24-28 | two further steps of such a call refuse it and bring the counter back, touching no other call |
| `Drains.RefusedOnlyWhenDraining` | internal/ops/drain.go:17-28 | in every interleaving a call is undone or refused only after draining has begun |
| `Drains.BeginAdmitsIff` | internal/ops/drain.go:21-34 | a call's second look admits it exactly when draining has not begun by then |
| `Drains.BeginGoesThrough` | internal/ops/drain.go:17-34 | on a server that is not draining a call can take all its steps and ends admitted and counted |
| `Drains.DoneCountsOnce` | internal/ops/drain.go:29-34 | an admitted upload that ends lowers the counter by one, however often its done function is called |
| `DeltaClient.MissingExact` | internal/deltaclient/client.go:143-153 | the request lists exactly the hashes the cache cannot serve, each once |
| `DeltaClient.Cache.Read` | internal/deltaclient/client.go:313-329 | returns a file only if its size and hash are right |
| `DeltaClient.Cache.Put` | internal/deltaclient/client.go:331-355 | only bytes that hash to their name get in; a failed write can lose at most the old file of that name |
| `DeltaClient.Client.FetchChunks` | internal/deltaclient/client.go:85-131 | whatever answers, only bytes hashing to the name they come under are returned; from the server, exactly the requested names with their blocks |
| `DeltaClient.Client.Reconstruct` | internal/deltaclient/client.go:217-283 | a result is the cached chunks in manifest order, of the manifest's size and matching the promised digest |
| `DeltaClient.Client.Download` | internal/deltaclient/client.go:133-173 | from any cache, corrupt files included, a result is the stored object with every chunk valid in the cache, and has the digest its tag gives; exactly the missing hashes are requested, each once; with both ends healthy it succeeds if and only if at most 1000 are missing |
| `DeltaClient.TagPromisesDigest` | internal/api/delta_handlers.go:170-184 | the digest served with the manifest and the one the client expects are the digest of the stored body |
| `DeltaClient.FilledCacheHolds` | internal/deltaclient/client.go:133-173 | a cache with the missing chunks filled in from the blocks holds every chunk of the object |
| `QueryStrings.DecodeEncode` | internal/s3auth/sigv4.go:290-304 | percent-decoding undoes percent-encoding for every byte string |
| `QueryStrings.AwsEncode` | internal/deltaclient/client.go:459-472 | the loop computes that encoding |
| `QueryStrings.CanonicalQueryString` | internal/s3auth/sigv4.go:201-215 | whatever order the map is walked in, the result is a sorted list of the encoded pairs, each as often as it occurs |
| `QueryStrings.CanonicalIff` | internal/s3auth/sigv4.go:201-215 | two queries have the same canonical string if and only if they have the same name/value pairs with multiplicity, a name without values counting as having the empty one |
| `QueryStrings.BeforeIff` | internal/s3auth/sigv4.go:213-214 | the order sorted by: a string comes before those it begins and those that are greater where the two first differ |
| `QueryStrings.OrderedUnique` | internal/s3auth/sigv4.go:213-214 | a sorted list is determined by what it holds |
| `QueryStrings.CanonicalWrittenOut` | internal/s3auth/sigv4.go:201-215 | the string is name=value for all pairs, both percent-encoded, ascending by the first byte in which they differ, joined by ampersands |
| `QueryStrings.EncodeOne` | internal/s3auth/sigv4.go:290-304 | a letter, digit, dash, dot, underscore or tilde stays itself and any other byte becomes a percent sign and two upper-case hexadecimal digits |
| `SigV4.ParseAuthorization` | internal/s3auth/sigv4.go:145-173 | the loop over fields computes the parse the round trip is about |
| `SigV4.ParsedIsClean` | internal/s3auth/sigv4.go:145-173 | no parsed access key, date, region or service holds a slash or a comma, whatever the header |
| `SigV4.HeaderRoundTripIff` | internal/deltaclient/client.go:384-410 | every field of the header the client prints is recovered if and only if neither access key nor region holds a slash or a comma |
| `Signatures.LookupCredential` | internal/s3auth/sigv4.go:123-134 | comparing every credential finds the first with that access key |
| `Signatures.HeadersAgree` | internal/s3auth/sigv4.go:217-240 | the server rebuilds exactly the header lines the client signed |
| `Signatures.Verify` | internal/s3auth/sigv4.go:66-121 | a request is given an identity exactly when its Authorization header says the access key of a known credential and carries a signature that decodes, byte by byte, to what that credential's key signs: the text of verb, path, query, header lines, signed names and payload hash; no other is; and each refusal has its code |
| `Signatures.AuthenticIff` | internal/s3auth/sigv4.go:66-121 | the server's test, taken apart step by step, is passed exactly by such requests, every step written out |
| `Signatures.OneSignature` | internal/s3auth/sigv4.go:116-118 | of the requests that differ only in a lower-case hexadecimal signature at most one is granted |
| `AuthHeaders.ParsedIff` | internal/s3auth/sigv4.go:145-173 | a header is read as given fields if and only if it lists name=value fields between commas, the last of each name counting, with a scope of exactly five slash-free names that ends in aws4_request |
| `HeaderTexts.HeaderLinesIff` | internal/s3auth/sigv4.go:217-248 | the header lines are, for each signed name in order, the trimmed lower-case name, a colon and the words of all its values one space apart; they exist exactly when no name is empty and no header missing |
| `Signatures.SignedRequestIsAuthentic` | internal/deltaclient/client.go:384-410 | a request signed by the client with a key the server knows is authentic to the server |
| `Signatures.SignedRequestIsGranted` | internal/deltaclient/client.go:384-410 | so it is granted to that key's credential, in the terms written out |

## Left out

- Cloud backends (S3, Azure, GCS, Swift): network clients; the backend is a map from tenant and hash to bytes.
- Sanitized tenant names in the backend's paths: its map is keyed by the tenant itself.
- The PostgreSQL store: the same row algorithm as SQLite with a tenant column.
- FastCDC: an external library; `ObjectService` and `CompleteUpload` take any partition of the body into pieces.
- Gear table values: `Chunkers` holds for every table of 64-bit words.
- SHA-256, MD5, HMAC, AES-GCM and block encryption: function parameters or absent.
- SQL engine, migrations, temporary names, directories: tables are maps and a failed transaction restores them.
- HTTP routing, JSON, XML, base64, CORS, configuration, metrics and health checks.
- Real clocks, retry sleeps and context cancellation, except as failures that may happen at any call.
- String order of stored times: RFC3339Nano drops trailing zeros, so its string order is not time order; the age filter is modelled on the in-memory store only.
- RowSimulation.BlocksAgree: compares counts and stamps, not block sizes, because releasing a chunk rewrites the size in the in-memory store and not in SQLite.
- Sweeping with a missing store or backend, and tenants known only through multipart sessions (each also has a block map).
- A range read after an overwrite: `Stat` and `OpenRange` are taken against one manifest.
- Multipart.Manager.PutPart: asks that the sizes of the upload's parts add up within int64, because beyond that the reservation turns negative, as WrappedTotalTidyIff shows; the ledger steps ask the same.
- CompleteUpload.ReceivePart: a part with which the bytes reserved and its own would reach 2^63 is not offered to PutPart, for the same reason.
- Multipart.Manager.Load: the check for a session inserted meanwhile belongs to interleaved calls and is a step of MultipartLedger.
- CheckPart, CleanupStale and a manager without a metadata store: the first reserves nothing, the second only repeats DeleteSession, the third drops steps.
- MultipartLedger: part files, since two uploads of one part number share a temporary file; after a failed save that replaced a part its file is gone, and no claim is made for it.
- MultipartRuns.SequentialRunsAgree: upload ids are new when created, since they are 128 random bits that nobody else knows before the call returns.
- Drains: `Wait` returning is the observation of a zero counter; the wait group's own misuse checks are not modelled.
- Limits: queueing statistics of the semaphore, and a limit that changes while callers hold permits.
- DeltaClient: paths of cache files and the output file, and a failed rename of the output that removes the previous file.
- Signatures: parsing of the timestamp and the skew window are parameters; the query string and path enter the signature as the canonical text both ends compute.
- CompleteUpload.Complete: headers stored with the session are a parameter.
