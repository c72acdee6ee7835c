# BunnyMeshDB, modelled in Dafny

BunnyMeshDB is a multi-master key-value store. Each namespace has an append-only,
hash-chained log; an in-memory index is derived from it; nodes pull records from
each other and merge them. This project models that core and proves what it keeps:

- **Storage** (`Bytes`, `Records`, `Log`, `DurableLog`, `Recovery`): the record format,
  segment layout, reading by sequence number, and crash recovery.
- **State** (`StoreSpec`, `Convergence`, `Replay`, `Reopen`, `SecondaryIndex`,
  `Compaction`, `GcIndex`, `Store`, `Codec`, `Snapshot`, `Restart`): what an operation does to the
  tables, what replicas agree on, what reopening rebuilds, the secondary index, compaction, the
  snapshot file, and opening from the bytes a crash leaves.
- **Mesh** (`Base64`, `Sync`, `BatchSize`, `PullCursor`, `PullRunner`, `Mesh`): serving and
  checking a pull, what fits in one, what repeated pulls obtain, the runner's budget, and when
  two nodes converge.
- **Clock, authority, queries** (`Hlc`, `Capabilities`, `QueryParser`, `QueryExec`).

SHA-256, CRC-32, ed25519, hexadecimal and JSON are function parameters, so statements hold for
every choice of them. Tamper evidence names the inputs, hashed for the two logs themselves, on
which the hash would have to fail; the capability cache assumes only that the capabilities
presented in a run have different digests.
Clock readings, network events, lock contention and directory contents are parameters too.
Files are byte sequences; a crash is a cut of the last segment at any byte. Integer widths are
explicit where the code's arithmetic can reach them.

## What the proofs found

Where the code and a comment or document disagree, the model follows the code, a lemma exhibits
the difference, and another gives the exact condition under which the promise holds.

- The README (lines 119-121) says writes on either node converge and that a node pulls what it is
  missing. The pull position is the puller's own log length (`src/net/mod.rs:498-510`), not a
  position per peer. `PullsCompleteIff` gives the exact condition, `CrossedWrites` and
  `LostForever` show records that never arrive, and `PeerWriteDeliverable` and
  `LocalWriteKeepsReach` say which writes keep everything within reach; `ExchangeConverges` is
  the exact condition for two nodes, in terms of their logs before the exchange.
- A local write and its replay differ on some histories: put, delete, put on one key shows the
  second put until the store is reopened (`PutDeletePut`). `ReplayTracksLive` is exact.
- `clear_sec_index_ns` keeps the rows of the named namespace and drops the others. The comment at
  `src/storage/mod.rs:416-418` holds only for the last indexed namespace (`ReopenIndexExact`).
- The batch preflight leaves out the record envelope; as a check inside `handle_batch` a limit of
  6 MiB is 45 bytes too high for the promise at `src/server/mod.rs:897-899` (`LimitSoundIff`,
  `PreflightEdge`). A request that large has to pass the body limit of the HTTP layer first; with
  axum's default of 2 MB in force every admitted batch is replicable (`ShortRequestsReplicate`).
- Compaction of live state brings back an unexpired entry that a tombstone hides
  (`GcPreservesReads`). A process that only wrote locally never reaches such a state (`LocalGc`);
  a local put, delete, put and a reopening do (`ReopenedGcResurrects`), and a local history that
  replay rebuilds does not (`ReopenedGc`). Rows of the secondary index that belong to a key dropped
  for expiry stay behind; `GcIndexExact` says exactly when that matters.
- Compaction replaces the segments before it writes the next checkpoint. If the process stops in
  between, the namespace opens exactly when the checkpointed records begin the rewritten log
  (`GcCrashWindow`); a log that became shorter than the checkpoint does not open (`ShrunkWindow`).
- Schemas and index definitions are replicated so that peers share them
  (`src/storage/mod.rs:1085-1100`), but the last to arrive wins, whatever its stamp. All orders of
  arrival agree exactly when the definitions do (`DefinitionsConvergeIff`). Compaction drops them
  from the log (`GcForgetsDefinitions`). They leave the tables alone, so the results on crashes,
  restarts and convergence cover namespaces that have them.
- The chunk budget of 32 between kicks holds in every run without stray requests, whatever the
  peer answers and however often with a hello (`NeverOverBudget`). A stray is another configured
  name with the same peer id, or a dial error that reaches a peer already greeted; each can add a
  chunk (`TwinNamesOverrun`, `DialErrorsOverrun`), and `BudgetIffNoStray` is exact. The number of
  replies in a round is bounded only up to the hellos among them (`HelloKeepsRoundOpen`).
- A peer can be left waiting for nothing, and then no kick restarts it (`WaitsForEver`). Records in
  answer to a hello do this; so does a dial by a known id, when it is answered (`RedialUnheard`) or
  cannot start; and so does a failed dial whose error names an id not yet bound, although a failed
  dial must not strand the round (`src/net/mod.rs:813-815`). `AliveUnlessStranded` and
  `StrandedUnlessFreed` are exact.
- A read-only verdict is a promise about remote callers; a local `create_ns` is classified
  read-only too (`LocalCreateNs`).
- The value length of a record is read without a bounds check (`src/storage/log.rs:250`); the
  model calls that outcome `Trap`. Bytes after the last field of a payload are ignored by the
  parser, though checksum and hash cover them (`ParsedFrame`).
- The 64-bit clock watermark is the only limit of the clock (`IncreasingIffNoWrap`); a cache shard
  that was cleared once never answers again, which costs speed and no safety (`CachedAnswersExact`).

## Model

| member | source | states |
|---|---|---|
| Records.RoundTrip | src/storage/log.rs:85-270 | a record whose payload fits its length field comes back from its bytes, with its link, if and only if it is canonical |
| Records.FrameParses | src/storage/log.rs:146-219 | an encoding parses to the record and link that made it, also with extra payload bytes behind the last field |
| Records.ParsedFrame | src/storage/log.rs:146-219 | whatever parses is the encoding of a canonical record followed by bytes that checksum and hash still cover |
| Records.Reserialise | src/storage/log.rs:85-109 | re-encoding a parsed record onto any other head parses to the same record |
| Records.PayloadParses | src/storage/log.rs:115-131 | a payload at any offset of any buffer is read back, up to its end |
| Records.ParsedPayload | src/storage/log.rs:224-270 | a payload that parses is the encoding of what it parsed to |
| Records.OpsParse | src/storage/log.rs:184-196 | the sub-ops of a batch are read back in order |
| Records.ParsedOps | src/storage/log.rs:184-196 | sub-ops that parse are put, put-with-ttl or delete, and re-encode to the same bytes |
| Records.PayloadLength | src/storage/log.rs:115-131 | exact payload length |
| Records.BatchBody | src/storage/log.rs:88-95 | the loop writes the count and each sub-op in order |
| Records.ToBytes | src/storage/log.rs:85-109 | serialisation step by step is the encoding the round trip is about |
| Records.ParseBatch | src/storage/log.rs:184-196 | the sub-op loop gives the same records, end position and failure as the recursive parse |
| Records.ParseChain | src/storage/log.rs:146-219 | parsing step by step, with the expected link when given |
| SegmentedLog.HeadDeterminesLog | src/storage/log.rs:272-278 | for every hash: two chained logs with equal heads hold the same bytes, or two inputs hashed for records of the one and of the other collide, or one of these inputs hashes to the empty head |
| SegmentedLog.ChainConcat | src/storage/log.rs:272-278 | a log is a chain exactly when its front is and its back continues the front's head |
| SegmentedLog.PlaceJoin | src/storage/log.rs:496-526 | an append adds the record at the end of the stream and changes nothing before it |
| SegmentedLog.PlaceWithinCap | src/storage/log.rs:496-526 | no segment of more than one record exceeds the cap |
| SegmentedLog.SegmentsGreedy | src/storage/log.rs:496-526 | a segment closes only when the next record did not fit |
| SegmentedLog.SegmentsUnique | src/storage/log.rs:496-526 | appending produces the only greedy arrangement of the records |
| DurableLog.Locate | src/storage/log.rs:605-614 | no record straddles segments; it lies at its stream offset less the files before |
| DurableLog.Log.Show | src/storage/log.rs:465-491 | a log object over recovered segments is valid and holds their records |
| DurableLog.Log.Append | src/storage/log.rs:496-526 | the record joins the end, offsets, lengths, head and sequence number follow, segments roll at the cap |
| DurableLog.Log.SegmentAt | src/storage/log.rs:605-614 | finds the segment that holds a stream offset, and its start |
| DurableLog.Log.ReadAt | src/storage/log.rs:548-562 | reading header then body returns exactly the record at that index |
| DurableLog.Log.ReadRecords | src/storage/log.rs:541-565 | returns the bounded run of numbered records from a sequence number, nothing outside the log |
| Recovery.ScanSegmentSound | src/storage/log.rs:388-453 | what a segment scan keeps is a verified chain and a prefix of the bytes |
| Recovery.ScanFilesSound | src/storage/log.rs:364-492 | a recovered log is one verified chain over the segments in order |
| Recovery.ScanSegmentComplete | src/storage/log.rs:388-453 | chained records cut inside the next one scan to exactly the whole ones |
| Recovery.ScanFilesComplete | src/storage/log.rs:364-492 | whole segments with a torn tail recover to all of their records |
| Recovery.CrashRecovery | src/storage/log.rs:364-492 | cut the last segment of any chained log at any byte: recovery keeps the maximal prefix of whole records and warns exactly when the cut is inside one |
| Recovery.RecoverTwice | src/storage/log.rs:364-492 | on any bytes, recovering what a recovery left is clean and changes nothing |
| Recovery.ReadStep | src/storage/log.rs:395-452 | one cursor step of the scan: record, end, torn tail or failure |
| Recovery.RecoverSegment | src/storage/log.rs:388-454 | the inner loop is the segment scan and tracks offsets and head |
| Recovery.ScanLoop | src/storage/log.rs:379-463 | the outer loop is the scan of all segments |
| Recovery.Recover | src/storage/log.rs:364-492 | fails, or yields a log whose every cached field is that of a log with exactly the verified records |
| StoreSpec.OpKeepsShape | src/storage/mod.rs:613-668 | entries keep the shape their policy asks for, and no put or delete is refused |
| StoreSpec.OpsKeepShape | src/storage/mod.rs:1072-1197 | the same through whole batches, local and replayed |
| Convergence.ReachedOp | src/storage/mod.rs:1125-1197 | one synced operation moves the per-key summary by its own write or delete only |
| Convergence.ReachedAll | src/storage/mod.rs:1072-1197 | the tables after any synced records are determined by their writes and deletes per key |
| Convergence.ApplyAllFresh | src/storage/mod.rs:1202-1243 | applying with deduplication is applying the fresh records once |
| Convergence.Converge | src/storage/mod.rs:1072-1271 | replicas that agree and receive the same set of records, in any orders and with repetitions, agree again on every key |
| Convergence.Merged | src/storage/mod.rs:940-946 | from an empty namespace a key is absent exactly when some record deletes it or none writes it; otherwise the greatest (hlc, replica), or all versions, show |
| Convergence.Reapply | src/storage/mod.rs:1224-1271 | re-applying applied records appends nothing and touches no table |
| Convergence.SyncedOnce | src/storage/mod.rs:1202-1243 | sync never adds a second record with a version the log holds |
| Convergence.DefinitionsConvergeIff | src/storage/mod.rs:1084-1111 | all orders of the same records leave the same schema or index definition if and only if the records agree on it |
| Replay.SafeIffSame | src/storage/mod.rs:613-668 | local and replay semantics agree on an operation if and only if it is safe |
| Replay.ReplayTracksLive | src/storage/mod.rs:1125-1197 | replay tracks the live store through every prefix if and only if every local operation was safe when applied |
| Replay.PutDeletePut | src/storage/mod.rs:613-668 | a history whose reopened store differs from the live one |
| Replay.RunIsLive | src/storage/mod.rs:613-668 | the tables of a history of actions are its operations applied live |
| Replay.TailIsReplayed | src/storage/mod.rs:302-405 | the log tail a history wrote, replayed, is the same history under sync semantics |
| Replay.ReplayEqualsLive | src/storage/mod.rs:302-405 | from a checkpoint, a history of safe writes is rebuilt exactly from its log tail |
| Reopen.EncodeAllChained | src/storage/log.rs:85-109 | records appended one by one form a verified chain |
| Reopen.ReplayEncoded | src/storage/mod.rs:389-403 | parsing and applying encoded records applies exactly those records and ends at the log's head |
| Reopen.ReopenWhole | src/storage/mod.rs:302-405 | opening recovered files against a snapshot applies the records after it |
| Reopen.ReopenIff | src/storage/mod.rs:379-403 | opening recovered records against any snapshot succeeds if and only if the snapshot's number is within the log and its head is the chain's head there; then the later records are replayed |
| Reopen.CrashReopen | src/storage/mod.rs:302-405 | checkpoint, safe writes, a cut at any byte: reopening gives the live tables at the moment the surviving records were written |
| Reopen.ColdCrash | src/storage/log.rs:364-526 | a new namespace without checkpoint, appended through the segment roll and cut at any byte, reopens to the live tables after the surviving records |
| Reopen.SyncedAreSafe | src/storage/mod.rs:1125-1197 | histories of synced records alone are always safe to replay |
| SecondaryIndex.RefreshKeepsExact | src/storage/mod.rs:817-866 | refreshing the written key keeps the index exact |
| SecondaryIndex.RunKeepsExact | src/storage/mod.rs:817-866 | an exact index stays exact through every history of local and synced operations |
| SecondaryIndex.RunTouchedExact | src/storage/mod.rs:817-866 | from any sorted rows, a history makes the rows of the keys it writes exact and leaves all others alone |
| SecondaryIndex.ByIndexExact | src/query/mod.rs:330-352 | the query returns the keys whose visible value has the field value, each once, in key order |
| SecondaryIndex.IndexLookup | src/storage/mod.rs:926-938 | all rows from a start value on, in order |
| SecondaryIndex.ByIndex | src/query/mod.rs:343-351 | stopping at the first different value loses no match |
| SecondaryIndex.RebuildExact | src/storage/mod.rs:887-905 | a rebuild is exact if and only if no row left from before belongs to a key that is no longer live |
| SecondaryIndex.RebuildDropsOthers | src/storage/mod.rs:868-885 | rebuilding one namespace empties the index of every other |
| SecondaryIndex.RebuildAllRows | src/storage/mod.rs:907-920 | after a full rebuild only the last indexed namespace has rows, and they are exact |
| SecondaryIndex.ReopenIndexExact | src/storage/mod.rs:907-920 | a reopened index of a namespace is exact if and only if it is the last indexed one or has nothing to index |
| Compaction.GcEffect | src/storage/mod.rs:1345-1480 | entries keep their unexpired versions in order, tombstones survive exactly on keys without an entry, other namespaces are untouched |
| Compaction.TrimReads | src/server/mod.rs:267-277 | dropping versions expired at `now` changes no read from `now` on |
| Compaction.GcPreservesReads | src/storage/mod.rs:1345-1480 | compaction preserves every later read if and only if no tombstone hides an unexpired entry |
| Compaction.LocalRunDisjoint | src/storage/mod.rs:613-668 | local histories keep entries and tombstones apart |
| Compaction.LocalGc | src/storage/mod.rs:1345-1480 | a process that only wrote locally since the namespace was new, without reopening, compacts without changing any later read |
| Compaction.ReopenedGc | src/storage/mod.rs:1345-1480 | after a reopening, a local history that replay rebuilds leaves entries and tombstones apart and compaction changes no later read |
| Compaction.ReopenedGcResurrects | src/storage/mod.rs:1345-1480 | local put, delete, put and a reopening: the key reads as absent, and compaction brings its value back |
| Compaction.BuriedResurrects | src/storage/mod.rs:1369-1424 | every unexpired entry under a tombstone shows after compaction |
| Compaction.WriteFresh | src/storage/log.rs:578-603 | the rewritten segment is the records re-chained from the zero hash |
| Compaction.GcReopen | src/storage/mod.rs:1345-1480 | reopening the rewritten segment without a snapshot gives exactly the compacted tables |
| Compaction.GcCheckpointed | src/storage/mod.rs:1425-1480 | with the closing checkpoint, reopening gives the compacted tables |
| Compaction.GcCrashWindow | src/storage/mod.rs:1425-1480 | with the old checkpoint beside any prefix of the rewritten segment, opening succeeds if and only if the checkpoint belongs to the surviving records: they start with those it covers, unless the hash fails on these logs |
| Compaction.ShrunkWindow | src/storage/mod.rs:381-386 | a compaction that leaves fewer records than the old checkpoint covers does not open in that window |
| GcIndex.RewrittenKeys | src/storage/mod.rs:1369-1424 | a record is written exactly for keys with an unexpired version and for tombstones without an entry |
| GcIndex.GcIndexExact | src/storage/mod.rs:1425-1465 | an exact secondary index is exact after compaction if and only if nothing was rewritten or no key dropped for expiry had a row |
| GcIndex.GcForgetsDefinitions | src/storage/mod.rs:1369-1424 | the compacted log leaves no schema and no index definition in force |
| Store.Store.constructor | src/storage/mod.rs:311-322 | an empty store is valid |
| Store.Store.RemoveFromSecIndex | src/storage/mod.rs:846-866 | drops the key's rows under every indexed field |
| Store.Store.AddToSecIndex | src/storage/mod.rs:817-845 | adds a row per field value |
| Store.Store.RefreshSecIndexFor | src/storage/mod.rs:817-845 | the key's rows become those of its visible value |
| Store.Store.ApplyLocalOp | src/storage/mod.rs:613-668 | tables and index change by the local semantics, or nothing on refusal |
| Store.Store.ApplyRecordOp | src/storage/mod.rs:1125-1197 | tables and index change by the replay semantics |
| Store.Store.CreateNamespace | src/storage/mod.rs:517-533 | succeeds exactly for a valid new name; the store changes by that namespace or not at all |
| Store.Store.Put | src/storage/mod.rs:546-576 | one record is appended and applied with local semantics to tables and index, and the store stays valid; an unknown namespace changes nothing |
| Store.Store.Delete | src/storage/mod.rs:578-606 | the same for a tombstone |
| Store.Store.ApplyLocalOps | src/storage/mod.rs:677-709 | sub-ops in order, up to the first refused |
| Store.Store.PutBatch | src/storage/mod.rs:677-709 | one record for the whole batch, its sub-ops applied locally |
| Store.Store.ApplyRecordOps | src/storage/mod.rs:1072-1123 | replayed sub-ops in order, on tables and index, up to the first refused |
| Store.Store.RebuildSecIndexNs | src/storage/mod.rs:887-905 | the rebuild that `RebuildExact` is about, over exactly the live keys |
| Store.Store.SetIndex | src/storage/mod.rs:735-771 | a definition is logged, stored or cleared, and the index rebuilt; an unknown namespace changes nothing |
| Store.Store.ApplyRecord | src/storage/mod.rs:1072-1123 | a replayed record changes tables, definitions and index together: operations by the replay semantics up to the first refused, an index definition by a rebuild over the live keys |
| Store.Store.ScanVersions | src/storage/mod.rs:1209-1222 | collects exactly the versions in the log |
| Store.Store.AppendSynced | src/storage/mod.rs:1224-1243 | the record is appended and applied to tables, definitions and index, up to a refused operation |
| Store.Store.ApplyUnseen | src/storage/mod.rs:1253-1269 | a record is applied exactly when its version was not seen, and the seen versions stay those of the log |
| Store.Store.ApplySyncedRecord | src/storage/mod.rs:1224-1243 | applied to log, tables and index exactly when the log lacks its version; a duplicate changes nothing |
| Store.Store.ApplySyncedBatch | src/storage/mod.rs:1247-1271 | one version scan for the batch gives the log, tables, definitions and index of applying the records one at a time, up to and including the first refused |
| Store.RecordsKeepExact | src/storage/mod.rs:1247-1271 | synced records other than index definitions keep an exact index exact |
| Store.DefinitionExactIff | src/storage/mod.rs:1098-1111 | a replayed index definition makes the index exact if and only if its fields have no rows of dead keys left over |
| Store.DefinitionFollowsLog | src/storage/mod.rs:1098-1111 | through any synced batch the index definition in force is the last in the log |
| Store.Store.CollectLive | src/storage/mod.rs:1369-1424 | collects the records that compaction keeps |
| Store.Store.GcNamespace | src/storage/mod.rs:1369-1465 | log, tables and index become those of the rewritten records |
| Store.Store.GcLive | src/storage/mod.rs:1345-1480 | refused on a node that has synced; otherwise, per namespace, later reads are preserved exactly when no tombstone hides an unexpired entry, and an exact index stays exact exactly when nothing was rewritten or no dropped key had a row |
| Codecs.BytesLaw | src/storage/mod.rs:159-203 | length-prefixed bytes are read back anywhere and do not depend on what follows |
| Codecs.I64Law | src/storage/mod.rs:156-196 | two's complement survives over the whole 64-bit range |
| Codecs.ListLaw | src/storage/mod.rs:446-495 | counted lists of a lawful layout are lawful |
| Snapshots.VersionLaw | src/storage/mod.rs:242-273 | versions survive in the current layout, and in the old one when they have no expiry |
| Snapshots.EntryReads | src/storage/mod.rs:465-486 | both entry shapes survive |
| Snapshots.NsLaw | src/storage/mod.rs:1022-1055 | a namespace's policy, head, entries and tombstones survive, and its bytes are self-delimiting |
| Snapshots.SaveLoads | src/storage/mod.rs:423-498 | a snapshot whose lengths fit loads to itself, in either layout |
| Snapshots.DamagedLengthRefused | src/storage/mod.rs:177-209 | a snapshot cut at any byte, or followed by anything, is refused |
| Snapshots.CheckpointRestores | src/storage/mod.rs:1004-1055 | loading a checkpoint restores revision, meta, clocks, policies, heads, entries and tombstones if and only if no row stands outside the known namespaces |
| Snapshots.WriteList | src/storage/mod.rs:1011-1020 | the counted writing loop |
| Snapshots.ReadList | src/storage/mod.rs:446-457 | the counted reading loop, up to the first bad element |
| Snapshots.WriteNs | src/storage/mod.rs:1022-1055 | one namespace section |
| Snapshots.ReadNs | src/storage/mod.rs:459-495 | one namespace section, or refusal |
| Snapshots.Checkpoint | src/storage/mod.rs:1004-1055 | the bytes written are those that `SaveLoads` is about |
| Snapshots.Opening.constructor | src/storage/mod.rs:311-322 | an opening store starts empty |
| Snapshots.Opening.InsertNs | src/storage/mod.rs:485-494 | entries, tombstones, policy and head of a section go into the tables |
| Snapshots.Opening.LoadSpaces | src/storage/mod.rs:458-495 | sections are read and inserted in order, up to the first bad one |
| Snapshots.Opening.LoadSnap | src/storage/mod.rs:423-498 | accepts exactly loadable bytes and then holds what they list |
| Restart.OpenStore | src/storage/mod.rs:302-405 | the opening loop over namespace directories, up to the first failure |
| Restart.ReopenLocal | src/storage/mod.rs:389-403 | replaying one namespace depends on and changes that namespace only |
| Restart.PolicyResolves | src/storage/mod.rs:358-378 | snapshot and sidecar that agree, or the one that is there, give the policy |
| Restart.OpenNsLive | src/storage/mod.rs:353-405 | one namespace opens to the live tables at the moment of its surviving records, whatever was opened before |
| Restart.CrashRestart | src/storage/mod.rs:302-420 | from the bytes of a checkpoint and the cut segment files and sidecars of all namespaces, opening succeeds and every namespace shows the live store after its surviving records |
| Restart.ColdRestart | src/storage/mod.rs:302-420 | the same without any checkpoint |
| HybridClock.IncreasingIffNoWrap | src/core/hlc.rs:28-53 | in every interleaving of callers, issued timestamps rise strictly if and only if the 64-bit watermark never wraps |
| HybridClock.IssuerSafe | src/core/hlc.rs:28-53 | within a stated clock and issue bound all timestamps are distinct, rise in issue order and reach the caller's clock |
| HybridClock.ObservedAdvances | src/core/hlc.rs:58-71 | merging a remote value moves the clock strictly forward, past the remote one in the same millisecond, except at the last 64-bit value |
| Capabilities.HitIsSound | src/ns.rs:187-196 | a verdict stored in the current epoch vouches for exactly the presented capability, when no two presented ones share a digest |
| Capabilities.MarkKeepsSound | src/ns.rs:199-211 | recording a verdict keeps the cache sound, also when a full shard is cleared |
| Capabilities.RevokeKeepsSound | src/server/mod.rs:757-763 | a revocation with its epoch bump retires every entry |
| Capabilities.CachedVerdict | src/caps.rs:383-451 | with a sound cache verdict the short check allows exactly what the full check allows |
| Capabilities.CapCache.constructor | src/ns.rs:85-92 | a new cache is empty |
| Capabilities.CapCache.EpochOk | src/ns.rs:187-196 | hits exactly for entries of the epoch in a shard never cleared, unless its lock is taken |
| Capabilities.CapCache.MarkVerified | src/ns.rs:199-211 | records the verdict, clearing a full shard |
| Capabilities.CapCache.AuthorizeCached | src/ns.rs:94-184 | over a sound cache and any lock contention, the answer is that of authorization without cache, and the cache stays sound |
| Capabilities.CachedAnswersExact | src/server/mod.rs:228-235 | in every interleaving of tick loads, map reads, marks and revocations each answer is the uncached one under the revocations then in force |
| QueryParser.PrintParses | src/query/mod.rs:527-576 | every call tree with valid names and any string contents is parsed back from its text |
| QueryParser.EscapedReads | src/query/mod.rs:472-525 | an escaped string literal is read back whole |
| QueryParser.IdentToken | src/query/mod.rs:472-525 | a printed name is one token |
| QueryParser.StrToken | src/query/mod.rs:472-525 | a printed literal is one token |
| QueryParser.Tokenizer.constructor | src/query/mod.rs:438-440 | a tokenizer starts at the first byte, line 1, column 1 |
| QueryParser.Tokenizer.Bump | src/query/mod.rs:450-460 | moves one byte and keeps line and column those of the position |
| QueryParser.Tokenizer.SkipSpace | src/query/mod.rs:462-470 | stops at the first byte that is no space |
| QueryParser.Tokenizer.ReadString | src/query/mod.rs:472-525 | reads a literal with its escapes, or fails where it ends |
| QueryParser.Tokenizer.ReadName | src/query/mod.rs:472-525 | reads the longest name |
| QueryParser.Tokenizer.NextToken | src/query/mod.rs:472-525 | the token the grammar has at the cursor |
| QueryParser.Tokenizer.ParseNamedCall | src/query/mod.rs:545-567 | the argument loop with nested calls gives the grammar's tree |
| QueryParser.Statement | src/query/mod.rs:113-119 | accepts exactly the texts of the grammar, with nothing after the call |
| QueryExec.LockChoiceUnobservable | src/server/mod.rs:1369-1394 | choosing the lock by classification answers as if every statement had the write lock; read-only statements leave the store alone and no remote statement leaves its namespace |
| QueryExec.QuietCall | src/query/mod.rs:125-160 | a call tree without mutators answers alike under both handles and never asks for the mutable store |
| QueryExec.RemoteQuiet | src/query/mod.rs:129-146 | for remote callers the classifier finds exactly the trees that may ask for it |
| QueryExec.FailsClosed | src/query/mod.rs:97-109 | under a read handle no statement, classified or not, changes the store |
| QueryExec.RemoteKeepsScope | src/query/mod.rs:191-217 | no expression of a remote caller moves the scope |
| QueryExec.LocalCreateNs | src/query/mod.rs:205-217 | for a local caller a statement classified read-only adds a namespace |
| QueryExec.PutThenGet | src/query/mod.rs:218-240 | after `put`, `get` answers the value written, or the stored register version that outranks the write |
| QueryExec.DelThenGet | src/query/mod.rs:241-249 | a deleted key reads as null under either policy |
| QueryExec.IndexThenQuery | src/query/mod.rs:288-352 | after `index_create` on a namespace without rows, `by_index` answers with exactly the keys whose visible value has the field value, each once, in key order |
| Base64.RoundTrip | src/util.rs:9-76 | every byte string survives both alphabets, with up to two pads added |
| Base64.Reencode | src/util.rs:28-76 | a decodable text is the encoding of its bytes, pads aside, if and only if its unused bits are zero |
| Base64.EncodedLength | src/util.rs:9-26 | exact encoded length, within the padded bound |
| Base64.EncodeImpl | src/util.rs:9-26 | the chunk loop is the encoding |
| Base64.DecodeImpl | src/util.rs:28-76 | table, pad stripping, character checks and chunk loop are the decoding, with the same error |
| Base64.RevTable | src/util.rs:29-32 | the reverse table inverts the alphabet and rejects the rest |
| Base64.DecodeChunks | src/util.rs:61-74 | the sextet loop |
| Sync.ServedMeaning | src/net/mod.rs:719-765 | a reply is empty exactly when there is nothing to read or an oversized record stands within budget; otherwise it is the longest prefix within budget, or one larger record |
| Sync.ReplyFits | src/net/mod.rs:94-98 | every reply stays within the single-record cap |
| Sync.ReplyIsRun | src/net/mod.rs:719-765 | a reply is the run of log records that starts at the requested number |
| Sync.ServePull | src/net/mod.rs:719-765 | the chunk loop produces that reply |
| Sync.DecodeBatch | src/net/mod.rs:552-562 | the receiving loop decodes every payload or refuses the batch |
| Sync.WireRoundTrip | src/net/mod.rs:552-562 | what is sent is what is received |
| Sync.VerifyBatch | src/net/merge.rs:42-63 | the verification loop |
| Sync.VerifyIffChain | src/net/merge.rs:42-63 | a batch passes if and only if it is a chain from its first record's own link |
| Sync.PullDelivers | src/net/mod.rs:719-765 | pulling from any position delivers, through base64 and verification, exactly the records there |
| Sync.CatchUpIffServable | src/net/mod.rs:719-765 | repeated pulls reach the end of the serving log if and only if every record from the start on can travel; then one pull per record is enough |
| BatchSize.Preflight | src/server/mod.rs:947-978 | the estimate loop |
| BatchSize.DecodedLength | src/server/mod.rs:947-967 | decoding never exceeds three bytes per started group of four |
| BatchSize.EstimateBounds | src/server/mod.rs:947-978 | the estimate bounds the written record, envelope aside, whatever validation and quota drop |
| BatchSize.ServableIffSix | src/net/mod.rs:729-741 | a record can travel if and only if it is no longer than 6 MiB |
| BatchSize.LimitSoundIff | src/server/mod.rs:895-978 | a preflight limit keeps every admitted batch replicable if and only if it leaves room for the envelope |
| BatchSize.PreflightEdge | src/server/mod.rs:896-900 | as a check inside the handler the limit in force does not, 45 bytes less does |
| BatchSize.ShortRequestsReplicate | src/server/mod.rs:889-978 | batches whose texts come to at most 6 MiB less the envelope and 96 bytes per op always replicate; a 2 MiB body limit is below that |
| PullCursor.PullsCompleteIff | src/net/mod.rs:464-510 | pulling obtains a peer's whole log if and only if nothing it holds below our own head is missing here |
| PullCursor.NeverRevisited | src/net/mod.rs:498-510 | a version missing below our head stays missing however often we pull |
| PullCursor.PeerWriteDeliverable | src/net/mod.rs:498-510 | a record written at the peer can be pulled exactly when it does not land below our head |
| PullCursor.LocalWriteKeepsReach | src/net/mod.rs:498-510 | our own write keeps the peer's log within reach exactly when we are not behind on an unseen record |
| PullCursor.LostForever | src/net/mod.rs:498-510 | the same loss through every history of writes on both sides and pulls |
| PullCursor.CrossedWrites | src/net/mod.rs:464-510 | two nodes that each wrote once before their first exchange never obtain each other's record |
| Mesh.SafeRunFaithful | src/storage/mod.rs:302-405 | the tables of a node with a safe history are the replay of its own log |
| Mesh.PullsKeepSound | src/storage/mod.rs:1247-1271 | pulls keep a node's tables the replay of its log, its versions distinct, and add nothing but the peer's records |
| Mesh.GrownHealthy | src/net/mod.rs:719-765 | a log that grew by pulled records can itself be served |
| Mesh.CoveredByOwn | src/net/mod.rs:498-510 | records a node pulled from its peer never put the rest out of the peer's reach |
| Mesh.SameRecordsAgree | src/storage/mod.rs:1072-1271 | sound nodes with the same records show the same data, whatever mix of own and synced writes led there |
| Mesh.ExchangeConverges | src/net/mod.rs:464-640 | after a pull in each direction two nodes hold the same versions if and only if, before it, neither missed below its own head a record of the other; then they show the same data for every key |
| Mesh.NewNodeCatchesUp | src/net/mod.rs:464-640 | a node that joins empty ends with its peer's versions and shows its data |
| PullRunner.HelloTargets | src/net/mod.rs:464-496 | targets set by a hello are ahead of our head, within 64000 of it and within the peer's claim |
| PullRunner.TargetsBounded | src/net/mod.rs:464-640 | until the next hello no target in hand exceeds the head seen at the hello by more than 64000 |
| PullRunner.RepullNeedsRise | src/net/mod.rs:611-632 | pulling a namespace again follows a strict rise of its head, still below the target |
| PullRunner.RoundBudget | src/net/mod.rs:306-640 | between kicks and against any answers: open requests never rise above those at the start and of twins, every chunk past the 31st uses one up, handled replies are bounded by them, and all replies up to the hellos |
| PullRunner.ThirtyTwoChunks | src/net/mod.rs:616-628 | at most 32 chunks and 32 handled replies between kicks when at most one request is open or pending |
| PullRunner.NeverOverBudget | src/net/mod.rs:306-640 | in every run, through any kicks, answers and network events, at most 32 chunks are counted since the last kick and at most one request is open, plus one for each stray request of the run |
| PullRunner.OpenBuysChunk | src/net/mod.rs:401-640 | every further open request admits one chunk more |
| PullRunner.TwinNamesOverrun | src/net/mod.rs:875-880 | two configured names with one peer id count 33 chunks before the next kick |
| PullRunner.DialErrorsOverrun | src/net/mod.rs:812-822 | k late dial errors on a greeted peer lead to 32 + k chunks between kicks |
| PullRunner.BudgetIffNoStray | src/net/mod.rs:306-640 | 32 chunks bound all runs with k strays if and only if k is zero |
| PullRunner.BudgetIffOneOpen | src/net/mod.rs:616-628 | 32 chunks bound every run between kicks if and only if at most one request is open, pending or sent by a twin |
| PullRunner.HelloKeepsRoundOpen | src/net/mod.rs:842-849 | a peer that answers pulls with hellos keeps a round going through any number of replies |
| PullRunner.AliveUnlessStranded | src/net/mod.rs:350-869 | a waiting peer has a request open or a dial under way, and one event takes that away if and only if it is records in answer to a hello, an answered dial not found to be its own, a failed dial naming an unbound id, or a dial by id that cannot start |
| PullRunner.StrandedUnlessFreed | src/net/mod.rs:782-869 | exactly which events free such a peer; a kick is not among them |
| PullRunner.WaitsForEver | src/net/mod.rs:326-329 | without those events it stays in its phase and sends nothing, through any kicks |
| PullRunner.RedialUnheard | src/net/mod.rs:361-369 | a peer with a known id that is dialed again gets no hello when the dial is answered |
| PullRunner.Runner.constructor | src/net/mod.rs:268-276 | a peer starts idle, unbound, with no request open and no dial under way |
| PullRunner.Runner.KickAll | src/net/mod.rs:306-392 | resets the budget; a resting peer is greeted, dialed by id or by address, or left, as in the step the bounds are about |
| PullRunner.Runner.OnConnected | src/net/mod.rs:782-804 | a connection greets a waiting peer found by its marked address, or by the scan while its id is unknown, and binds the id |
| PullRunner.Runner.OnClosed | src/net/mod.rs:805-811 | ends the wait of a bound peer |
| PullRunner.Runner.OnDialError | src/net/mod.rs:812-833 | an error that names the peer sets it idle in any phase if bound; one without a name ends every wait |
| PullRunner.Runner.OnRefused | src/net/mod.rs:854-867 | a denial or outbound failure sets the peer idle |
| PullRunner.Runner.OnHello | src/net/mod.rs:401-510 | the target loop and the first pull, asked from one past our own head |
| PullRunner.Runner.OnRecords | src/net/mod.rs:512-640 | every outcome of a reply leads to the phase, budget, queue, head and open requests of the step the bounds are about; a new pull asks from one past our own head |

## Left out

- Opening, syncing, renaming and listing files, and I/O errors: files are byte sequences that always read back.
- SHA-256, CRC-32, ed25519, hexadecimal, UTF-8 repair and JSON themselves; texts are byte strings.
- libp2p, dialing, TLS, HTTP routes, the command line, FUSE, the SDKs and configuration.
- The schema validator, quotas, rate limits, key rotation, backup and the offline `compact_dir`.
- Inbound access classes, pinning and the clock-skew median: they would add only easy members.
- QueryExec.LockChoiceUnobservable: evaluation threads its context as a value instead of updating it in place, and the order of `scan` rows is a parameter.
- HybridClock.IncreasingIffNoWrap: atomic operations are sequentially consistent steps, as the code requests; the weak exchange may fail at any time.
- Store.Store.GcLive: the checkpoint written at the end is not part of the method; `Compaction.GcCheckpointed` and `Compaction.GcCrashWindow` are about the state with and without it.
- PullRunner.RoundBudget: one peer at a time, whose address always answers with the same id; the store appears through its heads.
- PullCursor.PullsCompleteIff: one serving peer whose records can be stored, carried and told apart.
- Snapshots.Opening.LoadSnap: lists are read whole before they are inserted; what a refused load leaves behind is not described, since opening then fails.
- Restart.CrashRestart: reading the directory listing and the sidecar files is a parameter; it is about tables, and the definitions that replay sets again are not part of the reopened state.
- Records.ParseBatch: memory is unbounded; the code reserves room for a count it has not checked (`src/storage/log.rs:184`), which can abort where the model answers `Corrupt`.
