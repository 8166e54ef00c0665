# ZeptoDB Agent Memory, cluster moves and authentication helpers, in Dafny

The model covers the parts of ZeptoDB with the most state, branching and
arithmetic, one module per component:

- the Agent Memory store: rows in a flat table, an id index, a prompt cache, a
  flat matrix of unit vectors, expiry counters, tenant quotas and caps, ranked
  search, and an approximate-nearest-neighbour (ANN) index that is maintained in
  place or rebuilt while the store goes on working (`Ranking`, `AnnIndex`,
  `UnitMatrix`, `StoreRows`, `Restore`, `MemorySearch`, `AnnSync`, `StoreSpec`,
  `MemoryStore`, `StoreRuns`);
- its wire messages and snapshot files (`Bytes`, `Fields`, `Wire`, `Snapshot`,
  `SnapshotStore`);
- the consistent-hash ring that says which node owns a record (`Router`);
- the cluster's rebalance worker and partition migrator (`Rebalance`, `Migrator`);
- the claims parser, base64url and the rate limiter of the authentication layer
  (`Utf8`, `JsonGrammar`, `JsonScan`, `JsonClaims`, `Base64Url`, `RateLimiter`).

Objects that the source updates in place are classes (`AgentMemoryStore`,
`AnnIndex.Index`, `PartitionMigrator`, `AgentMemoryRouter`, `RateTable`,
`Fields.Reader`); loops are loops with invariants; every such method is proved
against a specification whose own properties are the lemmas. The rebalance worker
runs beside its callers, so it is a state machine whose steps interleave freely.

Floats are finite reals or "not finite", and normalisation, dot products,
projections and scores are parameters: every statement about the store holds for
all of them. On the wire and in snapshots a float is its bit pattern. Clocks,
thread counts, the network's behaviour and hash functions are parameters too.

## What holds, and what does not

These statements are false of the code as written. Each has a witness or an exact
condition.

- The unit matrix is not always the normalisation of the rows. A cache write that
  fixes the embedding dimension does not resize it; the similarity of later rows
  is then read as zero or from another row's floats
  (`MemoryStore.AgentMemoryStore.StoreCache`, `StoreSpec.UnresizedMatrix`,
  `UnitMatrix.ShortMatrixMisreads`, `UnitMatrix.ShiftedMatrixMisreads`).
- A rebuilt index does not always agree with the rows. Removing a row from an
  already dirty store leaves the generation alone, so a build begun before the
  removal is still published; it agrees exactly when, at each removal,
  neither the removed row nor the last row, which takes its place, has a
  normalisable embedding (`StoreRuns.RemoveDuringRebuild`). Evictions during a
  build do the same (`StoreRuns.EvictDuringRebuild`). Two builds of one generation
  go wrong as well: the second is published over a memory the index took in place
  after the first (`StoreRuns.PublishTwice`).
- Restoring evicted entries does not always undo an eviction. A loaded snapshot can
  hold records with an empty id or prompt, an empty namespace or a non-finite
  embedding, which are lost or changed, and several cache entries with one key, of
  which an evicted one is skipped
  (`MemoryStore.AgentMemoryStore.EvictAndRestore`, `Restore.RepeatedKeyStaysLost`).
- A ring change can be another call's. A rejected `start_*` call overwrites the
  note of what to do at the end of a run, and an ending run can erase the note of
  the next one (`Rebalance.OwnChangeExactlyWhen`,
  `Rebalance.RejectedStartHijacksChange`, `Rebalance.EndingRunLosesNote`).
- A retried move can leave two copies of its rows: a copy that finishes after its
  timeout is not rolled back, and the next attempt copies again
  (`Migrator.ExactlyOneCopy`, `Migrator.LateCopyDuplicates`).
- Adding a node can move a key between two old nodes, when the new node takes a point
  that was not free (`Router.OldPointsKeepOwners`, `Router.CollisionMovesOthers`).
- Cleaning up idle buckets forgives a debtor exactly when the idle limit is too short
  for a bucket to fill (`RateLimiter.UnnoticedExactlyWhen`).
- A snapshot with a string over 2147483647 bytes is written and cannot be loaded
  (`Snapshot.ComesBackExactlyWhen`, `Snapshot.LongIdCannotBeLoaded`).
- The claims scan accepts two texts that are not objects: one that ends right
  after `{` and one that ends right after a top-level comma
  (`JsonScan.ReadMembersExact`, `JsonScan.LoneBraceIsAccepted`).

## Model

| member | source | states |
|---|---|---|
| Ranking.AddCandidate | src/ai/agent_memory.cpp:1222-1232 | one step of the bounded heap: if it held the best k of the candidates seen, it holds the best k of those and the new one |
| Ranking.MergeChunk | src/ai/agent_memory.cpp:1269-1296 | feeding a chunk's own best k into a heap gives what feeding the whole chunk would |
| Ranking.TopAbsorbsChunk | src/ai/agent_memory.cpp:1269-1296 | replacing a chunk by its best k never changes the best k of the whole |
| Ranking.RankSort | src/ai/agent_memory.cpp:1306-1310 | a sort into rank order: the same candidates, best score first, newest first among equals |
| Ranking.SortedHeapIsTop | src/ai/agent_memory.cpp:1306-1310 | the sorted heap has the keys of the first k of all candidates sorted, and its candidates are among them |
| Ranking.OmittedNeverBeats | src/ai/agent_memory.cpp:1222-1232 | a candidate left out of a best-k answer beats none of those in it, and the answer is full |
| MemorySearch.ScanRange | src/ai/agent_memory.cpp:1233-1248 | the rows of one range leave the best `limit` of the matching rows of that range |
| MemorySearch.ParallelScan | src/ai/agent_memory.cpp:1275-1299 | for every thread count the chunks' heaps merged hold the best `limit` of all matching rows |
| MemorySearch.Scan | src/ai/agent_memory.cpp:1205-1330 | with any hardware, the scan answers with the first `limit` of all matching rows sorted, each row once |
| MemorySearch.Rerank | src/ai/agent_memory.cpp:1249-1265 | proposed rows, even out of range, are filtered and ranked as the scan would rank them |
| MemorySearch.TopAnswers | src/ai/agent_memory.cpp:1205-1330 | a best-`limit` answer has exactly min(limit, matching rows) distinct matching rows in rank order |
| MemorySearch.LongEnoughAnswers | src/ai/agent_memory.cpp:381-392 | an index answer that is not short has exactly min(limit, matching rows) distinct matching rows in rank order |
| MemorySearch.NothingBetterOmitted | src/ai/agent_memory.cpp:1205-1330 | a matching row missing from the scan's answer beats no row in it |
| AnnIndex.CollectProbes | src/ai/ann_index.cpp:523-538 | the probe list is the Hamming ball of the configured radius around the signature, without repeats |
| AnnIndex.Index.Add | src/ai/ann_index.cpp:282-309 | adds exactly the normalised vector under its key and row; refused when empty, of another length, not normalisable or already there |
| AnnIndex.Index.Remove | src/ai/ann_index.cpp:311-330 | forgets exactly that key and row; says whether it was there |
| AnnIndex.Index.UpdateRowId | src/ai/ann_index.cpp:332-353 | renames a row unless the old one is missing or the new one taken; everything else stays |
| AnnIndex.Index.NearestCentroid | src/ai/ann_index.cpp:819-833 | the first centroid with the largest dot product |
| AnnIndex.Index.CollectCandidates | src/ai/ann_index.cpp:366-391 | the candidates are active entries colliding within the radius in some table, and all of those when the cap allows |
| AnnIndex.Index.SearchLists | src/ai/ann_index.cpp:667-741 | the best `limit` of the active entries in the probed lists, and of all those when the cap allows |
| AnnIndex.Index.Search | src/ai/ann_index.cpp:355-426 | the answer is the exact best `limit` of the entries scanned; below the cap those are all eligible ones; only indexed rows appear, once each, by falling similarity |
| AnnIndex.IvfProbingAllIsExact | src/ai/ann_index.cpp:667-741 | probing every list makes every active entry of the partition eligible |
| AnnIndex.HitsAreIndexed | src/ai/ann_index.cpp:393-425 | the best of a set of active entries are min(limit, size) distinct indexed rows with their true similarities, in order; tombstones never appear |
| UnitMatrix.AppendUnit | src/ai/agent_memory.cpp:1138-1152 | appending keeps the matrix and presence vector the normalisation of every row |
| UnitMatrix.SetUnit | src/ai/agent_memory.cpp:1154-1171 | writing a row makes the matrix the normalisation of every row, resizing it first when it is short |
| UnitMatrix.RebuildUnits | src/ai/agent_memory.cpp:1173-1186 | rebuilding gives the normalisation of every row |
| UnitMatrix.RemoveUnit | src/ai/agent_memory.cpp:1467-1506 | a swap-remove in the matrix is the matrix of the swap-removed rows |
| UnitMatrix.RowOfExact | src/ai/agent_memory.cpp:1138-1152 | floats i*dim to (i+1)*dim of the matrix are the unit vector of row i, or zeros |
| UnitMatrix.ExactSimilarity | src/ai/agent_memory.cpp:1188-1203 | the similarity the scan reads from the matrix is the one defined on the record's own embedding |
| UnitMatrix.ShortMatrixMisreads | src/ai/agent_memory.cpp:426-428 | with a matrix that was not resized, the scan computes a wrong similarity |
| UnitMatrix.ShiftedMatrixMisreads | src/ai/agent_memory.cpp:426-428 | with one row more, a row is read as the next row's floats |
| StoreSpec.UnresizedMatrix | src/ai/agent_memory.cpp:426-428 | after the dimension is fixed without a resize, the matrix is exact if and only if there are no rows |
| StoreRows.SwapRemoveIndex | src/ai/agent_memory.cpp:1455-1498 | re-pointing the last row and erasing the removed id keeps id and row a bijection |
| StoreRows.RebuildCacheIndex | src/ai/agent_memory.cpp:1790-1798 | the rebuilt key index points every key at a row with that key |
| StoreSpec.CapRunIsFair | src/ai/agent_memory.cpp:1604-1626 | a run of cap evictions takes exactly the rows over the cap, never below it, and only unprotected rows in scope |
| StoreSpec.CacheCapRunIsFair | src/ai/agent_memory.cpp:1604-1626 | the same for cache entries |
| StoreSpec.MetCapEvictsNothing | src/ai/agent_memory.cpp:1604-1626 | a cap that holds evicts nothing |
| MemoryStore.AgentMemoryStore.FindVictim | src/ai/agent_memory.cpp:1660-1687 | the victim is the unprotected row in scope that goes before all others; none is found only when all rows in scope are protected |
| MemoryStore.AgentMemoryStore.EvictOneMemory | src/ai/agent_memory.cpp:1717-1743 | evicts exactly that victim, with its event, index entry, counters and unit row |
| MemoryStore.AgentMemoryStore.EnforceMemoryCap | src/ai/agent_memory.cpp:1604-1626 | afterwards the cap holds or every row in scope is protected; the run is one victim after another while the cap is exceeded |
| MemoryStore.AgentMemoryStore.EnforceCacheCap | src/ai/agent_memory.cpp:1689-1715 | the same for cache entries |
| MemoryStore.AgentMemoryStore.EnforceEviction | src/ai/agent_memory.cpp:1604-1626 | after all quotas and caps every one of them holds at once; rows before are rows kept plus events, as multisets; nothing is evicted when all held |
| MemoryStore.AgentMemoryStore.EvictExpired | src/ai/agent_memory.cpp:1561-1602 | no expired row or entry is left, and only expired ones went, although the scans are skipped when a counter is zero |
| MemoryStore.AgentMemoryStore.EvictionPass | src/ai/agent_memory.cpp:1561-1626 | a pass ends with nothing expired and all caps met, accounts for every row, and a second pass evicts nothing |
| MemoryStore.AgentMemoryStore.EvictExpiredNow | src/ai/agent_memory.cpp:605-609 | the public call: nothing expired is left, only expired records went, none is lost |
| MemoryStore.AgentMemoryStore.RebuildExpiryCounts | src/ai/agent_memory.cpp:1771-1780 | the two counting loops make both expiry counters exact again, from any values, and touch nothing else |
| StoreRows.CountMatching | src/ai/agent_memory.cpp:1642-1658 | the counting loop of a quota returns the number of rows in its scope |
| MemoryStore.AgentMemoryStore.RemoveFromAnn | src/ai/agent_memory.cpp:1417-1453 | dropping a row's entry and renumbering the last row's keeps an index in step with the rows after the swap |
| MemoryStore.AgentMemoryStore.RemoveMemoryRow | src/ai/agent_memory.cpp:1455-1511 | a swap-remove keeps rows, id index, unit matrix and index in step; a dirty store's generation stays |
| MemoryStore.AgentMemoryStore.PutMemory | src/ai/agent_memory.cpp:209-314 | exactly when a write is refused; otherwise the completed record is written and one eviction pass follows, with every invariant kept even when the row itself is evicted |
| MemoryStore.AgentMemoryStore.GetMemory | src/ai/agent_memory.cpp:316-325 | finds the memory if and only if some row has that id and the tenant agrees |
| MemoryStore.AgentMemoryStore.RemoveMemory | src/ai/agent_memory.cpp:350-364 | removes exactly that row, or nothing |
| MemoryStore.AgentMemoryStore.Search | src/ai/agent_memory.cpp:366-398 | whatever the index is like, the answer has exactly min(limit, matching rows) distinct matching rows in rank order, and exactly the reported rows (and those of a rejected index answer) are touched |
| MemoryStore.AgentMemoryStore.SearchScan | src/ai/agent_memory.cpp:1205-1330 | the scan's answer is the first `limit` of all matching rows sorted; it touches exactly those |
| MemoryStore.AgentMemoryStore.SearchIndex | src/ai/agent_memory.cpp:376-392 | an index answer holds distinct matching rows, and is a full answer when it is long enough |
| MemoryStore.AgentMemoryStore.HonestSimilarity | src/ai/agent_memory.cpp:1188-1203 | in an exact matrix the reported similarity is the record's own |
| StoreSpec.TouchAllRows | src/ai/agent_memory.cpp:1312-1328 | touching distinct rows changes each of them once and no other |
| MemoryStore.AgentMemoryStore.StoreCache | src/ai/agent_memory.cpp:422-469 | exactly when an entry is refused and what is stored; the matrix stays exact if and only if the dimension did not change, there were no rows or a row was evicted |
| MemoryStore.AgentMemoryStore.GetCache | src/ai/agent_memory.cpp:327-338 | finds an entry if and only if one has the normalised key |
| MemoryStore.AgentMemoryStore.RemoveCache | src/ai/agent_memory.cpp:471-488 | removes exactly the keyed entry, or nothing |
| MemoryStore.AgentMemoryStore.LookupCache | src/ai/agent_memory.cpp:490-534 | a miss if and only if the key is not live and no entry is similar enough; a hit touches and returns one entry, the keyed one or the first with the most similar one's id |
| StoreSpec.FindSimilar | src/ai/agent_memory.cpp:507-521 | the most similar live entry of the scope at or over the threshold |
| StoreSpec.FirstWithId | src/ai/agent_memory.cpp:522-532 | the first entry with the same id, which is the entry itself if and only if no earlier one shares it |
| MemoryStore.AgentMemoryStore.SetEvictionConfig | src/ai/agent_memory.cpp:536-550 | installs the effective quotas and runs a pass under them |
| MemoryStore.AgentMemoryStore.SetAnnConfig | src/ai/agent_memory.cpp:557-564 | installs an empty index that counts as dirty |
| MemoryStore.AgentMemoryStore.TakeSnapshot | src/ai/agent_memory.cpp:1354-1374 | a build is begun if and only if the index is on and dirty, from the current rows and generation |
| AnnSync.Build | src/ai/agent_memory.cpp:1376-1391 | the built index holds exactly the snapshot's rows with a normalisable embedding, each under its own key and row |
| MemoryStore.AgentMemoryStore.Publish | src/ai/agent_memory.cpp:1393-1402 | published if and only if generation and kind are unchanged; then in step if and only if the rows call for the same entries as at the snapshot, which is so when no row was removed and no other build published since |
| MemoryStore.AgentMemoryStore.RebuildAnnIndex | src/ai/agent_memory.cpp:571-580 | rebuilding in one go makes the index clean and in step |
| AnnSync.SnapshotSurvivesRemovals | src/ai/agent_memory.cpp:1455-1511 | a snapshot's index fits the rows after removals if and only if no removed row, and no last row moved into its place, was indexed |
| AnnSync.LostRowShows | src/ai/agent_memory.cpp:1455-1511 | losing a row with a normalisable embedding always makes a snapshot wrong |
| StoreRuns.RemoveDuringRebuild | src/ai/agent_memory.cpp:106-133 | begin a build, remove rows, publish: the index is clean, and in step if and only if every removal was harmless |
| StoreRuns.EvictDuringRebuild | src/ai/agent_memory.cpp:106-133 | begin a build, evict what expired, publish: the index is clean, and in step if and only if the rows kept call for the same entries, never when an evicted row had one |
| StoreRuns.PublishTwice | src/ai/agent_memory.cpp:1376-1402 | two builds of one generation: if the index took a new memory in place between their publications, the second leaves it clean and without that memory |
| StoreRuns.Run | src/ai/agent_memory.cpp:209-684 | every interleaving of all operations with begun and published builds keeps every invariant; if each published build saw no removal and no other publication from its beginning to its end, a clean index holds exactly the indexed rows; the unit matrix stays exact unless a cache write fixed the dimension of a store that had memories |
| Restore.RestoreUndoesPass | src/ai/agent_memory.cpp:611-684 | restoring the events of a pass gives back the id map, the key map (the last entry of a key) and both eviction counters if and only if every evicted record was restorable and no evicted cache entry shared its key; then the contents too |
| Restore.RepeatedKeyStaysLost | src/ai/agent_memory.cpp:660-662 | two entries with one key, the second evicted: the restore skips it, the key names the first and the counter stays one too high |
| MemoryStore.AgentMemoryStore.RestoreEvicted | src/ai/agent_memory.cpp:611-684 | the restore loop does what the specification's fold says and keeps every invariant |
| MemoryStore.AgentMemoryStore.EvictAndRestore | src/ai/agent_memory.cpp:605-684 | an eviction pass followed by the restore of its events, from any valid store: same maps and eviction counters if and only if every event is undoable, and then the same contents and expiry counters |
| MemoryStore.AgentMemoryStore.constructor | src/ai/agent_memory.cpp:94-100 | a new store is empty, valid and its index dirty |
| MemoryStore.AgentMemoryStore.Clear | src/ai/agent_memory.cpp:1033-1066 | a cleared store is as new |
| MemoryStore.AgentMemoryStore.Load | src/ai/agent_memory.cpp:959-990 | contents are taken if and only if every dimension fits and no memory id repeats, and every derived index, counter and unit row is rebuilt; otherwise nothing changes |
| Bytes.NumberOfLittle | src/ai/agent_memory_wire.cpp:17-28 | a number that fits its width comes back from its little-endian bytes |
| Bytes.LittleOfNumber | src/ai/agent_memory_wire.cpp:75-91 | any bytes are the bytes of the number they stand for |
| Bytes.SignedThere | src/ai/agent_memory_wire.cpp:93-98 | a signed 64-bit number comes back from its pattern |
| Fields.GetUndoesPut | src/ai/agent_memory_wire.cpp:13-134 | a number, string or float run within its limits is read back, whatever follows |
| Fields.GetIsPut | src/ai/agent_memory_wire.cpp:67-134 | whatever is read is exactly the bytes of a value within the limits |
| Fields.GetAllUndoesPutAll | src/ai/agent_memory_wire.cpp:158-219 | a list of fields is read back, whatever follows |
| Fields.GetAllIsPutAll | src/ai/agent_memory_wire.cpp:158-219 | a list read is exactly the bytes of fields of these kinds |
| Fields.WriteFields | src/ai/agent_memory_wire.cpp:13-59 | the writers append exactly the specified bytes |
| Fields.Reader.ReadFields | src/ai/agent_memory_wire.cpp:61-146 | the cursor accepts exactly what the specification accepts and stops where it does |
| Wire.RecordComesBack | src/ai/agent_memory_wire.cpp:158-219 | every record within the limits is decoded from its encoding |
| Wire.EntryComesBack | src/ai/agent_memory_wire.cpp:496-546 | every cache entry within the limits is decoded from its encoding |
| Wire.StatsLengths | src/ai/agent_memory_wire.cpp:747-757 | statistics are accepted if and only if they are 129 or 169 bytes long |
| Wire.EncodedArrives | src/ai/agent_memory_wire.cpp:158-802 | every message within the limits arrives as itself, but for the default namespace, the record of an answer that found nothing and the evictions of a result |
| Wire.DecodedIsSettled | src/ai/agent_memory_wire.cpp:158-802 | every decoded message is within the limits and arrives unchanged when sent on |
| Wire.ComesBackExactlyWhen | src/ai/agent_memory_wire.cpp:158-802 | a message comes back unchanged if and only if it is within the limits and holds nothing the format drops |
| Wire.OnlyWholeMessages | src/ai/agent_memory_wire.cpp:148-154 | of two accepted payloads of a kind other than statistics, neither is a proper prefix of the other |
| Wire.OnlyTheWholeEncoding | src/ai/agent_memory_wire.cpp:148-154 | every proper prefix or extension of an encoding is rejected, except a report cut to 129 bytes |
| Wire.Encode | src/ai/agent_memory_wire.cpp:158-700 | the encoders write the specified bytes, matches one by one |
| Wire.Decode | src/ai/agent_memory_wire.cpp:182-802 | the decoders accept and return what the specification does |
| Snapshot.RowsThere | src/ai/agent_memory.cpp:735-794 | rows written with growing arena offsets are read back with their embeddings, whatever follows |
| Snapshot.OutsideTheArenaIsRefused | src/ai/agent_memory.cpp:890-957 | rows are accepted if and only if all their fields are there and no slice leaves the arena; an embedding is then that slice |
| Snapshot.SavedComesBack | src/ai/agent_memory.cpp:723-957 | reading what was saved gives every memory, entry, counter and the dimension |
| Snapshot.LoadedFits | src/ai/agent_memory.cpp:845-957 | whatever is read is within the limits |
| Snapshot.ComesBackExactlyWhen | src/ai/agent_memory.cpp:723-957 | a snapshot restores what was saved if and only if everything was within the limits |
| Snapshot.LongIdCannotBeLoaded | src/ai/agent_memory.cpp:37-54 | a memory id over the limit is written, and the whole snapshot is refused |
| SnapshotStore.WriteFiles | src/ai/agent_memory.cpp:723-794 | the save loop writes the two specified files |
| SnapshotStore.ReadFiles | src/ai/agent_memory.cpp:845-957 | the load loops accept and return what the specification does |
| SnapshotStore.Load | src/ai/agent_memory.cpp:826-990 | a store takes over the files' contents if and only if they are readable and loadable; otherwise it is unchanged |
| SnapshotStore.SaveThenLoad | src/ai/agent_memory.cpp:686-990 | another store loading what a valid store saved holds the same contents, with every index, counter and unit row rebuilt |
| Router.FreePoint | src/ai/agent_memory_router.cpp:140-144 | probing from a taken point, round the 64-bit end, finds a free one after at most as many steps as points are taken |
| Router.EveryNodeItsPoints | src/ai/agent_memory_router.cpp:133-147 | under any hash every node has exactly its number of virtual nodes on the ring, and nobody else has any |
| Router.IdealRing | src/ai/agent_memory_router.cpp:133-147 | without collisions the ring is exactly the labels' hashes |
| Router.OwnsOnce | src/ai/agent_memory_router.cpp:71-74 | a key has one owning point |
| Router.OldPointsKeepOwners | src/ai/agent_memory_router.cpp:37-41 | whatever collides, every old point keeps its owner if and only if the points the new node takes were free |
| Router.LargestTakesFreePoints | src/ai/agent_memory_router.cpp:133-147 | a new node with the largest id takes free points only, under any hash |
| Router.CollisionFreeTakesFreePoints | src/ai/agent_memory_router.cpp:133-147 | without collisions any new node takes free points only |
| Router.AddMovesOnlyToNewNode | src/ai/agent_memory_router.cpp:37-41 | if the new node took free points, a key keeps its owning point or goes to the new node |
| Router.RemoveUndoesAdd | src/ai/agent_memory_router.cpp:43-47 | removing an added node gives back the old node list |
| Router.CollisionMovesOthers | src/ai/agent_memory_router.cpp:140-144 | with a collision, adding a node moves a key between two others |
| Router.ProbeFrom | src/ai/agent_memory_router.cpp:140-144 | the probe loop ends at the first free point |
| Router.LowerBound | src/ai/agent_memory_router.cpp:71-73 | the first point at or after the hash, or the first of all |
| Router.AgentMemoryRouter.RebuildRing | src/ai/agent_memory_router.cpp:133-147 | the ring is rebuilt from the nodes alone |
| Router.AgentMemoryRouter.SetConfig | src/ai/agent_memory_router.cpp:23-30 | the ring is that of the same nodes under the new number of virtual nodes, at least one |
| Router.AgentMemoryRouter.AddNode | src/ai/agent_memory_router.cpp:37-41 | the node joins and the ring is that of the new nodes |
| Router.AgentMemoryRouter.RemoveNode | src/ai/agent_memory_router.cpp:43-47 | the node leaves and the ring is that of the rest |
| Router.AgentMemoryRouter.ClearNodes | src/ai/agent_memory_router.cpp:49-53 | no node and no point is left |
| Router.AgentMemoryRouter.Route | src/ai/agent_memory_router.cpp:60-77 | the owner is a member node owning the key's point, or this node when routing is off or there are none |
| Router.AgentMemoryRouter.AddAndRemove | src/ai/agent_memory_router.cpp:37-47 | adding then removing a node restores the ring, so every previous owner |
| Rebalance.EveryRunIsSafe | src/cluster/rebalance_manager.cpp:19-259 | the invariant holds in every state reached by any interleaving of starts, pauses, resumes, cancels and worker steps |
| Rebalance.RunsOneAtATime | src/cluster/rebalance_manager.cpp:64-189 | at most one plan runs, completed plus failed is the moves processed, and at most one move starts after cancelling |
| Rebalance.RingChangesAreEarned | src/cluster/rebalance_manager.cpp:131-189 | every ring change follows a plan all of whose moves committed, and is what some call asked for |
| Rebalance.NoteSurvives | src/cluster/rebalance_manager.cpp:19-63 | a call's note is still there after a run if and only if no other call wrote and no run ended meanwhile |
| Rebalance.ReadsOwnNote | src/cluster/rebalance_manager.cpp:131-189 | the worker acts on its own plan's note if and only if that was so |
| Rebalance.OwnChangeExactlyWhen | src/cluster/rebalance_manager.cpp:19-189 | any recorded ring change of any run is its own plan's call's if and only if nothing overwrote that call's note between the step that left it and the step at which the worker read it |
| Rebalance.RejectedStartHijacksChange | src/cluster/rebalance_manager.cpp:19-43 | a rejected start makes a finished plan do the rejected call's ring change |
| Rebalance.EndingRunLosesNote | src/cluster/rebalance_manager.cpp:191-217 | a run that is ending erases the next plan's note, whose ring change never happens |
| Rebalance.WorkProgresses | src/cluster/rebalance_manager.cpp:92-189 | every step of an unpaused worker brings it nearer its end |
| Rebalance.CancelledRunEnds | src/cluster/rebalance_manager.cpp:244-259 | a cancelled run ends, whatever its moves do |
| Migrator.PartitionMigrator.MigrateSymbol | src/cluster/partition_migrator.cpp:14-61 | what arrives at the destination for every pattern of failure, and whether success is reported |
| Migrator.PartitionMigrator.RollbackMove | src/cluster/partition_migrator.cpp:111-120 | empties the destination unless it is unknown or the delete fails |
| Migrator.PartitionMigrator.ExecuteMove | src/cluster/partition_migrator.cpp:63-109 | one attempt ends committed or failed, makes one begin and one closing call, and leaves exactly the specified rows |
| Migrator.PartitionMigrator.RetryMove | src/cluster/partition_migrator.cpp:138-153 | retries until committed or exhausted; every attempt is logged as a begin and its closing call |
| Migrator.PartitionMigrator.ResumePlan | src/cluster/partition_migrator.cpp:134-155 | every due move ends committed or failed with retries exhausted and every other move stays; the attempts made are exactly the attempts added to the moves; no router call is for a symbol without a due move; no checkpoint is ahead of the result; on a good network each empty destination ends with one copy or none |
| Migrator.PartitionMigrator.ExecutePlan | src/cluster/partition_migrator.cpp:122-132 | every move of a plan ends committed or failed with retries exhausted, its attempts accounted for; on a good network each empty destination ends with one copy or none |
| Migrator.FailuresLeaveNothing | src/cluster/partition_migrator.cpp:63-120 | failed attempts leave an empty destination empty if and only if each one's rows were rolled back |
| Migrator.ExactlyOneCopy | src/cluster/partition_migrator.cpp:63-120 | a committed move leaves exactly one copy if and only if no earlier attempt left rows |
| Migrator.OneCopyOrNone | src/cluster/partition_migrator.cpp:63-120 | without late copies and with working deletes: one copy when committed, none when failed |
| Migrator.LateCopyDuplicates | src/cluster/partition_migrator.cpp:63-109 | a copy that finishes after its timeout, then a commit: two copies |
| Utf8.EncodingDecodes | src/auth/json_claims.h:55-80 | the octets of a scalar value decode to it |
| Utf8.DecodingEncodes | src/auth/json_claims.h:55-80 | only the octets of a scalar value decode, so one encoding each |
| Utf8.AppendUtf8 | src/auth/json_claims.h:55-80 | appends the encoding of exactly the Unicode scalar values, and refuses all else |
| JsonScan.StrExact | src/auth/json_claims.h:82-145 | the string scan accepts exactly the grammar's strings, with their decoded text |
| JsonScan.NumberComplete | src/auth/json_claims.h:209-246 | a grammatical number followed by a stop is read to its end |
| JsonScan.ValueSound | src/auth/json_claims.h:255-275 | what the scan skips is a value of the grammar within the depth limit |
| JsonScan.ValueComplete | src/auth/json_claims.h:255-275 | every value of the grammar within the depth limit is skipped to its end |
| JsonScan.ReadMembersExact | src/auth/json_claims.h:282-334 | the accepted texts are exactly the closed objects and the two unclosed forms, with their members |
| JsonScan.LoneBraceIsAccepted | src/auth/json_claims.h:289-331 | the text of one opening brace is accepted with no members and is no object |
| JsonClaims.ParseString | src/auth/json_claims.h:82-145 | with and without an output the parser accepts the same strings and stops at the same place; decoding gives the grammar's text |
| JsonClaims.SkipValue | src/auth/json_claims.h:255-275 | skips a value exactly as specified |
| JsonClaims.SkipArray | src/auth/json_claims.h:150-175 | skips an array exactly as specified |
| JsonClaims.SkipObject | src/auth/json_claims.h:177-207 | skips an object exactly as specified |
| JsonClaims.SkipNumber | src/auth/json_claims.h:209-246 | skips a number exactly as specified |
| JsonClaims.FindMember | src/auth/json_claims.h:282-334 | the search loop returns what the accepted members and the key count say |
| JsonClaims.ClosedDecides | src/auth/json_claims.h:282-334 | on a closed object the status is missing, valid or invalid as the key occurs never, once or more often |
| JsonClaims.FoundMeans | src/auth/json_claims.h:282-334 | a valid status means one top-level key decodes to the requested one, and the position starts its well-formed value |
| JsonClaims.ReadString | src/auth/json_claims.h:338-348 | valid if and only if the one member's value is a string, whose text it returns |
| JsonClaims.ReadBool | src/auth/json_claims.h:370-384 | true or false if and only if the one member's value is that literal |
| Base64Url.DecodeUndoesEncode | src/auth/jwt_validator.cpp:257-302 | decoding an encoding gives the bytes |
| Base64Url.EncodeUndoesDecode | src/auth/jwt_validator.cpp:257-302 | encoding the bytes of an accepted text gives that text |
| Base64Url.OneTextPerValue | src/auth/jwt_validator.cpp:257-302 | no two texts decode to the same bytes |
| Base64Url.Encode | src/auth/license_validator.cpp:19-40 | padding, replacing and trimming gives the unpadded URL encoding |
| Base64Url.Decode | src/auth/jwt_validator.cpp:257-302 | the loop returns the decoded bytes, or nothing for a malformed text |
| RateLimiter.StaysInBounds | src/auth/rate_limiter.cpp:138-156 | tokens stay between zero and the capacity |
| RateLimiter.RateBound | src/auth/rate_limiter.cpp:138-156 | in any interval of any run at most capacity plus refill times elapsed requests are allowed |
| RateLimiter.CleanupIsInvisible | src/auth/rate_limiter.cpp:43-67 | when every bucket is full by the time it may be dropped, cleanups never change a decision of any run |
| RateLimiter.ShortIdleForgives | src/auth/rate_limiter.cpp:43-67 | when it is not, spending a bucket, cleaning up and spending it again admits requests that are refused without the cleanup |
| RateLimiter.UnnoticedExactlyWhen | src/auth/rate_limiter.cpp:43-67 | cleanups with an idle limit change no decision of any run from the start if and only if a bucket fills in the shortest time after which it is dropped |
| RateLimiter.RateTable.PickVictim | src/auth/rate_limiter.cpp:105-123 | the victim is the longest unused of sixteen sampled buckets |
| RateLimiter.RateTable.CheckKey | src/auth/rate_limiter.cpp:85-156 | the decision is that of the key's own bucket, and the table never exceeds max(1, max_buckets) |
| RateLimiter.RateTable.CleanupTable | src/auth/rate_limiter.cpp:43-67 | removes exactly the buckets idle for too long |
| RateLimiter.RateTable.Serve | src/auth/rate_limiter.cpp:19-67 | a run of checks and cleanups over no more keys than the table has room for decides as the specification's run does |

## Left out

- The HNSW backend (src/ai/ann_index.cpp:35-271) wraps a library; the kind exists, but no build of it is published.
- Floating-point rounding, and NaN importance or scores: the numeric operations are parameters with real results.
- Counters and the index generation are unbounded; only access counts and the candidate product wrap at 64 bits.
- Worker threads, locks and rebuild requests: a rebuild is the begin and the publish step, which interleave with every operation.
- Standard heaps, sorts and partial sorts are modelled by what they promise; ties may come out in any order.
- The two versions of evict-one (per quota and per capacity) differ in their filter only and are modelled once with the filter as a parameter.
- `get_context`, `stats`, token estimation, the id config setter and capacity reservation would only add easy members.
- File and directory handling of snapshots, and the byte counts kept about them; a snapshot is its two files' bytes.
- Error texts of decoders and of load; a refusal is a refusal. Null output pointers have no counterpart.
- The allocation of a nested record's announced size before its bytes are there.
- `read_json_int64` and `read_json_string_array` would only add members like the string and boolean readers.
- Deviations of the claims grammar from RFC 8259 that the model keeps: `\v` and `\f` count as white space, and lone surrogates are refused.
- The concrete hash of the router and of the projections; the routing key's selection of a subject.
- The status and wait calls, bandwidth throttling and the policy loop of the rebalance manager, and the coordinator's own failover.
- The checkpoint's JSON file; a checkpoint is the list of move states it holds.
- Dual writes during a migration, and writes to the source while it is copied.
- Rate limiter buckets shared with a check that is under way while they are dropped.
- Rebalance: modelled as steps on values, because its callers and worker run at the same time; update in place is not captured.
- Router.EveryNodeItsPoints: requires nodes times virtual nodes to fit the 64-bit ring, because with more points than places the probe loop would not end.
- Snapshot.ComesBackExactlyWhen: requires fewer than 2 to the 64 floats in all, because an offset is a 64-bit number.
- RateLimiter.RateTable.Serve: says nothing of the decisions once a bucket has to be dropped for room, because the bucket dropped depends on the hash table's order.
