# ZENO in Dafny

ZENO keeps the plaintext of a PostgreSQL database in a trusted server. PostgreSQL sees only 64-bit
record identifiers (RIDs); every operation on a protected value is a request through shared memory
to a worker process of the trusted server. This project models the parts of ZENO whose correctness
is not visible in any one function, and proves what they promise:

- `Rpc`, `RpcSafety`, `RpcReach`: the lock-free shared-memory RPC. Clients claim regions by compare-and-swap on
  a bitmap and drive a NONE/SENT/DONE handshake; worker `w` of `W` polls the regions congruent to `w`
  modulo `W`. The model is a state machine whose steps are single shared-memory accesses, and the
  results hold after every schedule of any number of clients and workers; conversely every sequence
  of calls is the log of some schedule.
- `LocalStore`, `Session`: the per-worker store of temporary values with its free list, and what a
  client may rely on between two of its requests.
- `TextArena`: the shared append-only text store under interleaved puts and replaces.
- `Rid`, `Promotion`: RID packing, and the row trigger that moves protected columns into the
  partition of their relation.
- `LittleEndian`, `WalCodec`, `WalBatches`, `Durability`, `DurabilityRuns`: the write-ahead-log payload,
  the batching in a PostgreSQL backend, and the commit protocol as a whole, up to recovery after a
  crash.
- `DeleteRing`: the ring of deleted RIDs with its three cursors.
- `Like`, `Calendar`, `Aggregation`, `Iv`: the LIKE matcher, year extraction, bulk SUM, and the
  initialisation vectors of AES-GCM.
- `Rng`, `Dbgen`, `Chunks`: the two random number generators of dbgen with their skip-ahead, the skip
  functions of the 48 streams, and chunked generation of a table.
- `Options`, `Arith`: an option type, and division, remainder and powers.

Code that updates objects, arrays or variables in place is modelled by classes and methods with
loops, proved against functions on values. Concurrent code is modelled by a state machine: a
schedule is a sequence of steps, a step that is not enabled changes nothing, and `Exec` is the state
after a schedule. Accesses are taken as sequentially consistent. Requests and results, worker
memory, ciphers and the text of generated rows are arbitrary values and functions.

The modelled configuration is the one with `USE_KVMAP_PARTITION`, `USE_VARLEN_STRING`,
`USE_LOCAL_STORE_CLEAR` and the PostgreSQL 14 commit patch.

## What does not hold

Some natural statements are false of the code. Each has an input at which it fails and its exact
condition.

- The delete ring does not keep every committed RID: it forgets all it holds when a transaction
  commits while all 1048576 slots are taken, because the distance between equal cursors is counted as
  0. `DeleteRing.FullRingIsForgotten` is the failing run, `DeleteRing.NothingIsLostIff` the condition.
- A value does not always survive the log: a text of 540 characters or more comes back as its first
  539. `WalCodec.ValueSurvivesIffShort` is the condition on the codec,
  `Durability.CommittedValuesSurviveACrash` after a crash.
- Not every batch of at most 3000 items is accepted; for one that is too large the server stops.
  `WalCodec.AcceptedBatches` is the condition, `WalCodec.LongTextsRefusedIff` the family of batches of
  long texts, which fails from 1816 items on.
- Puts into the text store do not always get unused keys: replay writes keys without advancing the
  index counter. `TextArena.ReplayedValueIsLost` is a run in which a put takes the key of a replayed
  value and replaces it, `TextArena.PutsAreFreshIff` the condition on the state.
- A temporary value does not always outlive the requests of other clients: a clear sent by any client
  of the same worker loses it. `Session.ForeignClearLosesTheValueIff` is the failing schedule, for every
  number of workers, and `Session.LocalRidsAreStableIff` the condition in every schedule.

Two remarks. The patch has no abort hook, so an aborted transaction leaves its pending items and
payloads to the next commit of that backend; `Durability` models this, and it costs log space, not
correctness. Two random streams are rounded up after every row but never skipped
(`Chunks.SkippedIffTracked`): HVAR, which no row reads, and the text pool's, which a process reads only
when it builds the pool, in its first row; since it is never skipped, every chunk builds the same pool
(`Chunks.PoolKeepsSkip`).

The header comment of the commit patch leaves recovery for later, while its redo hook does replay
the payloads; the model follows the code.

## Model

| member | source | states |
|---|---|---|
| Rpc.RegionsAreDisjoint | src/include/rpc.h:10-17 | the 539 request regions lie behind the control block, inside the shared memory and apart from each other; no further one would fit and the bitmap has a bit for each |
| Rpc.OpsWorkerCount | src/privacy_zone/server.cpp:101-104 | as many workers as configured, or one for each region if that is less |
| RpcSafety.ClaimKeeps | src/include/rpc.h:48-57 | the compare-and-swap of a claim keeps the protocol invariant; a region it claims had no holder and status NONE, and a swap that fails goes back to the same region and changes nothing else |
| RpcSafety.ReleaseKeeps | src/include/rpc.h:63-72 | the release keeps the invariant and leaves the region free in the bitmap and without holder |
| RpcSafety.ScanKeeps | src/integrity_zone/client.cpp:58-77 | the claim scan and the clearing of a fresh buffer keep the invariant |
| RpcSafety.SubmitKeeps | src/integrity_zone/client.cpp:119-120 | serialising a request keeps the invariant |
| RpcSafety.SendKeeps | src/integrity_zone/client.cpp:131-132 | setting SENT keeps the invariant |
| RpcSafety.WaitKeeps | src/integrity_zone/client.cpp:134-136 | the spin on DONE keeps the invariant |
| RpcSafety.FetchKeeps | src/integrity_zone/client.cpp:138-142 | copying the result out keeps the invariant, and the copied result is the next one of the log for this client |
| RpcSafety.ResetKeeps | src/integrity_zone/client.cpp:84-88 | resetting the status to NONE after a call or before a release keeps the invariant |
| RpcSafety.QuitKeeps | src/integrity_zone/client.cpp:95-113 | leaving at any point, even in the middle of a call, keeps the invariant |
| RpcSafety.NextRegionCongruent | src/privacy_zone/server.cpp:163-163 | a worker only ever looks at regions congruent to its number |
| RpcSafety.PollKeeps | src/privacy_zone/server.cpp:160-175 | the scan of a worker keeps the invariant |
| RpcSafety.HandleKeeps | src/privacy_zone/server.cpp:127-134 | handling a request keeps the invariant and adds exactly one event to the log |
| RpcSafety.HandleAnswers | src/privacy_zone/server.cpp:127-134 | the result then in the buffer is the answer to the last request of the client that holds the region |
| RpcSafety.FinishKeeps | src/privacy_zone/server.cpp:135-137 | setting DONE keeps the invariant |
| RpcSafety.ClearBitIsFree | src/integrity_zone/client.cpp:79-91 | in every reachable state a clear bit means no holder and status NONE |
| RpcSafety.SentIsInFlight | src/integrity_zone/client.cpp:129-136 | a region in status SENT holds the last, unanswered request of the one client that holds it |
| RpcSafety.ExecInv | src/integrity_zone/client.cpp:58-147 | every schedule of any number of clients and workers keeps the invariant |
| RpcSafety.RegionsAreExclusive | src/include/rpc.h:42-72 | after every schedule no two clients hold the same region, a region is taken in the bitmap if and only if some client holds it, and a free one has status NONE |
| RpcSafety.RequestsAreHandledExactlyOnce | src/integrity_zone/client.cpp:115-147 | after every schedule the workers have handled exactly the requests a client sent, in order and once each, but for at most the one in flight; the k-th result it copied was computed from its k-th request by worker (region mod W) in that worker's memory at that moment |
| RpcSafety.OneWorkerPerClient | src/privacy_zone/server.cpp:160-175 | all requests of a client are handled by one worker |
| RpcReach.Connect | src/include/rpc.h:42-61 | the next client can always claim the next region, past all that are taken |
| RpcReach.ClaimFree | src/integrity_zone/client.cpp:65-76 | three steps claim a free region, clear its buffer and change no other region or bit |
| RpcReach.PollTo | src/privacy_zone/server.cpp:160-175 | wherever a worker is in its scan, it comes to the one region of its own that has a request, starting again at its first region past the last |
| RpcReach.Call | src/integrity_zone/client.cpp:115-147 | between calls, a call of any connected client runs to its end, leaves everyone between calls and logs exactly that request with the result of its worker |
| RpcReach.EveryCallSequenceIsReachable | src/integrity_zone/client.cpp:58-147 | every sequence of calls of up to 539 clients is, in this order, the whole log of some schedule |
| RpcReach.Leave | src/integrity_zone/client.cpp:79-91 | a client that leaves at whatever point of a call frees exactly its own region and is gone, and waits as long as a request of its own is waiting |
| RpcReach.GivesUpAfterAScan | src/integrity_zone/client.cpp:65-71 | a client gives up waiting for a region only at the end of a scan, and touches nothing |
| RpcReach.WaiterClaims | src/include/rpc.h:42-61 | a client that scans a full bitmap, wherever it is in the scan, claims the one region that becomes free |
| RpcReach.FreedRegionIsClaimed | src/integrity_zone/client.cpp:58-113 | with every region taken, the region of a client that leaves goes to a client that waits for one |
| LocalStore.PutAddsOneEntry | src/privacy_zone/include/kv-local.hpp:50-65 | a put returns an index that is not live, adds that one entry and keeps the free list equal to the dead indices, without duplicates |
| LocalStore.EraseRemovesOneEntry | src/privacy_zone/include/kv-local.hpp:82-89 | an erase removes exactly that entry, does nothing for a dead or unknown index and keeps the free list equal to the dead indices |
| LocalStore.LastErasedIsReused | src/privacy_zone/include/kv-local.hpp:53-58 | the index freed last is the first to be handed out again |
| LocalStore.GrowsIffAllLive | src/privacy_zone/include/kv-local.hpp:53-64 | a put makes the store longer if and only if every index is live |
| LocalStore.ReusableLocalKVStore.constructor | src/privacy_zone/include/kv-local.hpp:48-48 | a new store is empty |
| LocalStore.ReusableLocalKVStore.Put | src/privacy_zone/include/kv-local.hpp:50-65 | the new contents are the old ones plus the value at the returned, formerly dead index |
| LocalStore.ReusableLocalKVStore.Get | src/privacy_zone/include/kv-local.hpp:67-70 | a live index reads its entry |
| LocalStore.ReusableLocalKVStore.Erase | src/privacy_zone/include/kv-local.hpp:82-89 | the new contents are the old ones without the index |
| LocalStore.ReusableLocalKVStore.Clear | src/privacy_zone/include/kv-local.hpp:91-99 | the store is empty and its free list too |
| LocalStore.LiveKeysReadTheirLastPut | src/privacy_zone/include/kv-local.hpp:44-105 | after every run of put, erase and clear each index reads the last value put there that no later erase or clear undid, and no other index is live |
| LocalStore.DeadSlotsReadZero | src/privacy_zone/include/kv-local.hpp:82-89 | after every run every dead slot holds the zero value |
| LocalStore.PutNeverReturnsALiveKey | src/privacy_zone/include/kv-local.hpp:50-65 | after every run a put returns an index that, by the history alone, is not live |
| LocalStore.SinceAPut | src/privacy_zone/include/kv-local.hpp:50-99 | after a put, and no further put at that index, the index reads that value exactly until it is erased or the store cleared |
| LocalStore.LiveKeyIsNotReissued | src/privacy_zone/include/kv-local.hpp:50-65 | where puts are fresh, an index is handed out again only after an erase of it or a clear |
| Session.QuietKeeps | src/privacy_zone/include/kv.hpp:47-51 | a request that neither erases an index nor clears the store leaves its meaning alone, whatever it puts |
| Session.StableInHonestLog | src/privacy_zone/include/kv.hpp:143-153 | in a log in which every result is what its worker computed, an index that was put reads that value in a later request of the same worker if nothing in between erased or cleared it |
| Session.LocalRidsAreStable | src/privacy_zone/server.cpp:160-175 | in every schedule a local RID given to a client denotes the same value in its later requests until a request handled by its worker erases that index or clears the store |
| Session.HandleExplains | src/privacy_zone/include/kv.hpp:47-51 | along any request, the history read off the answers tells exactly what every index of the store reads |
| Session.ReadsSeeTheLastPut | src/privacy_zone/include/kv.hpp:143-153 | in every schedule every read is answered by the last put at its index that its worker has not undone by an erase or a clear, over all clients of the worker |
| Session.LocalRidsAreStableIff | src/privacy_zone/server.cpp:160-175 | in every schedule a read after a put at the index answers that value if and only if the worker has since neither erased the index nor cleared the store, and nothing if and only if it has, unless the index was handed out again, which takes an erase or a clear |
| Session.ForeignClearLosesTheValueIff | src/privacy_zone/include/kv-local.hpp:91-99 | for any number of workers and any two clients there is a schedule of a put, a clear by the other client and a read, in which the value is gone if and only if both have the same worker |
| Rid.RidRoundTrip | src/include/rid.h:25-39 | packing and unpacking of partition and index are inverse to each other both ways; a RID is local exactly in the last partition |
| TextArena.ReadingIsUnique | src/privacy_zone/include/file-map-operator.hpp:137-143 | the bytes at an offset up to the first NUL are one string only |
| TextArena.ReservationsAreDisjoint | src/privacy_zone/include/file-map-operator.hpp:107-127 | in every schedule the byte extents of two operations never overlap and two puts never get the same key |
| TextArena.ExecInv | src/privacy_zone/include/file-map-operator.hpp:107-176 | every schedule keeps the invariant: extents reserved, apart, inside the store, completed ones fully written, offsets tied to the operation that wrote them |
| TextArena.CompleteKeysReadBack | src/privacy_zone/include/file-map-operator.hpp:137-143 | in every schedule the bytes behind a key whose last writer is complete read as that writer's string |
| TextArena.StepsRefineTheMap | src/privacy_zone/include/file-map-operator.hpp:107-176 | seen as a map from keys to strings, a step changes at most its own key: the offset write makes it undefined, completion defines it as the new value |
| TextArena.PutsAreFresh | src/privacy_zone/include/file-map-operator.hpp:110-113 | as long as replaces stay below the index counter, the next key of a put is unused |
| TextArena.PutsAreFreshIff | src/privacy_zone/include/file-map-operator.hpp:107-127 | from a state of the invariant, every run that starts no replace hands out unused keys only, if and only if every key in use is below the index counter |
| TextArena.StaleCounterLosesTheValue | src/privacy_zone/include/file-map-operator.hpp:107-127 | from any state, a run of puts alone completes one at any key at or above the counter, which then denotes the value of the put |
| TextArena.ReplayedValueIsLost | src/privacy_zone/include/file-map-operator.hpp:152-169 | for any key and any two strings that fit: after one replace the key reads the first string with the counter at 0, and puts alone then make it read the second |
| Promotion.RelationPartition | src/integrity_zone/extension.cpp:36-44 | the partition is the low 16 bits of the relation id, refused exactly when all of them are set |
| Promotion.Stores.Promote | src/privacy_zone/handler.cpp:337-360 | a promotion stores the value of the RID under an unused key of the partition, frees a local source and changes nothing else |
| Promotion.MoveColumn | src/integrity_zone/extension.cpp:323-338 | one turn of the trigger loop: the column ends in the partition with its value, and persistent values only grow |
| Promotion.RestKeepsValues | src/integrity_zone/extension.cpp:315-339 | columns still to come keep their values while earlier ones are promoted and their local slots freed |
| Promotion.MoveColumns | src/integrity_zone/extension.cpp:315-339 | the loop moves every column that needs it, frees exactly the local sources and only adds persistent values |
| Promotion.RunTrigger | src/integrity_zone/extension.cpp:305-343 | after the trigger every column that is not dropped, of a protected type and not null is a RID of the relation's partition, not a local one, and denotes the original value; nothing but RIDs changes and exactly the local sources are freed; it fails exactly for a relation of the local partition |
| Promotion.RunTriggerTwice | src/integrity_zone/extension.cpp:344-402 | a second run on the result returns the same tuple and changes no store |
| LittleEndian.LittleEndianRoundTrip | src/privacy_zone/include/wal.hpp:419-440 | a number of n bytes written least byte first reads back as itself |
| LittleEndian.LittleEndianInverse | src/privacy_zone/include/wal.hpp:434-440 | bytes read as a number and written again are the same bytes |
| WalCodec.AppendRecord | src/privacy_zone/include/wal.hpp:425-432 | type, length, key and value are appended in this order and nothing before them changes |
| WalCodec.MaterializePayload | src/privacy_zone/include/wal.hpp:298-336 | the loop builds the header and one record for each item, in order |
| WalCodec.StoreSlots | src/privacy_zone/include/file-map-operator.hpp:202-209 | exactly the RIDs of four types, any partition but the local one and so many slots belong to a store |
| WalCodec.RecordsHaveLength | src/privacy_zone/include/wal.hpp:306-335 | a record takes 11 bytes and 4, 4 or 8 for a number, or the first 539 characters and a NUL for a text |
| WalCodec.AcceptedBatches | src/privacy_zone/include/wal.hpp:81-103 | exactly which batches are accepted; the payload is 36 bytes plus 11 and the value of each item long and always fits the replay buffer |
| WalCodec.LongTextsRefusedIff | src/privacy_zone/include/wal.hpp:95-99 | a batch of promoted texts of 539 or more characters is refused if and only if it has 1816 items or more |
| WalCodec.RestoredIsKept | src/privacy_zone/include/wal.hpp:375-383 | what replay stores for a recorded value is the value, or the first 539 characters of a longer text, and its length passes the checks |
| WalCodec.RecordRoundTrip | src/privacy_zone/include/wal.hpp:348-358 | every field of a record is read back and the cursor ends where the record ends |
| WalCodec.HeaderRoundTrip | src/privacy_zone/include/wal.hpp:342-346 | the header passes its checks and gives back the number of items |
| WalCodec.HeaderBytes | src/privacy_zone/include/wal.hpp:303-304 | a payload begins with the bytes 57 4c 56 31 01 00 and the number of its records, low byte first |
| WalCodec.RecordsRoundTrip | src/privacy_zone/include/wal.hpp:348-396 | replaying the records of a batch restores its items one after another and consumes the payload exactly |
| WalCodec.PayloadRoundTrip | src/privacy_zone/include/wal.hpp:105-123 | every accepted batch, encrypted and decrypted, replays without a failing check into the restored store |
| WalCodec.ReplayAcceptsIff | src/privacy_zone/include/wal.hpp:338-397 | replay accepts exactly the well-formed payloads (header with the number of records; each with a known type, a RID of a store and the length of its type; nothing behind the last) and then writes the records in order; all other bytes are refused |
| WalCodec.RestoreReads | src/privacy_zone/include/wal.hpp:360-394 | the restored store reads the kept value at each item of the batch and is unchanged at every other RID |
| WalCodec.ValueSurvivesIffShort | src/privacy_zone/include/wal.hpp:321-383 | recording a value and restoring the record gives the value back if and only if it is not a text of more than 539 characters |
| WalCodec.ReplayStep | src/privacy_zone/include/wal.hpp:348-395 | one turn of the replay loop at a cursor into the payload, with every check |
| WalCodec.KvStore.ReplayRecord | src/privacy_zone/include/wal.hpp:353-394 | reading one record in place and writing its value agrees with replaying the rest of the payload; a failed check leaves the store as it is |
| WalCodec.KvStore.ReplayLoop | src/privacy_zone/include/wal.hpp:348-396 | the loop with its advancing cursor computes the store and the verdict of replaying all records, on any bytes |
| WalCodec.KvStore.Replay | src/privacy_zone/include/wal.hpp:338-397 | the same with the header checks, on any bytes |
| WalBatches.TupleItemsPrefix | src/integrity_zone/postgresql-patches/pg14-commit-protocol.patch:580-600 | the items of the first columns are a prefix of the items of the tuple |
| WalBatches.CollectedIff | src/integrity_zone/postgresql-patches/pg14-commit-protocol.patch:580-600 | the collecting loop takes every item of a tuple if and only if there are at most 4096; a tuple of at most 4096 columns never has more |
| WalBatches.ItemOfColumn | src/integrity_zone/postgresql-patches/pg14-commit-protocol.patch:582-599 | a column that is not dropped, of a protected type and not null gives one item of its type and RID in its place, any other none |
| WalBatches.ItemsOfTuple | src/integrity_zone/postgresql-patches/pg14-commit-protocol.patch:559-609 | the items of a tuple follow those of all tuples before it |
| WalBatches.Backend.constructor | src/integrity_zone/postgresql-patches/pg14-commit-protocol.patch:520-557 | nothing is pending at first |
| WalBatches.Backend.CollectItems | src/integrity_zone/postgresql-patches/pg14-commit-protocol.patch:580-600 | the loop collects, column by column, type and RID of every column that is not dropped, of a protected type and not null, up to 4096 |
| WalBatches.Backend.MaterializeFullBatches | src/integrity_zone/postgresql-patches/pg14-commit-protocol.patch:543-557 | batches of exactly 3000 are split off until fewer are pending; the unlogged items and their order stay the same |
| WalBatches.Backend.AppendTuple | src/integrity_zone/postgresql-patches/pg14-commit-protocol.patch:559-609 | the unlogged items grow by exactly the protected, non-null columns of the tuple, in order, if these are at most 4096 |
| WalBatches.Backend.MaterializePending | src/integrity_zone/postgresql-patches/pg14-commit-protocol.patch:611-621 | nothing stays pending, and the batches hold all unlogged items in order, 3000 each but for the last |
| WalBatches.Backend.LogPendingPayloads | src/integrity_zone/postgresql-patches/pg14-commit-protocol.patch:623-634 | walking the list logs every collected batch in order, and only what is pending stays |
| WalBatches.Backend.Commit | src/integrity_zone/postgresql-patches/pg14-commit-protocol.patch:694-705 | what a commit logs concatenates to exactly the items appended since the last commit, in order, in batches of 3000 and a last one of 1 to 3000, with nothing left behind |
| WalBatches.Backend.RunTransaction | src/integrity_zone/postgresql-patches/pg14-commit-protocol.patch:559-634 | for any sequence of tuples, what the commit logs concatenates to what was left from before followed by the items of every tuple, in batches of 3000 but for the last, with nothing left behind |
| Durability.MaterializeKeeps | src/integrity_zone/postgresql-patches/pg14-commit-protocol.patch:520-541 | materialising a batch keeps the invariant: every payload holds the values its items have |
| Durability.AppendKeeps | src/integrity_zone/postgresql-patches/pg14-commit-protocol.patch:602-608 | appending a tuple keeps the invariant: every item of the running transaction is pending, in a payload or in the log |
| Durability.BeginCommitKeeps | src/integrity_zone/postgresql-patches/pg14-commit-protocol.patch:690-697 | the first half of a commit keeps the invariant |
| Durability.LogChunkKeeps | src/integrity_zone/postgresql-patches/pg14-commit-protocol.patch:630-633 | logging a payload keeps the invariant |
| Durability.WriteCommitKeeps | src/integrity_zone/postgresql-patches/pg14-commit-protocol.patch:703-705 | a commit record is only written after payloads for all items of its transaction |
| Durability.ExecInv | src/integrity_zone/postgresql-patches/pg14-commit-protocol.patch:559-634 | every schedule of any number of backends keeps the invariant |
| Durability.ValuesAreWrittenOnce | src/privacy_zone/handler.cpp:337-360 | along every run a stored value never changes |
| Durability.RecoverRestores | src/integrity_zone/postgresql-patches/pg14-commit-protocol.patch:636-661 | replaying a log of genuine payloads on any store passes every check and restores every logged item, however often it is logged |
| Durability.CommittedValuesSurviveACrash | src/integrity_zone/postgresql-patches/pg14-commit-protocol.patch:690-742 | after any run, a crash that keeps any prefix of the log and leaves anything in the store, then recovery: each item of each transaction whose commit record survived is there, and reads its committed value if and only if that is not a text of more than 539 characters, of which it reads the first 539 |
| DurabilityRuns.NothingIsLostOrDoubled | src/integrity_zone/postgresql-patches/pg14-commit-protocol.patch:543-634 | after every schedule, what a backend has logged, then its payloads, then its pending items are exactly the items of its tuples, in order, also those of aborted transactions |
| DurabilityRuns.TransactionIsWhatWasWritten | src/integrity_zone/postgresql-patches/pg14-commit-protocol.patch:559-609 | after every schedule the running transaction is what the backend's enabled writes since its last commit or abort say |
| DurabilityRuns.CommitRecordsWhatWasWritten | src/integrity_zone/postgresql-patches/pg14-commit-protocol.patch:703-705 | a commit appends one record, of exactly what its transaction wrote |
| DurabilityRuns.PromotedValue | src/privacy_zone/handler.cpp:337-360 | an item reads the value it was promoted with in every later state |
| DurabilityRuns.CommittedWritesSurviveACrash | src/integrity_zone/postgresql-patches/pg14-commit-protocol.patch:559-742 | in terms of steps: a value promoted, then written, then committed with a commit record that survives the crash is there after recovery, as promoted if and only if it is not a text of more than 539 characters |
| DurabilityRuns.CommitGoesThrough | src/integrity_zone/postgresql-patches/pg14-commit-protocol.patch:690-705 | a commit whose pending items are accepted logs the payloads made before, one for what was pending, and the commit record, and leaves the backend empty |
| DurabilityRuns.FlushGoesThrough | src/integrity_zone/postgresql-patches/pg14-commit-protocol.patch:543-557 | a full batch that is accepted becomes a payload of the first 3000 pending items |
| DurabilityRuns.EveryTransactionGoesThrough | src/integrity_zone/postgresql-patches/pg14-commit-protocol.patch:559-705 | every transaction of promoted values that makes an accepted batch can happen, from promotion to commit record |
| DeleteRing.CountBetweenAt | src/integrity_zone/include/delete_queue.hpp:51-53 | the distance between two cursors is right unless it is the whole ring, which counts as 0 |
| DeleteRing.DeleteQueue.constructor | src/integrity_zone/include/delete_queue.hpp:11-11 | a new ring is empty |
| DeleteRing.DeleteQueue.Enqueue | src/integrity_zone/include/delete_queue.hpp:13-22 | the RID joins the pending ones unless all slots are taken, in which case it is refused |
| DeleteRing.DeleteQueue.Dequeue | src/integrity_zone/include/delete_queue.hpp:24-33 | the returned RID was the oldest committed one, has left the ring and is the last to have come out; without one nothing is committed and nothing changes; pending RIDs never leave |
| DeleteRing.AnswersComeOut | src/integrity_zone/include/delete_queue.hpp:24-33 | over every run, what came out is exactly what the dequeues answered |
| DeleteRing.DeleteQueue.SetReuse | src/integrity_zone/include/delete_queue.hpp:35-38 | the pending RIDs become committed behind the others, except that a full ring is emptied |
| DeleteRing.DeleteQueue.DiscardPending | src/integrity_zone/include/delete_queue.hpp:40-43 | the pending RIDs are dropped and the committed ones kept |
| DeleteRing.NothingIsLostIff | src/integrity_zone/extension.cpp:222-235 | after every run, what the dequeues answered followed by the RIDs still committed are exactly those of committed transactions, in order, if and only if no transaction committed with the ring full or after a refused enqueue |
| DeleteRing.FullRingIsForgotten | src/integrity_zone/include/delete_queue.hpp:35-38 | a transaction that enqueues all slots of an empty ring and commits leaves none of its RIDs in the ring; with one RID less all of them |
| DeleteRing.NothingIsLostWhileNeverFull | src/integrity_zone/include/delete_queue.hpp:13-43 | this holds in particular while the ring never fills up, and then the pending RIDs are those of the running transaction |
| DeleteRing.OnlyCommittedRidsComeOut | src/integrity_zone/include/delete_queue.hpp:24-43 | in every run, full ring or not, what the dequeues answered is a subsequence of what committed transactions enqueued |
| Like.SkipPercent | src/privacy_zone/tee.cpp:341-344 | a percent sign after another adds nothing to the meaning of the pattern |
| Like.SkipUnderscore | src/privacy_zone/tee.cpp:345-352 | an underscore after a percent sign costs exactly one character of text |
| Like.EmptyText | src/privacy_zone/tee.cpp:433-440 | on empty text exactly the patterns made of percent signs match |
| Like.MatchText | src/privacy_zone/tee.cpp:293-447 | for all texts and patterns the matcher returns true exactly when the declarative LIKE relation holds, and it ends |
| Like.MatchAfterPercent | src/privacy_zone/tee.cpp:322-400 | the percent branch with wildcard skipping and the first-character filter returns true exactly when some suffix of the text matches the rest of the pattern |
| Calendar.Jan1Closed | src/privacy_zone/tee.cpp:203-218 | the day number of 1 January defined year by year from the Gregorian leap rule has the usual closed form |
| Calendar.DayOfIsFloor | src/privacy_zone/tee.cpp:196-201 | the truncating division with its correction is the floor |
| Calendar.NoUnsignedWrap | src/privacy_zone/tee.cpp:208-218 | for every day let through, every value converted to unsigned int is within 32 bits, and the year is that of unbounded integers |
| Calendar.WithinCycle | src/privacy_zone/tee.cpp:209-217 | the two nested division tricks find the year within a 400-year cycle |
| Calendar.ExactYearIsRight | src/privacy_zone/tee.cpp:208-218 | for every Julian day the computed year contains it |
| Calendar.ExtractedYearContainsTheDay | src/privacy_zone/tee.cpp:189-219 | for every 64-bit timestamp the result is -1 exactly when its Julian day is negative, and otherwise the one Gregorian year that contains the day |
| Calendar.YearsBeginAtMidnight | src/privacy_zone/tee.cpp:185-219 | the first microsecond of every year in range gives that year and the one before it the year before |
| Aggregation.SumOfOne | src/privacy_zone/include/kv.hpp:143-154 | the sum of one RID is the value behind it, in the local or the persistent store |
| Aggregation.SumOfConcat | src/privacy_zone/tee.cpp:75-78 | the sum of two stretches is the sum of their sums |
| Aggregation.Worker.GetInt | src/privacy_zone/include/kv.hpp:143-154 | a known RID reads its local or persistent value |
| Aggregation.Worker.FreeLocalInt | src/privacy_zone/include/kv.hpp:196-200 | a local RID is freed, a persistent one left alone |
| Aggregation.Worker.FreeAll | src/privacy_zone/tee.cpp:83-84 | exactly the local inputs are freed |
| Aggregation.Worker.Total | src/privacy_zone/tee.cpp:73-78 | the sum of the values, with no intermediate outside 32 bits |
| Aggregation.Worker.SumBulk | src/privacy_zone/tee.cpp:71-88 | a fresh local RID holds the sum, every local input is freed and no other entry changes |
| Aggregation.ChunkSum | src/integrity_zone/int.cpp:424-434 | the partial sum and the rest of a chunk together sum to the array read so far |
| Aggregation.ChunkDoesNotOverflow | src/integrity_zone/int.cpp:424-434 | if no prefix of the array overflows, no prefix of a chunk does |
| Aggregation.ChunkFolds | src/integrity_zone/int.cpp:426-431 | replacing a chunk by its sum keeps total, freed entries and the rest of the store |
| Aggregation.SumChunk | src/integrity_zone/int.cpp:428-430 | one request for a chunk folds it |
| Aggregation.SumArray | src/integrity_zone/int.cpp:410-437 | for a non-empty array of any length the result is a local RID that holds the total; every local input and partial sum is freed and nothing else changes |
| Iv.ValueIsInjective | src/privacy_zone/crypto.cpp:58-68 | equally long vectors of equal big-endian value are equal |
| Iv.Increment | src/privacy_zone/crypto.cpp:58-68 | the carry loop is big-endian addition of 1 modulo 256 to the size, for any size |
| Iv.ValueOfKth | src/privacy_zone/crypto.cpp:89-98 | the k-th vector of a process is the first one plus k |
| Iv.VectorsNeverRepeat | src/privacy_zone/crypto.cpp:89-98 | up to 2^96 vectors of which each follows the one before are pairwise different |
| Iv.EncryptAll | src/privacy_zone/crypto.cpp:89-98 | the vectors that n encryptions of one process send along each follow the one before, and up to 2^96 of them are pairwise different |
| Rng.FirstValues | benchmark/tpch/dbgen/rnd.c:170-182 | from seed 1 the generator gives 16807, 282475249 and 1622650073 |
| Rng.IterateAdds | benchmark/tpch/dbgen/speed_seed.c:97-109 | skipping m and then n steps is skipping m + n |
| Rng.IterateIsPower | benchmark/tpch/dbgen/speed_seed.c:97-109 | n steps of the generator multiply by the n-th power of the multiplier |
| Rng.ProductFits | benchmark/tpch/dbgen/speed_seed.c:127-133 | no product exceeds 63 bits |
| Rng.SquareAndMultiply | benchmark/tpch/dbgen/speed_seed.c:127-133 | one round keeps the value still to be computed |
| Rng.NthElement | benchmark/tpch/dbgen/speed_seed.c:112-136 | for every seed below the modulus and every count the result is that many calls of the generator |
| Rng.FirstValues64 | benchmark/tpch/dbgen/rng64.c:93-101 | from seed 1 the 64-bit generator gives 6364136223846793006 and then, past 2^64, 13885033948157127959 |
| Rng.Iterate64Closed | benchmark/tpch/dbgen/rng64.c:113-119 | n steps of the 64-bit generator are one multiplication and one addition modulo 2^64 |
| Rng.GeometricAdds | benchmark/tpch/dbgen/rng64.c:121-124 | the additive parts of two skips combine |
| Rng.AdvanceRand64 | benchmark/tpch/dbgen/rng64.c:103-140 | for every seed and count the result is that many calls of the 64-bit generator |
| Dbgen.Seeds.AdvanceStream | benchmark/tpch/dbgen/speed_seed.c:70-83 | one stream moves by so many calls and no other stream moves |
| Dbgen.Seeds.SdPart | benchmark/tpch/dbgen/speed_seed.c:159-171 | each stream moves by its calls per part row times the rows, and no other |
| Dbgen.Seeds.SdLine | benchmark/tpch/dbgen/speed_seed.c:173-198 | likewise for the lines of an order; for a line table also the two streams shared with the order |
| Dbgen.Seeds.SdOrder | benchmark/tpch/dbgen/speed_seed.c:200-217 | likewise for an order |
| Dbgen.Seeds.SdPSupp | benchmark/tpch/dbgen/speed_seed.c:219-232 | likewise for the suppliers of a part |
| Dbgen.Seeds.SdCust | benchmark/tpch/dbgen/speed_seed.c:234-245 | likewise for a customer |
| Dbgen.Seeds.SdSupp | benchmark/tpch/dbgen/speed_seed.c:247-261 | likewise for a supplier |
| Dbgen.Seeds.SetState | benchmark/tpch/dbgen/bm_utils.c:557-586 | every stream of the table and of its child moves over the rows of all earlier chunks; past the last chunk also over the leftover rows; a zero scale or step moves nothing |
| Chunks.DrawsFit | benchmark/tpch/dbgen/build.c:101-357 | however many lines, returns and address characters are drawn, a row draws from a rounded stream no more than its boundary, the boundary is what the skip functions count, and the streams shared with the order are drawn from exactly so often |
| Chunks.DrawnIsTracked | benchmark/tpch/dbgen/build.c:101-357 | every stream that a customer, supplier, part or order row draws from is one that the chunk law accounts for |
| Chunks.PrintedIsTracked | benchmark/tpch/dbgen/build.c:195-310 | for part suppliers these are streams 7 to 9, for line items 13 to 25 and 43 |
| Chunks.BoundaryIsTight | benchmark/tpch/dbgen/rnd.h:58-108 | a row with seven returned lines and a longest address draws from every accounted stream exactly its boundary, but for O_SUPP_SD, which no row draws from |
| Chunks.SkippedIffTracked | benchmark/tpch/dbgen/rnd.h:58-108 | a stream that is rounded up is skipped by its boundary if and only if it is neither the text pool's nor HVAR |
| Chunks.PoolKeepsSkip | benchmark/tpch/dbgen/speed_seed.c:159-261 | no skip function moves the text pool's stream, so a process builds the same pool after skipping |
| Chunks.OtherTablesKeep | benchmark/tpch/dbgen/rnd.h:58-108 | generating or skipping a table touches no stream that a table of another family is made from |
| Chunks.RowAdvances | benchmark/tpch/dbgen/rnd.c:115-144 | a row, rounded up, moves each stream it is made from by exactly the skipped number of calls |
| Chunks.RowsAt | benchmark/tpch/dbgen/driver.c:283-373 | row k of a run is made from the streams advanced by k rows and from the pool of its process, whatever the earlier rows drew |
| Chunks.ChunkIsSlice | benchmark/tpch/dbgen/driver.c:420-445 | skipping over the earlier rows and then generating, with the same pool, gives exactly the slice of the whole table |
| Chunks.TextPool.constructor | benchmark/tpch/dbgen/text.c:295-296 | a process starts without a pool |
| Chunks.TextPool.Preload | benchmark/tpch/dbgen/text.c:299-336 | the first comment builds the pool from where its stream stands then, and every later one uses that pool |
| Chunks.RowStop | benchmark/tpch/dbgen/rnd.c:115-144 | the streams of the table and of its child are rounded up to their boundaries, overdrawn ones and all others stay |
| Chunks.GenTbl | benchmark/tpch/dbgen/driver.c:303-371 | the row loop produces the rows in order, keeps the pool that the next row will use and leaves the streams of other table families alone |
| Chunks.ChunkBounds | benchmark/tpch/dbgen/driver.c:434-439 | chunks are of equal size, the last one takes the remainder, and none reaches past the table |
| Chunks.Partial | benchmark/tpch/dbgen/driver.c:420-445 | a chunk generated by itself is exactly its slice of the table generated in one go, and other table families can follow in the same process |
| Chunks.Load | benchmark/tpch/dbgen/driver.c:776-795 | a process that generates several tables, in chunks or not, writes for each exactly its chunk of the table that a fresh process would generate in one go |
| Chunks.FirstChunksAre | benchmark/tpch/dbgen/driver.c:434-439 | the first chunks of a table put together are a prefix of it, and all of them are the table |
| Chunks.Chunked | benchmark/tpch/dbgen/driver.c:776-795 | for any number of chunk processes, the chunks of each table put together are exactly the file of one serial process, in order |

## Left out

- AES-GCM and the mbedtls calls: a cipher is an abstract pair in which opening undoes sealing and sealing adds 28 bytes.
- Memory mapping, file locks, fork, signals, CPU pinning and the shutdown status: operating-system plumbing; fetch-and-add and compare-and-swap are atomic steps.
- Weak memory: accesses are sequentially consistent, as the barriers intend.
- Failing checks: a failed `KVDB_CHECK` ends the process; the models show it as a refused or failed result and do not go on from there.
- Time limits: the ten-second limit of the claim loop is a client that leaves; the time limits of the patch's RPC helpers, which end in PANIC, are left out.
- Progress: nothing is said about fairness or starvation of the worker scan.
- Checkpoint flushing and the file-based log: `CMD_CKPT`, `appendBatch`, `flush`, `truncate` and `replay` of wal.hpp.
- The stores of fixed-size values: they appear as maps in `WalCodec`, `Promotion` and `Aggregation`; only the text store is modelled down to its bytes.
- `replace` of the local store, which no request reaches, and the specialised local store for strings.
- Reuse of deleted RIDs by promotion: compiled out with `USE_KVMAP_PARTITION`; so are the delete requests of the triggers.
- Durability.AppendKeeps: a tuple is taken to hold promoted RIDs only, which is what the trigger establishes; a RID that was never promoted stops the server.
- Durability: one crash; the store written after recovery starts a new run.
- Session: the text, float and timestamp stores behave like the one modelled.
- Promotion.RunTrigger: both branches are one method, because a dropped column has no type and the insert branch then skips it as well; the capacity of a partition is a precondition.
- Aggregation.SumArray: an empty array (the source reads an unset value) and null elements are left out; so are 32-bit overflow, which C leaves undefined, a local store of 2^48 entries, and the other aggregates.
- Growth of the pending array in the patch: a sequence stands for it.
- WalBatches.Backend.AppendTuple: beyond 4096 items it promises the first 4096 only; a heap relation of PostgreSQL has at most 1600 columns, so no tuple has that many.
- Chunks.Partial: a scale of zero, for which the source uses an unset row count, and a step past the last chunk, which generates rows behind the end of the table.
- Chunks.Chunked: the text of a row is any function of the streams its table uses and of the text pool, and the pool any function of where its stream stands when it is built; how often a row draws is modelled exactly, with 92 colours, at most 7 lines and addresses of at most 40 characters. The NATION and REGION tables, which are never chunked, are left out.
- The 64-bit draws of `mk_order` for scales of 30000 and more, update sets, and `set_seeds` runs of dbgen.
- `julian`, `unjulian` and `bcd2.c` of dbgen, the query generator, the benchmark runners and the kernel drivers.
- Floating-point operators, `pow`, text parsing and the PostgreSQL wrappers: library calls or one line each.
