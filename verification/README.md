# A verified model of the SAO storage node

The node keeps its orders, shards, migrations and expiry records as CBOR bytes in one datastore, works on them through a
queue with retries (the gateway also under named locks), follows the chain with a timeout map, sweeps expired shards,
receives files in chunks, leases transaction addresses from a pool and caches models in an LRU list. This project models
that logic in Dafny and proves what it does over all inputs, all runs and all interleavings.

| file | models |
|---|---|
| `Basics.dfy` | bytes, 64-bit integers, optional values |
| `Cbor.dfy` | CBOR heads, text strings and CIDs (section 3 of RFC 8949) |
| `KeyOrder.dfy`, `Codec.dfy` | the generated struct codec, as a function of a list of named and typed fields |
| `Records.dfy` | the persisted records, their fields and their index lists |
| `Wire.dfy`, `Limits.dfy` | the stored bytes in numbers, and the limits of every field |
| `Keys.dfy` | datastore keys |
| `JobTables.dfy`, `JobHistory.dfy` | the store as independent typed tables, and what a run of operations leaves in them |
| `JobAnswers.dfy` | what every operation answers, by the fields of the records |
| `JobIndex.dfy` | what a caller may rely on of the index lists |
| `IndexRace.dfy` | first saves that overlap |
| `JobStore.dfy` | the store as bytes, refining the tables |
| `ExpireSweep.dfy` | the sweep of expired shards |
| `Maplock.dfy` | the named lock |
| `LruCache.dfy` | the LRU cache, as linked nodes on the heap |
| `ShardTask.dfy`, `OrderTask.dfy` | the processing of one shard task and of one order |
| `Scheduler.dfy` | queue, scheduler and workers |
| `TimeoutWheel.dfy` | the timeout map |
| `ChunkUpload.dfy` | the chunked upload, client and server |
| `AddressPool.dfy` | the pool of transaction addresses and its callers |
| `MetaCommit.dfy` | commit strings |

Conventions. A Go string and a byte slice are sequences of bytes; a CID is an opaque byte string, empty when undefined.
The four Save functions, the four Get functions and the index functions differ only in the record they handle, so each is
modelled once, for a sum type of records; likewise MarshalCBOR and UnmarshalCBOR are modelled once, for every list of
fields. What the CBOR and CID libraries decide (length limits, whether over-long heads are refused, how an unknown field is
skipped, which byte strings are CIDs, how a CID is printed) is a parameter, `Cbor.Lib`. Every datastore, chain, peer, file
and network call is allowed to fail. Locks, workers, the timeout map and the address pool are state machines over their
atomic steps; the sweep of the timeout map and the queue with its workers are in addition classes whose history is a run of
their state machine. The rest is imperative where the code is.

Where a promise turns out not to hold, the model keeps the code and states exactly when it does hold:

- Without slashes in data ids and addresses, two records or index lists share a datastore key in exactly three families of
  cases (`Keys.StoreKeysCollideExactly`); an order with the data id `index` overwrites the order index
  (`Keys.IndexOrderClash`). With slashes, keys that differ only in what path cleaning drops are the same as well
  (`Keys.NewKeyCollidesExactly`, `Keys.DotsVanish`, `Keys.SlashClash`). UUID data ids rule all of them out, and the store behaves as typed tables
  for every family of names that are kept apart (`JobStore.Store.RunAll`, `JobStore.SharedKeyConfuses`).
- A first save that stores its record and then cannot extend the index list leaves a record that no later save will ever list
  (`JobHistory.IndexCompleteExactly`, `JobHistory.NeverRelisted`). Without failures that happens exactly to the keys beyond
  the library's length limit (`JobIndex.UntroubledIndex`, `JobIndex.FullIndexLosesKey`).
- A CID of 512 bytes or more can be written but not read back (`Records.JobRoundTrip`). A shard with such a CID takes the
  whole shard index with it, for good (`JobIndex.OversizedShardListed`, `JobIndex.UnreadableKeyFreezes`).
- First saves that overlap can lose a key, exactly if one writes the list after another has written it since it was read
  (`IndexRace.EntryLostExactly`, `IndexRace.TwoSavesLoseOne`).
- The removal of an expiry id is final exactly if the id has a record when it is removed (`JobIndex.RemovalFinalExactly`).
- The sweep compares the texts of CIDs but removes by CID, so it removes content that the chain still needs exactly if an
  off-chain record names it by another text (`ExpireSweep.ChainContentAskedExactly`,
  `ExpireSweep.PathTextRemovesChainContent`).
- The LRU cache loses its head when its only node is unlinked, by an eviction or with capacity one; once it is full after
  that, it outgrows its capacity (`LruCache.LruCache.PutValue`, `LruCache.LruCache.EvictKey`,
  `LruCache.CapacityOneOverflows`, `LruCache.EvictionOverflows`).
- An order put into the timeout map at or behind the cursor is never examined (`TimeoutWheel.ExaminedOnceIfOnTime`), and its
  list stays in the map for good, as does the last list of every round (`TimeoutWheel.SlotsExactly`). That
  includes an order committed while the chain could not be asked, which is filed under height 0. An order restored while the
  chain could not be asked wraps around (`TimeoutWheel.RestoredKeyBounds`).
- An upload whose length is a multiple of the chunk size, or zero, fails (`ChunkUpload.DoTransport`), and a failed file
  operation leaves its chunk recorded without its file (`ChunkUpload.Server.Upload`).
- A gateway that answers with content of another CID, and a renewal of missing content, make the storage node
  dereference a nil error; the model ends the run there, and says exactly when it happens (`ShardTask.LifePanicsExactly`).
- The largest 64-bit number of tries wraps around and gets one call more than the retry bound (`ShardTask.TriesWrapAround`).
- A sender that is leased its own address out of the pool never gives it back, and it stays in use for good
  (`AddressPool.OwnAddressLeaks`, `AddressPool.LeakedForGood`).

## Model

| member | source | states |
|---|---|---|
| Cbor.HeadRoundTrip | types/cbor_gen.go:867-883 | a data item head of any major type and 64-bit argument, followed by anything, reads back and leaves what follows, whether or not the reader insists on shortest heads |
| Cbor.HeadCanonical | types/cbor_gen.go:1182-1205 | every head that is read is in range, and with shortest heads required the input was exactly what the writer writes |
| Cbor.TextRoundTrip | types/cbor_gen.go:882-892 | a text string reads back, followed by anything, if and only if it is within the reader's limit |
| Cbor.CidRoundTrip | types/cbor_gen.go:929-931 | a defined CID reads back if and only if it is a CID of at most 511 bytes |
| KeyOrder.SortedUnique | types/cbor_gen.go:1061-1065 | the sorted list of keys depends only on the set of keys |
| KeyOrder.LessExactly | types/cbor_gen.go:1061-1065 | a key comes before another exactly if it is a proper prefix of it, or smaller at the first byte that differs |
| Codec.CollectSortedKeys | types/cbor_gen.go:1061-1065 | collecting the keys of a map in any order and sorting them gives the one sorted list of its keys |
| Codec.Marshal | types/cbor_gen.go:859-1180 | writes exactly the encoding of the struct, or reports an error exactly when a limit is exceeded |
| Codec.MarshalEntries | types/cbor_gen.go:1052-1085 | writes a map in sorted key order whatever the iteration order, and refuses more than 4096 entries or too long a key |
| Codec.MarshalItems | types/cbor_gen.go:506-517 | writes an index list of at most the limit, and refuses a longer one |
| Codec.Unmarshal | types/cbor_gen.go:1182-1461 | the field loop computes the decoding: fields in any order, unknown ones passed over, errors as soon as they occur |
| Codec.UnmarshalEntries | types/cbor_gen.go:1330-1370 | the map loop computes the decoding of a map |
| Codec.UnmarshalItems | types/cbor_gen.go:560-587 | the list loop computes the decoding of an index list of any length |
| Codec.UnmarshalField | types/cbor_gen.go:548-592 | one field is decoded and assigned by its name; an unknown name changes nothing, and a list of length zero leaves the field as it was |
| Codec.ValueRoundTrip | types/cbor_gen.go:1220-1455 | a field value of any kind, nested structs included, reads back exactly and consumes exactly its encoding, if and only if it is readable |
| Codec.EntriesRoundTrip | types/cbor_gen.go:1345-1369 | the entries of a map decode to the same map in every order of keys |
| Codec.PermutedRoundTrip | types/cbor_gen.go:1208-1458 | every reordering of a struct's fields, followed by anything, decodes to the same struct, if and only if it is readable |
| Codec.StructRoundTrip | types/cbor_gen.go:597-858 | decoding an encoding followed by anything gives the struct back and consumes exactly the encoding, if and only if it is readable |
| Codec.PrefixFree | types/cbor_gen.go:859-1461 | no encoding is a proper prefix of another, and equal encodings come from equal structs |
| Codec.UnknownFieldIgnored | types/cbor_gen.go:1453-1456 | an unknown field changes nothing, provided that the library passes over its value |
| Codec.EmptyListKeepsField | types/cbor_gen.go:560-587 | a list field that arrives with length zero leaves what was decoded before |
| Codec.LaterFieldWins | types/cbor_gen.go:1208-1458 | of two values for one field, the later one counts |
| Codec.LaterEntryWins | types/cbor_gen.go:1345-1369 | of two entries of a map under one key, the later one counts |
| Wire.HeadIsWritten | types/cbor_gen.go:875-883 | every head is written as section 3 of RFC 8949 lays it out, byte for byte, in all five widths |
| Wire.TextIsWritten | types/cbor_gen.go:875-892 | a text is written as a head of major type 3 and its bytes; a short one starts with 0x60 plus its length |
| Wire.ScalarIsWritten | types/cbor_gen.go:922-975 | integers are of major type 0 or 1, texts of major type 3, and a CID is D8 2A, a byte string head and a zero byte before its bytes |
| Wire.ShardMapIsWritten | types/cbor_gen.go:1052-1085 | the shards of an order are written as a head of major type 5 and their six fields each, in the bytewise order of their keys |
| Wire.OrderIsWritten | types/cbor_gen.go:859-1180 | an order is written as the byte 174 and its fourteen names and values, in this order |
| Wire.ShardIsWritten | types/cbor_gen.go:1584-1897 | a shard is written as the byte 175 and its fifteen names and values, in this order |
| Wire.MigrateIsWritten | types/cbor_gen.go:2407-2640 | a migration is written as the byte 170 and its ten names and values, in this order |
| Wire.ExpireIsWritten | types/cbor_gen.go:229-300 | an expiry record is written as the byte 163 and its three names and values, in this order |
| Wire.FirstBytes | types/cbor_gen.go:867 | the first byte of an order is 174, of a shard 175, of a migration 170 and of an expiry record 163 |
| Wire.WholeRecord | types/cbor_gen.go:229-300 | one expiry record, byte for byte |
| Wire.IndexIsWritten | types/cbor_gen.go:482-517 | an index list is written as one field, Alls or All, with a head of major type 4 and its keys, field by field |
| Wire.ScalarCanonical | types/cbor_gen.go:1220-1455 | a reader that insists on shortest heads accepts for a number, a text or a CID only what the writer writes, within the limits |
| Limits.LimitsExactly | types/cbor_gen.go:885-1085 | a record is written exactly if its texts are within the limit, its CID is defined and it has at most 4096 shards, and read back exactly if its texts are within the limit of the reader and its CID has at most 511 bytes |
| Limits.ZeroIsEmptyMap | types/cbor_gen.go:1182-1205 | the empty map decodes to the record whose fields are all zero |
| Records.JobRoundTrip | types/cbor_gen.go:859-1461 | every order (with its map of shards and negative heights), shard, migration and expiry record decodes from its bytes followed by anything, if and only if it is readable |
| Records.JobFieldOrder | types/cbor_gen.go:1899-2161 | a record decodes from its fields in any order |
| Records.JobPrefixFree | types/cbor_gen.go:2407-2829 | the bytes of the records of a table are prefix-free and determine the record |
| Records.IndexRoundTrip | types/cbor_gen.go:482-596 | an index list within the limit decodes to the same keys in the same order, if and only if all of its keys are readable |
| Records.KeyReadableExactly | types/cbor_gen.go:560-587 | a key that was written can be read back, unless it is that of a shard with an oversized or malformed CID |
| Keys.StringsCollideExactly | utils/state_utils.go:15-24 | two records or index lists share a printf key exactly when they are the same or one of three named pairs |
| Keys.StoreKeysCollideExactly | utils/state_utils.go:15-24 | without slashes, two records or index lists share a datastore key exactly when they are the same or one of three named pairs |
| Keys.NewKeyCollidesExactly | utils/state_utils.go:185-187 | two strings have the same datastore key exactly when path cleaning leaves the same parts of both |
| Keys.SlashClash | utils/state_utils.go:185-187 | data ids that differ in a doubled slash share a datastore key, though their printf strings differ |
| Keys.DotsVanish | utils/state_utils.go:185-187 | a dot between slashes vanishes from a key, two dots take the part before them away, and anything else stays |
| Keys.IndexKeysSpelt | utils/state_utils.go:15-24 | the datastore keys of the four index lists as they are spelt |
| Keys.RecordKeysSpelt | utils/state_utils.go:15-24 | the datastore keys of the four kinds of record as they are spelt |
| Keys.StoreKeysInjective | utils/state_utils.go:185-187 | with UUID data ids and slash-free addresses, cleaned keys are equal exactly for the same record or index list |
| Keys.IndexOrderClash | utils/state_utils.go:16-17 | an order with the data id "index" has the key of the order index |
| JobStore.WellNamedInjective | utils/state_utils.go:15-24 | with UUID data ids and slash-free addresses every slot has a datastore key of its own |
| JobStore.SlashFreeInjective | utils/state_utils.go:15-24 | a slash-free family of slots is kept apart exactly if it holds no clashing pair |
| JobStore.SharedKeyConfuses | utils/state_utils.go:15-24 | if two slots share a key, no bytes stand for tables that fill only one of them |
| JobStore.PutRepresents | utils/state_utils.go:205-208 | writing one slot leaves the bytes of every other slot to stand for what they stood for |
| JobStore.CutFirst | utils/state_utils.go:139-144 | the removal loop cuts exactly the first entry with the id |
| JobStore.Store.Save | utils/state_utils.go:192-217 | on the bytes, a save of any record, readable or not, does what it does on the typed tables, under every combination of failures |
| JobStore.Store.Get | utils/state_utils.go:222-243 | a read answers from the typed tables: the record, the zero record, or an error if a call fails or the record cannot be read back |
| JobStore.Store.AddIndex | utils/state_utils.go:248-277 | the key is appended to the index list of its table and nowhere else, or nothing changes |
| JobStore.Store.GetIndex | utils/state_utils.go:282-300 | the index list is that of the typed tables, empty if it was never written, and an error if a key in it cannot be read back |
| JobStore.Store.RemoveExpire | utils/state_utils.go:121-156 | removes the id from the expiry index and keeps its record, or nothing changes |
| JobStore.Store.List | node/gateway/gateway_service.go:881-896 | lists the stored record of every index entry, in index order, or reports an error exactly when the index or one of the records could not be read |
| JobStore.Store.RunAll | utils/state_utils.go:33-546 | every sequence of saves, reads, index reads and removals on the one byte store, over any family of slots with keys of their own, gives the answers of independent typed tables |
| JobHistory.LastWriteWins | utils/state_utils.go:185-243 | after every run, a read returns the last record that was stored under its key (an error if that cannot be read back), or the zero record |
| JobAnswers.GetOrderAnswers | utils/state_utils.go:222-243 | after every run, GetOrder answers with the last order stored with its data id, with the zero order if there is none, or with an error |
| JobAnswers.GetShardAnswers | utils/state_utils.go:459-480 | after every run, GetShard answers with the last shard stored with its order id and CID |
| JobAnswers.GetMigrateAnswers | utils/state_utils.go:334-355 | after every run, GetMigrate answers with the last migration stored with its data id and the provider it leaves |
| JobAnswers.GetExpireAnswers | utils/state_utils.go:66-88 | after every run, GetShardExpire answers with the last expiry record stored for its shard |
| JobAnswers.SaveAnswers | utils/state_utils.go:192-217 | a save reports success exactly if its record is stored and, for a key without a record, its key could be appended to the index list |
| JobAnswers.IndexAnswers | utils/state_utils.go:282-300 | an index read answers with the listed keys, and fails exactly if a call fails or a key in it cannot be read back |
| JobAnswers.RemoveAnswers | utils/state_utils.go:121-156 | a removal reports success exactly if the list can be read and written, whether or not it held the id |
| JobAnswers.ListedByFields | utils/state_utils.go:309-395 | an index list names only keys that some stored record has in its fields |
| JobHistory.IndexIsFirstSaveOrder | utils/state_utils.go:192-277 | after every run, an index list is the order of first saves less exactly the keys whose first save met a failing call, a full list or an unreadable one, and the removed ids |
| JobHistory.IndexCompleteExactly | utils/state_utils.go:309-395 | an index list has no repetition, and names every stored key of its table, in first-save order, exactly when no key of the table met one of these |
| JobHistory.NeverRelisted | utils/state_utils.go:57-62 | a stored key that is missing from its index list stays missing for good |
| JobIndex.UntroubledIndex | utils/state_utils.go:430-523 | without index failures, unreadable keys and removals, an index list is the first-save order cut at the length limit, so it is complete exactly if no more keys than that were stored |
| JobIndex.FullIndexLosesKey | utils/state_utils.go:33-64 | the save after the limit is reached stores its record, reports an error and is not listed |
| JobIndex.OversizedShardListed | utils/state_utils.go:430-523 | a shard with a CID of 512 bytes or more is saved and listed without an error, and then the shard index cannot be read |
| JobIndex.UnreadableKeyFreezes | utils/state_utils.go:485-546 | from then on no run changes the list or reads it |
| JobIndex.RemovedStaysRemoved | utils/state_utils.go:121-156 | an id that had a record when it was removed is off the list after every run that follows, and every listed id has a record |
| JobIndex.RemovalFinalExactly | utils/state_utils.go:121-156 | a removal is final, whatever follows, exactly if the id has a record when it is removed |
| IndexRace.EntryLostExactly | utils/state_utils.go:485-523 | in every interleaving of any number of first saves, a written key is missing from the list exactly if some saver wrote after another had written since it read; otherwise the list is in the order of the writes |
| IndexRace.TwoSavesLoseOne | utils/state_utils.go:485-523 | two first saves that both read before either writes leave one key |
| ExpireSweep.ProcessExpire | node/storage/storage_service.go:117-190 | the expiry index ends as it was less exactly the cleared entries, exactly the local shards of cleared entries that can be read and saved are marked as expired, and exactly the contents of the off-chain entries whose text is on no shard of the chain are handed over for removal |
| ExpireSweep.SweepEntry | node/storage/storage_service.go:143-187 | one entry leaves the index exactly when it is off the chain and its record, its content and the index could be handled, and its content is handed over exactly when its record could be read and its text is off the chain and parses |
| ExpireSweep.SweepLeavesOnChain | node/storage/storage_service.go:143-187 | every on-chain id stays whatever fails, and if nothing fails exactly the off-chain ids are dropped |
| ExpireSweep.EntryStaysExactly | node/storage/storage_service.go:143-173 | an entry stays in the index exactly if its id is on the chain, its record could not be read, its content was to be removed and could not be, or the index could not be read or written |
| ExpireSweep.ClearedShardExpires | node/storage/storage_service.go:174-187 | the local shard of a cleared entry ends with the state 5, if it can be read and saved |
| ExpireSweep.ChainContentAskedExactly | node/storage/storage_service.go:150-164 | the content of a shard on the chain is handed over for removal exactly when an off-chain record names its CID by a text that no shard on the chain has |
| ExpireSweep.OneTextSparesChain | node/storage/storage_service.go:150-164 | it is never handed over if the records use the text of the chain |
| ExpireSweep.PathTextRemovesChainContent | node/storage/storage_service.go:150-164 | a record with the path form of a CID removes the content of a shard on the chain |
| Maplock.StepKeepsInv | utils/maplock.go:59-99 | every atomic step of every thread keeps the lock's invariant |
| Maplock.MutualExclusion | utils/maplock.go:59-99 | in every run of any number of threads, two threads never own the same name, even when its entry is deleted and created anew |
| Maplock.OwnsWhatItAsked | utils/maplock.go:59-81 | in every run, the name that a thread waits for, owns or releases is the one it last called Lock with |
| Maplock.TableIsExact | utils/maplock.go:66-96 | an entry exists exactly while a thread uses its name, and the owner's Unlock finds it |
| Maplock.CountIsExact | utils/maplock.go:26-34 | the count of waiters is the number of threads between inc and dec |
| Maplock.NoDeadlock | utils/maplock.go:59-99 | while a thread is inside a call, some thread inside a call can go on, unless it waits for a name whose owner is outside |
| Maplock.UnheldCanBeAcquired | utils/maplock.go:78-81 | a thread that waits for a name nobody owns can acquire it |
| LruCache.LruCache.AddNode | node/cache/lru_cache.go:62-72 | appends a node to the linked list |
| LruCache.LruCache.RemoveNode | node/cache/lru_cache.go:74-84 | cuts a node out of a list of at least two, and otherwise leaves head in place |
| LruCache.LruCache.RefreshNode | node/cache/lru_cache.go:86-92 | moves a node to the recent end |
| LruCache.LruCache.Get | node/cache/lru_cache.go:94-105 | answers as the recency list and makes the key the most recent |
| LruCache.LruCache.PutValue | node/cache/lru_cache.go:107-130 | refines the put of the recency list exactly when it does not unlink the only node, and otherwise leaves a stale head |
| LruCache.LruCache.PutStale | node/cache/lru_cache.go:110-118 | with a stale head a put drops nothing, so a full cache becomes larger than its capacity; until it is full the head stays stale |
| LruCache.LruCache.EvictKey | node/cache/lru_cache.go:132-142 | refines the eviction of the recency list exactly when it does not unlink the only node, and otherwise leaves the head on the evicted key |
| LruCache.RunCache | node/cache/lru_cache.go:94-150 | in every run that never unlinks the only node, list and map behave as the recency list, and every get answers with the value last put as long as the key survives |
| LruCache.RunFollows | node/cache/lru_cache.go:94-142 | in every run, a key is in the cache exactly if it was used and not evicted since, and never were as many other keys used since as the cache holds; and it has the value last put |
| LruCache.AnswersAsItMust | node/cache/lru_cache.go:94-105 | a get answers with the value last put exactly if the key is still in the cache by that law |
| LruCache.OldestFirst | node/cache/lru_cache.go:107-130 | the recency list is ordered by last use, so a full put drops the least recently used key, and it never outgrows a positive capacity |
| LruCache.CapacityOneOverflows | node/cache/lru_cache.go:107-130 | with capacity one, three puts leave two entries |
| LruCache.EvictionOverflows | node/cache/lru_cache.go:107-142 | with any positive capacity, after the eviction of the only key one new key more than the capacity makes the cache larger than it |
| ShardTask.Task.ProcessOnce | node/storage/storage_service.go:761-888 | the assignments to the task compute its next state, the verdict and what others see |
| ShardTask.LifeSound | node/storage/storage_service.go:761-888 | under every sequence of answers, a task completes its order at most once, only with content of its CID in store, notices carry that completion's hash and height, and it is never left in TxSent |
| ShardTask.CompletesExactly | node/storage/storage_service.go:794-875 | a call completes the order exactly if a try is left, the task is not expired, the peer is known, content is in store or obtained and the transaction succeeds; task, completion and notice then carry what the chain answered |
| ShardTask.LifeCompletesExactly | node/storage/storage_service.go:761-888 | over every life, the order is completed with a hash and a height exactly if some call completes it, after calls that only put the task back, and the chain answered that call with them; the task keeps them |
| ShardTask.PutBackExactly | node/storage/storage_service.go:768-850 | a task is put back exactly if a try is left and the call neither completes, nor finds it expired, nor runs into a nil error; content that was obtained makes it Stored |
| ShardTask.TerminatesExactly | node/storage/storage_service.go:764-792 | a task is left Terminated exactly if it was, has no try left, or is expired; every other call uses a try |
| ShardTask.SizeIsContent | node/storage/storage_service.go:820-826 | a call that stores content records its length, and nothing else changes the size |
| ShardTask.OnlyNotices | node/storage/storage_service.go:868-888 | a task past its transaction is only noticed again, with the hash and height it holds |
| ShardTask.ErrorsRecorded | node/storage/storage_service.go:768-880 | the last error of a task is replaced exactly by the errors that are recorded |
| ShardTask.RetryUsesTry | node/storage/storage_service.go:768-776 | a task goes back to the queue only with one more try used and one left |
| ShardTask.CallsBounded | node/storage/storage_service.go:738-776 | a task with t tries is processed at most max(1, MAX_RETRIES - t) times, and at most MAX_RETRIES + 1 times if t wraps around |
| ShardTask.TriesWrapAround | node/storage/storage_service.go:768-770 | the largest 64-bit number of tries wraps around and gets four calls |
| ShardTask.PanicsExactly | node/storage/storage_service.go:806-832 | a call ends in a nil dereference exactly if the task is Validated with a try left and not expired, its peer is known, and the content has another CID or, for a renewal, is missing |
| ShardTask.LifePanicsExactly | node/storage/storage_service.go:761-832 | over every life of a task this happens exactly if, after answers that only stall it, such an answer comes while a try is left |
| ShardTask.RetryInterval | utils/state_utils.go:553-559 | the retry interval is 3 to the power of the tries in seconds, on 64 bits, and exactly that for up to 20 tries |
| OrderTask.AssignShards | node/gateway/gateway_service.go:636-662 | asks each node whose shard is not completed exactly once, in any order |
| OrderTask.Order.ProcessOnce | node/gateway/gateway_service.go:584-681 | the assignments to the order compute its next state and verdict, and say when its shards are assigned |
| OrderTask.AsksExactly | node/gateway/gateway_service.go:584-670 | a call asks the nodes exactly if the order is neither complete, terminated nor expired, has a try left, and the chain says so where it matters; it is put back exactly if the height cannot be had or the order cannot be saved |
| OrderTask.OrderAfter | node/gateway/gateway_service.go:584-632 | only state, tries, retry time and last error of an order ever change, and how |
| OrderTask.OrderLife | node/gateway/gateway_service.go:584-681 | over every life of an order its stored shards stay unchanged and it is processed at most max(1, MAX_RETRIES - t) times, or MAX_RETRIES + 1 times if t wraps around |
| Scheduler.RequestQueue.Push | node/queue/request_queue.go:27-33 | the request is the last one pushed, and what was pushed is still what was popped followed by what waits |
| Scheduler.RequestQueue.PopFront | node/queue/request_queue.go:35-45 | the n-th pop takes the n-th request that was pushed, and nothing exactly if all have been popped |
| Scheduler.ServicesCountTries | node/gateway/gateway_service.go:597-612 | both services put a task back only with one more try used and one left |
| Scheduler.OnePlace | node/storage/storage_service.go:726-758 | in every interleaving, a request is in exactly one of the queue, one worker or the finished ones |
| Scheduler.WindowAndOrder | node/gateway/gateway_service.go:177-210 | at most WINDOW_SIZE workers exist and pops follow pushes |
| Scheduler.CallsBounded | node/storage/storage_service.go:738-757 | in every interleaving, a request is handed to process at most max(1, MAX_RETRIES - t) times, or MAX_RETRIES + 1 times if t wraps around |
| Scheduler.ProcessEffect | node/storage/storage_service.go:751-755 | in every run, a processed request is pushed again exactly if the service asks for a retry, and finished otherwise |
| Scheduler.TooEarlyEffect | node/storage/storage_service.go:747-750 | in every run, a request whose time has not come is pushed again as it is |
| Scheduler.WorkShop.Work | node/storage/storage_service.go:738-757 | a worker takes the oldest request, puts it back untouched if it is early, and processes it otherwise |
| Scheduler.WorkShop.Submit | node/storage/storage_service.go:715 | a push by a producer is one step of the state machine |
| Scheduler.WorkShop.Take | node/storage/storage_service.go:743-746 | the pop of a worker is one step of the state machine |
| Scheduler.WorkShop.ProcessTask | node/storage/storage_service.go:751-755 | processing a request and pushing it back on an error is one step of the state machine |
| Scheduler.WorkShop.Turn | node/gateway/gateway_service.go:177-210 | a turn of the scheduler, with its workers one after the other, continues a run of the state machine and pops exactly the requests that waited at its start |
| TimeoutWheel.StepKeepsInv | node/gateway/gateway_service.go:970-1035 | every step of the sweep and every insertion keeps the invariant that what was examined is exactly the schedule |
| TimeoutWheel.HeightsInOrder | node/gateway/gateway_service.go:970-1035 | the cursor visits every height once, in order and without gaps |
| TimeoutWheel.ExaminedOnceIfOnTime | node/gateway/gateway_service.go:980-990 | once the sweep is past its key, an insertion was examined exactly once if it was ahead of the cursor, and never otherwise, always at its key |
| TimeoutWheel.OpenRenewedOnce | node/gateway/gateway_service.go:1014-1023 | the re-queued orders and the renewed insertions are exactly those that the chain said to be open when they were asked about, in order |
| TimeoutWheel.ExamineEffect | node/gateway/gateway_service.go:985-1023 | an open order is pushed to the queue and filed under its expiry plus the timeout, on 64 bits; otherwise nothing is added |
| TimeoutWheel.InsertEffect | node/gateway/gateway_service.go:791-799 | a commit is filed under its key, behind those that are there |
| TimeoutWheel.SlotsExactly | node/gateway/gateway_service.go:1026-1034 | in every run, the list under a key holds the insertions under it in order; a list that the cursor left in the middle of a round was deleted and holds only what came too late |
| TimeoutWheel.RenewalOnTime | node/gateway/gateway_service.go:1015-1022 | in every run, a renewal is of an earlier insertion of the same order, and on time exactly when its key is later than that one's |
| TimeoutWheel.RenewalsLater | node/gateway/gateway_service.go:1015-1022 | over every run that follows the chain, each renewal has a strictly larger key than the insertion it renews, and is on time |
| TimeoutWheel.RestoredKeyBounds | node/gateway/gateway_service.go:950-953 | a restored key lies between creation and height, less than a timeout below it, exactly if the height is not before the creation, and then it is congruent to the creation height; otherwise it wraps around |
| TimeoutWheel.KeysCongruent | node/gateway/gateway_service.go:777-799 | over every run that follows the chain, keys and expiry heights are congruent to the creation height modulo the timeout |
| TimeoutWheel.Wheel.InsertOrder | node/gateway/gateway_service.go:791-799 | appending an order to the list of its height is one insertion step of the state machine |
| TimeoutWheel.Wheel.ExamineOrder | node/gateway/gateway_service.go:985-1023 | dropping an order, or re-queueing it and filing it anew, is one examination step of the state machine |
| TimeoutWheel.Wheel.Round | node/gateway/gateway_service.go:970-1035 | one round ends with the cursor at the new height, and everything it does to the map, the queue and the orders continues a run of the state machine |
| ChunkUpload.Server.HandleChunkInfo | node/transport/rpc_handler.go:41-89 | records a chunk in its slot once, and chunk 0 starts the record afresh |
| ChunkUpload.Server.Reassemble | node/transport/rpc_handler.go:177-192 | joins the files of all slots in order, and fails exactly when a slot is empty or its file missing |
| ChunkUpload.Server.Upload | node/transport/rpc_handler.go:91-215 | records a chunk and then files it, so that a failed file operation leaves it recorded; on an empty chunk puts the file together; answers with the CID of what arrived |
| ChunkUpload.SendChunk | client/transport.go:89-150 | one more chunk received |
| ChunkUpload.ResendChunk | node/transport/rpc_handler.go:62-75 | a chunk that arrives again is counted only once |
| ChunkUpload.DoTransport | client/transport.go:85-171 | without failures the upload succeeds exactly when the length is not a multiple of the chunk size; a success leaves the identical file, every slot filled and the full length received |
| AddressPool.Pool.GetRandomAddress | chain/tx_addr_pool.go:105-131 | leases some available address, and refuses exactly when there is none |
| AddressPool.Pool.SetAddressAvailable | chain/tx_addr_pool.go:133-149 | releases an address that is in use and no other |
| AddressPool.LeasesExclusive | chain/order.go:25-67 | whoever signs, no address is leased twice at once, those in use are exactly those held and those leased to their own signer and returned, and the set never changes |
| AddressPool.OutsideNeverLeaks | chain/order.go:25-67 | with signers outside the pool nothing leaks, so the addresses in use are exactly those held |
| AddressPool.LeakedForGood | chain/order.go:69-75 | an address that leaked stays in use for good and is never leased again |
| AddressPool.Send | chain/order.go:25-67 | a whole call leaves the pool as it was on every path, unless the address handed out was the signer's own |
| AddressPool.ReturnReleases | chain/order.go:119-157 | every call that returns has released its address, unless it is the signer's own |
| AddressPool.OwnAddressLeaks | chain/order.go:69-75 | one call of a sender whose address is the pool's only one leaks it and leaves nothing available |
| MetaCommit.CommitRoundTrip | types/types.go:136-150 | a commit string reads back exactly when its id is free of the separator and its height is not negative |
| MetaCommit.ParsesExactly | types/types.go:136-150 | a text is read as a commit exactly if it is an id free of the byte 26, that byte, and a 64-bit number in decimal |
| MetaCommit.CommitSpelt | node/model/manager.go:225-228 | a commit string is the id, the byte 26 and the height in decimal |

## Left out

- libp2p streams, JSON-RPC and JSON encoding, the HTTP file server, GraphQL, the command line, configuration and repository
  layout: wiring around libraries.
- Chain queries, transactions, signatures and DID resolution: only their outcomes appear, as arbitrary answers.
- IPFS, Redis and Memcached backends: thin wrappers; content stores appear as arbitrary answers or as maps.
- `HandleShardAssign`, `HandleShardComplete`, `HandleShardLoad`, `HandleShardMigrate`, `processMigrate`: checks of chain
  answers around the operations modelled here; a re-assigned shard is a new task.
- `StoreSvc.GetAllShards`: the fetched list of shards is an input of the sweep.
- `LruCacheSvc`, including its resizing, and `GetHash32`: the persistent map under the cache is a plain map.
- `ModelManager` beyond its commit strings: patches, schemas, rules and the coherence of its cache.
- Records other than those of the job store in types/cbor_gen.go: they have the same generated code for other fields.
- Wall-clock time: retry times and early pops are arbitrary answers.
- The contents of error messages.
- Codec.Unmarshal: how far the library passes over an unknown field is a parameter, and its dropped error is not modelled.
- Maplock.MutualExclusion: assumes that only the owner of a name unlocks it and that there are fewer than 2 to the 32 threads.
- TimeoutWheel.ExaminedOnceIfOnTime: the order of two appends to one list of the map is that of their insertion; block heights
  themselves are unbounded, while expiry heights wrap around at 64 bits.
- Scheduler.WorkShop.Turn: its workers do not overlap; the state machine interleaves their steps freely.
- TimeoutWheel.Wheel.Round: commits during a round are left to the state machine, whose steps they interleave with.
- JobStore.Store.RunAll: assumes library limits that admit the field names, and operations that do not overlap; overlapping
  first saves are in IndexRace.
- IndexRace.EntryLostExactly: the keys are new and different, and the list stays below its limit.
- Keys.StoreKeysCollideExactly: assumes CIDs that print differently and without a slash.
- ChunkUpload.DoTransport: assumes that CIDs tell the chunks apart, that one client at a time uploads a file, and, for an empty
  file, that the server holds no record under its CID.
- AddressPool.LeasesExclusive: the status "root" is never set while calls are in flight, and no account has the empty address.
