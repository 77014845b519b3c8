# linglongta: a verified model

linglongta stores objects on disk: one data file per power-of-two size class, an index from fixed
16-byte keys to slots, and a journal of index changes. It runs over a read/write lock and a slab
allocator of its own. This project models those parts in Dafny and proves what they are for:

- **One call at a time, the store is a map.** Every `update_block`, `find_block` and `delete_block`
  answers and moves like a map from fixed keys to byte strings, whatever came before, whatever the
  sizes (`StoreRuns.StepRefines`, `RunRefines`, `FindReturnsLastStored`). A slot that is given back
  is used again; it is lost if and only if the free stack of its file was full
  (`SlotLosses.NothingLostIff`). An update dies in an assert exactly for the sizes that wrap in the
  conversion to int (`StoreRuns.CrashIff`). Closing and opening restores the allocators; the journal
  replays to the index and to the allocators.
- **Many threads, it is still that map.** Updates and deletes are cut into the accesses a finder
  can fall between, and proved equal to the whole operations when run back to back. Over every
  schedule of any number of threads, each answer is the one the plain map gives at the call's index
  look-up; the order of look-ups respects real time; the locks never deadlock, and once no new
  calls start every schedule ends with every call answered (`ConcurrentCalls.Linearizable`,
  `ConcurrentRuns.SomeoneCanMove`, `ConcurrentProgress.EveryCallEnds`). The locks in that system are
  the ones of `RwLock`, counters and all.
- **The read/write lock** excludes, loses no wake-up, serves everyone once no new requests come, and
  lets a reader wait for at most one writer.
- **The journal's** double-buffered writer and resumable reader agree under every interleaving, and
  together with the store they recover its index (`Recovery.RecoverIndex`).
- **The slab allocator** hands out disjoint, aligned blocks over every run, large enough exactly when
  adding the header does not wrap around, accounts for every chunk, and keeps to its memory bound.
- **CRC-32 and lookup3**: the table-driven CRC is bit-at-a-time division as in section 8 of
  RFC 1952 and detects every change within four bytes; the three reading loops of `hashlittle`
  compute one function, whose mixing is that of the macros in machine words and loses nothing.
- **The tail queue** refines sequence operations on real linked nodes, and **the request-head
  parser**, cutting its buffer in place, gives back what the grammar wrote.

Code that changes things in place is modelled by classes and methods with loops (`Storage`,
`RwLock.Lock`, `IndexLog.IndexLogger`, `Slab.Allocator`, `TailQueue.Queue`,
`MemcachedProtocol.QueryRequest`, the hash and CRC loops), each proved equal to a function of its
inputs or its old state; the lemmas are about those functions.

| file | about |
|---|---|
| `Bytes` | bytes, little-endian integers, pwrite and pread |
| `Crc32`, `BobHash`, `HashMacros` | the checksums and hashes; the hash in machine words |
| `RwLock` | the read/write lock as a transition system and as an object |
| `DataFile`, `StoreModel`, `StoreRuns`, `SlotLosses`, `Storage` | one data file; the operations; whole runs; what becomes of slots; the objects |
| `WriterSteps`, `ConcurrentStore`, `ConcurrentRuns`, `ConcurrentCalls`, `ConcurrentProgress` | updates step by step; all threads and locks; runs; linearizability; every call ends |
| `IndexLog`, `Recovery` | the journal; journal and store together |
| `SlabClasses`, `SlabModel`, `SlabRuns`, `Slab` | the class table; the allocator; runs; the objects |
| `TailQueue` | the linked list |
| `MemcachedProtocol`, `ProtocolRoundTrip` | the parser; parsing what the grammar writes |

`dafny verify dfyconfig.toml` checks everything.

Where code and documentation differ the code is followed. The comment in `parse_get_cmd`
(`src/memcached_protocol.c:84-86`) allows one optional space behind the key; the code also accepts
more and lets them into the key, and `KeyRoundTrip` says exactly when that changes it. The
word-wise loop of `hashlittle` reads up to three bytes behind the key, as its own comment says, so
`HashLittle` asks for memory up to the end of the last aligned word and proves that those bytes do
not matter.

## Model

| member | source | states |
|---|---|---|
| Bytes.DecodeEncode | src/indexlog.c:250-255 | a number that fits the width is read back from the bytes it was stored as |
| Bytes.PreadOwnWrite | src/storage.c:102-125 | a write is read back whole |
| Bytes.PreadFrame | src/storage.c:102-125 | a write elsewhere does not change a read |
| DataFile.SlotsApart | src/storage.c:274 | different slots share no byte and none reaches into the header section |
| DataFile.WriteDataKeeps | src/storage.c:275 | a data write keeps the header and the free stack on disk current |
| DataFile.TakeKeeps | src/storage.c:256-276 | popping or extending keeps the file in order on disk and in memory and yields a slot that was in no one's hands; data is untouched |
| DataFile.NextIsFresh | src/storage.c:270-276 | with an empty stack the next offset is one past every slot ever opened, also after leaks |
| DataFile.GiveKeeps | src/storage.c:606-621 | with room on the stack the slot goes on top, in memory and on disk; with a full stack the file is unchanged; data is untouched either way |
| DataFile.CreateValid | src/storage.c:173-203 | a new file is in order and exactly the header section long |
| DataFile.LoadRestores | src/storage.c:142-171 | reading the header section back gives the counters and the stack, whatever stale offsets lie above its top |
| StoreModel.LeastClassThatFits | src/storage.c:357-371 | a size within the largest class gets the least class that holds it |
| StoreModel.NoClassAboveLargest | src/storage.c:357-371 | a larger size gets a class, one too small for it, if and only if its conversion to int is within the largest class |
| StoreModel.AppendKeeps | src/storage.c:227-296 | an append adds exactly one key to the map and keeps the invariant |
| StoreModel.ModifyKeeps | src/storage.c:299-351 | an in-place update changes exactly that key |
| StoreModel.DeleteKeeps | src/storage.c:580-625 | a delete removes exactly that key; with room on the stack its slot is the next one that file hands out |
| StoreModel.SlotPartition | src/storage.c:255-277 | live and free slots are pairwise apart and below the high-water mark, and block_cnt counts the live and the lost |
| SlotLosses.AppendLosesNothing | src/storage.c:255-277 | an append loses no slot |
| SlotLosses.ModifyLosesNothing | src/storage.c:329-332 | an update in place loses no slot |
| SlotLosses.DeleteLoses | src/storage.c:603-621 | a delete loses its own slot if the free stack is full, and nothing otherwise |
| SlotLosses.StepLoses | src/storage.c:373-695 | what any call loses: the slot it gives back to a full stack |
| SlotLosses.RunLoses | src/storage.c:373-695 | over every run the lost slots are those lost before and those given back to a full stack |
| SlotLosses.NothingLostIff | src/storage.c:603-609 | from an empty store no slot is lost, and block_cnt counts the stored keys, if and only if no delete or upgrade meets a full stack |
| SlotLosses.SlotLostExample | src/storage.c:603-609 | storing 100,001 values and deleting them all does lose a slot |
| StoreModel.LiveSlotCounted | src/storage.c:614 | the counter is positive whenever a delete decrements it, so it never wraps |
| StoreRuns.StepRefines | src/storage.c:373-489 | every call with every argument answers and moves as a map does; sizes above the largest class are included |
| StoreRuns.FindReads | src/storage.c:494-578 | find returns the map's value, or NOTFOUND when there is none |
| StoreRuns.StoredIffFits | src/storage.c:420-459 | after an update the key reads back as these bytes if and only if the size is within the largest class |
| StoreRuns.StoredInLeastClass | src/storage.c:405-460 | the value stays in its slot while that is large enough, and else goes to the least class that holds it |
| StoreRuns.CrashIff | src/storage.c:249 | an update dies in the assert if and only if its size is above the largest class and its conversion to int is not |
| StoreRuns.CrashExample | src/storage.c:357-371 | with the 18 classes up to 16 MB, 2 GB and 4 GB kill the process and 4 GB + 128 MB does not |
| StoreRuns.RunRefines | src/storage.c:373-695 | the same over every sequence of calls |
| StoreRuns.FindReturnsLastStored | src/storage.c:494-578 | from an empty store, find returns the last value stored under the same key and not removed since; keys are the same when they agree on sixteen bytes, zero past the end |
| StoreModel.SameKeyIff | src/storage.c:394-396 | two keys are fixed alike if and only if they agree on sixteen bytes, zero past the end |
| StoreRuns.UpdateIsFound | src/storage.c:373-489 | an update is found under every key that is the same as its own and changes what is found under no other |
| StoreRuns.DeleteIsGone | src/storage.c:627-695 | a delete removes what is found under every key that is the same as its own, and nothing else |
| StoreRuns.StepLogged | src/storage.c:279-288 | one call keeps the journal complete: in-place, upgrade and failing paths |
| StoreRuns.RunLogged | src/storage.c:593-600 | at every point the index and the allocators are the replay of the journal over those at open |
| StoreRuns.ReopenRestores | src/storage.c:899-963 | closing and opening gives the same counters, stacks, bytes and index |
| StoreRuns.FreshInv | src/storage.c:741-772 | a newly created store satisfies the invariant and is empty |
| Storage.BlockFile.Create | src/storage.c:173-212 | the object holds the new file |
| Storage.BlockFile.AppendData | src/storage.c:255-277 | takes the slot and writes the data as the function does |
| Storage.BlockFile.GiveSlot | src/storage.c:606-621 | releases the slot in memory and on disk as the function does |
| Storage.BlockFile.LoadDataFile | src/storage.c:142-171 | reads counters and stack from the file's bytes |
| Storage.CalcBlockSize | src/storage.c:357-371 | the loop over doubling sizes finds the least that is large enough after the conversion to int |
| Storage.InitStorage | src/storage.c:774-804 | the classes are all powers of two from 128 up to the largest size; failure exactly when there would be more than 20 |
| Storage.Store.Open | src/storage.c:741-772 | opening an empty directory gives the empty store |
| Storage.Store.Close | src/storage.c:899-930 | closing writes every header again and nothing else |
| Storage.Store.Load | src/storage.c:741-772 | opening existing files reads every allocator back, or fails |
| Storage.Store.Reopen | src/storage.c:899-930 | close then open as a function of the state |
| Storage.Store.FindBlockFile | src/storage.c:214-225 | the index of the class with this size, or -1 |
| Storage.Store.AppendBlock | src/storage.c:227-296 | the whole new state and reply |
| Storage.Store.ModifyBlock | src/storage.c:299-351 | the whole new state and reply |
| Storage.Store.DoDeleteBlock | src/storage.c:580-625 | the whole new state |
| Storage.Store.UpdateBlock | src/storage.c:373-489 | the whole new state and reply |
| Storage.Store.FindBlock | src/storage.c:494-578 | the reply; nothing changes |
| Storage.Store.DeleteBlock | src/storage.c:627-695 | the whole new state and reply |
| WriterSteps.ProgramIsStep | src/storage.c:373-489 | the single accesses of an update or a delete, run back to back, are the operation: the same store and the same return code |
| WriterSteps.ProgramWellLocked | src/storage.c:255-277 | a writer holds one file lock at a time, gives it back, and changes a file's slots and data only under that file's lock |
| WriterSteps.DoLeavesEntry | src/storage.c:606-621 | every access except a data write to that file leaves a looked-up entry readable as before, the late header and stack writes of a delete included |
| WriterSteps.SurvivesIff | src/storage.c:249 | a call does not die if and only if it is admitted to the concurrent system |
| ConcurrentStore.FindLookup | src/storage.c:521-538 | what a finder is going to read is what the map answers at its look-up |
| ConcurrentStore.WriterLookup | src/storage.c:400-403 | the steps a writer sets out on end in the state the map has just moved to |
| ConcurrentStore.WriterElsewhere | src/storage.c:535-538 | a file under a finder's lock is not written by a writer |
| ConcurrentStore.KeepGo | src/storage.c:255-277 | a step of the writer is not noticed by finders that read without the index lock |
| ConcurrentStore.KeepMove | src/storage.c:521-538 | every move of every thread keeps the system's invariant |
| ConcurrentRuns.EveryAnswerIsTheMaps | src/storage.c:521-538 | over every schedule of any number of threads, every answer is the map's at the call's index look-up |
| ConcurrentRuns.OrderRespectsTime | src/storage.c:521-538 | a call that starts later has a later place in that order |
| ConcurrentRuns.EveryCallAnswers | src/storage.c:494-578 | a call takes one place, keeps it, and comes to rest only by answering for it |
| ConcurrentCalls.MoveKeepsCalls | src/storage.c:373-695 | every move keeps the record of calls: each begun call looked up at most once and answered at most once |
| ConcurrentCalls.Linearizable | src/storage.c:373-695 | for every run: one order of calls, each between its beginning and its answer, with every answer the map's, none given twice, and once all threads rest every call answered and the store standing for the outcome |
| ConcurrentRuns.SomeoneCanMove | src/storage.c:400-538 | while any call is under way some thread can take a step that is not a new call or a spurious wake-up: index and file locks never deadlock |
| ConcurrentRuns.AnyCallMayBegin | src/storage.c:373-695 | a thread at rest may begin any call that does not die, whatever else is under way |
| ConcurrentRuns.AnySleeperMayWake | src/rwlock.c:81-84 | a thread asleep on the index lock or a file lock may wake up spuriously |
| ConcurrentProgress.MoveWorks | src/storage.c:373-695 | every step of a call under way, tests of a lock included, uses up work |
| ConcurrentProgress.EveryCallEnds | src/storage.c:373-695 | once no new calls start, every schedule ends within a bound fixed at its beginning, with every thread at rest |
| RwLock.StepInv | src/rwlock.c:74-138 | every atomic section keeps exact counters, exclusion and no lost wake-up |
| RwLock.RunInv | src/rwlock.c:74-138 | the same in every reachable state, for any threads and spurious wake-ups |
| RwLock.ReachableSafe | src/rwlock.c:74-138 | at most one writer, no reader beside it, read_queue_len counts waiting and active readers, sleepers have someone to wake them |
| RwLock.Admission | src/rwlock.c:79-119 | a thread outside may ask at any time; a reader gets in at once exactly when nobody writes, a writer exactly when nobody writes, reads or waits to read |
| RwLock.SecondTry | src/rwlock.c:81-116 | a woken thread gets in or sleeps on under the same conditions |
| RwLock.Leaving | src/rwlock.c:95-135 | when a writer leaves nobody stays asleep; when the last reader leaves no writer does |
| RwLock.SpuriousWakeup | src/rwlock.c:81-116 | a sleeping thread may wake up at any time, which changes nothing else |
| RwLock.NoDeadlock | src/rwlock.c:79-135 | while some thread is inside, some thread holds the lock or is runnable |
| RwLock.EveryoneServed | src/rwlock.c:79-135 | without new requests every schedule ends, with nobody left waiting |
| RwLock.NoWriterOvertakes | src/rwlock.c:111-119 | once a reader is counted no new writer gets in |
| RwLock.ReaderWaitsForOneWriter | src/rwlock.c:79-85 | a counted reader waits at most for the writer already inside |
| RwLock.Lock.ReadLock | src/rwlock.c:74-88 | the section up to the first wait or the return |
| RwLock.Lock.ReadRetry | src/rwlock.c:81-84 | the section from a wake-up on |
| RwLock.Lock.ReadUnlock | src/rwlock.c:90-104 | leaving, with the broadcast for waiting writers |
| RwLock.Lock.WriteLock | src/rwlock.c:106-122 | the section up to the first wait or the return |
| RwLock.Lock.WriteRetry | src/rwlock.c:113-119 | the section from a wake-up on |
| RwLock.Lock.WriteUnlock | src/rwlock.c:124-138 | leaving, with the broadcast for anyone waiting |
| IndexLog.ValueRoundTrip | src/indexlog.c:250-255 | an index value is read back from its 24 bytes |
| IndexLog.WriterKeeps | src/indexlog.c:228-262 | on disk plus buffered is everything appended; blocks hold 1 to 186 items |
| IndexLog.FetchNext | src/indexlog.c:264-336 | with something left to read, a fetch returns the next item: its key, its value, and the number 1, 2 or 3 for append, modify or delete |
| IndexLog.FetchAtEnd | src/indexlog.c:264-336 | at the end a fetch returns NULL and the reader stays where it can resume |
| IndexLog.LaterBlocks | src/indexlog.c:264-336 | blocks written later do not move the reader |
| IndexLog.FetchOk | src/indexlog.c:264-336 | in a reachable state a fetch returns the next flushed item, by number, key and value, and NULL exactly when there is none |
| IndexLog.EveryInterleaving | src/indexlog.c:205-368 | for every interleaving of appends, flushes and fetches nothing is lost or reordered, and the fetched records say, by number, key and value, what was flushed first |
| IndexLog.BlockOnDisk | src/indexlog.c:205-226 | every block in the file carries the checksum of its items' bytes and a count between 1 and 186 |
| IndexLog.MagicIs | src/indexlog.c:33 | the first four bytes are 0x1d810900 in network order |
| IndexLog.WrongMagic | src/indexlog.c:274-280 | a file that begins otherwise gives a reader that opens it nothing |
| IndexLog.IndexLogger.constructor | src/indexlog.c:110-124 | a new journal holds the magic number and nothing else |
| IndexLog.IndexLogger.SwitchBuffer | src/indexlog.c:176-197 | working and storing buffer change places and stay different |
| IndexLog.IndexLogger.SyncIndexLog | src/indexlog.c:205-226 | the storing buffer is written with its checksum and count |
| IndexLog.IndexLogger.Append | src/indexlog.c:228-262 | the item goes into the buffer, after the buffer went out if it was full; no write past buf_ptr |
| IndexLog.IndexLogger.Flush | src/indexlog.c:347-368 | a non-empty buffer becomes one block of the file |
| IndexLog.LogReader.Fetch | src/indexlog.c:264-336 | the reads of one fetch, with fetch_id and fetch_pos, as the function |
| Recovery.RecoverIndex | src/indexlog.c:264-336 | for any session logged with any interleaving of flushes and fetches, what is read back after a flush replays, by its numbers, to the store's index and allocators |
| SlabClasses.SlabInit | src/slab.c:178-211 | the table starts at 0 and 16, is 8-byte aligned, grows by the factor, ends in the block size; it is strictly increasing if and only if the factor is at least 17/16 |
| SlabClasses.QuarterGrowth | src/slab.c:178-211 | with the factor 1.25 the table begins 16, 24, 32, 40, 56 and ends in 4 MB |
| SlabClasses.ClassIdMeans | src/slab.c:112-168 | the look-up gives the only class whose size and whose predecessor's enclose the request, or one past the table when nothing fits |
| SlabClasses.SlabClsidLinear | src/slab.c:156-165 | the linear scan computes that class |
| SlabClasses.SlabClsid | src/slab.c:122-152 | the binary search ends and computes the same class |
| SlabModel.ChunksApart | src/slab.c:351-370 | different chunks of a class share no byte |
| SlabModel.BlocksDisjoint | src/slab.c:274-376 | any two blocks in use are disjoint, chunks and malloc blocks alike |
| SlabModel.LiveChunk | src/slab.c:338-370 | a chunk in use lies in one slab, is 8-byte aligned, and is at least of the size its header records |
| SlabRuns.AllocKeeps | src/slab.c:274-376 | an allocation keeps the allocator in order and either changes nothing or returns one new aligned block of at least the total, leaving the others alone |
| SlabRuns.PerSlabFits | src/slab.c:198 | a slab is cut into as many chunks as fit |
| SlabRuns.AllocFails | src/slab.c:297-335 | NULL exactly when the total wraps to 0, or wherever a chunk fits into a slab of the fitting class one is in use, the class has a slab, and one more in all would exceed the limit |
| SlabRuns.AllocAccounted | src/slab.c:329-370 | every chunk carved so far stays in use or on the free stack |
| SlabRuns.FreedComesNext | src/slab.c:337-349 | what was freed last is what the next request of its class gets, without asking the system |
| SlabRuns.TwoSmallRequests | src/slab.c:274-376 | two requests of 8 bytes under a 4 MB limit get neighbouring chunks of 16 bytes, and 262,142 more are left |
| SlabRuns.AllocMemory | src/slab.c:231-264 | the memory counter stays exact and within its bound |
| SlabRuns.AllocServes | src/slab.c:294-370 | the block returned holds header and request if and only if the request is below 2^64 - 8 |
| SlabRuns.WrapExample | src/slab.c:294 | a request of 2^64 - 7 bytes gets the smallest chunk, one of 2^64 - 8 gets NULL |
| SlabRuns.FreeFindsClass | src/slab.c:431-452 | a chunk goes back to the class it was carved from, although the class is looked up again and cut to an unsigned char |
| SlabRuns.FreeKeeps | src/slab.c:385-457 | freeing keeps the allocator in order and gives back exactly that block |
| SlabRuns.InitInv | src/slab.c:178-211 | the first state is in order, with slabs of as many chunks as fit, and has no blocks |
| SlabRuns.RunKeeps | src/slab.c:274-457 | the same over every run of allocations and frees |
| SlabRuns.RunFromInit | src/slab.c:231-457 | after any run from the first state: disjoint blocks, every chunk of every class accounted for, memory exact and at most the limit plus one slab per owning class |
| Slab.Allocator.constructor | src/slab.c:178-211 | the table and the empty classes |
| Slab.Allocator.NewSlab | src/slab.c:231-264 | a page is entered unless the limit forbids it |
| Slab.Allocator.TakeChunk | src/slab.c:337-370 | a chunk comes off the stack or the end of the page, with its header written |
| Slab.Allocator.Alloc | src/slab.c:274-376 | the whole new state and the pointer |
| Slab.Allocator.Free | src/slab.c:385-457 | the whole new state |
| Crc32.TableIsEightSteps | src/crc32.c:46-89 | every table entry is eight steps of bitwise division |
| Crc32.UpdateIsDivision | src/crc32.c:91-105 | one table look-up is the division by one more byte |
| Crc32.Crc32Calc | src/crc32.c:91-105 | the loop computes reflected division by 0xEDB88320 with both complements |
| Crc32.CheckValue | src/crc32.c:91-105 | the digits 1 to 9 give the check value 0xCBF43926 |
| Crc32.CheckNumber | src/crc32.c:91-105 | so they do as the stored checksum |
| Crc32.DifferenceStays | src/crc32.c:91-105 | a difference in the register survives any further bytes |
| Crc32.BurstDetected | src/crc32.c:91-105 | messages that differ only within four consecutive bytes have different checksums |
| Crc32.SameByte | src/crc32.c:98-102 | the eight bits a byte is taken for stand for that byte |
| Crc32.ChecksumDetects | src/crc32.c:91-105 | the same for the checksums of byte strings that store and journal keep |
| BobHash.MixBijection | src/bobhash.c:71-79 | mix maps triples one to one onto triples |
| BobHash.FinalBijection | src/bobhash.c:106-115 | so does final |
| HashMacros.MixMacro | src/bobhash.c:71-79 | mix statement by statement, with the machine's shifts, or and exclusive or, is the mix of the model |
| HashMacros.FinalMacro | src/bobhash.c:106-115 | so is final |
| HashMacros.RotIs | src/bobhash.c:25 | a rotation by k is the product with 2^k modulo 2^32 plus what it pushes out at the top |
| HashMacros.BitOfRot | src/bobhash.c:25 | bit i of a register is bit (i + k) % 32 of its rotation by k |
| HashMacros.BitOfXor | src/bobhash.c:71-79 | exclusive or, bit by bit |
| BobHash.EmptyKey | src/bobhash.c:334-335 | the hashes of an empty key are the start values |
| BobHash.DigestByWords | src/bobhash.c:257-336 | the word-wise loop and its masked switch compute the common function, whatever lies behind the key |
| BobHash.DigestByHalves | src/bobhash.c:382-445 | so do the half-word loop and its switch |
| BobHash.DigestByBytes | src/bobhash.c:447-496 | so do the byte loop and its falling-through switch |
| BobHash.HashLittle | src/bobhash.c:246-502 | one hash for every key, length and seed at every address |
| BobHash.HashLittle2 | src/bobhash.c:516-787 | two hashes, the first one hashlittle's when the second seed is 0 |
| BobHash.SecondSeedZero | src/bobhash.c:527-529 | with second seed 0 the primary result is the plain hash |
| BobHash.HashWord | src/bobhash.c:130-166 | hashing words is hashing their bytes |
| BobHash.RegistersStayApart | src/bobhash.c:262-502 | different registers stay different whatever is hashed into them |
| BobHash.BlockChangeShows | src/bobhash.c:262-502 | keys that differ inside one block of twelve bytes leave different registers |
| TailQueue.Queue.Push | include/bsdqueue.h:216-221 | appends to the sequence |
| TailQueue.Queue.Unshift | include/bsdqueue.h:209-214 | prepends to the sequence |
| TailQueue.Queue.Insert | include/bsdqueue.h:202-207 | inserts behind the given item |
| TailQueue.Queue.Shift | include/bsdqueue.h:89-92 | returns and removes the first item |
| TailQueue.Queue.Remove | include/bsdqueue.h:231-244 | removes exactly that item; the walk to its predecessor ends |
| TailQueue.Queue.Pop | include/bsdqueue.h:93-96 | returns and removes the last item |
| TailQueue.Queue.Cat | include/bsdqueue.h:171-178 | concatenates, and empties the other queue |
| TailQueue.Queue.Addr | include/bsdqueue.h:104-113 | the item at a position, null past the end, the first for a negative one |
| TailQueue.Queue.Walk | include/bsdqueue.h:184-187 | following the links visits every item once, in order, and ends |
| MemcachedProtocol.StrtokR | src/memcached_protocol.c:123-168 | cuts the next token out in place |
| MemcachedProtocol.ScanKey | src/memcached_protocol.c:39-51 | the macro's reads before and behind the key stay inside the buffer, and it finds the key as the function says |
| MemcachedProtocol.QueryRequest.ParseSetCmd | src/memcached_protocol.c:100-185 | the state loop ends and fills in the fields found, or fails with those found so far |
| MemcachedProtocol.QueryRequest.ParseHead | src/memcached_protocol.c:187-275 | the head loop ends for every buffer, with the outcome and the fields as the function of the text |
| ProtocolRoundTrip.NumberRoundTrip | src/memcached_protocol.c:146-168 | a number written in digits is read back |
| ProtocolRoundTrip.AtoiReads | src/memcached_protocol.c:146-168 | so it is behind white space and a sign, and before anything that is not a digit |
| ProtocolRoundTrip.CommandOfText | src/memcached_protocol.c:227-251 | for every text the command is get, set, delete, sync or power if and only if the first token is that word in capital or small letters |
| ProtocolRoundTrip.KeyHeadParsed | src/memcached_protocol.c:81-98 | what a get or delete head parses to, with any spaces and each letter of the command capital or small |
| ProtocolRoundTrip.KeyLongKey | src/memcached_protocol.c:49-50 | a key above 250 bytes is cut to its first 250 |
| ProtocolRoundTrip.ControlHeads | src/memcached_protocol.c:53-79 | a sync head is accepted exactly for index and all, a power head for halt, in any letter case |
| ProtocolRoundTrip.KeyRoundTrip | src/memcached_protocol.c:38-51 | the key comes back if and only if at most one space follows it or it fills the field |
| ProtocolRoundTrip.SetRoundTrip | src/memcached_protocol.c:100-185 | a set head gives back command, key, flag, exptime and size, with any spaces and each letter of the command capital or small |
| ProtocolRoundTrip.SetLongKey | src/memcached_protocol.c:128-131 | a set with a key above 250 bytes is refused |
| ProtocolRoundTrip.SetMissing | src/memcached_protocol.c:123-176 | a set with a word missing is refused |
| ProtocolRoundTrip.NoLineEnd | src/memcached_protocol.c:42-116 | any head without its line end is refused |
| ProtocolRoundTrip.HeadInBuffer | src/memcached_protocol.c:199-200 | a head that fits the buffer is read from it as written |

## Left out

- BerkeleyDB: the index is a map, and putting and removing entries succeeds.
- Failing I/O and exhausted memory: every read, write and allocation of the program's own structures succeeds, so the error paths that keep a lock or lose a buffer are not modelled.
- Crash consistency and fsync: the bytes of a file are what was written to it; the journal is replayed within one session, as `src/indexlog.c` truncates it on every open and `tools/replay_journal.c` does not replay.
- `sync_storage` beside running writers: it writes headers without locks.
- The journal inside the concurrent system is the store's sequence of items; appends happen one by one under the index lock, so the journal's own two mutexes have nothing to exclude there. The double-buffered writer is joined to the store in `Recovery`.
- A pread or pwrite of one value is one step, as the file lock makes it; a thread's mutex-protected section of the lock code is one step.
- StoreRuns.FindReturnsLastStored: runs in which no call dies; a run that does ends there.
- WriterSteps.ProgramIsStep: for calls that do not die in the assert of `append_block`; which those are, `StoreRuns.CrashIff` says exactly.
- ConcurrentCalls.Linearizable: a call that would die is not begun, since the process ends with it.
- ConcurrentRuns.EveryAnswerIsTheMaps: likewise for runs without such calls.
- Liveness of writers while new readers keep coming: they can starve by design, so `RwLock.EveryoneServed` and `ConcurrentProgress.EveryCallEnds` are about runs without new requests.
- DataFile.LoadRestores: for files whose positions fit a signed 64-bit offset, as every write needed them to.
- Storage.BlockFile.LoadDataFile: a file that is too short or claims more free slots than the stack holds is refused; the program reads such a count as it is.
- IndexLog.EveryInterleaving: items whose numbers fit the fields they are stored in, as C's types force them to.
- SlabClasses.SlabInit: the growth is exact arithmetic; the rounding of a double, and the undefined conversion to int for factors above about 1000, are not modelled.
- Slab.Allocator.Alloc: the two growing arrays of a class are sequences, so their reallocation is not modelled and succeeds; `page` stands for the answer of valloc or malloc.
- SlabRuns.AllocFails: the system's valloc and malloc do not fail, so NULL has no third cause.
- Slab.Allocator.NewSlab: growing the slab list and asking the system for a page succeed.
- Slab.Allocator.Free: growing the free list succeeds, so no chunk is dropped.
- SlabRuns.RunFromInit: one thread; the program shares `mem_malloced` between class locks.
- `_slab_realloc`, `slab_stats` and the debug magic: `_slab_realloc` copies a length that counts the header.
- `hashword2`, `bobhash64`, `calc_hash_key` and `src/mhash.c`: `bobhash64` starts from uninitialised seeds and `calc_hash_key` is never called; `hashword2` is `hashword` with the second seed.
- BobHash.HashLittle: a little-endian machine and the masked switch; the variant for VALGRIND, which reads the tail byte by byte, is not modelled. Registers are integers modulo 2^32; `HashMacros` ties rotations and exclusive ors to 32-bit machine words, while sums and differences are taken modulo 2^32 and a mask of low bits is a remainder.
- TailQueue.Queue.Pop: on a non-empty queue, as for `Shift`; on an empty one the program follows a null pointer. `size` is not bounded by an unsigned int. `STAILQ_REMOVE_HEAD_UNTIL`, which forgets the size, is not modelled.
- MemcachedProtocol.QueryRequest.ParseHead: `atoi` and `atol` read a number of any size, where C's result is undefined past the type; heads that arrive in pieces are not modelled.
- Sockets, event loops, timers, worker threads, logging, scripts and `src/master_mirror.c`: plumbing without properties of its own.
