# nvds: a verified model

nvds is a primary-backup key/value store on emulated non-volatile memory. A tablet is one byte image:
an allocator's arena followed by a hash table. A worker executes requests on its tablet, logs every
store, merges the log into a few ranges, ships those ranges as remote writes to the backups of the
tablet, and then answers the client. This project models that stack from the bytes up, together with
the cluster layer around it and the hash functions, and proves what each layer promises to the next.

| file | what it holds |
|---|---|
| `Arithmetic.dfy`, `Bytes.dfy`, `Layout.dfy` | products and quotients; byte images, little-endian words; the layout of the arena and its five kinds of words |
| `Blocks.dfy`, `FreeLists.dfy` | blocks, boundary tags, segregated free lists, and what carving, fusing, linking and unlinking do to them |
| `Modifications.dfy` | the write log and what it must account for |
| `Allocator.dfy`, `Clients.dfy` | the allocator as a class over an array of bytes; its clients over whole runs |
| `HashChains.dfy`, `Tablet.dfy`, `Lookup.dfy` | the chained hash table as linked records, the tablet class that stores it in the image, and lookups in the bytes of an image |
| `Merge.dfy`, `Scatter.dfy` | sorting and merging the log in place; how many ranges can remain |
| `Replication.dfy`, `Serve.dfy`, `Startup.dfy`, `PlainMap.dfy` | delta replication as a protocol, the worker's loop from request to response, start-up, and what clients see |
| `Placement.dfy`, `Wiring.dfy`, `Routing.dfy`, `Slots.dfy`, `Doubles.dfy` | tablet ids and the join protocol, queue-pair wiring, key routing, the slot that double-precision division gives |
| `Buffers.dfy` | receive buffers passing between the poller and the workers |
| `Murmur.dfy`, `Separation.dfy`, `KeyHash.dfy` | MurmurHash2 in four forms, what it tells apart, and the 64-bit hash of keys |
| `AsWritten.dfy`, `Posting.dfy` | the allocator and `Sync` as written: concrete runs that go wrong, and exactly when they do |

## How the model is built

- The image is an `array` of bytes; after the clearing in `Format`, every store of allocator and tablet goes through
  `Allocator.Store`, which writes the bytes and appends a log entry. `Valid()` ties the bytes to ghost
  state: the words of the arena (`w`), the blocks, and the lists. It also says that the log accounts
  for every difference from the image at the time the log was emptied.
- Lists carry a ghost rank that grows along `next`. That local condition makes them acyclic, and
  `FreeLists.ListExact` turns it into the global statement about following `next` from a head.
- `trace` records, for the proofs, a *site* for every log entry, the lowest logged offset and whether offset 0
  was accessed. Entries of one site end up in one merged range, so counting the sites of an operation bounds
  the ranges (`Scatter.RangesBound`).
- The tablet's table is kept at three levels: bytes, linked records (`HashChains.Table`) and a map.
- Requests carry the key's hash. Keys are told apart by bucket and bytes, as in the code, which never
  compares hashes; `PlainMap.PlainAnswers` shows that clients that hash their keys see a plain map.
- `Replication` states the protocol as steps whose guards assume a sound log and merged ranges. `Serving.Serve`
  discharges those guards: it returns the steps it makes, and they are one run of the protocol, with a recorded
  moment of that run for every response.

## Where the code departs from its intent

The allocator takes a `Build` that says, for two defects, whether the code is as written.

- `AllocBlock` clears `prev` of the next block even when there is none (`src/allocator.cc:42`). The store
  then lands on offset 4, the head of the list of 32-byte blocks. Tiling, tags, disjointness and payloads
  survive this; list exactness survives an exact-fit allocation if and only if the store is guarded or
  `LosesList` does not hold (`Allocation.Allocator.UseBlock`, `Allocation.Allocator.AllocBlock`).
  `AsWritten.ListOrphaned` is a run of the code as written that loses a list. When an allocation fails is stated
  for both builds: exactly when no list is headed by a large enough block (`NoHead`), which is lack of room
  (`NoRoom`) as long as no list has been orphaned.
- `FreeBlock` rewrites a footer only if the size changed (`src/allocator.cc:72-75`), although a client may
  have written over it. Freeing leaves a valid arena if and only if the footer is always written, or the
  block coalesces, or its last word happens to hold its size (`Allocation.Allocator.FreeBlock`); clients that
  leave the last word alone are safe (`Footed`). `AsWritten.FooterOverwritten` is a run that breaks it. A
  tablet's records fill their blocks, so the tablet requires the repaired build.
- `Read` and `Write` assert a non-zero offset (`src/allocator.h:52`, `src/allocator.h:61`), and the build keeps
  assertions on, yet the list of 16-byte blocks is at offset 0. An allocation trips the assertion if and only
  if it is for 16 bytes or its split leaves 16 bytes (`AllocTrips`); a free if and only if the freed span has
  16 bytes or an absorbed 16-byte neighbour is the head of its list (`FreeTrips`). `AsWritten.RefusedOffset` is
  the first such call. The model goes on past the assertion; the two runs above never trip it.
- `Del` does not advance on a mismatch (`src/tablet.cc:151-159`). The walk as written returns if and only if
  the bucket is empty or its first record has the key (`HashChains.DelReturns`). The model's `Del` takes the
  step that `Put` takes.
- `Sync` has a debugging `break` after the first range (`src/tablet.cc:209-210`). With it, a new key never
  reaches the backups; a value overwritten in place does if and only if the key has at most 8 bytes or the new
  value is a prefix of the old one; deleting the first record of a bucket never does, nor does deleting one whose
  predecessor lies beyond the reach of the first range; a replaced value is lost whenever `Lost` says; operations
  that change nothing leave the backups up to date (`Posting.PutAsWritten` and the three beside it).
  `Posting.BreakLosesUpdate` is a run. The model's `Sync` posts all ranges.
- Every range is posted as inline data (`src/tablet.cc:206`), for which 128 bytes are requested
  (`src/infiniband.cc:78`, `src/infiniband.h:24`); the adapter refuses more than it grants. `Sync` then fails if
  and only if some range is longer, and the response is still sent (`src/server.cc:244-254`). A new key whose
  record is longer never reaches a backup (`Posting.PutInline`). The replication theorems are about executions
  without transport errors.
- Nothing clears the bucket heads: the memory comes from `malloc` (`src/nvm.h:63-65`), the server casts it
  (`src/server.cc:30-34`) without running the constructor of `NVMTablet`, and `Format` clears only the arena. A
  new tablet is a valid empty one if and only if that memory happens to be zero
  (`Tablets.Tablet.constructor`), and otherwise no table describes it (`Tablets.OnlyZeroedIsEmpty`).
- `GetTabletId` divides in double precision (`src/index.h:43`). For every number of slots, the slot is in range if
  and only if the hash is below `FirstLost`, which leaves out the 3071 topmost hashes, the 1024 topmost, or
  none (`Routing.AsWrittenInRange`). Which slot it is, is stated exactly (`Slots.SlotExactly`); near a boundary it
  may differ from the exact slot, but not 6144 hashes away (`Slots.AsWrittenAgrees`).
- No check enforces fewer backups than servers (`src/common.h:45-55`). A master and its backups sit on
  different servers if and only if that holds (`Placement.SpreadIff`).

## Model

| member | source | states |
|---|---|---|
| Layout.ListOffset | src/allocator.h:147-153 | a block of u units up to 1152 bytes belongs to the list at offset 4u - 4, and larger ones, and only they, to the last list of the table |
| Layout.ListOrder | src/allocator.h:147-153 | two blocks share a list exactly when they are equally large or both larger than 1152 bytes, and otherwise the larger has the later list |
| Layout.ArenaFilled | src/allocator.cc:7-23 | blocks and sentinel reach to less than 16 bytes before the end of the 64 MB arena; 73 lists, and the first block at byte 292 |
| Layout.Roundup | src/allocator.h:154-160 | the result is the least multiple of 16 that is not below the size |
| Layout.PutHeader | src/allocator.h:50-58 | storing a header word changes that word of the arena and no other |
| Layout.PutFooter | src/allocator.h:50-58 | storing a last word changes that word of the arena and no other |
| Blocks.TagWords | src/allocator.h:164-186 | rewriting a header's size keeps its free bit; setting or clearing the bit keeps the size |
| Blocks.CarveTiles | src/allocator.cc:105-137 | cutting a used block off the end of a free one keeps the tiling and the size bounds |
| Blocks.SplitTags | src/allocator.cc:117-135 | the tag stores of a split give exactly the tags of the carved blocks |
| Blocks.FuseTiles | src/allocator.cc:57-69 | coalescing a span keeps the tiling, and only the block at the arena start may exceed two maximal blocks |
| Blocks.FuseTags | src/allocator.cc:71-76 | the tag stores of a free give valid tags if and only if the footer holds the new size |
| Blocks.WalkMeetsAll | src/allocator.cc:15-21 | stepping by block size from the first block meets every block once, in address order |
| Blocks.Conservation | src/allocator.cc:15-21 | free units and used units always add up to the arena |
| Blocks.EveryUnitInOneBlock | src/allocator.cc:15-21 | every 16-byte unit of the arena lies in exactly one block |
| FreeLists.UnlinkKeepsLinks | src/allocator.cc:88-103 | removing a block from its list keeps all lists well linked and removes only that block |
| FreeLists.UnlinkKeepsExact | src/allocator.cc:88-103 | removing a block orphans no list |
| FreeLists.PushKeepsLinks | src/allocator.cc:78-85 | putting a block at the front of its list keeps all lists well linked and adds only that block |
| FreeLists.ClearHead | src/allocator.cc:42-43 | storing 0 over a list head orphans a list if and only if the list was not empty |
| FreeLists.ListExact | src/allocator.h:124-129 | following `next` from a head meets each listed block of the class once and nothing else |
| Modifications.AccountsStep | src/allocator.h:50-58 | a logged store keeps the log accounting for every changed byte, with source = base + offset |
| Allocation.PayloadStoreConsistent | src/allocator.h:78-81 | a client's store inside its own payload damages nothing of the allocator |
| Allocation.ArenaFacts | src/allocator.cc:7-137 | in every valid state: exact tiling, headers, free bits and footers as promised, bounded sizes, conservation |
| Allocation.FreeListExactness | src/allocator.h:124-153 | in every valid state with exact lists, following list c meets exactly the free blocks of c + 1 units, each once, and following the last list exactly those of more than 1152 bytes |
| Allocation.SpanTrips | src/allocator.cc:57-80 | when freeing accesses offset 0, whichever neighbour leaves its list first |
| Allocation.FreeingMakesRoom | src/allocator.cc:49-86 | if nothing fits after a free, nothing fitted before it |
| Allocation.FreeingMakesHeads | src/allocator.cc:49-86 | the same for the heads of the lists, whether or not a list is orphaned: a free never takes away the last large enough head |
| Allocation.SpanBySizes | src/allocator.cc:52-69 | a free block before goes into the freed span exactly when it has at most 1152 bytes, and a free block after exactly when neither it nor the part before it has more |
| Allocation.FirstFits | src/allocator.cc:26-34 | the search fails exactly when no list is headed by a large enough block, and otherwise finds the smallest such head of at most 1152 bytes if there is one |
| Allocation.HeadsSuffice | src/allocator.cc:25-47 | with exact lists no head fits exactly when no free block fits, and the best head is the best fit among all free blocks |
| Allocation.FootedFuse | src/allocator.cc:71-76 | a free leaves the last word of every other live block alone |
| Allocation.Allocator.Format | src/allocator.cc:7-23 | afterwards the arena is one free block, alone on the last list, and the log is empty |
| Allocation.Allocator.Store | src/allocator.h:50-58 | the bytes are written, the entry is logged, and the log still accounts for all changes |
| Allocation.Allocator.RemoveBlock | src/allocator.cc:88-103 | the block leaves its list and stays free; at most two stores |
| Allocation.Allocator.CoalescePrev | src/allocator.cc:52-63 | the previous block is absorbed if and only if it is free and small |
| Allocation.Allocator.CoalesceNext | src/allocator.cc:64-69 | the next block is absorbed if and only if it is free and neither it nor the block so far is large |
| Allocation.Allocator.FreeBlock | src/allocator.cc:49-86 | the span of the block and its absorbed neighbours becomes one free block at the front of its list; the state is valid if and only if the footer is always written, the block coalesces, or its last word holds its size; offset 0 is accessed exactly when `FreeTrips` says; at most 11 stores at 8 places |
| Allocation.Allocator.SplitBlock | src/allocator.cc:105-137 | the piece comes off the high end with its footer, the rest stays free on its new list; offset 0 is accessed exactly when one unit is left; at most 11 stores; lists stay exact |
| Allocation.Allocator.UseBlock | src/allocator.cc:38-45 | an exact fit hands out the whole block; list exactness is kept if and only if the store is guarded or no list is lost |
| Allocation.Allocator.FindHead | src/allocator.cc:26-34 | the search ends with 0 exactly when no list is headed by a large enough block, and otherwise with the closest head in size; it reads offset 0 exactly for 16-byte requests |
| Allocation.Allocator.AllocBlock | src/allocator.cc:25-47 | for every build: 0, and nothing changed, exactly when no list is headed by a large enough block; otherwise the closest head in size is cut and the lists are updated as stated. While lists are exact: 0 exactly when no free block is large enough, and no free block of at most 1152 bytes that is large enough is smaller than the one used; offset 0 is accessed exactly when `AllocTrips` says |
| Allocation.Allocator.Alloc | src/allocator.h:32-40 | a fresh live block with at least the requested bytes and fewer than 16 more, cut from the best head; 0 exactly when there is none, for every build; every other live payload is unchanged |
| Allocation.Allocator.Free | src/allocator.h:41-45 | exactly this block stops being live; every other live payload is unchanged; if clients left the last words alone, the arena stays valid without the repair |
| Allocation.Allocator.WritePayload | src/allocator.h:78-81 | a client's store changes exactly its bytes and keeps the allocator valid |
| Clients.Run | src/allocator.h:32-45 | over every sequence of allocations, frees and writes the live allocations hold what separate buffers would hold; blocks, lists and the block of each handle are recorded before every operation, and each operation changes them as stated; for every build an allocation is refused exactly when no list was headed by a large enough block, and while lists are exact exactly when no free block was large enough |
| Clients.BuffersApart | src/allocator.h:32-45 | live allocations lie in the arena, hold their contents and do not overlap |
| AsWritten.FooterOverwritten | src/allocator.cc:71-76 | a run of the code as written, without access to offset 0, after which a block is free and the state is not valid, because its footer is wrong |
| AsWritten.ListOrphaned | src/allocator.cc:38-45 | a run of the code as written, without access to offset 0, after which a free block is on no reachable list |
| AsWritten.RefusedOffset | src/allocator.h:59-63 | the first 12-byte allocation on a fresh arena accesses offset 0 |
| HashChains.InsertSteps | src/tablet.cc:80-88 | a record written and linked at its bucket's head keeps the chains and adds one key to the map |
| HashChains.ReplaceMeans | src/tablet.cc:66-76 | replacing a record, even by one in the same block, keeps the chains and changes the map at one key |
| HashChains.RemoveMeans | src/tablet.cc:151-157 | unlinking a record keeps the chains and removes one key from the map |
| HashChains.SetValMeans | src/tablet.cc:62-65 | a value overwritten in place changes the map at one key |
| HashChains.LookupHit | src/tablet.cc:130-138 | the first record of a bucket with the key bytes holds the key's value |
| HashChains.LookupMiss | src/tablet.cc:53-60 | a bucket without such a record means that the key is not in the map |
| HashChains.DelReturns | src/tablet.cc:144-161 | the walk of `Del` as written returns if and only if the bucket is empty or its first record has the key |
| HashChains.DelHangs | src/tablet.cc:144-161 | after any insertion that walk never returns for another key of the bucket |
| HashChains.AdvancingReturns | src/tablet.cc:53-60 | a walk that advances returns within one round per record |
| Tablets.Decode | src/tablet.h:19-25 | reading back the fields of a stored record gives its link, lengths, hash, key and value |
| Tablets.EncodeNew | src/tablet.cc:73-74 | storing the object header and then key and value leaves the record's encoding |
| Tablets.EncodeShorter | src/tablet.cc:64-65 | storing a shorter length and value leaves the encoding of the record with the new value |
| Tablets.HoldsKept | src/tablet.cc:66-69 | allocating and freeing keep every record outside the block concerned |
| Tablets.Tablet.constructor | src/tablet.cc:12-15 | a new tablet is a valid, empty one if and only if the memory after the arena is zero |
| Tablets.OnlyZeroedIsEmpty | src/tablet.h:27-33 | unless the bucket heads are zero no table describes a new tablet |
| Tablets.FormattedAlike | src/allocator.cc:7-23 | two images formatted over the same bytes after the arena are equal |
| Tablets.Tablet.Search | src/tablet.cc:53-60 | the walk finds the key's record and the link that leads to it, or the key is not in the map |
| Tablets.Tablet.Put | src/tablet.cc:46-90 | the map is updated at exactly this key: in place for a shorter value, which never aborts, and otherwise in a new record; at most 25 log entries at 16 places; for every build it aborts exactly when no list is headed by a large enough block once an old record is freed, and while lists are exact exactly when no free block is large enough then |
| Tablets.Tablet.Add | src/tablet.cc:92-120 | refused exactly when the key is there; otherwise the map gains the key, or nothing changed: for every build exactly when no list is headed by a large enough block, and while lists are exact exactly when no free block is large enough |
| Tablets.Tablet.Get | src/tablet.cc:122-142 | OK and the value exactly when the key is there; nothing changes |
| Tablets.Tablet.Del | src/tablet.cc:144-161 | OK exactly when the key is there; the map loses exactly this key |
| Lookups.LookupInImage | src/tablet.cc:122-142 | a key has a value in the tablet's map exactly when the bytes of the image lead from the head at 64 MB + 4 * (hash mod 1000003) along the links to a first record with that key and value |
| Lookups.PutThenGet | src/tablet.cc:46-90 | after a `Put` the bytes lead to the new value, `Get` finds it under every hash of the same bucket, and under any other key or bucket it answers as before |
| Merging.SortByOffset | src/tablet.cc:251-258 | the log becomes sorted by offset and is a permutation of what it was |
| Merging.MergeOne | src/tablet.cc:267-276 | one round of the merge loop; neither the entry being read nor those after it are overwritten |
| Merging.MergeModifications | src/tablet.cc:245-281 | ranges in order and more than 16 bytes apart, containing every entry, anchored in entries, with extra bytes only in gaps of at most 16, and source = base + offset |
| Merging.MergedPermuted | src/tablet.cc:245-281 | what merging promises does not depend on the order of the log |
| Scatter.RangesBound | src/tablet.h:71-73 | after merging there is at most one range per place where stores were made |
| Replication.ApplyPosts | src/tablet.cc:196-222 | applying the posted writes copies exactly the bytes that the ranges cover |
| Replication.ReplayRestores | src/tablet.cc:185-233 | if the log accounts for the change from one image to another, shipping the merged ranges turns the one into the other |
| Replication.StepKeeps | src/server.cc:192-257 | executing, delivering and responding keep every backup on its way to the master's image, and a response is posted only when all images are equal; `Serving.Serve` makes such steps |
| Replication.RespondsReplicated | src/server.cc:192-257 | over every run and every in-order delivery, whenever a response is posted every backup equals the master byte for byte; applies to the runs that `Serving.Serve` returns |
| Serving.LogFacts | src/allocator.h:50-58 | in every valid state each byte changed since the log was emptied is in a logged range, and logged ranges stay inside the image |
| Serving.PostRanges | src/tablet.cc:200-213 | one work request per merged range, within the 16 entries of the fixed-size tables |
| Serving.DeliverAll | src/tablet.cc:223-231 | in whatever order the queues advance, every backup ends with its target, by steps of the protocol |
| Serving.Sync | src/tablet.cc:185-233 | backups that equal the image before the operation equal the image after it; execution, delivery and response are a run of the protocol with one response |
| Serving.Execute | src/server.cc:211-231 | one request has the answer and the effect that it has on a map, and its ranges fit the tables; for every build it aborts if and only if it needs a block and no list is headed by a large enough one, and while lists are exact if and only if no free block is large enough |
| Serving.ServeOne | src/server.cc:194-256 | one round of a worker: the map's answer, all backups equal to the master when it is posted, a round of the protocol; or an abort, under the exact conditions of `Execute` |
| Serving.Serve | src/server.cc:192-257 | every sequence of requests is answered as by one map; each response is a step of one run of the protocol, and in the state after it all images are equal and hold the map of that time; for every build it stops early only when no list is headed by a large enough block, neither in the arena of the last response nor in what the request left, and unless a list was orphaned there is then no large enough free block |
| Serving.MomentNow | src/server.cc:240-255 | a round that ends with its response is a moment at which all images are equal and hold the map |
| Serving.DescribesOne | src/allocator.cc:15-21 | an image has one arena: its blocks can be read off its headers |
| Serving.DepictsHeads | src/allocator.h:124-129 | the heads of the lists can be read off the image too |
| Startup.FormatBackup | src/server.cc:29-38 | a backup formatted on its own equals the master |
| Startup.ServeFromStart | src/server.cc:13-39 | from start-up on zeroed memory, for every build that writes footers, everything that `Serve` promises holds, from the empty map and one free block: answers, moments, the run, and why it stops; the first request is always answered |
| Posting.RangeWeight | src/tablet.cc:262-277 | a merged range is no longer than its entries with a gap each |
| Posting.ShortRanges | src/tablet.cc:62-65 | the two stores of a shorter value make one range exactly for keys of at most 8 bytes |
| Posting.ShortLengths | src/tablet.cc:62-65 | how long the ranges of a shorter value are |
| Posting.FirstEndsEarly | src/tablet.cc:200-211 | when the list table was written the first range ends early, far before the bucket heads |
| Posting.SyncAsWritten | src/tablet.cc:195-222 | with the `break` every backup gets exactly the bytes of the first range |
| Posting.PutAsWritten | src/tablet.cc:46-90 | with the `break` a new key never reaches the backups; a shorter value does if and only if the key has at most 8 bytes or it is a prefix of the old value; a replaced value does not when its block moves and the link to it is the bucket head or beyond the first range, or when it stays beyond the first range with another value; it aborts under the exact conditions of `Put` |
| Posting.AddAsWritten | src/tablet.cc:92-120 | with the `break` the backups are up to date after `Add` if and only if it was refused because the key was there; it aborts under the exact conditions of `Add` |
| Posting.DelAsWritten | src/tablet.cc:144-161 | with the `break` a failed `Del` leaves the backups up to date; deleting the first record of a bucket never does, nor deleting one whose predecessor lies beyond the first range |
| Posting.GetAsWritten | src/tablet.cc:122-142 | a `Get` leaves the backups up to date |
| Posting.BreakLosesUpdate | src/tablet.cc:209-210 | a run with the null next unguarded: one `Put` on a new tablet, answered with OK and lost on its backup |
| Posting.SyncInline | src/tablet.cc:206-222 | with a limit on inline data `Sync` fails if and only if some range is longer; the first backup then gets the ranges before it, the others nothing; otherwise all are up to date |
| Posting.PutInline | src/server.cc:236-255 | a new key whose record, with its object header, exceeds the limit reaches no backup, although it is answered with OK; a shorter value is refused if and only if its range, or one of its two, exceeds the limit |
| PlainMap.PlainAnswers | src/client.cc:49-66 | for clients that hash their keys the answers are those of a plain map from keys to values |
| Placement.IdInjective | src/index.h:66-68 | different tablets have different ids |
| Placement.IdSurjective | src/index.h:66-68 | every number below the number of tablets is the id of one |
| Placement.IdDigits | src/index.h:66-68 | server, replica and tablet are the digits of an id, so that the masters come first on each server |
| Placement.HolderInverse | src/index.cc:30 | server `i` holds the `j`-th backup of server `m`'s masters exactly when `i` is `j` servers after `m`, cyclically |
| Placement.SpreadIff | src/common.h:45-55 | no server holds two replicas of a tablet if and only if there are fewer backups than servers |
| Placement.PlaceFiles | src/index.cc:13-36 | the loop body enters a tablet, its queue pairs and its link in both directions |
| Placement.PlaceKeeps | src/index.cc:13-36 | it disturbs no other tablet's entry, even when its master has not joined yet |
| Placement.Coordinator.AddServer | src/index.cc:5-41 | a server gets the next id, and all its tablets are entered |
| Placement.Coordinator.ResponseAllJoins | src/coordinator.cc:89-102 | the session of join `i` is told id `i` |
| Placement.Coordinator.HandleServerRequestJoin | src/coordinator.cc:63-87 | a join is recorded while there is room and ignored afterwards; the last one triggers the responses |
| Wiring.BackupsNameMaster | src/index.cc:28-35 | every backup that a master names is a backup, names that master, and is on another server |
| Wiring.BackupsApart | src/index.cc:28-35 | a master's backups are different and on different servers |
| Wiring.MasterNamesBackup | src/index.cc:28-35 | the tablet that a backup names is a master and names it back exactly once |
| Wiring.KeyMapMasters | src/index.cc:25-27 | every slot of the key map leads to a master, slot i * T + k to master k of server i |
| Wiring.SettingupQPConnect | src/tablet.cc:163-183 | a tablet's pairs are given the data of the pairs they are to talk to; a backup always finds itself in its master's list |
| Wiring.PerfectMatching | src/tablet.cc:163-183 | every used pair has exactly one partner, of another tablet, and is its partner's partner |
| Wiring.FlattenPairs | src/server.cc:76-81 | cutting the flattened list by position gives back each tablet's own pairs |
| Wiring.JoinAll | src/coordinator.cc:63-102 | for every sequence of joins the first N are accepted and answered together, and the index is complete |
| Wiring.OwnPairs | src/server.cc:100-109 | the server told id `i` finds at each position the tablet filed with its own queue pairs |
| Wiring.Wired | src/server.cc:100-109 | after all joins each used pair and its partner, on different servers, are connected through each other's own data |
| Routing.SlotRange | src/index.h:42-45 | the slot is in range, and each slot owns one interval of the hashes |
| Routing.SlotMonotone | src/index.h:42-45 | larger hashes never go to smaller slots |
| Routing.RoutingAgrees | src/server.cc:185-190 | the server that the client picks has that id and owns the tablet as a master, and the dispatcher's modulus picks the worker of that tablet |
| Routing.HashRouted | src/index.h:29-48 | in exact arithmetic every hash leads to a master tablet, to the server that owns it and to its worker |
| Routing.AsWrittenMonotone | src/index.h:42-45 | slots computed in double precision are monotone too, for every number of slots |
| Routing.AsWrittenInRange | src/index.h:42-45 | for every number of slots they are in range if and only if the hash is below `FirstLost`: all hashes but the 3071 topmost, but the 1024 topmost, or all |
| Routing.LostHashes | src/common.h:45-53 | two slots, as shipped, lose 1024 hashes, three lose 3071, and 93 lose none |
| Slots.SlotExactly | src/index.h:42-45 | the slot that double precision gives is s exactly when the hash's double reaches s widths, less half a unit in the last place of s, and not s + 1 |
| Slots.RightSide | src/index.h:42-45 | three parts in 2 to the 53 away from a slot boundary the computed slot is on the right side of it |
| Slots.AsWrittenAgrees | src/index.h:42-45 | at least 6144 hashes away from the boundaries of its slot, the computed slot is the exact one |
| Slots.PowerOfTwoSlots | src/index.h:42-45 | with a power of two many slots the computed slot is the exact slot of the hash rounded to a double |
| Slots.TwoSlotsExactly | src/common.h:45-53 | with two slots, as shipped: slot 0 below 2^63 - 512, slot 1 from there to 2^64 - 1024, and outside the key map above |
| Slots.HashRoutedAsWritten | src/index.h:29-48 | as computed, every hash below `FirstLost` leads to a master, its server and its worker, and the others lead outside the key map |
| Slots.FlIsDouble | src/index.h:43 | rounding a rounded quotient again changes nothing |
| Doubles.FlBelow | src/index.h:43 | exactly which quotients round to less than a given integer |
| Doubles.FlNear | src/index.h:43 | a rounded quotient is within one part in 2 to the 53 of the exact one |
| Doubles.FlOrder | src/index.h:43 | rounding keeps the order of quotients |
| Buffers.StackPush | src/infiniband.h:118-122 | a freed buffer goes on top of the pool |
| Buffers.QueuePush | src/server.h:91-101 | a buffer appended with a stale `next` still makes a proper queue |
| Buffers.QueuePop | src/server.h:103-117 | comparing head and tail ends the queue where it should |
| Buffers.Server.constructor | src/infiniband.cc:209-229 | all buffers start in the pool |
| Buffers.Server.Alloc | src/infiniband.h:110-117 | the top of the pool is taken, or null when it is empty |
| Buffers.Server.Free | src/infiniband.h:118-122 | the buffer goes on top of the pool; only its own `next` changes |
| Buffers.Server.Enqueue | src/server.h:91-101 | the buffer joins the end of the worker's queue; at most the old tail's `next` changes |
| Buffers.Server.Dequeue | src/server.h:103-117 | the oldest buffer leaves the worker's queue |
| Buffers.Server.Fill | src/server.cc:141-148 | the initial posts never find the pool empty |
| Buffers.Server.TryReceive | src/server.cc:153-166 | a completed receive moves from the posted queue to the poller |
| Buffers.Server.DispatchTo | src/server.cc:185-190 | the received buffer moves to the end of one worker's queue |
| Buffers.Server.RefillFrom | src/server.cc:176-181 | a free buffer, if any, moves to the poller to be posted |
| Buffers.Server.TakeWork | src/server.cc:196-204 | a worker takes the oldest buffer of its queue, if any |
| Buffers.Server.FinishWork | src/server.cc:254-255 | the served buffer goes back to the pool |
| Buffers.Server.Run | src/server.cc:141-257 | over every interleaving of poller and workers: what is enqueued for a worker is, in order, exactly the buffers in the poller's hand at the dispatches of requests whose tablet id is that worker modulo the workers; what it dequeues is exactly what it takes from the front; ownership stays exact |
| Buffers.Server.Perform | src/server.cc:141-257 | what each event does to pool, posted queue, hands, work queues and histories, field by field: a receive, a dispatch to the worker given by the tablet id, a refill, a post, a worker taking and finishing work |
| Buffers.QueueHistory | src/server.cc:185-190 | over every run a worker's queue gets exactly the buffers dispatched to it and gives exactly those it takes, in order |
| Buffers.RefillPosted | src/server.cc:176-181 | a buffer taken from the pool is posted before the poller looks for the next receive |
| Buffers.OnePlace | src/server.cc:141-257 | every buffer is in exactly one of pool, posted queue, work queue or hand |
| Murmur.MurmurHash2 | src/MurmurHash2.cc:37-86 | the loop computes the fold `Hash2` |
| Murmur.MurmurHashNeutral2 | src/MurmurHash2.cc:339-381 | so does the endian-neutral form |
| Murmur.MurmurHashAligned2 | src/MurmurHash2.cc:394-520 | so does the aligned form, for every alignment, reading words only at aligned addresses |
| Murmur.Straddle | src/MurmurHash2.cc:425-443 | the shifted halves of two aligned words are the word that straddles them |
| Murmur.MurmurHash2A | src/MurmurHash2.cc:206-243 | the loop computes the fold `Hash2A` |
| Murmur.Hasher.MixTail | src/MurmurHash2.cc:309-325 | the registers stay those of the bytes taken so far; it stops at the end or at a word boundary |
| Murmur.Hasher.Add | src/MurmurHash2.cc:273-290 | the hasher's state is that of everything added so far |
| Murmur.Hasher.End | src/MurmurHash2.cc:292-302 | the result is the hash of everything added |
| Murmur.HashChunks | src/MurmurHash2.cc:261-331 | for every way of cutting a key, the incremental hash is MurmurHash2A of the whole |
| Separation.KnownAnswers | src/MurmurHash2.cc:37-86 | the hashes of the empty key, of "abcd" and of "abcde" in both forms |
| Separation.WordOnceHashed | src/MurmurHash2.cc:37-86 | under every seed, keys of equal length that differ in one word only, or only after the last whole word, have different hashes, in both forms |
| Separation.SeedOnce | src/MurmurHash2.cc:206-243 | for every key the hash is one-to-one in the seed, in both forms |
| Separation.UndoMix | src/MurmurHash2.cc:53-62 | mixing a word into a hash can be undone, for the word and for the hash |
| Separation.UndoFinish | src/MurmurHash2.cc:77-84 | the last mixes can be undone |
| KeyHashes.MurmurHash64B | src/MurmurHash2.cc:142-191 | the loop computes the two-lane fold `Hash64`, from which clients take the hash of a key |
| KeyHashes.KeysApart | src/MurmurHash2.cc:142-191 | under every seed, keys of equal length that differ within one block of eight bytes, or only after the last whole block, have different hashes: keys of one length of at most eight bytes never collide |
| KeyHashes.SeedsApart | src/MurmurHash2.cc:142-191 | for every key the hash is one-to-one in the seed |
| KeyHashes.KnownHashes | src/hash.h:18-24 | the hashes of the empty key, of "abcde" and of "abcdefghi" with the seed that clients use |

## Left out

- InfiniBand verbs, memory registration, queue-pair states and completion polling: foreign calls. A reliable
  connection is taken to apply writes in order, with the last completion implying the earlier ones
  (section 9.5 of the InfiniBand Architecture Specification, Volume 1).
- Transport errors and what follows them: the replication theorems assume that every post is accepted and completes.
- TCP sessions, JSON encoding and the message framing of joins: field-by-field copies.
- Send buffers of the server (`src/server.cc:207-208`): their availability depends on completion timing.
- Progress of spin loops and condition variables: each lock-protected operation is one atomic step, and only safety is stated.
- `cnt_writes_`, measurements and logging: counters without effect on the image.
- MurmurHash64A: the same loop over wider words, not used by the store. Requests carry an arbitrary 64-bit hash.
- 32-bit overflow of tablet ids: `CalcTabletId` is modelled on unbounded numbers, since the number of tablets is a compile-time constant. The subtraction in `MasterOf` does wrap.
- Routing.SlotAsWritten: exponents of doubles are not bounded and the conversion to 32 bits is not modelled; no number involved comes near either limit for fewer than 2^32 slots.
- Tablets.Tablet.Put: when it aborts for lack of space after freeing the old record, only the arena is described, not the table; the process ends there.
- Posting.PutAsWritten: for a replaced value the condition with the `break` goes one way: a record within reach of the first range may arrive, and a moved block may find its bytes already there.
- Posting.DelAsWritten: for a later record the condition with the `break` goes one way, since a predecessor within reach of the first range may arrive.
- Posting.SyncInline: describes the backups once everything posted has arrived; the response may be sent before that.
- Benchmarks, samples and the older InfiniBand wrapper: not part of the store.
