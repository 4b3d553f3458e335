# Verified models of the replicated key-value store, its libraries, and the allocator

The repository's hardest code is in `hw4`, a key-value store that replicates every key with two-phase
commit, and in `hw3`, a memory allocator. This project models both in Dafny and proves what they are for.
`dafny verify dfyconfig.toml` checks everything.

**Two-phase commit** (`KvConstants`, `Follower`, `HashRing`, `TwoPhaseCommit`, `Network`, `Leader`).
`Follower.Handle` is what one follower does with one request. `TwoPhaseCommit` runs the leader's two phases
against such followers as a state machine in which every exchange may be lost on the way there, lost on the
way back, or answered. The main theorems hold in every reachable state of every run, from any stores and any
contents of the followers' pending slots, for any placement of copies on distinct followers: each follower
carries out exactly the committed transactions on its keys, once and in order (`ExactlyOnce`); between
transactions all followers hold their share of one map (`Agreement`); a transaction happens on all replicas
or on none (`Atomicity`). `Leader` is the imperative leader, with its linked ring and its loops, and its
methods are proved to take steps of that machine. What the network does is their input. `Leader.TpcLeader.Session`
puts it together: each request succeeds exactly if its votes arrive and, for a DELETE, its key is there; the followers
end up with the replay of exactly the transactions that succeeded; and the last of those that wrote a key decides what a
GET of it finds: the value put, if a replica can be reached, or nothing after a DELETE.

**Storage** (`CText`, `HashChains`, `Directory`, `KvStore`, `TpcLog`, `KvServer`). The directory is a map
from file names to contents. The store refines a map and the log refines a sequence, for every hash
function; the file-backed server refines `Follower.Handle`.

**MD5** (`Md5Spec`, `Md5Block`, `BlockStream`, `Md5`, `Md5Vectors`). The specification is the digest of RFC 1321 on a
whole message. `Md5.HashChunks` proves the streaming code equal to it, however the message is cut. `Md5Vectors` computes
two digests of section A.5 of RFC 1321 from it, operation by operation, so that its tables and initial words are the right ones.

**uthash and utlist** (`Buckets`, `UtHash`, `SortSpec`, `ListSort`). `UtHash.Fsck` is the library's own
integrity check as a predicate on linked items; every add, delete, replace and expansion keeps it, and the table
answers as a plain map does. The four list sorts are one algorithm, proved to be a stable sort that restores
the links of each kind of list.

**The allocator** (`HeapBlocks`, `HeapSpec`, `HeapEffects`, `Allocator`, `Release`, `StaleLinks`, `ProcessHeap`). Memory is a sequence
of cells in which headers and data overwrite each other. Each call is proved to do to the list of blocks what `HeapSpec`
says (`Allocated`, `Freed`), to keep the tiling and to leave other live payloads alone. `HeapEffects` says what those lists
are in terms of the blocks alone: which block a request gets, what a release gives back, and exactly when two free blocks
can come to lie side by side. The code never rewrites the
back-link of the block behind a split or a merge; `AllocatedMirror` and `FreedMirror` say exactly when one goes stale.
A split leaves a link to a block, a merge leaves a link into the merged block. `Release.MmFree` covers both, and
`FreeTilesIffSafe` says exactly when mm_free then keeps the tiling: unless the link leads to an earlier free block that
is not the neighbour. `KeptUnlessClobbered` says exactly when it also leaves every other live payload alone. One call from
a heap whose links are right never gets there (`SafeAfterMalloc`, `SafeAfterFree`); three calls can (`StaleLinkArises`).

**The wire format** (`CStrings`, `Url`, `Http`, `HttpResponse`, `KvMessage`, `WireFormat`). `CStrings` models strchr, strstr,
strncmp and strtol, with the prefix comparisons that the parsers' length arguments amount to. The round trips
are equivalences: receiving undoes sending on exactly the requests described. `WireFormat` gives the lines letter by letter.

## Reading the code

Where the code and its comments disagree, the model follows the code.

- A registration at full capacity is refused even if the follower is registered already
  (`hw4/src/tpcleader.c:46`; the comment above it says otherwise).
- A logged COMMIT is not redone after a restart, though `hw4/src/kvserver.c:231-234` promises it. The server logs
  through a copy of its log structure (`hw4/src/kvserver.c:129`), so every request of one process goes to the
  same file, which is created read-only. `KvServer.RestartAfterCommit` states what happens instead,
  `KvServer.CommitRedoneIff` when that is what was promised, and `KvServer.CommitLost` gives a store that loses an update.
- A follower ignores the result of its check of a PUT and votes to commit (`hw4/src/kvserver.c:140-145`). A PUT outside
  the limits is therefore committed, and changes no store (`Follower.Apply`).
- `http_is_valid_method`, `param_ptr` and the test for Content-Length compare only as many characters as the input has,
  so any prefix of the expected word is accepted. `Http.MethodPrefix`, `Url.WithField` and `HttpResponse.HeaderAt` say so.
- `http_response_parse` copies the body into a buffer of the announced length. A text on which it leaves a buffer
  is `HttpResponse.Overrun`: `OverrunIff` and `OverrunCauses` say which texts those are, and `ResponseOverruns` gives one.
- mm_free of a block whose back-link leads to an earlier free block that is not its neighbour breaks the heap.
  `StaleLinks.StaleLinkArises` is a run of two requests and one release that gets there from a perfect heap. If the link
  leads into a live payload, at bytes that read as a free header, those bytes are overwritten (`Release.Clobbers`).

Modelling choices. Remote followers are values in `Network.nodes`, and `KvServer` is proved to implement the same
handler on files. Hash functions are parameters, so every result holds for every hash. Error texts are an
enumeration (`Body`), and file names are structured keys. What the network does (`Leader.Fate`, the replicas that are up)
and whether sbrk moves the break are parameters, and every result holds for every choice; the loop that
repeats a decision may lose any finite number of exchanges, since it ends only if an answer arrives at last. The
protocol hands requests to followers as values: `KvMessage.TransmitRequest` shows that the codec delivers them unchanged
when the printed URL is shorter than 128 characters and the key and value have no &, space or newline, which `Session`
does not require. An item of a
hash table and its handle are one object. Bucket masks are remainders, justified by `MaskIsRemainder`. Integers
are unbounded except where width matters (MD5's words and counters, strtol and the int it is stored in).

## Model

| member | source | states |
|---|---|---|
| TwoPhaseCommit.VoteEffect | hw4/src/kvserver.c:138-158 | asking for a vote never touches the store; the vote is to commit exactly if the update is acceptable, and then the slot holds it |
| TwoPhaseCommit.CommitEffect | hw4/src/kvserver.c:160-176 | COMMIT carries out the prepared update and empties the slot; repeated, it does nothing; both are acknowledged |
| TwoPhaseCommit.AbortEffect | hw4/src/kvserver.c:177-182 | ABORT empties the slot, touches nothing else, and is acknowledged |
| Follower.Answers | hw4/src/kvserver.c:138-196 | what a follower does with each kind of request and how it answers, with the limits in numbers |
| TwoPhaseCommit.NextKeepsInv | hw4/src/tpcleader.c:181-271 | every step of the protocol keeps the invariant that relates slots, stores, carried-out updates and decisions |
| TwoPhaseCommit.RunKeepsInv | hw4/src/tpcleader.c:181-271 | so does every run, of any length |
| TwoPhaseCommit.ExactlyOnce | hw4/src/tpcleader.c:195-262 | in every run, each follower has carried out exactly the committed transactions on its keys, once and in order, its store is their replay, and none reads a null slot |
| TwoPhaseCommit.Agreement | hw4/src/tpcleader.c:181-271 | between transactions of every run, every follower holds its share of one map, the replay of the committed transactions |
| TwoPhaseCommit.ReplicasAgree | hw4/src/tpcleader.c:181-271 | the same key by key: a follower has a key exactly if it is one of its replicas and the key is in the map, with that value |
| TwoPhaseCommit.ShareReplay | hw4/src/tpcleader.c:188-262 | replaying its own transactions on its own share leads a follower to its share of the whole replay |
| TwoPhaseCommit.PolledVotes | hw4/src/tpcleader.c:195-217 | over every run of the polls, nothing changes but slots, and the count of refusals is that of the votes that were lost or against |
| TwoPhaseCommit.DecisionIsUnanimous | hw4/src/tpcleader.c:195-228 | over every such run, the decision is COMMIT if and only if every vote arrives and every replica accepts |
| TwoPhaseCommit.UnanimousAgreed | hw4/src/tpcleader.c:195-228 | with followers that agree on a map, they accept exactly what the map allows |
| TwoPhaseCommit.Atomicity | hw4/src/tpcleader.c:195-270 | from any reachable state, a transaction is carried out once by each replica and by nobody else, or changes no store at all |
| TwoPhaseCommit.NotifyAdvances | hw4/src/tpcleader.c:235-259 | an answered COMMIT or ABORT is always an ACK, so the retry loop moves on |
| TwoPhaseCommit.CanFinish | hw4/src/tpcleader.c:231-271 | no reachable state blocks: the leader finishes in a fixed number of steps once replies arrive |
| HashRing.PrimaryIsLeastAbove | hw4/src/tpcleader.c:101-122 | the primary is the least id above the key's hash, or the least id of all if there is none |
| HashRing.ReplicasSucceed | hw4/src/tpcleader.c:106-133 | the first replica is the primary, and each next one the least id above the one before, or the least of all |
| HashRing.ReplicasDistinct | hw4/src/tpcleader.c:188-220 | the successor walk from the primary visits pairwise distinct ring members |
| HashRing.RegistrationRun | hw4/src/tpcleader.c:45-99 | every run of registrations leaves a strictly ascending ring within capacity, of ids that registered; one that is not full has accepted all |
| HashRing.ArrivalOrderIrrelevant | hw4/src/tpcleader.c:71-94 | the ring depends on the set of accepted ids, not on the order of arrival |
| HashRing.PermutedArrivals | hw4/src/tpcleader.c:45-99 | if everyone fits, all are accepted and every order of arrival gives the same ring |
| HashRing.FullRingFrozen | hw4/src/tpcleader.c:46-50 | a full ring never changes again |
| HashRing.InsertAt | hw4/src/tpcleader.c:73-94 | the place where the walk stops is where an ascending insertion belongs |
| Leader.RingConfigValid | hw4/src/tpcleader.c:188-190 | placing copies on the ring puts them on distinct followers |
| Leader.FirstState | hw4/src/tpcleader.c:25-33 | before the first transaction the protocol is in an initial state, with any stores and slots |
| Leader.TpcLeader.constructor | hw4/src/tpcleader.c:19-35 | an empty ring, with redundancy clamped to the capacity |
| Leader.TpcLeader.Register | hw4/src/tpcleader.c:45-99 | keeps the circular doubly linked list sound; the ids are the old ones and, if there was room, the hash of the port, a colon and the host; a follower with that host and port is linked in unless its id was there; the response says whether there was room |
| Leader.TpcLeader.FindPlace | hw4/src/tpcleader.c:71-89 | the walk finds the first follower with an id of at least the given one |
| Leader.TpcLeader.Splice | hw4/src/tpcleader.c:74-94 | linking the new follower in keeps the ring sound and inserts its id |
| Leader.Link | hw4/src/tpcleader.c:75-78 | four pointer assignments turn the ring of `ms` into the ring with one more node |
| Leader.TpcLeader.GetPrimary | hw4/src/tpcleader.c:106-122 | the loop returns the ring's primary for the key, or null before the ring is full |
| Leader.GetSuccessor | hw4/src/tpcleader.c:127-133 | the next follower of the walk along the ring |
| Leader.CollectVotes | hw4/src/tpcleader.c:188-217 | the phase 1 loop takes the protocol's polling steps over the replicas, in order, and counts the refusals among the given votes |
| Leader.TellUntilAcked | hw4/src/tpcleader.c:235-259 | the retry loop takes notification steps, with the given losses, until this replica is settled |
| Leader.SpreadDecision | hw4/src/tpcleader.c:219-262 | the phase 2 loop settles every replica, the same ones as in phase 1 |
| Leader.TpcLeader.HandleTpc | hw4/src/tpcleader.c:181-271 | SUCCESS, and a commit, exactly if every vote arrives and every replica accepts; then each replica has carried the transaction out once, otherwise no store has changed |
| Leader.TpcLeader.HandleGet | hw4/src/tpcleader.c:139-171 | with followers that agree on a map, the key's value in it exactly if some replica is up and the key, of at most 1024 characters, is there, otherwise the no-key error; nothing changes |
| Leader.TpcLeader.HandleTxn | hw4/src/tpcleader.c:181-271 | with followers that agree on a map, SUCCESS exactly if every vote arrives and, for a DELETE, the key is within limits and there; on SUCCESS within limits they then agree on the map with the pair put or the key removed, and otherwise on the same map |
| Leader.TpcLeader.Session | hw4/src/tpcleader.c:278-303 | any sequence of transactions and any losses: each succeeds exactly as above, on what the last earlier success with its key left there; a GET returns the value of the last PUT that succeeded exactly if a replica is up, the no-key error after a DELETE, and otherwise what was there before |
| Leader.LastWriteDecides | hw4/src/tpcleader.c:181-271 | in the replay of the transactions that succeeded, each key has what the last one within limits that wrote it says, or what it had before |
| Network.Network.Call | hw4/src/tpcleader.c:197-200 | one exchange is the protocol's step for the chosen delivery |
| HashChains.WriteUpdates | hw4/src/kvstore.c:120-160 | writing over the old pair of a key, or at the end of its chain, keeps the chains and updates the map |
| HashChains.TrimRemoves | hw4/src/kvstore.c:193-201 | removing the last pair of a chain keeps the chains and removes its key from the map |
| HashChains.SwapRemoves | hw4/src/kvstore.c:193-212 | moving the last pair of a chain into the hole keeps the chains and removes exactly the key that was there |
| HashChains.SearchedChain | hw4/src/kvstore.c:36-86 | a key not met before the first gap of its chain is nowhere |
| HashChains.SamePairsUnique | hw4/src/kvstore.h:28-32 | a directory stands for one map only |
| KvStore.Scan | hw4/src/kvstore.c:48-83 | the probing loop ends at the key's file or at the end of its chain |
| KvStore.KvStore.FindEntry | hw4/src/kvstore.c:36-86 | finds a key exactly if the map has it, with its value and position, and otherwise the right error |
| KvStore.KvStore.HasKey | hw4/src/kvstore.c:89-91 | membership in the map |
| KvStore.KvStore.Get | hw4/src/kvstore.c:96-102 | lookup in the map, or the right error |
| KvStore.KvStore.Put | hw4/src/kvstore.c:120-160 | update of the map if key and value have at most 1024 characters, and no change but the right error otherwise; one file is written, the old one of the key or the first gap of its chain, with key, NUL, value, NUL |
| KvStore.KvStore.DelCheck | hw4/src/kvstore.c:164-173 | passes exactly if the key is within limits and in the map |
| KvStore.KvStore.Del | hw4/src/kvstore.c:178-215 | removal from the map, with the chains kept for every hash function |
| CText.PackedReads | hw4/src/kvstore.c:150-155 | key and value can be read back from their packed layout |
| TpcLog.DumpDecodes | hw4/src/tpclog.c:57-69 | a logged message is decoded as it was logged |
| TpcLog.TpcLog.constructor | hw4/src/tpclog.c:16-36 | opening a directory finds the next free id |
| TpcLog.TpcLog.Log | hw4/src/tpclog.c:42-81 | appends one message, as a file of the right type, length and bytes; a file already there can only be reopened by a superuser, and is not truncated |
| TpcLog.TpcLog.Next | hw4/src/tpclog.c:134-147 | the next entry, if its file is as long as it says |
| TpcLog.TpcLog.Clear | hw4/src/tpclog.c:152-169 | removes the files from 0 to the first gap |
| TpcLog.ReadAll | hw4/src/tpclog.c:112-147 | a full iteration meets every file from 0 to the first gap, in order |
| TpcLog.LogSession | hw4/src/tpclog.c:16-169 | any sequence of appends, clears and reopenings: iteration yields exactly the messages since the last clear, oldest first |
| KvServer.KvServer.PutCheck | hw4/src/kvserver.c:76-85 | passes exactly for keys of 1 to 1024 and values of at most 1024 characters, with the right error otherwise |
| KvServer.KvServer.Put | hw4/src/kvserver.c:89-95 | puts the pair into the map if it is within the limits, and changes nothing otherwise |
| KvServer.KvServer.DelCheck | hw4/src/kvserver.c:99-106 | passes exactly if the key is within limits and present, with the right error otherwise |
| KvServer.KvServer.Del | hw4/src/kvserver.c:110-116 | removes the key from the map if it is within limits and there, and changes nothing otherwise |
| KvServer.KvServer.Get | hw4/src/kvserver.c:66-72 | reads the map |
| KvServer.KvServer.HandleTpc | hw4/src/kvserver.c:125-197 | the file-backed server does to its map and slot, and answers, what the protocol's follower does, and logs the request |
| KvServer.RequestLogged | hw4/src/kvserver.c:128-133 | the log file that each kind of request leaves, byte by byte |
| KvServer.KvServer.CommitPending | hw4/src/kvserver.c:160-176 | carries out the pending update once and empties the slot |
| KvServer.LastEntry | hw4/src/kvserver.c:238-248 | the loop of a rebuild ends with the last entry of the log |
| KvServer.KvServer.Restore | hw4/src/kvserver.c:250-302 | what rebuilding does with the last entry |
| KvServer.KvServer.constructor | hw4/src/kvserver.c:19-39 | a started server is in the state that rebuilding gives |
| KvServer.PutSurvivesRestart | hw4/src/kvserver.c:236-268 | for every earlier log and every contents of the new slot memory, a PUT logged first by a process is pending again after a restart |
| KvServer.LastMessageDecides | hw4/src/kvserver.c:250-302 | what a restart makes of each kind of message that ends the log, for every store and slot memory |
| KvServer.RestartAfterCommit | hw4/src/kvserver.c:225-302 | after PUT and COMMIT, a restart with any slot memory returns an ordinary user to the prepared PUT, and carries out for a superuser whatever the slot memory names |
| KvServer.CommitRedoneIff | hw4/src/kvserver.c:231-234 | the promised redo happens if and only if the store already holds the pair or it is outside the limits, or a superuser's slot memory happens to name an update with the same effect |
| KvServer.CommitLost | hw4/src/kvserver.c:231-234 | a concrete store and pair for which the committed update is lost |
| KvServer.RestartAfterPut | hw4/src/kvserver.c:125-143 | with real processes on one directory: prepare, stop, start again, same slot and store |
| Md5Block.FIsChoice | hw4/src/md5.c:51 | the rewritten F is F of section 3.4 of RFC 1321 |
| Md5Block.GIsChoice | hw4/src/md5.c:52 | the rewritten G is G of section 3.4 of RFC 1321 |
| Md5Block.TurnIsTurn | hw4/src/md5.c:60-63 | the STEP macro is the operation of section 3.4 of RFC 1321 |
| Md5Block.ProcessBlock | hw4/src/md5.c:93-198 | sixty-four unrolled operations are the block function of section 3.4 of RFC 1321 |
| Md5.Body | hw4/src/md5.c:93-198 | the loop folds the block function over the data |
| Md5.CountedCounts | hw4/src/md5.c:216-219 | the carry test keeps the 29-bit and 32-bit counters counting bytes, across any overflow |
| Md5.CountsAreBits | hw4/src/md5.c:264-272 | the two counters hold the length in bits modulo 2^64, as section 3.2 of RFC 1321 asks |
| Md5.LengthBytes | hw4/src/md5.c:264-272 | the eight bytes written for the length are its little-endian form |
| BlockStream.AbsorbFill | hw4/src/md5.c:231-234 | completing the carried block and processing it is the same as folding the longer message |
| BlockStream.FoldConcat | hw4/src/md5.c:237-240 | folding two parts one after the other is folding the whole |
| Md5.Context.constructor | hw4/src/md5.c:200-209 | nothing absorbed |
| Md5.Context.Update | hw4/src/md5.c:211-243 | the context has absorbed that much more of the message |
| Md5.Context.Final | hw4/src/md5.c:245-294 | pads as sections 3.1 and 3.2 of RFC 1321 say and returns the digest of everything absorbed |
| Md5.HashChunks | hw4/src/md5.c:200-294 | for every message and every way to cut it, the digest of the whole message |
| Md5Vectors.EmptyDigest | hw4/src/md5.c:200-294 | the specification gives the digest of the empty message in section A.5 of RFC 1321 |
| Md5Vectors.LettersDigest | hw4/src/md5.c:200-294 | and that of the 62 letters and digits there, which take two blocks |
| BucketMath.MaskIsRemainder | hw4/src/uthash.h:207-210 | masking with the bucket count less one is the remainder |
| BucketMath.ShiftIsQuotient | hw4/src/uthash.h:688-690 | shifting right by the logarithm is division |
| BucketMath.IdealIsCeiling | hw4/src/uthash.h:688-690 | shift and mask compute the ceiling of items per new bucket |
| BucketMath.IdealPositive | hw4/src/uthash.h:699-703 | the expansion never divides by zero |
| BucketMath.DoubledBucket | hw4/src/uthash.h:697 | an item of bucket i goes to i or to i plus the old bucket count |
| BucketMath.NoExcess | hw4/src/uthash.h:691-702 | no item is counted as nonideal exactly if every chain is within the ideal length |
| UtHash.Rehash | hw4/src/uthash.h:691-711 | all items, and no others, are in twice as many buckets, each where its hash says, with links and counts right; the items beyond the ideal are counted exactly |
| UtHash.Expand | hw4/src/uthash.h:677-723 | expansion keeps the table sound and its items; the ideal, the nonideal count, and when further expansion is inhibited |
| UtHash.MoveItem | hw4/src/uthash.h:696-709 | one item moves to the front of its new bucket, counted as nonideal exactly if it exceeds the ideal; head, count and expand_mult of the bucket, and no other bucket changed |
| UtHash.InsertInBucket | hw4/src/uthash.h:622-633 | one more item, sound buckets, and expansion exactly when the bucket has ten items for each unit of expand_mult and one more |
| UtHash.FindInBucket | hw4/src/uthash.h:608-619 | the walk finds an item with the key if the table has one of that hash |
| UtHash.DelInBucket | hw4/src/uthash.h:636-647 | exactly one item less, in sound chains |
| UtHash.AddItem | hw4/src/uthash.h:182-205 | HASH_FSCK passes after the addition, with the item last in application order; the first item gets a table of 32 buckets |
| UtHash.DeleteItem | hw4/src/uthash.h:224-257 | HASH_FSCK passes after the deletion, and the others keep their order |
| UtHash.HashTable.Find | hw4/src/uthash.h:103-114 | agrees with a plain map |
| UtHash.HashTable.Add | hw4/src/uthash.h:182-205 | a plain map update, through any expansion |
| UtHash.HashTable.Delete | hw4/src/uthash.h:224-257 | a plain map removal |
| UtHash.HashTable.Replace | hw4/src/uthash.h:172-180 | a plain map update that returns what was there |
| UtHash.SortedFsck | hw4/src/uthash.h:803-813 | new application-order links for the same items in sorted order, with the bucket links untouched, pass HASH_FSCK and stand for the same map |
| UtHash.Operate | hw4/src/uthash.h:103-257 | every sequence of adds, replaces, deletes and lookups finds the very item that the last replacement or effective addition of its key stored, or nothing after a deletion, for every hash function |
| UtHash.AnswersFindLast | hw4/src/uthash.h:103-257 | what a plain map answers, in terms of the operations alone |
| SortSpec.MergeSorts | hw4/src/utlist.h:133-153 | merging sorted runs gives a sorted run |
| SortSpec.MergeStable | hw4/src/utlist.h:133-153 | merging keeps elements that compare equal in order |
| SortSpec.PassDoublesRuns | hw4/src/utlist.h:118-163 | a pass doubles the length of the sorted runs |
| SortSpec.SortIsCorrect | hw4/src/utlist.h:108-165 | for every comparison a permutation; for a total preorder sorted and stable |
| SortSpec.SameOrder | hw4/src/utlist.h:108-165 | sequences with the same equivalents of each element have equivalent elements in the same order |
| ListSort.MergeRuns | hw4/src/utlist.h:133-153 | the inner loop relinks the nodes into the merge of the two runs, which `SortSpec.MergeSorts` and `MergeStable` describe |
| ListSort.MergeStep | hw4/src/utlist.h:133-150 | one turn of it takes from the first run exactly if the second is used up or cmp of the two heads is not positive |
| ListSort.OnePass | hw4/src/utlist.h:119-158 | one pass over the list is the specification's pass, and counts its merges |
| ListSort.Sort | hw4/src/utlist.h:108-304 | the nodes end up in the specification's order, and the loop ends for every list and every comparison |
| ListSort.CloseList | hw4/src/utlist.h:220-221 | head and tail links of each kind of list are restored |
| ListSort.SortList | hw4/src/uthash.h:730-815 | the same nodes with every next, prev, head and tail link of their kind of list; if cmp(a, b) <= 0 is total and transitive on the data, they ascend under it and nodes that compare equal keep their order |
| HeapBlocks.TilingAccountsForAll | hw3/mm_alloc.c:62-77 | the blocks of a tiled heap account for every byte |
| HeapBlocks.ReplacedTiled | hw3/mm_alloc.c:45-112 | rewriting some consecutive blocks so that they show others that fill the same place keeps the tiling |
| HeapSpec.PayloadsDisjoint | hw3/mm_alloc.c:118-158 | payloads of different blocks of a tiled heap do not overlap |
| HeapSpec.ReplacedMirror | hw3/mm_alloc.c:45-112 | such a rewriting loses a back-link only behind it, and exactly when its last block has moved |
| HeapSpec.AllocatedMirror | hw3/mm_alloc.c:90-112 | mm_malloc leaves a back-link wrong exactly at the block that follows a split |
| HeapSpec.FreedMirror | hw3/mm_alloc.c:45-59 | mm_free leaves a back-link wrong exactly at the block that follows a merge |
| HeapSpec.AllocatedBytes | hw3/mm_alloc.c:118-158 | mm_malloc adds exactly what sbrk granted, and otherwise conserves bytes |
| HeapSpec.FreedBytes | hw3/mm_alloc.c:201-213 | mm_free conserves bytes |
| HeapSpec.NothingFitsBefore | hw3/mm_alloc.c:20-27 | the first fit is the first: no block before it is free and large enough |
| HeapEffects.AllocatedProvides | hw3/mm_alloc.c:118-158 | mm_malloc cuts its block from the first free one that is large enough, leaving a free block if at least 36 bytes more are there, or adds one at the break; all other blocks stay |
| HeapEffects.FreedReclaims | hw3/mm_alloc.c:45-59 | mm_free leaves one free block from the first byte of the free block before, if the back-link leads there, to the last byte of the free block behind; all other blocks stay |
| HeapEffects.AllocatedCoalesced | hw3/mm_alloc.c:118-158 | mm_malloc never leaves two free blocks side by side where there were none |
| HeapEffects.FreedCoalesced | hw3/mm_alloc.c:45-59 | mm_free does if and only if the block before is free and the back-link does not lead there |
| Allocator.FreeBlockOrNah | hw3/mm_alloc.c:20-27 | the loop finds the first fit, or the last block if there is none |
| Allocator.SplitBlockSafe | hw3/mm_alloc.c:90-112 | two headers with the right links and sizes, a cleared first part, and nothing else changed |
| Allocator.ExtendHeap | hw3/mm_alloc.c:63-77 | if sbrk moves the break, a cleared block there, linked behind the last one; otherwise no change |
| Allocator.MmMalloc | hw3/mm_alloc.c:118-158 | NULL, and no change, exactly if the size is 0, or nothing fits and sbrk refuses; otherwise first fit: the specified list of blocks, still tiling the heap, a cleared payload, every live block and payload as it was |
| Release.CombineBlock | hw3/mm_alloc.c:45-59 | what the two conditional header writes leave in memory, whatever the back-link |
| Release.UnflaggedFree | hw3/mm_alloc.c:45-59 | a back-link that finds no free header: the block is merged with a free block behind it, and other live payloads are unchanged |
| Release.NeighbourFree | hw3/mm_alloc.c:52-57 | a back-link to the neighbour, which is free: both neighbours are merged, and other live payloads are unchanged |
| Release.DanglingFree | hw3/mm_alloc.c:52-57 | a back-link into a payload, at a header marked free: the heap stays tiled, and only the bytes of that header change in it |
| Release.ReleasedTiled | hw3/mm_alloc.c:201-213 | with any safe back-link, mm_free keeps the tiling, with the specified list of blocks |
| Release.KeptUnlessClobbered | hw3/mm_alloc.c:201-213 | every other live block and payload is as it was if and only if the back-link does not lead to a free header inside a live payload |
| Release.MmFree | hw3/mm_alloc.c:201-213 | mm_free of any live block: the bytes it leaves, a free block that takes in the free neighbours, and with a safe back-link all of the above |
| ProcessHeap.MmRealloc | hw3/mm_alloc.c:160-199 | NULL, and no change, exactly if the size is 0, or nothing is large enough and sbrk refuses; otherwise the first min(old, new) bytes are in a live block that was not in use, cut from the first that fits or new, the growth is cleared, the old bytes are free, and every other live block and payload is as it was, even if the inner mm_malloc splits the block before, which is the only way it leaves two free blocks side by side where there were none |
| ProcessHeap.Heap.Malloc | hw3/mm_alloc.c:118-158 | the same as MmMalloc on the process's heap, with the block it returns: cut from the first that fits, or new; free blocks stay apart |
| ProcessHeap.Heap.Free | hw3/mm_alloc.c:201-213 | the same as MmFree on the process's heap, when free blocks stay apart, and that nothing tiles the heap after an unsafe one |
| ProcessHeap.Heap.Realloc | hw3/mm_alloc.c:160-199 | the same as MmRealloc on the process's heap |
| StaleLinks.NotTiled | hw3/mm_alloc.c:45-59 | headers decide the tiling: a chain that misses its next block tiles nothing |
| StaleLinks.FreeTilesIffSafe | hw3/mm_alloc.c:45-59 | mm_free leaves a tiled heap if and only if the back-link does not lead to an earlier free block other than the neighbour |
| StaleLinks.SafeAfterMalloc | hw3/mm_alloc.c:90-112 | after mm_malloc on a heap whose back-links are right, every block can be freed safely |
| StaleLinks.SafeAfterFree | hw3/mm_alloc.c:45-59 | after mm_free on such a heap, every block can be freed safely, the one behind a merge included |
| StaleLinks.StaleLinkArises | hw3/mm_alloc.c:90-112 | a concrete run after which the next mm_free is unsafe |
| CStrings.PrefixCompared | hw4/src/liburl.c:11-17 | strncmp with the length of the input is a test for a prefix |
| CStrings.StrtolNumeral | hw4/src/libhttp.c:129 | strtol reads back any numeral that fits a long |
| Url.UrlDecode | hw4/src/liburl.c:19-73 | the two-pointer walk computes what splitting at ?, & and = and taking fields from left to right gives |
| Url.UrlEncode | hw4/src/liburl.c:75-90 | the printed text without its last character |
| Url.UrlRoundTrip | hw4/src/liburl.c:19-90 | decoding undoes encoding if and only if the path is not empty and has no ?, and the parameters have no & |
| Url.DecodedClean | hw4/src/liburl.c:19-73 | whatever the URL, what is decoded could have been encoded |
| Http.HttpRequestParse | hw4/src/libhttp.c:18-66 | accepts exactly the texts that start with a request line, and returns its parts |
| Http.HttpIsValidMethod | hw4/src/libhttp.c:156-161 | accepts exactly the prefixes of the four methods |
| Http.RequestLineUnique | hw4/src/libhttp.c:34-59 | a text has at most one request line |
| HttpResponse.ReadHeaders | hw4/src/libhttp.c:115-134 | the loop over the headers computes the position of the body and the announced length, or how it fails |
| HttpResponse.HttpResponseParse | hw4/src/libhttp.c:77-147 | the whole parser, including where it leaves its buffers |
| HttpResponse.AcceptedResponse | hw4/src/libhttp.c:90-140 | an accepted response has a known code and version, a blank line before its body, ends with its body, and announces at least its length |
| HttpResponse.OverrunIff | hw4/src/libhttp.c:135-140 | headers that end at e and announce n bytes lead outside a buffer if and only if fewer than 4 characters or more than n follow e |
| HttpResponse.OverrunCauses | hw4/src/libhttp.c:104-140 | the only other ways there are a code without a text and headers that never end in a text that ends in a newline |
| HttpResponse.AnnouncedLength | hw4/src/libhttp.c:127-140 | a built response that announces n bytes is read back if its body has at most n, and overruns otherwise, for every body and every n |
| HttpResponse.ResponseOverruns | hw4/src/libhttp.c:137-140 | a concrete response that overruns |
| HttpResponse.ResponseRoundTrip | hw4/src/libhttp.c:77-147 | the parser reads back code and body of every response the builder writes, whatever the body |
| KvMessage.Outbound.AddHeader | hw4/src/libhttp.c:241-243 | appends a header line |
| KvMessage.KvRequestSend | hw4/src/kvmessage.c:134-150 | the request line and blank line sent, or nothing for a type without a method |
| KvMessage.KvRequestReceive | hw4/src/kvmessage.c:13-61 | what the one request line of the text means, and nothing if there is none |
| WireFormat.RequestLines | hw4/src/kvmessage.c:102-150 | the text sent for GET, PUT, DELETE and a registration |
| WireFormat.DecisionLines | hw4/src/kvmessage.c:102-150 | the text sent for COMMIT and ABORT |
| WireFormat.GetLines | hw4/src/kvmessage.c:23-28 | a GET line asks for the index without a key, and for the key's value with one |
| WireFormat.PutLines | hw4/src/kvmessage.c:29-31 | a PUT line is a PUT with key and value, and refused without |
| WireFormat.DeleteLines | hw4/src/kvmessage.c:32-34 | a DELETE line is a DELETE with a key, and refused without |
| WireFormat.RegisterLines | hw4/src/kvmessage.c:35-39 | a POST to register is a registration with key and value, and refused without |
| WireFormat.CommitLines | hw4/src/kvmessage.c:40-41 | a POST to commit is a COMMIT, with what parameters it has |
| WireFormat.AbortLines | hw4/src/kvmessage.c:42-44 | a POST to abort is an ABORT, with what parameters it has |
| WireFormat.OtherPosts | hw4/src/kvmessage.c:35-47 | a POST to any other path is refused |
| KvMessage.RequestRoundTrip | hw4/src/kvmessage.c:13-150 | receiving undoes sending if and only if the request has the parameters its type needs and they have no &, space or newline |
| KvMessage.TransmitRequest | hw4/src/kvmessage.c:13-150 | the same, by sending and receiving |
| KvMessage.KvResponseSend | hw4/src/kvmessage.c:169-184 | status line, length, blank line and body sent, or nothing for a type without a code |
| WireFormat.ResponseLines | hw4/src/kvmessage.c:152-184 | status line, length, blank line and body of each kind of response, letter by letter |
| WireFormat.AckLine | hw4/src/kvmessage.c:169-184 | the whole text of an acknowledgement, which has no body |
| KvMessage.KvResponseReceive | hw4/src/kvmessage.c:84-100 | what the parsed response means |
| KvMessage.WireRoundTrip | hw4/src/kvmessage.c:63-184 | a received response is the one sent, with an empty body for a missing one |
| KvMessage.TransmitResponse | hw4/src/kvmessage.c:84-184 | the same, by sending and receiving |

## Left out

- General crash recovery: the server's log never advances within one process, so only the restart results above hold.
- Concurrent transactions at the leader, messages handled late or out of order, and clients that talk to a follower directly: there is one pending slot and no transaction id.
- Termination of the phase 2 retry loop without an answer: the model lets it lose any finite number of exchanges.
- Leader.TpcLeader.HandleGet: assumes a full ring and that a follower that is reached answers, since the code follows a null pointer otherwise (hw4/src/tpcleader.c:143-156).
- KvServer.KvServer.HandleTpc: assumes that a request carries the key and value its type needs, and that the slot of a COMMIT is not half empty; the code follows a null pointer otherwise (`Follower.Crash`).
- ProcessHeap.Heap.Free: assumes that a back-link into a payload finds a whole header or zeros there; what the code reads from other data, or from a header that was partly overwritten, is not modelled.
- ProcessHeap.Heap.Realloc: is stated for heaps whose back-links are all right before the call.
- Whole runs of the allocator as written: false of the code, see StaleLinks.StaleLinkArises.
- Sizes near the limits of size_t in the allocator, and sbrk calls by other code: the region grows contiguously and sizes are unbounded.
- Fixed buffers: the 128 bytes of url_encode and the 8192 bytes of a message are preconditions of sending; the address buffer of tpcleader_register, which is two bytes short, is not modelled.
- The follower's port as a number (atoi), connection timeouts, sockets, threads, locks, failing malloc and failing writes.
- The printing of file names: store and log files are addressed by hash, position and id.
- HASH_SRT on the hash table's own items: its passes are proved on ListSort.Node, and UtHash.SortedFsck says what they then mean for the table.
- The width of uthash's and utlist's counters: counts and run lengths are unbounded.
- uthash's bloom filter, its hash functions and HASH_SELECT; the hash is any function of the key.
- hw4/src/wq.c, hw4/src/socket_server.c, hw0, hw1 and hw2, which would only add easy members.
