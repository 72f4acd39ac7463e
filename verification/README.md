# A verified model of a replicated cache and the caches it was compared with

The repository holds a replicated key-value cache (`prototype/`), the cache server memcached 1.4.15,
the consistent-hashing library ketama, and a small blog that uses them. This project models the parts
of these programs that carry their guarantees, and proves those guarantees for all inputs, all runs and
all interleavings. Operations that change state in place are classes and methods with loops; each is
proved against a function on values, and the laws are lemmas about those functions.

`dafny verify dfyconfig.toml` checks all files.

## What is modelled

**The cache node** (`prototype/server.cpp`). An open-addressing table with tombstones whose live slots
are threaded on an index-linked list. `CacheSpec` is the simple form: a list of distinct keys, most
recently used first. `CacheTable` and `CacheNode` are the table, its probe loop, its list surgery, its
rehash and its eviction; `CacheNode.Node.RunAll` says that any sequence of operations on a node ends in
exactly the list the simple form computes. `ReadsLastPutExactly` says that a key is read as last put while
all that came in stays within 2^30 bytes, and `ArrivalLookup` what an entry of another replica leaves.

**Version vectors and anti-entropy** (`VersionVectors`, `Replication`, `NodeReplica`, `Cluster`). Puts at replicas,
removals, and delayed, repeated or lost propagations, with a history of all puts. The order the code
computes on versions is causality, in both directions, and a server that keeps a copy never falls back
behind what it had (`CopiesMoveForward`). Two expectations fail. The join of two versions is
always the empty version, so after a merge anything replaces the entry (`AfterMergeAnythingReplaces`), and
no merge keeps the history in order (`MergeIsNeverSafe`), although merges are reached (`MergeIsReached`). A removal keeps it in order if and only if the
removed entry counts no put of its own server (`RemovalIsSafeIff`), which can be read off the entry
(`OwnIsMention`); otherwise the server's next put has a version that was in use, and a replica with the old
copy skips it (`RemovalReusesVersions`). Runs have all removals that are safe and end at the others, and at
the first merge. `NodeReplica` and `Cluster` tie the two models together. In any run of a cache node its
entry for any key changes by the steps of a replica of that key, evictions being removals. Any number of
nodes that exchange entries are, for every key, a run of the protocol up to the first merge or unsafe
removal of that key (`ClusterIsRun`), so its guarantees hold of cache nodes (`NoNodeIsAhead`, `NodesAgree`,
`ArrivalsFollowCausality`).

**The view service** (`prototype/view.cpp`, `prototype/client.h`). `ViewService` is the handler with its
list of published views and rings and the minimal-disruption laws; `ViewProtocol` is the protocol of
clients, nodes and service with delayed replies. A server added at a point already in use takes that
point's keys over. Afterwards exactly the new server and the servers some other point lists are on the
ring (`OnRingAfterAdd`), so a replica of the old point loses its place if and only if no other point lists
it (`CollisionDropsReplicas`). `RequestGetsThrough` says that from every state a client with the current view
is served by a node in charge, and `ChangeTakesEffect` what a change of view does to who is in charge.

**Ring lookup** (`RingLookup`). The C++, Java and ketama lookups find the same point.

**memcached's memory** (`StorageEngine`, `StorageSafety`, `StorageRuns`, `LinkedQueues`). Every function that runs under
its locks is one step, the page mover advances chunk by chunk, and the lemmas are about every
interleaving. Two header fields are history: `held` counts the references handed out and `pending`
records the class of an allocation whose header is still being filled in. `LinkedQueues` has the
intrusive doubly linked lists on an array of links. `SourceAssertionsHold` and `AllocAssertionsHold` cover
the `assert`s on linking, releasing, freeing, updating, unlinking and allocating.
`FreedOncePerAllocation` says that in every run a chunk is freed at most once for each time it was handed
out. incr and decr change a value in place when its item has a count of 1. A look-up leaves at least 2
(`LookedUpItemIsShared`), but a flush takes only `cache_lock` and may come between the look-up and that test
(`FlushLeavesOneReference`); `InPlaceIff` says that the branch is taken exactly on an unlinked item of which
the caller has the only reference, which nothing leads to. The look-up itself runs without `cache_lock`:
`LateReferenceIsSafeIff` and `FlushDropsUnheld` say when the reference it takes is good. `TailRepairIsSafeIff`
says that the repair of items in use for hours is right exactly when nobody uses them. `StorageRuns` has what
callers see: the effect of each step, `LookupFindsLinked` over whole runs, the exact condition for an
allocation to succeed (`AllocSucceedsIff`), and that a page move comes to its end (`PageMoveCompletes`).

**memcached's hash table** (`Assoc`). Chains in arrays, with incremental expansion; every operation is
proved against a plain map, including while buckets are being migrated.

**memcached's commands** (`Commands`, `CommandRuns`, `CommandReplies`, `CommandCache`, `Counters`,
`CounterRuns`). Look-up with lazy expiry, the six store modes, delete, touch, incr and decr, flush and eviction, each as one step.
`CommandRuns` proves that
recency lists stay sorted by time, that compare-and-swap has no ABA while fewer than 2^64 items were
linked (`CasWraps` shows the failure after that), and that a flush hides what came before it and nothing
that comes after. `FlushAllWorksIff` says that an immediate flush works exactly from clock value 2 on.
That is where the clock starts (memcached.c:4405-4419); the comment there speaks of starting at 1, and
at 1 the flush would have no effect. The look-up and the refresh of a command take their locks
separately, and `FlushBetweenLookupAndRefresh` says exactly when an item survives a flush in between.
`CommandReplies` has the reply of every command, and `GetAfterStore` says exactly until when a get finds what
was stored. `Counters` is the text that incr and decr read and write, and `CounterRuns` says that, while a counter stays
linked, no accepted change is lost or made twice in any run. `FlushBetweenLookupAndChange` says exactly when
a flush between look-up and change makes an accepted change vanish, and when the counter survives it. The reader takes a value of 2^63 or more for negative when a
minus sign lies anywhere behind it in memory before a zero byte, and `CounterReadsIff` says that this is
the only case in which a counter is not read back.

**memcached's output queue** (`OutputSpec`, `OutputQueue`, `OutputRuns`). Replies are queued as fragments
of messages and sent piecewise, and no message is left before it is full (`AppendAllPacks`). `Respond` queues any buffers and sends them as any socket takes them;
`StreamConserves` is about every interleaving of queueing and sending. The array of fragments may move
when it grows; the headers are then recomputed, which is right if and only if no fragment has been sent
completely (`GrowthIsSafeIff`). `GrowthAfterSendingLosesData` reaches the other case through the
connection's own operations; in the source a reply is complete before it is sent.

**Hashes** (`Md5`, `JenkinsHash`, `JenkinsMix`). The streaming part of MD5 against sections 3.1 to 3.5 of
RFC 1321, for any compression function; the three read paths of Bob Jenkins' hash against one reference,
for any mixing functions; and the two mixing macros with their inverses, on a rotation that is one
(`RotIsRotation`).

## Model

| member | source | states |
|---|---|---|
| `VersionVectors.ComputeAtMost` | prototype/server.cpp:82-101 | the nested loops decide that every pair of the first version has a pair of the same server with at least its counter |
| `VersionVectors.AtMostIsComponentwise` | prototype/server.cpp:82-101 | on versions with distinct servers and positive counters this is the componentwise order |
| `VersionVectors.ComputeBump` | prototype/server.cpp:269-282 | the search-and-increment loop of put, or a new pair when the server has none |
| `VersionVectors.BumpComponents` | prototype/server.cpp:269-282 | a put raises its own server's counter by one, no other, and keeps the version well formed |
| `VersionVectors.ComputeResolve` | prototype/server.cpp:135-155 | the branches by which an arrival is skipped, replaces, merges or invalidates, in the order of the source |
| `VersionVectors.ResolveDecides` | prototype/server.cpp:135-155 | skipped exactly when the copy held had seen it, replaces exactly when it had seen that copy; copies in conflict are merged only with equal values and given up only with different ones |
| `VersionVectors.UpdateRaises` | prototype/server.cpp:103-120 | updateVersion takes the larger counter of a server that is mentioned and leaves all others |
| `VersionVectors.MaximumVersion` | prototype/server.cpp:103-120 | the join of two versions is always the empty version |
| `VersionVectors.EmptyVersionIsBelowAll` | prototype/server.cpp:103-120 | the empty version is below all, and above only itself, so the join is no upper bound |
| `Replication.NextKeepsInv` | prototype/server.cpp:122-160 | every put, send, delivery and safe removal keeps the history invariant |
| `Replication.RunKeepsInv` | prototype/server.cpp:122-160 | it holds in every state of every run |
| `Replication.HistoryHoldsCounter` | prototype/server.cpp:258-289 | every counter value up to the current one was set by a put in the causal history |
| `Replication.AtMostIsCausality` | prototype/server.cpp:82-101 | one put's version is at most another's if and only if the other put had seen it |
| `Replication.NoOneIsAhead` | prototype/server.cpp:258-289 | no replica or message holds a counter for a server above that server's own |
| `Replication.EqualVersionsEqualValues` | prototype/server.cpp:135-155 | copies with equal versions are copies of the same put |
| `Replication.DeliveryFollowsCausality` | prototype/server.cpp:122-160 | a delivery is skipped, replaces or conflicts exactly as the two puts are causally related |
| `Replication.CopiesMoveForward` | prototype/server.cpp:122-160 | while a server holds a copy, at all states of a run, its later copies saw its earlier ones |
| `Replication.AfterMergeAnythingReplaces` | prototype/server.cpp:148-151 | after an equal-value merge every non-empty version replaces the entry |
| `Replication.MergeIsNeverSafe` | prototype/server.cpp:148-151 | no merge keeps the history invariant |
| `Replication.MergeIsReached` | prototype/server.cpp:148-151 | for any two servers and value there is a run that reaches a merge |
| `Replication.OwnIsMention` | prototype/server.cpp:269-282 | an entry counts puts of its own server if and only if its version mentions that server |
| `Replication.RemovalIsSafeIff` | prototype/server.cpp:483-493 | a removal keeps the history invariant if and only if the removed copy counts no put of its server |
| `Replication.RemovalReusesVersions` | prototype/server.cpp:483-493 | after a removal the version of the server's next put is at most that of an earlier one if and only if the removed copy counted a put of that server, and then a replica with the old copy skips the new value |
| `CacheSpec.DoSize` | prototype/server.cpp:552-567 | the byte count changes by exactly what an edit adds and drops |
| `CacheSpec.EvictKeepsLongestFittingPrefix` | prototype/server.cpp:495-505 | eviction drops the shortest least-recent suffix that brings usage down to the limit |
| `CacheSpec.StaysNearLimit` | prototype/server.cpp:258-289 | after a put or arrival usage is at most the limit plus what came in, so the 32-bit counter cannot overflow for entries below 2^30 bytes |
| `CacheSpec.RunKeepsDistinct` | prototype/server.cpp:432-440 | in every run the keys are distinct |
| `CacheSpec.OtherKeysKeepValue` | prototype/server.cpp:258-324 | an operation leaves other keys' values alone or evicts them |
| `CacheSpec.PutEffect` | prototype/server.cpp:258-289 | a put evicts first, then the key is in front with its new value and bumped version |
| `CacheSpec.ReadsLastPut` | prototype/server.cpp:258-324 | in every run a key reads as the last value put, or is gone |
| `CacheSpec.ReadsLastPutExactly` | prototype/server.cpp:501-505 | while all puts and arrivals of a run stay within 2^30 bytes a key reads as the last value put and is not lost |
| `CacheSpec.ArrivalLookup` | prototype/server.cpp:122-160 | after an arrival the key reads as the value of the copy that had seen the other, as the common value in a conflict of equal values, and not at all in one of different values |
| `CacheSpec.UsesIsFront` | prototype/server.cpp:546-550 | an operation moves to the front exactly the key it uses |
| `CacheSpec.OrderedByLastUse` | prototype/server.cpp:530-550 | in every run the list is in strictly decreasing order of last use |
| `NodeReplica.OthersKeep` | prototype/server.cpp:304-324 | a get of any key, and any operation on another key, leaves the entry of a key exactly as it was |
| `NodeReplica.OwnIsStep` | prototype/server.cpp:122-160 | a put, removal or arrival does to its key what that step does to the replica |
| `NodeReplica.OperationIsSteps` | prototype/server.cpp:258-324 | an operation of a node is, for every key, at most an eviction and one step of that key's replica |
| `NodeReplica.RunIsReplica` | prototype/server.cpp:258-324 | in every run of a node its entry for any key is the copy that the replica's steps lead to |
| `Cluster.StepIsSteps` | prototype/server.cpp:122-213 | a step of several nodes, neither merging a key nor losing a copy that counts puts of its node, is made of steps the protocol of that key allows |
| `Cluster.ClusterIsRun` | prototype/server.cpp:122-213 | every run of nodes exchanging entries is, for every key and up to the first such step, a run of the protocol with the same puts |
| `Cluster.NoNodeIsAhead` | prototype/server.cpp:258-289 | no node's entry and no entry on its way counts more puts of a node than that node's own entry |
| `Cluster.NodesAgree` | prototype/server.cpp:135-155 | nodes whose versions of a key agree have the same value for it |
| `Cluster.ArrivalsFollowCausality` | prototype/server.cpp:122-160 | a node skips, replaces or finds in conflict an arriving entry exactly as the puts of the key in the run are causally related |
| `Cluster.EntryTravels` | prototype/server.cpp:177-200 | an entry sent to a node arrives, and its value is read there if the node had none or one the sender had seen |
| `CacheTable.UnlinkLinks` | prototype/server.cpp:514-528 | the two link updates take one slot out of the list and change no data |
| `CacheTable.FrontLinks` | prototype/server.cpp:530-544 | the link updates put a live slot in front |
| `CacheTable.BackLinks` | prototype/server.cpp:463-475 | the link updates of rehash append a slot |
| `CacheTable.EmptySlotExists` | prototype/server.cpp:432-440 | with fewer live and dead slots than slots some slot is empty, so probing ends |
| `CacheTable.FoundIsIndex` | prototype/server.cpp:432-440 | a finished probe is at the key's only live slot, or the key is absent |
| `CacheTable.AccessShape` | prototype/server.cpp:546-550 | moving a slot to the front keeps probe paths, keys and size |
| `CacheTable.ChangeShape` | prototype/server.cpp:141-145 | writing value and version changes that entry only |
| `CacheTable.BuryProbes` | prototype/server.cpp:483-493 | a tombstone keeps every probe path unbroken |
| `CacheTable.BuryShape` | prototype/server.cpp:483-493 | removal takes exactly the entry out of the list and adds one dead slot |
| `CacheTable.FillShape` | prototype/server.cpp:552-567 | filling the empty slot a probe ended at keeps every key reachable |
| `CacheTable.AddShape` | prototype/server.cpp:552-567 | adding an entry puts it in front and adds its size |
| `CacheTable.BackShape` | prototype/server.cpp:463-475 | the rehash step appends one entry |
| `CacheNode.Node.constructor` | prototype/server.cpp:55-56 | ten empty slots are a valid, empty node |
| `CacheNode.Node.GetPosition` | prototype/server.cpp:432-440 | the probe loop ends, at the key's live slot if it has one, else at an empty slot on its path |
| `CacheNode.Node.RemoveFromList` | prototype/server.cpp:514-528 | the list loses exactly that slot |
| `CacheNode.Node.AddToFront` | prototype/server.cpp:530-544 | the list gains the slot in front |
| `CacheNode.Node.AccessEntry` | prototype/server.cpp:546-550 | the entry moves to the front |
| `CacheNode.Node.AddEntry` | prototype/server.cpp:552-567 | a new entry in front, with version one for this server |
| `CacheNode.Node.AddReplicated` | prototype/server.cpp:569-578 | a new entry in front with the version it came with |
| `CacheNode.Node.Overwrite` | prototype/server.cpp:268-284 | a write to a live entry: new value and version, in front |
| `CacheNode.Node.RemoveEntry` | prototype/server.cpp:483-493 | exactly that entry goes, and all counters stay exact |
| `CacheNode.Node.EvictEntry` | prototype/server.cpp:495-499 | the least recently used entry goes; the source's assertion holds |
| `CacheNode.FreeSlot` | prototype/server.cpp:457-462 | the probe loop of rehash ends at an empty slot on the key's path |
| `CacheNode.Rebuild` | prototype/server.cpp:451-481 | the loop of rehash keeps all entries and their order and leaves no tombstone |
| `CacheNode.Node.Rehash` | prototype/server.cpp:451-481 | the same on the node, with exact counters |
| `CacheNode.Node.NormalizeTable` | prototype/server.cpp:501-512 | evicts to the limit, doubles the table past one entry in four slots, and leaves room for one more entry |
| `CacheNode.Node.Put` | prototype/server.cpp:258-289 | refines the put of the simple form |
| `CacheNode.Node.Get` | prototype/server.cpp:304-324 | refines the get of the simple form and returns its value |
| `CacheNode.Node.Propagate` | prototype/server.cpp:122-160 | refines the arrival of the simple form, and reports the key exactly when the copies are in conflict and their values differ |
| `CacheNode.Node.Invalidate` | prototype/server.cpp:220-226 | refines the removal of the simple form |
| `CacheNode.Node.RunAll` | prototype/server.cpp:258-324 | any sequence of operations ends in the list the simple form computes |
| `RingLookup.FirstServes` | prototype/ConsistentHashing.h:23-32 | the first key not below the hash, else the first key, is the ring's successor point |
| `RingLookup.GetServerIsSuccessor` | prototype/ConsistentHashing.h:23-32 | the C++ lookup finds the successor point, or reports an empty ring |
| `RingLookup.ScanServer` | SimpleBlog/src/ConsistentHashing.java:13-36 | the Java scan finds the same point in any iteration order |
| `RingLookup.SearchIndex` | ketama/libketama/ketama.c:251-283 | the binary search ends at the first point not below the hash, or at 0 when there is none |
| `RingLookup.KetamaSearch` | ketama/libketama/ketama.c:251-283 | the point found is the successor point of the other lookups, the first of equal ones |
| `ViewService.AddServerMovesOnlyArc` | prototype/view.cpp:69-84 | an added server gets exactly the keys of its arc; every other key stays |
| `ViewService.OnRingAfterAdd` | prototype/view.cpp:69-84 | after an addition at any point, on the ring are exactly the new server and the servers another point lists |
| `ViewService.CollisionDropsReplicas` | prototype/view.cpp:78-80 | at a point in use a replica loses its place, though it stays in the view, if and only if it is not the new server and no other point lists it |
| `ViewService.PutIsSound` | prototype/view.cpp:69-84 | the new ring has non-empty replica lists drawn from the new view |
| `ViewService.PutReplicaIsSound` | prototype/view.cpp:86-116 | so does the ring after a replica is added |
| `ViewService.AddReplicaMovesNothing` | prototype/view.cpp:86-116 | no key changes its point; it gains at most the new server |
| `ViewService.AddReplicaGains` | prototype/view.cpp:103-108 | exactly the first point that lists the master gains the server, at the end of its list; without the master the ring stays |
| `ViewService.RemovalMovesOnlyOrphans` | prototype/view.cpp:178-200 | a key with a surviving replica keeps its point and its survivors in order |
| `ViewService.SurvivorsAreSound` | prototype/view.cpp:178-200 | the ring of survivors is sound for the surviving view |
| `ViewService.Handler.constructor` | prototype/view.cpp:25-35 | view 0 is empty |
| `ViewService.Handler.AddServer` | prototype/view.cpp:69-84 | publishes one more view and ring, leaving the earlier ones |
| `ViewService.Handler.AddReplica` | prototype/view.cpp:86-116 | the same, or nothing when the master is not in the view |
| `ViewService.Handler.RemoveDead` | prototype/view.cpp:178-200 | publishes the survivors, or nothing when nobody died |
| `ViewProtocol.NextKeepsInv` | prototype/server.cpp:392-418 | every step of clients, nodes and service keeps what is held genuine |
| `ViewProtocol.RunKeepsInv` | prototype/client.h:111-125 | in every state of every run |
| `ViewProtocol.AcceptedRequestsAgree` | prototype/server.cpp:392-418 | an accepted request was sent and accepted under the same published ring, which lists the node for the key |
| `ViewProtocol.CheckDecides` | prototype/server.cpp:392-418 | a request with the node's number is accepted if and only if the node is in charge, an older one is refused, and for a newer one the node asks for the current view |
| `ViewProtocol.CheckReplyDecides` | prototype/server.cpp:392-418 | with the reply the node has that view, and accepts if and only if the numbers agree and it is in charge |
| `ViewProtocol.RequestGetsThrough` | prototype/client.h:111-125 | from every state a client that fetches the current view and asks a node in charge is served, whatever older view the node has |
| `ViewProtocol.BootStarts` | prototype/server.cpp:392-418 | a node that starts has view 0 and accepts nothing |
| `ViewProtocol.PingBringsView` | prototype/view.cpp:37-42 | a ping brings a node the view current when it was answered |
| `ViewProtocol.ChangeTakesEffect` | prototype/view.cpp:69-116 | in the next view an added server is in charge of its point, a replica beside the first point of its master, no dead server of anything, and the others stay in charge |
| `ViewProtocol.PublishedRingsAreSound` | prototype/view.cpp:69-116 | every published ring is ordered with non-empty replica lists from its view |
| `ViewProtocol.ViewsOnlyGrow` | prototype/view.cpp:69-116 | published rings never change |
| `StorageEngine.ComputeClass` | memcached-1.4.15/slabs.c:80-89 | the loop finds the first class large enough, or 0 |
| `StorageEngine.NewSlabKeepsInv` | memcached-1.4.15/slabs.c:195-217 | a new page keeps the invariant, all its chunks free |
| `StorageEngine.SlabTakeKeepsInv` | memcached-1.4.15/slabs.c:220-255 | an allocation takes a free chunk of its class, or changes nothing |
| `StorageEngine.FreeKeepsInv` | memcached-1.4.15/slabs.c:257-279 | freeing to the class named in the header puts the chunk on the list of its page's class |
| `StorageEngine.AllocKeepsInv` | memcached-1.4.15/items.c:88-216 | do_item_alloc keeps the invariant in every branch modelled |
| `StorageEngine.AllocIsSafe` | memcached-1.4.15/items.c:88-216 | the chunk handed out is at least as large as asked for, and nobody held it and the mover had not marked it |
| `StorageEngine.LinkKeepsInv` | memcached-1.4.15/items.c:291-312 | linking keeps table, list and count in step |
| `StorageEngine.UnlinkKeepsInv` | memcached-1.4.15/items.c:314-343 | so does unlinking |
| `StorageEngine.GetKeepsInv` | memcached-1.4.15/items.c:521-574 | so does a look-up, also when the page is being moved |
| `StorageEngine.UpdateKeepsInv` | memcached-1.4.15/items.c:354-367 | so does moving an item to the front of its list when it is due, and doing nothing when it is not |
| `StorageEngine.StartKeepsInv` | memcached-1.4.15/slabs.c:443-495 | so does the start of a page move |
| `StorageEngine.MarkSweeps` | memcached-1.4.15/slabs.c:506-597 | while a pass has met no busy chunk, every chunk behind the cursor is marked |
| `StorageEngine.MoveKeepsInv` | memcached-1.4.15/slabs.c:506-597 | one step of the mover keeps the invariant |
| `StorageEngine.FinishKeepsInv` | memcached-1.4.15/slabs.c:599-641 | so does handing the page to the other class |
| `StorageEngine.RunKeepsInv` | memcached-1.4.15/slabs.c:506-641 | the invariant holds in every state of every interleaving |
| `StorageSafety.PageMoveIsSafe` | memcached-1.4.15/slabs.c:506-641 | once the move is done every chunk of the page is off all lists, out of the table and unreferenced |
| `StorageSafety.MarkStays` | memcached-1.4.15/slabs.c:506-597 | a marked chunk stays marked through every step until the page is handed over |
| `StorageSafety.RefcountsCount` | memcached-1.4.15/items.c:291-352 | a reference count is the references held plus one if linked; lists and table agree with the flags |
| `StorageSafety.FreedOnceAtZero` | memcached-1.4.15/items.c:218-231 | a chunk becomes free only at count zero, by its last holder or with its page |
| `StorageSafety.IdleStays` | memcached-1.4.15/slabs.c:220-279 | a chunk that is free or taken away stays so through every step but the allocation that returns it |
| `StorageSafety.FreedOncePerAllocation` | memcached-1.4.15/items.c:218-231 | between two steps of a run that free a chunk, an allocation returns it |
| `StorageSafety.SourceAssertionsHold` | memcached-1.4.15/items.c:345-347 | the assertions on linking, releasing, freeing, updating and unlinking, also by a flush or a look-up, hold: not on a free list, no references left, a class that exists, on no recency list |
| `StorageSafety.AllocAssertionsHold` | memcached-1.4.15/items.c:194-199 | the assertions of both allocators hold: the chunk has its class number cleared and heads no list |
| `StorageSafety.LookedUpItemIsShared` | memcached-1.4.15/items.c:521-574 | a look-up that finds an item leaves a count of at least 2 on it |
| `StorageSafety.InPlaceIff` | memcached-1.4.15/memcached.c:3100-3124 | an item a caller holds has count 1 if and only if it is unlinked and nobody else holds it, and then it is in no list and not in the table |
| `StorageSafety.FlushLeavesOneReference` | memcached-1.4.15/thread.c:607-611 | a flush between look-up and test leaves the caller the only reference exactly when nobody else held the item |
| `StorageSafety.LateReferenceIsSafeIff` | memcached-1.4.15/items.c:522-525 | a reference taken to an item found earlier is good if and only if the item still has one |
| `StorageSafety.FlushDropsUnheld` | memcached-1.4.15/items.c:586-609 | a flush leaves an item a reference exactly when somebody holds it |
| `StorageSafety.TailRepairIsSafeIff` | memcached-1.4.15/items.c:122-135 | setting the count of an item in use to one and unlinking it keeps the invariant if and only if nobody holds a reference |
| `StorageSafety.NothingToRepair` | memcached-1.4.15/items.c:122-135 | without leaked references an item found in use is in use, and the repair would always be wrong |
| `StorageSafety.FinishAccounted` | memcached-1.4.15/slabs.c:599-641 | a page move conserves pages and memory |
| `StorageSafety.AccountingHolds` | memcached-1.4.15/slabs.c:195-217 | memory is the sum of the pages in use, each of its class's length or of the common length when pages may move, within the limit plus one page per class; free counters are list lengths |
| `StorageSafety.ChunkIsInOnePlace` | memcached-1.4.15/slabs.c:220-279 | each chunk is exactly one of free, referenced, being freed or moved |
| `StorageRuns.LinkEffect` | memcached-1.4.15/items.c:291-312 | the table leads to the item, it heads the list of its class, and the link counts as a reference |
| `StorageRuns.UnlinkEffect` | memcached-1.4.15/items.c:314-343 | the item leaves table and list, the link's reference goes, and the others keep their order |
| `StorageRuns.ReleaseEffect` | memcached-1.4.15/items.c:345-352 | one reference less, held and counted; the last one of an unlinked item leaves it to be freed |
| `StorageRuns.FreeEffect` | memcached-1.4.15/slabs.c:257-279 | the chunk is the next one its class hands out |
| `StorageRuns.LookupEffect` | memcached-1.4.15/items.c:521-574 | a live item off the moving page comes with one more reference, another one is unlinked, a missing key changes nothing |
| `StorageRuns.UpdateEffect` | memcached-1.4.15/items.c:354-367 | a linked item that is due becomes the most recent of its class |
| `StorageRuns.InitEffect` | memcached-1.4.15/items.c:199-216 | the item has its key, its class and one reference, and is not linked |
| `StorageRuns.StaysInTable` | memcached-1.4.15/items.c:314-343 | an item stays in the table through every step but its unlinking, its recycling and the move of its page |
| `StorageRuns.LookupFindsLinked` | memcached-1.4.15/items.c:521-574 | in every run a look-up finds the item linked under its key until such a step |
| `StorageRuns.AllocSucceedsIff` | memcached-1.4.15/items.c:88-216 | an item is handed out if and only if its class has or may get a chunk, or the last usable one of the last five items is expired or may be evicted |
| `StorageRuns.AllocPrefers` | memcached-1.4.15/items.c:137-190 | an expired item before a chunk, and a chunk before an item in the cache |
| `StorageRuns.AllocTooLarge` | memcached-1.4.15/items.c:99-101 | nothing for no bytes or more than any class has |
| `StorageRuns.MarksIff` | memcached-1.4.15/slabs.c:506-597 | the mover marks a chunk if and only if it is free or linked, nobody holds it and its lock is free |
| `StorageRuns.PageMoveCompletes` | memcached-1.4.15/slabs.c:443-641 | with no chunk of the page in use, request, start, one pass and finish follow on each other and the page is the other class's, all chunks free |
| `LinkedQueues.Queues.LinkQ` | memcached-1.4.15/items.c:250-266 | the item becomes the head of its list; every other list stays |
| `LinkedQueues.Queues.UnlinkQ` | memcached-1.4.15/items.c:268-289 | the item leaves its list; head, tail and size follow |
| `LinkedQueues.Queues.SlabPush` | memcached-1.4.15/slabs.c:257-279 | the chunk becomes the first free one |
| `LinkedQueues.Queues.SlabPop` | memcached-1.4.15/slabs.c:238-245 | the first free chunk is taken |
| `LinkedQueues.Queues.SlabCut` | memcached-1.4.15/slabs.c:529-537 | the mover takes a chunk out of the middle of a free list |
| `LinkedQueues.Queues.TailWalk` | memcached-1.4.15/items.c:111-136 | the bounded walk from the tail finds the first usable item of the last five |
| `LinkedQueues.UnlinkConsistent` | memcached-1.4.15/items.c:268-289 | the pointer updates keep all lists of all classes well linked |
| `LinkedQueues.SlabCutConsistent` | memcached-1.4.15/slabs.c:529-537 | so do those of the mover |
| `LinkedQueues.LinkConsistent` | memcached-1.4.15/items.c:250-266 | so do those of linking |
| `LinkedQueues.SlabPushConsistent` | memcached-1.4.15/slabs.c:257-279 | so do those of freeing |
| `Assoc.Doubling` | memcached-1.4.15/assoc.c:219-224 | under the doubled size a bucket's items stay or go up by the old size |
| `Assoc.HashTable.constructor` | memcached-1.4.15/assoc.c:62-75 | an empty table is the empty map |
| `Assoc.HashTable.Find` | memcached-1.4.15/assoc.c:77-101 | finds the map's item for the key, in whichever table holds its bucket |
| `Assoc.HashTable.Before` | memcached-1.4.15/assoc.c:106-122 | finds the link that leads to it |
| `Assoc.HashTable.Insert` | memcached-1.4.15/assoc.c:154-176 | the map gains the item, the count follows, and growth is requested past one and a half items per bucket |
| `Assoc.HashTable.Delete` | memcached-1.4.15/assoc.c:178-196 | the map loses the key |
| `Assoc.HashTable.Expand` | memcached-1.4.15/assoc.c:125-144 | the map is unchanged, also when the allocation fails |
| `Assoc.HashTable.MigrateBucket` | memcached-1.4.15/assoc.c:214-239 | one bucket moves, only to its two new buckets, and the map is unchanged |
| `Assoc.HashTable.Maintain` | memcached-1.4.15/assoc.c:214-239 | so many rounds; the expansion ends with the old table empty |
| `Assoc.MidStep` | memcached-1.4.15/assoc.c:218-224 | moving one item of a bucket keeps the tables and the map in agreement |
| `OutputSpec.AppendKeepsBytes` | memcached-1.4.15/memcached.c:696-743 | add_iov loses, adds and reorders no byte |
| `OutputSpec.AppendFits` | memcached-1.4.15/memcached.c:696-743 | no datagram exceeds 1400 bytes and no message has too many fragments |
| `OutputSpec.AppendAllKeepsBytes` | memcached-1.4.15/memcached.c:696-743 | both, for any sequence of buffers |
| `OutputSpec.AppendAllPacks` | memcached-1.4.15/memcached.c:696-743 | no message is left before it has 1400 bytes or all the fragments it can have |
| `OutputSpec.FittingIsNotSplit` | memcached-1.4.15/memcached.c:696-743 | data that fit are one fragment more |
| `OutputSpec.SplitFillsMessage` | memcached-1.4.15/memcached.c:717-729 | data that do not fit are split where the message has exactly 1400 bytes |
| `OutputSpec.AppendStream` | memcached-1.4.15/memcached.c:696-743 | on a stream the data go behind everything still pending, whatever was sent before |
| `OutputSpec.StreamPayload` | memcached-1.4.15/memcached.c:696-743 | on a stream the payload is all the bytes of all messages |
| `OutputSpec.ConsumeDropsBytes` | memcached-1.4.15/memcached.c:3698-3711 | a partial send removes exactly the bytes sent, from the front |
| `OutputQueue.GrowthKeepsHeadersIff` | memcached-1.4.15/memcached.c:678-682 | recomputing the headers is right if and only if they still cover all used entries |
| `OutputQueue.GrowthIsSafeIff` | memcached-1.4.15/memcached.c:666-686 | growing a full array keeps the list sound if and only if no entry has been sent completely |
| `OutputRuns.GrowthAfterSendingLosesData` | memcached-1.4.15/memcached.c:678-682 | a reply of two fragments, the first one sent, and a third queued in a full array, all by the connection's operations: the second is lost and the first comes again |
| `OutputQueue.MovedIsSame` | memcached-1.4.15/memcached.c:666-686 | growth while a reply is built leaves all messages as they were |
| `OutputQueue.StoredIsPut` | memcached-1.4.15/memcached.c:730-736 | filling the next entry appends to the last message and counts its bytes |
| `OutputQueue.BegunIsEmpty` | memcached-1.4.15/memcached.c:235-271 | a new header begins an empty message |
| `OutputQueue.HeadedIsStarted` | memcached-1.4.15/memcached.c:235-271 | a new header, with room for a datagram's frame header, starts a message of the specification |
| `OutputQueue.AddedIsAppend` | memcached-1.4.15/memcached.c:696-743 | add_iov is the append of the specification, also behind a reply partly sent, unless the array must move under sent entries |
| `OutputQueue.AddedAllIsAppend` | memcached-1.4.15/memcached.c:696-743 | the same for any sequence of buffers |
| `OutputQueue.SendOk` | memcached-1.4.15/memcached.c:3694-3711 | after a send the pending bytes are the old ones without those sent |
| `OutputQueue.SteppedOver` | memcached-1.4.15/memcached.c:3683-3687 | a finished message has nothing pending |
| `OutputQueue.Conn.EnsureIovSpace` | memcached-1.4.15/memcached.c:666-686 | in any state: room for one more entry, and all messages unchanged unless the array moved under sent entries |
| `OutputQueue.Conn.AddMsghdr` | memcached-1.4.15/memcached.c:235-271 | in any state: one more message, empty or with its datagram header |
| `OutputQueue.Conn.AddIov` | memcached-1.4.15/memcached.c:696-743 | in any state, also partly sent: the messages are those of the specification, unless the array moved under sent entries |
| `OutputQueue.Conn.AddAll` | memcached-1.4.15/memcached.c:696-743 | the same for any sequence of buffers |
| `OutputQueue.Conn.Transmit` | memcached-1.4.15/memcached.c:3680-3736 | bytes sent followed by bytes pending never change; complete means nothing is pending |
| `OutputQueue.Drain` | memcached-1.4.15/memcached.c:3698-3711 | the loop over the entries of a partly sent message |
| `OutputQueue.Repoint` | memcached-1.4.15/memcached.c:678-682 | the loop that recomputes the headers |
| `OutputRuns.QueueReply` | memcached-1.4.15/memcached.c:696-743 | any buffers queued in an empty list are its payload, within the limits of the transport |
| `OutputRuns.SendReply` | memcached-1.4.15/memcached.c:3680-3736 | for any sequence of send results, bytes sent followed by bytes pending stay the same; complete means all are sent |
| `OutputRuns.Respond` | memcached-1.4.15/memcached.c:3680-3736 | for any buffers and any send results, bytes sent and pending are the messages queued, whose payload is the buffers; on a stream they are the buffers |
| `OutputRuns.StreamConserves` | memcached-1.4.15/memcached.c:696-743 | in every interleaving of queueing, partial sends and steps to the next message, bytes sent and pending are the first ones and then all data queued |
| `Commands.LinkKeepsInv` | memcached-1.4.15/items.c:291-312 | linking keeps the lists sorted by time and gives a number no other item has |
| `Commands.UnlinkKeepsInv` | memcached-1.4.15/items.c:314-329 | unlinking keeps them sorted and takes out one key |
| `Commands.RefreshKeepsInv` | memcached-1.4.15/items.c:354-367 | a refresh keeps them sorted, including the 32-bit wrap of its time test |
| `CommandRuns.WalkedHas` | memcached-1.4.15/items.c:596-607 | stopping at the first old item leaves exactly the old items, because the list is sorted |
| `CommandRuns.FlushKeepsInv` | memcached-1.4.15/items.c:586-609 | a flush keeps the invariant |
| `CommandRuns.NextKeepsInv` | memcached-1.4.15/memcached.c:2260-2375 | so does every command |
| `CommandRuns.NextFollows` | memcached-1.4.15/items.c:52-55 | a command links at most one item, with a number never used before; other items keep key, value and number |
| `CommandRuns.OtherKeysStay` | memcached-1.4.15/memcached.c:2260-2375 | a command leaves the items of all other keys exactly as they were |
| `CommandRuns.StoreEffect` | memcached-1.4.15/memcached.c:2306-2365 | what an accepted store leaves, by mode: replaced, appended or prepended value, expiry kept where the old item is extended |
| `CommandRuns.HitEffect` | memcached-1.4.15/memcached.c:3052-3131 | what get, touch, incr and decr do to an item they find, including the new value, expiry and number |
| `CommandRuns.MissLeavesNothing` | memcached-1.4.15/items.c:521-574 | a look-up that finds nothing, and delete, leave nothing under the key |
| `CommandReplies.StoreReplies` | memcached-1.4.15/memcached.c:2260-2375 | the reply to a store by mode, through what a look-up finds: set always stored, add only to nothing, replace, append and prepend only to something, a wrong identifier Exists |
| `CommandReplies.OtherReplies` | memcached-1.4.15/memcached.c:3052-3131 | the replies to get, delete, touch, incr and decr |
| `CommandReplies.UseRefreshes` | memcached-1.4.15/items.c:354-367 | a get, a touch and a refused add make an item that is due the most recent, at the current time |
| `CommandRuns.DueAfterAMinute` | memcached-1.4.15/items.c:354-367 | an item is due after 60 seconds without use, and always in the first minute of the clock |
| `CommandReplies.GetAfterStore` | memcached-1.4.15/items.c:548-566 | in every run a get finds what was stored, while the key is left alone, exactly until its time is up or the time of an earlier flush request comes |
| `CommandRuns.RunKeepsInv` | memcached-1.4.15/items.c:250-289 | in every state of every run the lists are sorted by non-increasing time |
| `CommandRuns.NumbersNeverComeBack` | memcached-1.4.15/items.c:52-55 | an item whose number was already given out was linked then, under the same key and with the same value |
| `CommandRuns.CasComparesNumbers` | memcached-1.4.15/memcached.c:2275-2305 | a swap is accepted if and only if a look-up finds an item whose number agrees modulo 2^64 |
| `CommandRuns.CasOffAcceptsAll` | memcached-1.4.15/memcached.h:82-89 | with identifiers off a swap is accepted if and only if an item is found |
| `CommandRuns.CasHasNoAba` | memcached-1.4.15/memcached.c:2275-2305 | a swap is accepted if and only if the item found is the one that was read, and then it was linked unchanged all the time |
| `CommandRuns.CasWinsOnce` | memcached-1.4.15/memcached.c:2275-2305 | of two swaps with the same identifier at most one is accepted |
| `CommandRuns.CasWraps` | memcached-1.4.15/items.c:52-55 | after 2^64 links a swap accepts a different item |
| `CommandRuns.NextKeepsFlush` | memcached-1.4.15/items.c:548-559 | no command refreshes an item that a flush hides |
| `CommandRuns.FlushHidesByLinkTime` | memcached-1.4.15/items.c:548-559 | from the flush time on, a look-up finds exactly the unexpired items linked after it, for immediate and delayed flushes |
| `CommandRuns.FlushAllHidesWhatCameBefore` | memcached-1.4.15/memcached.c:3297-3301 | after flush_all a look-up finds exactly the unexpired items stored after it, until the next flush |
| `CommandRuns.FlushAllWorksIff` | memcached-1.4.15/memcached.c:3297-3301 | with something to hide, flush_all hides everything if and only if the clock is at least 2 |
| `CommandRuns.FlushBetweenLookupAndRefresh` | memcached-1.4.15/items.c:354-367 | an item survives a flush between look-up and refresh if and only if it was last used before both thresholds |
| `Counters.NumberOfDecimal` | memcached-1.4.15/memcached.c:3098 | the decimal text of a number has that value |
| `Counters.DecimalFits` | memcached-1.4.15/memcached.c:3098 | the buffer is large enough for every 64-bit number, so nothing is cut off |
| `Counters.CounterReadsIff` | memcached-1.4.15/util.c:14-37 | a number written by incr or decr is read back if and only if it is below 2^63 or no minus sign lies behind it before a zero byte |
| `Counters.ReadsAt` | memcached-1.4.15/util.c:14-22 | blanks, a sign and digits are read as the number below 2^64, negated modulo 2^64 after a minus |
| `Counters.SafeReadsAt` | memcached-1.4.15/util.c:24-37 | a number counts only if the text ends there or a blank follows, and from 2^63 on only without a minus in the text |
| `Counters.IncrementsAddUp` | memcached-1.4.15/memcached.c:3078-3079 | increments add up modulo 2^64 |
| `Counters.DecrementsStopAtZero` | memcached-1.4.15/memcached.c:3081-3086 | decrements take away their sum, down to 0 |
| `CounterRuns.CounterChangesIff` | memcached-1.4.15/memcached.c:3072-3075 | a counter found, with memory for the new one, is changed exactly when it can be read back |
| `CounterRuns.ValueStays` | memcached-1.4.15/memcached.c:3052-3131 | nothing but a store or an accepted change gives a linked key another value |
| `CounterRuns.CounterCounts` | memcached-1.4.15/memcached.c:3052-3131 | in every run a counter that stays linked is its first value with every accepted change made exactly once |
| `CounterRuns.ChangesAddUp` | memcached-1.4.15/memcached.c:3052-3131 | so accepted increments by any clients add up to one, and so do accepted decrements |
| `CounterRuns.LateDeltaIsDelta` | memcached-1.4.15/memcached.c:3061-3131 | with nothing between look-up and change, incr and decr are the one step of the other results |
| `CounterRuns.FlushBetweenLookupAndChange` | memcached-1.4.15/memcached.c:3100-3124 | with a flush in between the counter is found afterwards, with the change, if and only if the flush did not take it, somebody else held it, or the new text is longer |
| `CommandCache.SweepDone` | memcached-1.4.15/items.c:586-609 | walking every list from its head removes exactly the items used since the flush time |
| `CommandCache.Cache.constructor` | memcached-1.4.15/items.c:39-42 | empty lists, no flush |
| `CommandCache.Cache.LinkItem` | memcached-1.4.15/items.c:291-312 | do_item_link on the shared state |
| `CommandCache.Cache.UnlinkItem` | memcached-1.4.15/items.c:314-329 | do_item_unlink |
| `CommandCache.Cache.UpdateItem` | memcached-1.4.15/items.c:354-367 | do_item_update |
| `CommandCache.Cache.GetItem` | memcached-1.4.15/items.c:521-574 | a look-up returns the item if and only if it is linked, not hidden, not expired and not on a moving page |
| `CommandCache.Cache.StoreItem` | memcached-1.4.15/memcached.c:2260-2375 | the branches of do_store_item implement the decision table of the store modes, with identifiers on and off |
| `CommandCache.Cache.FlushExpired` | memcached-1.4.15/items.c:586-609 | the nested walk removes exactly the items used since the flush time |
| `CommandCache.Cache.FlushAllNow` | memcached-1.4.15/memcached.c:3297-3301 | the immediate flush |
| `Md5.FoldConcat` | ketama/libketama/md5.c:352-353 | compressing in two runs of whole blocks is compressing in one |
| `Md5.CountOffset` | ketama/libketama/md5.c:327 | the low word of the bit count gives the number of buffered bytes |
| `Md5.CarryCounts` | ketama/libketama/md5.c:334-337 | the two words with their carry count the bits modulo 2^64 |
| `Md5.PadShape` | ketama/libketama/md5.c:363-378 | the padding is one bit, zeros and the bit length, and fills up whole blocks with as few bytes as possible |
| `Md5.DigestOfShort` | ketama/libketama/md5.c:312-320 | up to 55 bytes are one block, compressed once from the four registers of the standard |
| `Md5.OutputIs` | ketama/libketama/md5.c:379-380 | the digest is the four registers in order, low-order byte first |
| `Md5.UnpadPad` | ketama/libketama/md5.c:363-378 | the message can be read back from its padding |
| `Md5.State.constructor` | ketama/libketama/md5.c:312-320 | the initial registers of RFC 1321 |
| `Md5.State.Append` | ketama/libketama/md5.c:322-358 | the state is that of one blockwise pass over everything appended |
| `Md5.State.Finish` | ketama/libketama/md5.c:360-381 | the digest of sections 3.1 to 3.5 of RFC 1321 |
| `Md5.HashPieces` | ketama/libketama/md5.c:322-381 | however a message is cut into pieces, the digest is that of the whole |
| `Md5.WordBytes` | ketama/libketama/md5.c:373-374 | the loops that take words apart, low-order byte first |
| `JenkinsHash.KeepIsWord` | memcached-1.4.15/hash.c:166-181 | masking a 32-bit load keeps exactly the key's bytes |
| `JenkinsHash.HashByWords` | memcached-1.4.15/hash.c:137-181 | the aligned path is the reference, whatever follows the key in its last word |
| `JenkinsHash.HashByHalves` | memcached-1.4.15/hash.c:205-250 | so is the 16-bit path |
| `JenkinsHash.HashByBytes` | memcached-1.4.15/hash.c:252-292 | so is the bytewise path |
| `JenkinsHash.Hash` | memcached-1.4.15/hash.c:125-297 | the hash depends neither on the key's address nor on the bytes behind it |
| `JenkinsHash.EmptyKeyHash` | memcached-1.4.15/hash.c:134 | the empty key hashes to 0xdeadbeef plus the initial value |
| `JenkinsHash.LengthCounts` | memcached-1.4.15/hash.c:134 | keys of different lengths start from different values |
| `JenkinsHash.ShortKeyHash` | memcached-1.4.15/hash.c:134-181 | up to 12 bytes are three words added to the starting value and mixed by final |
| `JenkinsMix.XorBack` | memcached-1.4.15/hash.c:78-86 | exclusive or with the same word twice is the identity |
| `JenkinsMix.RotIsRotation` | memcached-1.4.15/hash.c:32 | the top k bits go to the bottom |
| `JenkinsMix.RotBack` | memcached-1.4.15/hash.c:32 | rotating by k and then by 32 - k is the identity |
| `JenkinsMix.MixInPlace` | memcached-1.4.15/hash.c:78-86 | the macro as it is written is mix |
| `JenkinsMix.FinalInPlace` | memcached-1.4.15/hash.c:113-122 | and final |
| `JenkinsMix.MixIsBijection` | memcached-1.4.15/hash.c:78-86 | mix is a bijection on triples of words, with an explicit inverse |
| `JenkinsMix.FinalIsBijection` | memcached-1.4.15/hash.c:113-122 | so is final |

## Left out

- The loops of the prototype that clean up after a view change or exchange whole entries (`cleanHash`,
  `adjustVersion`, `antiEntropyHandler`): they erase while iterating; only the messages are modelled.
- Statistics, pings and their timing, Thrift, threads and sockets of the prototype; a set of dead servers
  and the randomly drawn ring points are parameters.
- The string hash functions of the prototype, the blog and ketama; hashes are arbitrary functions.
- `prototype/client.py`, the Java client, the other language bindings, and the blog's HTTP and database code.
- ketama's shared memory, semaphores, file parsing and computation of point counts.
- memcached's connection state machine, command parsing, statistics text, SASL, daemon and options.
- The `requested` counter; the capacity of the page list of a class; preallocation; the choice of classes
  by the automatic mover.
- Mutexes, try-lock and, in `StorageEngine`, the clock: a locked region is one step, and the outcome of a
  try-lock and whether an item is due for a move to the front are free choices (`Commands.RefreshKeepsInv`
  has the test of the last use).
- Addresses are indices into arrays, and the bit mask that selects a bucket is a remainder.
- CacheSpec.StaysNearLimit: sizes are unbounded numbers, so the 32-bit counter of the source is covered by the bound it states and not by the arithmetic itself.
- StorageEngine.AllocKeepsInv: recycles an expired or the least recently used item among the last five, without the counters; which items can be locked, also by the lock the caller holds, is a free choice; the repair of leaked references is a lemma of its own, `StorageSafety.TailRepairIsSafeIff`, and no step, since the steps leak none.
- StorageEngine.GetKeepsInv: one atomic step, although the source has `cache_lock` commented out (memcached-1.4.15/items.c:522-536). Finding the item and counting the reference are then not atomic with a flush, which can free the item in between, and the unlinking from a page being moved can meet the list updates of another thread. `StorageSafety.LateReferenceIsSafeIff` gives the condition for the first; the second is not modelled.
- Md5.State.Append: takes pieces below 2^28 bytes, beyond which the shift of a signed length overflows in C; the compression function is a parameter.
- JenkinsHash.Hash: the two mixing macros are parameters, which `JenkinsMix` defines; the big-endian variant is not part of this model.
- StorageEngine.MoveKeepsInv: the page mover and the allocator are steps on values, so that steps of other threads can come between them; their list updates in place are in `LinkedQueues`.
- CommandCache.Cache.StoreItem: values are without their line end, and allocation for append and prepend succeeds or fails as a parameter; evictions it causes are steps of their own.
- Counters.CounterReadsIff: `strtoull` and the conversion `%llu` are modelled as the C standard describes them for the C locale; the memory behind an item is a parameter.
- Delete, touch, incr and decr have no method of their own beside their value-level step.
- OutputQueue.Conn.AddIov: allocations succeed, and the frame headers that `build_udp_headers` writes are left as room of the right size.
