# SHDC: placement, storage, replication and migration of keys

SHDC is a sharded in-memory cache. A consistent-hash ring says which node is the primary of a key
and which nodes replicate it; every node keeps its share of the keys in a store with expiries,
versions and least-recently-used eviction; servers replicate writes, answer quorum reads and writes,
and route requests around dead nodes; and when the ring changes, keys are migrated to their new
owners. This project models these four parts in Dafny and proves what they keep, run by run.

Files, bottom up:

- `Expiry.dfy`, `Lists.dfy`: absolute expiries and how they travel between nodes; sequence helpers.
- `RingSpec.dfy`, `Ring.dfy`, `Topology.dfy`: the ring as a value with its theorems; the class that
  implements it by a sorted point list and binary search; the placement of keys it gives to the
  protocols.
- `StoreSpec.dfy`, `Lru.dfy`, `Sweeping.dfy`, `Store.dfy`: the store as a value; its refinement of a
  recency list; when sweeps are visible; the class with map, linked list and byte count.
- `Quorum.dfy`, `QuorumSafety.dfy`, `QuorumValues.dfy`, `QuorumHandlers.dfy`, `QuorumOutsider.dfy`:
  quorum writes and reads as a state machine over all interleavings, its invariants and theorems, the
  handlers as schedules of its steps, and which readers are safe.
- `Forwarding.dfy`, `Routing.dfy`: how far requests are passed on with any number of replicas; GET,
  SET and DELETE with one replica per key.
- `ShippedFactor.dfy`: what the replication factor of 2 guarantees that every server is built with.
- `Replication.dfy`, `ReplicationSteps.dfy`: asynchronous replication and the table of failed sends,
  first one operation at a time with exact effects, then all of them in flight at once.
- `RebalanceSpec.dfy`, `Rebalance.dfy`: key migration over lossy calls; one node's run.
- `Migrating.dfy`, `Provenance.dfy`, `Convergence.dfy`, `ClearingRuns.dfy`: the runs of all nodes
  interleaved; where copies come from; what all runs conserve and converge to; runs that clear the
  cluster, and one that strays.

Where a class models a Go type, its methods are proved against functions on values, and the theorems
are about those functions. Calls between nodes have three outcomes: never applied, applied with the
reply lost, or applied and answered. Liveness views are arbitrary unless a result names nodes that every
view reports alive or dead.

Results worth knowing before changing the code:

- Without collisions between virtual points of different nodes, removing a node filters every
  preference list. With collisions, an addition followed by its removal restores the ring exactly
  when the new node's points were free (`AddRemoveRestoresIff`), and a removal can leave registered
  nodes without any point, in which state `Replicas` would index an empty list (`RemovalStrandsIff`,
  `StrandedIsReachable`).
- The comment on `Replicas` (`internal/ring/ring.go:125-127`) speaks of returning false; the code
  returns an empty list, and that is what is modelled.
- A quorum read is documented to rest on a majority of nodes. The code also counts the copy of a
  reader outside the key's group, and then the guarantee fails for every group of odd size
  (`QuorumReadsFreshIff`).
- With a replication factor above 2 a GET can be passed round for ever between replicas of a key that
  miss it while the primary is known dead (`LoopingGet`; exactly when: `ReadsEndIff`). SETs and DELETEs
  always end as long as nodes believe themselves alive (`WritesEnd`), which
  `internal/cluster/cluster.go:176` sets up.
- Servers are built with a replication factor of 2 (`internal/server/server.go:56`), and nothing sets
  another. Then all requests end, whatever nodes believe of each other and of themselves
  (`RequestsEnd`), and without collisions quorum reads are fresh for every reader as soon as two nodes
  are registered; on a ring of one node only that node's own reads are (`QuorumReadsFresh`).
- An expiry loses the part below one millisecond on its first transfer, so for less than one
  millisecond the primary serves a key its replicas have dropped (`TransferWindowIff`); an expiry less
  than one millisecond after the epoch is transferred as "no expiry" (`ChainNeverOutlivesIff`).
- The pull endpoint reads value and expiry in two sections. If the key expires and is swept between
  them, it is migrated without an expiry and never expires again (`ResurrectedIff`).
- A migration counts as complete although its completion signal was lost; the old copy then stays
  until a later run (`CompletionShrinksMisplaced`).
- A pull that misses its key is answered with a replica's copy, without the expiry, and the copy is
  written back at the old owner later. If a list of keys is overtaken by another run of its node, the
  key can so end up at a node that counts as cleared, and stay at its owner for ever although all its
  copies had an expiry (`StrayingRun`). These write-backs are the only steps that misplace a copy
  (`StepMisplacesIff`) and exactly what keeps a cluster from converging (`RunsConverge`). No key whose
  copies are current is concerned if no node lists its keys while a list or a run of its own is
  outstanding (`OrderlyRunsConverge`); neither half of that is enough alone (`StrayingRun`), and
  `TriggerRebalance` and `POST /rebalance` (`internal/server/server.go:287-324`), which keep a list per
  call, ensure neither.
- A migration to a node that shares the old owner's address deletes the key (`MigrationKeepsKeyIff`).

## Model

| member | source | states |
|---|---|---|
| Expiry.HopIsFloor | internal/server/server.go:180-184 | sending an expiry as Unix milliseconds and decoding it keeps "no expiry" and rounds any expiry of at least one millisecond down by less than one millisecond |
| Expiry.HopIdempotent | internal/server/server.go:780-788 | a second transfer changes nothing |
| Expiry.ChainSettlesAfterOneHop | internal/server/server.go:860-872 | along any chain of transfers the expiry is fixed by the first |
| Expiry.ChainNeverOutlivesIff | internal/server/server.go:359-364 | an expiry that is sent as stored, however often, never outlives the original exactly when it is absent or at least one millisecond past the epoch, and then a chain loses less than one millisecond in total (when a migration sends something else is `RebalanceSpec.SentExpiryIff`) |
| Expiry.ChainAliveBeforeFloor | internal/server/server.go:414-422 | before the millisecond floor of the original expiry no transferred copy is expired |
| Expiry.TransferWindowIff | internal/server/server.go:1317-1323 | original alive and copy expired happens exactly between the floor and the expiry |
| Expiry.MatchesHop | internal/server/server.go:359-364 | a copy of a copy expires exactly when the first copy does |
| Expiry.MatchesWithin | internal/server/server.go:359-364 | a matching expiry lies between the millisecond floor of the original and the original |
| Expiry.TransferredWithin | internal/server/server.go:694-698 | a replica's copy is alive before the floor of the primary's expiry and outlasts neither that expiry nor the deadline sent with the write |
| Ring.ItoaInjective | internal/ring/ring.go:55-57 | decimal numerals identify numbers |
| Ring.ItoaIsDecimal | internal/ring/ring.go:55-57 | the numeral of an index denotes it in decimal |
| Ring.NodePointKeyInjective | internal/ring/ring.go:55-57 | virtual point names identify node and index, even for IDs that contain '#' |
| Ring.VirtualPointsPopulate | internal/ring/ring.go:37-46 | with a positive number of virtual nodes every registered node has a point |
| Ring.Ring.constructor | internal/ring/ring.go:37-46 | a new ring is empty; a virtual node count that is not positive becomes 150 |
| Ring.Ring.AddNode | internal/ring/ring.go:60-74 | a known ID changes nothing; otherwise the node is registered, owns the hash of `id#i` for every virtual index `i`, and every other point stays as it was; the point list stays sorted and complete |
| Ring.Ring.PlacePoints | internal/ring/ring.go:69-72 | the new node takes over all its points, also occupied ones |
| Ring.Ring.RemoveNode | internal/ring/ring.go:77-91 | an unknown ID changes nothing; otherwise the node goes, and with it exactly the points that are the hash of `id#i` for a virtual index `i` |
| Ring.Ring.DropPoints | internal/ring/ring.go:86-89 | all points of the node are deleted whoever owns them |
| Ring.Ring.RebuildPoints | internal/ring/ring.go:94-101 | the point list is the clockwise walk from 0 over all owned points |
| Ring.SortPoints | internal/ring/ring.go:99-99 | sorting keeps the elements and orders them strictly |
| Ring.Search | internal/ring/ring.go:114-116 | binary search finds the first point not below the hash |
| Ring.Ring.Lookup | internal/ring/ring.go:104-123 | answers with the node at the first point not below the hash, or at the very first point if there is none; fails exactly without points |
| Ring.Ring.Replicas | internal/ring/ring.go:128-165 | answers with exactly the next entries of the preference list |
| Ring.CollectReplicas | internal/ring/ring.go:147-164 | the walk with a seen set collects first appearances in clockwise order across the wrap-around |
| RingSpec.WalkUnique | internal/ring/ring.go:144-163 | a clockwise walk is determined by its set of points |
| RingSpec.RotationIsWalk | internal/ring/ring.go:114-120 | the sorted list rotated at the search result is the clockwise walk from the hash |
| RingSpec.OperationsKeepWellFormed | internal/ring/ring.go:60-91 | owned points belong to registered nodes after every addition and removal, collisions or not |
| RingSpec.LookupNoneIff | internal/ring/ring.go:108-110 | lookup fails exactly when no point is owned |
| RingSpec.LookupIsNearest | internal/ring/ring.go:112-122 | lookup answers with the owner of the point nearest clockwise |
| RingSpec.PrefsByDistance | internal/ring/ring.go:144-164 | one node precedes another in the preference list exactly if its first point lies nearer clockwise |
| RingSpec.AddMovesOnlyToNewNode | internal/ring/ring.go:60-74 | after an addition each key keeps its owner or moves to the new node, even if hashes collide |
| RingSpec.RemoveMovesOnlyItsKeys | internal/ring/ring.go:77-91 | after a removal only the removed node's keys move, if its registered points are its own |
| RingSpec.RemoveFiltersPrefs | internal/ring/ring.go:77-91 | a removal deletes the node from every preference list and keeps the order of the rest |
| RingSpec.AddInsertsIntoPrefs | internal/ring/ring.go:60-74 | an addition without collisions inserts the node and keeps the order of the rest |
| RingSpec.AddRemoveRestoresIff | internal/ring/ring.go:60-91 | addition then removal of a new node restores the ring exactly when its points were free |
| RingSpec.RemoveDeletesOwnPointsIff | internal/ring/ring.go:86-89 | removal deletes just the node's own points exactly when none of its points belongs to another |
| RingSpec.FailoverTargetBecomesPrimary | internal/server/server.go:583-600 | once a dead primary is removed, lookup answers with its first replica, to which requests were already sent |
| RingSpec.PrefsAreTheNodes | internal/ring/ring.go:152-163 | without collisions each preference list contains every registered node exactly once |
| RingSpec.ReplicasCount | internal/ring/ring.go:128-165 | there are exactly min(factor, nodes) - 1 replicas |
| RingSpec.ReplicasFollowPrimary | internal/ring/ring.go:144-164 | primary and replicas are distinct registered nodes and a prefix of the preference list |
| RingSpec.ReplicasGrow | internal/ring/ring.go:160-162 | a larger factor only appends replicas |
| RingSpec.RunFaithful | internal/ring/ring.go:60-91 | along every history without collisions each node owns exactly its points |
| RingSpec.FaithfulDeterminesOwner | internal/ring/ring.go:60-101 | without collisions ownership depends on the set of node IDs only |
| RingSpec.HistoriesAgree | cmd/cache/main.go:65-74 | processes that reach the same set of IDs in any order agree on what `Lookup` and `Replicas` answer for every key and factor, and on the whole preference list |
| RingSpec.AdditionsCommuteIff | cmd/cache/main.go:65-74 | two additions commute exactly when the nodes' points do not collide |
| RingSpec.RemovalStrandsIff | internal/ring/ring.go:77-91 | a removal leaves several registered nodes without any point exactly when at least two remain and the removed node's points cover every owned one |
| RingSpec.StrandedIsReachable | internal/ring/ring.go:60-91 | three nodes whose points coincide are added to an empty ring and the first leaves: then `Replicas` would index an empty list |
| RingSpec.JoinAndLeaveStrandsIff | internal/ring/ring.go:132-149 | the case of a newcomer that leaves again: exactly when its points cover all of theirs |
| RingSpec.FaithfulNeverStranded | internal/ring/ring.go:132-149 | that cannot happen without collisions |
| Topology.RingPlacesProperly | internal/server/server.go:1123-1127 | the group of a key (primary and replicas) is non-empty exactly if the ring has points, has distinct registered members, and min(factor, nodes) of them without collisions |
| StoreSpec.FittingIsLongest | internal/store/store.go:289-306 | eviction keeps the longest prefix of the recency order whose total size fits the cap |
| StoreSpec.WrittenSurvivesIff | internal/store/store.go:108-119 | the key just written survives its own eviction pass exactly when its size fits the cap |
| StoreSpec.PutStores | internal/store/store.go:77-119 | a write stores its item unless the item alone exceeds the cap; other keys keep their copies or are evicted, and without a cap none is |
| StoreSpec.PutEvictsLast | internal/store/store.go:289-306 | what stays is the front of the recency order, and the first key evicted would have exceeded the cap |
| StoreSpec.CurrentIff | internal/server/server.go:780-788 | the term "current", used throughout: an item is current exactly as long as neither it nor any copy of it, however often transferred, has expired |
| StoreSpec.PutSound | internal/store/store.go:77-119 | writes keep list and map in step and usage within the cap |
| StoreSpec.DropSound | internal/store/store.go:277-285 | so do deletions |
| StoreSpec.TouchSound | internal/store/store.go:258-265 | so does moving a key to the front |
| StoreSpec.SweepSound | internal/store/store.go:361-368 | so do sweeps |
| Store.Store.constructor | internal/store/store.go:38-53 | a new store is empty and never evicts |
| Store.Store.WithEviction | internal/store/store.go:55-71 | a new store with a recency list and a cap |
| Store.Store.ValidIsSound | internal/store/store.go:77-306 | the representation (elements, byte count) is valid exactly when the abstract view is sound |
| Store.Store.Set | internal/store/store.go:77-119 | stores the value with expiry now + TTL (none for a TTL of 0 or less), one version above a present copy; other keys keep their copies or are evicted as the cap demands, and without a cap all stay; byte count is the sum of sizes |
| Store.Store.SetWithExpiry | internal/store/store.go:124-155 | the same with an absolute expiry |
| Store.Store.SetVersion | internal/store/store.go:192-227 | refused exactly if a copy at the same or a newer version is present, and then nothing changes; otherwise the item is stored as given |
| Store.Store.GetWithVersion | internal/store/store.go:167-181 | an expired copy counts as absent |
| Store.Store.GetExpiry | internal/store/store.go:159-163 | the stored expiry, or none |
| Store.Store.GetRead | internal/store/store.go:231-253 | the read-locked half tells hit, stale and missing apart |
| Store.Store.GetReap | internal/store/store.go:241-248 | the second look deletes the key only if its present copy has expired; no other key changes |
| Store.Store.GetTouch | internal/store/store.go:258-265 | whatever happened since the reading, only the element that is still the key's own is moved |
| Store.Store.Get | internal/store/store.go:229-268 | the value if present and unexpired, with a touch; otherwise nothing, and an expired copy is gone; no other key changes |
| Store.Store.MoveToFront | internal/store/store.go:258-265 | moving an element moves its key |
| Store.Store.Delete | internal/store/store.go:270-274 | removes the key from map and list and keeps every other key |
| Store.Store.DeleteLocked | internal/store/store.go:277-285 | removes the key and its size |
| Store.Store.EvictIfNeeded | internal/store/store.go:289-306 | the loop ends with the longest prefix that fits |
| Store.Store.RemoveBack | internal/store/store.go:295-304 | one eviction removes the least recent key |
| Store.Store.Keys | internal/store/store.go:319-333 | lists exactly the unexpired keys, each once |
| Store.Store.SweepTick | internal/store/store.go:361-368 | keeps exactly the unexpired entries, unchanged and in order |
| Lru.KeepIsFitting | internal/store/store.go:289-306 | the reference list's own notion of the kept prefix is the one the eviction loop computes |
| Lru.StepRefines | internal/store/store.go:77-306 | every operation acts on map and order as on a plain list of cells, most recent first |
| Lru.RunRefines | internal/store/store.go:77-306 | so does every sequence of operations from an empty evicting store |
| Lru.ReadsKeepLive | internal/store/store.go:229-268 | no half of a get and no sweep removes or changes an unexpired copy |
| Sweeping.KeepingSimulates | internal/store/store.go:354-373 | a store that sweeps answers like one that never removes expired copies |
| Sweeping.SweepsAreTransparent | internal/store/store.go:354-373 | without eviction and with a monotone clock all get and key-list answers are the same wherever sweeps run |
| Sweeping.SweepChangesSetVersionIff | internal/store/store.go:196-199 | versioned writes notice a sweep exactly when an expired copy at that version or above lingers |
| Quorum.OtherStepsAct | internal/store/store.go:124-155 | plain writes, deletions, wipes and sweeps change one node's store only, each as the store's own operation does |
| QuorumSafety.StepAdvances | internal/store/store.go:192-199 | no step other than deletion, expiry or a wipe lowers a node's version of a key |
| QuorumSafety.RunKeepsInv | internal/server/server.go:1115-1164 | the inductive invariant over all interleavings with lost requests and lost replies: counted acknowledgements come from members that hold the version |
| QuorumSafety.VotesMeetIff | internal/server/server.go:1269-1276 | a write majority and a read majority of votes always share a member exactly if no vote is an outsider's or the group is even |
| QuorumSafety.BestIsNewest | internal/server/server.go:1284-1289 | the chosen response has the highest version |
| QuorumSafety.QuorumReadSeesAckedWrite | internal/server/server.go:1199-1297 | a quorum read begun after an acknowledged write and answered 200 returns that version or a newer one |
| QuorumValues.NoReplicaAhead | internal/server/server.go:1115-1141 | under quorum-only traffic no version at a replica or in flight exceeds the primary's, even with concurrent writes that choose the same version |
| QuorumValues.RunTraced | internal/server/server.go:1115-1141 | every stored copy and every response stems from a write of that version and value |
| QuorumValues.VersionsIdentifyValues | internal/server/server.go:1115-1141 | with serialised writes equal versions mean equal values across the group |
| QuorumValues.QuorumReadReturnsAckedValue | internal/server/server.go:1199-1297 | a quorum read between an acknowledged write and the next write returns exactly that write's value |
| QuorumHandlers.BestResponse | internal/server/server.go:1284-1289 | the loop finds the first response with the highest version |
| QuorumHandlers.Coordinator.SetVersion | internal/store/store.go:192-227 | refused exactly for a copy at the same or a newer version; otherwise the node holds the item, its other keys and all other nodes as before |
| QuorumHandlers.CallIsRun | internal/server/server.go:1132-1142 | a call with each of its outcomes is a run of the step machine: request, delivery unless lost, acknowledgement or failure |
| QuorumHandlers.CallCounts | internal/server/server.go:1132-1142 | a call adds its member to the acknowledgements exactly if a reply arrived, and the counter keeps their number |
| QuorumHandlers.Coordinator.AskReplicas | internal/server/server.go:1129-1142 | each replica whose call is not lost takes the copy unless it has an equal or newer version; the answered calls are counted; stores and counter stay in step with a run |
| QuorumHandlers.Coordinator.HandleQuorumSet | internal/server/server.go:1089-1164 | the value goes to the primary with expiry now + TTL at one version above its unexpired copy, and with the transferred expiry to each replica whose call is not lost, in both cases unless an equal or newer version lingers there; nothing else changes; the counter is 1 plus the answered calls, and 200 means a majority of the group; all this is a run of the step machine, whose history gains this very write exactly on a 200 |
| QuorumHandlers.Coordinator.HandleQuorumGet | internal/server/server.go:1199-1297 | the copies that count are the reader's own and those of the group members reached, if unexpired; 404 if there is none, 503 up to half the group, otherwise 200 with the newest of them, of equal versions that asked first; all this is a run of the step machine |
| QuorumOutsider.EternalRunUndisturbed | internal/store/store.go:354-373 | runs without expiries, deletions and wipes satisfy the hypothesis of the quorum theorems |
| QuorumOutsider.OutsiderReadsStale | internal/server/server.go:1219-1223 | for every key with a group of odd size and every reader outside it there is an undisturbed run in which that reader gets a 200 older than an acknowledged write |
| QuorumOutsider.QuorumReadsFreshIff | internal/server/server.go:1219-1276 | a reader sees the acknowledged version or a newer one in all undisturbed runs exactly if it belongs to the key's group or the group has even size |
| QuorumOutsider.ReaderWithoutCopyIsFresh | internal/server/server.go:1219-1223 | so does any reader that holds no unexpired copy when its read begins |
| Forwarding.AnsweredGetSays | internal/server/server.go:793-944 | for any number of replicas, views and lost calls: 200 only if a group member holds the key, 404 only if the primary does not; the primary, and any node that asks it and gets its reply, answers 200 if the primary or a replica it reaches holds the key and 404 otherwise |
| Forwarding.AnsweredWriteSays | internal/server/server.go:501-644 | a write is accepted by a group member, and by the primary itself where it enters or is asked and replies |
| Forwarding.ReadsEndIff | internal/server/server.go:880-944 | for any number of replicas, GETs end wherever they enter and whatever happens to the calls, exactly if there is no circle of replicas each of which misses the key or tries the next before its own copy; views are arbitrary, also of a node that believes itself dead |
| Forwarding.CirclesIffPingPong | internal/server/server.go:911-941 | as long as nodes believe themselves alive, that means that no two replicas play ping-pong: one misses the key, and the other misses it too or comes later on the ring and believes the first alive |
| Forwarding.LoopingGet | internal/server/server.go:909-941 | with the primary known dead and two replicas that miss the key and believe each other alive, a GET never ends although every call is answered |
| Forwarding.WritesEnd | internal/server/server.go:583-622 | as long as nodes believe themselves alive every SET and DELETE ends, for any number of replicas, views and call outcomes |
| Forwarding.WritesEndIff | internal/server/server.go:583-622 | writes end under all views that nodes may have of each other exactly if every replica but the last believes itself alive |
| Forwarding.TriedBeforeSelf | internal/server/server.go:946-956 | before itself a node that believes itself alive tries only live nodes that precede it on the ring |
| Forwarding.TriedBeforeDead | internal/server/server.go:946-956 | a node that believes itself dead tries before itself only nodes it sees alive or that precede it on the ring |
| ShippedFactor.RequestsEnd | internal/server/server.go:56-56 | with the factor servers are built with every GET, SET and DELETE ends, for any ring, views and call outcomes |
| ShippedFactor.QuorumReadsFresh | internal/server/server.go:56-56 | with that factor and without collisions quorum reads are fresh exactly if two nodes are registered or the reader is the only one |
| Routing.EvaluatorIsTruthful | internal/server/server.go:793-944 | for a primary and at most one replica the evaluator of `Forwarding` ends and answers truthfully about who holds the key ... |
| Routing.Cluster.SincereIsTruthful | internal/server/server.go:793-944 | ... as `HandleGet` does, so that the two models of the handler meet the same specification |
| Routing.Cluster.SplitByAlive | internal/server/server.go:946-956 | live nodes first, both parts in the given order |
| Routing.Cluster.ReadFromReplica | internal/server/server.go:840-875 | returns a replica's unexpired value and transferred expiry; fails only if no always-answering replica has one |
| Routing.Cluster.HandleGet | internal/server/server.go:793-832 | terminates; a 200 carries a value held unexpired by a group member; 404 only if the primary lacks the key; the primary answers 200 or 404, and 404 if no group member holds the key, and so does every node while all views report the primary alive and it always answers; an always-answering replica with the key makes every GET succeed; stores only lose expired copies; the primary heals itself exactly when it served a replica's copy |
| Routing.Cluster.ForwardWithFallback | internal/server/server.go:880-944 | the same for a node that does not own the key, whatever its liveness view |
| Routing.Cluster.ReadReplicas | internal/server/server.go:911-941 | the same for the loop over the replicas |
| Routing.Cluster.HandleWrite | internal/server/server.go:669-707 | terminates; a request is refused exactly for an empty key or a negative TTL; the write is applied nowhere or at exactly one group member: a SET stores value, expiry and next version there, a DELETE removes the key, other keys stay unless evicted and other nodes do not change; the primary, and nobody else, starts to replicate that value and expiry or that deletion; the reply says at which kind of member, and is the primary's where it is asked and answers |
| Routing.Cluster.Forward | internal/server/server.go:501-532 | the same for a node that does not own the key |
| Routing.Cluster.ForwardToReplica | internal/server/server.go:583-622 | the same for the loop over the replicas; a replica accepts the write itself |
| Routing.Cluster.FailoverReadsOwnWrites | internal/server/server.go:583-644 | with the primary known dead, a SET entered at the replica or at a node it always answers is accepted by the replica, and a later GET at any such node returns it |
| Routing.Cluster.HealthyReadsOwnWrites | internal/server/server.go:669-832 | with the primary known alive and always answering, every node accepts writes for it, a later GET at any node returns the value set, and 404 after a DELETE unless a replica still holds the key |
| Replication.TrackedEntries | internal/server/server.go:751-761 | tracking adds one entry and never changes a first failure time |
| Replication.ForgottenEntries | internal/server/server.go:141-147 | forgetting removes one entry and never leaves an empty inner map |
| Replication.CoveredIsReadable | internal/server/server.go:773-791 | a replicated copy is served by the replica with the primary's value until the floor of the primary's expiry |
| Replication.DeadlineSpreads | internal/server/server.go:694-698 | the expiry sent to replicas, from a second clock reading, is absent exactly if the stored one is, and not earlier |
| Replication.WriteAccounts | internal/server/server.go:713-747 | a served write leaves its key replicated or listed at each replica and no other key worse off |
| Replication.PassAccounts | internal/server/server.go:107-171 | a retry pass keeps every key replicated, listed or given up |
| Replication.SweepAccounts | internal/store/store.go:361-368 | so do time and sweeps on any node |
| Replication.Primary.constructor | internal/server/server.go:50-69 | a primary with an empty store satisfies the invariant |
| Replication.Primary.Elapse | internal/store/store.go:361-368 | the invariant survives time and sweeps |
| Replication.Primary.ServeSet | internal/server/server.go:692-707 | a write whose replication runs alone: the primary takes the value with expiry now + TTL, each replica whose call is not lost takes it with the later deadline, transferred, both one version above a present copy, and nothing else changes; exactly the unanswered calls are listed, under the first failure time; every key stays accounted for |
| Replication.Primary.ReplicateSet | internal/server/server.go:713-747 | each replica has the copy unless its call was lost, and is listed unless it replied |
| Replication.Primary.CollectTargets | internal/server/server.go:108-136 | of the entries, those at least `maxPendingAge` old are dropped, those from `retryInterval` to below that are collected, each once, and all others left alone |
| Replication.Primary.ScanKey | internal/server/server.go:117-134 | the same for one key's replicas |
| Replication.Primary.RetryTargets | internal/server/server.go:138-170 | exactly the resolved targets are forgotten and exactly the sent copies stored |
| Replication.Primary.RetryTarget | internal/server/server.go:139-169 | one target: forgotten if the key is gone or the send was answered |
| Replication.Primary.ReplicateToReplica | internal/server/server.go:174-199 | only a listed replica is sent the copy; true exactly on a reply |
| Replication.Primary.RetryFailedReplications | internal/server/server.go:107-171 | a pass that runs alone: an entry goes at an age of `maxPendingAge`, and from `retryInterval` on if the primary no longer holds the key unexpired or the call is answered, and stays with its time otherwise; a copy is replaced exactly if its entry's age lies between the two limits, the key is held and the call not lost; exactly the entries that reached the limit are given up |
| ReplicationSteps.RunKeepsInv | internal/server/server.go:107-199 | the invariant over all interleavings of writes, sends, failure records, scans, retries, sweeps and the clock, per key |
| ReplicationSteps.RunsAccount | internal/server/server.go:713-761 | replicated, listed or given up: whatever is in flight for other keys, a key that has not overlapped since its last lone write, and has no write in flight, is accounted for at every replica |
| ReplicationSteps.OverlapsIff | internal/server/server.go:700-705 | a write settles whether its key is overlapped: exactly if it begins while something of the key is in flight; apart from that a key comes to overlap exactly when a pass picks it up during a write of it |
| ReplicationSteps.StepKeepsTimes | internal/server/server.go:117-164 | no step changes a first failure time or leaves an empty inner map; an entry goes exactly at an age of `maxPendingAge` in a scan or after its own resolved retry, and only the former gives it up |
| ReplicationSteps.QuietServe | internal/server/server.go:692-747 | with nothing in between, the steps of a write and its replication have exactly the effect of `Primary.ServeSet` |
| ReplicationSteps.QuietPass | internal/server/server.go:107-171 | with nothing in between, the steps of a retry pass have exactly the effect of `Primary.RetryFailedReplications`; a scan is always possible |
| RebalanceSpec.PlanMembers | internal/rebalance/rebalance.go:145-161 | a plan names exactly the listed keys owned by another node, each once, with their owners |
| Rebalance.PlanIsByRing | internal/rebalance/rebalance.go:145-161 | read off the points of the ring: a listed key is planned exactly if the next point around from its hash belongs to another node, and that node is where it goes |
| RebalanceSpec.JoinMovesOnlyToNewNode | internal/rebalance/rebalance.go:323-339 | after a join every migration of a key the node owned before goes to the node that joined |
| RebalanceSpec.ValueReadKeeps | internal/server/server.go:390-390 | the first section of a pull disturbs no copy that may still be read |
| RebalanceSpec.SentExpiryIff | internal/server/server.go:390-422 | for a key the node holds a pull sends its copy's own expiry exactly if the copy is still stored when the expiry is read, that is unless it expired and was swept between the two sections |
| RebalanceSpec.ResurrectedIff | internal/server/server.go:359-422 | exactly in that case the new owner stores the key without any expiry |
| RebalanceSpec.PulledCarries | internal/server/server.go:390-422 | as long as the item is current the two sections together give its value and its expiry |
| RebalanceSpec.CarriedIsAt | internal/server/server.go:359-364 | an accepted reply gives the new owner the pulled value with the transferred expiry, no earlier and no later |
| RebalanceSpec.MigrationStep | internal/rebalance/rebalance.go:172-188 | one migration, completed or not, loses no key in any intermediate state |
| RebalanceSpec.SecureIsReadable | internal/rebalance/rebalance.go:3-9 | in such states each current key can be read at the old or its new owner with its value |
| Rebalance.Servers.HandlePull | internal/server/server.go:378-423 | a key held unexpired is answered with its value and the expiry read in a second section, with sweeps in between; any other with the copy of the first replica that answers, without its expiry, and a write-back is noted; with all calls answered a 404 means that no replica had it either |
| Rebalance.Servers.ReadFromReplica | internal/server/server.go:840-875 | the loop over the replicas: an unexpired copy of another node with the transferred expiry, or, with all calls answered, none |
| Rebalance.Servers.Pull | internal/server/server.go:378-423 | a reply carries the held item as long as that is current; it is the node's own copy, or a replica's without expiry and with a write-back noted; with all calls answered no reply means the key is not held |
| Rebalance.Servers.Accept | internal/server/server.go:337-370 | after an acknowledged push the node holds the value and expiry that were sent, until that expiry; every other copy is kept and none appears |
| Rebalance.Servers.Complete | internal/server/server.go:428-445 | an acknowledged signal means the old owner no longer has the key; other copies are kept |
| Rebalance.Rebalancer.ComputeKeyMovements | internal/rebalance/rebalance.go:323-339 | the loop computes the plan |
| Rebalance.Rebalancer.ExecuteMigration | internal/rebalance/rebalance.go:208-275 | pull before drop whichever calls are lost before or after taking effect, if the addresses differ; success means the new owner holds the key, failure that the old one does; with all calls answered the old owner has given it up |
| Rebalance.Rebalancer.MigrateOne | internal/rebalance/rebalance.go:172-188 | the same with the final status |
| Rebalance.Rebalancer.ExecuteAll | internal/rebalance/rebalance.go:172-188 | counters, statuses and safety of the whole loop |
| Rebalance.Rebalancer.Rebalance | internal/rebalance/rebalance.go:125-199 | refused without effect while in progress; otherwise the two counters are the numbers of complete and of failed migrations, which make up the plan, copies appear only at planned owners, and write-backs are due for planned keys at the old owner only; if the listed keys are distinct and no other node has the old owner's address, every recorded state is secure and the statuses tell where each key is; with all calls answered the old owner has given up every planned key, however much time passes |
| Migrating.RingClusterValidIff | internal/ring/ring.go:104-165 | the registered nodes of a ring form such a cluster, with `Lookup` as owner and `Replicas` as replicas, exactly if the ring has points and no two nodes share an address |
| Migrating.CompletionShrinksMisplaced | internal/rebalance/rebalance.go:266-275 | a completion signal reduces the misplaced copies, by its own pair, exactly if it is not lost; the code counts the migration as complete in either case |
| Migrating.StepMisplacesIff | internal/server/server.go:391-404 | a step of any node misplaces a copy exactly if it writes back, unexpired, a replica's copy where there is none |
| Convergence.RunKeepsInv | internal/rebalance/rebalance.go:125-199 | the invariant over all interleavings of all nodes' runs, with any number of lists pending at each node, refused starts, lost calls, missed pulls, write-backs, sweeps and the clock |
| Convergence.RunsConserve | internal/rebalance/rebalance.go:172-188 | at any time in any run: misplaced copies are among the original ones and those written back, a key whose original copies are current is held, and every copy has the value of an original one; its expiry is that copy's (or lost after that copy expired), or, if a pull of the key was answered by a replica, that of some original copy or none |
| Convergence.RunsConverge | internal/rebalance/rebalance.go:125-199 | once every node has finished a run in which its calls arrived, however the runs overlapped: each key whose original copies are current is at its owner, the misplaced copies are exactly those written back and still held, and a node plans nothing more exactly if none of them is its own |
| Convergence.OrderlyOnTime | internal/server/server.go:287-327 | as long as no node lists its keys while a list or a run of its own is outstanding, no pull of a key whose original copies are current is answered by a replica |
| Convergence.OrderlyRunsConverge | internal/rebalance/rebalance.go:125-199 | then such a key ends up at its owner and nowhere else, with value and expiry of one original copy |
| ClearingRuns.ClearingRunExists | internal/rebalance/rebalance.go:125-199 | from every cluster whose keys have names there is a run that clears all nodes, lists keys only as above, and in which no replica answers a pull |
| ClearingRuns.StrayingRun | internal/server/server.go:378-407 | for every key and every item that expires there is a run of three nodes that clears all of them and leaves the key misplaced, and at its owner without expiry, while all original copies are current; there is one in which nodes list their keys between runs only, and one in which they never have two lists pending |
| ClearingRuns.MigrationKeepsKeyIff | internal/rebalance/rebalance.go:208-275 | a sole copy survives exactly when old and new owner have different addresses |

## Left out

- SHA-256: the hash is a parameter, and nothing is said about how evenly it spreads keys.
- HTTP, JSON, status texts, the 405 and 500 answers, CORS, dashboard, metrics and health handlers.
- `internal/cluster` (gossip membership), `internal/chaos`, `cmd`, `deploy` and `website`, except for the order in which `cmd/cache/main.go` builds the ring.
- int64 overflow of sizes, versions and expiries; numbers are unbounded. Sizes count characters, which stand for bytes.
- The pointers inside `container/list`: the list is a sequence of element objects, so removal by pointer is removal by identity.
- Go's memory model: a section under a mutex is one atomic step. Where an operation has several sections they are separate steps in `Store`, `Quorum`, `ReplicationSteps`, `Migrating` and `Rebalance`; each section reads the clock once.
- The `ShutdownReplication`, `Close` and ticker goroutines; ticks are steps that may happen at any time.
- Forwarding of a quorum write from a node that is not the primary: quorum writes are modelled at the primary. The 400 answers of the quorum handlers and quorum operations on an empty ring are not modelled.
- Concurrent requests in `Routing`: a request is followed alone through all its calls, with stores changed by nobody else and the clock standing still. `forward` and `forwardWithBody`, which differ in how they re-read the body, are one method, and `handleSet` and `handleDelete` share another.
- The transport's timeouts: a call that never returns is not cut off, so `Forwarding` says which requests would run until a timeout. Liveness views and copies are fixed while it follows a request.
- The background tasks of `Routing` are recorded but not run; `Replication` runs the replication task of a SET. Replicated deletes, which are not retried, are not modelled.
- Replication.Primary.ServeSet: the write and its whole replication run alone; `ReplicationSteps.RunsAccount` covers every interleaving of their steps.
- Replication.Primary.RetryFailedReplications: the whole pass runs alone at one clock reading; `ReplicationSteps.RunsAccount` and `StepKeepsTimes` cover its interleavings.
- `Replication` and `ReplicationSteps` cover stores that do not evict, keys written through their primary only, and no deletions, restarts or heals.
- Rebalance.Servers.HandlePull: the write-back after a missed pull is noted but not run; in `Migrating` it is a step that may come at any later time, or never.
- Migration timestamps, error texts and the duration of a run. The old-owner field of a migration is never set by the code and is not modelled.
- Client writes during a migration: a write that lands at the new owner between pull and accept is overwritten, so the theorems exclude it.
- Convergence.RunsConverge: for a fixed ring whose nodes have distinct IDs and addresses (`RingClusterValidIff`). Whether an outdated list makes a pull miss is left open here and settled in `OrderlyRunsConverge`. Nothing is claimed about where a key is held once one of its original copies has reached the millisecond floor of its expiry.
- QuorumSafety.QuorumReadSeesAckedWrite: for a fixed ring, and for keys that are not deleted, wiped or expired in the run; stores in the quorum model do not evict.
- Last-write-wins across concurrent asynchronous replications, and unique values per version under concurrent quorum writes: the code does not promise them.
