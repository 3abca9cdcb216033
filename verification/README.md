# Ranvier, modelled and proved in Dafny

Ranvier is a prefix-aware router for LLM inference backends. This project models the parts of it
whose correctness depends on whole histories, on concurrency or on two representations agreeing,
and proves what they promise.

| file | modules | what it models |
|---|---|---|
| `Persistence.dfy` | `PersistenceStore`, `PersistenceWorker`, `PersistenceQueue` | the lock-free queue in front of the store: batching, route accumulation, the clear-generation skip, admission |
| `PersistenceRoom.dfy`, `PersistenceLog.dfy`, `PersistenceAdmission.dfy` | same names | when a clear is lost and what follows, when log rows are lost, how far admission overshoots |
| `PeerMerge.dfy`, `GossipNode.dfy`, `GossipRuns.dfy`, `GossipExact.dfy` | same names | reliable gossip delivery in one node: its operations, every run, and what each step does in a reachable state |
| `GossipLink.dfy`, `GossipAcks.dfy`, `GossipDelivery.dfy` | same names | two nodes and a bad channel: what is accepted, what acknowledgements prove, what reaches the callback, what is sent again |
| `Consensus.dfy` | `Consensus`, `SplitBrain` | liveness and quorum in one node, and a cluster under a network split |
| `CacheTopology.dfy` | `CacheTopology` | the two-tier reverse index of who holds which hot prefix |
| `Codec.dfy`, `DigestCodec.dfy`, `WireLayout.dfy` | `ByteOrder`, `GossipCodec`, `DigestCodec`, `WireLayout` | the wire formats of route announcements, evictions and digests, and where each field lies |
| `ConnectionPool.dfy` | `ConnectionPool` | the pool of idle upstream connections |
| `ChatTemplate.dfy` | `ChatTemplate`, `Llama2`, `Mistral` | two chat templates rendered message by message |
| `AlignmentProbe.dfy`, `AlignmentProber.dfy` | `Chunked`, `Alignment`, `AlignmentProber` | the chunked-body decoder, the judgement of a probe, and the prober's state and broadcasts |
| `CircuitBreaker.dfy`, `CircuitPhases.dfy` | same names | the per-backend circuit breaker, and its state read off the history in phases |
| `Common.dfy`, `Sums.dfy` | same names | shared small definitions; sums over finite maps and set sizes, for the proofs |

`dafny verify dfyconfig.toml` checks everything.

How the models are built:

- Code that updates objects is a class whose methods run the same branches and loops and are proved
  against functions on values. What holds over every run is proved either as the class's `Valid()`,
  which every method keeps, or about a step function and its runs.
- Concurrency is a state machine whose steps are the source's atomic accesses; a trace is any
  interleaving. A step that is not enabled changes nothing.
- Clocks are parameters, or (in the pool) an arbitrary non-decreasing sequence of readings, one per
  call of the clock. Iteration over a hash container visits its keys in an arbitrary order.
- `double` thresholds are `real`. The unsigned casts of the codecs are written out.
- Configurations satisfy the checks of src/config_loader.cpp:2081-2517.

## Findings

Places where the code does not do what its comments say or what one would expect. The members named
give a concrete case and state exactly when the property holds.

- Clearing the store deletes routes and backends only, so a request-log row skipped as stale is lost
  for good, under every configuration (`LogLossHappens`). A run keeps the log of plain execution
  exactly when each batch it ran was loaded at the processed generation or had no log row before its
  first clear (`LogMatchesFifoIff`). Producers can ensure it: request a clear only while no log row
  waits, and push a log row only while every requested clear has been pushed
  (`CarefulProducersKeepLog`).
- The comment at src/async_persistence.cpp:290-293 says there is always room for a clear. No run with
  at most b clears loses one exactly when the ring has b slots beyond the queue depth (`RoomExact`);
  a depth that is a power of two leaves none, and then a single clear can be lost
  (`LostClearHappens`). Losing the only outstanding clear dooms the queue exactly when no batch that
  held a clear was loaded since it was requested and has run (`LossDooms`). A doomed queue still
  runs a batch whose generation was read before the request; after that nothing enqueued reaches the
  store until the next clear (`LostClearFreezesStore`, `FrozenIff`).
- A clear is counted after it is pushed, so admission can exceed the queue depth. The excess is at
  most the largest number of clears in the ring that were not yet counted, and every excess is
  reached, whatever the depth (`AdmissionBound`, `BoundAttained`, `AdmissionExact`).
- A cluster is safe from split brain exactly when twice its quorum exceeds its size; where it does
  not, a run ends with both sides healthy (`NoSplitBrain`, `SplitBrainHappens`). From one half on that
  is every cluster; below one half no cluster of even size is safe, two nodes included, and
  configuration accepts such thresholds (`SafeFromHalf`, `SplitBrainBelowHalf`).
- Global eviction in the pool looks for a bundle strictly older than the clock reading. If the reading
  ties with every pooled timestamp nothing is evicted and the pool exceeds its total limit
  (`Put`, `TieOvershoots`).
- Bytes appended to a digest that carries no bitmap can be taken for one and make hashes verified
  (`AppendedBytes`, `AppendCreatesVerified`).
- The Llama 2 renderer gives the reference template's text exactly for plain conversations; among
  others, a conversation of only a system message, and one whose first message after the system
  message is the assistant's, differ (`RendersReferenceIff`).
- The header of src/cache_topology_index.hpp speaks of erasing a node with no prefixes left; the code
  keeps its empty entry until eviction or age-out, and so does the model (`EmptyNodeStays`; a node has
  an entry exactly as `ApplyDigest`, `EvictNode` and `AgeOut` state).
- A verdict for a backend that has no entry is dropped while 256 others have one, so such a backend is
  not quarantined (`CapDropsVerdict`). `RunCycle` says that a due backend without an entry means a
  full table; for all others the latest recorded verdict decides (`QuarantinedIff`).
- A success recorded while a circuit is open closes it at once, so requests pass before the recovery
  timeout (`SuccessEndsDenial`, `EarlyRecovery`). `DeniedIff` says exactly when a request is denied.

## Model

| member | source | states |
|---|---|---|
| PersistenceWorker.RouteAccumulator.Flush | src/async_persistence.cpp:44-58 | writes the accumulated routes in order and empties the accumulator |
| PersistenceWorker.RouteAccumulator.Execute | src/async_persistence.cpp:442-500 | stored plus accumulated always equals executing the operations one by one, for every kind of operation |
| PersistenceWorker.Manager.ProcessBatch | src/async_persistence.cpp:399-436 | a batch leaves the store that plain execution of its non-stale part leaves, and moves the processed generation only past a clear it saw |
| PersistenceStore.TablesFollowTables | src/sqlite_persistence.cpp:445-451 | the route and backend tables never depend on the log, and a clear makes any two stores agree on them |
| PersistenceStore.RouteStoredIff | src/sqlite_persistence.cpp:301-359 | after any operations a route is stored if and only if its last save was not followed by another save of the same tokens, the removal of its backend's routes or a clear, or it was there and nothing touched it |
| PersistenceStore.BackendStoredIff | src/sqlite_persistence.cpp:152-197 | the same for backends: the last save wins unless that backend was removed or everything cleared after it |
| PersistenceStore.SkipIsAbsorbed | src/async_persistence.cpp:413-424 | skipping a stale prefix is invisible in the tables once the batch holds a clear |
| PersistenceStore.BatchKeepsLogIff | src/sqlite_persistence.cpp:445-451 | one batch keeps the log of plain execution if and only if it skips no log row |
| PersistenceQueue.RunInvariant | src/async_persistence.cpp:282-331 | over every interleaving: consumed clears <= processed generation <= announced generation, nothing is reordered or duplicated, and the size counter is exact up to calls in progress |
| PersistenceQueue.StoreMatchesFifo | src/async_persistence.cpp:399-436 | for every interleaving and batch split, once the ring is drained and every announced clear was pushed, the tables equal one-by-one execution in ring order |
| PersistenceQueue.AdmissionBound | src/async_persistence.cpp:304-331 | admitted and not yet drained operations never exceed the depth plus the peak of uncounted clears, never the depth without clears; with no call in progress the counter is the ring's length |
| PersistenceAdmission.BoundAttained | src/async_persistence.cpp:294-297 | for every configuration and every k, a run with at most k clears uncounted at once that admits k operations beyond the depth |
| PersistenceAdmission.AdmissionExact | src/async_persistence.cpp:304-331 | a limit holds over all runs with at most k clears uncounted at once if and only if it is at least the depth plus k |
| PersistenceRoom.ClearsKept | src/async_persistence.cpp:290-297 | with a slot beyond the depth for every clear requested, no run loses one |
| PersistenceRoom.LostClearHappens | src/async_persistence.cpp:290-297 | for every configuration, a run with one clear more than there are spare slots that loses one; without spare slots it ends stuck |
| PersistenceRoom.RoomExact | src/async_persistence.cpp:290-297 | no run with at most b clears loses one if and only if the ring has b slots beyond the depth |
| PersistenceRoom.CaughtUpIff | src/async_persistence.cpp:404-424 | the processed generation is the announced one if and only if none was announced or a batch holding a clear was loaded after the last announcement and has run |
| PersistenceRoom.LossDooms | src/async_persistence.cpp:282-298 | losing the only outstanding clear leaves a doomed queue if and only if no such batch has run, and a stuck one if and only if also no batch loaded before is still to run |
| PersistenceRoom.LostClearFreezesStore | src/async_persistence.cpp:413-424 | from a doomed state, no run without a new clear changes the store, except that a batch loaded before the clear was requested runs once |
| PersistenceRoom.FrozenIff | src/async_persistence.cpp:399-436 | a drained queue is frozen until the next clear if and only if a clear was announced that no batch accounts for; without a loss it never is |
| PersistenceLog.LogMatchesFifoIff | src/async_persistence.cpp:413-424 | the request log equals plain execution's if and only if every batch run was loaded at the processed generation or had no log row before its first clear |
| PersistenceLog.CarefulProducersKeepLog | src/async_persistence.cpp:276-297 | requesting clears only while no log row waits, and pushing log rows only while no requested clear is missing from the ring, loses no row |
| PersistenceLog.LogLossHappens | src/async_persistence.cpp:413-424 | for every configuration, a run that drops a queued log row |
| PeerMerge.Admit | src/gossip_peer_merge.hpp:36-45 | one admission keeps the merged list the first distinct addresses under the cap, and the drop count exact |
| PeerMerge.MergeAndCap | src/gossip_peer_merge.hpp:28-54 | the first `cap` distinct addresses, configured ones first, and how many distinct ones were refused |
| PeerMerge.StaticPeersSurvive | src/gossip_peer_merge.hpp:28-54 | no list of discovered addresses displaces a configured peer that fits the cap |
| GossipNode.GossipProtocol.NextSeqNum | src/gossip_protocol.cpp:1413-1446 | the per-peer counter with 32-bit wrap-around and the eviction of departed peers at the cap |
| GossipNode.GossipProtocol.SendTo | src/gossip_protocol.cpp:573-600 | a send takes the next number and tracks the packet below the pending limit |
| GossipNode.GossipProtocol.OnAck | src/gossip_protocol.cpp:1254-1276 | an acknowledgement removes exactly the packet it names and counts it off if it was pending; every other packet stays, and the peer's entry goes exactly when that was its only packet |
| GossipNode.GossipProtocol.IsDuplicate | src/gossip_protocol.cpp:1278-1316 | the set and the deque slide together and keep the last distinct numbers |
| GossipNode.Slide | src/gossip_protocol.cpp:1290-1299 | after a new number the window is the last `dedupWindow` of the old one with it, distinct, and the set is exactly its elements |
| GossipNode.GossipProtocol.OnPacket | src/gossip_protocol.cpp:1031-1088 | unknown senders are ignored; a packet reaches its callback if and only if its number is not in the sender's window and it is not a route under quorum loss; all others from peers are only acknowledged |
| GossipNode.RetryEntries | src/gossip_protocol.cpp:1340-1391 | before its time a packet is untouched; at its time it is resent and rescheduled by the timeout times two to the retry count, three at most, or, with no retries left, removed and counted |
| GossipNode.BackoffDoubles | src/gossip_protocol.cpp:1448-1452 | the backoff is the timeout times two to the power of the retry count, three at most |
| GossipNode.GossipProtocol.RetryPeer | src/gossip_protocol.cpp:1340-1391 | the same for one peer on the node's state, with the set of numbers resent |
| GossipNode.GossipProtocol.SweepEmpty | src/gossip_protocol.cpp:1397-1404 | removes exactly the peers with nothing pending |
| GossipNode.GossipProtocol.CleanupPeerState | src/gossip_protocol.cpp:1454-1464 | removes all of one peer's state and counts its pending packets off |
| GossipNode.GossipProtocol.RefreshPeers | src/gossip_protocol.cpp:1155-1198 | swaps in the merged peer list after cleaning up exactly the departed peers |
| GossipNode.GossipProtocol.ClearPendingAcks | src/gossip_protocol.cpp:1466-1469 | forgets all pending packets |
| GossipRuns.RunInvariant | src/gossip_protocol.cpp:1254-1469 | every event, in any order, keeps the shape, counting, window and retry invariants together |
| GossipRuns.PendingCountExact | src/gossip_protocol.cpp:1254-1276 | in every reachable state the pending counter is the number of pending packets and within the limit |
| GossipRuns.OverflowUnreachable | src/gossip_protocol.cpp:1413-1446 | the capacity branches of numbering and deduplication are never taken: numbers count up from one and every accepted number enters the window |
| GossipRuns.DuplicateIffRecent | src/gossip_protocol.cpp:1278-1316 | a number is a duplicate if and only if it is among the last `dedupWindow` accepted from that peer since its state was cleaned |
| GossipRuns.RetriesBounded | src/gossip_protocol.cpp:1340-1391 | no tracked packet is transmitted more than once plus the retry limit, over any run |
| GossipRuns.DeadlineClosedForm | src/gossip_protocol.cpp:1448-1452 | the sum of the capped backoffs in closed form |
| GossipRuns.PendingLeavesInTime | src/gossip_protocol.cpp:1340-1391 | with retry passes at least every d, nothing stays pending longer than the backoff schedule plus one pass per retry |
| GossipExact.ReactionIff | src/gossip_protocol.cpp:979-1088 | in every reachable state a packet is ignored if and only if it comes from a stranger, and reaches the callback if and only if its number is not among the last `dedupWindow` accepted from that peer and it is not a route under quorum loss |
| GossipExact.AckExact | src/gossip_protocol.cpp:1254-1276 | in every reachable state an acknowledgement from a peer removes the packet it names and no other, lowers the count by one exactly if it was pending, and drops the peer's entry exactly with its last packet; one from a stranger changes nothing |
| GossipExact.RetryPassExact | src/gossip_protocol.cpp:1340-1391 | in every reachable state a pass leaves a packet alone before its time, sends it once more and doubles its delay while retries are left, and removes it exactly at its time with none left, having sent it once plus the retry limit; other peers are untouched |
| GossipExact.RetryNotEarly | src/gossip_protocol.cpp:1361-1366 | over every run, no retry comes before the timeout and all the doubled delays up to it have passed since the send |
| GossipExact.SendExact | src/gossip_protocol.cpp:573-600 | in every reachable state a send takes the next number from one on, and below 1000 pending leaves the packet pending, sent once, with its first retry one timeout away |
| GossipExact.SweepExact | src/gossip_protocol.cpp:1397-1404 | a sweep keeps exactly the peers with something pending |
| GossipExact.RefreshExact | src/gossip_protocol.cpp:1155-1198 | after a discovery that found something the peers are distinct, at most 256, all of the configured and discovered ones unless the cap is met, configured ones first; departed peers lose all state, others none |
| GossipLink.LinkInvariant | src/gossip_protocol.cpp:1031-1088 | over a channel that loses, duplicates and reorders: a number names one packet, and the receiver's history is what it accepted |
| GossipLink.DeliveredTwiceFarApart | src/gossip_protocol.cpp:1031-1088 | the same packet passes the duplicate test twice only with at least `dedupWindow` other, pairwise different packets passing it in between |
| GossipLink.SuppressedOnlyIfAccepted | src/gossip_protocol.cpp:979-1010 | a suppressed packet was itself accepted before, whether route or eviction, and everything accepted was sent |
| GossipAcks.AckMeansAccepted | src/gossip_protocol.cpp:1254-1276 | an acknowledged number still pending names a packet the receiver accepted, that very packet |
| GossipAcks.LeavesOnlyIfAccepted | src/gossip_protocol.cpp:1254-1276 | without forged acknowledgements a packet leaves the pending map only by an acknowledgement of a packet the receiver accepted, by a pass at or after its time when it was sent once plus the retry limit, or by clearing all |
| GossipDelivery.DeliveredInvariant | src/gossip_protocol.cpp:979-1088 | what the callback was given, recorded without asking the duplicate test, is exactly what passed that test and was not turned away, in order |
| GossipDelivery.CallbackTwiceFarApart | src/gossip_protocol.cpp:1031-1038 | over every run the callback is given the same packet twice only with `dedupWindow` other, pairwise different packets accepted in between |
| GossipDelivery.ReachesCallbackIff | src/gossip_protocol.cpp:979-1088 | an arriving packet reaches the callback if and only if its number is not among the last `dedupWindow` accepted and it is not a route under quorum loss; it is acknowledged either way |
| GossipDelivery.TransmitsIff | src/gossip_protocol.cpp:1340-1384 | what a step of the sender puts on the channel: the next number on a send, and on a pass exactly the packets that are due with retries left |
| GossipDelivery.NeverResent | src/gossip_protocol.cpp:1254-1276 | after its acknowledgement has arrived a packet is pending no more and never transmitted again, on any run |
| Consensus.GossipConsensus.constructor | src/gossip_consensus.cpp:36-76 | the initial table is the peers up to the first point where the cap is reached, all alive, and the initial quorum follows from it |
| Consensus.GossipConsensus.UpdatePeerSeen | src/gossip_consensus.cpp:113-122 | a known peer becomes alive and just seen; nobody is added |
| Consensus.GossipConsensus.AssociateBackend | src/gossip_consensus.cpp:124-129 | records a known peer's backend and changes nothing else |
| Consensus.AgeTable | src/gossip_consensus.cpp:227-256 | one pass marks exactly the timed-out peers dead, counts the living, and lists once each newly dead peer with a backend |
| Consensus.GossipConsensus.CheckLiveness | src/gossip_consensus.cpp:227-256 | a peer stays alive if and only if it was and was heard within the timeout; each newly dead peer with a backend is pruned once; then the quorum is checked |
| Consensus.CountRecent | src/gossip_consensus.cpp:264-275 | counts the peers heard less than the window and one second ago: ages are cut to whole seconds |
| Consensus.QuorumMeaning | src/gossip_consensus.cpp:217-225 | so many nodes are a quorum if and only if they are more than the threshold's share of the cluster, or all of it |
| Consensus.HealthyIff | src/gossip_consensus.cpp:264-285 | a node is healthy if and only if itself and the peers heard less than the window and one second ago are more than the threshold's share, or it heard them all |
| Consensus.GossipConsensus.CheckQuorum | src/gossip_consensus.cpp:258-328 | counts those peers, moves to the state the count demands, counts transitions exactly, keeps the fail-open posture in step with it, and raises the warning exactly within the margin |
| Consensus.GossipConsensus.MaybeBroadcastFailOpen | src/gossip_consensus.cpp:357-385 | broadcasts alternate and the last one is the current posture |
| SplitBrain.QuorumsIntersect | src/gossip_consensus.cpp:217-225 | with a threshold of at least one half, twice the quorum exceeds the cluster, cap included |
| SplitBrain.QuorumsDisjoint | src/gossip_consensus.cpp:217-225 | below one half, twice the quorum never exceeds a cluster of even size |
| SplitBrain.RunInvariant | src/gossip_consensus.cpp:258-303 | on every run a node that checked long after the split is healthy only with a quorum on its own side |
| SplitBrain.HeardRecorded | src/gossip_consensus.cpp:113-122 | on every run the last time a peer was heard is never before any packet from it that the network let through |
| SplitBrain.ConnectedIsHealthy | src/gossip_consensus.cpp:264-285 | on every run a node that heard the rest of a quorum less than the window and one second before its check is healthy after it |
| SplitBrain.NoSplitBrain | src/gossip_consensus.cpp:258-303 | in a cluster whose quorums intersect, on every run, once the split has lasted the window plus one second, nodes of different sides are never both healthy |
| SplitBrain.SafeFromHalf | src/gossip_consensus.cpp:217-225 | hence with a threshold of at least one half, for every cluster |
| SplitBrain.SplitBrainHappens | src/gossip_consensus.cpp:217-225 | in every cluster size whose quorums do not intersect, a run that ends with both sides healthy |
| SplitBrain.SplitBrainBelowHalf | src/gossip_consensus.cpp:217-225 | for every threshold below one half and every even cluster size, such a run |
| CacheTopology.IsIndexOfMeaning | src/cache_topology_index.hpp:184-214 | an index that stores exactly the holders and no empty set is the index rebuilt from scratch |
| CacheTopology.AddHolder | src/cache_topology_index.hpp:184-195 | a holder is added unless that takes a new prefix in a full index |
| CacheTopology.RemoveAll | src/cache_topology_index.hpp:66-71 | withdrawing hashes leaves the index of what remains, in any order |
| CacheTopology.AddCapped | src/cache_topology_index.hpp:75-81 | in any order, exactly the excess of new prefixes over the free slots is refused, all of them new |
| CacheTopology.CacheTopologyIndex.ApplyDigest | src/cache_topology_index.hpp:50-108 | the node's contribution is replaced as a whole by reported hashes; a reported hash is refused only if the index is full and nobody holds it; both tiers stay the exact indexes of the contributions, caps hold, verified is the accepted part of what was reported verified, overflow counters are exact |
| CacheTopology.CacheTopologyIndex.EvictNode | src/cache_topology_index.hpp:120-130 | removes exactly one node's contribution from both tiers |
| CacheTopology.CacheTopologyIndex.AgeOut | src/cache_topology_index.hpp:134-141 | removes exactly the nodes last seen before the cutoff and counts them |
| CacheTopology.EmptyNodeStays | src/cache_topology_index.hpp:50-108 | a node whose digest names no prefix keeps its entry |
| CacheTopology.CacheTopologyIndex.HolderCount | src/cache_topology_index.hpp:151-154 | the number of tracked nodes that contribute the hash; one if and only if there is a sole holder |
| CacheTopology.CacheTopologyIndex.VerifiedHolderCount | src/cache_topology_index.hpp:164-167 | the same for the verified tier, never more than the holders |
| ByteOrder.WriteU32 | src/byte_order.hpp:27-33 | appends the big-endian bytes of the value |
| ByteOrder.WriteU64 | src/byte_order.hpp:35-45 | the same at eight bytes |
| ByteOrder.ReadU32 | src/byte_order.hpp:52-57 | the value of four big-endian bytes |
| ByteOrder.ReadU64 | src/byte_order.hpp:59-68 | the value of eight |
| ByteOrder.ValueOfBytes | src/byte_order.hpp:21-68 | reading undoes writing, for every width |
| ByteOrder.BytesOfValue | src/byte_order.hpp:21-68 | writing undoes reading, for every byte string |
| GossipCodec.RouteRoundTrip | src/gossip_protocol.cpp:35-84 | a route announcement decodes to itself, cut to 256 tokens |
| GossipCodec.RouteOnto | src/gossip_protocol.cpp:54-84 | every accepted byte string is the encoding of what it decodes to, so the two sets are in bijection |
| GossipCodec.SerializeRoute | src/gossip_protocol.cpp:35-52 | the serializer's loop writes the encoding |
| GossipCodec.DeserializeRoute | src/gossip_protocol.cpp:54-84 | the deserializer accepts and reads exactly what the decoding says |
| GossipCodec.StampedRoute | src/gossip_protocol.cpp:573-582 | stamping bytes 2 to 5 of a zero-number buffer equals serializing with that number |
| GossipCodec.EvictionRoundTrip | src/gossip_protocol.cpp:149-181 | an eviction decodes to itself |
| GossipCodec.EvictionOnto | src/gossip_protocol.cpp:163-181 | and every accepted string is such an encoding |
| GossipCodec.SerializeEviction | src/gossip_protocol.cpp:149-161 | the serializer writes the encoding |
| GossipCodec.DeserializeEviction | src/gossip_protocol.cpp:163-181 | the deserializer reads the decoding |
| GossipCodec.StampedEviction | src/gossip_protocol.cpp:667-676 | stamping equals serializing |
| DigestCodec.WriteBitmap | src/gossip_protocol.cpp:262-272 | bit i, least significant first, says whether the i-th hash is verified, and no other bit is set |
| DigestCodec.Serialize | src/gossip_protocol.cpp:238-274 | header, at most 128 hashes, and a bitmap only if something is verified |
| DigestCodec.Deserialize | src/gossip_protocol.cpp:276-326 | accepts and reads exactly what the decoding says; version never rejects, a partial bitmap is ignored |
| DigestCodec.DigestRoundTrip | src/gossip_protocol.cpp:238-326 | a digest decodes to its first 128 hashes and exactly the verified ones among them in membership order |
| DigestCodec.AppendedBytes | src/gossip_protocol.cpp:276-326 | appended bytes never change version, backend or hashes, and change nothing if and only if they are harmless to the bitmap |
| DigestCodec.AppendCreatesVerified | src/gossip_protocol.cpp:310-325 | one appended byte that makes a hash verified |
| WireLayout.RouteLayout | src/gossip_protocol.cpp:54-84 | exactly which byte strings are accepted as route announcements, and the byte positions of number, backend, count and every token |
| WireLayout.EvictionLayout | src/gossip_protocol.cpp:163-181 | the same for evictions |
| WireLayout.DigestLayout | src/gossip_protocol.cpp:276-326 | the same for digests, and which bit of which byte verifies the i-th hash |
| ConnectionPool.Pool.constructor | src/connection_pool.hpp:159-167 | starts empty |
| ConnectionPool.FindOldest | src/connection_pool.hpp:547-556 | the scan over deque fronts finds a bundle least recently used among all pooled ones, and nothing if and only if none is older than the reading |
| ConnectionPool.Pool.EvictOldestGlobal | src/connection_pool.hpp:545-569 | closes such a bundle and nothing else |
| ConnectionPool.NotStuck | src/connection_pool.hpp:545-556 | a reading later than every pooled timestamp always finds something |
| ConnectionPool.RoomMeaning | src/connection_pool.hpp:314-322 | only the address's own deque changes: at the per-host limit it loses its least recently used bundle, below it nothing |
| ConnectionPool.RelievedMeaning | src/connection_pool.hpp:324-328 | at the global limit one bundle goes, used before the reading and no later than any pooled one, if there is such; below it none |
| ConnectionPool.Pool.Put | src/connection_pool.hpp:276-337 | the bundle is pooled or closed once; a new address beyond the backend limit is turned away; order, per-host limit, counter and conservation hold; the total passes its limit if and only if the eviction ties |
| ConnectionPool.Pool.Get | src/connection_pool.hpp:197-238 | returns the newest bundle that is neither idle nor open for too long nor closed by its backend, all newer ones being one of these and closed; nothing if and only if all were, and then a new connection is counted |
| ConnectionPool.Pool.ClearPool | src/connection_pool.hpp:372-393 | closes exactly one address's bundles |
| ConnectionPool.Pool.SweepDeque | src/connection_pool.hpp:403-438 | the in-place pass over one deque keeps the rest in order and splits it into live and dead |
| ConnectionPool.Pool.CleanupExpired | src/connection_pool.hpp:397-454 | what is closed was idle or open for too long or closed by its backend by the end, what is kept was none of these at the start and keeps its order, no empty deque remains, nothing is lost |
| ConnectionPool.TieOvershoots | src/connection_pool.hpp:545-556 | a pool limited to one connection that holds more |
| ChatTemplate.TrimView | src/chat_template.hpp:442-447 | both searches together give the trimmed text |
| ChatTemplate.TrimMeaning | src/chat_template.hpp:442-453 | trimming removes whitespace from both ends and leaves none there |
| ChatTemplate.WsMeaning | src/chat_template.hpp:442-453 | white space is the space and the five control characters from the tab on |
| Llama2.FormatMessage | src/chat_template.hpp:475-500 | one message appended, trimming in place after a system block |
| Llama2.OutputTellsState | src/chat_template.hpp:478-493 | the output is empty only before the first message and ends in the system close only right after a leading system message, whatever the contents |
| Llama2.FoldedTrim | src/chat_template.hpp:487-493 | trimming the output's end is trimming the folded content as a whole |
| Llama2.RendersReferenceIff | src/chat_template.hpp:455-500 | message-by-message rendering equals the reference template if and only if the conversation is plain, over all message lists |
| Llama2.Render | src/chat_template.hpp:475-500 | the loop over a conversation, with the same equivalence |
| Llama2.Layout | src/chat_template.hpp:455-500 | the literal text of a conversation with every kind of turn, for all contents without white space at their ends |
| Mistral.FormatMessage | src/chat_template.hpp:400-439 | one message appended |
| Mistral.OutputTellsState | src/chat_template.hpp:415-418 | the instruction block reads as open exactly after a system message, whatever the contents |
| Mistral.RendersReference | src/chat_template.hpp:400-439 | rendering equals the look-ahead reference for every message list |
| Mistral.Render | src/chat_template.hpp:400-439 | the loop over a conversation gives the reference |
| Mistral.Layout | src/chat_template.hpp:400-439 | the literal text of a conversation with every kind of turn, for all contents |
| Chunked.Decode | src/alignment_probe.hpp:148-176 | the loop over the shrinking view computes the decoding and never returns more than 65536 bytes |
| Chunked.DecodesEveryBody | src/alignment_probe.hpp:148-176 | every well-formed body of section 7.1 of RFC 9112, with any extensions and trailer, decodes to the concatenation of its chunks, or is refused exactly when that is longer than 65536 |
| Chunked.AcceptsOnlyBodies | src/alignment_probe.hpp:148-176 | every accepted input is a readable body, with size lines described by their characters, and the output is its content |
| Chunked.DecodesIff | src/alignment_probe.hpp:141-176 | an input decodes to a text if and only if it is a sequence of chunks as long as their size lines say (blanks, hexadecimal digits, blanks, then nothing or a semicolon and text), ended by a zero line, with that content and within the limit |
| Chunked.ParsesLine | src/alignment_probe.hpp:153-165 | such a line parses to its value when that fits the machine word, and to nothing otherwise |
| Chunked.ParsedLine | src/alignment_probe.hpp:153-165 | and only such a line parses |
| Chunked.DigitMeaning | src/alignment_probe.hpp:141-165 | the digits are the sixteen of either case, each worth its place; blanks are the space and the tab |
| Chunked.HexPlaces | src/alignment_probe.hpp:159-161 | the first of n digits counts sixteen to the n - 1, for every string of digits |
| Chunked.OutputBounded | src/alignment_probe.hpp:167-170 | the bound for every input |
| Alignment.Classify | src/alignment_probe.hpp:288-305 | aligned if and only if both sides have and agree on the routing prefix; the divergence is the length of the common prefix, with the ids there; failed if and only if there is nothing to judge |
| Alignment.AlignedIffRoutingAgrees | src/alignment_probe.hpp:268-276 | agreeing on the computed prefix is agreeing on every aligned prefix within the bound |
| Alignment.AlignDownMonotone | src/parse_utils.hpp:259-262 | a longer prefix never hashes fewer tokens |
| Alignment.ChoicesWithinBound | src/alignment_probe.hpp:268-276 | both routing choices lie within the bound |
| Alignment.AlignDownMeaning | src/alignment_probe.hpp:273-275 | the largest multiple of the block size not above the length, or the length itself if that is zero |
| Alignment.PrefixIsLongerChoice | src/alignment_probe.hpp:268-276 | the computed prefix is the longer of routing's two choices, each cut to the tokens and the indexed depth and aligned down |
| Alignment.RoutingAgreesIff | src/alignment_probe.hpp:268-276 | both sides agree on the computed prefix if and only if they agree on what routing hashes under either choice |
| Alignment.PrefixExamples | tests/unit/alignment_probe_test.cpp:158-173 | the lengths the tests expect |
| AlignmentProber.BackoffSchedule | src/alignment_prober.cpp:295-298 | 1, 2, 4, 8, 8, ... |
| AlignmentProber.FoldVerdict | src/alignment_prober.cpp:316-320 | the held verdict is the latest one recorded that was not a failure |
| AlignmentProber.FoldFailures | src/alignment_prober.cpp:293-308 | failures count from the last verdict and only move the next attempt |
| AlignmentProber.SuppressedIsSame | src/alignment_prober.cpp:311-314 | a suppressed broadcast would have said what the shards already hold |
| AlignmentProber.Prober.Record | src/alignment_prober.cpp:278-363 | stores the outcome unless 256 others are tracked; reports a change if and only if the verdict or its divergence is new, and then only that backend's shards are behind |
| AlignmentProber.Prober.Prune | src/alignment_prober.cpp:101-126 | keeps exactly the listed backends, unchanged, and clears the others on the shards |
| AlignmentProber.Prober.SelectDue | src/alignment_prober.cpp:128-144 | the list of due backends in order |
| AlignmentProber.DueListMeaning | src/alignment_prober.cpp:128-144 | a backend is listed as often as it was given if it is due, and otherwise not at all |
| AlignmentProber.DueIff | src/alignment_prober.cpp:128-144 | due if and only if the stream is live and nothing is recorded yet, or the last outcome is a failure past its backoff or a verdict for another stream |
| AlignmentProber.Prober.RunCycle | src/alignment_prober.cpp:98-154 | after every cycle, whatever order probes finish in, the shards hold what publish would send for every backend; every due backend gained exactly its probes of the cycle unless it has no entry and the table is full; and what the shards show for it is its answer |
| AlignmentProber.CycleOutcome | src/alignment_prober.cpp:98-154 | after a cycle a due backend with an entry is quarantined if and only if it was found misaligned and the mode is on; failures and backends not due show their earlier history; a due backend without an entry means a full table |
| AlignmentProber.CapDropsVerdict | src/alignment_prober.cpp:280-287 | a misaligned backend beyond the tracked ones is not held |
| AlignmentProber.QuarantinedIff | src/alignment_prober.cpp:365-388 | quarantined if and only if the mode is on and the latest verdict recorded since the last prune is a misalignment |
| AlignmentProber.HeldIs | src/alignment_prober.cpp:365-388 | the shards hold the latest verdict recorded since the last prune, with a misalignment its divergence cut to 32 bits and the mode; before the first verdict nothing |
| AlignmentProber.BackoffHolds | src/alignment_prober.cpp:139-141 | after failures a backend is due exactly from the last failure's cycle plus its backoff on |
| CircuitBreaker.ClosedCounts | src/circuit_breaker.hpp:114-150 | a closed circuit's count is the failures since the last success and below the threshold |
| CircuitBreaker.CountedWhileHalfOpen | src/circuit_breaker.hpp:94-101 | outside the half-open state the success count is zero, over every history |
| CircuitBreaker.OpenIff | src/circuit_breaker.hpp:154-196 | open if and only if some event opened it and only failures and too-early requests followed; later failures do not move the opening time |
| CircuitBreaker.DeniedIff | src/circuit_breaker.hpp:70-110 | a request is denied if and only if the circuit has been open since an event less than the recovery timeout ago |
| CircuitBreaker.HalfOpenIff | src/circuit_breaker.hpp:94-101 | half-open if and only if a request was let through and since then no failure and too few successes came; the count is exact |
| CircuitBreaker.ClosesAfterThreshold | src/circuit_breaker.hpp:134-142 | a half-open circuit closes on the threshold-th success with no failure in between |
| CircuitBreaker.SuccessEndsDenial | src/circuit_breaker.hpp:144-148 | a success while open closes the circuit and lets requests pass at any time |
| CircuitBreaker.EarlyRecovery | src/circuit_breaker.hpp:144-148 | for every configuration, a history in which that happens |
| CircuitPhases.PhasesDetermine | src/circuit_breaker.hpp:70-196 | a reading of the history as phases, given by counts and times of events alone, fixes state, failure count, opening time and success count |
| CircuitPhases.StateIffPhases | src/circuit_breaker.hpp:70-196 | the breaker is in a state if and only if the history has a reading that ends in it |
| CircuitBreaker.Breaker.AllowRequest | src/circuit_breaker.hpp:70-110 | the decision is a function of the backend's history; disabled or full it allows |
| CircuitBreaker.Breaker.RecordSuccess | src/circuit_breaker.hpp:114-150 | extends a tracked backend's history, no other's |
| CircuitBreaker.Breaker.RecordFailure | src/circuit_breaker.hpp:154-196 | extends the history, creating the circuit below the cap |
| CircuitBreaker.Breaker.RemoveCircuit | src/circuit_breaker.hpp:226-239 | the history starts over, others untouched |

## Left out

- Seastar futures, gates, timers, cross-shard calls and logging: steps are atomic; what is sent is a ghost list or map.
- Transport, DTLS, certificate reload and name resolution: discovery is an arbitrary address list, the channel an arbitrary adversary.
- The MPSC ring's internals and SQLite: the ring is a bounded sequence and the store three tables whose calls succeed; closing, shutdown and the periodic pruning of the request log are not modelled.
- The request log's columns beyond the five kept, and operation statistics of every component.
- More than 2^32 sends to one peer in a run: `GossipRuns` assumes fewer, as the wrapped numbers would repeat.
- `_queue_size` below zero: modelled as a signed number whose negative values read as huge.
- The remaining gossip packets (acknowledgement, node state, cache state, extension): their codecs would only add easy members.
- Peer-table updates from discovery (update_peer_list, add_peer, remove_peer) and resynchronisation: the split-brain result is for a fixed membership.
- The other chat templates, standalone message formatting and generation prompts: no state is recovered from the output there.
- HTTP response framing, JSON parsing and status handling of the probe: calls into other libraries.
- Growth of the connection pool's map through lookups: get adds entries without the backend limit, so no bound on the number of entries is claimed.
- AlignmentProber.Prober.RunCycle: assumes that publishing succeeds; a failed publish leaves the shards with the previous state until the verdict changes again.
- ConnectionPool.Pool.Get: a connection opened on a miss is counted, its sockets and keep-alive options are not modelled.
- CircuitBreaker.ClosedCounts: counts are unbounded, the 32-bit wrap-around of the failure count while open is not modelled.
- Chunked.DecodesEveryBody: extensions are any text without a carriage return after optional blanks and a semicolon, a superset of the grammar of section 7.1.1 of RFC 9112; `DecodesIff` has the exact language.
- PersistenceStore.BatchKeepsLogIff: the request log is a sequence of rows; the retention limit on its table is not modelled.
