# A verified model of libevrpc

libevrpc is an RPC library with a cluster of "centers" that elect a leader and keep a
consistent-hash ring of servers.  This project models the parts of it that carry an
argument, in the form the source gives them, and proves what they guarantee over every
input and every run.

| file | models |
|---|---|
| `Words.dfy`, `MurMurHash.dfy`, `HashValues.dfy` | 32-bit arithmetic, the hash `MurMurHash2`, and hashes of given keys as numbers |
| `HashRing.dfy` | the ring of virtual nodes and its clockwise lookup |
| `Replication.dfy` | snapshots of the ring from the leader to its followers |
| `Center.dfy`, `CenterRuns.dfy` | one center: its object, and whole runs of messages |
| `Cluster.dfy`, `ClusterLimits.dfy` | one election round among all centers, as interleaved steps, and what a round can and cannot reach |
| `WorkerPool.dfy`, `LinkedPool.dfy` | the worker pool as interleaved steps, and the linked lists that implement it |
| `Dictionary.dfy` | the string dictionary on parallel arrays |
| `CText.dfy`, `IniText.dfy`, `IniRoundTrip.dfy`, `IniFormat.dfy`, `IniParser.dfy` | the ini printer and parser, what comes back of a dump, and what any text in the format means |
| `Frames.dfy` | messages cut into 511-byte frames |
| `TimerWheel.dfy` | connection timers, their buffers and the wheel of sixty buckets |

`dafny verify dfyconfig.toml` checks everything.  Where the source changes state, a class
keeps that state and every method is tied to a function on values; the properties of whole
runs are lemmas about those functions.

## Findings

Where the code and its documentation disagree, the model follows the code.

- Peer rows are zeroed after their status was set (src/rpc_center/rpc_center.cpp:146-147), so
  the inquiry sweep asks nobody, every center proposes itself and no round of any cluster
  decides (`NobodyDecides`).  A round can decide exactly when the rows hold the status that
  the source means to store and there are at least three centers (`SomebodyCanDecideIff`);
  all decisions then agree (`Agreement`).
- A center's own address has no row in its table, so a majority of votes for it is lost and
  it does not become leader, contrary to README.md:56-58 (`MajorityDoesNotLead`).  It can
  lead exactly when it is itself among the senders of the proposals it receives
  (`CanLeadIffItSends`), which no center is: in no run of any cluster does a center lead,
  whatever status its rows start with (`NobodyLeads`).
- With the status that the source means to store, an answer from a center with a higher clock
  is taken unseen, so the sweep depends on the order of the unordered table
  (`SweepOrderMatters`; `SweepOrderIrrelevantIff` gives the exact condition).  A sweep that
  goes on beside the election can also make a center drop the leader it decided for, exactly
  from five centers on (`DecisionsCanBeOverwrittenIff`), and it would unseat a
  center that leads (`AnswerUnseats`).  As the rows are initialised, the sweep does nothing (`SweepIsIdle`).
- A message whose length is a multiple of 511 has no last frame, and bytes after a NUL in a
  block are lost (`MessageRoundTripsIff`, `LossesHappen`).
- The eviction test of the timer wheel is inverted: a timer is evicted when its bucket comes
  up exactly if it has not expired (`EvictionIsInverted`), and one that has expired stays in
  the wheel turn after turn (`ExpiredStays`).
- `RestartThread` sets asynchronous cancellation for the thread that calls it
  (src/rpc_server/libev_thread_pool.cpp:210), not for the worker it cancels.  Workers keep
  deferred cancellation, under which the pool loses no item (`DeferredLosesNothing`).
  Asynchronous cancellation of workers would lose items in two gaps around the cleanup scope
  (`AsynchronousLoses`), and only there (`LeaksAreGapHits`).
- A key whose section is missing from a dictionary is dropped by the dump (`RoundTripIff`).
  Without any section every key comes back with a colon in front, so only the empty
  dictionary survives (`PlainRoundTripIff`), and a section that is not stored in lower case
  is not printed (`MixedCaseSectionIsLost`).

## Model

| member | source | states |
|---|---|---|
| `Words.TimesInjective` | src/util/rpc_util.cpp:68-71 | multiplication by the hash constant modulo 2^32 is one-to-one |
| `Words.FoldInjective` | src/util/rpc_util.cpp:69-87 | `x ^ (x >> s)` is one-to-one on 32-bit words for every positive shift |
| `MurMurHash.MurMurHash2` | src/util/rpc_util.cpp:58-89 | the word loop, the fall-through tail and the final mix compute the recursive hash, for every key with an `int32_t` length |
| `MurMurHash.MixWordInjective` | src/util/rpc_util.cpp:67-70 | the word mix is one-to-one |
| `MurMurHash.AbsorbInjective` | src/util/rpc_util.cpp:66-75 | one loop turn is one-to-one in the state and in the word |
| `MurMurHash.TailInjective` | src/util/rpc_util.cpp:77-82 | the tail switch is one-to-one in the state and in the tail bytes |
| `MurMurHash.FinishInjective` | src/util/rpc_util.cpp:85-88 | the final mix is one-to-one |
| `MurMurHash.RunInjectiveInState` | src/util/rpc_util.cpp:66-82 | distinct states stay distinct through any common suffix |
| `MurMurHash.HashSeparates` | src/util/rpc_util.cpp:58-89 | keys of one length that differ only inside one aligned word, or only inside the tail, have different hashes |
| `HashValues.XorIsMachineXor` | src/util/rpc_util.cpp:69-86 | on every word the exclusive-or of the model is the machine's, byte by byte |
| `HashValues.ShrIsQuotient` | src/util/rpc_util.cpp:69-86 | a right shift is the quotient by the power of two |
| `HashValues.HashOfEmpty` | src/util/rpc_util.cpp:58-89 | the hash of the empty key is 0xca881466 |
| `HashValues.HashOfA` | src/util/rpc_util.cpp:77-82 | the hash of "a", a tail of one byte, is 0xe94e6ebd |
| `HashValues.HashOfAb` | src/util/rpc_util.cpp:77-82 | the hash of "ab", a tail of two bytes, is 0x688bcb9a |
| `HashValues.HashOfAbc` | src/util/rpc_util.cpp:77-82 | the hash of "abc", a tail of three bytes, is 0x6d5e3568 |
| `HashValues.HashOfEightBytes` | src/util/rpc_util.cpp:66-75 | the hash of "abcdefgh", two words, is 0x29fbf812 |
| `HashValues.HashOfSwappedWords` | src/util/rpc_util.cpp:66-75 | the hash of "efghabcd", the same words in the other order, is 0x77ffb18c |
| `HashRing.NodesCollide` | src/rpc_center/load_balancer/consistent_hash_load_balancer.cpp:60-63 | two virtual nodes of one server share an id exactly when their indices agree modulo 256, for every server name |
| `HashRing.NodeIdCount` | src/rpc_center/load_balancer/consistent_hash_load_balancer.cpp:60-64 | a server gets as many distinct ids as nodes, up to 256 |
| `HashRing.ServersSeparate` | src/rpc_center/load_balancer/consistent_hash_load_balancer.cpp:60-63 | nodes of one index have different ids for any two servers with names of one length that differ only inside one block of the node name |
| `HashValues.NodeIdValue` | src/rpc_center/load_balancer/consistent_hash_load_balancer.cpp:60-63 | the first node of 10.0.0.1 has the id 0x6b81a174 |
| `HashRing.InsertNodes` | src/rpc_center/load_balancer/consistent_hash_load_balancer.cpp:60-64 | the insertion loop adds the server under exactly the free ids among its nodes, and by how many the ring grows |
| `HashRing.ConsistentHashLoadBalancer.AddRpcServer` | src/rpc_center/load_balancer/consistent_hash_load_balancer.cpp:57-66 | the new ring keeps every old node, holds the server under every other id of its nodes, and grows by the node count less the ids already present |
| `HashRing.ConsistentHashLoadBalancer.LowerBound` | src/rpc_center/load_balancer/consistent_hash_load_balancer.cpp:76-77 | the least id at or above the hash, or that there is none |
| `HashRing.ConsistentHashLoadBalancer.GetRpcServer` | src/rpc_center/load_balancer/consistent_hash_load_balancer.cpp:68-86 | fails only on an empty ring; otherwise appends the server of the node first met clockwise from the client's hash |
| `HashRing.OwnerUnique` | src/rpc_center/load_balancer/consistent_hash_load_balancer.cpp:76-84 | the clockwise neighbour is unique |
| `HashRing.OwnerIff` | src/rpc_center/load_balancer/consistent_hash_load_balancer.cpp:76-84 | the clockwise neighbour is the least id at or above the hash, or the least id of all when there is none |
| `HashRing.NewcomerTakesOnlyItsArc` | src/rpc_center/load_balancer/consistent_hash_load_balancer.cpp:57-86 | after a server joins, a client keeps its node or moves to one of the newcomer's, and moves exactly when the newcomer placed a node closer to it |
| `Replication.GetCurrentLBResult` | src/rpc_center/load_balancer/consistent_hash_load_balancer.cpp:89-99 | the snapshot lists every node once, by ascending id, and nothing else |
| `Replication.UpdateLBResult` | src/rpc_center/load_balancer/consistent_hash_load_balancer.cpp:101-109 | inserts the entries in order, keeping ids that are present |
| `Replication.MergedIsUnion` | src/rpc_center/load_balancer/consistent_hash_load_balancer.cpp:89-109 | merging a snapshot adds exactly the missing nodes of the ring it was taken from |
| `Replication.RunKeepsInv` | src/rpc_center/load_balancer/consistent_hash_load_balancer.cpp:57-109 | every run of registrations, snapshots and deliveries keeps the replication invariant |
| `Replication.FollowerHoldsNewestSnapshot` | src/rpc_center/load_balancer/consistent_hash_load_balancer.cpp:57-109 | under loss, delay, reordering and duplication a follower's ring is exactly the newest snapshot delivered to it, and part of the leader's ring |
| `Replication.DeliveryConverges` | src/rpc_center/load_balancer/consistent_hash_load_balancer.cpp:57-109 | delivering a snapshot of the leader's present ring makes the rings equal and every client lookup agree |
| `Center.RpcCenter.constructor` | src/rpc_center/rpc_center.cpp:43-64 | a new center looks for a leader, takes itself for it and has an empty table |
| `Center.RpcCenter.InitRpcCenter` | src/rpc_center/rpc_center.cpp:113-152 | one zeroed row per listed address other than the local one and no other row, the majority threshold of the cluster, and all fifty nodes of every listed peer in the center ring |
| `Center.RegisteredNodes` | src/rpc_center/rpc_center.cpp:149 | registering the list keeps every old node and adds the fifty nodes of each listed peer and no others |
| `Center.RpcCenter.RegistNewCenter` | src/rpc_center/rpc_center.cpp:842-849 | fifty distinct node ids are added, less those already present |
| `Center.RpcCenter.LeaderPredicate` | src/rpc_center/rpc_center.cpp:474-493 | accepts exactly a higher clock, or at an equal clock an earlier start, or the same start and an address that has the greater byte at the first difference or properly extends the other |
| `Center.AcceptsIff` | src/rpc_center/rpc_center.cpp:474-493 | case by case: a lower clock is refused and a higher one accepted; at equal clocks an earlier start is accepted and a later one refused; at equal starts the first differing byte decides |
| `Center.RpcCenter.UpdateOCStatus` | src/rpc_center/rpc_center.cpp:236-330 | the whole new table, leader and status after a counted proposal; votes for unlisted addresses are lost |
| `Center.RpcCenter.ProcessProposal` | src/rpc_center/rpc_center.cpp:713-719 | an accepted proposal is counted, a refused one changes nothing |
| `Center.RpcCenter.ProcessConfirm` | src/rpc_center/rpc_center.cpp:720-734 | an accepted confirmation makes the center a follower and leaves its recorded leader alone |
| `Center.RpcCenter.ProposalLeaderElection` | src/rpc_center/rpc_center.cpp:445-472 | the clock advances by one and the proposal carries the recorded leader |
| `Center.RpcCenter.InquiryCenters` | src/rpc_center/rpc_center.cpp:383-443 | the sweep over the peers in any iteration order, with some peers unreachable |
| `CenterRuns.BetterIsStrictTotalOrder` | src/rpc_center/rpc_center.cpp:479-489 | at equal clocks the acceptance test is a strict total order on start time and address |
| `CenterRuns.SweepRewritesAsked` | src/rpc_center/rpc_center.cpp:397-440 | the sweep rewrites exactly the rows of the asked peers |
| `CenterRuns.SweepPicksBest` | src/rpc_center/rpc_center.cpp:397-440 | with no asked peer ahead of the local clock the sweep leaves the best of the standing leader and all peers of that clock |
| `CenterRuns.SweepOrderIrrelevantIff` | src/rpc_center/rpc_center.cpp:397-440 | all iteration orders give one result exactly when at most one candidate is ahead of the local clock and no candidate of that clock beats it; candidates are unknown rows, so this concerns the status that the source means to store |
| `CenterRuns.SweepOrderMatters` | src/rpc_center/rpc_center.cpp:397-440 | two unknown peers at a higher clock and two orders of asking them that end with different leaders |
| `CenterRuns.FullSweepsAgree` | src/rpc_center/rpc_center.cpp:61-62 | centers that start with themselves and hear from all others before any proposal pick the same leader |
| `CenterRuns.FullSweepElectsEarliest` | src/rpc_center/rpc_center.cpp:397-440 | the leader after a full sweep started no later than any center, and has the greatest address among those that started with it |
| `CenterRuns.SweepIsIdle` | src/rpc_center/rpc_center.cpp:401-406 | a table without unknown peers makes the sweep a no-op |
| `CenterRuns.StatusMachine` | src/rpc_center/rpc_center.cpp:287-327 | in every run of proposals, confirmations, own proposals and answers to the sweep, the status never returns to looking, following is left only for leading, and a leading center stops recording itself exactly in a step that unseats it |
| `CenterRuns.StatusAfter` | src/rpc_center/rpc_center.cpp:287-327 | what each event does to status, leader and clock: a decision leads, observes or goes on following, an accepted confirmation follows, and nothing else moves the status |
| `CenterRuns.RowsAfterProposal` | src/rpc_center/rpc_center.cpp:247-285 | an accepted proposal leaves the sender's row as sent, adds one vote to a listed leader, and changes no other row |
| `CenterRuns.RowsAfterAnswer` | src/rpc_center/rpc_center.cpp:426-429 | an answer gives the asked row, if unknown, the sender's start and status, and changes no other row |
| `CenterRuns.SelfLedIff` | src/rpc_center/rpc_center.cpp:428-440 | a leading center records itself as leader throughout a run exactly when none of its answers comes from an unknown peer and is accepted while it leads |
| `CenterRuns.AnswerUnseats` | src/rpc_center/rpc_center.cpp:770-778 | a concrete run, with the sweep beside the election, that ends with a leading center recording another leader |
| `CenterRuns.VotesConserved` | src/rpc_center/rpc_center.cpp:268-285 | in every run, answers to the sweep included, the sum of all votes grows by the number of counted proposals for addresses in the table |
| `CenterRuns.OneMajority` | src/rpc_center/rpc_center.cpp:152 | with at most N counted proposals in a cluster of N, at most one address reaches the threshold |
| `CenterRuns.TallyIsRow` | src/rpc_center/rpc_center.cpp:252-284 | the local address enters the table exactly with the first accepted proposal it sent itself, and votes for it count from there |
| `CenterRuns.LeadsIffOwnProposalComesBack` | src/rpc_center/rpc_center.cpp:287-300 | a started center ever leads exactly when enough accepted proposals name it from one carrying its own address as sender on |
| `CenterRuns.NeverLeadsUnsent` | src/rpc_center/rpc_center.cpp:252-300 | when no received proposal carries the local address as sender, that address never enters the table and the center never leads |
| `CenterRuns.CanLeadIffItSends` | src/rpc_center/rpc_center.cpp:252-300 | for any set of senders, something they can send makes the center lead exactly when it is one of them |
| `CenterRuns.MajorityDoesNotLead` | src/rpc_center/rpc_center.cpp:135-140 | a concrete run in which a majority votes for a center that never leads |
| `Cluster.DeliverKeepsInv` | src/rpc_center/rpc_center.cpp:236-291 | a delivery keeps every vote backed by a distinct sender and every decision backed by a quorum |
| `Cluster.RunKeepsInv` | src/rpc_center/rpc_center.cpp:781-801 | every interleaving of proposals, deliveries, inquiries and confirmations keeps that invariant |
| `Cluster.Agreement` | src/rpc_center/rpc_center.cpp:287-291 | any two decisions of one round, at any two centers of a cluster of any size, name the same leader |
| `Cluster.StepKeepsRecordedIff` | src/rpc_center/rpc_center.cpp:428-440 | a step drops a decided leader exactly when a decided center asks a peer whose row is unknown and accepts an answer that comes from another center |
| `Cluster.RecordedIffUndisturbed` | src/rpc_center/rpc_center.cpp:332-336 | decisions stay on record at every moment of a round exactly when it has no such step |
| `Cluster.DecidedCentersShareLeader` | src/rpc_center/rpc_center.cpp:332-336 | all centers that decide in a round without such a step record one and the same leader |
| `Cluster.NobodyDecides` | src/rpc_center/rpc_center.cpp:144-148 | with the table as initialised no center of any cluster decides or leads in any run of the round, and each keeps itself as leader |
| `ClusterLimits.RunStaysSettled` | src/rpc_center/rpc_center.cpp:236-291 | in every run of every cluster a center has exactly one row per other center, never leads, and has no more votes than peers whose delivered proposal made their row known |
| `ClusterLimits.NobodyLeads` | src/rpc_center/rpc_center.cpp:781-801 | whatever status the peer rows start with, no center ever leads or has a row for itself, since no center sends to itself |
| `ClusterLimits.LeadersAreGenuine` | src/rpc_center/rpc_center.cpp:332-336 | in every run every center takes a center of the cluster for the leader, under the time at which that one started |
| `ClusterLimits.SomebodyCanDecideIff` | src/rpc_center/rpc_center.cpp:144-152 | a run in which a center decides exists exactly when peers are recorded as unknown and there are at least three centers |
| `ClusterLimits.UnknownPeerNeedsFive` | src/rpc_center/rpc_center.cpp:397-440 | a center that has decided still has an unknown peer only in a cluster of five or more |
| `ClusterLimits.DecisionsCanBeOverwrittenIff` | src/rpc_center/rpc_center.cpp:428-440 | a run in which a decided center loses its leader exists exactly when peers are recorded as unknown and there are at least five centers |
| `WorkerPool.StepKeepsOwners` | src/rpc_server/libev_thread_pool.cpp:99-175 | no step of a dispatcher, worker, cancellation, cleanup or restart copies an item |
| `WorkerPool.StepKeepsTokens` | src/rpc_server/libev_thread_pool.cpp:245-311 | a queue and its bytes, readers and writers move together, but for one item at each failed write or cancellation between read and pop; they never outnumber the queued items |
| `WorkerPool.StepKeepsOrder` | src/rpc_server/libev_thread_pool.cpp:141-168 | what was popped from a slot followed by what is queued there is the slot's share of the dispatches, in order |
| `WorkerPool.ScheduleIsRoundRobin` | src/rpc_server/libev_thread_pool.cpp:257-259 | the j-th dispatch of slot w among n is number w + j * n |
| `WorkerPool.PopNeverNull` | src/rpc_server/libev_thread_pool.cpp:286-297 | in every run a worker that has read a 'c' finds its queue occupied, despite failed writes, cancellations and restarts |
| `WorkerPool.PopsInDispatchOrder` | src/rpc_server/libev_thread_pool.cpp:257-266 | in every run the j-th item popped by slot w is dispatch number w + j * slots |
| `WorkerPool.StrandedItems` | src/rpc_server/libev_thread_pool.cpp:267-311 | in every run a queue holds exactly as many items as there are bytes, readers and writers of its slot plus failed writes and readers cancelled before their pop |
| `WorkerPool.DeferredLosesNothing` | src/rpc_server/libev_thread_pool.cpp:293-302 | under deferred cancellation, the type all workers have, every allocated item has exactly one owner at every moment, and the only items without a byte, reader or writer are those whose write failed |
| `WorkerPool.LeaksAreGapHits` | src/rpc_server/libev_thread_pool.cpp:293-302 | were workers cancelled asynchronously, the number of lost items would be the number of cancellations that hit one of the two gaps around the cleanup scope |
| `WorkerPool.AsynchronousLoses` | src/rpc_server/libev_thread_pool.cpp:293-295 | were workers cancelled asynchronously, every pool with a caller would have a run that loses an item |
| `WorkerPool.NothingLost` | src/rpc_server/libev_thread_pool.cpp:99-175 | under either type of cancellation no item has two owners in any run, and some allocated item has none exactly when a cancellation hit a gap |
| `WorkerPool.ListsSeparate` | src/rpc_server/libev_thread_pool.cpp:112-175 | the free list and the queues repeat and share no item, and held items are on none of them |
| `LinkedPool.TakeRefines` | src/rpc_server/libev_thread_pool.cpp:112-120 | taking the head of the free list is a step of the pool |
| `LinkedPool.AllocRefines` | src/rpc_server/libev_thread_pool.cpp:122-137 | splicing a linked block in front of the free list is a step of the pool |
| `LinkedPool.PushRefines` | src/rpc_server/libev_thread_pool.cpp:156-168 | appending through the tail pointer is a step of the pool and disturbs no other list |
| `LinkedPool.PopRefines` | src/rpc_server/libev_thread_pool.cpp:141-154 | removing the head is a step of the pool, the head is never NULL and holds the task of the oldest dispatch |
| `LinkedPool.FreeRefines` | src/rpc_server/libev_thread_pool.cpp:170-175 | pushing a held item on the free list is a step of the pool |
| `LinkedPool.LibevThreadPool.constructor` | src/rpc_server/libev_thread_pool.cpp:38-90 | a started pool has empty lists and one idle worker per slot |
| `LinkedPool.LibevThreadPool.TakeItem` | src/rpc_server/libev_thread_pool.cpp:112-120 | the first locked block of item allocation, as a step |
| `LinkedPool.LibevThreadPool.AllocItems` | src/rpc_server/libev_thread_pool.cpp:122-138 | the linking loop and the second locked block, as a step; the caller keeps the first item and sixty-three join the free list |
| `LinkedPool.LibevThreadPool.PushItem` | src/rpc_server/libev_thread_pool.cpp:257-269 | any function and argument are queued; the slot of the k-th dispatch is k modulo the number of threads, and the push is a step |
| `LinkedPool.LibevThreadPool.PopItem` | src/rpc_server/libev_thread_pool.cpp:141-154 | returns a non-NULL item; the j-th one popped from slot w holds the function and argument of dispatch w + j * threads |
| `LinkedPool.LibevThreadPool.FreeItem` | src/rpc_server/libev_thread_pool.cpp:170-175 | the release by a worker or by its cleanup handler, as a step |
| `Dictionary.DictionaryHash` | src/config_parser/dictionary.cpp:93-109 | the byte loop computes the recursive hash |
| `HashValues.DictionaryHashOfA` | src/config_parser/dictionary.cpp:93-109 | the hash of "a" is 0xca2e9442 |
| `HashValues.DictionaryHashOfAb` | src/config_parser/dictionary.cpp:93-109 | the hash of "ab" is 0x45e61e58 |
| `HashValues.DictionaryHashOfSigned` | src/config_parser/dictionary.cpp:99-100 | the hash of the one character 0xe9, which is negative, is 0x409848ff |
| `Dictionary.SomeSlotFree` | src/config_parser/dictionary.cpp:269-271 | while the count is below the size some slot is free |
| `Dictionary.ContentsDetermined` | src/config_parser/dictionary.cpp:181-199 | a map that holds every occupied slot and no other key is the dictionary's map |
| `Dictionary.StoreInSlot` | src/config_parser/dictionary.cpp:244-279 | storing a pair in the key's own slot or in any free one updates the map and keeps the keys distinct |
| `Dictionary.ClearSlot` | src/config_parser/dictionary.cpp:320-327 | clearing a slot removes its key from the map and keeps the rest |
| `Dictionary.Dictionary.constructor` | src/config_parser/dictionary.cpp:122-138 | an empty map in at least 128 slots |
| `Dictionary.Dictionary.Scan` | src/config_parser/dictionary.cpp:187-197 | finds the slot of a key exactly when the key is present, by hash and then by string |
| `Dictionary.Dictionary.Get` | src/config_parser/dictionary.cpp:181-199 | the map's value, a stored NULL included, or the default |
| `Dictionary.Dictionary.Probe` | src/config_parser/dictionary.cpp:269-274 | the circular probe from n ends at a free slot |
| `Dictionary.Dictionary.Grow` | src/config_parser/dictionary.cpp:254-267 | doubling keeps every slot and adds as many free ones |
| `Dictionary.Dictionary.Add` | src/config_parser/dictionary.cpp:253-281 | a new key is added to the map, the table growing first when no slot is free |
| `Dictionary.Dictionary.Set` | src/config_parser/dictionary.cpp:227-281 | updates the map at the key across replacement, slot reuse and doubling; a NULL key is refused |
| `Dictionary.Dictionary.Unset` | src/config_parser/dictionary.cpp:294-329 | removes the key from the map and nothing else |
| `Dictionary.Replay` | src/config_parser/dictionary.cpp:227-329 | any history of updates leaves the map that the same history leaves on a plain map |
| `CText.StrLwc` | src/config_parser/iniparser.cpp:44-54 | lower-cases the C string in the buffer and leaves the rest of the buffer alone |
| `CText.StrStrip` | src/config_parser/iniparser.cpp:66-82 | the buffer then holds the string without blanks at its ends |
| `CText.StripLeftSplits` | src/config_parser/iniparser.cpp:73 | what is cut off in front is blank and the rest does not start with a blank |
| `CText.StripRightSplits` | src/config_parser/iniparser.cpp:74-79 | what is cut off behind is blank and the rest does not end with a blank |
| `CText.BlankCodes` | src/config_parser/iniparser.cpp:73-79 | blanks are the characters 9 to 13 and 32 |
| `CText.LowerCodes` | src/config_parser/iniparser.cpp:44-54 | lower-casing moves the codes 65 to 90 up by 32 and changes nothing else |
| `IniText.ContentsOfSlots` | src/config_parser/iniparser.cpp:247-256 | the map of a dictionary is exactly what its occupied slots hold |
| `IniRoundTrip.SectionLineParses` | src/config_parser/iniparser.cpp:610-618 | a printed section line is read as that section |
| `IniRoundTrip.ValueSurvivesIff` | src/config_parser/iniparser.cpp:619-659 | a trimmed value is read back exactly when it has no comment sign and is not quoted |
| `IniRoundTrip.ValueLineParses` | src/config_parser/iniparser.cpp:619-659 | a printed key line is read as the same key and value, empty values included |
| `IniRoundTrip.DumpLoads` | src/config_parser/iniparser.cpp:691-891 | a dump with sections loads without error into what was printed under its sections |
| `IniRoundTrip.RoundTrip` | src/config_parser/iniparser.cpp:196-260 | for every well-formed dictionary, in whatever slots, loading the dump gives the same map |
| `IniRoundTrip.RoundTripIff` | src/config_parser/iniparser.cpp:214-217 | with printable entries and a section, the round trip holds exactly when every key has its section |
| `IniRoundTrip.OrphanIsLost` | src/config_parser/iniparser.cpp:247-251 | a key without its section is not in the loaded dictionary |
| `IniRoundTrip.OrphanExample` | src/config_parser/iniparser.cpp:247-251 | a concrete dictionary of two entries that does not survive |
| `IniFormat.TextLoads` | src/config_parser/iniparser.cpp:559-891 | every text of blank lines, comments, section headers, unreadable lines and settings whose values are quoted, plain, commented or missing loads into what its lines mean: quotes off, blanks off, comments cut, keys and sections in lower case; it is refused when an unreadable line has no header or setting after it |
| `IniFormat.ScanReads` | src/config_parser/iniparser.cpp:619-659 | a value in quotes gives its stripped inside, a plain one the stripped text before a comment, empty quotes and a missing value the empty string |
| `IniFormat.ContinuationJoins` | src/config_parser/iniparser.cpp:760-805 | a line that ends in a backslash and the next one load as one line |
| `IniFormat.LastLine` | src/config_parser/iniparser.cpp:737-748 | the last line needs no line end, but a single character without one is skipped |
| `IniFormat.OverlongFails` | src/config_parser/iniparser.cpp:741-748 | a line of 1023 characters or more makes the whole load fail |
| `IniFormat.SampleLoads` | src/config_parser/iniparser.cpp:608-659 | a concrete text with mixed case, quotes, a commented value and a comment line, and its dictionary |
| `IniFormat.EntryLineIs` | src/config_parser/iniparser.cpp:247-256 | an entry is printed as its key in thirty columns, an equals sign and its value, NULL as nothing |
| `IniFormat.DumpOfTwoSections` | src/config_parser/iniparser.cpp:214-219 | sections are printed in slot order with blank lines around them and one at the end |
| `IniFormat.MixedCaseSectionIsLost` | src/config_parser/iniparser.cpp:240-243 | a section whose lower-case name is no key is not printed |
| `IniFormat.PlainDumpLoads` | src/config_parser/iniparser.cpp:204-213 | a dump without sections loads with a colon in front of every key, and NULL as the text "(null)" |
| `IniFormat.PlainRoundTripIff` | src/config_parser/iniparser.cpp:204-213 | without sections only the empty dictionary comes back as it was |
| `IniParser.GetNSec` | src/config_parser/iniparser.cpp:102-117 | the number of colon-free keys |
| `IniParser.GetSecName` | src/config_parser/iniparser.cpp:133-153 | the n-th section in slot order, or NULL |
| `IniParser.DumpEntries` | src/config_parser/iniparser.cpp:247-256 | prints the entries of one section in slot order |
| `IniParser.DumpSectionIni` | src/config_parser/iniparser.cpp:234-260 | prints a section and its entries, or nothing when its lower-case name is no key |
| `IniParser.DumpIni` | src/config_parser/iniparser.cpp:196-220 | appends the text that the slots determine |
| `IniParser.StoreLine` | src/config_parser/iniparser.cpp:808-851 | the dictionary, section and error count after one parsed line |
| `IniParser.LoadStep` | src/config_parser/iniparser.cpp:722-861 | one turn of the load loop, with overlong lines and continuation lines |
| `IniParser.LoadIni` | src/config_parser/iniparser.cpp:691-891 | the loaded dictionary is the one the text determines, or none when errors are pending |
| `IniParser.DumpAndLoad` | src/config_parser/iniparser.cpp:196-260 | dumping a well-formed dictionary object and loading the text yields an object with the same map |
| `Frames.RpcSend` | src/util/rpc_communication.cpp:346-395 | the block loop and the remainder append exactly the frames of the message; a negative id sends nothing |
| `Frames.FrameCount` | src/util/rpc_communication.cpp:361-388 | one frame per full block of 511 bytes, and one for a remainder |
| `Frames.FullFrame` | src/util/rpc_communication.cpp:361-376 | the j-th full block goes out under the code j in a body of 512 bytes that ends in NULs |
| `Frames.LastFrame` | src/util/rpc_communication.cpp:377-388 | the remainder goes out last under the negated id, or under -1 for the id 0 |
| `Frames.RpcRecv` | src/util/rpc_communication.cpp:306-344 | takes frames up to a negative code, or all there are with id zero |
| `Frames.SurvivesIff` | src/util/rpc_communication.cpp:331-332 | a message passes through its frames whole exactly when it holds no NUL |
| `Frames.MessageRoundTripsIff` | src/util/rpc_communication.cpp:306-395 | one message comes back with its id, or with 1 for the id 0, and leaves later frames alone exactly when it has no NUL and its length is no multiple of 511 |
| `Frames.StreamIsReceivedInGroups` | src/util/rpc_communication.cpp:306-395 | any stream of messages is received as the concatenations that end at each message whose length is no multiple of 511, with that message's id, and a tail with id zero |
| `Frames.LossesHappen` | src/util/rpc_communication.cpp:377-388 | a message with a NUL and every message of 511 bytes fail the round trip |
| `TimerWheel.BkdrHash` | src/util/rpc_util.cpp:29-38 | the byte loop computes the recursive hash, cut to 31 bits |
| `HashValues.BkdrValues` | src/util/rpc_util.cpp:29-38 | the hashes of "ab" and of the character 0xe9 as numbers, and the bucket of "ab" |
| `TimerWheel.TimerKeyInjective` | src/rpc_server/connection_timer_manager.cpp:212-215 | distinct connections have distinct keys, for all addresses and descriptors |
| `TimerWheel.TimerKeyReads` | src/rpc_server/connection_timer_manager.cpp:212-215 | a key is the address, an underscore and digits that read as the descriptor |
| `TimerWheel.AddressRecoveredIff` | src/rpc_server/connection_timer_manager.cpp:188-191 | cutting a key at its first underscore gives the address back exactly when the address has none |
| `TimerWheel.FlatUpdate` | src/rpc_server/connection_timer_manager.cpp:274-285 | replacing one bucket changes the flattened wheel on that bucket's keys only |
| `TimerWheel.ConnectionTimerManager.constructor` | src/rpc_server/connection_timer_manager.cpp:31-47 | a new wheel is empty |
| `TimerWheel.ConnectionTimerManager.InitTimerBuf` | src/rpc_server/connection_timer_manager.cpp:76-96 | a thread gets the next buffer and delete list, both empty |
| `TimerWheel.ConnectionTimerManager.InsertConnectionTimer` | src/rpc_server/connection_timer_manager.cpp:98-130 | the timer enters the thread's buffer unless its key is there |
| `TimerWheel.ConnectionTimerManager.DeleteConnectionTimer` | src/rpc_server/connection_timer_manager.cpp:132-146 | the key is appended to the thread's delete list |
| `TimerWheel.ConnectionTimerManager.InsertRefreshConnectionInfo` | src/rpc_server/connection_timer_manager.cpp:148-155 | the address joins the pending heartbeats |
| `TimerWheel.ConnectionTimerManager.EraseFromPool` | src/rpc_server/connection_timer_manager.cpp:274-285 | the flattened wheel loses exactly the key |
| `TimerWheel.ConnectionTimerManager.InsertIntoPool` | src/rpc_server/connection_timer_manager.cpp:298-308 | the flattened wheel gains the key unless it was there |
| `TimerWheel.ConnectionTimerManager.CrawlBuffer` | src/rpc_server/connection_timer_manager.cpp:259-309 | deleted keys leave wheel and buffer, then the rest of the buffer is added without overwriting |
| `TimerWheel.ConnectionTimerManager.ConnectionBufCrawler` | src/rpc_server/connection_timer_manager.cpp:221-312 | all buffers and delete lists are emptied and merged in index order, as algebra on one map |
| `TimerWheel.ConnectionTimerManager.Examine` | src/rpc_server/connection_timer_manager.cpp:177-202 | every timer of the bucket is refreshed if a heartbeat named it and then kept or evicted by the test as written |
| `TimerWheel.ConnectionTimerManager.Tick` | src/rpc_server/connection_timer_manager.cpp:160-204 | one turn crawls, examines exactly the keys of the current bucket and advances the index |
| `TimerWheel.EvictionIsInverted` | src/rpc_server/connection_timer_manager.cpp:160-204 | in every run of turns a timer that nobody deletes is, when its bucket comes up within sixty turns, evicted exactly if it has not expired then, and otherwise kept with only its expiry refreshed; a heartbeat evicts its own connection |
| `TimerWheel.ExpiredStays` | src/rpc_server/connection_timer_manager.cpp:187-200 | in every run an expired timer without delete request or heartbeat stays in the wheel, unchanged, in every later turn |
| `TimerWheel.CrawlKeeps` | src/rpc_server/connection_timer_manager.cpp:259-309 | a crawl removes no key that is on no delete list, and keeps its timer |
| `TimerWheel.CrawledKey` | src/rpc_server/connection_timer_manager.cpp:221-312 | after a crawl a key has the wheel's timer if no delete list names it, otherwise the timer of the first buffer behind the last such list that holds it, and is absent if there is none |
| `TimerWheel.BufferedEnters` | src/rpc_server/connection_timer_manager.cpp:295-308 | a buffered key enters the wheel unless its own or a later delete list names it |
| `TimerWheel.EveryTimerTested` | src/rpc_server/connection_timer_manager.cpp:160-204 | within sixty turns every timer of the wheel is put to the test unchanged, or some thread's delete list names it |
| `TimerWheel.BufferedIsTested` | src/rpc_server/connection_timer_manager.cpp:160-204 | a timer left in a thread's buffer is put to the test within sixty turns, or some delete list of a later turn names it |

## Left out

- Sockets, partial reads, retries and connection set-up: the wire carries whole frames, and whether a peer answers is an input.
- libev loops, lock wrappers and thread internals: a locked block is one step, and cancellation inside a locked block is not modelled.
- A `read` from the notification pipe that fails leaves an uninitialised byte in the source; the model reads only bytes that were written.
- The unlocked update of `current_thread_` is taken as atomic with the push that follows it.
- The linking loop of the item block starts at index 0 in the source and writes before the block; the model starts it at 1.
- Running versions of workers and the version test of `RestartThread`: a restart may happen at any time in the model.
- Protobuf messages are datatypes; parsing and serialising them is not modelled.
- Center.RpcCenter.UpdateOCStatus: vote counts do not wrap at 2^32, and failure to start the leader thread is not modelled.
- Cluster.Agreement: covers one round, because votes are never cleared between rounds.
- The table lock that a sweep holds throughout: in the cluster its answers are separate steps, which covers more interleavings; the runs exhibited let each center have one answered inquiry.
- The missing center list file that makes `InitRpcCenter` fail, and the threads it creates.
- Request routing in `CenterProcessor` and the walks along the center ring that can step past its end.
- Memory management: allocation failure in the dictionary and the parser, buffer sizes inside `iniparser_line` (a section name with `=` overruns its buffer there and is excluded from well-formed dictionaries and texts), and release of objects.
- NUL characters in ini texts and timer keys: both are taken to be free of NUL.
- `iniparser_getint`, `iniparser_getdouble`, `iniparser_getboolean` and the other accessors, which only convert a looked-up string.
- TimerWheel.ConnectionTimerManager.Tick: reads the clock once per turn, while the source reads it for each timer, and does not restart the evicted connection's thread.
- The UDP variants of the frame functions, client channels, heartbeat threads, controllers, the configuration wrapper and the samples.
