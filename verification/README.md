# A verified model of the DHCP cluster

A cluster of nodes hands out IPv4 leases. The nodes elect a coordinator with the bully algorithm,
the coordinator cuts the address pool into one share for each connected node, every node allocates
from its own share, and confirmed leases are broadcast. This project models the node's event
handlers, the lease allocator, the thread pool underneath and the MAC address notation, and proves
what they guarantee.

`dafny verify dfyconfig.toml` checks everything.

## How the model is built

Code that updates an object in place is a class (`Dhcp.Service`, `ServerNode.Server`,
`ThreadPool.Inner`) whose methods and loops are verified against functions on the object's value
(`Dhcp.State`, `ServerNode.Node`, `ThreadPool.Pool`). Everything about runs is proved of those
functions.

| files | content |
|---|---|
| `MacAddress` | parser and printer of MAC addresses, and their round trip |
| `Ipv4` | address ranges: rotation, CIDR blocks, division |
| `Dhcp`, `Allocator` | the lease service of one node, and its properties over all sequences of calls |
| `ServerNode`, `Cluster` | the event handlers, and the cluster as a transition system over any number of nodes |
| `Handlers`, `Promises` | what a node answers its peers and clients, and that an offer is kept until it is confirmed |
| `Election`, `ElectionOutcomes`, `ElectionMajority`, `ElectionPatience` | the bully election: termination, correctness, who may be misinformed, majority, and elections in which nodes wait long enough |
| `LeaseLedger`, `Leases` | the abstract protocol of leases, and that the cluster follows it |
| `Epochs`, `LeaseLimits`, `LeaseWitnesses`, `Expiry` | uniqueness and convergence over runs, exactly when they hold, and runs in which they do not |
| `LastWriter`, `Settling`, `RenewalWitness`, `PoolWitness` | what is overwritten by the last message to arrive, namely expiries and pools: exactly when the outcome is certain, and runs in which it is not |
| `PoolRound`, `Membership` | a coordinator's division of the pool; joins, losses and majorities |
| `ThreadPool`, `PoolRuns`, `PoolShrink`, `PoolDrain` | the thread pool's operations, its runs with workers interleaved, how it shrinks, and what becomes of jobs when it is dropped |

A cluster state is a map of nodes and a bag of pending events: messages, and election timers that
will fire. A step delivers any pending event, or repeats a lease message, or is a client's request,
or triggers an election (`Trigger`, because the node has met a new peer, to which it also sends its
whole table, or because it has lost a peer that was its coordinator), or answers a higher peer's connection in place of a lost one
(`Rejoin`, which makes the node send its table).
Every node handles one event at a time, as the event loop does. An enumeration of the peer map is
an arbitrary sequence of the peers; clock readings are arguments. A Rust panic in a handler is the
reaction `Crash`, and in a pure function the value `None`.

A run is *steady* if every node keeps its pool. An *epoch* is a steady run that starts when pools
are disjoint and owners know every lease of their addresses (`Epochs.Orderly`), and in which no node
forgets a lease of its own pool, by expiry or by replacing its table, that another node still has or
that is on its way. Tables need not be empty at first, and elections may go on. `Epochs.EpochCanStart`
and `Epochs.NextEpoch` say when an epoch may begin and how one follows another. A run is *gentle* if
it is steady, no request's clock reading has reached an expiry at its node, and no longer table
arrives. A gentle run from an orderly state is an epoch (`Epochs.GentleIsEpoch`).

## What the proofs show about the code

- The election is right about the roles from every starting point, but not about names: a node is
  sure to know the elected coordinator exactly if no other id lies between the two
  (`ElectionOutcomes.InformedIff`). That, too, is from every starting point. If timers do not fire
  while an Election of their node or an Okay for it is on its way, nobody but the highest node ever
  takes over, and everyone learns its name (`ElectionPatience.OnlyTopTakesOver`,
  `ElectionPatience.PatientElectionsInform`). A node's majority flag is sure to be right exactly if no old
  announcement from a higher node that says otherwise is still on its way
  (`ElectionMajority.MajorityIsRightIff`).
- An election can leave two nodes with the same pool, for good: an assignment of a lower node that
  ruled too early may arrive after the highest node has ruled (`PoolWitness.ElectionCanSharePool`).
  Everyone is sure to end up with its share exactly if no pending assignment says otherwise and
  everyone else has its share (`Settling.PoolsSettleIff`).
- The comment at `server-node/src/server.rs` line 328 says that clients never use conflicting
  addresses. As long as pools stay as they are, that holds exactly if each fresh offer is of an
  address that no other node has leased to another MAC and no message carries for another MAC
  (`Epochs.UniquenessIff`, `LeaseLimits.RequestIsUniqueIff`). It holds throughout an epoch
  (`Epochs.NoDoubleAllocation`), and so as long as nothing expires and no table is replaced
  (`Epochs.GentleRunsAreUnique`). Outside, there are runs from an empty cluster that bind an address
  twice, one by expiry (`LeaseWitnesses.ExpiryCanBindTwice`) and one by replacing a table
  (`LeaseWitnesses.TableCanBindTwice`); a received table is safe exactly if it drops none of the
  node's own leases that are known elsewhere, or is not the longer one
  (`LeaseLimits.TableKeepsOrderIff`).
- `doc/design.md` line 39 asks for a consistent lease table on all nodes. If no lease is forgotten,
  the nodes do come to agree on who holds which address (`Epochs.TablesConverge`). On the expiry they
  are sure to agree exactly if all pending messages about the lease, and all nodes that await none,
  say the same (`Settling.ExpiriesAgreeIff`). So a renewal is safe exactly if no message about an
  earlier one, with another expiry, is still on its way to anyone (`Settling.RenewalIsSafeIff`); it
  is not enough that the renewing node has heard of it (`RenewalWitness.LateNewsCanWin`).
- `doc/design.md` line 33 says that two parts of the cluster never compete. Two coordinators with
  majority always share a node (`Membership.QuorumsIntersect`), but a follower may still act on a
  majority that is gone (`Membership.ClaimIsSoundIffCoordinator`).
- A MAC can get several leases: at the same node, a repeated request is given a second address exactly
  if the first offer has neither been confirmed nor expired and an address is free
  (`Allocator.SecondEntryIff`), and both offers can be confirmed (`Allocator.SecondLeaseIff`). Another
  node gives an address to any MAC whose lease it has not heard of.
- The comment at `server-node/src/dhcp.rs` line 29 takes the configured lease time to be 32 bits
  wide. It is 64 bits wide (`server-node/src/config.rs` line 34), and the conversion of a fresh
  offer panics exactly if what remains of it when the clock is read again does not fit
  (`Allocator.OfferConversionIff`).
- `from_cidr` leaves out the last address of every block (`Ipv4.FromCidrIsBlock`). The topmost block
  of every size works in a release build only, as a debug build panics on overflow (`Ipv4.TopBlock`);
  what else the two accept is in `Ipv4.FromCidrSucceeds`.
- Panicking jobs can keep later ones from ever running when a pool is dropped, exactly if as many
  jobs as there are workers panic before the last one (`PoolDrain.DrainsIff`).

## Model

| member | source | states |
|---|---|---|
| Election.NoPanic | server-node/src/server.rs:453-466 | In a well-formed cluster no pending event can panic its node: an Okay always comes from above, and the sender of an Election is a peer |
| Election.StepKeepsWellFormed | server-node/src/server.rs:337-361 | Every step keeps Elections travelling upwards, Okays downwards, the mesh, and a pending timer for every waiting node |
| Election.StepRank | server-node/src/server.rs:433-484 | Handling an election event lowers the rank of the pending events; a trigger raises it by at most the cost of an election there; other steps leave it |
| Election.CostClosedForm | server-node/src/server.rs:337-361 | The cost of an election below k higher ids among n nodes is (n + 1) * 3^k - 1 |
| Election.CostDecomposes | server-node/src/server.rs:337-377 | That cost is the sum of what the Elections sent to the higher ids, the timer's announcements and the elections these restart can cause |
| Election.ElectionsTerminate | server-node/src/server.rs:337-377 | In every run the election events handled are bounded by the initial rank plus the costs of the triggers, whatever the order of delivery |
| Election.OneElectionIsBounded | server-node/src/server.rs:337-377 | From quiet, one trigger causes fewer than (n + 1) * 3^k election events |
| Election.StepDecides | server-node/src/server.rs:453-484 | A trigger starts, and every step keeps, the state in which the highest id is challenged, waiting, or ruling with every other node settled or about to be told |
| Handlers.ElectionIsAnswered | server-node/src/server.rs:453-463 | Handling an Election from below sends exactly one Okay, to its sender, whatever the node's role, and makes the node wait |
| Handlers.ElectionLeavesOneOkay | server-node/src/server.rs:456-461 | In a cluster it leaves exactly one more Okay pending for the sender |
| Election.ElectionIsCorrect | server-node/src/server.rs:337-377 | From any well-formed state, once triggered, every state at rest has the highest id as its only coordinator and all others as followers of a higher node |
| ElectionOutcomes.RestIsReachable | server-node/src/server.rs:164-187 | From every well-formed state the cluster comes to rest by handling what is pending |
| ElectionOutcomes.LowerNameCanStay | server-node/src/server.rs:476-484 | From any well-formed state and for any p < q there is an election after which p keeps q as its coordinator |
| ElectionOutcomes.InformedIff | server-node/src/server.rs:476-484 | From any well-formed state, p knows the elected coordinator after every election if and only if no id lies strictly between them |
| ElectionMajority.ElectionSpreadsMajority | server-node/src/server.rs:476-500 | From any well-formed state without a false announcement pending from above, once triggered, every state at rest has the right majority flag at all nodes |
| ElectionMajority.MajorityIsRightIff | server-node/src/server.rs:223-231 | Every election from a state is sure to end with all flags right, that is, true just if more than half of the configured nodes are present, if and only if no pending Coordinator message from above says otherwise |
| ElectionPatience.PatientStepKeeps | server-node/src/server.rs:346-377 | If a timer fires only when no Election of its node and no Okay for it is pending, then every other waiting node than the highest has one of these pending, and only the highest takes over or announces itself |
| ElectionPatience.OnlyTopTakesOver | server-node/src/server.rs:337-377 | In such a run, from any well-formed state whose waiting nodes are attended, no node but the highest ever becomes coordinator |
| ElectionPatience.PatientElectionsInform | server-node/src/server.rs:476-484 | In such a run, with no other announcement pending at first, at rest after a trigger every node knows the highest as coordinator |
| Leases.StepFollows | server-node/src/server.rs:164-187 | Every step that changes no pool is a change of the lease protocol at one node, offers just what the request newly offers, and keeps cursors in their pools |
| Epochs.StepIsUniqueIff | server-node/src/server.rs:379-451 | From a state in which no address is bound twice, a step leads to another if and only if it is harmless, with expiry and table replacement included |
| Epochs.UniquenessIff | server-node/src/server.rs:379-451 | A run without pool changes never binds an address to two MACs, in any tables, offers and messages, if and only if each of its steps is harmless |
| Epochs.StepIsOrderlyIff | server-node/src/server.rs:379-451 | A step keeps owners informed of all leases of their addresses if and only if no node forgets one of its own that is known elsewhere |
| Epochs.EpochIsOrderly | server-node/src/server.rs:379-429 | Throughout an epoch pool owners know every lease of their addresses and bind each once |
| Epochs.NoDoubleAllocation | server-node/src/server.rs:379-429 | In an epoch, from any orderly start, no address is bound to two MACs in any tables, offers and messages, with deliveries in any order and repeated |
| Epochs.LeasesKeepSpreading | server-node/src/server.rs:407-417 | In a mesh that forgets no lease, every lease is in each node's table or on its way there, throughout |
| Epochs.TablesConverge | server-node/src/server.rs:407-417 | So once no lease message is pending, all nodes store the same (MAC, address) pairs |
| Epochs.GentleRetains | server-node/src/dhcp.rs:175-243 | A step forgets no lease if a request's clock reading precedes all expiries at its node and a table received is not longer |
| Epochs.GentleRunsAreUnique | server-node/src/server.rs:379-429 | From an orderly start, as long as nothing expires, no table is replaced and pools stay, no address is bound to two MACs |
| Epochs.GentleRunsConverge | server-node/src/server.rs:407-417 | In a mesh, such runs end with the same pairs at all nodes, once no lease message is pending |
| Epochs.EpochCanStart | doc/design.md:36-40 | Converged tables and disjoint pools that cover them are orderly, whatever leases there are |
| Epochs.NextEpoch | doc/design.md:36-40 | After an epoch has come to rest, pools that cover the leases may be assigned anew, and the next epoch can start |
| Leases.AddLeaseLearns | server-node/src/dhcp.rs:164-173 | Recording a lease adds exactly its pair to the table and nothing to the offers |
| Leases.CommitLearns | server-node/src/dhcp.rs:219-243 | A successful commit adds exactly its pair to the table, and the pair was stored before |
| Leases.DiscoverServes | server-node/src/dhcp.rs:175-217 | A discover drops entries, and adds at most one offer, of an address of the pool that no remaining entry holds |
| LeaseLedger.SoundIsSafe | doc/design.md:36-38 | If owners know all leases of their addresses and bind each at most once, no address is bound twice anywhere |
| LeaseLedger.GuardedIff | server-node/src/dhcp.rs:190-214 | Of the changes of the protocol, exactly an offer of an address that is another MAC's elsewhere binds an address twice |
| LeaseLedger.SoundIff | server-node/src/server.rs:440-445 | A change keeps owners informed if and only if the node forgets no lease of its own pool that is known elsewhere |
| LeaseLedger.RetainingKeepsSpreading | server-node/src/server.rs:415-417 | As long as nothing is forgotten, every lease stays everywhere or on its way |
| LeaseLimits.TableKeepsOrderIff | server-node/src/server.rs:440-445 | Receiving a whole table keeps owners informed if and only if it is not the longer one, or the node's own leases missing from it are neither leased elsewhere nor on their way |
| LeaseLimits.RequestIsUniqueIff | server-node/src/dhcp.rs:175-217 | A request of a MAC without a lease keeps every address bound once if and only if the first pool address free after pruning is not another MAC's at another node or in a message |
| LeaseLimits.RequestKeepsOrderIff | server-node/src/dhcp.rs:185-188 | The pruning at a request keeps owners informed if and only if no expired lease of the node's own pool is leased elsewhere or on its way |
| LeaseWitnesses.ExpiryCanBindTwice | server-node/src/dhcp.rs:175-243 | A run from an empty cluster of three nodes, by expiry of a lease at its owner, binds an address to two MACs, and both can then be confirmed |
| LeaseWitnesses.TableCanBindTwice | server-node/src/server.rs:440-445 | A run from that cluster, by a table sent on a reconnection, makes an owner forget a lease of its own and offer the address again |
| LastWriter.CanEndWith | server-node/src/server.rs:164-187 | For any choice, for each node, of something pending for it, or else of what it holds, some run without new writes ends with just that at all nodes |
| LastWriter.AlwaysShowsIff | server-node/src/server.rs:486-493 | Without new writes all nodes are sure to end up with what is wanted of them if and only if every pending write carries it, and every node without one has it |
| LastWriter.AlwaysAgreesIff | server-node/src/server.rs:486-493 | Two or more nodes are sure to end up with the same if and only if all pending writes carry, and all nodes without one hold, one thing |
| Settling.ExpiriesAgreeIff | server-node/src/dhcp.rs:164-173 | In a mesh of two or more nodes, all are sure to end up with one expiry of a lease if and only if all pending messages about it, and all nodes without one, have the same |
| Settling.RenewalIsSafeIff | server-node/src/server.rs:407-417 | A renewal leaves that sure if and only if no message about the lease with another expiry is pending |
| RenewalWitness.LateNewsCanWin | server-node/src/server.rs:407-417 | A run from an empty cluster of three nodes, with channels in order and each renewal known to the next node that renews, ends quietly with two different expiries |
| Settling.PoolsSettleIff | server-node/src/server.rs:490-493 | Once no election is going on, every quiet continuation has everyone's share of a round applied if and only if each pending assignment is of its target's share, and each node without one has its own |
| PoolWitness.ElectionCanSharePool | server-node/src/server.rs:223-251 | A run of two nodes, from quiet followers through an election, with channels in order, ends quietly with the same pool at both |
| Expiry.ExpiriesAreBounded | server-node/src/dhcp.rs:245-249 | Over every run, every expiry in tables, offers and messages is at most the latest clock reading plus the lease time |
| Expiry.RenewalNeverShortens | server-node/src/dhcp.rs:219-243 | Under a clock that does not go back, a commit at any node outlasts every lease that is stored, offered or in a message anywhere |
| Expiry.OffersConvert | server-node/src/dhcp.rs:25-37 | Over every run, each offer converts to 32-bit seconds if the lease time does |
| PoolRound.EveryoneGetsOneShare | server-node/src/server.rs:233-250 | A round gives the coordinator and each peer exactly one pool, and nobody else any |
| PoolRound.SharesPartitionThePool | server-node/src/server.rs:233-250 | An address is in the configured pool if and only if it is in some node's share, and in at most one |
| PoolRound.SharesAreEqual | server-node/src/server.rs:233-250 | All shares have the same length, but the last one also gets the remainder |
| PoolRound.AppliedRoundStartsEpoch | server-node/src/server.rs:233-250 | Once a round is applied to a cluster with converged tables, all in the configured pool, an epoch can start |
| Membership.CoordinatorFlagIsExact | server-node/src/server.rs:223-227 | In every reachable state, through joins, losses and elections, a coordinator names itself, and its flag says whether it sees more than half of the configured nodes |
| Membership.ClaimIsSoundIffCoordinator | server-node/src/server.rs:317-331 | Exactly in the coordinator's role does a majority flag imply a majority in view |
| Membership.QuorumsIntersect | doc/design.md:31-33 | Any two coordinators with majority see a common node |
| Membership.OneCliqueServes | doc/design.md:31-33 | If views are equal or disjoint, at most one clique has a coordinator with majority |
| Membership.WaitingEnds | server-node/src/server.rs:346-377 | In every reachable state, through joins, losses and elections, a waiting node has a running timer |
| Membership.UninformedIsSilent | server-node/src/server.rs:379-405 | A reachable node that knows no coordinator answers no client |
| ServerNode.Server.constructor | server-node/src/server.rs:81-106 | A new server is a follower without peers, coordinator or majority, with the configured pool and no leases |
| ServerNode.Server.BecomeCoordinator | server-node/src/server.rs:223-251 | Announces itself with its majority to all peers, keeps the first part of the divided pool and assigns the others in one enumeration of the peers |
| ServerNode.Server.StartElection | server-node/src/server.rs:337-361 | Waits, sends Election to exactly the higher peers, and sets a timer |
| ServerNode.Server.FinishElection | server-node/src/server.rs:365-377 | Becomes coordinator if it still waits, and otherwise does nothing |
| ServerNode.Server.HandleElection | server-node/src/server.rs:453-463 | Answers a lower sender with Okay and starts an election; ignores others |
| ServerNode.Server.HandleCoordinator | server-node/src/server.rs:476-484 | Follows the sender and takes its majority flag, and challenges a lower sender by an election |
| ServerNode.Server.HandlePeerMessage | server-node/src/server.rs:433-451 | Each message does to the node, and sends, what its handler's function says |
| ServerNode.Server.HandleLeaseRequest | server-node/src/server.rs:379-395 | Without majority nothing happens; with it the answer and the new state are those of the allocator |
| ServerNode.Server.HandleConfirmRequest | server-node/src/server.rs:397-429 | Without majority nothing happens; with it the pair is committed and, on success only, sent to every peer |
| ServerNode.Server.AddPeer | server-node/src/server.rs:296-315 | Refuses a known peer; otherwise registers it and sends it the lease table |
| ServerNode.Server.PeerEstablished | server-node/src/server.rs:168-173 | A new connection is registered and an election started; a duplicate changes nothing |
| ServerNode.Server.AnswerHandshake | server-node/src/server.rs:253-294 | A joined peer is registered; then, unless nothing was received, a coordinator holds a round |
| ServerNode.Server.RemovePeer | server-node/src/server.rs:317-331 | The peer is forgotten, a coordinator holds a round, and a node that lost its coordinator starts an election |
| Handlers.LostCoordinatorIsReplaced | server-node/src/server.rs:325-330 | A node that loses its coordinator waits, sets a timer, and sends an Election to exactly the higher remaining peers |
| Handlers.OtherLoss | server-node/src/server.rs:317-331 | Another loss changes only the connections, but that a coordinator holds a round among the remaining peers |
| Handlers.JoiningPeerIsTold | server-node/src/server.rs:266-293 | A joining peer is sent the lease table, and by a coordinator also its announcement and exactly one share, in a round with all peers |
| Handlers.FailedHandshake | server-node/src/server.rs:258-293 | If nothing was received nothing happens; if answering failed, a coordinator holds a round with the peers it has |
| Handlers.EstablishedPeer | server-node/src/server.rs:168-173 | A new connection is registered, sent the table, and followed by an election among all peers; a known one changes nothing |
| Handlers.RequestIsAnswered | server-node/src/server.rs:379-395 | Without majority there is no answer and no change; with it a request is refused exactly if the MAC has no lease and the pool is full, and else answered with an entry that the node then holds |
| Handlers.ConfirmationIsAnswered | server-node/src/server.rs:397-429 | The answer is yes exactly with majority and the pair pending or leased, no exactly with majority and neither, and missing exactly without majority |
| Handlers.GrantIsRecorded | server-node/src/server.rs:407-417 | What is granted is in the node's table and sent to every peer once; what is not granted changes nothing |
| Promises.OffersAreKept | server-node/src/server.rs:379-429 | The first confirmation of a client's offer, at the same node with majority, before a request there reads a clock past its expiry, is granted, whatever the cluster does meanwhile |
| Cluster.RejoinSends | server-node/src/server.rs:253-331 | At the lower node: losing a connection and answering it anew, if the node neither is nor loses the coordinator, changes nothing and sends the whole table |
| Cluster.TriggerSends | server-node/src/server.rs:168-173 | Meeting a new peer, by `PeerEstablished`, or losing the coordinator, by `RemovePeer`, makes a node wait, send Elections upwards and set a timer, after sending a new peer its whole table |
| Allocator.CursorStaysInPool | server-node/src/dhcp.rs:143-162 | Over every sequence of calls the cursor stays between start and end of the pool |
| Allocator.NoAddressTwice | server-node/src/dhcp.rs:175-243 | Over every sequence of discover, commit and set_pool, at any clock readings, no two entries share an address |
| Allocator.AddLeaseKeepsDistinctIff | server-node/src/dhcp.rs:164-173 | Recording a peer's lease keeps addresses distinct if and only if the pair is stored or nothing holds its address |
| Allocator.RunRefines | server-node/src/dhcp.rs:141-243 | Every run of the service gives the replies, and represents the bindings, of a run of an allocator that offers any address no unexpired binding holds, and refuses only if there is none |
| Allocator.CommitReplaces | server-node/src/dhcp.rs:219-243 | A commit replaces whatever was stored for the address by the confirmed lease, and keeps the rest |
| Allocator.CommitSucceedsIff | server-node/src/dhcp.rs:219-243 | A commit succeeds if and only if the pair is pending or leased; failing, it changes nothing |
| Allocator.NoOfferIff | server-node/src/dhcp.rs:175-217 | There is no offer if and only if the MAC has no stored lease and unexpired entries hold the whole pool |
| Allocator.OfferIsFirstFree | server-node/src/dhcp.rs:190-214 | A fresh offer is the first free pool address in cyclic order from the cursor, which moves just behind it |
| Allocator.ExpiredReplyIff | server-node/src/dhcp.rs:176-188 | The reply is an expired lease if and only if the first lease stored for the MAC has expired |
| Allocator.ExactExhaustion | server-node/src/dhcp.rs:190-216 | On a fresh service without expiry, the k-th fresh request gets start + k, and nothing once the pool is used up, with commits freely interleaved |
| Allocator.OfferIsHonoured | server-node/src/dhcp.rs:175-243 | A fresh offer can be committed after any calls made before it expires |
| Allocator.CommitIsRepeatable | server-node/src/dhcp.rs:219-243 | A commit can be repeated until it expires, and never shortens the lease |
| Allocator.SecondEntryIff | server-node/src/dhcp.rs:175-217 | A discover gives a MAC a second entry if and only if it has an unexpired unconfirmed offer and some pool address is free |
| Allocator.SecondLeaseIff | server-node/src/dhcp.rs:219-243 | A commit adds a confirmed lease to a MAC if and only if the pair was pending |
| Allocator.OfferConversionIff | server-node/src/dhcp.rs:25-37 | At any later clock reading, converting a fresh offer panics if and only if at least 2^32 seconds of it remain |
| Allocator.BoundedLeaseConverts | server-node/src/dhcp.rs:25-37 | A lease that expires within a fitting lease time converts, to at most that time |
| Allocator.OfferSecondsAreWhole | server-node/src/dhcp.rs:31-37 | The conversion gives s exactly if between s and s + 1 seconds remain and s fits 32 bits, and 0 for an expired lease |
| Allocator.FreshOfferSeconds | server-node/src/dhcp.rs:25-37 | An offer that is converted at once gives the configured lease time |
| Allocator.OfferAfterSetPool | server-node/src/dhcp.rs:159-162 | After a new pool the next fresh offer is its lowest free address |
| Allocator.RestoredService | server-node/src/dhcp.rs:143-152 | A service that starts with leases offers each of their MACs its first one, and others the lowest free address |
| Allocator.EarlierLeaseStaysFirst | server-node/src/dhcp.rs:164-188 | Recording and committing leases keep the first lease stored for a MAC, which requests repeat |
| Allocator.CallsLeaveAlone | server-node/src/dhcp.rs:159-243 | Recording and committing keep pool, cursor and lease time, recording keeps the offers, and setting a pool keeps all entries |
| Dhcp.Service.NewWithLeases | server-node/src/dhcp.rs:143-152 | A new service has the given leases, no offers, and its cursor at the pool's start |
| Dhcp.Service.SetPool | server-node/src/dhcp.rs:159-162 | Replaces the pool and moves the cursor to its start; entries stay |
| Dhcp.Service.AddLease | server-node/src/dhcp.rs:164-173 | Updates the expiry of the first lease with the pair, or else appends the lease |
| Dhcp.Service.DiscoverLease | server-node/src/dhcp.rs:175-217 | The reply and the new state of a request, from a loop that searches the rotated pool |
| Dhcp.Service.SearchFree | server-node/src/dhcp.rs:192-201 | The loop stops at the first candidate that neither list holds |
| Dhcp.Service.CommitLease | server-node/src/dhcp.rs:219-243 | The reply and the new state of a commit: pending first, then leased, else not found |
| Ipv4.RotationIsExact | server-node/src/dhcp.rs:92-97 | The rotated iterator yields every pool address once and nothing else if and only if the cursor is between start and end |
| Ipv4.FromCidrSucceeds | server-node/src/dhcp.rs:99-104 | The exact arguments for which from_cidr succeeds, in a debug build, where overflow panics, and in a release build, where it wraps |
| Ipv4.FromCidrIsBlock | server-node/src/dhcp.rs:99-104 | In either build, for an aligned base the pool is the block of section 3.1 of RFC 4632 without its last address |
| Ipv4.TopBlock | server-node/src/dhcp.rs:99-104 | The topmost block of every size panics in a debug build, and is served without its last address in a release build |
| Ipv4.Divide | server-node/src/dhcp.rs:106-120 | The loop yields consecutive equal parts, the last with the remainder, and never exceeds 32 bits |
| Ipv4.EqualDivisionUnique | server-node/src/dhcp.rs:106-120 | Only one list of ranges is such a division |
| Ipv4.DivisionIsPartition | server-node/src/dhcp.rs:106-120 | An address is in the range if and only if it is in some part, and never in two |
| ThreadPool.Inner.constructor | thread-pool/src/lib.rs:55-79 | A new pool has idle workers numbered from 0 to its size |
| ThreadPool.Inner.PartitionQuitWorkers | thread-pool/src/lib.rs:124-127 | Reorders the workers so that exactly those from the returned index on have quit |
| ThreadPool.Inner.SplitOffQuitWorkers | thread-pool/src/lib.rs:130-136 | Takes out exactly the workers that have quit |
| ThreadPool.Inner.SpawnMissing | thread-pool/src/lib.rs:138-150 | Adds new workers with consecutive, wrapping ids |
| ThreadPool.Inner.Respawn | thread-pool/src/lib.rs:129-153 | Joins exactly the quit workers, keeps the others, and fills up to the target size |
| ThreadPool.Inner.SetSize | thread-pool/src/lib.rs:155-179 | Queues one Quit for each worker too many, sets the size, respawns, and returns the difference |
| ThreadPool.Inner.Execute | thread-pool/src/lib.rs:81-112 | Respawns, then appends the job to the queue; in runs these are two steps, as they take two locks |
| PoolRuns.StepKeepsInvariant | thread-pool/src/lib.rs:124-216 | Every action keeps the sizing bound, the conservation of jobs, the match of panics with workers, and the distinctness of ids |
| PoolRuns.LiveWorkersAreBounded | thread-pool/src/lib.rs:155-179 | Over every run live workers are at most the target size plus the queued Quits |
| PoolShrink.ShrinkingIsExact | thread-pool/src/lib.rs:155-179 | In an open pool that only shrinks and whose jobs do not panic, live workers are exactly the target size and the queued Quits |
| PoolRuns.QueueIsInOrder | thread-pool/src/lib.rs:98-112 | Jobs and Quits are received in the order in which they were sent |
| PoolRuns.RespawnRestoresSize | thread-pool/src/lib.rs:129-153 | After a respawn all workers are live and at least the target size, exactly it if no Quit is queued |
| PoolRuns.EveryJobIsSomewhereOnce | thread-pool/src/lib.rs:98-112 | Every submitted job is exactly one of queued, running, finished and panicked, and jobs are taken in order |
| PoolRuns.WorkerIdsAreDistinct | thread-pool/src/lib.rs:140-150 | Worker ids are distinct until the counter has wrapped |
| PoolRuns.ClosedStepsGoDown | thread-pool/src/lib.rs:182-191 | After the sender is dropped every step lowers a measure, so dropping terminates if jobs return |
| PoolDrain.ClosedPoolCanGoOn | thread-pool/src/lib.rs:203-216 | A closed pool with a live worker can always take a step, with jobs panicking as they are doomed to |
| PoolDrain.DropRunsEveryJobOnce | thread-pool/src/lib.rs:182-216 | Never resized and with fewer panics than workers before the last job, a dropped pool has run every job once: the doomed ones have panicked and the others finished |
| PoolDrain.DrainsIff | thread-pool/src/lib.rs:182-216 | However it is dropped, a pool that is never resized runs all its jobs if and only if fewer jobs than workers panic before the last one |
| PoolDrain.StrandingRun | thread-pool/src/lib.rs:203-216 | Otherwise there is a run that drops the pool with jobs left in the queue |
| MacAddress.FromStr | protocol/src/lib.rs:48-70 | The loop returns the six octets, or the first bad field, or that there are too few or too many fields |
| MacAddress.ParseIsFunction | protocol/src/lib.rs:48-70 | These outcomes exclude each other, so every text has one result |
| MacAddress.ParseOctetMeaning | protocol/src/lib.rs:54 | An octet is accepted if and only if it is an optional plus sign and hexadecimal digits of value below 256, and then has that value |
| MacAddress.ParseOctetErrors | protocol/src/lib.rs:54 | A refused field is empty, or has a prefix of digits whose value is too large, or else is not a number |
| MacAddress.DigitsOfBothCases | protocol/src/lib.rs:54 | Upper-case and lower-case digits count for their place in the lists of digits, and printing uses the upper-case list |
| MacAddress.NoOtherDigits | protocol/src/lib.rs:54 | Nothing outside these lists is a digit |
| MacAddress.JoinSplit | protocol/src/lib.rs:50 | Joining the fields of a text with colons gives the text back, and no field has a colon |
| MacAddress.SplitJoin | protocol/src/lib.rs:50 | Splitting joined colon-free fields gives them back |
| MacAddress.Format | protocol/src/lib.rs:73-79 | The loop prints the six fields, two upper-case digits each, joined by colons |
| MacAddress.RoundTrip | protocol/src/lib.rs:45-80 | Parsing a printed address returns it |
| MacAddress.PrintingIsInjective | protocol/src/lib.rs:73-79 | Different addresses print differently |
| MacAddress.NormalForm | protocol/src/lib.rs:45-80 | Printing a parsed text gives it back if and only if every field is two upper-case hexadecimal digits |

## Left out

- TCP connections, CBOR encoding, the handshake's messages and the reader and writer threads of a peer: a pending event carries its authentic sender.
- Races in setting up connections, and messages of a peer that is not registered yet: `Election.NoPanic` is about a full mesh.
- Joins, losses and crashes during an election: in the election theorems membership is fixed, to what it is after the meeting or the loss that a `Trigger` stands for. `Membership` covers joins and losses for a single node.
- New pools within a run: uniqueness and convergence of pairs are about runs without pool changes, and `Epochs.NextEpoch` joins them.
- Loss of messages on a broken connection: `Rejoin` keeps what is pending. A coordinator that loses a connection, or a node that loses its coordinator, is in `Membership` only.
- Epochs.TablesConverge: it is about pairs only; expiries agree when `Settling.ExpiriesAgreeIff` says so.
- The time between a node's Coordinator message and its SetPool message, when it still allocates from its old pool: epochs start once pools are applied.
- Times are unbounded: the panic of `fresh_timestamp` at the end of representable time is not modelled.
- ServerNode.Server.HandleLeaseRequest: the reply channel's failure, which is only logged, and the constant subnet mask of the offer are not modelled; the same goes for confirmations.
- ServerNode.Server.AnswerHandshake: how reception went is an input, and the JoinAck written to the stream is not an event.
- ThreadPool.Inner.PartitionQuitWorkers: whether a worker has quit is one snapshot for the whole sort. The unstable sort may order equal keys in any way; the method computes one of these orders, and runs allow all.
- ThreadPool.Inner.SetSize: in a run the Quits of one call and the new size appear in one step, and its respawn in a later one; workers act before, between or after them.
- Failure to spawn a thread, poisoned locks, and the panic handler's action.
- Progress of jobs after resizes: Quits left in the queue may then outnumber the live workers.
- Client sessions, the command line client, console output, the display of ranges and servers, and configuration loading: only easy properties.
