/** The cluster: nodes that handle one event at a time, and the events on their way to them. */
module Cluster {
  import opened Wrappers
  import opened Ipv4
  import opened ServerNode
  import Dhcp

  /** `pending` is a bag: any of its events may be the next to arrive. */
  datatype Cluster = Cluster(nodes: map<Id, Node>, pending: seq<Event>)

  /** What happens in a step. `order` is the enumeration of the peer map that the step uses. */
  datatype Label =
    | Process(i: nat, order: seq<Id>)                 // pending event number i arrives
    | Repeat(i: nat)                                  // a pending Lease message arrives, and will again
    | Trigger(at: Id, order: seq<Id>, cause: Cause)   // a node starts an election
    | Rejoin(at: Id, peer: Id)                        // a higher peer's connection was lost and is answered anew
    | LeaseRequest(at: Id, mac: Dhcp.MacAddr, now: Dhcp.Time, stamp: Dhcp.Time)
    | ConfirmRequest(at: Id, mac: Dhcp.MacAddr, ip: Address, now: Dhcp.Time, order: seq<Id>)

  function Target(e: Event): Id {
    match e
    case ElectionTimeout(at) => at
    case PeerMessage(to, _, _) => to
  }

  /** Why a node starts an election: it has met its last peer, or lost a peer that was coordinator. */
  datatype Cause = Met(peer: Id) | LostCoordinator(peer: Id)

  /** The cluster's membership is what it is after the meeting or the loss. */
  predicate CanCause(n: Node, cause: Cause) {
    match cause
    case Met(p) => p in n.peers
    case LostCoordinator(p) =>
      p !in n.peers && p != n.config.id && n.coordinatorId == Some(p) && n.election != ElectionState.Coordinator
  }

  function Triggered(n: Node, order: seq<Id>, cause: Cause): Reaction {
    match cause
    case Met(p) => n.(peers := n.peers - {p}).PeerEstablished(p, order)
    case LostCoordinator(p) => n.(peers := n.peers + {p}).RemovePeer(p, order, order)
  }

  /** What a new peer is sent. */
  function Hello(n: Node, cause: Cause): seq<Event> {
    match cause
    case Met(p) => [PeerMessage(p, n.config.id, LeaseTable(n.dhcp.leases))]
    case LostCoordinator(_) => []
  }

  function Without(es: seq<Event>, i: nat): seq<Event>
    requires i < |es|
  {
    es[..i] + es[i + 1..]
  }

  ghost predicate Leads(c: Cluster, at: Id, r: Reaction, rest: seq<Event>, c': Cluster) {
    r.React? && c' == Cluster(c.nodes[at := r.node], rest + r.out)
  }

  ghost predicate Step(c: Cluster, l: Label, c': Cluster) {
    match l
    case Process(i, order) =>
      && i < |c.pending|
      && var e := c.pending[i];
         var at := Target(e);
         && at in c.nodes && IsOrder(order, c.nodes[at].peers)
         && Leads(c, at, c.nodes[at].HandleEvent(e, order), Without(c.pending, i), c')
    case Repeat(i) =>
      && i < |c.pending|
      && var e := c.pending[i];
         && e.PeerMessage? && e.message.Lease? && e.to in c.nodes
         && Leads(c, e.to, c.nodes[e.to].HandleEvent(e, []), c.pending, c')
    case Trigger(at, order, cause) =>
      && at in c.nodes && IsOrder(order, c.nodes[at].peers) && CanCause(c.nodes[at], cause)
      && Leads(c, at, Triggered(c.nodes[at], order, cause), c.pending, c')
    case Rejoin(at, peer) =>
      && at in c.nodes && peer in c.nodes[at].peers && at < peer
      && c.nodes[at].election != ElectionState.Coordinator && c.nodes[at].coordinatorId != Some(peer)
      && var lost := c.nodes[at].RemovePeer(peer, [], []);
         lost.React? && Leads(c, at, lost.node.AnswerHandshake(Joined(peer), []), c.pending + lost.out, c')
    case LeaseRequest(at, mac, now, stamp) =>
      && at in c.nodes
      && var r := c.nodes[at].HandleLeaseRequest(mac, now, stamp);
         c' == Cluster(c.nodes[at := r.node], c.pending + r.out)
    case ConfirmRequest(at, mac, ip, now, order) =>
      && at in c.nodes && IsOrder(order, c.nodes[at].peers)
      && var r := c.nodes[at].HandleConfirmRequest(mac, ip, now, order);
         c' == Cluster(c.nodes[at := r.node], c.pending + r.out)
  }

  /** A run visits `cs` and takes the steps `ls` between them. */
  ghost predicate IsRun(cs: seq<Cluster>, ls: seq<Label>) {
    |cs| == |ls| + 1 && forall i | 0 <= i < |ls| :: StepAt(cs, ls, i)
  }

  ghost predicate StepAt(cs: seq<Cluster>, ls: seq<Label>, i: nat)
    requires i < |ls| < |cs|
  {
    Step(cs[i], ls[i], cs[i + 1])
  }

  lemma RunStep(cs: seq<Cluster>, ls: seq<Label>, i: nat)
    requires IsRun(cs, ls) && i < |ls|
    ensures Step(cs[i], ls[i], cs[i + 1])
  {
    assert StepAt(cs, ls, i);
  }

  /** Induction over the states of a run. */
  lemma {:induction false} Throughout(cs: seq<Cluster>, m: nat, n: nat, holds: Cluster -> bool)
    requires m <= n < |cs| && holds(cs[m])
    requires forall i, next | m <= i < n && next == i + 1 && holds(cs[i]) :: holds(cs[next])
    ensures holds(cs[n])
  {
    if m < n { Throughout(cs, m, n - 1, holds); }
  }

  /** Fixed membership: every node is connected to all others. */
  ghost predicate FullMesh(c: Cluster) {
    && |c.nodes.Keys| < TWO_TO_32
    && forall p | p in c.nodes :: c.nodes[p].config.id == p && c.nodes[p].peers == c.nodes.Keys - {p}
  }

  // ---------------------------------------------------------------- bags and sends

  lemma WithoutMembers(es: seq<Event>, i: nat)
    requires i < |es|
    ensures forall e | e in es && e != es[i] :: e in Without(es, i)
    ensures forall e | e in Without(es, i) :: e in es
  {
    forall e | e in es && e != es[i] ensures e in Without(es, i) {
      var j :| 0 <= j < |es| && es[j] == e;
      assert Without(es, i)[if j < i then j else j - 1] == e;
    }
  }

  lemma {:induction false} ElectionsSent(me: Id, order: seq<Id>)
    ensures forall e | e in Elections(me, order) ::
              e.PeerMessage? && e.sender == me && e.to in order && e.to > me && e.message == Election
    ensures forall p | p in order && p > me :: PeerMessage(p, me, Election) in Elections(me, order)
  {
    if order != [] {
      ElectionsSent(me, order[..|order| - 1]);
      assert order == order[..|order| - 1] + [order[|order| - 1]];
    }
  }

  lemma {:induction false} BroadcastSent(me: Id, order: seq<Id>, m: Message)
    ensures forall e | e in Broadcast(me, order, m) :: e.PeerMessage? && e == PeerMessage(e.to, me, m) && e.to in order
    ensures forall p | p in order :: PeerMessage(p, me, m) in Broadcast(me, order, m)
  {
    if order != [] {
      BroadcastSent(me, order[..|order| - 1], m);
      assert order == order[..|order| - 1] + [order[|order| - 1]];
    }
  }

  lemma {:induction false} AssignmentsSent(me: Id, order: seq<Id>, pools: seq<Ipv4Range>)
    requires |pools| > |order|
    ensures |Assignments(me, order, pools)| == |order|
    ensures forall i | 0 <= i < |order| :: Assignments(me, order, pools)[i] == PeerMessage(order[i], me, SetPool(pools[i + 1]))
    ensures forall e | e in Assignments(me, order, pools) ::
              e.PeerMessage? && e.sender == me && e.to in order && e.message.SetPool?
  {
    if order != [] {
      AssignmentsSent(me, order[..|order| - 1], pools);
      assert order == order[..|order| - 1] + [order[|order| - 1]];
    }
  }

  lemma {:induction false} SentCounts(me: Id, order: seq<Id>, m: Message, pools: seq<Ipv4Range>)
    requires |pools| > |order|
    ensures |Broadcast(me, order, m)| == |Assignments(me, order, pools)| == |order|
  {
    if order != [] { SentCounts(me, order[..|order| - 1], m, pools); }
  }

  /** A round announces its coordinator to every peer and assigns pools, and sends nothing else. */
  lemma RoundSent(n: Node, order: seq<Id>)
    requires n.BecomeCoordinator(order).React?
    ensures var out := n.BecomeCoordinator(order).out; var m := Message.Coordinator(HasMajority(|n.peers| + 1, |n.config.peers|));
            && (forall e | e in out :: e.PeerMessage? && e.sender == n.config.id && e.to in order && (e.message == m || e.message.SetPool?))
            && (forall p | p in order :: PeerMessage(p, n.config.id, m) in out)
  {
    BroadcastSent(n.config.id, order, Message.Coordinator(HasMajority(|n.peers| + 1, |n.config.peers|)));
    AssignmentsSent(n.config.id, order, Divided(n.config.dhcpPool, |n.peers| + 1));
  }

  /** A confirmed lease is broadcast, and nothing else is sent or changed outside the allocator. */
  lemma ConfirmSends(n: Node, mac: Dhcp.MacAddr, ip: Address, now: Dhcp.Time, order: seq<Id>) returns (m: Message)
    ensures var r := n.HandleConfirmRequest(mac, ip, now, order);
            && m.Lease? && r.node == n.(dhcp := r.node.dhcp)
            && (if n.majority && n.dhcp.Commit(mac, ip, now).result.Success?
                then m.lease == n.dhcp.Commit(mac, ip, now).result.value && r.out == Broadcast(n.config.id, order, m)
                else r.out == [])
  {
    var commit := n.dhcp.Commit(mac, ip, now);
    if commit.result.Success? { return Message.Lease(commit.result.value); }
    return Message.Lease(Dhcp.Lease(mac, ip, now));
  }

  /** A trigger makes the node wait, and sends its table to a new peer, Elections upwards, and a timer. */
  lemma TriggerSends(n: Node, order: seq<Id>, cause: Cause)
    requires CanCause(n, cause)
    ensures Triggered(n, order, cause) ==
            React(n.(election := WaitingForElection), Hello(n, cause) + (Elections(n.config.id, order) + [ElectionTimeout(n.config.id)]))
  {
    match cause
    case Met(p) => assert (n.peers - {p}) + {p} == n.peers;
    case LostCoordinator(p) => assert (n.peers + {p}) - {p} == n.peers;
  }

  /** A node that is not the coordinator, nor loses it, takes its peer back and sends it its table. */
  lemma RejoinSends(c: Cluster, at: Id, peer: Id, c': Cluster)
    requires Step(c, Rejoin(at, peer), c')
    ensures at in c.nodes && peer in c.nodes[at].peers
    ensures c' == Cluster(c.nodes, c.pending + [PeerMessage(peer, c.nodes[at].config.id, LeaseTable(c.nodes[at].dhcp.leases))])
  {
    var n := c.nodes[at];
    assert (n.peers - {peer}) + {peer} == n.peers;
    assert c.pending + [] == c.pending;
    assert c.nodes[at := n] == c.nodes;
  }

  /** No step changes a node's configuration or its connections. */
  lemma StepKeepsConnections(c: Cluster, l: Label, c': Cluster)
    requires Step(c, l, c')
    ensures c'.nodes.Keys == c.nodes.Keys
    ensures forall p | p in c.nodes :: c'.nodes[p].config == c.nodes[p].config && c'.nodes[p].peers == c.nodes[p].peers
  {
    match l
    case Process(i, order) => EventKeepsConnections(c.nodes[Target(c.pending[i])], c.pending[i], order);
    case Repeat(i) => EventKeepsConnections(c.nodes[Target(c.pending[i])], c.pending[i], []);
    case Trigger(at, order, cause) => TriggerSends(c.nodes[at], order, cause);
    case Rejoin(at, peer) => RejoinSends(c, at, peer, c');
    case LeaseRequest(at, mac, now, stamp) =>
    case ConfirmRequest(at, mac, ip, now, order) =>
      var m := ConfirmSends(c.nodes[at], mac, ip, now, order);
  }

  lemma EventKeepsConnections(n: Node, e: Event, order: seq<Id>)
    ensures var r := n.HandleEvent(e, order); r.React? ==> r.node.config == n.config && r.node.peers == n.peers
  {
  }
}
