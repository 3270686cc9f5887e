/** The bully election in a full mesh: it terminates, and it elects the highest id. */
module Election {
  import opened Wrappers
  import opened Ipv4
  import opened ServerNode
  import opened Cluster
  import Dhcp

  predicate IsElectionEvent(e: Event) {
    match e
    case ElectionTimeout(_) => true
    case PeerMessage(_, _, m) => m.Election? || m.Okay? || m.Coordinator?
  }

  ghost predicate AtRest(c: Cluster) {
    forall e | e in c.pending :: !IsElectionEvent(e)
  }

  // ---------------------------------------------------------------- well-formed states

  /** Elections travel upwards only, and Okays downwards only. */
  ghost predicate WellAddressed(ids: set<Id>, e: Event) {
    match e
    case ElectionTimeout(at) => at in ids
    case PeerMessage(to, sender, m) =>
      && to in ids && sender in ids && to != sender
      && (m.Election? ==> sender < to)
      && (m.Okay? ==> sender > to)
  }

  ghost predicate WaitersHaveTimers(c: Cluster) {
    forall p | p in c.nodes && c.nodes[p].election == WaitingForElection :: ElectionTimeout(p) in c.pending
  }

  ghost predicate WellFormed(c: Cluster) {
    && FullMesh(c)
    && (forall e | e in c.pending :: WellAddressed(c.nodes.Keys, e))
    && WaitersHaveTimers(c)
  }

  /** In a well-formed cluster no pending event makes its node panic: neither the assertion on the
      sender of an Okay nor the expectation that the sender of an Election is a peer can fail. */
  lemma NoPanic(c: Cluster, i: nat, order: seq<Id>)
    requires WellFormed(c) && i < |c.pending|
    requires var at := Target(c.pending[i]); at in c.nodes ==> IsOrder(order, c.nodes[at].peers)
    ensures Target(c.pending[i]) in c.nodes
    ensures c.nodes[Target(c.pending[i])].HandleEvent(c.pending[i], order).React?
  {
    var e := c.pending[i];
    assert e in c.pending && WellAddressed(c.nodes.Keys, e);
    var n := c.nodes[Target(e)];
    assert n.peers < c.nodes.Keys;
    CardinalityOfSubset(n.peers, c.nodes.Keys, n.config.id);
  }

  lemma CardinalityOfSubset(a: set<Id>, b: set<Id>, x: Id)
    requires a == b - {x} && x in b
    ensures |a| + 1 == |b|
  {
  }

  /** Everything a reaction sends is well addressed, and a waiting node has set its timer. */
  ghost predicate GoodReaction(ids: set<Id>, n: Node, r: Reaction)
    requires r.React?
  {
    && r.node.config == n.config && r.node.peers == n.peers
    && (forall e | e in r.out :: WellAddressed(ids, e))
    && (r.node.election == WaitingForElection ==>
          n.election == WaitingForElection || ElectionTimeout(n.config.id) in r.out)
  }

  ghost predicate MeshNode(ids: set<Id>, n: Node) {
    n.config.id in ids && n.peers == ids - {n.config.id}
  }

  lemma StartElectionIsGood(ids: set<Id>, n: Node, order: seq<Id>)
    requires MeshNode(ids, n) && IsOrder(order, n.peers)
    ensures GoodReaction(ids, n, n.StartElection(order))
    ensures n.StartElection(order).node.election == WaitingForElection
  {
    ElectionsSent(n.config.id, order);
  }

  lemma TriggeredIsGood(ids: set<Id>, n: Node, order: seq<Id>, cause: Cause)
    requires MeshNode(ids, n) && IsOrder(order, n.peers) && CanCause(n, cause)
    ensures Triggered(n, order, cause).React? && GoodReaction(ids, n, Triggered(n, order, cause))
    ensures Triggered(n, order, cause).node.election == WaitingForElection
  {
    TriggerSends(n, order, cause);
    StartElectionIsGood(ids, n, order);
  }

  lemma BecomeCoordinatorIsGood(ids: set<Id>, n: Node, order: seq<Id>)
    requires MeshNode(ids, n) && IsOrder(order, n.peers) && n.BecomeCoordinator(order).React?
    ensures GoodReaction(ids, n, n.BecomeCoordinator(order))
  {
    RoundSent(n, order);
  }

  lemma EventIsGood(ids: set<Id>, n: Node, e: Event, order: seq<Id>)
    requires MeshNode(ids, n) && IsOrder(order, n.peers) && WellAddressed(ids, e)
    requires n.HandleEvent(e, order).React?
    ensures GoodReaction(ids, n, n.HandleEvent(e, order))
    ensures e == ElectionTimeout(n.config.id) ==> n.HandleEvent(e, order).node.election != WaitingForElection
  {
    match e
    case ElectionTimeout(_) =>
      if n.election == WaitingForElection { BecomeCoordinatorIsGood(ids, n, order); }
    case PeerMessage(_, sender, m) =>
      StartElectionIsGood(ids, n, order);
      var heard := n.(coordinatorId := Some(sender), election := Follower, majority := m.Coordinator? && m.majority);
      StartElectionIsGood(ids, heard, order);
  }

  /** A step that leaves the election alone: roles and known coordinators stay, election events
      stay pending, and no new ones appear. */
  ghost predicate Calm(c: Cluster, c': Cluster) {
    && c'.nodes.Keys == c.nodes.Keys
    && (forall p | p in c.nodes ::
          && c'.nodes[p].config == c.nodes[p].config && c'.nodes[p].peers == c.nodes[p].peers
          && c'.nodes[p].election == c.nodes[p].election && c'.nodes[p].coordinatorId == c.nodes[p].coordinatorId)
    && (forall e | e in c.pending && IsElectionEvent(e) :: e in c'.pending)
    && (forall e | e in c'.pending && IsElectionEvent(e) :: e in c.pending)
    && (forall e | e in c'.pending :: WellAddressed(c.nodes.Keys, e))
    && Rank(c.nodes.Keys, c'.pending) == Rank(c.nodes.Keys, c.pending)
  }

  predicate IsElectionStep(c: Cluster, l: Label) {
    l.Process? && l.i < |c.pending| && IsElectionEvent(c.pending[l.i])
  }

  /** A node whose election fields stay the same, and which sends no election events. */
  ghost predicate CalmReaction(ids: set<Id>, n: Node, n': Node, out: seq<Event>) {
    && n'.config == n.config && n'.peers == n.peers
    && n'.election == n.election && n'.coordinatorId == n.coordinatorId
    && (forall e | e in out :: !IsElectionEvent(e) && WellAddressed(ids, e))
    && Rank(ids, out) == 0
  }

  lemma CalmReactionIsCalm(c: Cluster, at: Id, n': Node, rest: seq<Event>, out: seq<Event>, c': Cluster)
    requires at in c.nodes && c' == Cluster(c.nodes[at := n'], rest + out)
    requires CalmReaction(c.nodes.Keys, c.nodes[at], n', out)
    requires forall e | e in c.pending :: WellAddressed(c.nodes.Keys, e)
    requires forall e | e in rest :: e in c.pending
    requires forall e | e in c.pending && IsElectionEvent(e) :: e in rest
    requires Rank(c.nodes.Keys, rest) == Rank(c.nodes.Keys, c.pending)
    ensures Calm(c, c')
  {
    assert c'.nodes.Keys == c.nodes.Keys;
    RankConcat(c.nodes.Keys, rest, out);
  }

  lemma OtherEventIsCalm(ids: set<Id>, n: Node, e: Event, order: seq<Id>)
    requires !IsElectionEvent(e)
    ensures var r := n.HandleEvent(e, order); r.React? && CalmReaction(ids, n, r.node, r.out)
  {
  }

  lemma DeliveryIsCalm(c: Cluster, i: nat, order: seq<Id>, rest: seq<Event>, c': Cluster)
    requires WellFormed(c) && i < |c.pending| && !IsElectionEvent(c.pending[i]) && Target(c.pending[i]) in c.nodes
    requires rest == c.pending || rest == Without(c.pending, i)
    requires var at := Target(c.pending[i]); Leads(c, at, c.nodes[at].HandleEvent(c.pending[i], order), rest, c')
    ensures Calm(c, c')
  {
    var at := Target(c.pending[i]);
    var r := c.nodes[at].HandleEvent(c.pending[i], order);
    WithoutMembers(c.pending, i);
    RankWithout(c.nodes.Keys, c.pending, i);
    OtherEventIsCalm(c.nodes.Keys, c.nodes[at], c.pending[i], order);
    CalmReactionIsCalm(c, at, r.node, rest, r.out, c');
  }

  lemma ConfirmIsCalm(ids: set<Id>, n: Node, mac: Dhcp.MacAddr, ip: Address, now: Dhcp.Time, order: seq<Id>)
    requires MeshNode(ids, n) && IsOrder(order, n.peers)
    ensures var r := n.HandleConfirmRequest(mac, ip, now, order); CalmReaction(ids, n, r.node, r.out)
  {
    var m := ConfirmSends(n, mac, ip, now, order);
    BroadcastSent(n.config.id, order, m);
    RankBroadcast(ids, n.config.id, order, m);
  }

  lemma CalmSteps(c: Cluster, l: Label, c': Cluster)
    requires WellFormed(c) && Step(c, l, c') && !l.Trigger? && !IsElectionStep(c, l)
    ensures Calm(c, c')
  {
    match l
    case Process(i, order) => DeliveryIsCalm(c, i, order, Without(c.pending, i), c');
    case Repeat(i) => DeliveryIsCalm(c, i, [], c.pending, c');
    case Rejoin(at, peer) =>
      RejoinSends(c, at, peer, c');
      var sent := PeerMessage(peer, at, LeaseTable(c.nodes[at].dhcp.leases));
      RankOne(c.nodes.Keys, sent);
      assert c.nodes[at := c.nodes[at]] == c.nodes;
      CalmReactionIsCalm(c, at, c.nodes[at], c.pending, [sent], c');
    case LeaseRequest(at, mac, now, stamp) =>
      CalmReactionIsCalm(c, at, c.nodes[at].HandleLeaseRequest(mac, now, stamp).node, c.pending, [], c');
    case ConfirmRequest(at, mac, ip, now, order) =>
      var r := c.nodes[at].HandleConfirmRequest(mac, ip, now, order);
      ConfirmIsCalm(c.nodes.Keys, c.nodes[at], mac, ip, now, order);
      CalmReactionIsCalm(c, at, r.node, c.pending, r.out, c');
  }

  /** Every step keeps the cluster well-formed. */
  lemma StepKeepsWellFormed(c: Cluster, l: Label, c': Cluster)
    requires WellFormed(c) && Step(c, l, c')
    ensures WellFormed(c') && c'.nodes.Keys == c.nodes.Keys
  {
    if l.Trigger? {
      TriggeredIsGood(c.nodes.Keys, c.nodes[l.at], l.order, l.cause);
      GoodReactionKeepsWellFormed(c, l.at, Triggered(c.nodes[l.at], l.order, l.cause), c.pending, PeerMessage(l.at, l.at, Heartbeat), c');
    } else if IsElectionStep(c, l) {
      var e := c.pending[l.i];
      assert e in c.pending;
      EventIsGood(c.nodes.Keys, c.nodes[Target(e)], e, l.order);
      WithoutMembers(c.pending, l.i);
      GoodReactionKeepsWellFormed(c, Target(e), c.nodes[Target(e)].HandleEvent(e, l.order), Without(c.pending, l.i), e, c');
    } else {
      CalmSteps(c, l, c');
      CalmKeepsWellFormed(c, c');
    }
  }

  lemma CalmKeepsWellFormed(c: Cluster, c': Cluster)
    requires WellFormed(c) && Calm(c, c')
    ensures WellFormed(c')
  {
    forall p | p in c'.nodes && c'.nodes[p].election == WaitingForElection ensures ElectionTimeout(p) in c'.pending {
      assert ElectionTimeout(p) in c.pending && IsElectionEvent(ElectionTimeout(p));
    }
  }

  /** `gone` is the only event that may leave the bag; if it is a timer, its node stops waiting. */
  lemma GoodReactionKeepsWellFormed(c: Cluster, at: Id, r: Reaction, rest: seq<Event>, gone: Event, c': Cluster)
    requires WellFormed(c) && at in c.nodes && r.React?
    requires GoodReaction(c.nodes.Keys, c.nodes[at], r) && Leads(c, at, r, rest, c')
    requires forall e | e in rest :: e in c.pending
    requires forall e | e in c.pending && e != gone :: e in rest
    requires gone.ElectionTimeout? ==> gone.at == at && r.node.election != WaitingForElection
    ensures WellFormed(c') && c'.nodes.Keys == c.nodes.Keys
  {
    assert c'.nodes.Keys == c.nodes.Keys;
    forall p | p in c'.nodes && c'.nodes[p].election == WaitingForElection ensures ElectionTimeout(p) in c'.pending {
      if p != at || c.nodes[p].election == WaitingForElection { assert ElectionTimeout(p) in c.pending; }
    }
  }

  // ---------------------------------------------------------------- the rank of a state

  function Higher(ids: set<Id>, p: Id): set<Id> {
    set q | q in ids && q > p
  }

  /** The most election events that one election started below `k` higher ids, in a cluster of
      `n` nodes, can still cause. */
  function Cost(n: nat, k: nat): nat {
    if k == 0 then n else 3 * Cost(n, k - 1) + 2
  }

  function Pow3(k: nat): nat {
    if k == 0 then 1 else 3 * Pow3(k - 1)
  }

  lemma {:induction false} CostClosedForm(n: nat, k: nat)
    ensures Cost(n, k) == (n + 1) * Pow3(k) - 1
  {
    if k > 0 { CostClosedForm(n, k - 1); }
  }

  /** The costs of elections at each of `k` higher ids, `extra` added to each. */
  function CostsBelow(n: nat, k: nat, extra: nat): nat {
    if k == 0 then 0 else CostsBelow(n, k - 1, extra) + Cost(n, k - 1) + extra
  }

  lemma {:induction false} CostDecomposes(n: nat, k: nat)
    ensures Cost(n, k) == CostsBelow(n, k, 2) + n + CostsBelow(n, k, 0)
  {
    if k > 0 { CostDecomposes(n, k - 1); }
  }

  function CostAt(ids: set<Id>, p: Id): nat {
    Cost(|ids|, |Higher(ids, p)|)
  }

  /** A timer may make its node announce itself to every other node; an Election makes its target
      answer and start an election; a Coordinator from below makes it start one. */
  function Weight(ids: set<Id>, e: Event): nat {
    match e
    case ElectionTimeout(at) => |ids| + CostsBelow(|ids|, |Higher(ids, at)|, 0)
    case PeerMessage(to, sender, m) =>
      match m
      case Election => 2 + CostAt(ids, to)
      case Okay => 1
      case Coordinator(_) => if sender > to then 1 else 1 + CostAt(ids, to)
      case _ => 0
  }

  function Rank(ids: set<Id>, es: seq<Event>): nat {
    if es == [] then 0 else Rank(ids, es[..|es| - 1]) + Weight(ids, es[|es| - 1])
  }

  lemma {:induction false} RankConcat(ids: set<Id>, a: seq<Event>, b: seq<Event>)
    ensures Rank(ids, a + b) == Rank(ids, a) + Rank(ids, b)
  {
    if b == [] {
      assert a + b == a;
    } else {
      RankConcat(ids, a, b[..|b| - 1]);
      assert (a + b)[..|a + b| - 1] == a + b[..|b| - 1];
    }
  }

  lemma RankWithout(ids: set<Id>, es: seq<Event>, i: nat)
    requires i < |es|
    ensures Rank(ids, es) == Rank(ids, Without(es, i)) + Weight(ids, es[i])
  {
    RankConcat(ids, es[..i], es[i..]);
    RankConcat(ids, [es[i]], es[i + 1..]);
    RankConcat(ids, es[..i], es[i + 1..]);
    assert es == es[..i] + es[i..] && es[i..] == [es[i]] + es[i + 1..];
    RankOne(ids, es[i]);
  }

  lemma RankOne(ids: set<Id>, e: Event)
    ensures Rank(ids, [e]) == Weight(ids, e)
  {
    assert [e][..0] == [];
  }

  // What a node sends costs, at each higher peer, the cost of an election there plus `extra`.

  function HigherCosts(ids: set<Id>, me: Id, order: seq<Id>, extra: nat): nat {
    if order == [] then 0
    else
      var last := order[|order| - 1];
      HigherCosts(ids, me, order[..|order| - 1], extra) + if last > me then CostAt(ids, last) + extra else 0
  }

  lemma {:induction false} RankElections(ids: set<Id>, me: Id, order: seq<Id>)
    ensures Rank(ids, Elections(me, order)) == HigherCosts(ids, me, order, 2)
  {
    if order != [] {
      var last := order[|order| - 1];
      RankElections(ids, me, order[..|order| - 1]);
      RankConcat(ids, Elections(me, order[..|order| - 1]), if last > me then [PeerMessage(last, me, Election)] else []);
      RankOne(ids, PeerMessage(last, me, Election));
    }
  }

  lemma {:induction false} RankBroadcast(ids: set<Id>, me: Id, order: seq<Id>, m: Message)
    requires m.Coordinator? ==> me !in order
    ensures m.Coordinator? ==> Rank(ids, Broadcast(me, order, m)) == |order| + HigherCosts(ids, me, order, 0)
    ensures m.Lease? ==> Rank(ids, Broadcast(me, order, m)) == 0
  {
    if order != [] {
      var front, last := order[..|order| - 1], order[|order| - 1];
      assert me in front ==> me in order;
      RankBroadcast(ids, me, front, m);
      RankConcat(ids, Broadcast(me, front, m), [PeerMessage(last, me, m)]);
      RankOne(ids, PeerMessage(last, me, m));
    }
  }

  lemma {:induction false} RankAssignments(ids: set<Id>, me: Id, order: seq<Id>, pools: seq<Ipv4Range>)
    requires |pools| > |order|
    ensures Rank(ids, Assignments(me, order, pools)) == 0
  {
    if order != [] {
      var n := |order| - 1;
      RankAssignments(ids, me, order[..n], pools);
      RankConcat(ids, Assignments(me, order[..n], pools), [PeerMessage(order[n], me, SetPool(pools[n + 1]))]);
      RankOne(ids, PeerMessage(order[n], me, SetPool(pools[n + 1])));
    }
  }

  lemma {:induction false} Least(s: set<Id>) returns (m: Id)
    requires s != {}
    ensures m in s && forall q | q in s :: m <= q
  {
    m :| m in s;
    var others := s - {m};
    assert s == others + {m};
    if others != {} {
      var rest := Least(others);
      if rest < m { m := rest; }
    }
  }

  /** Of distinct peers, only the successor `next` of `me` is above `me` but not above `next`. */
  lemma {:induction false} SplitOffSuccessor(ids: set<Id>, me: Id, next: Id, order: seq<Id>, extra: nat)
    requires me < next && forall q | q in order :: q in ids && (q > me ==> q >= next)
    requires forall i, j | 0 <= i < j < |order| :: order[i] != order[j]
    ensures HigherCosts(ids, me, order, extra) ==
            HigherCosts(ids, next, order, extra) + if next in order then CostAt(ids, next) + extra else 0
  {
    if order != [] {
      var front, last := order[..|order| - 1], order[|order| - 1];
      assert last in order && forall q | q in front :: q in order;
      assert next in order <==> next in front || next == last;
      SplitOffSuccessor(ids, me, next, front, extra);
    }
  }

  lemma {:induction false} NoneHigher(ids: set<Id>, me: Id, order: seq<Id>, extra: nat)
    requires forall q | q in order :: q <= me
    ensures HigherCosts(ids, me, order, extra) == 0
  {
    if order != [] {
      var front, last := order[..|order| - 1], order[|order| - 1];
      assert last in order;
      assert forall q | q in front :: q in order;
      NoneHigher(ids, me, front, extra);
    }
  }

  lemma {:induction false} HigherCostsBound(ids: set<Id>, me: Id, order: seq<Id>, extra: nat)
    requires forall q | q in order :: q in ids
    requires forall i, j | 0 <= i < j < |order| :: order[i] != order[j]
    ensures HigherCosts(ids, me, order, extra) <= CostsBelow(|ids|, |Higher(ids, me)|, extra)
    decreases |Higher(ids, me)|
  {
    var above := Higher(ids, me);
    if above == {} {
      assert forall q | q in order :: q in ids && q !in above;
      NoneHigher(ids, me, order, extra);
    } else {
      var next := Least(above);
      assert above == Higher(ids, next) + {next};
      forall q | q in order && q > me ensures q >= next { assert q in above; }
      SplitOffSuccessor(ids, me, next, order, extra);
      HigherCostsBound(ids, next, order, extra);
    }
  }

  lemma OrderLeavesOut(ids: set<Id>, me: Id, order: seq<Id>)
    requires me in ids && IsOrder(order, ids - {me})
    ensures |order| == |ids| - 1 && me !in order && forall q | q in order :: q in ids
  {
    CardinalityOfSubset(ids - {me}, ids, me);
  }

  lemma StartElectionRank(ids: set<Id>, n: Node, order: seq<Id>)
    requires MeshNode(ids, n) && IsOrder(order, n.peers)
    ensures Rank(ids, n.StartElection(order).out) <= CostAt(ids, n.config.id)
  {
    var me := n.config.id;
    OrderLeavesOut(ids, me, order);
    RankConcat(ids, Elections(me, order), [ElectionTimeout(me)]);
    RankOne(ids, ElectionTimeout(me));
    RankElections(ids, me, order);
    HigherCostsBound(ids, me, order, 2);
    CostDecomposes(|ids|, |Higher(ids, me)|);
  }

  lemma TriggeredRank(ids: set<Id>, n: Node, order: seq<Id>, cause: Cause)
    requires MeshNode(ids, n) && IsOrder(order, n.peers) && CanCause(n, cause)
    ensures Triggered(n, order, cause).React? && Rank(ids, Triggered(n, order, cause).out) <= CostAt(ids, n.config.id)
  {
    TriggerSends(n, order, cause);
    StartElectionRank(ids, n, order);
    RankConcat(ids, Hello(n, cause), n.StartElection(order).out);
    if cause.Met? { RankOne(ids, Hello(n, cause)[0]); }
  }

  lemma BecomeCoordinatorRank(ids: set<Id>, n: Node, order: seq<Id>)
    requires MeshNode(ids, n) && IsOrder(order, n.peers) && n.BecomeCoordinator(order).React?
    ensures Rank(ids, n.BecomeCoordinator(order).out) < Weight(ids, ElectionTimeout(n.config.id))
  {
    var me := n.config.id;
    var m := Message.Coordinator(HasMajority(|n.peers| + 1, |n.config.peers|));
    var pools := Divided(n.config.dhcpPool, |n.peers| + 1);
    OrderLeavesOut(ids, me, order);
    RankConcat(ids, Broadcast(me, order, m), Assignments(me, order, pools));
    RankBroadcast(ids, me, order, m);
    RankAssignments(ids, me, order, pools);
    HigherCostsBound(ids, me, order, 0);
  }

  /** Handling an election event sends strictly less than the event itself weighs. */
  lemma EventRank(ids: set<Id>, n: Node, e: Event, order: seq<Id>)
    requires MeshNode(ids, n) && IsOrder(order, n.peers) && WellAddressed(ids, e)
    requires IsElectionEvent(e) && Target(e) == n.config.id && n.HandleEvent(e, order).React?
    ensures Rank(ids, n.HandleEvent(e, order).out) < Weight(ids, e)
  {
    match e
    case ElectionTimeout(_) =>
      if n.election == WaitingForElection { BecomeCoordinatorRank(ids, n, order); }
    case PeerMessage(_, sender, m) =>
      match m
      case Election =>
        StartElectionRank(ids, n, order);
        var okay := PeerMessage(sender, n.config.id, Okay);
        RankConcat(ids, [okay], n.StartElection(order).out);
        RankOne(ids, okay);
      case Coordinator(theirs) =>
        var heard := n.(coordinatorId := Some(sender), election := Follower, majority := theirs);
        if sender < n.config.id { StartElectionRank(ids, heard, order); }
      case _ =>
  }

  /** Every step that handles an election event lowers the rank; a new trigger raises it by at
      most the cost of one election; nothing else changes it. */
  lemma StepRank(c: Cluster, l: Label, c': Cluster)
    requires WellFormed(c) && Step(c, l, c')
    ensures var ids := c.nodes.Keys; var r, r' := Rank(ids, c.pending), Rank(ids, c'.pending);
            if IsElectionStep(c, l) then r' < r
            else if l.Trigger? then r' <= r + CostAt(ids, l.at)
            else r' == r
  {
    var ids := c.nodes.Keys;
    if IsElectionStep(c, l) {
      var e := c.pending[l.i];
      assert e in c.pending;
      var n := c.nodes[Target(e)];
      EventRank(ids, n, e, l.order);
      RankWithout(ids, c.pending, l.i);
      RankConcat(ids, Without(c.pending, l.i), n.HandleEvent(e, l.order).out);
    } else if l.Trigger? {
      TriggeredRank(ids, c.nodes[l.at], l.order, l.cause);
      RankConcat(ids, c.pending, Triggered(c.nodes[l.at], l.order, l.cause).out);
    } else {
      CalmSteps(c, l, c');
    }
  }

  // ---------------------------------------------------------------- the highest id wins

  ghost predicate IsTop(ids: set<Id>, top: Id) {
    top in ids && forall p | p in ids :: p <= top
  }

  /** Something is on its way that will make the top node start an election. */
  ghost predicate TopIsChallenged(c: Cluster, top: Id) {
    exists e | e in c.pending :: e.PeerMessage? && e.to == top && (e.message.Election? || e.message.Coordinator?)
  }

  ghost predicate Announced(c: Cluster, top: Id, p: Id) {
    PeerMessage(p, top, Message.Coordinator(true)) in c.pending || PeerMessage(p, top, Message.Coordinator(false)) in c.pending
  }

  /** A follower that knows some higher node as its coordinator. */
  ghost predicate Settled(c: Cluster, p: Id)
    requires p in c.nodes
  {
    && c.nodes[p].election == Follower && c.nodes[p].coordinatorId.Some?
    && c.nodes[p].coordinatorId.value in c.nodes && c.nodes[p].coordinatorId.value > p
  }

  ghost predicate TopRules(c: Cluster, top: Id)
    requires top in c.nodes
  {
    && c.nodes[top].election == ElectionState.Coordinator && c.nodes[top].coordinatorId == Some(top)
    && forall p | p in c.nodes && p != top :: Settled(c, p) || Announced(c, top, p)
  }

  /** The election is in progress or decided. */
  ghost predicate Decided(c: Cluster, top: Id)
    requires top in c.nodes
  {
    TopIsChallenged(c, top) || c.nodes[top].election == WaitingForElection || TopRules(c, top)
  }

  lemma StartElectionChallengesTop(c: Cluster, at: Id, n: Node, order: seq<Id>, top: Id)
    requires IsTop(c.nodes.Keys, top) && at in c.nodes && at != top
    requires n.config.id == at && IsOrder(order, c.nodes.Keys - {at})
    ensures PeerMessage(top, at, Election) in n.StartElection(order).out
  {
    ElectionsSent(at, order);
    assert top in order;
  }

  lemma CalmKeepsDecided(c: Cluster, c': Cluster, top: Id)
    requires top in c.nodes && Calm(c, c') && Decided(c, top)
    ensures Decided(c', top)
  {
    if TopIsChallenged(c, top) {
      var e :| e in c.pending && e.PeerMessage? && e.to == top && (e.message.Election? || e.message.Coordinator?);
      assert IsElectionEvent(e) && e in c'.pending;
    } else if TopRules(c, top) {
      forall p | p in c'.nodes && p != top ensures Settled(c', p) || Announced(c', top, p) {
        assert Settled(c, p) || Announced(c, top, p);
        assert forall b :: IsElectionEvent(PeerMessage(p, top, Message.Coordinator(b)));
      }
    }
  }

  /** Event `e` leaves the bag, and its node reacts. */
  ghost predicate Handles(c: Cluster, e: Event, r: Reaction, c': Cluster) {
    && r.React? && Target(e) in c.nodes && c'.nodes == c.nodes[Target(e) := r.node]
    && (forall x | x in c.pending && x != e :: x in c'.pending)
    && (forall x | x in r.out :: x in c'.pending)
    && (forall x | x in c'.pending :: x in c.pending || x in r.out)
  }

  lemma StepHandles(c: Cluster, l: Label, c': Cluster)
    requires WellFormed(c) && Step(c, l, c') && IsElectionStep(c, l)
    ensures var e := c.pending[l.i];
            && e in c.pending && WellAddressed(c.nodes.Keys, e) && Target(e) in c.nodes
            && IsOrder(l.order, c.nodes[Target(e)].peers)
            && Handles(c, e, c.nodes[Target(e)].HandleEvent(e, l.order), c')
  {
    WithoutMembers(c.pending, l.i);
    assert c.pending[l.i] in c.pending;
  }

  ghost predicate ChallengesTop(out: seq<Event>, top: Id) {
    exists x | x in out :: x.PeerMessage? && x.to == top && (x.message.Election? || x.message.Coordinator?)
  }

  lemma ChallengeArrives(c: Cluster, e: Event, r: Reaction, c': Cluster, top: Id)
    requires Handles(c, e, r, c') && ChallengesTop(r.out, top)
    ensures TopIsChallenged(c', top)
  {
  }

  /** A challenge to the top node stays pending while other nodes handle their events. */
  lemma OthersKeepChallenge(c: Cluster, e: Event, r: Reaction, c': Cluster, top: Id)
    requires TopIsChallenged(c, top) && Handles(c, e, r, c') && Target(e) != top
    ensures TopIsChallenged(c', top)
  {
  }

  /** Election events at the top node make it wait or announce itself, or it has nothing to do. */
  lemma TopReacts(c: Cluster, n: Node, e: Event, order: seq<Id>, top: Id)
    requires IsTop(c.nodes.Keys, top) && MeshNode(c.nodes.Keys, n) && n.config.id == top && IsOrder(order, n.peers)
    requires IsElectionEvent(e) && Target(e) == top && WellAddressed(c.nodes.Keys, e) && n.HandleEvent(e, order).React?
    ensures var r := n.HandleEvent(e, order); var flag := HasMajority(|n.peers| + 1, |n.config.peers|);
            || r.node.election == WaitingForElection
            || (r.node == n && e.ElectionTimeout? && n.election != WaitingForElection)
            || (r.node.election == ElectionState.Coordinator && r.node.coordinatorId == Some(top) && r.node.majority == flag
                && forall p | p in c.nodes && p != top :: PeerMessage(p, top, Message.Coordinator(flag)) in r.out)
  {
    if e.ElectionTimeout? && n.election == WaitingForElection { RoundSent(n, order); }
  }

  lemma TopKeepsDecided(c: Cluster, e: Event, order: seq<Id>, c': Cluster, top: Id)
    requires WellFormed(c) && IsTop(c.nodes.Keys, top) && Decided(c, top)
    requires IsElectionEvent(e) && Target(e) == top && WellAddressed(c.nodes.Keys, e) && IsOrder(order, c.nodes[top].peers)
    requires Handles(c, e, c.nodes[top].HandleEvent(e, order), c')
    ensures Decided(c', top)
  {
    var n := c.nodes[top];
    var r := n.HandleEvent(e, order);
    TopReacts(c, n, e, order, top);
    if r.node == n && e.ElectionTimeout? {
      IdleTopKeepsDecided(c, e, r, c', top);
    } else if r.node.election != WaitingForElection {
      forall p | p in c'.nodes && p != top ensures Announced(c', top, p) {
        assert PeerMessage(p, top, Message.Coordinator(HasMajority(|n.peers| + 1, |n.config.peers|))) in c'.pending;
      }
    }
  }

  lemma IdleTopKeepsDecided(c: Cluster, e: Event, r: Reaction, c': Cluster, top: Id)
    requires top in c.nodes && Decided(c, top) && e.ElectionTimeout? && c.nodes[top].election != WaitingForElection
    requires Handles(c, e, r, c') && Target(e) == top && r.node == c.nodes[top]
    ensures Decided(c', top)
  {
    assert c'.nodes == c.nodes;
    if !TopIsChallenged(c, top) {
      forall p | p in c'.nodes && p != top ensures Settled(c', p) || Announced(c', top, p) {
        assert Settled(c, p) || Announced(c, top, p);
      }
    }
  }

  /** Whoever leaves the followers of a ruling top node challenges it. */
  lemma OthersReact(c: Cluster, n: Node, e: Event, order: seq<Id>, top: Id)
    requires IsTop(c.nodes.Keys, top) && n.config.id in c.nodes && n.config.id != top
    requires MeshNode(c.nodes.Keys, n) && IsOrder(order, n.peers)
    requires IsElectionEvent(e) && Target(e) == n.config.id && WellAddressed(c.nodes.Keys, e) && n.HandleEvent(e, order).React?
    ensures var r := n.HandleEvent(e, order);
            || ChallengesTop(r.out, top)
            || (r.node == n && e.ElectionTimeout?)
            || (r.node.election == (if n.election == WaitingForElection then Follower else n.election)
                && r.node == n.(election := r.node.election) && e.PeerMessage? && e.message.Okay?)
            || (e.PeerMessage? && e.message.Coordinator? && e.sender > n.config.id
                && r.node == n.(election := Follower, coordinatorId := Some(e.sender), majority := e.message.majority))
  {
    var at := n.config.id;
    if e.ElectionTimeout? {
      if n.election == WaitingForElection {
        RoundSent(n, order);
        assert PeerMessage(top, at, Message.Coordinator(HasMajority(|n.peers| + 1, |n.config.peers|))) in n.HandleEvent(e, order).out;
      }
    } else if e.message.Election? {
      StartElectionChallengesTop(c, at, n, order, top);
      assert PeerMessage(top, at, Election) in n.HandleEvent(e, order).out;
    } else if e.message.Coordinator? && e.sender < at {
      var heard := n.(coordinatorId := Some(e.sender), election := Follower, majority := e.message.majority);
      StartElectionChallengesTop(c, at, heard, order, top);
    }
  }

  lemma OthersKeepDecided(c: Cluster, e: Event, order: seq<Id>, c': Cluster, top: Id)
    requires WellFormed(c) && IsTop(c.nodes.Keys, top) && Decided(c, top)
    requires IsElectionEvent(e) && Target(e) in c.nodes && Target(e) != top && WellAddressed(c.nodes.Keys, e)
    requires IsOrder(order, c.nodes[Target(e)].peers) && Handles(c, e, c.nodes[Target(e)].HandleEvent(e, order), c')
    ensures Decided(c', top)
  {
    var n := c.nodes[Target(e)];
    var r := n.HandleEvent(e, order);
    OthersReact(c, n, e, order, top);
    if TopIsChallenged(c, top) {
      OthersKeepChallenge(c, e, r, c', top);
    } else if ChallengesTop(r.out, top) {
      ChallengeArrives(c, e, r, c', top);
    } else if TopRules(c, top) {
      forall p | p in c'.nodes && p != top ensures Settled(c', p) || Announced(c', top, p) {
        OneStaysInformed(c, n, e, r, c', top, p);
      }
    }
  }

  lemma OneStaysInformed(c: Cluster, n: Node, e: Event, r: Reaction, c': Cluster, top: Id, p: Id)
    requires Target(e) in c.nodes && Target(e) == n.config.id && n == c.nodes[Target(e)] && WellAddressed(c.nodes.Keys, e)
    requires p in c.nodes && p != top && (Settled(c, p) || Announced(c, top, p)) && Handles(c, e, r, c')
    requires || (r.node == n && e.ElectionTimeout?)
             || (r.node == n.(election := r.node.election) && e.PeerMessage? && e.message.Okay?
                 && (n.election == Follower ==> r.node.election == Follower))
             || (e.PeerMessage? && e.message.Coordinator? && e.sender > n.config.id
                 && r.node == n.(election := Follower, coordinatorId := Some(e.sender), majority := e.message.majority))
    ensures Settled(c', p) || Announced(c', top, p)
  {
    if !Settled(c, p) && p == Target(e) && e.PeerMessage? && e.message.Coordinator? {
      assert Settled(c', p);
    }
  }

  lemma StepDecides(c: Cluster, l: Label, c': Cluster, top: Id)
    requires WellFormed(c) && IsTop(c.nodes.Keys, top) && Step(c, l, c')
    requires Decided(c, top) || l.Trigger?
    ensures c'.nodes.Keys == c.nodes.Keys && Decided(c', top)
  {
    StepKeepsWellFormed(c, l, c');
    if l.Trigger? {
      TriggerDecides(c, l, c', top);
    } else if IsElectionStep(c, l) {
      StepHandles(c, l, c');
      var e := c.pending[l.i];
      if Target(e) == top { TopKeepsDecided(c, e, l.order, c', top); } else { OthersKeepDecided(c, e, l.order, c', top); }
    } else {
      CalmSteps(c, l, c');
      CalmKeepsDecided(c, c', top);
    }
  }

  lemma TriggerDecides(c: Cluster, l: Label, c': Cluster, top: Id)
    requires WellFormed(c) && IsTop(c.nodes.Keys, top) && Step(c, l, c') && l.Trigger?
    ensures top in c'.nodes && (TopIsChallenged(c', top) || c'.nodes[top].election == WaitingForElection)
  {
    TriggerSends(c.nodes[l.at], l.order, l.cause);
    if l.at != top {
      StartElectionChallengesTop(c, l.at, c.nodes[l.at], l.order, top);
      assert PeerMessage(top, l.at, Election) in c'.pending;
    }
  }

  // ---------------------------------------------------------------- theorems about runs

  lemma RunKeepsWellFormed(cs: seq<Cluster>, ls: seq<Label>, n: nat)
    requires IsRun(cs, ls) && WellFormed(cs[0]) && n <= |ls|
    ensures WellFormed(cs[n]) && cs[n].nodes.Keys == cs[0].nodes.Keys
  {
    var holds := (c: Cluster) => WellFormed(c) && c.nodes.Keys == cs[0].nodes.Keys;
    forall i, next | 0 <= i < n && next == i + 1 && holds(cs[i]) ensures holds(cs[next]) { WellFormedAt(cs, ls, i, next); }
    Throughout(cs, 0, n, holds);
  }

  lemma WellFormedAt(cs: seq<Cluster>, ls: seq<Label>, i: nat, next: nat)
    requires IsRun(cs, ls) && i < |ls| && next == i + 1 && WellFormed(cs[i])
    ensures WellFormed(cs[next]) && cs[next].nodes.Keys == cs[i].nodes.Keys
  {
    RunStep(cs, ls, i);
    StepKeepsWellFormed(cs[i], ls[i], cs[next]);
  }

  lemma {:induction false} RunStaysDecided(cs: seq<Cluster>, ls: seq<Label>, m: nat, n: nat, top: Id)
    requires IsRun(cs, ls) && WellFormed(cs[0]) && m <= n <= |ls|
    requires IsTop(cs[0].nodes.Keys, top) && top in cs[m].nodes && Decided(cs[m], top)
    ensures top in cs[n].nodes && Decided(cs[n], top)
  {
    if n > m {
      RunStaysDecided(cs, ls, m, n - 1, top);
      RunKeepsWellFormed(cs, ls, n - 1);
      StepDecidesAt(cs, ls, n - 1, n, top);
    }
  }

  lemma StepDecidesAt(cs: seq<Cluster>, ls: seq<Label>, i: nat, next: nat, top: Id)
    requires IsRun(cs, ls) && i < |ls| && next == i + 1 && WellFormed(cs[i]) && IsTop(cs[i].nodes.Keys, top)
    requires Decided(cs[i], top) || ls[i].Trigger?
    ensures cs[next].nodes.Keys == cs[i].nodes.Keys && Decided(cs[next], top)
  {
    RunStep(cs, ls, i);
    StepDecides(cs[i], ls[i], cs[next], top);
  }

  ghost predicate SomeTrigger(ls: seq<Label>) {
    exists l :: l in ls && l.Trigger?
  }

  /** A run that has come to rest after an election was triggered. */
  ghost predicate ElectionRun(c: Cluster, cs: seq<Cluster>, ls: seq<Label>, last: Cluster) {
    IsRun(cs, ls) && cs[0] == c && SomeTrigger(ls) && cs[|ls|] == last && AtRest(last)
  }

  /** The node follows a node above itself. */
  ghost predicate FollowsHigher(c: Cluster, p: Id)
    requires p in c.nodes
  {
    c.nodes[p].election == Follower && exists q :: q in c.nodes && p < q && c.nodes[p].coordinatorId == Some(q)
  }

  /** The election is correct. Take any well-formed cluster, with any roles its nodes may have had
      before, say from a partition. Once an election has been started anywhere, in every later
      state in which no election event is pending the highest id is the only coordinator, and
      everyone else is a follower of some higher node. */
  lemma ElectionIsCorrect(c: Cluster, cs: seq<Cluster>, ls: seq<Label>, last: Cluster, top: Id)
    requires WellFormed(c) && ElectionRun(c, cs, ls, last) && IsTop(c.nodes.Keys, top)
    ensures last.nodes.Keys == c.nodes.Keys
    ensures last.nodes[top].election == ElectionState.Coordinator && last.nodes[top].coordinatorId == Some(top)
    ensures forall p | p in last.nodes && p != top :: FollowsHigher(last, p)
  {
    RunDecides(cs, ls, top);
    RunKeepsWellFormed(cs, ls, |ls|);
    RestIsElected(last, top);
  }

  lemma RunDecides(cs: seq<Cluster>, ls: seq<Label>, top: Id)
    requires IsRun(cs, ls) && WellFormed(cs[0]) && IsTop(cs[0].nodes.Keys, top) && SomeTrigger(ls)
    ensures top in cs[|ls|].nodes && Decided(cs[|ls|], top)
  {
    var i :| 0 <= i < |ls| && ls[i].Trigger?;
    RunKeepsWellFormed(cs, ls, i);
    StepDecidesAt(cs, ls, i, i + 1, top);
    RunStaysDecided(cs, ls, i + 1, |ls|, top);
  }

  lemma RestIsElected(c: Cluster, top: Id)
    requires WellFormed(c) && top in c.nodes && Decided(c, top) && AtRest(c)
    ensures c.nodes[top].election == ElectionState.Coordinator && c.nodes[top].coordinatorId == Some(top)
    ensures forall p | p in c.nodes && p != top :: FollowsHigher(c, p)
  {
    assert IsElectionEvent(ElectionTimeout(top));
    forall p | p in c.nodes && p != top ensures FollowsHigher(c, p) {
      NotAnnouncedAtRest(c, top, p);
      assert Settled(c, p);
    }
  }

  lemma NotAnnouncedAtRest(c: Cluster, top: Id, p: Id)
    requires AtRest(c)
    ensures !Announced(c, top, p)
  {
    assert forall b :: IsElectionEvent(PeerMessage(p, top, Message.Coordinator(b)));
  }

  /** Election events handled in the first `n` steps. */
  function ElectionSteps(cs: seq<Cluster>, ls: seq<Label>, n: nat): nat
    requires n <= |ls| < |cs|
  {
    if n == 0 then 0 else ElectionSteps(cs, ls, n - 1) + if IsElectionStep(cs[n - 1], ls[n - 1]) then 1 else 0
  }

  /** The costs of the elections triggered in the first `n` steps. */
  function TriggerCosts(ids: set<Id>, ls: seq<Label>, n: nat): nat
    requires n <= |ls|
  {
    if n == 0 then 0 else TriggerCosts(ids, ls, n - 1) + if ls[n - 1].Trigger? then CostAt(ids, ls[n - 1].at) else 0
  }

  /** Elections terminate. In every run, however its other steps are interleaved, the number of
      election events handled is bounded by the rank of the first state plus the costs of the
      elections triggered on the way. */
  lemma {:induction false} ElectionsTerminate(cs: seq<Cluster>, ls: seq<Label>, n: nat)
    requires IsRun(cs, ls) && WellFormed(cs[0]) && n <= |ls|
    ensures var ids := cs[0].nodes.Keys;
            ElectionSteps(cs, ls, n) + Rank(ids, cs[n].pending) <= Rank(ids, cs[0].pending) + TriggerCosts(ids, ls, n)
  {
    if n > 0 {
      ElectionsTerminate(cs, ls, n - 1);
      RunKeepsWellFormed(cs, ls, n - 1);
      RankAt(cs, ls, n - 1, n);
    }
  }

  lemma RankAt(cs: seq<Cluster>, ls: seq<Label>, i: nat, next: nat)
    requires IsRun(cs, ls) && i < |ls| && next == i + 1 && WellFormed(cs[i])
    ensures var ids := cs[i].nodes.Keys;
            Rank(ids, cs[next].pending) + (if IsElectionStep(cs[i], ls[i]) then 1 else 0) <=
            Rank(ids, cs[i].pending) + if ls[i].Trigger? then CostAt(ids, ls[i].at) else 0
  {
    RunStep(cs, ls, i);
    StepRank(cs[i], ls[i], cs[next]);
  }

  /** From quiet, a single trigger below `k` higher ids among `n` nodes causes fewer than
      (n + 1) * 3^k election events. */
  lemma OneElectionIsBounded(cs: seq<Cluster>, ls: seq<Label>, i: nat)
    requires IsRun(cs, ls) && WellFormed(cs[0]) && cs[0].pending == []
    requires i < |ls| && ls[i].Trigger? && forall j | 0 <= j < |ls| && j != i :: !ls[j].Trigger?
    ensures var ids := cs[0].nodes.Keys;
            ElectionSteps(cs, ls, |ls|) < (|ids| + 1) * Pow3(|Higher(ids, ls[i].at)|)
  {
    var ids := cs[0].nodes.Keys;
    ElectionsTerminate(cs, ls, |ls|);
    OneTriggerCost(ids, ls, i, |ls|);
    CostClosedForm(|ids|, |Higher(ids, ls[i].at)|);
  }

  lemma {:induction false} OneTriggerCost(ids: set<Id>, ls: seq<Label>, i: nat, n: nat)
    requires n <= |ls| && i < |ls| && ls[i].Trigger? && forall j | 0 <= j < |ls| && j != i :: !ls[j].Trigger?
    ensures TriggerCosts(ids, ls, n) == if i < n then CostAt(ids, ls[i].at) else 0
  {
    if n > 0 { OneTriggerCost(ids, ls, i, n - 1); }
  }
}
