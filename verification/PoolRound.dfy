/** A coordinator's round: the configured pool is cut into one share for every connected node. */
module PoolRound {
  import opened Wrappers
  import opened Ipv4
  import opened ServerNode
  import opened Cluster
  import opened LeaseLedger
  import Leases
  import Epochs

  /** The pools that the events hand to node `p`. */
  function PoolsSentTo(es: seq<Event>, p: Id): seq<Ipv4Range> {
    if es == [] then []
    else
      var last := es[|es| - 1];
      PoolsSentTo(es[..|es| - 1], p) +
      if last.PeerMessage? && last.to == p && last.message.SetPool? then [last.message.pool] else []
  }

  lemma {:induction false} SentConcat(a: seq<Event>, b: seq<Event>, p: Id)
    ensures PoolsSentTo(a + b, p) == PoolsSentTo(a, p) + PoolsSentTo(b, p)
  {
    if b == [] {
      assert a + b == a;
    } else {
      SentConcat(a, b[..|b| - 1], p);
      assert (a + b)[..|a + b| - 1] == a + b[..|b| - 1];
    }
  }

  lemma {:induction false} BroadcastSendsNoPool(me: Id, order: seq<Id>, m: Message, p: Id)
    requires !m.SetPool?
    ensures PoolsSentTo(Broadcast(me, order, m), p) == []
  {
    if order != [] { BroadcastSendsNoPool(me, order[..|order| - 1], m, p); }
  }

  /** The assignments give each peer exactly the pool at its place, and others none. */
  lemma {:induction false} AssignmentsSendOne(me: Id, order: seq<Id>, pools: seq<Ipv4Range>, p: Id)
    requires |pools| > |order| && forall i, j | 0 <= i < j < |order| :: order[i] != order[j]
    ensures p !in order ==> PoolsSentTo(Assignments(me, order, pools), p) == []
    ensures forall i | 0 <= i < |order| && order[i] == p :: PoolsSentTo(Assignments(me, order, pools), p) == [pools[i + 1]]
  {
    if order != [] {
      var n := |order| - 1;
      assert order[n] in order && forall q | q in order[..n] :: q in order;
      AssignmentsSendOne(me, order[..n], pools, p);
      if order[n] == p {
        assert p !in order[..n];
      }
    }
  }

  /** What the reaction `r` of node `n` gives to node `p`: a new pool of its own, or those it sends. */
  function Given(n: Node, r: Reaction, p: Id): seq<Ipv4Range> {
    match r
    case Crash => []
    case React(n', out) => if p == n.config.id then [n'.dhcp.pool] else PoolsSentTo(out, p)
  }

  ghost predicate MayServe(n: Node, r: Reaction, p: Id, a: int) {
    exists i :: 0 <= i < |Given(n, r, p)| && Given(n, r, p)[i].Contains(a)
  }

  /** The peers are other nodes, and there are not more nodes than addresses. */
  ghost predicate Peers(n: Node, order: seq<Id>) {
    IsOrder(order, n.peers) && n.config.id !in n.peers && |n.peers| + 1 < TWO_TO_32
  }

  /** Where node `p` comes in the round: the coordinator first, then the peers as enumerated. */
  ghost predicate PlaceIs(n: Node, order: seq<Id>, p: Id, i: nat) {
    if p == n.config.id then i == 0 else 1 <= i <= |order| && order[i - 1] == p
  }

  lemma PlaceOf(n: Node, order: seq<Id>, p: Id) returns (i: nat)
    requires IsOrder(order, n.peers) && p in Group(n)
    ensures PlaceIs(n, order, p, i) && i <= |order|
  {
    if p == n.config.id { return 0; }
    var j :| 0 <= j < |order| && order[j] == p;
    i := j + 1;
  }

  lemma RoundSends(n: Node, order: seq<Id>, p: Id)
    requires Peers(n, order)
    ensures n.BecomeCoordinator(order).React?
    ensures PoolsSentTo(n.BecomeCoordinator(order).out, p) ==
            PoolsSentTo(Assignments(n.config.id, order, Divided(n.config.dhcpPool, |n.peers| + 1)), p)
  {
    var pools := Divided(n.config.dhcpPool, |n.peers| + 1);
    var m := Message.Coordinator(HasMajority(|n.peers| + 1, |n.config.peers|));
    SentConcat(Broadcast(n.config.id, order, m), Assignments(n.config.id, order, pools), p);
    BroadcastSendsNoPool(n.config.id, order, m, p);
  }

  lemma GivenAtPlace(n: Node, order: seq<Id>, p: Id, i: nat)
    requires Peers(n, order) && PlaceIs(n, order, p, i)
    ensures i <= |n.peers|
    ensures Given(n, n.BecomeCoordinator(order), p) == [Divided(n.config.dhcpPool, |n.peers| + 1)[i]]
  {
    RoundSends(n, order, p);
    AssignmentsSendOne(n.config.id, order, Divided(n.config.dhcpPool, |n.peers| + 1), p);
  }

  /** Everyone in view is given exactly one share, and nobody else any. */
  lemma EveryoneGetsOneShare(n: Node, order: seq<Id>, p: Id)
    requires Peers(n, order)
    ensures |Given(n, n.BecomeCoordinator(order), p)| == if p in Group(n) then 1 else 0
  {
    RoundSends(n, order, p);
    AssignmentsSendOne(n.config.id, order, Divided(n.config.dhcpPool, |n.peers| + 1), p);
    if p in Group(n) {
      var i := PlaceOf(n, order, p);
      GivenAtPlace(n, order, p, i);
    }
  }

  /** Whoever may serve an address is in view, and its part of the division has the address. */
  lemma ServerHasPlace(n: Node, order: seq<Id>, p: Id, a: int) returns (i: nat)
    requires Peers(n, order) && MayServe(n, n.BecomeCoordinator(order), p, a)
    ensures PlaceIs(n, order, p, i) && i <= |n.peers| && Divided(n.config.dhcpPool, |n.peers| + 1)[i].Contains(a)
  {
    EveryoneGetsOneShare(n, order, p);
    i := PlaceOf(n, order, p);
    GivenAtPlace(n, order, p, i);
  }

  lemma OneServer(n: Node, order: seq<Id>, p: Id, q: Id, a: int)
    requires Peers(n, order)
    requires MayServe(n, n.BecomeCoordinator(order), p, a) && MayServe(n, n.BecomeCoordinator(order), q, a)
    ensures p == q && n.config.dhcpPool.Contains(a)
  {
    var i := ServerHasPlace(n, order, p, a);
    var j := ServerHasPlace(n, order, q, a);
    DivisionIsPartition(n.config.dhcpPool, |n.peers| + 1, Divided(n.config.dhcpPool, |n.peers| + 1), a);
  }

  lemma SomeServer(n: Node, order: seq<Id>, a: int) returns (p: Id)
    requires Peers(n, order) && n.config.dhcpPool.Contains(a)
    ensures MayServe(n, n.BecomeCoordinator(order), p, a)
  {
    var parts := |n.peers| + 1;
    var pools := Divided(n.config.dhcpPool, parts);
    DivisionIsPartition(n.config.dhcpPool, parts, pools, a);
    var i :| 0 <= i < parts && pools[i].Contains(a);
    p := if i == 0 then n.config.id else order[i - 1];
    assert i > 0 ==> order[i - 1] in order;
    GivenAtPlace(n, order, p, i);
    assert Given(n, n.BecomeCoordinator(order), p)[0].Contains(a);
  }

  /** The shares partition the configured pool: every address of it is in exactly one share, and
      no share holds any other address. */
  lemma SharesPartitionThePool(n: Node, order: seq<Id>, a: int)
    requires Peers(n, order)
    ensures var r := n.BecomeCoordinator(order);
            && (n.config.dhcpPool.Contains(a) <==> exists p :: MayServe(n, r, p, a))
            && (forall p, q | MayServe(n, r, p, a) && MayServe(n, r, q, a) :: p == q)
  {
    var r := n.BecomeCoordinator(order);
    if n.config.dhcpPool.Contains(a) {
      var p := SomeServer(n, order, a);
    }
    forall p, q | MayServe(n, r, p, a) && MayServe(n, r, q, a) ensures p == q && n.config.dhcpPool.Contains(a) {
      OneServer(n, order, p, q, a);
    }
  }

  /** The reaction gives everyone what a round of `n` does. */
  ghost predicate MatchesRound(n: Node, order: seq<Id>, r: Reaction) {
    forall p :: Given(n, r, p) == Given(n, n.BecomeCoordinator(order), p)
  }

  /** The shares are equally long, except that the last node of the round gets the remainder too. */
  lemma SharesAreEqual(n: Node, order: seq<Id>, p: Id, i: nat)
    requires Peers(n, order) && PlaceIs(n, order, p, i)
    ensures var len, parts := Len(n.config.dhcpPool), |n.peers| + 1; var given := Given(n, n.BecomeCoordinator(order), p);
            |given| == 1 && Len(given[0]) == len / parts + if i == |order| then len % parts else 0
  {
    GivenAtPlace(n, order, p, i);
  }

  /** Every node has the pool that the round of `n` has given it. */
  ghost predicate Applied(c: Cluster, n: Node, order: seq<Id>) {
    && Peers(n, order) && c.nodes.Keys == Group(n)
    && forall p | p in c.nodes :: Given(n, n.BecomeCoordinator(order), p) == [c.nodes[p].dhcp.pool]
  }

  /** Once a round has been applied everywhere the pools are disjoint ... */
  lemma AppliedRoundIsDisjoint(c: Cluster, n: Node, order: seq<Id>)
    requires Applied(c, n, order)
    ensures Disjoint(Leases.PoolsOf(c.nodes))
  {
    var r := n.BecomeCoordinator(order);
    var pools := Leases.PoolsOf(c.nodes);
    forall p, q, a: Address | p in pools && q in pools && pools[p].Contains(a) && pools[q].Contains(a) ensures p == q {
      assert Given(n, r, p)[0].Contains(a) && Given(n, r, q)[0].Contains(a);
      OneServer(n, order, p, q, a);
    }
  }

  /** ... and cover the configured pool. */
  lemma AppliedRoundCovers(c: Cluster, n: Node, order: seq<Id>, ip: Address)
    requires Applied(c, n, order)
    ensures Epochs.Owned(c, ip) <==> n.config.dhcpPool.Contains(ip)
  {
    var r := n.BecomeCoordinator(order);
    if n.config.dhcpPool.Contains(ip) {
      var p := SomeServer(n, order, ip);
      EveryoneGetsOneShare(n, order, p);
    }
    if o :| o in c.nodes && c.nodes[o].dhcp.pool.Contains(ip) {
      assert Given(n, r, o)[0].Contains(ip);
      OneServer(n, order, o, o, ip);
    }
  }

  /** So an epoch starts when a round has been applied to a cluster whose tables have converged, and
      hold addresses of the configured pool, each for one MAC. Open offers must be of the node's own
      new share. */
  lemma AppliedRoundStartsEpoch(c: Cluster, n: Node, order: seq<Id>)
    requires Applied(c, n, order) && Leases.Sane(c) && Epochs.Converged(c)
    requires forall p | p in c.nodes :: Epochs.StoresOnce(c.nodes[p].dhcp)
    requires forall p, x | p in c.nodes && x in Leases.Pairs(c.nodes[p].dhcp.leases) :: n.config.dhcpPool.Contains(x.ip)
    requires forall p, x | p in c.nodes && x in Leases.Pairs(c.nodes[p].dhcp.pending) :: c.nodes[p].dhcp.pool.Contains(x.ip)
    ensures Epochs.Orderly(c)
  {
    AppliedRoundIsDisjoint(c, n, order);
    forall p, x | p in c.nodes && x in Leases.Pairs(c.nodes[p].dhcp.leases) ensures Epochs.Owned(c, x.ip) {
      AppliedRoundCovers(c, n, order, x.ip);
    }
    Epochs.EpochCanStart(c);
  }
}
