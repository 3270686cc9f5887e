/** What a node answers its peers and its clients, stated apart from how its handlers compute it. */
module Handlers {
  import opened Wrappers
  import opened Ipv4
  import opened ServerNode
  import opened Cluster
  import Dhcp
  import Allocator
  import PoolRound

  // ---------------------------------------------------------------- elections

  lemma {:induction false} NoOkayInElections(me: Id, order: seq<Id>, okay: Event)
    requires okay.PeerMessage? && okay.message.Okay?
    ensures multiset(Elections(me, order))[okay] == 0
  {
    ElectionsSent(me, order);
  }

  /** An Election from below is answered with exactly one Okay, whatever the node's role. */
  lemma ElectionIsAnswered(n: Node, sender: Id, order: seq<Id>)
    requires sender < n.config.id && sender in n.peers
    ensures var r := n.HandleElection(sender, order);
            && r.React? && multiset(r.out)[PeerMessage(sender, n.config.id, Okay)] == 1
            && r.node == n.(election := WaitingForElection)
            && forall e | e in r.out && e.PeerMessage? && e.message.Okay? :: e.to == sender
  {
    var okay := PeerMessage(sender, n.config.id, Okay);
    var out := n.StartElection(order).out;
    ElectionsSent(n.config.id, order);
    NoOkayInElections(n.config.id, order, okay);
    assert multiset([okay] + out) == multiset{okay} + multiset(out);
    assert multiset(out) == multiset(Elections(n.config.id, order)) + multiset{ElectionTimeout(n.config.id)};
  }

  lemma TakenOut(es: seq<Event>, i: nat)
    requires i < |es|
    ensures multiset(es) == multiset(Without(es, i)) + multiset{es[i]}
  {
    assert es == es[..i] + [es[i]] + es[i + 1..];
  }

  /** In a cluster, it leaves exactly one more Okay pending for its sender. */
  lemma ElectionLeavesOneOkay(c: Cluster, i: nat, order: seq<Id>, c': Cluster)
    requires Step(c, Process(i, order), c') && c.pending[i].PeerMessage? && c.pending[i].message.Election?
    requires c.pending[i].sender < c.pending[i].to && c.pending[i].sender in c.nodes[c.pending[i].to].peers
    requires c.nodes[c.pending[i].to].config.id == c.pending[i].to
    ensures var okay := PeerMessage(c.pending[i].sender, c.pending[i].to, Okay);
            multiset(c'.pending)[okay] == multiset(c.pending)[okay] + 1
  {
    var e := c.pending[i];
    var okay := PeerMessage(e.sender, e.to, Okay);
    ElectionIsAnswered(c.nodes[e.to], e.sender, order);
    var out := c.nodes[e.to].HandleElection(e.sender, order).out;
    TakenOut(c.pending, i);
    assert multiset(c'.pending) == multiset(Without(c.pending, i)) + multiset(out);
  }

  /** An election asks exactly the given peers that are higher, once, and sets one timer. */
  ghost predicate IsElection(out: seq<Event>, me: Id, peers: set<Id>) {
    && ElectionTimeout(me) in out
    && (forall q: Id :: PeerMessage(q, me, Election) in out <==> q in peers && q > me)
    && (forall e | e in out :: e == ElectionTimeout(me) || (e.PeerMessage? && e == PeerMessage(e.to, me, Election)))
  }

  lemma StartIsElection(n: Node, order: seq<Id>)
    requires IsOrder(order, n.peers)
    ensures IsElection(n.StartElection(order).out, n.config.id, n.peers)
  {
    ElectionsSent(n.config.id, order);
  }

  // ---------------------------------------------------------------- membership

  /** A node that loses the coordinator waits for the outcome of an election among its other peers. */
  lemma LostCoordinatorIsReplaced(n: Node, peer: Id, announceOrder: seq<Id>, order: seq<Id>)
    requires n.coordinatorId == Some(peer) && n.election != ElectionState.Coordinator && IsOrder(order, n.peers - {peer})
    ensures var r := n.RemovePeer(peer, announceOrder, order);
            && r.React? && r.node == n.(peers := n.peers - {peer}, election := WaitingForElection)
            && IsElection(r.out, n.config.id, n.peers - {peer})
  {
    var left := n.(peers := n.peers - {peer});
    StartIsElection(left, order);
    assert [] + left.StartElection(order).out == left.StartElection(order).out;
  }

  /** Any other loss changes nothing but the connections, except that the coordinator holds a round
      with whoever is left. */
  lemma OtherLoss(n: Node, peer: Id, announceOrder: seq<Id>, order: seq<Id>)
    requires peer != n.config.id && (n.election == ElectionState.Coordinator || n.coordinatorId != Some(peer))
    requires PoolRound.Peers(n.(peers := n.peers - {peer}), announceOrder)
    ensures var left := n.(peers := n.peers - {peer}); var r := n.RemovePeer(peer, announceOrder, order);
            && r.React? && r.node.peers == n.peers - {peer} && r.node.election == n.election
            && if n.election == ElectionState.Coordinator
               then IsRound(left, r) && PoolRound.MatchesRound(left, announceOrder, r)
               else r.node == left && r.out == []
  {
    var left := n.(peers := n.peers - {peer});
    if n.election == ElectionState.Coordinator { RoundIsRound(left, announceOrder); }
  }

  /** A round: its node rules, with a flag that says whether it sees a majority, and tells every peer
      so; each peer is also given exactly one pool, and nothing else is sent. */
  ghost predicate IsRound(n: Node, r: Reaction) {
    var flag := 2 * (|n.peers| + 1) > |n.config.peers| + 1;
    r.React? && Rules(n, r.node, flag) && IsAnnounced(n, r.out, flag) && IsShared(n, r.out)
  }

  ghost predicate Rules(n: Node, n': Node, flag: bool) {
    && n'.peers == n.peers && n'.config == n.config
    && n'.election == ElectionState.Coordinator && n'.coordinatorId == Some(n.config.id) && n'.majority == flag
    && n'.dhcp == n.dhcp.SetPool(n'.dhcp.pool)
  }

  ghost predicate IsAnnounced(n: Node, out: seq<Event>, flag: bool) {
    && |out| == 2 * |n.peers|
    && (forall p | p in n.peers :: PeerMessage(p, n.config.id, Message.Coordinator(flag)) in out)
    && (forall e | e in out ::
          e.PeerMessage? && e.sender == n.config.id && e.to in n.peers && (e.message == Message.Coordinator(flag) || e.message.SetPool?))
  }

  ghost predicate IsShared(n: Node, out: seq<Event>) {
    forall p | p in n.peers :: |PoolRound.PoolsSentTo(out, p)| == 1
  }

  lemma RoundAnnounces(n: Node, order: seq<Id>)
    requires PoolRound.Peers(n, order)
    ensures n.BecomeCoordinator(order).React?
    ensures IsAnnounced(n, n.BecomeCoordinator(order).out, HasMajority(|n.peers| + 1, |n.config.peers|))
  {
    RoundSent(n, order);
    SentCounts(n.config.id, order, Message.Coordinator(HasMajority(|n.peers| + 1, |n.config.peers|)), Divided(n.config.dhcpPool, |n.peers| + 1));
  }

  lemma RoundShares(n: Node, order: seq<Id>)
    requires PoolRound.Peers(n, order)
    ensures n.BecomeCoordinator(order).React? && IsShared(n, n.BecomeCoordinator(order).out)
  {
    forall p | p in n.peers ensures n.BecomeCoordinator(order).React? && |PoolRound.PoolsSentTo(n.BecomeCoordinator(order).out, p)| == 1 {
      PoolRound.RoundSends(n, order, p);
      PoolRound.EveryoneGetsOneShare(n, order, p);
    }
  }

  lemma RoundIsRound(n: Node, order: seq<Id>)
    requires PoolRound.Peers(n, order)
    ensures n.BecomeCoordinator(order).React? && IsRound(n, n.BecomeCoordinator(order))
    ensures PoolRound.MatchesRound(n, order, n.BecomeCoordinator(order))
  {
    RoundAnnounces(n, order);
    RoundShares(n, order);
  }

  /** When a peer joins, the node sends it its lease table. If it is the coordinator it also holds a
      round with all its peers, the new one included. */
  lemma JoiningPeerIsTold(n: Node, p: Id, order: seq<Id>)
    requires p !in n.peers && PoolRound.Peers(n.(peers := n.peers + {p}), order)
    ensures var joined := n.(peers := n.peers + {p}); var hello := PeerMessage(p, n.config.id, LeaseTable(n.dhcp.leases));
            var r := n.AnswerHandshake(Joined(p), order);
            && r.React? && |r.out| > 0 && r.out[0] == hello
            && if n.election == ElectionState.Coordinator
               then IsRound(joined, React(r.node, r.out[1..])) && PoolRound.MatchesRound(joined, order, React(r.node, r.out[1..]))
               else r == React(joined, [hello])
  {
    var joined := n.(peers := n.peers + {p});
    var hello := PeerMessage(p, n.config.id, LeaseTable(n.dhcp.leases));
    if n.election == ElectionState.Coordinator {
      RoundIsRound(joined, order);
      var round := joined.BecomeCoordinator(order);
      assert ([hello] + round.out)[1..] == round.out;
    }
  }

  /** A handshake that fails once something was received lets the coordinator hold a round with the
      peers it has; if nothing was received, nothing happens. */
  lemma FailedHandshake(n: Node, h: Handshake, order: seq<Id>)
    requires !h.Joined? && PoolRound.Peers(n, order)
    ensures var r := n.AnswerHandshake(h, order);
            if n.election == ElectionState.Coordinator && !h.RecvFailed?
            then IsRound(n, r) && PoolRound.MatchesRound(n, order, r)
            else r == React(n, [])
  {
    RoundIsRound(n, order);
  }

  /** A connection to a new peer registers it, sends it the lease table, and starts an election; one
      to a known peer changes nothing. */
  lemma EstablishedPeer(n: Node, p: Id, order: seq<Id>)
    requires IsOrder(order, n.peers + {p})
    ensures var r := n.PeerEstablished(p, order);
            if p in n.peers then r == React(n, [])
            else && r.React? && r.node == n.(peers := n.peers + {p}, election := WaitingForElection)
                 && |r.out| > 0 && r.out[0] == PeerMessage(p, n.config.id, LeaseTable(n.dhcp.leases))
                 && IsElection(r.out[1..], n.config.id, n.peers + {p})
  {
    if p !in n.peers {
      var joined := n.(peers := n.peers + {p});
      var hello := PeerMessage(p, n.config.id, LeaseTable(n.dhcp.leases));
      StartIsElection(joined, order);
      assert ([hello] + joined.StartElection(order).out)[1..] == joined.StartElection(order).out;
    }
  }

  // ---------------------------------------------------------------- clients

  /** Without majority a client gets no answer. With it, a request is refused exactly if the MAC has
      no lease and unexpired entries fill the pool, and otherwise answered with an entry for the MAC
      that the node then holds: the first lease stored for it, if there is one. */
  lemma RequestIsAnswered(n: Node, mac: Dhcp.MacAddr, now: Dhcp.Time, stamp: Dhcp.Time)
    requires n.dhcp.CursorOk()
    ensures var r := n.HandleLeaseRequest(mac, now, stamp); var i := Dhcp.IndexByMac(n.dhcp.leases, mac);
            && r.out == [] && r.node == n.(dhcp := r.node.dhcp)
            && (!n.majority ==> r.answer == None && r.node == n)
            && (n.majority ==>
                  && (r.answer.None? <==>
                        && (forall l | l in n.dhcp.leases :: l.mac != mac)
                        && (forall a: Address | n.dhcp.pool.Contains(a) :: exists l | l in n.dhcp.Entries() :: l.ip == a && l.expiry > now))
                  && (r.answer.Some? ==> r.answer.value.mac == mac && r.answer.value in r.node.dhcp.Entries())
                  && (i < |n.dhcp.leases| ==> r.answer == Some(n.dhcp.leases[i]) && r.node == n))
  {
    if n.majority {
      Allocator.NoOfferIff(n.dhcp, mac, now, stamp);
      var d := n.dhcp.Discover(mac, now, stamp);
      if d.offer.Some? {
        var entries := d.state.leases + d.state.pending;
        assert d.offer.value in d.state.leases || d.offer.value in d.state.pending;
      }
    }
  }

  ghost predicate IsStored(n: Node, mac: Dhcp.MacAddr, ip: Address) {
    Dhcp.HasPair(n.dhcp.pending, mac, ip) || Dhcp.HasPair(n.dhcp.leases, mac, ip)
  }

  /** A confirmation is granted exactly if the node has majority and stores the pair, refused exactly
      if it has majority and does not, and otherwise left without an answer. */
  lemma ConfirmationIsAnswered(n: Node, mac: Dhcp.MacAddr, ip: Address, now: Dhcp.Time, order: seq<Id>)
    ensures var answer := n.HandleConfirmRequest(mac, ip, now, order).answer;
            && (answer == Some(true) <==> n.majority && IsStored(n, mac, ip))
            && (answer == Some(false) <==> n.majority && !IsStored(n, mac, ip))
            && (answer == None <==> !n.majority)
  {
    Allocator.CommitSucceedsIff(n.dhcp, mac, ip, now);
  }

  /** The lease is in the table of the node, and on its way to every peer, once. */
  ghost predicate IsRecorded(n: Node, r: Reply<bool>, l: Dhcp.Lease, order: seq<Id>) {
    l in r.node.dhcp.leases && r.node == n.(dhcp := r.node.dhcp) && IsSent(n.config.id, order, l, r.out)
  }

  ghost predicate IsSent(me: Id, order: seq<Id>, l: Dhcp.Lease, out: seq<Event>) {
    && |out| == |order| && (forall p | p in order :: PeerMessage(p, me, Message.Lease(l)) in out)
    && (forall e | e in out :: e.PeerMessage? && e == PeerMessage(e.to, me, Message.Lease(l)) && e.to in order)
  }

  /** What is granted is recorded; whatever is not granted changes nothing. */
  lemma GrantIsRecorded(n: Node, mac: Dhcp.MacAddr, ip: Address, now: Dhcp.Time, order: seq<Id>)
    ensures var r := n.HandleConfirmRequest(mac, ip, now, order);
            if r.answer == Some(true) then IsRecorded(n, r, Dhcp.Lease(mac, ip, now + n.dhcp.leaseTime), order)
            else r.node == n && r.out == []
  {
    var l := Dhcp.Lease(mac, ip, now + n.dhcp.leaseTime);
    Allocator.CommitSucceedsIff(n.dhcp, mac, ip, now);
    if n.dhcp.Commit(mac, ip, now).result.Success? {
      Allocator.CommitIsStored(n.dhcp, mac, ip, now);
      LeaseIsSent(n.config.id, order, l);
    }
  }

  lemma LeaseIsSent(me: Id, order: seq<Id>, l: Dhcp.Lease)
    ensures IsSent(me, order, l, Broadcast(me, order, Message.Lease(l)))
  {
    BroadcastSent(me, order, Message.Lease(l));
    SentCounts(me, order, Message.Lease(l), seq(|order| + 1, _ => Bounds(0, 0)));
  }
}
