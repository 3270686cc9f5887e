/** Which outcomes of an election are reachable: rest always is, and a stale coordinator name is
    for exactly the nodes that are neither the highest nor the second highest. */
module ElectionOutcomes {
  import opened Wrappers
  import opened Ipv4
  import opened ServerNode
  import opened Cluster
  import opened Election

  lemma {:induction false} SomeOrder(peers: set<Id>) returns (order: seq<Id>)
    ensures IsOrder(order, peers)
  {
    if peers == {} {
      return [];
    }
    var p :| p in peers;
    assert peers == (peers - {p}) + {p};
    var rest := SomeOrder(peers - {p});
    order := rest + [p];
  }

  /** Any pending event can be handled next. */
  lemma CanProcess(c: Cluster, i: nat) returns (l: Label, c': Cluster)
    requires WellFormed(c) && i < |c.pending|
    ensures l.Process? && l.i == i && Step(c, l, c')
  {
    var at := Target(c.pending[i]);
    assert c.pending[i] in c.pending && WellAddressed(c.nodes.Keys, c.pending[i]);
    var order := SomeOrder(c.nodes[at].peers);
    NoPanic(c, i, order);
    l := Process(i, order);
    var r := c.nodes[at].HandleEvent(c.pending[i], order);
    c' := Cluster(c.nodes[at := r.node], Without(c.pending, i) + r.out);
  }

  lemma Prepend(c: Cluster, l: Label, cs: seq<Cluster>, ls: seq<Label>)
    requires IsRun(cs, ls) && Step(c, l, cs[0])
    ensures IsRun([c] + cs, [l] + ls)
  {
    var cs', ls' := [c] + cs, [l] + ls;
    forall i | 0 <= i < |ls'| ensures StepAt(cs', ls', i) {
      if i > 0 { assert StepAt(cs, ls, i - 1); }
    }
  }

  ghost predicate OnlyProcesses(ls: seq<Label>) {
    forall l | l in ls :: l.Process?
  }

  /** From every well-formed state the cluster can come to rest by handling what is pending. */
  lemma {:induction false} RestIsReachable(c: Cluster) returns (cs: seq<Cluster>, ls: seq<Label>)
    requires WellFormed(c)
    ensures IsRun(cs, ls) && cs[0] == c && OnlyProcesses(ls) && AtRest(cs[|ls|])
    decreases Rank(c.nodes.Keys, c.pending)
  {
    if AtRest(c) {
      return [c], [];
    }
    var e :| e in c.pending && IsElectionEvent(e);
    var i :| 0 <= i < |c.pending| && c.pending[i] == e;
    var l, c' := CanProcess(c, i);
    StepKeepsWellFormed(c, l, c');
    StepRank(c, l, c');
    var cs', ls' := RestIsReachable(c');
    Prepend(c, l, cs', ls');
    cs, ls := [c] + cs', [l] + ls';
    assert cs[|ls|] == cs'[|ls'|];
  }

  // ---------------------------------------------------------------- a message held back

  /** A Coordinator message from a node above its target. */
  ghost predicate NamesHigher(c: Cluster, held: Event) {
    held.PeerMessage? && held.message.Coordinator? && held.sender > held.to && held.to in c.nodes
  }

  /** The node believes what the message says. */
  ghost predicate Believes(c: Cluster, held: Event)
    requires held.PeerMessage? && held.message.Coordinator?
  {
    held.to in c.nodes && c.nodes[held.to].coordinatorId == Some(held.sender) && c.nodes[held.to].majority == held.message.majority
  }

  /** The held message is still pending, or it was the last election event to be handled. */
  ghost predicate HeldBack(c: Cluster, held: Event)
    requires NamesHigher(c, held)
  {
    held in c.pending || (Believes(c, held) && AtRest(c))
  }

  /** Handle any other election event first, and copies of the held one only when no other is left. */
  lemma NextAround(c: Cluster, held: Event) returns (l: Label, c': Cluster)
    requires WellFormed(c) && NamesHigher(c, held) && HeldBack(c, held) && !AtRest(c)
    ensures Step(c, l, c') && IsElectionStep(c, l)
    ensures NamesHigher(c', held) && HeldBack(c', held)
  {
    var e := held;
    if other :| other in c.pending && IsElectionEvent(other) && other != held {
      e := other;
    }
    var i :| 0 <= i < |c.pending| && c.pending[i] == e;
    l, c' := CanProcess(c, i);
    WithoutMembers(c.pending, i);
    assert c'.nodes.Keys == c.nodes.Keys;
    if e == held {
      assert c'.pending == Without(c.pending, i);
    } else {
      assert held in c'.pending;
    }
  }

  lemma {:induction false} RestAfterHeld(c: Cluster, held: Event) returns (cs: seq<Cluster>, ls: seq<Label>)
    requires WellFormed(c) && NamesHigher(c, held) && HeldBack(c, held)
    ensures IsRun(cs, ls) && cs[0] == c && AtRest(cs[|ls|])
    ensures Believes(cs[|ls|], held)
    decreases Rank(c.nodes.Keys, c.pending)
  {
    if AtRest(c) {
      assert held !in c.pending;
      return [c], [];
    }
    var l, c' := NextAround(c, held);
    StepKeepsWellFormed(c, l, c');
    StepRank(c, l, c');
    var cs', ls' := RestAfterHeld(c', held);
    Prepend(c, l, cs', ls');
    cs, ls := [c] + cs', [l] + ls';
    assert cs[|ls|] == cs'[|ls'|];
  }

  // ---------------------------------------------------------------- who may be misinformed

  /** If a lower node gives up waiting before the higher ones answer, its announcement to `p` may
      be the last one to arrive. */
  lemma LowerNameCanStay(c: Cluster, p: Id, q: Id) returns (cs: seq<Cluster>, ls: seq<Label>)
    requires WellFormed(c) && p in c.nodes && q in c.nodes && p < q
    ensures IsRun(cs, ls) && cs[0] == c && |ls| > 0 && ls[0].Trigger? && AtRest(cs[|ls|])
    ensures p in cs[|ls|].nodes && cs[|ls|].nodes[p].coordinatorId == Some(q)
  {
    var l, c1 := CanTrigger(c, q, p);
    StepKeepsWellFormed(c, l, c1);
    var l', c2, held := CanAnnounce(c1, q, p);
    StepKeepsWellFormed(c1, l', c2);
    cs, ls := RestAfterHeld(c2, held);
    var last := cs[|ls|];
    Prepend(c1, l', cs, ls);
    var cs1, ls1 := [c1] + cs, [l'] + ls;
    Prepend(c, l, cs1, ls1);
    cs, ls := [c] + cs1, [l] + ls1;
    assert cs[|ls|] == last;
  }

  /** Any node can start an election, for a peer that it has met. */
  lemma CanTrigger(c: Cluster, q: Id, p: Id) returns (l: Label, c': Cluster)
    requires WellFormed(c) && q in c.nodes && p in c.nodes && p != q
    ensures l.Trigger? && Step(c, l, c') && q in c'.nodes && c'.nodes[q].election == WaitingForElection
    ensures ElectionTimeout(q) in c'.pending && (forall e | e in c.pending :: e in c'.pending)
  {
    var order := SomeOrder(c.nodes[q].peers);
    l := Trigger(q, order, Met(p));
    TriggerSends(c.nodes[q], order, Met(p));
    var r := Triggered(c.nodes[q], order, Met(p));
    c' := Cluster(c.nodes[q := r.node], c.pending + r.out);
    assert ElectionTimeout(q) in r.out;
  }

  /** A waiting node can announce itself to a lower one. */
  lemma CanAnnounce(c: Cluster, q: Id, p: Id) returns (l: Label, c': Cluster, held: Event)
    requires WellFormed(c) && q in c.nodes && p in c.nodes && p < q
    requires c.nodes[q].election == WaitingForElection && ElectionTimeout(q) in c.pending
    ensures Step(c, l, c') && c'.nodes.Keys == c.nodes.Keys && held in c'.pending
    ensures held.PeerMessage? && held.message.Coordinator? && held.to == p && held.sender == q
  {
    var i :| 0 <= i < |c.pending| && c.pending[i] == ElectionTimeout(q);
    l, c' := CanProcess(c, i);
    var n := c.nodes[q];
    RoundSent(n, l.order);
    assert p in l.order;
    held := PeerMessage(p, q, Message.Coordinator(HasMajority(|n.peers| + 1, |n.config.peers|)));
    assert held in n.HandleEvent(ElectionTimeout(q), l.order).out;
  }

  /** Every election that comes to rest leaves `p` knowing the elected node. */
  ghost predicate AlwaysInformed(c: Cluster, p: Id, top: Id) {
    forall cs, ls, last | ElectionRun(c, cs, ls, last) :: p in last.nodes && last.nodes[p].coordinatorId == Some(top)
  }

  /** A node is sure to know the elected coordinator at rest if and only if no other node's id
      lies between the two. So in a cluster of two nodes all always agree; from three nodes on,
      all but the two highest may keep a wrong name, although the roles themselves agree. */
  lemma InformedIff(c: Cluster, p: Id, top: Id)
    requires WellFormed(c) && IsTop(c.nodes.Keys, top) && p in c.nodes
    ensures AlwaysInformed(c, p, top) <==> forall q | q in c.nodes :: !(p < q < top)
  {
    if q :| q in c.nodes && p < q < top {
      var cs, ls := LowerNameCanStay(c, p, q);
      assert ls[0] in ls;
      assert ElectionRun(c, cs, ls, cs[|ls|]);
    } else {
      forall cs, ls, last | ElectionRun(c, cs, ls, last) ensures p in last.nodes && last.nodes[p].coordinatorId == Some(top) {
        ElectionIsCorrect(c, cs, ls, last, top);
        if p != top { assert FollowsHigher(last, p); }
      }
    }
  }
}
