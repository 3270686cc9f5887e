/** Elections also spread the truth about the majority, from any state, unless an old announcement
    of something else is still on its way from above. */
module ElectionMajority {
  import opened Wrappers
  import opened Ipv4
  import opened ServerNode
  import opened Cluster
  import opened Election
  import opened ElectionOutcomes

  /** By its own configuration, every node's connections make a majority just if `flag`. */
  ghost predicate Sees(c: Cluster, flag: bool) {
    forall p | p in c.nodes :: HasMajority(|c.nodes[p].peers| + 1, |c.nodes[p].config.peers|) == flag
  }

  /** All Coordinator messages tell the truth. */
  ghost predicate Tells(es: seq<Event>, flag: bool) {
    forall e | e in es && e.PeerMessage? && e.message.Coordinator? :: e.message.majority == flag
  }

  /** Those that come from a higher node do. */
  ghost predicate TrueFromAbove(es: seq<Event>, flag: bool) {
    forall e | e in es && e.PeerMessage? && e.message.Coordinator? && e.sender > e.to :: e.message.majority == flag
  }

  /** The top node will hold an election, or it is right, and everyone else is or will be told. */
  ghost predicate TruthSpreads(c: Cluster, top: Id, flag: bool)
    requires top in c.nodes
  {
    || TopIsChallenged(c, top) || c.nodes[top].election == WaitingForElection
    || (c.nodes[top].majority == flag
        && forall p | p in c.nodes && p != top :: c.nodes[p].majority == flag || Announced(c, top, p))
  }

  // ---------------------------------------------------------------- messages

  lemma EventTells(n: Node, e: Event, order: seq<Id>)
    requires n.HandleEvent(e, order).React?
    ensures Tells(n.HandleEvent(e, order).out, HasMajority(|n.peers| + 1, |n.config.peers|))
  {
    ElectionsSent(n.config.id, order);
    if e.ElectionTimeout? && n.election == WaitingForElection { RoundSent(n, order); }
  }

  lemma StepKeepsTruth(c: Cluster, l: Label, c': Cluster, flag: bool)
    requires WellFormed(c) && Step(c, l, c') && Sees(c, flag) && TrueFromAbove(c.pending, flag)
    ensures TrueFromAbove(c'.pending, flag)
  {
    if l.Trigger? {
      TriggerKeepsTruth(c, l, c', flag);
    } else if IsElectionStep(c, l) {
      StepHandles(c, l, c');
      HandlingKeepsTruth(c, c.pending[l.i], l.order, c', flag);
    } else {
      CalmSteps(c, l, c');
      assert forall e | e in c'.pending && e.PeerMessage? && e.message.Coordinator? :: IsElectionEvent(e);
    }
  }

  lemma TriggerKeepsTruth(c: Cluster, l: Label, c': Cluster, flag: bool)
    requires Step(c, l, c') && l.Trigger? && TrueFromAbove(c.pending, flag)
    ensures TrueFromAbove(c'.pending, flag)
  {
    TriggerAnnouncesNothing(c.nodes[l.at], l.order, l.cause);
  }

  lemma TriggerAnnouncesNothing(n: Node, order: seq<Id>, cause: Cause)
    requires CanCause(n, cause)
    ensures var r := Triggered(n, order, cause); r.React? && forall e | e in r.out :: !(e.PeerMessage? && e.message.Coordinator?)
  {
    TriggerSends(n, order, cause);
    ElectionsSent(n.config.id, order);
  }

  lemma HandlingKeepsTruth(c: Cluster, e: Event, order: seq<Id>, c': Cluster, flag: bool)
    requires Target(e) in c.nodes && Handles(c, e, c.nodes[Target(e)].HandleEvent(e, order), c')
    requires Sees(c, flag) && TrueFromAbove(c.pending, flag)
    ensures TrueFromAbove(c'.pending, flag)
  {
    EventTells(c.nodes[Target(e)], e, order);
  }

  lemma StepKeepsSeeing(c: Cluster, l: Label, c': Cluster, flag: bool)
    requires Step(c, l, c') && Sees(c, flag)
    ensures Sees(c', flag)
  {
    StepKeepsConnections(c, l, c');
  }

  // ---------------------------------------------------------------- flags

  ghost predicate FlagsStay(c: Cluster, c': Cluster) {
    c'.nodes.Keys == c.nodes.Keys && forall p | p in c.nodes :: c'.nodes[p].majority == c.nodes[p].majority
  }

  /** Only elections change what nodes think of the majority. */
  lemma OtherStepsKeepFlags(c: Cluster, l: Label, c': Cluster)
    requires Step(c, l, c') && !l.Trigger? && !IsElectionStep(c, l)
    ensures FlagsStay(c, c')
  {
    match l
    case Process(i, order) =>
    case Repeat(i) =>
    case Rejoin(at, peer) => RejoinSends(c, at, peer, c');
    case LeaseRequest(at, mac, now, stamp) =>
    case ConfirmRequest(at, mac, ip, now, order) =>
      var m := ConfirmSends(c.nodes[at], mac, ip, now, order);
  }

  lemma CalmKeepsSpreading(c: Cluster, c': Cluster, top: Id, flag: bool)
    requires top in c.nodes && Calm(c, c') && FlagsStay(c, c') && TruthSpreads(c, top, flag)
    ensures TruthSpreads(c', top, flag)
  {
    if TopIsChallenged(c, top) {
      var e :| e in c.pending && e.PeerMessage? && e.to == top && (e.message.Election? || e.message.Coordinator?);
      assert IsElectionEvent(e) && e in c'.pending;
    } else if c.nodes[top].election != WaitingForElection {
      assert forall p, b :: IsElectionEvent(PeerMessage(p, top, Message.Coordinator(b)));
    }
  }

  lemma TopKeepsSpreading(c: Cluster, e: Event, order: seq<Id>, c': Cluster, top: Id, flag: bool)
    requires WellFormed(c) && IsTop(c.nodes.Keys, top) && Sees(c, flag) && TruthSpreads(c, top, flag)
    requires IsElectionEvent(e) && Target(e) == top && WellAddressed(c.nodes.Keys, e) && IsOrder(order, c.nodes[top].peers)
    requires Handles(c, e, c.nodes[top].HandleEvent(e, order), c')
    ensures TruthSpreads(c', top, flag)
  {
    var n := c.nodes[top];
    var r := n.HandleEvent(e, order);
    TopReacts(c, n, e, order, top);
    if r.node == n && e.ElectionTimeout? {
      IdleTopKeepsSpreading(c, e, r, c', top, flag);
    } else if r.node.election != WaitingForElection {
      AnnouncingSpreads(c, e, r, c', top, flag);
    }
  }

  lemma AnnouncingSpreads(c: Cluster, e: Event, r: Reaction, c': Cluster, top: Id, flag: bool)
    requires Target(e) == top && Handles(c, e, r, c') && r.node.majority == flag
    requires forall p | p in c.nodes && p != top :: PeerMessage(p, top, Message.Coordinator(flag)) in r.out
    ensures TruthSpreads(c', top, flag)
  {
    forall p | p in c'.nodes && p != top ensures Announced(c', top, p) {
      assert PeerMessage(p, top, Message.Coordinator(flag)) in r.out;
    }
  }

  lemma IdleTopKeepsSpreading(c: Cluster, e: Event, r: Reaction, c': Cluster, top: Id, flag: bool)
    requires top in c.nodes && TruthSpreads(c, top, flag) && e.ElectionTimeout?
    requires Handles(c, e, r, c') && Target(e) == top && r.node == c.nodes[top]
    ensures TruthSpreads(c', top, flag)
  {
    assert c'.nodes == c.nodes;
  }

  lemma OthersKeepSpreading(c: Cluster, e: Event, order: seq<Id>, c': Cluster, top: Id, flag: bool)
    requires WellFormed(c) && IsTop(c.nodes.Keys, top) && TrueFromAbove(c.pending, flag) && TruthSpreads(c, top, flag)
    requires IsElectionEvent(e) && Target(e) in c.nodes && Target(e) != top && e in c.pending && WellAddressed(c.nodes.Keys, e)
    requires IsOrder(order, c.nodes[Target(e)].peers) && Handles(c, e, c.nodes[Target(e)].HandleEvent(e, order), c')
    ensures TruthSpreads(c', top, flag)
  {
    var n := c.nodes[Target(e)];
    var r := n.HandleEvent(e, order);
    OthersReact(c, n, e, order, top);
    if TopIsChallenged(c, top) {
      OthersKeepChallenge(c, e, r, c', top);
    } else if ChallengesTop(r.out, top) {
      ChallengeArrives(c, e, r, c', top);
    } else if c.nodes[top].election != WaitingForElection {
      forall p | p in c'.nodes && p != top ensures c'.nodes[p].majority == flag || Announced(c', top, p) {
        OneIsTold(c, e, r, c', top, p, flag);
      }
    }
  }

  lemma OneIsTold(c: Cluster, e: Event, r: Reaction, c': Cluster, top: Id, p: Id, flag: bool)
    requires TrueFromAbove(c.pending, flag) && e in c.pending && Handles(c, e, r, c')
    requires p in c.nodes && p != top && (c.nodes[p].majority == flag || Announced(c, top, p))
    requires || (r.node.majority == c.nodes[Target(e)].majority && !(e.PeerMessage? && e.message.Coordinator?))
             || (e.PeerMessage? && e.message.Coordinator? && e.sender > e.to && r.node.majority == e.message.majority)
    ensures c'.nodes[p].majority == flag || Announced(c', top, p)
  {
  }

  lemma StepKeepsSpreading(c: Cluster, l: Label, c': Cluster, top: Id, flag: bool)
    requires WellFormed(c) && IsTop(c.nodes.Keys, top) && Step(c, l, c')
    requires Sees(c, flag) && TrueFromAbove(c.pending, flag) && (TruthSpreads(c, top, flag) || l.Trigger?)
    ensures top in c'.nodes && TruthSpreads(c', top, flag)
  {
    if l.Trigger? {
      TriggerDecides(c, l, c', top);
    } else if IsElectionStep(c, l) {
      StepHandles(c, l, c');
      var e := c.pending[l.i];
      if Target(e) == top { TopKeepsSpreading(c, e, l.order, c', top, flag); } else { OthersKeepSpreading(c, e, l.order, c', top, flag); }
    } else {
      CalmSteps(c, l, c');
      OtherStepsKeepFlags(c, l, c');
      CalmKeepsSpreading(c, c', top, flag);
    }
  }

  // ---------------------------------------------------------------- runs

  ghost predicate Honest(c: Cluster, ids: set<Id>, flag: bool) {
    WellFormed(c) && c.nodes.Keys == ids && Sees(c, flag) && TrueFromAbove(c.pending, flag)
  }

  lemma HonestAt(cs: seq<Cluster>, ls: seq<Label>, i: nat, next: nat, ids: set<Id>, flag: bool)
    requires IsRun(cs, ls) && i < |ls| && next == i + 1 && Honest(cs[i], ids, flag)
    ensures Honest(cs[next], ids, flag)
  {
    RunStep(cs, ls, i);
    StepKeepsWellFormed(cs[i], ls[i], cs[next]);
    StepKeepsTruth(cs[i], ls[i], cs[next], flag);
    StepKeepsSeeing(cs[i], ls[i], cs[next], flag);
  }

  lemma {:induction false} RunIsHonest(cs: seq<Cluster>, ls: seq<Label>, n: nat, ids: set<Id>, flag: bool)
    requires IsRun(cs, ls) && Honest(cs[0], ids, flag) && n <= |ls|
    ensures Honest(cs[n], ids, flag)
  {
    if n > 0 {
      RunIsHonest(cs, ls, n - 1, ids, flag);
      HonestAt(cs, ls, n - 1, n, ids, flag);
    }
  }

  ghost predicate Spreading(c: Cluster, ids: set<Id>, top: Id, flag: bool) {
    Honest(c, ids, flag) && IsTop(ids, top) && TruthSpreads(c, top, flag)
  }

  lemma SpreadsAt(cs: seq<Cluster>, ls: seq<Label>, i: nat, next: nat, ids: set<Id>, top: Id, flag: bool)
    requires IsRun(cs, ls) && i < |ls| && next == i + 1 && Honest(cs[i], ids, flag) && IsTop(ids, top)
    requires TruthSpreads(cs[i], top, flag) || ls[i].Trigger?
    ensures Spreading(cs[next], ids, top, flag)
  {
    RunStep(cs, ls, i);
    HonestAt(cs, ls, i, next, ids, flag);
    StepKeepsSpreading(cs[i], ls[i], cs[next], top, flag);
  }

  lemma GoesOnSpreading(cs: seq<Cluster>, ls: seq<Label>, i: nat, next: nat, ids: set<Id>, top: Id, flag: bool)
    requires IsRun(cs, ls) && i < |ls| && next == i + 1 && Spreading(cs[i], ids, top, flag)
    ensures Spreading(cs[next], ids, top, flag)
  {
    SpreadsAt(cs, ls, i, next, ids, top, flag);
  }

  lemma RunSpreads(cs: seq<Cluster>, ls: seq<Label>, m: nat, n: nat, ids: set<Id>, top: Id, flag: bool)
    requires IsRun(cs, ls) && m <= n <= |ls| && Spreading(cs[m], ids, top, flag)
    ensures Spreading(cs[n], ids, top, flag)
  {
    var holds := (c: Cluster) => Spreading(c, ids, top, flag);
    forall i, next | m <= i < n && next == i + 1 && holds(cs[i]) ensures holds(cs[next]) {
      GoesOnSpreading(cs, ls, i, next, ids, top, flag);
    }
    Throughout(cs, m, n, holds);
  }

  lemma RestIsRight(c: Cluster, top: Id, flag: bool)
    requires WellFormed(c) && top in c.nodes && TruthSpreads(c, top, flag) && AtRest(c)
    ensures forall p | p in c.nodes :: c.nodes[p].majority == flag
  {
    assert IsElectionEvent(ElectionTimeout(top));
    forall p | p in c.nodes && p != top ensures !Announced(c, top, p) { NotAnnouncedAtRest(c, top, p); }
  }

  /** If no false announcement is on its way from above, then once an election has come to rest all
      flags are right, whatever the nodes thought before. */
  lemma ElectionSpreadsMajority(c: Cluster, cs: seq<Cluster>, ls: seq<Label>, last: Cluster, top: Id, flag: bool)
    requires WellFormed(c) && IsTop(c.nodes.Keys, top) && Sees(c, flag) && TrueFromAbove(c.pending, flag)
    requires ElectionRun(c, cs, ls, last)
    ensures last.nodes.Keys == c.nodes.Keys && forall p | p in last.nodes :: last.nodes[p].majority == flag
  {
    TriggeredRunSpreads(cs, ls, c.nodes.Keys, top, flag);
    RestIsRight(last, top, flag);
  }

  lemma TriggeredRunSpreads(cs: seq<Cluster>, ls: seq<Label>, ids: set<Id>, top: Id, flag: bool)
    requires IsRun(cs, ls) && SomeTrigger(ls) && Honest(cs[0], ids, flag) && IsTop(ids, top)
    ensures Spreading(cs[|ls|], ids, top, flag)
  {
    var i :| 0 <= i < |ls| && ls[i].Trigger?;
    var next := i + 1;
    RunIsHonest(cs, ls, i, ids, flag);
    SpreadsAt(cs, ls, i, next, ids, top, flag);
    RunSpreads(cs, ls, next, |ls|, ids, top, flag);
  }

  // ---------------------------------------------------------------- exactly when

  /** Every election that comes to rest leaves all flags right. */
  ghost predicate AlwaysRight(c: Cluster, flag: bool) {
    forall cs, ls, last, p | ElectionRun(c, cs, ls, last) && p in last.nodes :: last.nodes[p].majority == flag
  }

  /** An announcement from above may be the last event of an election. */
  lemma OldNewsCanStay(c: Cluster, held: Event) returns (cs: seq<Cluster>, ls: seq<Label>)
    requires WellFormed(c) && held in c.pending && NamesHigher(c, held)
    ensures IsRun(cs, ls) && ElectionRun(c, cs, ls, cs[|ls|]) && Believes(cs[|ls|], held)
  {
    assert WellAddressed(c.nodes.Keys, held);
    var l, c1 := CanTrigger(c, held.to, held.sender);
    StepKeepsWellFormed(c, l, c1);
    cs, ls := RestAfterHeld(c1, held);
    var last := cs[|ls|];
    Prepend(c, l, cs, ls);
    cs, ls := [c] + cs, [l] + ls;
    assert cs[|ls|] == last;
    assert ls[0] in ls;
  }

  /** In a cluster whose nodes are all configured with equally many peers, an election is sure to
      leave every node with the right idea of whether more than half of the configured nodes are
      present, if and only if no pending Coordinator message from above says otherwise. What nodes
      thought before does not matter, nor do messages from below. */
  lemma MajorityIsRightIff(c: Cluster, top: Id, configured: nat, flag: bool)
    requires WellFormed(c) && IsTop(c.nodes.Keys, top)
    requires forall p | p in c.nodes :: |c.nodes[p].config.peers| == configured
    requires flag <==> 2 * |c.nodes.Keys| > configured + 1
    ensures AlwaysRight(c, flag) <==> TrueFromAbove(c.pending, flag)
  {
    forall p | p in c.nodes ensures HasMajority(|c.nodes[p].peers| + 1, |c.nodes[p].config.peers|) == flag {
      CardinalityOfSubset(c.nodes[p].peers, c.nodes.Keys, p);
    }
    if TrueFromAbove(c.pending, flag) {
      forall cs, ls, last, p | ElectionRun(c, cs, ls, last) && p in last.nodes ensures last.nodes[p].majority == flag {
        ElectionSpreadsMajority(c, cs, ls, last, top, flag);
      }
    } else {
      var held :| held in c.pending && held.PeerMessage? && held.message.Coordinator? && held.sender > held.to && held.message.majority != flag;
      assert WellAddressed(c.nodes.Keys, held);
      var cs, ls := OldNewsCanStay(c, held);
    }
  }
}
