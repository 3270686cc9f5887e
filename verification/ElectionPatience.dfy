/** Elections in which nodes wait long enough: a timer fires only when the node's own messages have
    been handled and no answer to it is on its way. Then the highest node is the only one that ever
    takes over, and everyone learns its name. */
module ElectionPatience {
  import opened Wrappers
  import opened Ipv4
  import opened ServerNode
  import opened Cluster
  import opened Election
  import Handlers

  /** The node still has an Election on its way, or an Okay on its way to it. */
  ghost predicate Attended(es: seq<Event>, p: Id) {
    exists e :: e in es && e.PeerMessage? && ((e.message.Election? && e.sender == p) || (e.message.Okay? && e.to == p))
  }

  /** A timer fires only at a node that is not attended any more. */
  ghost predicate PatientStep(c: Cluster, l: Label) {
    l.Process? && l.i < |c.pending| && c.pending[l.i].ElectionTimeout? ==> !Attended(c.pending, c.pending[l.i].at)
  }

  ghost predicate PatientAt(cs: seq<Cluster>, ls: seq<Label>, i: nat)
    requires i < |ls| < |cs|
  {
    PatientStep(cs[i], ls[i])
  }

  ghost predicate IsPatient(cs: seq<Cluster>, ls: seq<Label>) {
    IsRun(cs, ls) && forall i | 0 <= i < |ls| :: PatientAt(cs, ls, i)
  }

  /** Whoever waits is attended, except for the highest node. */
  ghost predicate WaitersAttended(c: Cluster, top: Id) {
    forall p | p in c.nodes && p != top && c.nodes[p].election == WaitingForElection :: Attended(c.pending, p)
  }

  /** No node but the highest has announced itself. */
  ghost predicate OnlyTopAnnounces(es: seq<Event>, top: Id) {
    forall e | e in es && e.PeerMessage? && e.message.Coordinator? :: e.sender == top
  }

  // ---------------------------------------------------------------- one event

  /** What an event does at a node below the highest, if no timer fires while the node waits. */
  lemma PatientReaction(c: Cluster, n: Node, e: Event, order: seq<Id>, top: Id)
    requires IsTop(c.nodes.Keys, top) && n.config.id in c.nodes && n.config.id != top
    requires MeshNode(c.nodes.Keys, n) && IsOrder(order, n.peers)
    requires IsElectionEvent(e) && Target(e) == n.config.id && WellAddressed(c.nodes.Keys, e) && n.HandleEvent(e, order).React?
    requires e.ElectionTimeout? ==> n.election != WaitingForElection
    ensures var r := n.HandleEvent(e, order);
            && (r.node.election == WaitingForElection ==> Attended(r.out, n.config.id) || (r.node == n && e.ElectionTimeout?))
            && (r.node.election == ElectionState.Coordinator ==> n.election == ElectionState.Coordinator)
            && (forall x | x in r.out && x.PeerMessage? :: !x.message.Coordinator?)
            && (e.PeerMessage? && e.message.Election? ==> PeerMessage(e.sender, n.config.id, Okay) in r.out)
  {
    var at := n.config.id;
    ElectionsSent(at, order);
    if e.PeerMessage? {
      StartElectionChallengesTop(c, at, n, order, top);
      assert PeerMessage(top, at, Election) in n.StartElection(order).out;
      if e.message.Coordinator? {
        var heard := n.(coordinatorId := Some(e.sender), election := Follower, majority := e.message.majority);
        assert heard.StartElection(order).out == n.StartElection(order).out;
      } else if e.message.Election? {
        OkayIsSent(n, e.sender, order);
      }
    }
  }

  lemma TopAnswers(c: Cluster, n: Node, e: Event, order: seq<Id>, top: Id)
    requires IsTop(c.nodes.Keys, top) && n.config.id == top && MeshNode(c.nodes.Keys, n) && IsOrder(order, n.peers)
    requires IsElectionEvent(e) && Target(e) == top && WellAddressed(c.nodes.Keys, e) && n.HandleEvent(e, order).React?
    ensures var r := n.HandleEvent(e, order);
            && (e.PeerMessage? && e.message.Election? ==> PeerMessage(e.sender, top, Okay) in r.out)
            && OnlyTopAnnounces(r.out, top)
  {
    if e.ElectionTimeout? {
      if n.election == WaitingForElection { RoundSent(n, order); }
    } else {
      ElectionsSent(top, order);
      if e.message.Election? { OkayIsSent(n, e.sender, order); }
    }
  }

  lemma OkayIsSent(n: Node, sender: Id, order: seq<Id>)
    requires sender < n.config.id && sender in n.peers
    ensures var r := n.HandleElection(sender, order); r.React? && PeerMessage(sender, n.config.id, Okay) in r.out
  {
    Handlers.ElectionIsAnswered(n, sender, order);
    assert multiset(n.HandleElection(sender, order).out)[PeerMessage(sender, n.config.id, Okay)] == 1;
  }

  // ---------------------------------------------------------------- steps

  /** The facts about a handled event that attention depends on. */
  lemma HandlingKeepsAttention(c: Cluster, e: Event, r: Reaction, c': Cluster, top: Id)
    requires WaitersAttended(c, top) && Handles(c, e, r, c') && WellAddressed(c.nodes.Keys, e)
    requires e.PeerMessage? && e.message.Election? ==> PeerMessage(e.sender, e.to, Okay) in r.out
    requires Target(e) != top && r.node.election == WaitingForElection ==>
               Attended(r.out, Target(e)) || (r.node == c.nodes[Target(e)] && e.ElectionTimeout?)
    ensures WaitersAttended(c', top)
  {
    forall p | p in c'.nodes && p != top && c'.nodes[p].election == WaitingForElection ensures Attended(c'.pending, p) {
      if p == Target(e) && Attended(r.out, p) {
        var x :| x in r.out && x.PeerMessage? && ((x.message.Election? && x.sender == p) || (x.message.Okay? && x.to == p));
        assert x in c'.pending;
      } else {
        OtherStaysAttended(c, e, r, c', p);
      }
    }
  }

  lemma OtherStaysAttended(c: Cluster, e: Event, r: Reaction, c': Cluster, p: Id)
    requires Attended(c.pending, p) && Handles(c, e, r, c') && (p != Target(e) || e.ElectionTimeout?)
    requires e.PeerMessage? && e.message.Election? ==> PeerMessage(e.sender, e.to, Okay) in r.out
    ensures Attended(c'.pending, p)
  {
    var x :| x in c.pending && x.PeerMessage? && ((x.message.Election? && x.sender == p) || (x.message.Okay? && x.to == p));
    if x == e {
      var okay := PeerMessage(e.sender, e.to, Okay);
      assert okay in c'.pending && okay.message.Okay? && okay.to == p;
    } else {
      assert x in c'.pending;
    }
  }

  lemma PatientHandling(c: Cluster, e: Event, order: seq<Id>, c': Cluster, top: Id)
    requires WellFormed(c) && IsTop(c.nodes.Keys, top) && WaitersAttended(c, top)
    requires e in c.pending && IsElectionEvent(e) && WellAddressed(c.nodes.Keys, e)
    requires IsOrder(order, c.nodes[Target(e)].peers) && Handles(c, e, c.nodes[Target(e)].HandleEvent(e, order), c')
    requires e.ElectionTimeout? ==> !Attended(c.pending, e.at)
    ensures WaitersAttended(c', top)
    ensures forall p | p in c.nodes && p != top && c'.nodes[p].election == ElectionState.Coordinator ::
              c.nodes[p].election == ElectionState.Coordinator
    ensures OnlyTopAnnounces(c.nodes[Target(e)].HandleEvent(e, order).out, top)
  {
    var n := c.nodes[Target(e)];
    var r := n.HandleEvent(e, order);
    if Target(e) == top { TopAnswers(c, n, e, order, top); } else { PatientReaction(c, n, e, order, top); }
    HandlingKeepsAttention(c, e, r, c', top);
  }

  lemma CalmKeepsAttention(c: Cluster, c': Cluster, top: Id)
    requires WaitersAttended(c, top) && Calm(c, c')
    ensures WaitersAttended(c', top)
  {
    forall p | p in c'.nodes && p != top && c'.nodes[p].election == WaitingForElection ensures Attended(c'.pending, p) {
      var x :| x in c.pending && x.PeerMessage? && ((x.message.Election? && x.sender == p) || (x.message.Okay? && x.to == p));
      assert IsElectionEvent(x) && x in c'.pending;
    }
  }

  lemma TriggerKeepsAttention(c: Cluster, l: Label, c': Cluster, top: Id)
    requires WellFormed(c) && IsTop(c.nodes.Keys, top) && WaitersAttended(c, top) && Step(c, l, c') && l.Trigger?
    ensures WaitersAttended(c', top)
  {
    TriggerSends(c.nodes[l.at], l.order, l.cause);
    ElectionsSent(l.at, l.order);
    if l.at != top {
      StartElectionChallengesTop(c, l.at, c.nodes[l.at], l.order, top);
      assert PeerMessage(top, l.at, Election) in c'.pending;
    }
    assert c'.pending == c.pending + Triggered(c.nodes[l.at], l.order, l.cause).out;
    forall p | p in c'.nodes && p != top && c'.nodes[p].election == WaitingForElection ensures Attended(c'.pending, p) {
      if p != l.at { MoreStaysAttended(c.pending, Triggered(c.nodes[l.at], l.order, l.cause).out, p); }
    }
  }

  lemma MoreStaysAttended(es: seq<Event>, out: seq<Event>, p: Id)
    requires Attended(es, p)
    ensures Attended(es + out, p)
  {
    var x :| x in es && x.PeerMessage? && ((x.message.Election? && x.sender == p) || (x.message.Okay? && x.to == p));
    assert x in es + out;
  }

  /** Nobody but the highest node has become coordinator. */
  ghost predicate OnlyNew(c: Cluster, c': Cluster, top: Id) {
    && c'.nodes.Keys == c.nodes.Keys
    && forall p | p in c.nodes && p != top && c'.nodes[p].election == ElectionState.Coordinator ::
         c.nodes[p].election == ElectionState.Coordinator
  }

  lemma TriggerAnnouncesNothing(c: Cluster, l: Label, c': Cluster, top: Id)
    requires Step(c, l, c') && l.Trigger?
    ensures OnlyNew(c, c', top)
    ensures OnlyTopAnnounces(c.pending, top) ==> OnlyTopAnnounces(c'.pending, top)
  {
    TriggerSends(c.nodes[l.at], l.order, l.cause);
    ElectionsSent(c.nodes[l.at].config.id, l.order);
  }

  /** A patient step keeps every waiting node attended, and lets nobody but the highest node become
      coordinator or announce itself. */
  lemma PatientStepKeeps(c: Cluster, l: Label, c': Cluster, top: Id)
    requires WellFormed(c) && IsTop(c.nodes.Keys, top) && WaitersAttended(c, top) && Step(c, l, c') && PatientStep(c, l)
    ensures WaitersAttended(c', top) && OnlyNew(c, c', top)
    ensures OnlyTopAnnounces(c.pending, top) ==> OnlyTopAnnounces(c'.pending, top)
  {
    if l.Trigger? {
      TriggerKeepsAttention(c, l, c', top);
      TriggerAnnouncesNothing(c, l, c', top);
    } else if IsElectionStep(c, l) {
      StepHandles(c, l, c');
      PatientHandling(c, c.pending[l.i], l.order, c', top);
    } else {
      CalmSteps(c, l, c');
      CalmKeepsAttention(c, c', top);
      assert forall e | e in c'.pending && e.PeerMessage? && e.message.Coordinator? :: IsElectionEvent(e);
    }
  }

  // ---------------------------------------------------------------- runs

  ghost predicate Calmly(c: Cluster, start: Cluster, top: Id) {
    WellFormed(c) && WaitersAttended(c, top) && OnlyNew(start, c, top)
  }

  lemma CalmlyAt(cs: seq<Cluster>, ls: seq<Label>, i: nat, next: nat, start: Cluster, top: Id)
    requires IsPatient(cs, ls) && i < |ls| && next == i + 1 && Calmly(cs[i], start, top) && IsTop(start.nodes.Keys, top)
    ensures Calmly(cs[next], start, top)
  {
    RunStep(cs, ls, i);
    assert PatientAt(cs, ls, i);
    StepKeepsWellFormed(cs[i], ls[i], cs[next]);
    PatientStepKeeps(cs[i], ls[i], cs[next], top);
  }

  lemma PatientRun(cs: seq<Cluster>, ls: seq<Label>, n: nat, top: Id)
    requires IsPatient(cs, ls) && n <= |ls| && WellFormed(cs[0]) && WaitersAttended(cs[0], top) && IsTop(cs[0].nodes.Keys, top)
    ensures Calmly(cs[n], cs[0], top)
  {
    var start := cs[0];
    var holds := (c: Cluster) => Calmly(c, start, top);
    forall i, next | 0 <= i < n && next == i + 1 && holds(cs[i]) ensures holds(cs[next]) { CalmlyAt(cs, ls, i, next, start, top); }
    Throughout(cs, 0, n, holds);
  }

  /** If nodes wait long enough, then starting from any well-formed state, for instance one in which
      nobody waits, no node but the highest ever becomes coordinator. */
  lemma OnlyTopTakesOver(cs: seq<Cluster>, ls: seq<Label>, n: nat, top: Id, p: Id)
    requires IsPatient(cs, ls) && n <= |ls| && WellFormed(cs[0]) && WaitersAttended(cs[0], top) && IsTop(cs[0].nodes.Keys, top)
    requires p in cs[0].nodes && p != top && cs[0].nodes[p].election != ElectionState.Coordinator
    ensures p in cs[n].nodes && cs[n].nodes[p].election != ElectionState.Coordinator
  {
    PatientRun(cs, ls, n, top);
  }

  // ---------------------------------------------------------------- names

  /** The highest node will hold an election, or everyone else knows it or will be told. */
  ghost predicate NameSpreads(c: Cluster, top: Id)
    requires top in c.nodes
  {
    || TopIsChallenged(c, top) || c.nodes[top].election == WaitingForElection
    || forall p | p in c.nodes && p != top :: c.nodes[p].coordinatorId == Some(top) || Announced(c, top, p)
  }

  lemma CalmKeepsName(c: Cluster, c': Cluster, top: Id)
    requires top in c.nodes && Calm(c, c') && NameSpreads(c, top)
    ensures NameSpreads(c', top)
  {
    if TopIsChallenged(c, top) {
      var e :| e in c.pending && e.PeerMessage? && e.to == top && (e.message.Election? || e.message.Coordinator?);
      assert IsElectionEvent(e) && e in c'.pending;
    } else if c.nodes[top].election != WaitingForElection {
      assert forall p, b :: IsElectionEvent(PeerMessage(p, top, Message.Coordinator(b)));
    }
  }

  lemma TopKeepsName(c: Cluster, e: Event, order: seq<Id>, c': Cluster, top: Id)
    requires WellFormed(c) && IsTop(c.nodes.Keys, top) && NameSpreads(c, top)
    requires IsElectionEvent(e) && Target(e) == top && WellAddressed(c.nodes.Keys, e) && IsOrder(order, c.nodes[top].peers)
    requires Handles(c, e, c.nodes[top].HandleEvent(e, order), c')
    ensures NameSpreads(c', top)
  {
    var n := c.nodes[top];
    var r := n.HandleEvent(e, order);
    TopReacts(c, n, e, order, top);
    if r.node == n && e.ElectionTimeout? {
      assert c'.nodes == c.nodes;
    } else if r.node.election != WaitingForElection {
      AnnouncingNames(c, e, r, c', top, HasMajority(|n.peers| + 1, |n.config.peers|));
    }
  }

  lemma AnnouncingNames(c: Cluster, e: Event, r: Reaction, c': Cluster, top: Id, flag: bool)
    requires Target(e) == top && Handles(c, e, r, c')
    requires forall p | p in c.nodes && p != top :: PeerMessage(p, top, Message.Coordinator(flag)) in r.out
    ensures NameSpreads(c', top)
  {
    forall p | p in c'.nodes && p != top ensures Announced(c', top, p) {
      assert PeerMessage(p, top, Message.Coordinator(flag)) in r.out;
    }
  }

  lemma OthersKeepName(c: Cluster, e: Event, order: seq<Id>, c': Cluster, top: Id)
    requires WellFormed(c) && IsTop(c.nodes.Keys, top) && OnlyTopAnnounces(c.pending, top) && NameSpreads(c, top)
    requires IsElectionEvent(e) && Target(e) in c.nodes && Target(e) != top && e in c.pending && WellAddressed(c.nodes.Keys, e)
    requires IsOrder(order, c.nodes[Target(e)].peers) && Handles(c, e, c.nodes[Target(e)].HandleEvent(e, order), c')
    ensures NameSpreads(c', top)
  {
    var n := c.nodes[Target(e)];
    var r := n.HandleEvent(e, order);
    OthersReact(c, n, e, order, top);
    if TopIsChallenged(c, top) {
      OthersKeepChallenge(c, e, r, c', top);
    } else if ChallengesTop(r.out, top) {
      ChallengeArrives(c, e, r, c', top);
    } else if c.nodes[top].election != WaitingForElection {
      forall p | p in c'.nodes && p != top ensures c'.nodes[p].coordinatorId == Some(top) || Announced(c', top, p) {
        OneIsNamed(c, e, r, c', top, p);
      }
    }
  }

  lemma OneIsNamed(c: Cluster, e: Event, r: Reaction, c': Cluster, top: Id, p: Id)
    requires OnlyTopAnnounces(c.pending, top) && e in c.pending && Handles(c, e, r, c')
    requires p in c.nodes && p != top && (c.nodes[p].coordinatorId == Some(top) || Announced(c, top, p))
    requires || (r.node.coordinatorId == c.nodes[Target(e)].coordinatorId && !(e.PeerMessage? && e.message.Coordinator?))
             || (e.PeerMessage? && e.message.Coordinator? && r.node.coordinatorId == Some(e.sender))
    ensures c'.nodes[p].coordinatorId == Some(top) || Announced(c', top, p)
  {
  }

  lemma StepKeepsName(c: Cluster, l: Label, c': Cluster, top: Id)
    requires WellFormed(c) && IsTop(c.nodes.Keys, top) && Step(c, l, c')
    requires OnlyTopAnnounces(c.pending, top) && (NameSpreads(c, top) || l.Trigger?)
    ensures top in c'.nodes && NameSpreads(c', top)
  {
    if l.Trigger? {
      TriggerDecides(c, l, c', top);
    } else if IsElectionStep(c, l) {
      StepHandles(c, l, c');
      var e := c.pending[l.i];
      if Target(e) == top { TopKeepsName(c, e, l.order, c', top); } else { OthersKeepName(c, e, l.order, c', top); }
    } else {
      CalmSteps(c, l, c');
      CalmKeepsName(c, c', top);
    }
  }

  /** What holds throughout a patient run in which only the highest node has announced itself. */
  ghost predicate Patiently(c: Cluster, ids: set<Id>, top: Id) {
    WellFormed(c) && c.nodes.Keys == ids && IsTop(ids, top) && WaitersAttended(c, top) && OnlyTopAnnounces(c.pending, top)
  }

  ghost predicate Naming(c: Cluster, ids: set<Id>, top: Id) {
    Patiently(c, ids, top) && NameSpreads(c, top)
  }

  lemma PatientlyAt(cs: seq<Cluster>, ls: seq<Label>, i: nat, next: nat, ids: set<Id>, top: Id)
    requires IsPatient(cs, ls) && i < |ls| && next == i + 1 && Patiently(cs[i], ids, top)
    ensures Patiently(cs[next], ids, top)
  {
    RunStep(cs, ls, i);
    assert PatientAt(cs, ls, i);
    StepKeepsWellFormed(cs[i], ls[i], cs[next]);
    PatientStepKeeps(cs[i], ls[i], cs[next], top);
  }

  lemma NamingAt(cs: seq<Cluster>, ls: seq<Label>, i: nat, next: nat, ids: set<Id>, top: Id)
    requires IsPatient(cs, ls) && i < |ls| && next == i + 1 && Patiently(cs[i], ids, top)
    requires NameSpreads(cs[i], top) || ls[i].Trigger?
    ensures Naming(cs[next], ids, top)
  {
    RunStep(cs, ls, i);
    PatientlyAt(cs, ls, i, next, ids, top);
    StepKeepsName(cs[i], ls[i], cs[next], top);
  }

  lemma PatientRunNames(cs: seq<Cluster>, ls: seq<Label>, ids: set<Id>, top: Id)
    requires IsPatient(cs, ls) && SomeTrigger(ls) && Patiently(cs[0], ids, top)
    ensures Naming(cs[|ls|], ids, top)
  {
    var i :| 0 <= i < |ls| && ls[i].Trigger?;
    var after := i + 1;
    var patient, naming := (c: Cluster) => Patiently(c, ids, top), (c: Cluster) => Naming(c, ids, top);
    forall j, next | 0 <= j < i && next == j + 1 && patient(cs[j]) ensures patient(cs[next]) { PatientlyAt(cs, ls, j, next, ids, top); }
    Throughout(cs, 0, i, patient);
    NamingAt(cs, ls, i, after, ids, top);
    forall j, next | after <= j < |ls| && next == j + 1 && naming(cs[j]) ensures naming(cs[next]) { NamingAt(cs, ls, j, next, ids, top); }
    Throughout(cs, after, |ls|, naming);
  }

  lemma RestIsNamed(c: Cluster, top: Id)
    requires WellFormed(c) && top in c.nodes && NameSpreads(c, top) && AtRest(c)
    ensures forall p | p in c.nodes && p != top :: c.nodes[p].coordinatorId == Some(top)
  {
    assert IsElectionEvent(ElectionTimeout(top));
    forall p | p in c.nodes && p != top ensures !Announced(c, top, p) { NotAnnouncedAtRest(c, top, p); }
  }

  /** If nodes wait long enough, and nobody but the highest node has an announcement on its way at
      first, then once an election has come to rest everyone knows the highest node as coordinator. */
  lemma PatientElectionsInform(c: Cluster, cs: seq<Cluster>, ls: seq<Label>, last: Cluster, top: Id)
    requires WellFormed(c) && IsTop(c.nodes.Keys, top) && WaitersAttended(c, top) && OnlyTopAnnounces(c.pending, top)
    requires IsPatient(cs, ls) && ElectionRun(c, cs, ls, last)
    ensures last.nodes.Keys == c.nodes.Keys && forall p | p in last.nodes :: last.nodes[p].coordinatorId == Some(top)
  {
    PatientRunNames(cs, ls, c.nodes.Keys, top);
    RestIsNamed(last, top);
    ElectionIsCorrect(c, cs, ls, last, top);
  }
}
