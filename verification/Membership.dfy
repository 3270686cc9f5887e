/** Joins, losses and majorities, in any environment. */
module Membership {
  import opened Wrappers
  import opened Ipv4
  import opened ServerNode
  import Dhcp

  /** Everything that can happen to a node. */
  datatype Input =
    | Arrives(e: Event)
    | Established(peer: Id)
    | Shakes(h: Handshake)
    | Lost(peer: Id)
    | Asked(mac: Dhcp.MacAddr, now: Dhcp.Time, stamp: Dhcp.Time)
    | Confirmed(mac: Dhcp.MacAddr, ip: Address, time: Dhcp.Time)

  function Outcome(n: Node, i: Input, announceOrder: seq<Id>, order: seq<Id>): Reaction {
    match i
    case Arrives(e) => n.HandleEvent(e, order)
    case Established(peer) => n.PeerEstablished(peer, order)
    case Shakes(h) => n.AnswerHandshake(h, order)
    case Lost(peer) => n.RemovePeer(peer, announceOrder, order)
    case Asked(mac, now, stamp) =>
      var r := n.HandleLeaseRequest(mac, now, stamp);
      React(r.node, r.out)
    case Confirmed(mac, ip, time) =>
      var r := n.HandleConfirmRequest(mac, ip, time, order);
      React(r.node, r.out)
  }

  /** A node and how many of its election timers are running. */
  datatype Local = Local(node: Node, timers: nat)

  predicate IsTimer(i: Input) {
    i.Arrives? && i.e.ElectionTimeout?
  }

  function TimersIn(out: seq<Event>): nat {
    if out == [] then 0 else TimersIn(out[..|out| - 1]) + if out[|out| - 1].ElectionTimeout? then 1 else 0
  }

  lemma {:induction false} TimerCounts(out: seq<Event>, e: Event)
    requires e in out && e.ElectionTimeout?
    ensures TimersIn(out) > 0
  {
    if out[|out| - 1] != e { TimerCounts(out[..|out| - 1], e); }
  }

  lemma {:induction false} TimersConcat(a: seq<Event>, b: seq<Event>)
    ensures TimersIn(a + b) == TimersIn(a) + TimersIn(b)
  {
    if b == [] {
      assert a + b == a;
    } else {
      TimersConcat(a, b[..|b| - 1]);
      assert (a + b)[..|a + b| - 1] == a + b[..|b| - 1];
    }
  }

  lemma OneTimer(e: Event)
    ensures TimersIn([e]) == if e.ElectionTimeout? then 1 else 0
  {
    assert [e][..0] == [];
  }

  /** Starting an election sets exactly one timer. */
  lemma StartSetsOneTimer(n: Node, order: seq<Id>)
    ensures TimersIn(n.StartElection(order).out) == 1
  {
    ElectionsSetNone(n.config.id, order);
    TimersConcat(Elections(n.config.id, order), [ElectionTimeout(n.config.id)]);
    OneTimer(ElectionTimeout(n.config.id));
  }

  lemma {:induction false} ElectionsSetNone(me: Id, order: seq<Id>)
    ensures TimersIn(Elections(me, order)) == 0
  {
    if order != [] {
      var last := order[|order| - 1];
      ElectionsSetNone(me, order[..|order| - 1]);
      TimersConcat(Elections(me, order[..|order| - 1]), if last > me then [PeerMessage(last, me, Election)] else []);
      OneTimer(PeerMessage(last, me, Election));
    }
  }

  /** A timer fires only if it is running, and those that are set start to run. */
  ghost predicate NodeStep(v: Local, i: Input, announceOrder: seq<Id>, order: seq<Id>, v': Local) {
    && Outcome(v.node, i, announceOrder, order).React? && Outcome(v.node, i, announceOrder, order).node == v'.node
    && IsOrder(announceOrder, v'.node.peers) && IsOrder(order, v'.node.peers)
    && (IsTimer(i) ==> v.timers > 0)
    && v'.timers == v.timers - (if IsTimer(i) then 1 else 0) + TimersIn(Outcome(v.node, i, announceOrder, order).out)
  }

  /** The states of a node that was started with some configuration, after `steps` inputs. */
  ghost predicate ReachableIn(v: Local, steps: nat)
    decreases steps
  {
    if steps == 0 then v == Local(Node.New(v.node.config), 0)
    else exists u :: ReachableIn(u, steps - 1) && Follows(u, v)
  }

  ghost predicate Follows(v: Local, v': Local) {
    exists i, announceOrder, order :: NodeStep(v, i, announceOrder, order, v')
  }

  ghost predicate IsReached(v: Local) {
    exists steps: nat :: ReachableIn(v, steps)
  }

  ghost predicate Reachable(n: Node) {
    exists v :: IsReached(v) && v.node == n
  }

  predicate HasQuorum(n: Node) {
    HasMajority(|n.peers| + 1, |n.config.peers|)
  }

  /** A coordinator names itself, and knows whether its view is a majority. */
  predicate CoordinatorKnows(n: Node) {
    n.election == ElectionState.Coordinator ==> n.coordinatorId == Some(n.config.id) && n.majority == HasQuorum(n)
  }

  lemma AnnouncingKnows(n: Node, order: seq<Id>)
    requires n.AnnounceIfCoordinator(order).React?
    ensures CoordinatorKnows(n.AnnounceIfCoordinator(order).node)
  {
  }

  lemma EventKeepsKnowing(n: Node, e: Event, order: seq<Id>)
    requires CoordinatorKnows(n) && n.HandleEvent(e, order).React?
    ensures CoordinatorKnows(n.HandleEvent(e, order).node)
  {
  }

  lemma StepKeepsKnowing(v: Local, i: Input, announceOrder: seq<Id>, order: seq<Id>, v': Local)
    requires CoordinatorKnows(v.node) && NodeStep(v, i, announceOrder, order, v')
    ensures CoordinatorKnows(v'.node)
  {
    var n := v.node;
    match i
    case Arrives(e) => EventKeepsKnowing(n, e, order);
    case Established(peer) =>
    case Shakes(h) =>
      AnnouncingKnowsAfter(n, h, order);
    case Lost(peer) =>
      if n.(peers := n.peers - {peer}).AnnounceIfCoordinator(announceOrder).React? {
        AnnouncingKnows(n.(peers := n.peers - {peer}), announceOrder);
      }
    case Asked(mac, now, stamp) =>
    case Confirmed(mac, ip, time) =>
  }

  lemma AnnouncingKnowsAfter(n: Node, h: Handshake, order: seq<Id>)
    requires CoordinatorKnows(n) && n.AnswerHandshake(h, order).React?
    ensures CoordinatorKnows(n.AnswerHandshake(h, order).node)
  {
    var m := if h.Joined? then n.(peers := n.peers + {h.peer}) else n;
    if m.AnnounceIfCoordinator(order).React? { AnnouncingKnows(m, order); }
  }

  lemma {:induction false} ReachableKnows(v: Local, steps: nat)
    requires ReachableIn(v, steps)
    ensures CoordinatorKnows(v.node)
    decreases steps
  {
    if steps > 0 {
      var u :| ReachableIn(u, steps - 1) && Follows(u, v);
      ReachableKnows(u, steps - 1);
      FollowingKnows(u, v);
    }
  }

  lemma FollowingKnows(u: Local, v: Local)
    requires CoordinatorKnows(u.node) && Follows(u, v)
    ensures CoordinatorKnows(v.node)
  {
    var i, announceOrder, order :| NodeStep(u, i, announceOrder, order, v);
    StepKeepsKnowing(u, i, announceOrder, order, v);
  }

  lemma ReachedKnows(n: Node)
    requires Reachable(n)
    ensures CoordinatorKnows(n)
  {
    var v :| IsReached(v) && v.node == n;
    var steps :| ReachableIn(v, steps);
    ReachableKnows(v, steps);
  }

  /** Through any joins, losses, elections and messages, a coordinator's known coordinator is
      itself, and its flag says whether it sees more than half of the configured nodes. */
  lemma CoordinatorFlagIsExact(n: Node)
    requires Reachable(n) && n.election == ElectionState.Coordinator
    ensures n.coordinatorId == Some(n.config.id)
    ensures n.majority <==> 2 * (|n.peers| + 1) > |n.config.peers| + 1
  {
    ReachedKnows(n);
  }

  // ---------------------------------------------------------------- who serves knows a coordinator

  predicate ServesInformed(n: Node) {
    n.majority ==> n.coordinatorId.Some?
  }

  lemma StepServesInformed(v: Local, i: Input, announceOrder: seq<Id>, order: seq<Id>, v': Local)
    requires ServesInformed(v.node) && NodeStep(v, i, announceOrder, order, v')
    ensures ServesInformed(v'.node)
  {
  }

  lemma {:induction false} ReachableServesInformed(v: Local, steps: nat)
    requires ReachableIn(v, steps)
    ensures ServesInformed(v.node)
    decreases steps
  {
    if steps > 0 {
      var u :| ReachableIn(u, steps - 1) && Follows(u, v);
      ReachableServesInformed(u, steps - 1);
      var i, announceOrder, order :| NodeStep(u, i, announceOrder, order, v);
      StepServesInformed(u, i, announceOrder, order, v);
    }
  }

  /** Until it knows a coordinator, a node answers no client. */
  lemma UninformedIsSilent(n: Node, mac: Dhcp.MacAddr, ip: Address, now: Dhcp.Time, stamp: Dhcp.Time, order: seq<Id>)
    requires Reachable(n) && n.coordinatorId == None
    ensures n.HandleLeaseRequest(mac, now, stamp).answer == None && n.HandleConfirmRequest(mac, ip, now, order).answer == None
  {
    var v :| IsReached(v) && v.node == n;
    var steps :| ReachableIn(v, steps);
    ReachableServesInformed(v, steps);
  }

  // ---------------------------------------------------------------- who waits has a timer

  ghost predicate WaitsWithTimer(v: Local) {
    v.node.election == WaitingForElection ==> v.timers > 0
  }

  /** Whoever starts to wait sets a timer, and one that fires ends the waiting. */
  lemma OutcomeSetsTimer(n: Node, i: Input, announceOrder: seq<Id>, order: seq<Id>)
    requires Outcome(n, i, announceOrder, order).React?
    ensures var r := Outcome(n, i, announceOrder, order);
            r.node.election == WaitingForElection ==>
              ElectionTimeout(n.config.id) in r.out || (n.election == WaitingForElection && !IsTimer(i))
  {
    match i
    case Arrives(e) =>
    case Established(peer) =>
    case Shakes(h) =>
    case Lost(peer) => LossSetsTimer(n, peer, announceOrder, order);
    case Asked(mac, now, stamp) =>
    case Confirmed(mac, ip, time) =>
  }

  lemma LossSetsTimer(n: Node, peer: Id, announceOrder: seq<Id>, order: seq<Id>)
    requires n.RemovePeer(peer, announceOrder, order).React?
    ensures var r := n.RemovePeer(peer, announceOrder, order);
            r.node.election == WaitingForElection ==> ElectionTimeout(n.config.id) in r.out || n.election == WaitingForElection
  {
  }

  lemma StepKeepsTimer(v: Local, i: Input, announceOrder: seq<Id>, order: seq<Id>, v': Local)
    requires WaitsWithTimer(v) && NodeStep(v, i, announceOrder, order, v')
    ensures WaitsWithTimer(v')
  {
    var r := Outcome(v.node, i, announceOrder, order);
    OutcomeSetsTimer(v.node, i, announceOrder, order);
    if ElectionTimeout(v.node.config.id) in r.out { TimerCounts(r.out, ElectionTimeout(v.node.config.id)); }
  }

  lemma {:induction false} ReachableWaitsWithTimer(v: Local, steps: nat)
    requires ReachableIn(v, steps)
    ensures WaitsWithTimer(v)
    decreases steps
  {
    if steps > 0 {
      var u :| ReachableIn(u, steps - 1) && Follows(u, v);
      ReachableWaitsWithTimer(u, steps - 1);
      var i, announceOrder, order :| NodeStep(u, i, announceOrder, order, v);
      StepKeepsTimer(u, i, announceOrder, order, v);
    }
  }

  /** No node waits for ever: through any joins, losses, elections and messages, one that waits has a
      running timer. */
  lemma WaitingEnds(v: Local)
    requires IsReached(v) && v.node.election == WaitingForElection
    ensures v.timers > 0
  {
    var steps :| ReachableIn(v, steps);
    ReachableWaitsWithTimer(v, steps);
  }

  // ---------------------------------------------------------------- who may claim a majority

  /** Every reachable node in this role that serves clients has a majority in view. */
  ghost predicate ClaimsAreSound(role: ElectionState) {
    forall n | Reachable(n) && n.election == role && n.majority :: HasQuorum(n)
  }

  /** A node's majority flag can be trusted if and only if it is the coordinator. A follower
      repeats what it was told, and while it waits for an election it still goes by that. */
  lemma ClaimIsSoundIffCoordinator(role: ElectionState)
    ensures ClaimsAreSound(role) <==> role == ElectionState.Coordinator
  {
    if role == ElectionState.Coordinator {
      forall n | Reachable(n) && n.election == role && n.majority ensures HasQuorum(n) {
        ReachedKnows(n);
      }
    } else {
      var n := StaleClaim(role);
    }
  }

  lemma StaleClaim(role: ElectionState) returns (n: Node)
    requires role != ElectionState.Coordinator
    ensures Reachable(n) && n.election == role && n.majority && !HasQuorum(n)
  {
    var v0 := Local(Node.New(STALE_CONFIG), 0);
    var v1 := Local(v0.node.(peers := {9}, election := WaitingForElection), 1);
    var v2 := Local(v1.node.(coordinatorId := Some(9), election := Follower, majority := true), 1);
    var v3 := Local(v2.node.(peers := {}, election := WaitingForElection), 2);
    StaleSteps(v0, v1, v2, v3);
    assert ReachableIn(v0, 0);
    Extend(v0, 0, Established(9), [9], v1);
    Extend(v1, 1, Arrives(PeerMessage(0, 9, Message.Coordinator(true))), [9], v2);
    Extend(v2, 2, Lost(9), [], v3);
    if role == Follower { return v2.node; } else { return v3.node; }
  }

  const STALE_CONFIG := Config(0, [1, 2, 3, 9], Bounds(0, 0), 0)

  /** Node 0 of five meets node 9, hears from it that it has a majority, and loses it again. */
  lemma StaleSteps(v0: Local, v1: Local, v2: Local, v3: Local)
    requires v0 == Local(Node.New(STALE_CONFIG), 0)
    requires v1 == Local(v0.node.(peers := {9}, election := WaitingForElection), 1)
    requires v2 == Local(v1.node.(coordinatorId := Some(9), election := Follower, majority := true), 1)
    requires v3 == Local(v2.node.(peers := {}, election := WaitingForElection), 2)
    ensures NodeStep(v0, Established(9), [9], [9], v1)
    ensures NodeStep(v1, Arrives(PeerMessage(0, 9, Message.Coordinator(true))), [9], [9], v2)
    ensures NodeStep(v2, Lost(9), [], [], v3)
  {
    MeetsNine(v0, v1);
    assert TimersIn([]) == 0;
    NineIsLost(v2, v3);
  }

  lemma MeetsNine(v0: Local, v1: Local)
    requires v0 == Local(Node.New(STALE_CONFIG), 0)
    requires v1 == Local(v0.node.(peers := {9}, election := WaitingForElection), 1)
    ensures NodeStep(v0, Established(9), [9], [9], v1)
  {
    var met := v0.node.(peers := {9});
    assert v0.node.peers + {9} == {9};
    StartSetsOneTimer(met, [9]);
    var hello := PeerMessage(9, 0, LeaseTable([]));
    OneTimer(hello);
    TimersConcat([hello], met.StartElection([9]).out);
  }

  lemma NineIsLost(v2: Local, v3: Local)
    requires v2.node.peers == {9} && v2.node.coordinatorId == Some(9) && v2.node.election == Follower
    requires v3 == Local(v2.node.(peers := {}, election := WaitingForElection), v2.timers + 1)
    ensures NodeStep(v2, Lost(9), [], [], v3)
  {
    var alone := v2.node.(peers := {});
    assert v2.node.peers - {9} == {};
    StartSetsOneTimer(alone, []);
    assert [] + alone.StartElection([]).out == alone.StartElection([]).out;
  }

  lemma Extend(u: Local, steps: nat, i: Input, order: seq<Id>, v: Local)
    requires ReachableIn(u, steps) && NodeStep(u, i, order, order, v)
    ensures ReachableIn(v, steps + 1) && Reachable(v.node)
  {
    assert Follows(u, v);
    assert ReachableIn(v, steps + 1);
    assert IsReached(v);
  }

  // ---------------------------------------------------------------- quorums

  lemma {:induction false} SubsetIsNotLarger(a: set<Id>, b: set<Id>)
    requires a <= b
    ensures |a| <= |b|
  {
    if a != {} {
      var x :| x in a;
      SubsetIsNotLarger(a - {x}, b - {x});
    }
  }

  /** A coordinator with majority, in a cluster configured with the nodes `all`. */
  ghost predicate Serves(n: Node, all: set<Id>) {
    && Reachable(n) && n.election == ElectionState.Coordinator && n.majority
    && n.config.id !in n.peers && Group(n) <= all && |all| <= |n.config.peers| + 1
  }

  /** Any two coordinators with majority have some node in common. */
  lemma QuorumsIntersect(a: Node, b: Node, all: set<Id>)
    requires Serves(a, all) && Serves(b, all)
    ensures exists x :: x in Group(a) && x in Group(b)
  {
    CoordinatorFlagIsExact(a);
    CoordinatorFlagIsExact(b);
    if Group(a) * Group(b) == {} {
      assert |Group(a) + Group(b)| == |Group(a)| + |Group(b)|;
      SubsetIsNotLarger(Group(a) + Group(b), all);
      assert false;
    }
    var x :| x in Group(a) * Group(b);
  }

  /** If the network has split into cliques, so that views are equal or disjoint, then at most one
      of the cliques has a coordinator with majority. */
  lemma OneCliqueServes(nodes: set<Node>, all: set<Id>, a: Node, b: Node)
    requires forall m, n | m in nodes && n in nodes :: Group(m) == Group(n) || Group(m) !! Group(n)
    requires a in nodes && b in nodes && Serves(a, all) && Serves(b, all)
    ensures Group(a) == Group(b)
  {
    QuorumsIntersect(a, b, all);
  }
}
