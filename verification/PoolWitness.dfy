/** A run of two nodes that have lost their coordinator, node 2, from a quiet start through an election
    to a quiet end, at which both have the same pool. Each node's messages to the other arrive in the order in which
    they were sent; only a timer fires early. */
module PoolWitness {
  import opened Wrappers
  import opened Ipv4
  import opened ServerNode
  import opened Cluster
  import opened Election
  import opened ElectionOutcomes
  import Dhcp

  /** A node that knows the given coordinator, and thinks so of the majority. */
  function Member(id: Id, other: Id, role: ElectionState, known: Option<Id>, majority: bool, pool: Ipv4Range): Node {
    Node(Config(id, [other, 2], Bounds(0, 2), 5), known, Dhcp.State.New(pool, 5, []), {other}, role, majority)
  }

  function Duo(a: Node, b: Node, es: seq<Event>): Cluster {
    Cluster(map[0 := a, 1 := b], es)
  }

  const LOWER := Bounds(0, 1)
  const UPPER := Bounds(1, 2)
  const START := Duo(Member(0, 1, Follower, Some(2), true, Bounds(0, 2)), Member(1, 0, Follower, Some(2), true, Bounds(0, 2)), [])

  function Other(id: Id): Id {
    if id == 0 then 1 else 0
  }

  function Reign(id: Id): Event {
    PeerMessage(Other(id), id, Message.Coordinator(true))
  }

  function Share(id: Id): Event {
    PeerMessage(Other(id), id, SetPool(UPPER))
  }

  /** Some run leads from the first state to the second. */
  ghost predicate Reaches(c: Cluster, d: Cluster) {
    exists cs, ls :: RunsTo(c, cs, ls, d)
  }

  ghost predicate RunsTo(c: Cluster, cs: seq<Cluster>, ls: seq<Label>, d: Cluster) {
    IsRun(cs, ls) && cs[0] == c && cs[|ls|] == d
  }

  lemma ReachesNext(c: Cluster, d: Cluster, l: Label, e: Cluster)
    requires Reaches(c, d) && Step(d, l, e)
    ensures Reaches(c, e)
  {
    var cs, ls :| RunsTo(c, cs, ls, d);
    var cs', ls' := cs + [e], ls + [l];
    forall i | 0 <= i < |ls'| ensures StepAt(cs', ls', i) {
      if i < |ls| { assert StepAt(cs, ls, i); }
    }
    assert RunsTo(c, cs', ls', e);
  }

  lemma OneInOrder(p: Id)
    ensures IsOrder([p], {p})
  {
    assert [p][0] == p;
  }

  /** Pending event number `i` makes node 0 become `a'` and send `out`. */
  lemma At0(a: Node, b: Node, es: seq<Event>, i: nat, a': Node, out: seq<Event>, es': seq<Event>)
    requires Reaches(START, Duo(a, b, es)) && i < |es| && Target(es[i]) == 0 && a.peers == {1}
    requires a.HandleEvent(es[i], [1]) == React(a', out) && es' == Without(es, i) + out
    ensures Reaches(START, Duo(a', b, es'))
  {
    OneInOrder(1);
    assert Duo(a', b, es').nodes == Duo(a, b, es).nodes[0 := a'];
    ReachesNext(START, Duo(a, b, es), Process(i, [1]), Duo(a', b, es'));
  }

  lemma At1(a: Node, b: Node, es: seq<Event>, i: nat, b': Node, out: seq<Event>, es': seq<Event>)
    requires Reaches(START, Duo(a, b, es)) && i < |es| && Target(es[i]) == 1 && b.peers == {0}
    requires b.HandleEvent(es[i], [0]) == React(b', out) && es' == Without(es, i) + out
    ensures Reaches(START, Duo(a, b', es'))
  {
    OneInOrder(0);
    assert Duo(a, b', es').nodes == Duo(a, b, es).nodes[1 := b'];
    ReachesNext(START, Duo(a, b, es), Process(i, [0]), Duo(a, b', es'));
  }

  lemma Halves()
    ensures Divided(Bounds(0, 2), 2) == [LOWER, UPPER]
  {
    HalvesOf(Bounds(0, 2), 2);
  }

  lemma HalvesOf(r: Ipv4Range, parts: nat)
    requires Len(r) == 2 && parts == 2
    ensures Divided(r, parts) == [Bounds(r.start, r.start + 1), Bounds(r.start + 1, r.end)]
  {
    var pools := Divided(r, parts);
    assert pools[0 + 1].start == pools[0].end;
    assert Len(pools[0]) == 1;
  }

  /** Either node rules by taking the lower half and giving away the upper one. */
  lemma Rules(id: Id, other: Id, known: Option<Id>, majority: bool, pool: Ipv4Range)
    requires id <= 1 && other == Other(id)
    ensures Member(id, other, WaitingForElection, known, majority, pool).HandleEvent(ElectionTimeout(id), [other]) ==
            React(Member(id, other, ElectionState.Coordinator, Some(id), true, LOWER), [Reign(id), Share(id)])
  {
    var n := Member(id, other, WaitingForElection, known, majority, pool);
    Halves();
    RoundSends(id, other);
    assert |{other}| == 1;
    assert HasMajority(|n.peers| + 1, |n.config.peers|);
  }

  lemma RoundSends(id: Id, other: Id)
    requires id <= 1 && other == Other(id)
    ensures Broadcast(id, [other], Message.Coordinator(true)) + Assignments(id, [other], [LOWER, UPPER]) == [Reign(id), Share(id)]
  {
    assert [other][..0] == [];
    assert Broadcast(id, [], Message.Coordinator(true)) == [];
    assert Broadcast(id, [other], Message.Coordinator(true)) == [Reign(id)];
    assert Assignments(id, [], [LOWER, UPPER]) == [];
    assert Assignments(id, [other], [LOWER, UPPER]) == [Share(id)];
  }

  lemma Asks()
    ensures Elections(0, [1]) == [PeerMessage(1, 0, Election)] && Elections(1, [0]) == []
  {
    assert [1 as Id][..0] == [] && [0 as Id][..0] == [];
    assert Elections(0, []) == [] && Elections(1, []) == [];
  }

  const RULER0 := Member(0, 1, ElectionState.Coordinator, Some(0), true, LOWER)
  const RULER1 := Member(1, 0, ElectionState.Coordinator, Some(1), true, LOWER)
  const LOSER1 := Member(1, 0, ElectionState.Coordinator, Some(1), true, UPPER)
  const LOSER0 := Member(0, 1, Follower, Some(1), true, UPPER)

  lemma DropTimer(e: Event, timer: Event, x: Event, y: Event)
    ensures Without([e, timer], 1) + [x, y] == [e, x, y]
  {
    assert [e, timer][..1] == [e] && [e, timer][2..] == [];
  }

  /** Node 0 starts an election, and its timer fires before node 1 has answered. */
  lemma NodeZeroRules()
    ensures Reaches(START, Duo(RULER0, START.nodes[1], [PeerMessage(1, 0, Election), Reign(0), Share(0)]))
  {
    NodeZeroAsks();
    Rules(0, 1, Some(2), true, Bounds(0, 2));
    DropTimer(PeerMessage(1, 0, Election), ElectionTimeout(0), Reign(0), Share(0));
    At0(ASKER0, START.nodes[1], ASKING, 1, RULER0, [Reign(0), Share(0)], [PeerMessage(1, 0, Election), Reign(0), Share(0)]);
  }

  const ASKER0 := Member(0, 1, WaitingForElection, Some(2), true, Bounds(0, 2))
  const ASKING := [PeerMessage(1, 0, Election), ElectionTimeout(0)]

  lemma NodeZeroAsks()
    ensures Reaches(START, Duo(ASKER0, START.nodes[1], ASKING))
  {
    StartReached();
    TriggerAtStart();
    ReachesNext(START, START, Trigger(0, [1], LostCoordinator(2)), Duo(ASKER0, START.nodes[1], ASKING));
  }

  lemma StartReached()
    ensures Reaches(START, START)
  {
    assert RunsTo(START, [START], [], START);
  }

  lemma TriggerAtStart()
    ensures Step(START, Trigger(0, [1], LostCoordinator(2)), Duo(ASKER0, START.nodes[1], ASKING))
  {
    OneInOrder(1);
    Asks();
    TriggerSends(START.nodes[0], [1], LostCoordinator(2));
    assert Duo(ASKER0, START.nodes[1], ASKING).nodes == START.nodes[0 := ASKER0];
    assert [] + ASKING == ASKING;
  }

  /** Node 1 answers and rules in its turn. */
  lemma NodeOneRules()
    ensures Reaches(START, Duo(RULER0, RULER1, [Reign(0), Share(0), PeerMessage(0, 1, Okay), Reign(1), Share(1)]))
  {
    NodeZeroRules();
    Asks();
    var b := Member(1, 0, WaitingForElection, Some(2), true, Bounds(0, 2));
    var es := [Reign(0), Share(0), PeerMessage(0, 1, Okay), ElectionTimeout(1)];
    At1(RULER0, START.nodes[1], [PeerMessage(1, 0, Election), Reign(0), Share(0)], 0, b, [PeerMessage(0, 1, Okay), ElectionTimeout(1)], es);
    Rules(1, 0, Some(2), true, Bounds(0, 2));
    At1(RULER0, b, es, 3, RULER1, [Reign(1), Share(1)], [Reign(0), Share(0), PeerMessage(0, 1, Okay), Reign(1), Share(1)]);
  }

  const LATE := [Share(0), PeerMessage(0, 1, Okay), Reign(1), Share(1), Reign(1), Share(1)]

  /** It hears of node 0's rule, and rules again. */
  lemma NodeOneRulesAgain()
    ensures Reaches(START, Duo(RULER0, RULER1, LATE))
  {
    NodeOneRules();
    Asks();
    var b := Member(1, 0, WaitingForElection, Some(0), true, LOWER);
    var es := [Share(0), PeerMessage(0, 1, Okay), Reign(1), Share(1), ElectionTimeout(1)];
    At1(RULER0, RULER1, [Reign(0), Share(0), PeerMessage(0, 1, Okay), Reign(1), Share(1)], 0, b, [ElectionTimeout(1)], es);
    Rules(1, 0, Some(0), true, LOWER);
    At1(RULER0, b, es, 4, RULER1, [Reign(1), Share(1)], LATE);
  }

  /** Then node 0's old assignment arrives, and node 0 submits. */
  lemma AssignmentsArrive()
    ensures Reaches(START, Duo(LOSER0, LOSER1, []))
  {
    NodeOneRulesAgain();
    var es := [PeerMessage(0, 1, Okay), Reign(1), Share(1), Reign(1), Share(1)];
    At1(RULER0, RULER1, LATE, 0, LOSER1, [], es);
    At0(RULER0, LOSER1, es, 0, RULER0, [], [Reign(1), Share(1), Reign(1), Share(1)]);
    var heard := Member(0, 1, Follower, Some(1), true, LOWER);
    At0(RULER0, LOSER1, [Reign(1), Share(1), Reign(1), Share(1)], 0, heard, [], [Share(1), Reign(1), Share(1)]);
    At0(heard, LOSER1, [Share(1), Reign(1), Share(1)], 0, LOSER0, [], [Reign(1), Share(1)]);
    At0(LOSER0, LOSER1, [Reign(1), Share(1)], 0, LOSER0, [], [Share(1)]);
    At0(LOSER0, LOSER1, [Share(1)], 0, LOSER0, [], []);
  }

  /** An election can leave two nodes with the same pool, with nothing on its way that would change it. */
  lemma ElectionCanSharePool()
    ensures WellFormed(START) && START.pending == [] && forall p | p in START.nodes :: START.nodes[p].election == Follower
    ensures exists c :: Reaches(START, c) && c.pending == [] && 0 in c.nodes && 1 in c.nodes && c.nodes[0].dhcp.pool == c.nodes[1].dhcp.pool == UPPER
  {
    assert START.nodes.Keys == {0, 1};
    assert START.nodes.Keys - {0} == {1} && START.nodes.Keys - {1} == {0};
    AssignmentsArrive();
    var c := Duo(LOSER0, LOSER1, []);
    assert c.nodes[0].dhcp.pool == c.nodes[1].dhcp.pool == UPPER;
  }
}
