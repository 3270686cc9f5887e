/** Two runs of a cluster of three nodes, from an empty cluster to one that has bound an address to
    two MACs: in one a lease expires, in the other a whole table replaces one. */
module LeaseWitnesses {
  import opened Wrappers
  import opened Ipv4
  import opened ServerNode
  import opened Cluster
  import opened LeaseLedger
  import opened Leases
  import opened Epochs
  import Dhcp
  import PoolRound

  const ALICE: Dhcp.MacAddr := [0, 0, 0, 0, 0, 1]
  const BOB: Dhcp.MacAddr := [0, 0, 0, 0, 0, 2]
  const CAROL: Dhcp.MacAddr := [0, 0, 0, 0, 0, 3]
  const DAVE: Dhcp.MacAddr := [0, 0, 0, 0, 0, 4]

  lemma FourMacs()
    ensures ALICE != BOB && CAROL != DAVE
  {
    assert ALICE[5] != BOB[5] && CAROL[5] != DAVE[5];
  }

  // ---------------------------------------------------------------- the cluster

  function Members(order: seq<Id>): set<Id> {
    set p | p in order
  }

  function Member(id: Id, others: seq<Id>, role: ElectionState, s: Dhcp.State): Node {
    Node(Config(id, others, Bounds(7, 11), 5), Some(2), s, Members(others), role, true)
  }

  /** Nodes 0, 1 and 2, connected to each other; node 2 is the coordinator. */
  function Trio(s0: Dhcp.State, s1: Dhcp.State, es: seq<Event>): Cluster {
    Cluster(map[0 := Member(0, [1, 2], Follower, s0), 1 := Member(1, [0, 2], Follower, s1),
                2 := Member(2, [0, 1], ElectionState.Coordinator, Dhcp.State.New(Bounds(7, 8), 5, []))], es)
  }

  const FIRST: Dhcp.State := Dhcp.State.New(Bounds(9, 11), 5, [])
  const SECOND: Dhcp.State := Dhcp.State.New(Bounds(8, 9), 5, [])
  const START := Trio(FIRST, SECOND, [])

  /** A lease of one of the three nodes on its way to the other two. */
  function Told(me: Id, order: seq<Id>, l: Dhcp.Lease): seq<Event> {
    Broadcast(me, order, Message.Lease(l))
  }

  lemma ToldIs(me: Id, a: Id, b: Id, l: Dhcp.Lease)
    ensures Told(me, [a, b], l) == [PeerMessage(a, me, Message.Lease(l)), PeerMessage(b, me, Message.Lease(l))]
  {
    var m := Message.Lease(l);
    assert [a, b][..1] == [a] && [a][..0] == [];
    assert Broadcast(me, [], m) == [];
    assert Broadcast(me, [a], m) == [PeerMessage(a, me, m)];
  }

  lemma TwoMembers(a: Id, b: Id)
    requires a != b
    ensures Members([a, b]) == {a, b} && |{a, b}| == 2
  {
    var order := [a, b];
    assert order[0] == a && order[1] == b;
    assert {a, b} == {a} + {b};
  }

  lemma TwoInOrder(a: Id, b: Id)
    requires a != b
    ensures IsOrder([a, b], Members([a, b]))
  {
    TwoMembers(a, b);
    var order := [a, b];
    forall p ensures p in order <==> p in {a, b} {
    }
  }

  lemma StartIsSane()
    ensures Sane(START)
  {
  }

  lemma StartIsEmpty()
    ensures Empty(START)
  {
  }

  /** The cluster starts with the pools of a round of its coordinator. */
  lemma RoundIsApplied()
    ensures PoolRound.Applied(START, START.nodes[2], [1, 0])
  {
    var n := START.nodes[2];
    OrderOfLast();
    DividedInThree();
    forall p | p in START.nodes ensures PoolRound.Given(n, n.BecomeCoordinator([1, 0]), p) == [START.nodes[p].dhcp.pool] {
      PoolRound.GivenAtPlace(n, [1, 0], p, 2 - p);
    }
  }

  lemma OrderOfLast()
    ensures var n := START.nodes[2]; PoolRound.Peers(n, [1, 0]) && |n.peers| == 2 && START.nodes.Keys == Group(n)
    ensures forall p | p in START.nodes :: 0 <= p <= 2 && PoolRound.PlaceIs(START.nodes[2], [1, 0], p, 2 - p)
  {
    var n := START.nodes[2];
    TwoInOrder(1, 0);
    TwoMembers(1, 0);
    TwoMembers(0, 1);
    assert Group(n) == {0, 1, 2} && START.nodes.Keys == {0, 1, 2};
  }

  lemma DividedInThree()
    ensures var pools := Divided(Bounds(7, 11), 3);
            pools[0] == Bounds(7, 8) && pools[1] == Bounds(8, 9) && pools[2] == Bounds(9, 11)
  {
    var pools := Divided(Bounds(7, 11), 3);
    assert Len(pools[0]) == 1 && Len(pools[1]) == 1 && Len(pools[2]) == 2;
  }

  // ---------------------------------------------------------------- steps

  /** Some run without pool changes leads from one state to the other. */
  ghost predicate Reaches(c: Cluster, d: Cluster) {
    exists cs, ls :: RunsTo(c, cs, ls, d)
  }

  ghost predicate RunsTo(c: Cluster, cs: seq<Cluster>, ls: seq<Label>, d: Cluster) {
    IsSteady(cs, ls) && cs[0] == c && cs[|ls|] == d
  }

  lemma ReachesItself(c: Cluster)
    requires Sane(c)
    ensures Reaches(c, c)
  {
    assert RunsTo(c, [c], [], c);
  }

  lemma ReachesNext(c: Cluster, d: Cluster, l: Label, e: Cluster)
    requires Reaches(c, d) && Step(d, l, e) && PoolsStay(d, e)
    ensures Reaches(c, e)
  {
    var cs, ls :| RunsTo(c, cs, ls, d);
    var cs', ls' := cs + [e], ls + [l];
    forall i | 0 <= i < |ls'| ensures SteadyAt(cs', ls', i) {
      if i < |ls| { assert SteadyAt(cs, ls, i); }
    }
    assert RunsTo(c, cs', ls', e);
  }

  lemma RequestStep(d: Cluster, at: Id, mac: Dhcp.MacAddr, now: Dhcp.Time, s: Dhcp.State, e: Cluster)
    requires at in d.nodes && d.nodes[at].majority && d.nodes[at].dhcp.Discover(mac, now, now).state == s
    requires e == Cluster(d.nodes[at := d.nodes[at].(dhcp := s)], d.pending)
    ensures Step(d, LeaseRequest(at, mac, now, now), e)
  {
    assert d.pending + [] == d.pending;
  }

  lemma ConfirmStep(d: Cluster, at: Id, mac: Dhcp.MacAddr, ip: Address, now: Dhcp.Time, s: Dhcp.State, l: Dhcp.Lease, order: seq<Id>, e: Cluster)
    requires at in d.nodes && d.nodes[at].majority && d.nodes[at].config.id == at && IsOrder(order, d.nodes[at].peers)
    requires d.nodes[at].dhcp.Commit(mac, ip, now) == Dhcp.Commitment(s, Success(l))
    requires e == Cluster(d.nodes[at := d.nodes[at].(dhcp := s)], d.pending + Told(at, order, l))
    ensures Step(d, ConfirmRequest(at, mac, ip, now, order), e)
  {
  }

  /** Trios differ in the allocators of nodes 0 and 1 only. */
  lemma TrioUpdate(s0: Dhcp.State, s1: Dhcp.State, es: seq<Event>, s: Dhcp.State, es': seq<Event>)
    ensures var d := Trio(s0, s1, es);
            && Trio(s, s1, es') == Cluster(d.nodes[0 := d.nodes[0].(dhcp := s)], es')
            && Trio(s0, s, es') == Cluster(d.nodes[1 := d.nodes[1].(dhcp := s)], es')
            && (s.pool == s0.pool ==> PoolsStay(d, Trio(s, s1, es')))
            && (s.pool == s1.pool ==> PoolsStay(d, Trio(s0, s, es')))
  {
    var d := Trio(s0, s1, es);
    assert Trio(s, s1, es').nodes == d.nodes[0 := d.nodes[0].(dhcp := s)];
    assert Trio(s0, s, es').nodes == d.nodes[1 := d.nodes[1].(dhcp := s)];
  }

  lemma RequestAt0(c: Cluster, s0: Dhcp.State, s1: Dhcp.State, es: seq<Event>, mac: Dhcp.MacAddr, now: Dhcp.Time, s: Dhcp.State)
    requires Reaches(c, Trio(s0, s1, es)) && s == s0.Discover(mac, now, now).state && s.pool == s0.pool
    ensures Reaches(c, Trio(s, s1, es))
  {
    TrioUpdate(s0, s1, es, s, es);
    RequestStep(Trio(s0, s1, es), 0, mac, now, s, Trio(s, s1, es));
    ReachesNext(c, Trio(s0, s1, es), LeaseRequest(0, mac, now, now), Trio(s, s1, es));
  }

  lemma RequestAt1(c: Cluster, s0: Dhcp.State, s1: Dhcp.State, es: seq<Event>, mac: Dhcp.MacAddr, now: Dhcp.Time, s: Dhcp.State)
    requires Reaches(c, Trio(s0, s1, es)) && s == s1.Discover(mac, now, now).state && s.pool == s1.pool
    ensures Reaches(c, Trio(s0, s, es))
  {
    TrioUpdate(s0, s1, es, s, es);
    RequestStep(Trio(s0, s1, es), 1, mac, now, s, Trio(s0, s, es));
    ReachesNext(c, Trio(s0, s1, es), LeaseRequest(1, mac, now, now), Trio(s0, s, es));
  }

  lemma ConfirmAt0(c: Cluster, s0: Dhcp.State, s1: Dhcp.State, es: seq<Event>, mac: Dhcp.MacAddr, ip: Address, now: Dhcp.Time,
                   s: Dhcp.State, l: Dhcp.Lease)
    requires Reaches(c, Trio(s0, s1, es)) && s0.Commit(mac, ip, now) == Dhcp.Commitment(s, Success(l)) && s.pool == s0.pool
    ensures Reaches(c, Trio(s, s1, es + Told(0, [1, 2], l)))
  {
    var e := Trio(s, s1, es + Told(0, [1, 2], l));
    TwoInOrder(1, 2);
    TrioUpdate(s0, s1, es, s, e.pending);
    ConfirmStep(Trio(s0, s1, es), 0, mac, ip, now, s, l, [1, 2], e);
    ReachesNext(c, Trio(s0, s1, es), ConfirmRequest(0, mac, ip, now, [1, 2]), e);
  }

  lemma ConfirmAt1(c: Cluster, s0: Dhcp.State, s1: Dhcp.State, es: seq<Event>, mac: Dhcp.MacAddr, ip: Address, now: Dhcp.Time,
                   s: Dhcp.State, l: Dhcp.Lease)
    requires Reaches(c, Trio(s0, s1, es)) && s1.Commit(mac, ip, now) == Dhcp.Commitment(s, Success(l)) && s.pool == s1.pool
    ensures Reaches(c, Trio(s0, s, es + Told(1, [0, 2], l)))
  {
    var e := Trio(s0, s, es + Told(1, [0, 2], l));
    TwoInOrder(0, 2);
    TrioUpdate(s0, s1, es, s, e.pending);
    ConfirmStep(Trio(s0, s1, es), 1, mac, ip, now, s, l, [0, 2], e);
    ReachesNext(c, Trio(s0, s1, es), ConfirmRequest(1, mac, ip, now, [0, 2]), e);
  }

  /** The first pending event is a lease for node 0. */
  lemma DeliverTo0(c: Cluster, s0: Dhcp.State, s1: Dhcp.State, es: seq<Event>, l: Dhcp.Lease)
    requires Reaches(c, Trio(s0, s1, es)) && |es| > 0 && es[0] == PeerMessage(0, 1, Message.Lease(l))
    ensures Reaches(c, Trio(s0.AddLease(l), s1, es[1..]))
  {
    var d, e := Trio(s0, s1, es), Trio(s0.AddLease(l), s1, es[1..]);
    TrioUpdate(s0, s1, es, s0.AddLease(l), es[1..]);
    assert Without(es, 0) + [] == es[1..];
    TwoInOrder(1, 2);
    ReachesNext(c, d, Process(0, [1, 2]), e);
  }

  /** The connection between nodes 0 and 1 is renewed. */
  lemma Reconnect(c: Cluster, s0: Dhcp.State, s1: Dhcp.State, es: seq<Event>)
    requires Reaches(c, Trio(s0, s1, es))
    ensures Reaches(c, Trio(s0, s1, es + [PeerMessage(1, 0, LeaseTable(s0.leases))]))
  {
    var d, e := Trio(s0, s1, es), Trio(s0, s1, es + [PeerMessage(1, 0, LeaseTable(s0.leases))]);
    var n := d.nodes[0];
    assert (n.peers - {1}) + {1} == n.peers;
    assert d.nodes[0 := n] == d.nodes && es + [] == es;
    ReachesNext(c, d, Rejoin(0, 1), e);
  }

  /** Pending event number `i` is a longer table for node 1. */
  lemma ReplaceAt1(c: Cluster, s0: Dhcp.State, s1: Dhcp.State, es: seq<Event>, i: nat, table: seq<Dhcp.Lease>)
    requires Reaches(c, Trio(s0, s1, es)) && i < |es| && es[i] == PeerMessage(1, 0, LeaseTable(table)) && |s1.leases| < |table|
    ensures Reaches(c, Trio(s0, s1.(leases := table), Without(es, i)))
  {
    var d, e := Trio(s0, s1, es), Trio(s0, s1.(leases := table), Without(es, i));
    TrioUpdate(s0, s1, es, s1.(leases := table), Without(es, i));
    assert Without(es, i) + [] == Without(es, i);
    TwoInOrder(0, 2);
    ReachesNext(c, d, Process(i, [0, 2]), e);
  }

  // ---------------------------------------------------------------- what the allocators do

  /** The address that the search tries first. */
  function Candidate(s: Dhcp.State): Address {
    if s.next < s.pool.end then s.next else s.pool.start
  }

  lemma OffersCandidate(s: Dhcp.State, mac: Dhcp.MacAddr, now: Dhcp.Time)
    requires s.CursorOk() && s.pool.start < s.pool.end && Dhcp.IndexByMac(s.leases, mac) == |s.leases|
    requires s.pending == [] && !Dhcp.Held(Dhcp.Retain(s.leases, now), Candidate(s))
    ensures s.Discover(mac, now, now).state ==
            s.(leases := Dhcp.Retain(s.leases, now), pending := [Dhcp.Lease(mac, Candidate(s), now + s.leaseTime)], next := Candidate(s) + 1)
  {
    var pruned := s.Prune(now);
    assert pruned.Entries() == Dhcp.Retain(s.leases, now);
    var candidates := IterStartingAt(s.pool, s.next);
    assert candidates[0] == Candidate(s);
    assert pruned.pending == [];
  }

  /** A MAC without a lease is granted the first candidate, and all its entries stay. */
  lemma Grants(s: Dhcp.State, mac: Dhcp.MacAddr, offered: Dhcp.State, granted: Dhcp.State, l: Dhcp.Lease)
    requires s.CursorOk() && s.pool.start < s.pool.end && Dhcp.IndexByMac(s.leases, mac) == |s.leases| && s.pending == []
    requires Dhcp.Retain(s.leases, 0) == s.leases && !Dhcp.Held(s.leases, Candidate(s))
    requires l == Dhcp.Lease(mac, Candidate(s), s.leaseTime)
    requires offered == s.(pending := [l], next := l.ip + 1) && granted == offered.(pending := [], leases := s.leases + [l])
    ensures s.Discover(mac, 0, 0).state == offered && offered.Commit(mac, l.ip, 0) == Dhcp.Commitment(granted, Success(l))
  {
    OffersCandidate(s, mac, 0);
    assert Dhcp.IndexByPair(offered.pending, mac, l.ip) == 0;
    assert offered.pending[..0] + offered.pending[1..] == [];
  }

  const CAROLS := Dhcp.Lease(CAROL, 8, 5)

  lemma CarolIsGranted(c: Cluster, s0: Dhcp.State, es: seq<Event>)
    requires Reaches(c, Trio(s0, SECOND, es))
    ensures Reaches(c, Trio(s0, SECOND.(next := 9, leases := [CAROLS]), es + Told(1, [0, 2], CAROLS)))
  {
    var offered := SECOND.(pending := [CAROLS], next := 9);
    var granted := offered.(pending := [], leases := [CAROLS]);
    Grants(SECOND, CAROL, offered, granted, CAROLS);
    RequestAt1(c, s0, SECOND, es, CAROL, 0, offered);
    ConfirmAt1(c, s0, offered, es, CAROL, 8, 0, granted, CAROLS);
  }

  lemma BoundTwice(c: Cluster, x: Pair, y: Pair)
    requires Known(LedgerOf(c), x) && Known(LedgerOf(c), y) && x != y && x.ip == y.ip
    ensures !Unique(c)
  {
  }

  // ---------------------------------------------------------------- a lease expires

  const DAVES := Dhcp.Lease(DAVE, 8, 16)

  /** Node 1 grants an address to Carol and tells node 0. When the lease has expired it offers the
      address to Dave, while node 0 still has Carol's lease and can renew it. */
  const EXPIRED := Trio(FIRST.(leases := [CAROLS]), SECOND.(next := 9, pending := [DAVES]),
                        [PeerMessage(2, 1, Message.Lease(CAROLS))])

  lemma ExpiryCanBindTwice()
    ensures Empty(START) && Reaches(START, EXPIRED) && !Unique(EXPIRED)
    ensures EXPIRED.nodes[0].dhcp.Commit(CAROL, 8, 11).result.Success?
    ensures EXPIRED.nodes[1].dhcp.Commit(DAVE, 8, 11).result.Success?
  {
    StartIsEmpty();
    CarolIsTold();
    var told := SECOND.(next := 9, leases := [CAROLS]);
    DaveIsOffered(told);
    RequestAt1(START, FIRST.(leases := [CAROLS]), told, EXPIRED.pending, DAVE, 11, SECOND.(next := 9, pending := [DAVES]));
    ExpiredIsBoundTwice();
  }

  lemma CarolIsTold()
    ensures Reaches(START, Trio(FIRST.(leases := [CAROLS]), SECOND.(next := 9, leases := [CAROLS]), EXPIRED.pending))
  {
    StartIsSane();
    ReachesItself(START);
    CarolIsGranted(START, FIRST, []);
    ToldIs(1, 0, 2, CAROLS);
    var es := [] + Told(1, [0, 2], CAROLS);
    assert es[1..] == EXPIRED.pending;
    DeliverTo0(START, FIRST, SECOND.(next := 9, leases := [CAROLS]), es, CAROLS);
    assert FIRST.AddLease(CAROLS) == FIRST.(leases := [CAROLS]);
  }

  lemma DaveIsOffered(s: Dhcp.State)
    requires s == SECOND.(next := 9, leases := [CAROLS])
    ensures s.Discover(DAVE, 11, 11).state == SECOND.(next := 9, pending := [DAVES])
  {
    FourMacs();
    assert Dhcp.Retain(s.leases[..0], 11) == [];
    assert Dhcp.Retain(s.leases, 11) == [];
    assert Dhcp.IndexByMac(s.leases, DAVE) == 1;
    OffersCandidate(s, DAVE, 11);
  }

  lemma ExpiredIsBoundTwice()
    ensures !Unique(EXPIRED)
    ensures EXPIRED.nodes[0].dhcp.Commit(CAROL, 8, 11).result.Success?
    ensures EXPIRED.nodes[1].dhcp.Commit(DAVE, 8, 11).result.Success?
  {
    FourMacs();
    var k := LedgerOf(EXPIRED);
    assert CAROLS in EXPIRED.nodes[0].dhcp.leases && DAVES in EXPIRED.nodes[1].dhcp.pending;
    assert PairOf(CAROLS) in k.leased[0] && PairOf(DAVES) in k.offered[1];
    assert LeasedSomewhere(k, PairOf(CAROLS)) && OfferedSomewhere(k, PairOf(DAVES));
    BoundTwice(EXPIRED, PairOf(CAROLS), PairOf(DAVES));
    assert Dhcp.IndexByPair(EXPIRED.nodes[0].dhcp.leases, CAROL, 8) == 0;
    assert Dhcp.IndexByPair(EXPIRED.nodes[1].dhcp.pending, DAVE, 8) == 0;
  }

  // ---------------------------------------------------------------- a table is replaced

  const ALICES := Dhcp.Lease(ALICE, 9, 5)
  const BOBS := Dhcp.Lease(BOB, 10, 5)
  const TABLE := [ALICES, BOBS]
  const DAVES_NOW := Dhcp.Lease(DAVE, 8, 5)

  function BeforeTable(): seq<Event> {
    Told(0, [1, 2], ALICES) + Told(0, [1, 2], BOBS)
  }

  /** Node 0 grants two addresses, and sends its table to node 1 when their connection is renewed.
      Before the table arrives node 1 grants an address to Carol. It forgets that, and offers the
      address to Dave, while Carol's lease is on its way to node 0. */
  const REPLACED := Trio(FIRST.(next := 11, leases := TABLE), SECOND.(next := 9, leases := TABLE, pending := [DAVES_NOW]),
                         BeforeTable() + Told(1, [0, 2], CAROLS))

  lemma AliceAndBobAreGranted()
    requires Reaches(START, START)
    ensures Reaches(START, Trio(FIRST.(next := 11, leases := TABLE), SECOND, BeforeTable()))
  {
    var offered := FIRST.(pending := [ALICES], next := 10);
    var granted := offered.(pending := [], leases := [] + [ALICES]);
    Grants(FIRST, ALICE, offered, granted, ALICES);
    RequestAt0(START, FIRST, SECOND, [], ALICE, 0, offered);
    ConfirmAt0(START, offered, SECOND, [], ALICE, 9, 0, granted, ALICES);
    var es := [] + Told(0, [1, 2], ALICES);
    assert es == Told(0, [1, 2], ALICES);
    BobIsGranted(granted);
    RequestAt0(START, granted, SECOND, es, BOB, 0, granted.(pending := [BOBS], next := 11));
    ConfirmAt0(START, granted.(pending := [BOBS], next := 11), SECOND, es, BOB, 10, 0, FIRST.(next := 11, leases := TABLE), BOBS);
  }

  lemma BobIsGranted(s: Dhcp.State)
    requires s == FIRST.(leases := [ALICES], next := 10)
    ensures s.Discover(BOB, 0, 0).state == s.(pending := [BOBS], next := 11)
    ensures s.(pending := [BOBS], next := 11).Commit(BOB, 10, 0) == Dhcp.Commitment(FIRST.(next := 11, leases := TABLE), Success(BOBS))
  {
    FourMacs();
    assert Dhcp.Retain(s.leases[..0], 0) == [];
    assert Dhcp.Retain(s.leases, 0) == s.leases;
    assert Dhcp.IndexByMac(s.leases, BOB) == 1;
    Grants(s, BOB, s.(pending := [BOBS], next := 11), FIRST.(next := 11, leases := TABLE), BOBS);
  }

  lemma DaveIsOfferedToo(s: Dhcp.State)
    requires s == SECOND.(next := 9, leases := TABLE)
    ensures s.Discover(DAVE, 0, 0).state == s.(pending := [DAVES_NOW])
  {
    assert ALICE[5] != DAVE[5] && BOB[5] != DAVE[5];
    assert s.leases[..1] == [ALICES] && [ALICES][..0] == [];
    assert Dhcp.Retain([], 0) == [] && Dhcp.Retain([ALICES], 0) == [ALICES];
    assert Dhcp.Retain(s.leases, 0) == s.leases;
    assert s.leases[1..] == [BOBS] && [BOBS][1..] == [];
    assert Dhcp.IndexByMac([BOBS], DAVE) == 1;
    assert Dhcp.IndexByMac(s.leases, DAVE) == 2;
    OffersCandidate(s, DAVE, 0);
  }

  lemma TableCanBindTwice()
    ensures Empty(START) && Reaches(START, REPLACED) && !Unique(REPLACED)
  {
    StartIsEmpty();
    StartIsSane();
    ReachesItself(START);
    AliceAndBobAreGranted();
    CarolIsForgotten();
    var s0, s1 := FIRST.(next := 11, leases := TABLE), SECOND.(next := 9, leases := TABLE);
    DaveIsOfferedToo(s1);
    RequestAt1(START, s0, s1, REPLACED.pending, DAVE, 0, s1.(pending := [DAVES_NOW]));
    ReplacedIsBoundTwice();
  }

  lemma CarolIsForgotten()
    requires Reaches(START, Trio(FIRST.(next := 11, leases := TABLE), SECOND, BeforeTable()))
    ensures Reaches(START, Trio(FIRST.(next := 11, leases := TABLE), SECOND.(next := 9, leases := TABLE), REPLACED.pending))
  {
    var s0, es := FIRST.(next := 11, leases := TABLE), BeforeTable();
    var table := PeerMessage(1, 0, LeaseTable(TABLE));
    Reconnect(START, s0, SECOND, es);
    CarolIsGranted(START, s0, es + [table]);
    var es' := es + [table] + Told(1, [0, 2], CAROLS);
    ReplaceAt1(START, s0, SECOND.(next := 9, leases := [CAROLS]), es', |es|, TABLE);
    assert Without(es', |es|) == es + Told(1, [0, 2], CAROLS);
  }

  lemma ReplacedIsBoundTwice()
    ensures !Unique(REPLACED)
  {
    FourMacs();
    ToldIs(1, 0, 2, CAROLS);
    var k := LedgerOf(REPLACED);
    var e := PeerMessage(0, 1, Message.Lease(CAROLS));
    assert e in Told(1, [0, 2], CAROLS) && e in REPLACED.pending;
    assert NoticeOf(e) in k.sent + k.copied;
    assert Travels(k, PairOf(CAROLS));
    assert DAVES_NOW in REPLACED.nodes[1].dhcp.pending;
    assert PairOf(DAVES_NOW) in k.offered[1];
    assert OfferedSomewhere(k, PairOf(DAVES_NOW));
    BoundTwice(REPLACED, PairOf(CAROLS), PairOf(DAVES_NOW));
  }
}
