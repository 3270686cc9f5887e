/** A run of a cluster of three nodes in which a lease is renewed twice, the second time by a node that
    has heard of the first renewal, and which ends quietly with different expiries at the nodes. Each
    node's messages to another arrive in the order in which they were sent. */
module RenewalWitness {
  import opened Wrappers
  import opened Ipv4
  import opened ServerNode
  import opened Cluster
  import opened Leases
  import opened LeaseLedger
  import opened Epochs
  import opened LeaseWitnesses
  import Settling
  import Dhcp

  /** The three nodes with any state of their allocators. */
  function Three(s0: Dhcp.State, s1: Dhcp.State, s2: Dhcp.State, es: seq<Event>): Cluster {
    Cluster(map[0 := Member(0, [1, 2], Follower, s0), 1 := Member(1, [0, 2], Follower, s1),
                2 := Member(2, [0, 1], ElectionState.Coordinator, s2)], es)
  }

  const THIRD: Dhcp.State := Dhcp.State.New(Bounds(7, 8), 5, [])

  lemma ThreeUpdate(s0: Dhcp.State, s1: Dhcp.State, s2: Dhcp.State, es: seq<Event>, s: Dhcp.State, es': seq<Event>)
    ensures var d := Three(s0, s1, s2, es);
            && Three(s, s1, s2, es') == Cluster(d.nodes[0 := d.nodes[0].(dhcp := s)], es')
            && Three(s0, s, s2, es') == Cluster(d.nodes[1 := d.nodes[1].(dhcp := s)], es')
            && Three(s0, s1, s, es') == Cluster(d.nodes[2 := d.nodes[2].(dhcp := s)], es')
  {
    var d := Three(s0, s1, s2, es);
    assert Three(s, s1, s2, es').nodes == d.nodes[0 := d.nodes[0].(dhcp := s)];
    assert Three(s0, s, s2, es').nodes == d.nodes[1 := d.nodes[1].(dhcp := s)];
    assert Three(s0, s1, s, es').nodes == d.nodes[2 := d.nodes[2].(dhcp := s)];
  }

  /** Pending event number `i` is a lease for node `at`. */
  lemma LeaseArrives(c: Cluster, d: Cluster, at: Id, others: seq<Id>, i: nat, l: Dhcp.Lease, e: Cluster)
    requires Reaches(c, d) && at in d.nodes && d.nodes[at].peers == Members(others) && IsOrder(others, Members(others))
    requires i < |d.pending| && d.pending[i].PeerMessage? && d.pending[i].to == at && d.pending[i].message == Message.Lease(l)
    requires e == Cluster(d.nodes[at := d.nodes[at].(dhcp := d.nodes[at].dhcp.AddLease(l))], Without(d.pending, i))
    ensures Reaches(c, e)
  {
    assert Without(d.pending, i) + [] == Without(d.pending, i);
    ReachesNext(c, d, Process(i, others), e);
  }

  lemma Renews(c: Cluster, d: Cluster, at: Id, others: seq<Id>, mac: Dhcp.MacAddr, ip: Address, now: Dhcp.Time,
               s: Dhcp.State, l: Dhcp.Lease, e: Cluster)
    requires Reaches(c, d) && at in d.nodes && d.nodes[at].majority && d.nodes[at].config.id == at
    requires d.nodes[at].peers == Members(others) && IsOrder(others, Members(others))
    requires d.nodes[at].dhcp.Commit(mac, ip, now) == Dhcp.Commitment(s, Success(l)) && s.pool == d.nodes[at].dhcp.pool
    requires e == Cluster(d.nodes[at := d.nodes[at].(dhcp := s)], d.pending + Told(at, others, l))
    ensures Reaches(c, e)
  {
    ConfirmStep(d, at, mac, ip, now, s, l, others, e);
    ReachesNext(c, d, ConfirmRequest(at, mac, ip, now, others), e);
  }

  function CarolUntil(expiry: Dhcp.Time): Dhcp.Lease {
    Dhcp.Lease(CAROL, 8, expiry)
  }

  function Note(to: Id, me: Id, expiry: Dhcp.Time): Event {
    PeerMessage(to, me, Message.Lease(CarolUntil(expiry)))
  }

  /** An allocator whose only entry is Carol's lease. */
  function Stores(s: Dhcp.State, expiry: Dhcp.Time): Dhcp.State {
    s.(leases := [CarolUntil(expiry)], pending := [])
  }

  lemma Overwrites(s: Dhcp.State, prior: Dhcp.Time, expiry: Dhcp.Time)
    ensures Stores(s, prior).AddLease(CarolUntil(expiry)) == Stores(s, expiry)
    ensures s.leases == [] && s.pending == [] ==> s.AddLease(CarolUntil(expiry)) == Stores(s, expiry)
    ensures Stores(s, prior).Commit(CAROL, 8, expiry) == Dhcp.Commitment(Stores(s, expiry + s.leaseTime), Success(CarolUntil(expiry + s.leaseTime)))
  {
    assert Dhcp.IndexByPair([CarolUntil(prior)], CAROL, 8) == 0;
  }

  lemma Orders()
    ensures IsOrder([1, 2], Members([1, 2])) && IsOrder([0, 2], Members([0, 2])) && IsOrder([0, 1], Members([0, 1]))
  {
    TwoInOrder(1, 2);
    TwoInOrder(0, 2);
    TwoInOrder(0, 1);
  }

  const GRANTED := SECOND.(next := 9)

  /** Node 1 grants Carol an address, and node 0 hears of it. */
  lemma NodeZeroHears()
    ensures Reaches(START, Three(Stores(FIRST, 5), Stores(GRANTED, 5), THIRD, [Note(2, 1, 5)]))
  {
    StartIsSane();
    ReachesItself(START);
    CarolIsGranted(START, FIRST, []);
    ToldIs(1, 0, 2, CAROLS);
    Orders();
    var es := [] + Told(1, [0, 2], CAROLS);
    var d := Three(FIRST, Stores(GRANTED, 5), THIRD, es);
    assert d == Trio(FIRST, SECOND.(next := 9, leases := [CAROLS]), es);
    var rest := [Note(2, 1, 5)];
    assert Without(es, 0) == rest;
    Overwrites(FIRST, 0, 5);
    ThreeUpdate(FIRST, Stores(GRANTED, 5), THIRD, es, Stores(FIRST, 5), rest);
    LeaseArrives(START, d, 0, [1, 2], 0, CAROLS, Three(Stores(FIRST, 5), Stores(GRANTED, 5), THIRD, rest));
  }

  /** Node 0 renews the lease at time 1, and node 1 hears of it. */
  lemma NodeZeroRenews()
    ensures Reaches(START, Three(Stores(FIRST, 6), Stores(GRANTED, 6), THIRD, [Note(2, 1, 5), Note(2, 0, 6)]))
  {
    NodeZeroHears();
    Orders();
    var es := [Note(2, 1, 5)];
    var es' := es + Told(0, [1, 2], CarolUntil(6));
    ToldIs(0, 1, 2, CarolUntil(6));
    Overwrites(FIRST, 5, 1);
    ThreeUpdate(Stores(FIRST, 5), Stores(GRANTED, 5), THIRD, es, Stores(FIRST, 6), es');
    var d := Three(Stores(FIRST, 6), Stores(GRANTED, 5), THIRD, es');
    Renews(START, Three(Stores(FIRST, 5), Stores(GRANTED, 5), THIRD, es), 0, [1, 2], CAROL, 8, 1, Stores(FIRST, 6), CarolUntil(6), d);
    var rest := [Note(2, 1, 5), Note(2, 0, 6)];
    assert es' == [Note(2, 1, 5), Note(1, 0, 6), Note(2, 0, 6)];
    assert Without(es', 1) == rest;
    Overwrites(GRANTED, 5, 6);
    ThreeUpdate(Stores(FIRST, 6), Stores(GRANTED, 5), THIRD, es', Stores(GRANTED, 6), rest);
    LeaseArrives(START, d, 1, [0, 2], 1, CarolUntil(6), Three(Stores(FIRST, 6), Stores(GRANTED, 6), THIRD, rest));
  }

  /** Node 1 renews it at time 2, and node 0 hears of that. */
  lemma NodeOneRenews()
    ensures Reaches(START, Three(Stores(FIRST, 7), Stores(GRANTED, 7), THIRD, [Note(2, 1, 5), Note(2, 0, 6), Note(2, 1, 7)]))
  {
    NodeZeroRenews();
    Orders();
    var es := [Note(2, 1, 5), Note(2, 0, 6)];
    var es' := es + Told(1, [0, 2], CarolUntil(7));
    ToldIs(1, 0, 2, CarolUntil(7));
    Overwrites(GRANTED, 6, 2);
    ThreeUpdate(Stores(FIRST, 6), Stores(GRANTED, 6), THIRD, es, Stores(GRANTED, 7), es');
    var d := Three(Stores(FIRST, 6), Stores(GRANTED, 7), THIRD, es');
    Renews(START, Three(Stores(FIRST, 6), Stores(GRANTED, 6), THIRD, es), 1, [0, 2], CAROL, 8, 2, Stores(GRANTED, 7), CarolUntil(7), d);
    var rest := [Note(2, 1, 5), Note(2, 0, 6), Note(2, 1, 7)];
    assert es' == [Note(2, 1, 5), Note(2, 0, 6), Note(0, 1, 7), Note(2, 1, 7)];
    assert Without(es', 2) == rest;
    Overwrites(FIRST, 6, 7);
    ThreeUpdate(Stores(FIRST, 6), Stores(GRANTED, 7), THIRD, es', Stores(FIRST, 7), rest);
    LeaseArrives(START, d, 0, [1, 2], 2, CarolUntil(7), Three(Stores(FIRST, 7), Stores(GRANTED, 7), THIRD, rest));
  }

  /** Node 2 hears of it all, but of the first renewal last. */
  lemma NodeTwoHears()
    ensures Reaches(START, Three(Stores(FIRST, 7), Stores(GRANTED, 7), Stores(THIRD, 6), []))
  {
    NodeOneRenews();
    Orders();
    var s0, s1 := Stores(FIRST, 7), Stores(GRANTED, 7);
    var es0, es1, es2 := [Note(2, 1, 5), Note(2, 0, 6), Note(2, 1, 7)], [Note(2, 0, 6), Note(2, 1, 7)], [Note(2, 0, 6)];
    assert Without(es0, 0) == es1 && Without(es1, 1) == es2 && Without(es2, 0) == [];
    Overwrites(THIRD, 0, 5);
    Overwrites(THIRD, 5, 7);
    Overwrites(THIRD, 7, 6);
    ThreeUpdate(s0, s1, THIRD, es0, Stores(THIRD, 5), es1);
    LeaseArrives(START, Three(s0, s1, THIRD, es0), 2, [0, 1], 0, CarolUntil(5), Three(s0, s1, Stores(THIRD, 5), es1));
    ThreeUpdate(s0, s1, Stores(THIRD, 5), es1, Stores(THIRD, 7), es2);
    LeaseArrives(START, Three(s0, s1, Stores(THIRD, 5), es1), 2, [0, 1], 1, CarolUntil(7), Three(s0, s1, Stores(THIRD, 7), es2));
    ThreeUpdate(s0, s1, Stores(THIRD, 7), es2, Stores(THIRD, 6), []);
    LeaseArrives(START, Three(s0, s1, Stores(THIRD, 7), es2), 2, [0, 1], 0, CarolUntil(6), Three(s0, s1, Stores(THIRD, 6), []));
  }

  const DIVIDED := Three(Stores(FIRST, 7), Stores(GRANTED, 7), Stores(THIRD, 6), [])

  /** Renewals one after the other can leave the nodes with different expiries. */
  lemma LateNewsCanWin()
    ensures Empty(START) && Reaches(START, DIVIDED) && DIVIDED.pending == []
    ensures Settling.StoresUntil(DIVIDED.nodes[0], Pair(CAROL, 8), 7) && Settling.StoresUntil(DIVIDED.nodes[1], Pair(CAROL, 8), 7)
    ensures Settling.StoresUntil(DIVIDED.nodes[2], Pair(CAROL, 8), 6)
  {
    StartIsEmpty();
    NodeTwoHears();
    assert Dhcp.IndexByPair([CarolUntil(7)], CAROL, 8) == 0;
    assert Dhcp.IndexByPair([CarolUntil(6)], CAROL, 8) == 0;
  }
}
