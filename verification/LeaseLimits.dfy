/** Where replication of leases goes wrong, and exactly when. */
module LeaseLimits {
  import opened Wrappers
  import opened Ipv4
  import opened ServerNode
  import opened Cluster
  import opened LeaseLedger
  import opened Leases
  import opened Epochs
  import Dhcp
  import Allocator

  // ---------------------------------------------------------------- requests

  /** The first pool address in cyclic order from the cursor that no unexpired entry holds. */
  ghost predicate IsFirstFree(s: Dhcp.State, now: Dhcp.Time, ip: Address) {
    && s.pool.Contains(ip) && !Dhcp.Held(s.Prune(now).Entries(), ip)
    && forall a: Address | s.pool.Contains(a) && Allocator.CyclicDistance(s, a) < Allocator.CyclicDistance(s, ip) ::
         Dhcp.Held(s.Prune(now).Entries(), a)
  }

  lemma FreshOfferIsFirstFree(s: Dhcp.State, mac: Dhcp.MacAddr, now: Dhcp.Time, stamp: Dhcp.Time, ip: Address)
    requires s.CursorOk() && Allocator.Uncommitted(s, mac)
    ensures var x := FreshOffer(s, mac, now, stamp);
            && (IsFirstFree(s, now, ip) <==> x.Some? && x.value.ip == ip)
            && (x.Some? ==> x.value.mac == mac)
  {
    var d := s.Discover(mac, now, stamp);
    if d.offer.Some? {
      Allocator.OfferIsInPool(s, mac, now, stamp);
      Allocator.OfferIsFirstFree(s, mac, now, stamp);
      assert IsFirstFree(s, now, d.offer.value.ip);
      if IsFirstFree(s, now, ip) { OneFirstFree(s, now, ip, d.offer.value.ip); }
    } else {
      Allocator.NoOfferIff(s, mac, now, stamp);
      if s.pool.Contains(ip) { UnexpiredIsHeld(s, now, ip); }
    }
  }

  lemma UnexpiredIsHeld(s: Dhcp.State, now: Dhcp.Time, ip: Address)
    requires exists l | l in s.Entries() :: l.ip == ip && l.expiry > now
    ensures Dhcp.Held(s.Prune(now).Entries(), ip)
  {
    var l :| l in s.Entries() && l.ip == ip && l.expiry > now;
    assert l in s.Prune(now).Entries();
  }

  lemma OneFirstFree(s: Dhcp.State, now: Dhcp.Time, a: Address, b: Address)
    requires s.CursorOk() && IsFirstFree(s, now, a) && IsFirstFree(s, now, b)
    ensures a == b
  {
    var da, db := Allocator.CyclicDistance(s, a), Allocator.CyclicDistance(s, b);
    assert !(da < db) && !(db < da);
  }

  /** A request of a MAC without a stored lease, at a node with majority, leaves every address bound
      once if and only if the first address of the node's pool that is free after pruning is not
      leased to another MAC at another node, and no such lease of it is on its way. */
  lemma RequestIsUniqueIff(c: Cluster, p: Id, mac: Dhcp.MacAddr, now: Dhcp.Time, stamp: Dhcp.Time, c': Cluster)
    requires IsGuarded(c) && Step(c, LeaseRequest(p, mac, now, stamp), c')
    requires c.nodes[p].majority && Allocator.Uncommitted(c.nodes[p].dhcp, mac)
    ensures Unique(c') <==>
            forall y | Elsewhere(LedgerOf(c), p, y) && IsFirstFree(c.nodes[p].dhcp, now, y.ip) :: y.mac == mac
  {
    RequestKeepsPools(c, p, mac, now, stamp, c');
    StepIsUniqueIff(c, LeaseRequest(p, mac, now, stamp), c');
    FirstFreeIsOffered(LedgerOf(c), p, c.nodes[p].dhcp, mac, now, stamp);
  }

  lemma FirstFreeIsOffered(k: Ledger, p: Id, s: Dhcp.State, mac: Dhcp.MacAddr, now: Dhcp.Time, stamp: Dhcp.Time)
    requires SameNodes(k) && s.CursorOk() && Allocator.Uncommitted(s, mac)
    ensures var x := FreshOffer(s, mac, now, stamp);
            (x.Some? ==> forall y | Elsewhere(k, p, y) && y.ip == x.value.ip :: y == x.value) <==>
            (forall y | Elsewhere(k, p, y) && IsFirstFree(s, now, y.ip) :: y.mac == mac)
  {
    var x := FreshOffer(s, mac, now, stamp);
    forall ip: Address
      ensures IsFirstFree(s, now, ip) <==> x.Some? && x.value.ip == ip
      ensures x.Some? ==> x.value.mac == mac
    {
      FreshOfferIsFirstFree(s, mac, now, stamp, ip);
    }
  }

  lemma RequestKeepsPools(c: Cluster, p: Id, mac: Dhcp.MacAddr, now: Dhcp.Time, stamp: Dhcp.Time, c': Cluster)
    requires Sane(c) && Step(c, LeaseRequest(p, mac, now, stamp), c')
    ensures PoolsStay(c, c')
  {
    DiscoverKeepsPool(c.nodes[p].dhcp, mac, now, stamp);
  }

  /** Pruning at a request of a MAC without a stored lease keeps owners informed if and only if no
      expired lease of the node's own pool is leased at another node or on its way. */
  lemma RequestKeepsOrderIff(c: Cluster, p: Id, mac: Dhcp.MacAddr, now: Dhcp.Time, stamp: Dhcp.Time, c': Cluster)
    requires Orderly(c) && Step(c, LeaseRequest(p, mac, now, stamp), c')
    requires c.nodes[p].majority && Allocator.Uncommitted(c.nodes[p].dhcp, mac)
    ensures var s := c.nodes[p].dhcp;
            Orderly(c') <==>
            forall y | y in Pairs(s.leases) && y !in Pairs(Dhcp.Retain(s.leases, now)) && s.pool.Contains(y.ip) ::
              !Elsewhere(LedgerOf(c), p, y)
  {
    RequestKeepsPools(c, p, mac, now, stamp, c');
    StepIsOrderlyIff(c, LeaseRequest(p, mac, now, stamp), c');
    RequestLeaves(c, p, mac, now, stamp, c');
    OnlyOneForgets(c, p, c');
    forall y ensures Elsewhere(LedgerOf(c'), p, y) <==> Elsewhere(LedgerOf(c), p, y) { RequestLeavesElsewhere(c, p, c', y); }
    assert LedgerOf(c).leased[p] == Pairs(c.nodes[p].dhcp.leases) && LedgerOf(c').leased[p] == Pairs(c'.nodes[p].dhcp.leases);
  }

  lemma RequestLeaves(c: Cluster, p: Id, mac: Dhcp.MacAddr, now: Dhcp.Time, stamp: Dhcp.Time, c': Cluster)
    requires Step(c, LeaseRequest(p, mac, now, stamp), c')
    requires c.nodes[p].majority && Allocator.Uncommitted(c.nodes[p].dhcp, mac)
    ensures c'.nodes.Keys == c.nodes.Keys && c'.pending == c.pending
    ensures c'.nodes[p].dhcp.leases == Dhcp.Retain(c.nodes[p].dhcp.leases, now)
    ensures forall q | q in c.nodes && q != p :: c'.nodes[q] == c.nodes[q]
  {
    assert c.pending + [] == c.pending;
  }

  lemma RequestLeavesElsewhere(c: Cluster, p: Id, c': Cluster, y: Pair)
    requires p in c.nodes && c'.nodes.Keys == c.nodes.Keys && c'.pending == c.pending
    requires forall q | q in c.nodes && q != p :: c'.nodes[q] == c.nodes[q]
    ensures Elsewhere(LedgerOf(c'), p, y) <==> Elsewhere(LedgerOf(c), p, y)
  {
    var k, k' := LedgerOf(c), LedgerOf(c');
    assert k'.sent == k.sent && k'.copied == k.copied;
    assert forall q | q in c.nodes && q != p :: k'.leased[q] == k.leased[q];
  }

  // ---------------------------------------------------------------- whole tables

  /** Receiving a peer's whole table keeps owners informed if and only if that table is not the
      longer one, or else the node's leases of its own pool that are missing from it are neither
      leased at another node nor on their way. */
  lemma TableKeepsOrderIff(c: Cluster, i: nat, order: seq<Id>, c': Cluster)
    requires Orderly(c) && Step(c, Process(i, order), c') && IsTable(c.pending[i])
    ensures var p, table := c.pending[i].to, c.pending[i].message.leases;
            Orderly(c') <==>
            || |table| <= |c.nodes[p].dhcp.leases|
            || forall y | y in Pairs(c.nodes[p].dhcp.leases) && y !in Pairs(table) && c.nodes[p].dhcp.pool.Contains(y.ip) ::
                 !Elsewhere(LedgerOf(c), p, y)
  {
    var p, table := c.pending[i].to, c.pending[i].message.leases;
    TableArrives(c, i, order, c');
    StepIsOrderlyIff(c, Process(i, order), c');
    forall y | y !in Pairs(table) ensures Elsewhere(LedgerOf(c'), p, y) <==> Elsewhere(LedgerOf(c), p, y) {
      TableLeavesElsewhere(c, i, c', y);
    }
    OnlyOneForgets(c, p, c');
    assert LedgerOf(c).leased[p] == Pairs(c.nodes[p].dhcp.leases) && LedgerOf(c').leased[p] == Pairs(c'.nodes[p].dhcp.leases);
  }

  lemma TableArrives(c: Cluster, i: nat, order: seq<Id>, c': Cluster)
    requires Step(c, Process(i, order), c') && IsTable(c.pending[i])
    ensures var p, table := c.pending[i].to, c.pending[i].message.leases;
            && p in c.nodes && c'.nodes.Keys == c.nodes.Keys && c'.pending == Without(c.pending, i) && PoolsStay(c, c')
            && c'.nodes[p].dhcp.leases == (if |c.nodes[p].dhcp.leases| < |table| then table else c.nodes[p].dhcp.leases)
            && forall q | q in c.nodes && q != p :: c'.nodes[q] == c.nodes[q]
  {
    assert Without(c.pending, i) + [] == Without(c.pending, i);
  }

  lemma OnlyOneForgets(c: Cluster, p: Id, c': Cluster)
    requires p in c.nodes && c'.nodes.Keys == c.nodes.Keys && forall q | q in c.nodes && q != p :: c'.nodes[q] == c.nodes[q]
    ensures CarefulStep(c, c') <==> Careful(LedgerOf(c), p, LedgerOf(c'))
  {
    forall q | q in c.nodes && q != p ensures Careful(LedgerOf(c), q, LedgerOf(c')) {
      assert LedgerOf(c').leased[q] == LedgerOf(c).leased[q];
    }
  }

  lemma TableLeavesElsewhere(c: Cluster, i: nat, c': Cluster, y: Pair)
    requires i < |c.pending| && IsTable(c.pending[i]) && c.pending[i].to in c.nodes && c'.pending == Without(c.pending, i)
    requires c'.nodes.Keys == c.nodes.Keys && forall q | q in c.nodes && q != c.pending[i].to :: c'.nodes[q] == c.nodes[q]
    requires y !in Pairs(c.pending[i].message.leases)
    ensures Elsewhere(LedgerOf(c'), c.pending[i].to, y) <==> Elsewhere(LedgerOf(c), c.pending[i].to, y)
  {
    var k, k' := LedgerOf(c), LedgerOf(c');
    NoticesWithout(c.pending, i);
    WithoutMembers(c.pending, i);
    assert forall m | m in k.copied && m.pair == y :: m in k'.copied;
    if Travels(k, y) {
      var m :| m in k.sent + k.copied && m.pair == y;
      assert m in k'.sent + k'.copied;
    }
    if Travels(k', y) {
      var m :| m in k'.sent + k'.copied && m.pair == y;
      assert m in k.sent + k.copied;
    }
  }
}
