/** Expiries under a synchronised clock and a common lease time. */
module Expiry {
  import opened Wrappers
  import opened Ipv4
  import opened ServerNode
  import opened Cluster
  import Dhcp
  import Allocator

  ghost predicate LeasesUpTo(ls: seq<Dhcp.Lease>, bound: Dhcp.Time) {
    forall l | l in ls :: l.expiry <= bound
  }

  ghost predicate StateUpTo(s: Dhcp.State, leaseTime: nat, bound: Dhcp.Time) {
    s.leaseTime == leaseTime && LeasesUpTo(s.leases, bound) && LeasesUpTo(s.pending, bound)
  }

  ghost predicate EventUpTo(e: Event, bound: Dhcp.Time) {
    e.PeerMessage? ==>
      && (e.message.Lease? ==> e.message.lease.expiry <= bound)
      && (e.message.LeaseTable? ==> LeasesUpTo(e.message.leases, bound))
  }

  /** Every expiry in tables, offers and messages is at most `bound`. */
  ghost predicate ExpiresBy(c: Cluster, leaseTime: nat, bound: Dhcp.Time) {
    && (forall p | p in c.nodes :: StateUpTo(c.nodes[p].dhcp, leaseTime, bound))
    && (forall e | e in c.pending :: EventUpTo(e, bound))
  }

  /** The clock readings that new expiries are computed from are at most `clock`. */
  predicate ReadsUpTo(l: Label, clock: Dhcp.Time) {
    match l
    case LeaseRequest(_, _, _, stamp) => stamp <= clock
    case ConfirmRequest(_, _, _, now, _) => now <= clock
    case _ => true
  }

  lemma AddLeaseUpTo(s: Dhcp.State, l: Dhcp.Lease, leaseTime: nat, bound: Dhcp.Time)
    requires StateUpTo(s, leaseTime, bound) && l.expiry <= bound
    ensures StateUpTo(s.AddLease(l), leaseTime, bound)
  {
  }

  lemma DiscoverUpTo(s: Dhcp.State, mac: Dhcp.MacAddr, now: Dhcp.Time, stamp: Dhcp.Time, bound: Dhcp.Time)
    requires StateUpTo(s, s.leaseTime, bound) && stamp + s.leaseTime <= bound
    ensures var d := s.Discover(mac, now, stamp);
            StateUpTo(d.state, s.leaseTime, bound) && (d.offer.Some? ==> d.offer.value.expiry <= bound)
  {
  }

  lemma CommitUpTo(s: Dhcp.State, mac: Dhcp.MacAddr, ip: Address, now: Dhcp.Time, bound: Dhcp.Time)
    requires StateUpTo(s, s.leaseTime, bound) && now + s.leaseTime <= bound
    ensures var c := s.Commit(mac, ip, now);
            StateUpTo(c.state, s.leaseTime, bound) && (c.result.Success? ==> c.result.value.expiry <= bound)
  {
  }

  lemma EventKeepsUpTo(n: Node, e: Event, order: seq<Id>, leaseTime: nat, bound: Dhcp.Time)
    requires StateUpTo(n.dhcp, leaseTime, bound) && EventUpTo(e, bound) && n.HandleEvent(e, order).React?
    ensures var r := n.HandleEvent(e, order);
            StateUpTo(r.node.dhcp, leaseTime, bound) && forall x | x in r.out :: EventUpTo(x, bound)
  {
    ElectionsSent(n.config.id, order);
    match e
    case ElectionTimeout(_) =>
      if n.election == WaitingForElection { RoundSent(n, order); }
    case PeerMessage(_, _, m) =>
      if m.Lease? { AddLeaseUpTo(n.dhcp, m.lease, leaseTime, bound); }
  }

  lemma ConfirmKeepsUpTo(n: Node, mac: Dhcp.MacAddr, ip: Address, now: Dhcp.Time, order: seq<Id>, leaseTime: nat, bound: Dhcp.Time)
    requires StateUpTo(n.dhcp, leaseTime, bound) && now + leaseTime <= bound
    ensures var r := n.HandleConfirmRequest(mac, ip, now, order);
            StateUpTo(r.node.dhcp, leaseTime, bound) && forall x | x in r.out :: EventUpTo(x, bound)
  {
    var m := ConfirmSends(n, mac, ip, now, order);
    CommitUpTo(n.dhcp, mac, ip, now, bound);
    BroadcastSent(n.config.id, order, m);
  }

  lemma NodeKeepsExpiresBy(c: Cluster, at: Id, n: Node, rest: seq<Event>, out: seq<Event>, c': Cluster, leaseTime: nat, bound: Dhcp.Time)
    requires ExpiresBy(c, leaseTime, bound) && at in c.nodes && c' == Cluster(c.nodes[at := n], rest + out)
    requires StateUpTo(n.dhcp, leaseTime, bound) && (forall e | e in out :: EventUpTo(e, bound)) && forall e | e in rest :: e in c.pending
    ensures ExpiresBy(c', leaseTime, bound)
  {
  }

  lemma DeliveryKeepsExpiresBy(c: Cluster, i: nat, order: seq<Id>, rest: seq<Event>, c': Cluster, leaseTime: nat, bound: Dhcp.Time)
    requires ExpiresBy(c, leaseTime, bound) && i < |c.pending| && Target(c.pending[i]) in c.nodes
    requires rest == c.pending || rest == Without(c.pending, i)
    requires var at := Target(c.pending[i]); Leads(c, at, c.nodes[at].HandleEvent(c.pending[i], order), rest, c')
    ensures ExpiresBy(c', leaseTime, bound)
  {
    var at := Target(c.pending[i]);
    assert c.pending[i] in c.pending;
    WithoutMembers(c.pending, i);
    EventKeepsUpTo(c.nodes[at], c.pending[i], order, leaseTime, bound);
    var r := c.nodes[at].HandleEvent(c.pending[i], order);
    NodeKeepsExpiresBy(c, at, r.node, rest, r.out, c', leaseTime, bound);
  }

  lemma TriggerKeepsExpiresBy(c: Cluster, at: Id, order: seq<Id>, cause: Cause, c': Cluster, leaseTime: nat, bound: Dhcp.Time)
    requires ExpiresBy(c, leaseTime, bound) && Step(c, Trigger(at, order, cause), c')
    ensures ExpiresBy(c', leaseTime, bound)
  {
    assert StateUpTo(c.nodes[at].dhcp, leaseTime, bound);
    TriggerSends(c.nodes[at], order, cause);
    ElectionsSent(c.nodes[at].config.id, order);
    var r := Triggered(c.nodes[at], order, cause);
    NodeKeepsExpiresBy(c, at, r.node, c.pending, r.out, c', leaseTime, bound);
  }

  lemma RejoinKeepsExpiresBy(c: Cluster, at: Id, peer: Id, c': Cluster, leaseTime: nat, bound: Dhcp.Time)
    requires ExpiresBy(c, leaseTime, bound) && Step(c, Rejoin(at, peer), c')
    ensures ExpiresBy(c', leaseTime, bound)
  {
    RejoinSends(c, at, peer, c');
    assert StateUpTo(c.nodes[at].dhcp, leaseTime, bound);
  }

  lemma RequestKeepsExpiresBy(c: Cluster, at: Id, mac: Dhcp.MacAddr, now: Dhcp.Time, stamp: Dhcp.Time, c': Cluster,
                              leaseTime: nat, bound: Dhcp.Time)
    requires ExpiresBy(c, leaseTime, bound) && at in c.nodes && stamp + leaseTime <= bound
    requires var r := c.nodes[at].HandleLeaseRequest(mac, now, stamp); c' == Cluster(c.nodes[at := r.node], c.pending + r.out)
    ensures ExpiresBy(c', leaseTime, bound)
  {
    DiscoverUpTo(c.nodes[at].dhcp, mac, now, stamp, bound);
    var r := c.nodes[at].HandleLeaseRequest(mac, now, stamp);
    NodeKeepsExpiresBy(c, at, r.node, c.pending, r.out, c', leaseTime, bound);
  }

  lemma ConfirmKeepsExpiresBy(c: Cluster, at: Id, mac: Dhcp.MacAddr, ip: Address, now: Dhcp.Time, order: seq<Id>, c': Cluster,
                              leaseTime: nat, bound: Dhcp.Time)
    requires ExpiresBy(c, leaseTime, bound) && at in c.nodes && now + leaseTime <= bound
    requires var r := c.nodes[at].HandleConfirmRequest(mac, ip, now, order); c' == Cluster(c.nodes[at := r.node], c.pending + r.out)
    ensures ExpiresBy(c', leaseTime, bound)
  {
    ConfirmKeepsUpTo(c.nodes[at], mac, ip, now, order, leaseTime, bound);
    var r := c.nodes[at].HandleConfirmRequest(mac, ip, now, order);
    NodeKeepsExpiresBy(c, at, r.node, c.pending, r.out, c', leaseTime, bound);
  }

  lemma StepKeepsExpiresBy(c: Cluster, l: Label, c': Cluster, leaseTime: nat, clock: Dhcp.Time)
    requires ExpiresBy(c, leaseTime, clock + leaseTime) && ReadsUpTo(l, clock) && Step(c, l, c')
    ensures ExpiresBy(c', leaseTime, clock + leaseTime)
  {
    var bound := clock + leaseTime;
    match l
    case Process(i, order) => DeliveryKeepsExpiresBy(c, i, order, Without(c.pending, i), c', leaseTime, bound);
    case Repeat(i) => DeliveryKeepsExpiresBy(c, i, [], c.pending, c', leaseTime, bound);
    case Trigger(at, order, cause) =>
      TriggerKeepsExpiresBy(c, at, order, cause, c', leaseTime, bound);
    case Rejoin(at, peer) =>
      RejoinKeepsExpiresBy(c, at, peer, c', leaseTime, bound);
    case LeaseRequest(at, mac, now, stamp) =>
      RequestKeepsExpiresBy(c, at, mac, now, stamp, c', leaseTime, bound);
    case ConfirmRequest(at, mac, ip, now, order) =>
      ConfirmKeepsExpiresBy(c, at, mac, ip, now, order, c', leaseTime, bound);
  }

  lemma ExpiresAt(cs: seq<Cluster>, ls: seq<Label>, i: nat, next: nat, leaseTime: nat, clock: Dhcp.Time)
    requires IsRun(cs, ls) && i < |ls| && next == i + 1 && ReadsUpTo(ls[i], clock) && ExpiresBy(cs[i], leaseTime, clock + leaseTime)
    ensures ExpiresBy(cs[next], leaseTime, clock + leaseTime)
  {
    RunStep(cs, ls, i);
    StepKeepsExpiresBy(cs[i], ls[i], cs[next], leaseTime, clock);
  }

  /** No lease anywhere outlives the lease time, counted from the latest clock reading. */
  lemma {:induction false} ExpiriesAreBounded(cs: seq<Cluster>, ls: seq<Label>, n: nat, leaseTime: nat, clock: Dhcp.Time)
    requires IsRun(cs, ls) && n <= |ls| && ExpiresBy(cs[0], leaseTime, clock + leaseTime)
    requires forall i | 0 <= i < n :: ReadsUpTo(ls[i], clock)
    ensures ExpiresBy(cs[n], leaseTime, clock + leaseTime)
  {
    if n > 0 {
      ExpiriesAreBounded(cs, ls, n - 1, leaseTime, clock);
      ExpiresAt(cs, ls, n - 1, n, leaseTime, clock);
    }
  }

  /** Some node has stored or offered the lease, or it is on its way, by itself or in a table. */
  ghost predicate Exists(c: Cluster, l: Dhcp.Lease) {
    || (exists q :: q in c.nodes && l in c.nodes[q].dhcp.Entries())
    || (exists e :: e in c.pending && e.PeerMessage? && e.message == Message.Lease(l))
    || (exists e :: e in c.pending && e.PeerMessage? && e.message.LeaseTable? && l in e.message.leases)
  }

  lemma ExistingExpiresBy(c: Cluster, l: Dhcp.Lease, leaseTime: nat, bound: Dhcp.Time)
    requires ExpiresBy(c, leaseTime, bound) && Exists(c, l)
    ensures l.expiry <= bound
  {
    if q :| q in c.nodes && l in c.nodes[q].dhcp.Entries() {
      assert StateUpTo(c.nodes[q].dhcp, leaseTime, bound);
    } else {
      var e :| e in c.pending && e.PeerMessage? && (e.message == Message.Lease(l) || (e.message.LeaseTable? && l in e.message.leases));
      assert EventUpTo(e, bound);
    }
  }

  /** So under a clock that has not gone back, no renewal at any node shortens a lease that any
      node has stored, offered or sent. */
  lemma RenewalNeverShortens(cs: seq<Cluster>, ls: seq<Label>, n: nat, leaseTime: nat, clock: Dhcp.Time,
                             p: Id, mac: Dhcp.MacAddr, ip: Address, l: Dhcp.Lease)
    requires IsRun(cs, ls) && n <= |ls| && ExpiresBy(cs[0], leaseTime, clock + leaseTime)
    requires forall i | 0 <= i < n :: ReadsUpTo(ls[i], clock)
    requires p in cs[n].nodes && Exists(cs[n], l)
    requires cs[n].nodes[p].dhcp.Commit(mac, ip, clock).result.Success?
    ensures cs[n].nodes[p].dhcp.Commit(mac, ip, clock).result.value.expiry >= l.expiry
  {
    var c := cs[n];
    ExpiriesAreBounded(cs, ls, n, leaseTime, clock);
    ExistingExpiresBy(c, l, leaseTime, clock + leaseTime);
    Allocator.CommitSucceedsIff(c.nodes[p].dhcp, mac, ip, clock);
    assert StateUpTo(c.nodes[p].dhcp, leaseTime, clock + leaseTime);
  }

  /** And every offer made to a client converts to 32-bit seconds, if the lease time does. */
  lemma OffersConvert(cs: seq<Cluster>, ls: seq<Label>, n: nat, leaseTime: nat, clock: Dhcp.Time,
                      p: Id, mac: Dhcp.MacAddr, now: Dhcp.Time, stamp: Dhcp.Time, later: Dhcp.Time)
    requires IsRun(cs, ls) && n <= |ls| && ExpiresBy(cs[0], leaseTime, clock + leaseTime)
    requires forall i | 0 <= i < n :: ReadsUpTo(ls[i], clock)
    requires p in cs[n].nodes && stamp <= clock <= later && leaseTime / Dhcp.NANOS_PER_SECOND < TWO_TO_32
    ensures var r := cs[n].nodes[p].HandleLeaseRequest(mac, now, stamp);
            r.answer.Some? ==> Dhcp.OfferSeconds(r.answer.value, later).Some?
  {
    ExpiriesAreBounded(cs, ls, n, leaseTime, clock);
    assert StateUpTo(cs[n].nodes[p].dhcp, leaseTime, clock + leaseTime);
    DiscoverUpTo(cs[n].nodes[p].dhcp, mac, now, stamp, clock + leaseTime);
    var r := cs[n].nodes[p].HandleLeaseRequest(mac, now, stamp);
    if r.answer.Some? { Allocator.BoundedLeaseConverts(r.answer.value, leaseTime, later); }
  }
}
