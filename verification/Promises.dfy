/** From the offer to the confirmation: what a node offers a client it later confirms. */
module Promises {
  import opened Wrappers
  import opened Ipv4
  import opened ServerNode
  import opened Cluster
  import Dhcp
  import Allocator
  import Handlers

  /** The node has offered the pair at least until the deadline, and nobody has confirmed it yet. */
  ghost predicate Promised(s: Dhcp.State, mac: Dhcp.MacAddr, ip: Address, deadline: Dhcp.Time) {
    exists l :: l in s.pending && l.mac == mac && l.ip == ip && l.expiry >= deadline
  }

  /** No request at the node reads the clock at the deadline or later, and the pair is not confirmed
      there. Whatever else happens, such as elections, new pools and new tables, does not matter. */
  predicate InTime(l: Label, p: Id, mac: Dhcp.MacAddr, ip: Address, deadline: Dhcp.Time) {
    match l
    case LeaseRequest(at, _, now, _) => at == p ==> now < deadline
    case ConfirmRequest(at, m, a, _, _) => !(at == p && m == mac && a == ip)
    case _ => true
  }

  lemma EventKeepsOffers(n: Node, e: Event, order: seq<Id>)
    requires n.HandleEvent(e, order).React?
    ensures n.HandleEvent(e, order).node.dhcp.pending == n.dhcp.pending
  {
  }

  lemma CommitKeepsOther(s: Dhcp.State, mac: Dhcp.MacAddr, ip: Address, now: Dhcp.Time, l: Dhcp.Lease)
    requires l in s.pending && !(l.mac == mac && l.ip == ip)
    ensures l in s.Commit(mac, ip, now).state.pending
  {
    var i := Dhcp.IndexByPair(s.pending, mac, ip);
    if i < |s.pending| {
      var j :| 0 <= j < |s.pending| && s.pending[j] == l;
      var rest := s.pending[..i] + s.pending[i + 1..];
      assert rest[if j < i then j else j - 1] == l;
    }
  }

  lemma RequestKeepsPromise(n: Node, other: Dhcp.MacAddr, now: Dhcp.Time, stamp: Dhcp.Time, mac: Dhcp.MacAddr, ip: Address, deadline: Dhcp.Time)
    requires Promised(n.dhcp, mac, ip, deadline) && now < deadline
    ensures Promised(n.HandleLeaseRequest(other, now, stamp).node.dhcp, mac, ip, deadline)
  {
    var l :| l in n.dhcp.pending && l.mac == mac && l.ip == ip && l.expiry >= deadline;
    assert l in Dhcp.Retain(n.dhcp.pending, now);
    assert l in n.HandleLeaseRequest(other, now, stamp).node.dhcp.pending;
  }

  lemma ConfirmKeepsPromise(n: Node, m: Dhcp.MacAddr, a: Address, now: Dhcp.Time, order: seq<Id>, mac: Dhcp.MacAddr, ip: Address, deadline: Dhcp.Time)
    requires Promised(n.dhcp, mac, ip, deadline) && !(m == mac && a == ip)
    ensures Promised(n.HandleConfirmRequest(m, a, now, order).node.dhcp, mac, ip, deadline)
  {
    var l :| l in n.dhcp.pending && l.mac == mac && l.ip == ip && l.expiry >= deadline;
    CommitKeepsOther(n.dhcp, m, a, now, l);
  }

  /** In the cluster, node `p` keeps its promise. */
  ghost predicate Keeps(c: Cluster, p: Id, mac: Dhcp.MacAddr, ip: Address, deadline: Dhcp.Time) {
    p in c.nodes && Promised(c.nodes[p].dhcp, mac, ip, deadline)
  }

  lemma StepKeepsPromise(c: Cluster, l: Label, c': Cluster, p: Id, mac: Dhcp.MacAddr, ip: Address, deadline: Dhcp.Time)
    requires Keeps(c, p, mac, ip, deadline) && Step(c, l, c') && InTime(l, p, mac, ip, deadline)
    ensures Keeps(c', p, mac, ip, deadline)
  {
    match l
    case Process(i, order) => EventKeepsOffers(c.nodes[Target(c.pending[i])], c.pending[i], order);
    case Repeat(i) => EventKeepsOffers(c.nodes[Target(c.pending[i])], c.pending[i], []);
    case Trigger(at, order, cause) => TriggerSends(c.nodes[at], order, cause);
    case Rejoin(at, peer) => RejoinSends(c, at, peer, c');
    case LeaseRequest(at, m, now, stamp) =>
      if at == p { RequestKeepsPromise(c.nodes[p], m, now, stamp, mac, ip, deadline); }
    case ConfirmRequest(at, m, a, now, order) =>
      if at == p { ConfirmKeepsPromise(c.nodes[p], m, a, now, order, mac, ip, deadline); }
  }

  /** The request at step `i` is answered with an offer that is not yet a lease. */
  ghost predicate OffersAt(cs: seq<Cluster>, ls: seq<Label>, i: nat, p: Id, lease: Dhcp.Lease)
    requires i < |ls| < |cs|
  {
    && ls[i].LeaseRequest? && ls[i].at == p && p in cs[i].nodes && Allocator.Uncommitted(cs[i].nodes[p].dhcp, ls[i].mac)
    && cs[i].nodes[p].HandleLeaseRequest(ls[i].mac, ls[i].now, ls[i].stamp).answer == Some(lease)
  }

  lemma OfferIsPromise(cs: seq<Cluster>, ls: seq<Label>, i: nat, next: nat, p: Id, lease: Dhcp.Lease)
    requires IsRun(cs, ls) && i < |ls| && next == i + 1 && OffersAt(cs, ls, i, p, lease)
    ensures Keeps(cs[next], p, lease.mac, lease.ip, lease.expiry)
  {
    RunStep(cs, ls, i);
    var s := cs[i].nodes[p].dhcp;
    assert lease in s.Discover(ls[i].mac, ls[i].now, ls[i].stamp).state.pending;
    assert cs[next].nodes[p].dhcp == s.Discover(ls[i].mac, ls[i].now, ls[i].stamp).state;
  }

  lemma PromiseAt(cs: seq<Cluster>, ls: seq<Label>, i: nat, next: nat, p: Id, mac: Dhcp.MacAddr, ip: Address, deadline: Dhcp.Time)
    requires IsRun(cs, ls) && i < |ls| && next == i + 1 && InTime(ls[i], p, mac, ip, deadline) && Keeps(cs[i], p, mac, ip, deadline)
    ensures Keeps(cs[next], p, mac, ip, deadline)
  {
    RunStep(cs, ls, i);
    StepKeepsPromise(cs[i], ls[i], cs[next], p, mac, ip, deadline);
  }

  /** An offer made to a client is kept for it until it expires: if the client asks that node to
      confirm it, while it has majority and before a request there has read a later clock, the answer
      is yes. The cluster may do anything meanwhile. */
  lemma OffersAreKept(cs: seq<Cluster>, ls: seq<Label>, i: nat, j: nat, p: Id, lease: Dhcp.Lease, now: Dhcp.Time, order: seq<Id>)
    requires IsRun(cs, ls) && i < j <= |ls| && OffersAt(cs, ls, i, p, lease)
    requires forall k | i < k < j :: InTime(ls[k], p, lease.mac, lease.ip, lease.expiry)
    requires p in cs[j].nodes && cs[j].nodes[p].majority
    ensures cs[j].nodes[p].HandleConfirmRequest(lease.mac, lease.ip, now, order).answer == Some(true)
  {
    var holds := (c: Cluster) => Keeps(c, p, lease.mac, lease.ip, lease.expiry);
    var start := i + 1;
    OfferIsPromise(cs, ls, i, start, p, lease);
    forall k, next | start <= k < j && next == k + 1 && holds(cs[k]) ensures holds(cs[next]) {
      PromiseAt(cs, ls, k, next, p, lease.mac, lease.ip, lease.expiry);
    }
    Throughout(cs, start, j, holds);
    PromiseIsGranted(cs[j].nodes[p], lease.mac, lease.ip, lease.expiry, now, order);
  }

  lemma PromiseIsGranted(n: Node, mac: Dhcp.MacAddr, ip: Address, deadline: Dhcp.Time, now: Dhcp.Time, order: seq<Id>)
    requires Promised(n.dhcp, mac, ip, deadline) && n.majority
    ensures n.HandleConfirmRequest(mac, ip, now, order).answer == Some(true)
  {
    var l :| l in n.dhcp.pending && l.mac == mac && l.ip == ip && l.expiry >= deadline;
    assert Dhcp.HasPair(n.dhcp.pending, mac, ip);
    Handlers.ConfirmationIsAnswered(n, mac, ip, now, order);
  }
}
