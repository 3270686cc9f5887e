/** When the nodes of a cluster are sure to agree on the expiry of a lease, when a renewal is safe,
    and when everyone is sure to end up with its share of a coordinator's round. */
module Settling {
  import opened Wrappers
  import opened Ipv4
  import opened ServerNode
  import opened Cluster
  import opened Election
  import opened ElectionOutcomes
  import opened LeaseLedger
  import opened Leases
  import opened LastWriter
  import Epochs
  import Dhcp
  import Allocator
  import PoolRound

  // ---------------------------------------------------------------- expiries

  /** The node stores the pair, first with this expiry. */
  ghost predicate StoresUntil(n: Node, x: Pair, expiry: Dhcp.Time) {
    var i := Dhcp.IndexByPair(n.dhcp.leases, x.mac, x.ip);
    i < |n.dhcp.leases| && n.dhcp.leases[i].expiry == expiry
  }

  lemma {:induction false} ExpiryInIsFirst(ls: seq<Dhcp.Lease>, x: Pair)
    ensures var i := Dhcp.IndexByPair(ls, x.mac, x.ip); ExpiryIn(ls, x) == if i < |ls| then Until(ls[i].expiry) else Nothing
  {
    if ls != [] { ExpiryInIsFirst(ls[1..], x); }
  }

  ghost predicate LeasePendingFor(c: Cluster, p: Id, x: Pair) {
    exists e :: e in c.pending && IsLease(e) && PairOf(e.message.lease) == x && e.to == p
  }

  /** Every pending lease of the pair expires then. */
  ghost predicate PendingSays(c: Cluster, x: Pair, expiry: Dhcp.Time) {
    forall e | e in c.pending && IsLease(e) && PairOf(e.message.lease) == x :: e.message.lease.expiry == expiry
  }

  /** Every pending lease of the pair expires then, and every node without one pending stores it so. */
  ghost predicate SaysUntil(c: Cluster, x: Pair, expiry: Dhcp.Time) {
    && PendingSays(c, x, expiry)
    && (forall p | p in c.nodes :: StoresUntil(c.nodes[p], x, expiry) || LeasePendingFor(c, p, x))
  }

  ghost predicate AllSaySame(c: Cluster, x: Pair) {
    exists expiry :: SaysUntil(c, x, expiry)
  }

  lemma SaysIsCarrying(c: Cluster, x: Pair, expiry: Dhcp.Time)
    requires WellFormed(c)
    ensures SaysUntil(c, x, expiry) <==> Carries(c, ExpiryOf(x), Everywhere(c, Until(expiry)))
  {
    var r, want := ExpiryOf(x), Everywhere(c, Until(expiry));
    assert want.Keys == c.nodes.Keys;
    forall e | e in c.pending && Writes(r, e) ensures e.to in want { assert WellAddressed(c.nodes.Keys, e); }
    forall p | p in c.nodes
      ensures StoresUntil(c.nodes[p], x, expiry) <==> Held(r, c.nodes[p].dhcp) == want[p]
      ensures LeasePendingFor(c, p, x) <==> PendingFor(r, c, p)
    {
      ExpiryInIsFirst(c.nodes[p].dhcp.leases, x);
    }
  }

  ghost predicate AllStoreUntil(c: Cluster, x: Pair, expiry: Dhcp.Time) {
    forall p | p in c.nodes :: StoresUntil(c.nodes[p], x, expiry)
  }

  /** Nobody confirms the pair, nothing is pruned and no table is replaced, and in the end no lease of
      the pair is pending: then all nodes store it with one expiry. */
  ghost predicate ExpiryIsSure(c: Cluster, x: Pair) {
    forall cs, ls, last | Settles(c, ExpiryOf(x), cs, ls, last) :: exists expiry :: AllStoreUntil(last, x, expiry)
  }

  lemma SureIsAgreeing(c: Cluster, x: Pair)
    ensures ExpiryIsSure(c, x) <==> AlwaysAgrees(c, ExpiryOf(x))
  {
    if ExpiryIsSure(c, x) {
      forall cs, ls, last | Settles(c, ExpiryOf(x), cs, ls, last) ensures exists o :: o != Nothing && Uniform(last, ExpiryOf(x), o) {
        var expiry :| AllStoreUntil(last, x, expiry);
        UniformExpiry(last, x, expiry);
      }
    }
    if AlwaysAgrees(c, ExpiryOf(x)) {
      forall cs, ls, last | Settles(c, ExpiryOf(x), cs, ls, last) ensures exists expiry :: AllStoreUntil(last, x, expiry) {
        var o :| o != Nothing && Uniform(last, ExpiryOf(x), o);
        UniformIsExpiry(last, x, o);
        UniformExpiry(last, x, if o.Until? then o.expiry else 0);
      }
    }
  }

  lemma UniformExpiry(c: Cluster, x: Pair, expiry: Dhcp.Time)
    ensures AllStoreUntil(c, x, expiry) <==> Uniform(c, ExpiryOf(x), Until(expiry))
  {
    forall p | p in c.nodes ensures StoresUntil(c.nodes[p], x, expiry) <==> Held(ExpiryOf(x), c.nodes[p].dhcp) == Until(expiry) {
      ExpiryInIsFirst(c.nodes[p].dhcp.leases, x);
    }
  }

  lemma UniformIsExpiry(c: Cluster, x: Pair, o: Content)
    requires o != Nothing && Uniform(c, ExpiryOf(x), o)
    ensures Uniform(c, ExpiryOf(x), Until(if o.Until? then o.expiry else 0))
  {
    forall p | p in c.nodes ensures o.Until? { ExpiryInIsFirst(c.nodes[p].dhcp.leases, x); }
  }

  /** In a mesh of at least two nodes, all nodes are sure to end up with one expiry of the pair if and
      only if every pending lease of it has the same one, and so has every node without one pending. */
  lemma ExpiriesAgreeIff(c: Cluster, x: Pair)
    requires WellFormed(c) && |c.nodes.Keys| >= 2
    ensures ExpiryIsSure(c, x) <==> AllSaySame(c, x)
  {
    SureIsAgreeing(c, x);
    AlwaysAgreesIff(c, ExpiryOf(x));
    if expiry :| SaysUntil(c, x, expiry) { SaysIsCarrying(c, x, expiry); }
    if o :| o != Nothing && Carries(c, ExpiryOf(x), Everywhere(c, o)) { CarriedIsExpiry(c, x, o); }
  }

  lemma CarriedIsExpiry(c: Cluster, x: Pair, o: Content)
    requires WellFormed(c) && |c.nodes.Keys| >= 2 && o != Nothing && Carries(c, ExpiryOf(x), Everywhere(c, o))
    ensures AllSaySame(c, x)
  {
    var p :| p in c.nodes.Keys;
    assert Everywhere(c, o)[p] == o;
    if PendingFor(ExpiryOf(x), c, p) {
      var e :| e in c.pending && Writes(ExpiryOf(x), e) && e.to == p;
      assert Written(ExpiryOf(x), e) == o;
    } else {
      ExpiryInIsFirst(c.nodes[p].dhcp.leases, x);
      assert Held(ExpiryOf(x), c.nodes[p].dhcp) == o;
    }
    SaysIsCarrying(c, x, o.expiry);
  }

  // ---------------------------------------------------------------- renewals

  /** The node can renew the pair, and has no unconfirmed offer of it. */
  predicate Renewable(s: Dhcp.State, x: Pair) {
    Dhcp.HasPair(s.leases, x.mac, x.ip) && !Dhcp.HasPair(s.pending, x.mac, x.ip)
  }

  lemma RenewalStores(s: Dhcp.State, x: Pair, now: Dhcp.Time)
    requires Renewable(s, x)
    ensures ExpiryIn(s.Commit(x.mac, x.ip, now).state.leases, x) == Until(now + s.leaseTime)
  {
    var lease := Dhcp.Lease(x.mac, x.ip, now + s.leaseTime);
    var i := Dhcp.IndexByPair(s.leases, x.mac, x.ip);
    ExpiryAfterUpdate(s.leases, i, lease, x);
    Allocator.CommitSucceedsIff(s, x.mac, x.ip, now);
    assert s.Commit(x.mac, x.ip, now).state.leases == s.leases[i := lease];
  }

  /** The cluster after node `p` has renewed the pair, to expire then. */
  function Renewed(c: Cluster, p: Id, x: Pair, now: Dhcp.Time, order: seq<Id>): Cluster
    requires p in c.nodes
  {
    var n := c.nodes[p];
    Cluster(c.nodes[p := n.(dhcp := n.dhcp.Commit(x.mac, x.ip, now).state)],
            c.pending + Broadcast(p, order, Message.Lease(Dhcp.Lease(x.mac, x.ip, now + n.dhcp.leaseTime))))
  }

  lemma RenewalRenews(c: Cluster, p: Id, x: Pair, now: Dhcp.Time, order: seq<Id>, c': Cluster)
    requires WellFormed(c) && Step(c, ConfirmRequest(p, x.mac, x.ip, now, order), c')
    requires c.nodes[p].majority && Renewable(c.nodes[p].dhcp, x)
    ensures IsOrder(order, c.nodes[p].peers) && c' == Renewed(c, p, x, now, order)
  {
    Allocator.CommitSucceedsIff(c.nodes[p].dhcp, x.mac, x.ip, now);
  }

  /** A renewal changes the node's own expiry ... */
  lemma RenewalCounts(c: Cluster, p: Id, x: Pair, now: Dhcp.Time, order: seq<Id>)
    requires p in c.nodes && Renewable(c.nodes[p].dhcp, x)
    ensures StoresUntil(Renewed(c, p, x, now, order).nodes[p], x, now + c.nodes[p].dhcp.leaseTime)
  {
    RenewalStores(c.nodes[p].dhcp, x, now);
    ExpiryInIsFirst(Renewed(c, p, x, now, order).nodes[p].dhcp.leases, x);
  }

  /** The lease is sent to all nodes but `p`, and nothing else is. */
  ghost predicate IsTold(c: Cluster, p: Id, lease: Dhcp.Lease, c': Cluster) {
    && (forall e | e in c'.pending :: e in c.pending || (e.PeerMessage? && e.message == Message.Lease(lease)))
    && (forall e | e in c.pending :: e in c'.pending)
    && (forall q | q in c.nodes && q != p :: PeerMessage(q, p, Message.Lease(lease)) in c'.pending)
  }

  /** ... and tells every other node. */
  lemma RenewalTells(c: Cluster, p: Id, x: Pair, now: Dhcp.Time, order: seq<Id>)
    requires FullMesh(c) && p in c.nodes && IsOrder(order, c.nodes[p].peers)
    ensures IsTold(c, p, Dhcp.Lease(x.mac, x.ip, now + c.nodes[p].dhcp.leaseTime), Renewed(c, p, x, now, order))
  {
    BroadcastSent(p, order, Message.Lease(Dhcp.Lease(x.mac, x.ip, now + c.nodes[p].dhcp.leaseTime)));
  }

  /** A renewal leaves all nodes sure to agree on the expiry if and only if no lease of the pair that
      says otherwise is still pending for anyone. */
  lemma RenewalIsSafeIff(c: Cluster, p: Id, x: Pair, now: Dhcp.Time, order: seq<Id>, c': Cluster)
    requires WellFormed(c) && |c.nodes.Keys| >= 2 && Step(c, ConfirmRequest(p, x.mac, x.ip, now, order), c')
    requires c.nodes[p].majority && Renewable(c.nodes[p].dhcp, x)
    ensures ExpiryIsSure(c', x) <==> PendingSays(c, x, now + c.nodes[p].dhcp.leaseTime)
  {
    var expiry := now + c.nodes[p].dhcp.leaseTime;
    StepKeepsWellFormed(c, ConfirmRequest(p, x.mac, x.ip, now, order), c');
    RenewalRenews(c, p, x, now, order, c');
    RenewalCounts(c, p, x, now, order);
    RenewalTells(c, p, x, now, order);
    ExpiriesAgreeIff(c', x);
    RenewedSays(c, p, x, expiry, c');
  }

  lemma RenewedSays(c: Cluster, p: Id, x: Pair, expiry: Dhcp.Time, c': Cluster)
    requires p in c.nodes && |c.nodes.Keys| >= 2 && c'.nodes.Keys == c.nodes.Keys && StoresUntil(c'.nodes[p], x, expiry)
    requires IsTold(c, p, Dhcp.Lease(x.mac, x.ip, expiry), c')
    ensures AllSaySame(c', x) <==> PendingSays(c, x, expiry)
  {
    var q := SomeOther(c.nodes.Keys, p);
    var told := PeerMessage(q, p, Message.Lease(Dhcp.Lease(x.mac, x.ip, expiry)));
    assert told in c'.pending && IsLease(told) && PairOf(told.message.lease) == x;
    if PendingSays(c, x, expiry) {
      forall s | s in c'.nodes ensures StoresUntil(c'.nodes[s], x, expiry) || LeasePendingFor(c', s, x) {
        if s != p {
          var e := PeerMessage(s, p, Message.Lease(Dhcp.Lease(x.mac, x.ip, expiry)));
          assert e in c'.pending && IsLease(e) && PairOf(e.message.lease) == x;
        }
      }
      assert SaysUntil(c', x, expiry);
    }
    if other :| SaysUntil(c', x, other) { assert other == expiry; }
  }

  // ---------------------------------------------------------------- pools after a round

  /** The share of each node in the round of `n`. */
  ghost function Shares(n: Node, order: seq<Id>): map<Id, Content>
    requires PoolRound.Peers(n, order)
  {
    map p | p in Group(n) :: Range(ShareOf(n, order, p))
  }

  ghost function ShareOf(n: Node, order: seq<Id>, p: Id): Ipv4Range
    requires PoolRound.Peers(n, order) && p in Group(n)
  {
    PoolRound.EveryoneGetsOneShare(n, order, p);
    PoolRound.Given(n, n.BecomeCoordinator(order), p)[0]
  }

  lemma AppliedIsShown(c: Cluster, n: Node, order: seq<Id>)
    requires PoolRound.Peers(n, order)
    ensures PoolRound.Applied(c, n, order) <==> Shows(c, OwnPool, Shares(n, order))
  {
    assert Shares(n, order).Keys == Group(n);
    if c.nodes.Keys == Group(n) {
      forall p | p in c.nodes
        ensures PoolRound.Given(n, n.BecomeCoordinator(order), p) == [c.nodes[p].dhcp.pool] <==> c.nodes[p].dhcp.pool == ShareOf(n, order, p)
      {
        GivenIsShare(n, order, p, c.nodes[p].dhcp.pool);
      }
    }
  }

  lemma GivenIsShare(n: Node, order: seq<Id>, p: Id, pool: Ipv4Range)
    requires PoolRound.Peers(n, order) && p in Group(n)
    ensures PoolRound.Given(n, n.BecomeCoordinator(order), p) == [pool] <==> ShareOf(n, order, p) == pool
  {
    PoolRound.EveryoneGetsOneShare(n, order, p);
  }

  /** A run from rest without new elections, at whose end no pool assignment is pending. */
  ghost predicate IsQuietRun(c: Cluster, cs: seq<Cluster>, ls: seq<Label>, last: Cluster) {
    && IsRun(cs, ls) && cs[0] == c && cs[|ls|] == last
    && (forall l | l in ls :: !l.Trigger?)
    && (forall e | e in last.pending :: !(e.PeerMessage? && e.message.SetPool?))
  }

  lemma RestStepAt(cs: seq<Cluster>, ls: seq<Label>, i: nat, next: nat)
    requires IsRun(cs, ls) && i < |ls| && next == i + 1 && WellFormed(cs[i]) && AtRest(cs[i]) && !ls[i].Trigger?
    ensures WellFormed(cs[next]) && AtRest(cs[next]) && UndisturbedAt(OwnPool, cs, ls, i)
  {
    RunStep(cs, ls, i);
    StepKeepsWellFormed(cs[i], ls[i], cs[next]);
    assert ls[i].Process? ==> cs[i].pending[ls[i].i] in cs[i].pending;
    CalmSteps(cs[i], ls[i], cs[next]);
  }

  ghost predicate Rests(c: Cluster) {
    WellFormed(c) && AtRest(c)
  }

  lemma RestGoesOn(cs: seq<Cluster>, ls: seq<Label>, i: nat, next: nat)
    requires IsRun(cs, ls) && i < |ls| && next == i + 1 && Rests(cs[i]) && forall l | l in ls :: !l.Trigger?
    ensures Rests(cs[next])
  {
    assert ls[i] in ls;
    RestStepAt(cs, ls, i, next);
  }

  lemma RestRun(cs: seq<Cluster>, ls: seq<Label>, n: nat)
    requires IsRun(cs, ls) && Rests(cs[0]) && n <= |ls| && forall l | l in ls :: !l.Trigger?
    ensures Rests(cs[n])
  {
    forall i, next | 0 <= i < n && next == i + 1 && Rests(cs[i]) ensures Rests(cs[next]) { RestGoesOn(cs, ls, i, next); }
    Throughout(cs, 0, n, Rests);
  }

  lemma QuietIsSettling(c: Cluster, cs: seq<Cluster>, ls: seq<Label>, last: Cluster)
    requires WellFormed(c) && AtRest(c)
    ensures IsQuietRun(c, cs, ls, last) <==> Settles(c, OwnPool, cs, ls, last)
  {
    if IsQuietRun(c, cs, ls, last) {
      forall i | 0 <= i < |ls| ensures UndisturbedAt(OwnPool, cs, ls, i) {
        RestRun(cs, ls, i);
        assert ls[i] in ls;
        RestStepAt(cs, ls, i, i + 1);
      }
    }
    if Settles(c, OwnPool, cs, ls, last) {
      forall l | l in ls ensures !l.Trigger? {
        var i :| 0 <= i < |ls| && ls[i] == l;
        assert UndisturbedAt(OwnPool, cs, ls, i);
      }
    }
  }

  /** Once no election is going on, everyone is sure to end up with its share of a round if and only
      if every pending assignment gives its target the target's share, and every node for which none
      is pending has its share already. */
  lemma PoolsSettleIff(c: Cluster, n: Node, order: seq<Id>)
    requires WellFormed(c) && AtRest(c) && PoolRound.Peers(n, order) && c.nodes.Keys == Group(n)
    ensures (forall cs, ls, last | IsQuietRun(c, cs, ls, last) :: PoolRound.Applied(last, n, order)) <==>
            AssignsShares(c, n, order) && HaveShares(c, n, order)
  {
    AlwaysShowsIff(c, OwnPool, Shares(n, order));
    QuietRunsApplyIff(c, n, order);
    SharesAreCarriedIff(c, n, order);
  }

  lemma QuietRunsApplyIff(c: Cluster, n: Node, order: seq<Id>)
    requires WellFormed(c) && AtRest(c) && PoolRound.Peers(n, order)
    ensures (forall cs, ls, last | IsQuietRun(c, cs, ls, last) :: PoolRound.Applied(last, n, order)) <==> AlwaysShows(c, OwnPool, Shares(n, order))
  {
    forall cs, ls, last
      ensures IsQuietRun(c, cs, ls, last) <==> Settles(c, OwnPool, cs, ls, last)
      ensures PoolRound.Applied(last, n, order) <==> Shows(last, OwnPool, Shares(n, order))
    {
      QuietIsSettling(c, cs, ls, last);
      AppliedIsShown(last, n, order);
    }
  }

  lemma SharesAreCarriedIff(c: Cluster, n: Node, order: seq<Id>)
    requires WellFormed(c) && PoolRound.Peers(n, order) && c.nodes.Keys == Group(n)
    ensures Carries(c, OwnPool, Shares(n, order)) <==> AssignsShares(c, n, order) && HaveShares(c, n, order)
  {
    AssignmentsMatch(c, n, order);
    PoolsMatch(c, n, order);
  }

  ghost predicate AssignsShares(c: Cluster, n: Node, order: seq<Id>)
    requires WellFormed(c) && PoolRound.Peers(n, order) && c.nodes.Keys == Group(n)
  {
    forall e | e in c.pending && e.PeerMessage? && e.message.SetPool? :: e.message.pool == ShareOf(n, order, e.to)
  }

  ghost predicate HaveShares(c: Cluster, n: Node, order: seq<Id>)
    requires PoolRound.Peers(n, order) && c.nodes.Keys == Group(n)
  {
    forall p | p in c.nodes :: c.nodes[p].dhcp.pool == ShareOf(n, order, p) || PendingFor(OwnPool, c, p)
  }

  lemma AssignmentsMatch(c: Cluster, n: Node, order: seq<Id>)
    requires WellFormed(c) && PoolRound.Peers(n, order) && c.nodes.Keys == Group(n)
    ensures AssignsShares(c, n, order) <==>
            forall e | e in c.pending && Writes(OwnPool, e) && e.to in Shares(n, order) :: Written(OwnPool, e) == Shares(n, order)[e.to]
  {
    forall e | e in c.pending && Writes(OwnPool, e)
      ensures e.to in Shares(n, order)
      ensures Written(OwnPool, e) == Shares(n, order)[e.to] <==> e.message.pool == ShareOf(n, order, e.to)
    {
      assert WellAddressed(c.nodes.Keys, e);
    }
  }

  lemma PoolsMatch(c: Cluster, n: Node, order: seq<Id>)
    requires PoolRound.Peers(n, order) && c.nodes.Keys == Group(n)
    ensures HaveShares(c, n, order) <==>
            forall p | p in Shares(n, order) :: Held(OwnPool, c.nodes[p].dhcp) == Shares(n, order)[p] || PendingFor(OwnPool, c, p)
    ensures Shares(n, order).Keys == c.nodes.Keys
  {
    var want := Shares(n, order);
    assert want.Keys == c.nodes.Keys;
    assert forall p | p in c.nodes :: want[p] == Range(ShareOf(n, order, p)) && Held(OwnPool, c.nodes[p].dhcp) == Range(c.nodes[p].dhcp.pool);
  }
}
