/** Runs in which no pool changes: exactly when addresses stay bound once, exactly when owners stay
    informed, when tables converge, and how one such run can follow another. */
module Epochs {
  import opened Wrappers
  import opened Ipv4
  import opened ServerNode
  import opened Cluster
  import opened LeaseLedger
  import opened Leases
  import Dhcp
  import Allocator

  ghost predicate SteadyAt(cs: seq<Cluster>, ls: seq<Label>, i: nat)
    requires i < |ls| < |cs|
  {
    Step(cs[i], ls[i], cs[i + 1]) && PoolsStay(cs[i], cs[i + 1])
  }

  /** A run during which every node keeps its pool. Elections and reconnections may go on. */
  ghost predicate IsSteady(cs: seq<Cluster>, ls: seq<Label>) {
    |cs| == |ls| + 1 && Sane(cs[0]) && forall i | 0 <= i < |ls| :: SteadyAt(cs, ls, i)
  }

  lemma SteadyStep(cs: seq<Cluster>, ls: seq<Label>, i: nat, next: nat)
    requires IsSteady(cs, ls) && i < |ls| && next == i + 1
    ensures Step(cs[i], ls[i], cs[next]) && PoolsStay(cs[i], cs[next])
  {
    assert SteadyAt(cs, ls, i);
  }

  lemma StepKeepsSane(c: Cluster, l: Label, c': Cluster)
    requires Sane(c) && Step(c, l, c') && PoolsStay(c, c')
    ensures Sane(c')
  {
    var at, ch := StepFollows(c, l, c', false);
    FollowingIsSane(c, at, ch, c', false);
  }

  lemma {:induction false} SteadyIsSane(cs: seq<Cluster>, ls: seq<Label>, n: nat)
    requires IsSteady(cs, ls) && n <= |ls|
    ensures Sane(cs[n])
  {
    if n > 0 {
      SteadyIsSane(cs, ls, n - 1);
      SaneAt(cs, ls, n - 1, n);
    }
  }

  lemma SaneAt(cs: seq<Cluster>, ls: seq<Label>, i: nat, next: nat)
    requires IsSteady(cs, ls) && i < |ls| && next == i + 1 && Sane(cs[i])
    ensures Sane(cs[next])
  {
    SteadyStep(cs, ls, i, next);
    StepKeepsSane(cs[i], ls[i], cs[next]);
  }

  // ---------------------------------------------------------------- uniqueness

  /** A step that newly offers an address is harmless if no other node has leased that address to
      another MAC, and no lease of it to another MAC is on its way. */
  ghost predicate HarmlessStep(c: Cluster, l: Label) {
    l.LeaseRequest? && OfferOf(c, l).Some? ==>
      forall y | Elsewhere(LedgerOf(c), l.at, y) && y.ip == OfferOf(c, l).value.ip :: y == OfferOf(c, l).value
  }

  ghost predicate HarmlessAt(cs: seq<Cluster>, ls: seq<Label>, i: nat)
    requires i < |ls| < |cs|
  {
    HarmlessStep(cs[i], ls[i])
  }

  ghost predicate IsGuarded(c: Cluster) {
    Sane(c) && Guarded(LedgerOf(c))
  }

  ghost predicate Unique(c: Cluster) {
    NoDoubleBinding(LedgerOf(c))
  }

  /** From a state in which no address is bound twice, a step leads to another if and only if it is
      harmless. Entries may expire, and whole tables may be replaced. */
  lemma StepIsUniqueIff(c: Cluster, l: Label, c': Cluster)
    requires IsGuarded(c) && Step(c, l, c') && PoolsStay(c, c')
    ensures Unique(c') <==> HarmlessStep(c, l)
    ensures Unique(c') <==> IsGuarded(c')
  {
    var at, ch := StepFollows(c, l, c', false);
    FollowingIsSane(c, at, ch, c', false);
    GuardedIff(LedgerOf(c), at, ch, LedgerOf(c'), false);
  }

  lemma UniqueAt(cs: seq<Cluster>, ls: seq<Label>, i: nat, next: nat)
    requires IsSteady(cs, ls) && i < |ls| && next == i + 1 && IsGuarded(cs[i])
    ensures Unique(cs[next]) <==> HarmlessAt(cs, ls, i)
    ensures Unique(cs[next]) <==> IsGuarded(cs[next])
  {
    SteadyStep(cs, ls, i, next);
    StepIsUniqueIff(cs[i], ls[i], cs[next]);
  }

  lemma {:induction false} HarmlessRun(cs: seq<Cluster>, ls: seq<Label>, n: nat)
    requires IsSteady(cs, ls) && IsGuarded(cs[0]) && n <= |ls|
    requires forall i | 0 <= i < n :: HarmlessAt(cs, ls, i)
    ensures IsGuarded(cs[n])
  {
    if n > 0 {
      HarmlessRun(cs, ls, n - 1);
      UniqueAt(cs, ls, n - 1, n);
    }
  }

  lemma {:induction false} UniqueRun(cs: seq<Cluster>, ls: seq<Label>, n: nat)
    requires IsSteady(cs, ls) && IsGuarded(cs[0]) && n <= |ls|
    requires forall i | 0 <= i <= n :: Unique(cs[i])
    ensures IsGuarded(cs[n])
  {
    if n > 0 {
      UniqueRun(cs, ls, n - 1);
      UniqueAt(cs, ls, n - 1, n);
    }
  }

  /** Over every run without pool changes, no address is ever bound to two MACs in the tables,
      offers and messages of the whole cluster, if and only if every step is harmless. */
  lemma UniquenessIff(cs: seq<Cluster>, ls: seq<Label>)
    requires IsSteady(cs, ls) && IsGuarded(cs[0])
    ensures (forall n | 0 <= n <= |ls| :: Unique(cs[n])) <==> (forall i | 0 <= i < |ls| :: HarmlessAt(cs, ls, i))
  {
    if forall i | 0 <= i < |ls| :: HarmlessAt(cs, ls, i) {
      forall n | 0 <= n <= |ls| ensures Unique(cs[n]) { HarmlessRun(cs, ls, n); }
    }
    if forall n | 0 <= n <= |ls| :: Unique(cs[n]) {
      forall i | 0 <= i < |ls| ensures HarmlessAt(cs, ls, i) {
        UniqueRun(cs, ls, i);
        UniqueAt(cs, ls, i, i + 1);
      }
    }
  }

  // ---------------------------------------------------------------- epochs

  /** Pools are disjoint, and owners know every lease of their addresses and bind each once. */
  ghost predicate Orderly(c: Cluster) {
    Sane(c) && Sound(LedgerOf(c))
  }

  /** No node forgets a lease of its own pool that another node still has, or that is on its way. */
  ghost predicate CarefulStep(c: Cluster, c': Cluster)
    requires c'.nodes.Keys == c.nodes.Keys
  {
    forall p | p in c.nodes :: Careful(LedgerOf(c), p, LedgerOf(c'))
  }

  ghost predicate CarefulAt(cs: seq<Cluster>, ls: seq<Label>, i: nat)
    requires i < |ls| < |cs|
  {
    cs[i + 1].nodes.Keys == cs[i].nodes.Keys && CarefulStep(cs[i], cs[i + 1])
  }

  ghost predicate IsEpoch(cs: seq<Cluster>, ls: seq<Label>) {
    IsSteady(cs, ls) && Orderly(cs[0]) && forall i | 0 <= i < |ls| :: CarefulAt(cs, ls, i)
  }

  lemma CarefulElsewhere(c: Cluster, at: Id, ch: Change, c': Cluster)
    requires Follows(c, at, ch, c', false)
    ensures CarefulStep(c, c') <==> Careful(LedgerOf(c), at, LedgerOf(c'))
  {
    forall p | p in c.nodes && p != at ensures Careful(LedgerOf(c), p, LedgerOf(c')) {
      assert LedgerOf(c').leased[p] == LedgerOf(c).leased[p];
    }
  }

  /** A step keeps owners informed if and only if it is careful. */
  lemma StepIsOrderlyIff(c: Cluster, l: Label, c': Cluster)
    requires Orderly(c) && Step(c, l, c') && PoolsStay(c, c')
    ensures Orderly(c') <==> CarefulStep(c, c')
  {
    var at, ch := StepFollows(c, l, c', false);
    FollowingIsSane(c, at, ch, c', false);
    CarefulElsewhere(c, at, ch, c');
    SoundIff(LedgerOf(c), at, ch, LedgerOf(c'), false);
  }

  lemma {:induction false} EpochIsOrderly(cs: seq<Cluster>, ls: seq<Label>, n: nat)
    requires IsEpoch(cs, ls) && n <= |ls|
    ensures Orderly(cs[n])
  {
    if n > 0 {
      EpochIsOrderly(cs, ls, n - 1);
      OrderlyAt(cs, ls, n - 1, n);
    }
  }

  lemma OrderlyAt(cs: seq<Cluster>, ls: seq<Label>, i: nat, next: nat)
    requires IsEpoch(cs, ls) && i < |ls| && next == i + 1 && Orderly(cs[i])
    ensures Orderly(cs[next])
  {
    SteadyStep(cs, ls, i, next);
    assert CarefulAt(cs, ls, i);
    StepIsOrderlyIff(cs[i], ls[i], cs[next]);
  }

  lemma OrderlyIsGuarded(c: Cluster)
    requires Orderly(c)
    ensures IsGuarded(c)
  {
    SoundIsSafe(LedgerOf(c));
  }

  /** No double allocation. Throughout an epoch, with requests and confirmations at any node, leases
      delivered in any order and any number of times, and tables sent on reconnections, no address
      is bound to two MACs in the tables, offers and messages of the whole cluster. */
  lemma NoDoubleAllocation(cs: seq<Cluster>, ls: seq<Label>, n: nat)
    requires IsEpoch(cs, ls) && n <= |ls|
    ensures Unique(cs[n])
  {
    EpochIsOrderly(cs, ls, n);
    OrderlyIsGuarded(cs[n]);
  }

  // ---------------------------------------------------------------- convergence

  /** No node forgets a lease. */
  ghost predicate RetainsAll(c: Cluster, c': Cluster)
    requires c'.nodes.Keys == c.nodes.Keys
  {
    forall p | p in c.nodes :: Pairs(c.nodes[p].dhcp.leases) <= Pairs(c'.nodes[p].dhcp.leases)
  }

  ghost predicate RetainsAt(cs: seq<Cluster>, ls: seq<Label>, i: nat)
    requires i < |ls| < |cs|
  {
    cs[i + 1].nodes.Keys == cs[i].nodes.Keys && RetainsAll(cs[i], cs[i + 1])
  }

  /** A run of a full mesh without pool changes, in which no lease is forgotten, and from the start
      every lease is everywhere or on its way. */
  ghost predicate IsSpreading(cs: seq<Cluster>, ls: seq<Label>) {
    && IsSteady(cs, ls) && FullMesh(cs[0]) && Spreads(LedgerOf(cs[0]))
    && forall i | 0 <= i < |ls| :: RetainsAt(cs, ls, i)
  }

  lemma StepKeepsSpreading(c: Cluster, l: Label, c': Cluster)
    requires Sane(c) && FullMesh(c) && Step(c, l, c') && PoolsStay(c, c') && RetainsAll(c, c') && Spreads(LedgerOf(c))
    ensures FullMesh(c') && Spreads(LedgerOf(c'))
  {
    StepKeepsConnections(c, l, c');
    var at, ch := StepFollows(c, l, c', true);
    assert Retains(LedgerOf(c), at, LedgerOf(c'));
    RetainingKeepsSpreading(LedgerOf(c), at, ch, LedgerOf(c'));
  }

  /** Throughout such a run every lease is in each node's table, or on its way there. */
  lemma LeasesKeepSpreading(cs: seq<Cluster>, ls: seq<Label>, n: nat)
    requires IsSpreading(cs, ls) && n <= |ls|
    ensures InMesh(cs[n])
  {
    SpreadingGoesOn(cs, ls, 0, n);
  }

  lemma {:induction false} SpreadingGoesOn(cs: seq<Cluster>, ls: seq<Label>, m: nat, n: nat)
    requires IsSpreading(cs, ls) && m <= n <= |ls| && InMesh(cs[m])
    ensures InMesh(cs[n])
    decreases n - m
  {
    if m < n {
      var next := m + 1;
      SpreadingAt(cs, ls, m, next);
      SpreadingGoesOn(cs, ls, next, n);
    }
  }

  ghost predicate InMesh(c: Cluster) {
    FullMesh(c) && Spreads(LedgerOf(c))
  }

  lemma SpreadingAt(cs: seq<Cluster>, ls: seq<Label>, i: nat, next: nat)
    requires IsSpreading(cs, ls) && i < |ls| && next == i + 1 && InMesh(cs[i])
    ensures InMesh(cs[next])
  {
    SteadyIsSane(cs, ls, i);
    SteadyStep(cs, ls, i, next);
    assert RetainsAt(cs, ls, i);
    StepKeepsSpreading(cs[i], ls[i], cs[next]);
  }

  /** Replication converges: once no lease is on its way, all nodes have leased the same pairs. */
  lemma TablesConverge(cs: seq<Cluster>, ls: seq<Label>, n: nat, i: Id, j: Id)
    requires IsSpreading(cs, ls) && n <= |ls|
    requires forall e | e in cs[n].pending :: !IsLease(e)
    requires i in cs[n].nodes && j in cs[n].nodes
    ensures Pairs(cs[n].nodes[i].dhcp.leases) == Pairs(cs[n].nodes[j].dhcp.leases)
  {
    LeasesKeepSpreading(cs, ls, n);
    QuietMeansEqual(LedgerOf(cs[n]), i, j);
  }

  // ---------------------------------------------------------------- without expiry and replacement

  /** A step that prunes no expired entry, as its clock reading precedes all expiries at the node,
      and replaces no table, as the one received is not longer. */
  ghost predicate Gentle(c: Cluster, l: Label) {
    && (l.LeaseRequest? && l.at in c.nodes ==> forall x | x in c.nodes[l.at].dhcp.Entries() :: x.expiry > l.now)
    && (l.Process? && l.i < |c.pending| && IsTable(c.pending[l.i]) && c.pending[l.i].to in c.nodes ==>
          |c.pending[l.i].message.leases| <= |c.nodes[c.pending[l.i].to].dhcp.leases|)
  }

  ghost predicate GentleAt(cs: seq<Cluster>, ls: seq<Label>, i: nat)
    requires i < |ls| < |cs|
  {
    Gentle(cs[i], ls[i])
  }

  /** A run during which pools stay, nothing expires, and no table is replaced. */
  ghost predicate IsGentle(cs: seq<Cluster>, ls: seq<Label>) {
    IsSteady(cs, ls) && forall i | 0 <= i < |ls| :: GentleAt(cs, ls, i)
  }

  lemma EventRetains(n: Node, e: Event, order: seq<Id>)
    requires n.dhcp.CursorOk() && n.HandleEvent(e, order).React?
    requires IsTable(e) ==> |e.message.leases| <= |n.dhcp.leases|
    ensures Pairs(n.dhcp.leases) <= Pairs(n.HandleEvent(e, order).node.dhcp.leases)
  {
    if IsLease(e) {
      AddLeaseLearns(n.dhcp, e.message.lease);
    } else if !IsTable(e) {
      OtherEventsKeepTables(n, e, order);
    }
  }

  lemma RequestRetains(n: Node, mac: Dhcp.MacAddr, now: Dhcp.Time, stamp: Dhcp.Time)
    requires forall x | x in n.dhcp.Entries() :: x.expiry > now
    ensures n.HandleLeaseRequest(mac, now, stamp).node.dhcp.leases == n.dhcp.leases
  {
    Allocator.PruneAll(n.dhcp, now);
  }

  lemma ConfirmRetains(n: Node, mac: Dhcp.MacAddr, ip: Address, now: Dhcp.Time, order: seq<Id>)
    ensures Pairs(n.dhcp.leases) <= Pairs(n.HandleConfirmRequest(mac, ip, now, order).node.dhcp.leases)
  {
    if n.dhcp.Commit(mac, ip, now).result.Success? { CommitLearns(n.dhcp, mac, ip, now); }
  }

  /** A gentle step forgets nothing. */
  lemma GentleRetains(c: Cluster, l: Label, c': Cluster)
    requires Sane(c) && Step(c, l, c') && Gentle(c, l)
    ensures c'.nodes.Keys == c.nodes.Keys && RetainsAll(c, c')
  {
    match l
    case Process(i, order) => EventRetains(c.nodes[Target(c.pending[i])], c.pending[i], order);
    case Repeat(i) => EventRetains(c.nodes[Target(c.pending[i])], c.pending[i], []);
    case Trigger(at, order, cause) => TriggerSends(c.nodes[at], order, cause);
    case Rejoin(at, peer) => RejoinSends(c, at, peer, c');
    case LeaseRequest(at, mac, now, stamp) => RequestRetains(c.nodes[at], mac, now, stamp);
    case ConfirmRequest(at, mac, ip, now, order) => ConfirmRetains(c.nodes[at], mac, ip, now, order);
  }

  /** Whoever forgets nothing is careful. */
  lemma RetainingIsCareful(c: Cluster, c': Cluster)
    requires c'.nodes.Keys == c.nodes.Keys && RetainsAll(c, c')
    ensures CarefulStep(c, c')
  {
    forall p | p in c.nodes ensures Careful(LedgerOf(c), p, LedgerOf(c')) {
      assert LedgerOf(c).leased[p] <= LedgerOf(c').leased[p];
    }
  }

  lemma GentleStepAt(cs: seq<Cluster>, ls: seq<Label>, i: nat, next: nat)
    requires IsGentle(cs, ls) && i < |ls| && next == i + 1
    ensures cs[next].nodes.Keys == cs[i].nodes.Keys && RetainsAll(cs[i], cs[next]) && CarefulStep(cs[i], cs[next])
  {
    SteadyIsSane(cs, ls, i);
    SteadyStep(cs, ls, i, next);
    assert GentleAt(cs, ls, i);
    GentleRetains(cs[i], ls[i], cs[next]);
    RetainingIsCareful(cs[i], cs[next]);
  }

  lemma CarefulStepAt(cs: seq<Cluster>, ls: seq<Label>, i: nat)
    requires IsGentle(cs, ls) && i < |ls|
    ensures CarefulAt(cs, ls, i) && RetainsAt(cs, ls, i)
  {
    GentleStepAt(cs, ls, i, i + 1);
  }

  lemma GentleIsEpoch(cs: seq<Cluster>, ls: seq<Label>)
    requires IsGentle(cs, ls) && Orderly(cs[0])
    ensures IsEpoch(cs, ls)
  {
    forall i | 0 <= i < |ls| ensures CarefulAt(cs, ls, i) { CarefulStepAt(cs, ls, i); }
  }

  lemma GentleIsSpreading(cs: seq<Cluster>, ls: seq<Label>)
    requires IsGentle(cs, ls) && FullMesh(cs[0]) && Spreads(LedgerOf(cs[0]))
    ensures IsSpreading(cs, ls)
  {
    forall i | 0 <= i < |ls| ensures RetainsAt(cs, ls, i) { CarefulStepAt(cs, ls, i); }
  }

  /** As long as nothing expires, no table is replaced and pools stay, no address is bound twice ... */
  lemma GentleRunsAreUnique(cs: seq<Cluster>, ls: seq<Label>, n: nat)
    requires IsGentle(cs, ls) && Orderly(cs[0]) && n <= |ls|
    ensures Unique(cs[n])
  {
    GentleIsEpoch(cs, ls);
    NoDoubleAllocation(cs, ls, n);
  }

  /** ... and tables converge. */
  lemma GentleRunsConverge(cs: seq<Cluster>, ls: seq<Label>, n: nat, i: Id, j: Id)
    requires IsGentle(cs, ls) && FullMesh(cs[0]) && Spreads(LedgerOf(cs[0])) && n <= |ls|
    requires forall e | e in cs[n].pending :: !IsLease(e)
    requires i in cs[n].nodes && j in cs[n].nodes
    ensures Pairs(cs[n].nodes[i].dhcp.leases) == Pairs(cs[n].nodes[j].dhcp.leases)
  {
    GentleIsSpreading(cs, ls);
    TablesConverge(cs, ls, n, i, j);
  }

  // ---------------------------------------------------------------- where epochs start

  /** All tables have the same pairs, and nothing about them is on its way. */
  ghost predicate Converged(c: Cluster) {
    && (forall e | e in c.pending :: !IsLease(e) && !IsTable(e))
    && (forall p, q | p in c.nodes && q in c.nodes :: Pairs(c.nodes[p].dhcp.leases) == Pairs(c.nodes[q].dhcp.leases))
  }

  ghost predicate Owned(c: Cluster, ip: Address) {
    exists o :: o in c.nodes && c.nodes[o].dhcp.pool.Contains(ip)
  }

  /** Pools are disjoint. Each leased address is in some pool, each offered one in the pool of the
      node that offers it, and no node stores an address for two MACs. */
  ghost predicate Partitioned(c: Cluster) {
    && Disjoint(PoolsOf(c.nodes))
    && (forall p, x | p in c.nodes && x in Pairs(c.nodes[p].dhcp.leases) :: Owned(c, x.ip))
    && (forall p, x | p in c.nodes && x in Pairs(c.nodes[p].dhcp.pending) :: c.nodes[p].dhcp.pool.Contains(x.ip))
    && (forall p | p in c.nodes :: StoresOnce(c.nodes[p].dhcp))
  }

  ghost predicate StoresOnce(s: Dhcp.State) {
    forall x, y | x in Pairs(s.leases) + Pairs(s.pending) && y in Pairs(s.leases) + Pairs(s.pending) && x.ip == y.ip :: x == y
  }

  /** An epoch can start whenever tables have converged and pools have been assigned. */
  lemma EpochCanStart(c: Cluster)
    requires Sane(c) && Converged(c) && Partitioned(c)
    ensures Orderly(c) && Spreads(LedgerOf(c))
  {
    var k := LedgerOf(c);
    NoNotices(c.pending);
    forall x | LeasedSomewhere(k, x) ensures OwnerHas(k, x) && forall j | j in k.pools :: x in k.leased[j] {
      ConvergedLease(c, x);
    }
    forall p | p in k.pools ensures OwnerIsSure(k, p) { assert StoresOnce(c.nodes[p].dhcp); }
  }

  lemma ConvergedLease(c: Cluster, x: Pair)
    requires Converged(c) && Partitioned(c) && LeasedSomewhere(LedgerOf(c), x)
    ensures var k := LedgerOf(c); OwnerHas(k, x) && forall j | j in k.pools :: x in k.leased[j]
  {
    var k := LedgerOf(c);
    var p :| p in k.pools && x in k.leased[p];
    assert Owned(c, x.ip);
    var o :| o in c.nodes && c.nodes[o].dhcp.pool.Contains(x.ip);
    assert k.leased[o] == k.leased[p];
  }

  /** Nothing is stored, offered or on its way. */
  ghost predicate Empty(c: Cluster) {
    && (forall p | p in c.nodes :: c.nodes[p].dhcp.leases == [] && c.nodes[p].dhcp.pending == [])
    && (forall e | e in c.pending :: !IsLease(e) && !IsTable(e))
  }

  lemma EmptyIsOrderly(c: Cluster)
    requires Sane(c) && Empty(c) && Disjoint(PoolsOf(c.nodes))
    ensures Orderly(c) && Spreads(LedgerOf(c))
  {
    EpochCanStart(c);
  }

  /** The new state has the tables of the old one, and new pools. */
  ghost predicate Repartitioned(c: Cluster, c': Cluster) {
    && Sane(c') && c'.nodes.Keys == c.nodes.Keys && Disjoint(PoolsOf(c'.nodes))
    && (forall p | p in c.nodes :: c'.nodes[p].dhcp.leases == c.nodes[p].dhcp.leases && c'.nodes[p].dhcp.pending == c.nodes[p].dhcp.pending)
    && (forall e | e in c'.pending :: !IsLease(e) && !IsTable(e))
    && (forall p, x | p in c.nodes && x in Pairs(c.nodes[p].dhcp.leases) :: Owned(c', x.ip))
    && (forall p, x | p in c.nodes && x in Pairs(c.nodes[p].dhcp.pending) :: c'.nodes[p].dhcp.pool.Contains(x.ip))
  }

  lemma SpreadingIsEpoch(cs: seq<Cluster>, ls: seq<Label>)
    requires IsSpreading(cs, ls) && Orderly(cs[0])
    ensures IsEpoch(cs, ls)
  {
    forall i | 0 <= i < |ls| ensures CarefulAt(cs, ls, i) {
      assert RetainsAt(cs, ls, i);
      RetainingIsCareful(cs[i], cs[i + 1]);
    }
  }

  /** Epochs follow one another. Once an epoch that forgets no lease has come to rest, its pools may be reassigned, as long
      as the leased addresses stay covered and open offers stay with their node. */
  lemma NextEpoch(cs: seq<Cluster>, ls: seq<Label>, c': Cluster)
    requires IsSpreading(cs, ls) && Orderly(cs[0])
    requires forall e | e in cs[|ls|].pending :: !IsLease(e)
    requires Repartitioned(cs[|ls|], c')
    ensures Orderly(c') && Spreads(LedgerOf(c'))
  {
    var c := cs[|ls|];
    SpreadingIsEpoch(cs, ls);
    NoDoubleAllocation(cs, ls, |ls|);
    forall p, q | p in c'.nodes && q in c'.nodes ensures Pairs(c'.nodes[p].dhcp.leases) == Pairs(c'.nodes[q].dhcp.leases) {
      TablesConverge(cs, ls, |ls|, p, q);
    }
    forall p | p in c'.nodes ensures StoresOnce(c'.nodes[p].dhcp) { UniqueStoresOnce(c, p); }
    EpochCanStart(c');
  }

  lemma UniqueStoresOnce(c: Cluster, p: Id)
    requires Unique(c) && p in c.nodes
    ensures StoresOnce(c.nodes[p].dhcp)
  {
    var k := LedgerOf(c);
    assert forall x | x in k.leased[p] :: LeasedSomewhere(k, x);
    assert forall x | x in k.offered[p] :: OfferedSomewhere(k, x);
  }
}
