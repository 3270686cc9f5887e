/** Leases across the cluster: which steps keep every address bound once, and when tables converge.
    The cluster follows the protocol of `LeaseLedger`, as long as no pool changes. */
module Leases {
  import opened Wrappers
  import opened Ipv4
  import opened ServerNode
  import opened Cluster
  import opened LeaseLedger
  import Dhcp
  import Allocator

  function PairOf(l: Dhcp.Lease): Pair {
    Pair(l.mac, l.ip)
  }

  function Pairs(ls: seq<Dhcp.Lease>): set<Pair> {
    set l | l in ls :: PairOf(l)
  }

  predicate IsLease(e: Event) {
    e.PeerMessage? && e.message.Lease?
  }

  predicate IsTable(e: Event) {
    e.PeerMessage? && e.message.LeaseTable?
  }

  function NoticeOf(e: Event): Notice
    requires IsLease(e)
  {
    Notice(e.sender, e.to, PairOf(e.message.lease))
  }

  function Notices(es: seq<Event>): set<Notice> {
    set e | e in es && IsLease(e) :: NoticeOf(e)
  }

  /** The entries of whole tables on their way. */
  function Copies(es: seq<Event>): set<Notice> {
    set e, x | e in es && IsTable(e) && x in Pairs(e.message.leases) :: Notice(e.sender, e.to, x)
  }

  /** What the nodes of a cluster know about leases. */
  function LedgerOf(c: Cluster): (k: Ledger)
    ensures SameNodes(k) && k.pools.Keys == c.nodes.Keys
  {
    Ledger(PoolsOf(c.nodes), LeasedBy(c.nodes), OfferedBy(c.nodes), Notices(c.pending), Copies(c.pending))
  }

  function PoolsOf(nodes: map<Id, Node>): map<Id, Ipv4Range> {
    map p | p in nodes :: nodes[p].dhcp.pool
  }

  function LeasedBy(nodes: map<Id, Node>): map<Id, set<Pair>> {
    map p | p in nodes :: Pairs(nodes[p].dhcp.leases)
  }

  function OfferedBy(nodes: map<Id, Node>): map<Id, set<Pair>> {
    map p | p in nodes :: Pairs(nodes[p].dhcp.pending)
  }

  /** Every node knows its id and has its search cursor in its pool. */
  ghost predicate Sane(c: Cluster) {
    forall p | p in c.nodes :: c.nodes[p].config.id == p && c.nodes[p].dhcp.CursorOk()
  }

  /** All nodes keep their pools. */
  ghost predicate PoolsStay(c: Cluster, c': Cluster) {
    c'.nodes.Keys == c.nodes.Keys && forall p | p in c.nodes :: c'.nodes[p].dhcp.pool == c.nodes[p].dhcp.pool
  }

  // ---------------------------------------------------------------- how one table changes

  ghost predicate TableLearns(s: Dhcp.State, x: Pair, s': Dhcp.State) {
    Pairs(s'.leases) == Pairs(s.leases) + {x} && Pairs(s'.pending) <= Pairs(s.pending)
  }

  /** Entries are pruned, those of the offers to `kept`, and an address of the pool that none of the
      remaining ones holds may be offered. */
  ghost predicate TableServes(s: Dhcp.State, kept: set<Pair>, offer: Option<Pair>, s': Dhcp.State) {
    && Pairs(s'.leases) <= Pairs(s.leases) && kept <= Pairs(s.pending)
    && Pairs(s'.pending) == kept + (if offer.Some? then {offer.value} else {})
    && (offer.Some? ==> IsFree(s.pool, Pairs(s'.leases) + kept, offer.value.ip))
  }

  ghost predicate SameTables(s: Dhcp.State, s': Dhcp.State) {
    s'.leases == s.leases && s'.pending == s.pending
  }

  lemma PairsOfUpdate(ls: seq<Dhcp.Lease>, i: nat, l: Dhcp.Lease)
    requires i < |ls| && PairOf(l) == PairOf(ls[i])
    ensures Pairs(ls[i := l]) == Pairs(ls)
  {
    var ls' := ls[i := l];
    forall x | x in Pairs(ls) ensures x in Pairs(ls') {
      var j :| 0 <= j < |ls| && PairOf(ls[j]) == x;
      assert ls'[j] in ls' && PairOf(ls'[j]) == x;
    }
    forall x | x in Pairs(ls') ensures x in Pairs(ls) {
      var j :| 0 <= j < |ls'| && PairOf(ls'[j]) == x;
      assert ls[j] in ls && PairOf(ls[j]) == x;
    }
  }

  lemma PairsOfAppend(ls: seq<Dhcp.Lease>, l: Dhcp.Lease)
    ensures Pairs(ls + [l]) == Pairs(ls) + {PairOf(l)}
  {
    assert l in ls + [l];
    assert forall x | x in ls :: x in ls + [l];
  }

  lemma AddLeaseLearns(s: Dhcp.State, l: Dhcp.Lease)
    ensures TableLearns(s, PairOf(l), s.AddLease(l))
  {
    var i := Dhcp.IndexByPair(s.leases, l.mac, l.ip);
    if i < |s.leases| {
      PairsOfUpdate(s.leases, i, s.leases[i].(expiry := l.expiry));
      assert s.leases[i] in s.leases && PairOf(s.leases[i]) == PairOf(l);
    } else {
      PairsOfAppend(s.leases, l);
    }
  }

  lemma CommitLearns(s: Dhcp.State, mac: Dhcp.MacAddr, ip: Address, now: Dhcp.Time)
    requires s.Commit(mac, ip, now).result.Success?
    ensures var c := s.Commit(mac, ip, now);
            && TableLearns(s, Pair(mac, ip), c.state) && PairOf(c.result.value) == Pair(mac, ip)
            && Pair(mac, ip) in Pairs(s.leases) + Pairs(s.pending)
  {
    var c := s.Commit(mac, ip, now);
    var p, i := Dhcp.IndexByPair(s.pending, mac, ip), Dhcp.IndexByPair(s.leases, mac, ip);
    if p < |s.pending| {
      assert s.pending[p] in s.pending && PairOf(s.pending[p]) == Pair(mac, ip);
      PairsOfAppend(s.leases, c.result.value);
      assert forall x | x in c.state.pending :: x in s.pending;
    } else {
      assert s.leases[i] in s.leases && PairOf(s.leases[i]) == Pair(mac, ip);
      PairsOfUpdate(s.leases, i, c.result.value);
    }
  }

  /** The pair that a request newly offers, if any. */
  function FreshOffer(s: Dhcp.State, mac: Dhcp.MacAddr, now: Dhcp.Time, stamp: Dhcp.Time): Option<Pair> {
    var d := s.Discover(mac, now, stamp);
    if Dhcp.IndexByMac(s.leases, mac) == |s.leases| && d.offer.Some? then Some(PairOf(d.offer.value)) else None
  }

  lemma PruneShrinks(ls: seq<Dhcp.Lease>, now: Dhcp.Time)
    ensures Pairs(Dhcp.Retain(ls, now)) <= Pairs(ls)
  {
  }

  lemma DiscoverServes(s: Dhcp.State, mac: Dhcp.MacAddr, now: Dhcp.Time, stamp: Dhcp.Time) returns (kept: set<Pair>)
    requires s.CursorOk()
    ensures TableServes(s, kept, FreshOffer(s, mac, now, stamp), s.Discover(mac, now, stamp).state)
  {
    var d := s.Discover(mac, now, stamp);
    PruneShrinks(s.leases, now);
    PruneShrinks(s.pending, now);
    if Dhcp.IndexByMac(s.leases, mac) < |s.leases| {
      return Pairs(s.pending);
    }
    var pruned := s.Prune(now);
    kept := Pairs(pruned.pending);
    if d.offer.Some? {
      var l := d.offer.value;
      Allocator.OfferIsInPool(s, mac, now, stamp);
      PairsOfAppend(pruned.pending, l);
      Dhcp.HeldInEither(pruned.leases, pruned.pending, l.ip);
    }
  }

  // ---------------------------------------------------------------- notices

  lemma NoticesConcat(a: seq<Event>, b: seq<Event>)
    ensures Notices(a + b) == Notices(a) + Notices(b)
    ensures Copies(a + b) == Copies(a) + Copies(b)
  {
    assert forall e :: e in a + b <==> e in a || e in b;
  }

  lemma NoticesWithout(es: seq<Event>, i: nat)
    requires i < |es|
    ensures Notices(Without(es, i)) <= Notices(es) && Copies(Without(es, i)) <= Copies(es)
    ensures !IsLease(es[i]) ==> Notices(Without(es, i)) == Notices(es)
    ensures IsLease(es[i]) ==> Notices(es) == Notices(Without(es, i)) + {NoticeOf(es[i])}
    ensures !IsTable(es[i]) ==> Copies(Without(es, i)) == Copies(es)
  {
    WithoutMembers(es, i);
    assert es[i] in es;
  }

  lemma NoNotices(es: seq<Event>)
    requires forall e | e in es :: !IsLease(e) && !IsTable(e)
    ensures Notices(es) == {} && Copies(es) == {}
  {
  }

  lemma NoticesBroadcast(me: Id, order: seq<Id>, m: Message)
    requires m.Lease?
    ensures Notices(Broadcast(me, order, m)) == set p | p in order :: Notice(me, p, PairOf(m.lease))
    ensures Copies(Broadcast(me, order, m)) == {}
  {
    BroadcastSent(me, order, m);
    var es := Broadcast(me, order, m);
    forall p | p in order ensures Notice(me, p, PairOf(m.lease)) in Notices(es) {
      assert NoticeOf(PeerMessage(p, me, m)) == Notice(me, p, PairOf(m.lease));
    }
  }

  // ---------------------------------------------------------------- one node's entries in the ledger

  /** The ledger describes node `n`, called `at`, and the pending events `es`. */
  ghost predicate Describes(k: Ledger, at: Id, n: Dhcp.State, es: seq<Event>) {
    && SameNodes(k) && at in k.pools && k.pools[at] == n.pool
    && k.leased[at] == Pairs(n.leases) && k.offered[at] == Pairs(n.pending)
    && k.sent == Notices(es) && k.copied == Copies(es)
  }

  /** The ledger after that node's allocator has become `n'` and the pending events `es'`. */
  function Updated(k: Ledger, at: Id, n': Dhcp.State, es': seq<Event>): Ledger {
    Ledger(k.pools, k.leased[at := Pairs(n'.leases)], k.offered[at := Pairs(n'.pending)], Notices(es'), Copies(es'))
  }

  lemma LedgerUpdate(c: Cluster, at: Id, n': Node, es': seq<Event>, c': Cluster)
    requires at in c.nodes && c' == Cluster(c.nodes[at := n'], es') && n'.dhcp.pool == c.nodes[at].dhcp.pool
    ensures Describes(LedgerOf(c), at, c.nodes[at].dhcp, c.pending)
    ensures LedgerOf(c') == Updated(LedgerOf(c), at, n'.dhcp, es')
  {
    NodesUpdate(c.nodes, at, n');
  }

  lemma NodesUpdate(nodes: map<Id, Node>, at: Id, n': Node)
    requires at in nodes && n'.dhcp.pool == nodes[at].dhcp.pool
    ensures PoolsOf(nodes[at := n']) == PoolsOf(nodes)
    ensures LeasedBy(nodes[at := n']) == LeasedBy(nodes)[at := Pairs(n'.dhcp.leases)]
    ensures OfferedBy(nodes[at := n']) == OfferedBy(nodes)[at := Pairs(n'.dhcp.pending)]
  {
  }

  lemma UpdatedOnlyAt(k: Ledger, at: Id, n: Dhcp.State, es: seq<Event>, n': Dhcp.State, es': seq<Event>)
    requires Describes(k, at, n, es)
    ensures var k' := Updated(k, at, n', es');
            && OnlyAt(k, at, k') && k'.leased[at] == Pairs(n'.leases) && k'.offered[at] == Pairs(n'.pending)
            && k'.sent == Notices(es') && k'.copied == Copies(es')
            && (SameTables(n, n') ==> k'.leased == k.leased && k'.offered == k.offered)
  {
    if SameTables(n, n') {
      assert k.leased[at := Pairs(n'.leases)] == k.leased;
      assert k.offered[at := Pairs(n'.pending)] == k.offered;
    }
  }

  lemma QuietChange(k: Ledger, at: Id, n: Dhcp.State, es: seq<Event>, n': Dhcp.State, rest: seq<Event>, out: seq<Event>, mesh: bool)
    requires Describes(k, at, n, es) && SameTables(n, n')
    requires Notices(rest) == Notices(es) && Copies(rest) <= Copies(es) && Notices(out) == {} && Copies(out) == {}
    ensures Changes(k, at, Quiet, Updated(k, at, n', rest + out), mesh)
  {
    NoticesConcat(rest, out);
    UpdatedOnlyAt(k, at, n, es, n', rest + out);
  }

  lemma ReceiveChange(k: Ledger, at: Id, n: Dhcp.State, es: seq<Event>, e: Event, rest: seq<Event>, mesh: bool)
    requires Describes(k, at, n, es) && e in es && IsLease(e) && e.to == at
    requires Notices(rest) <= Notices(es) <= Notices(rest) + {NoticeOf(e)} && Copies(rest) == Copies(es)
    ensures Changes(k, at, Receive(NoticeOf(e)), Updated(k, at, n.AddLease(e.message.lease), rest), mesh)
  {
    AddLeaseLearns(n, e.message.lease);
    UpdatedOnlyAt(k, at, n, es, n.AddLease(e.message.lease), rest);
  }

  lemma ConfirmChange(k: Ledger, at: Id, n: Dhcp.State, es: seq<Event>, mac: Dhcp.MacAddr, ip: Address, now: Dhcp.Time,
                      order: seq<Id>, m: Message, mesh: bool)
    requires Describes(k, at, n, es) && n.Commit(mac, ip, now).result.Success?
    requires m.Lease? && m.lease == n.Commit(mac, ip, now).result.value
    requires mesh ==> forall j | j in k.pools && j != at :: j in order
    ensures Changes(k, at, Confirm(Pair(mac, ip)), Updated(k, at, n.Commit(mac, ip, now).state, es + Broadcast(at, order, m)), mesh)
  {
    var n', es' := n.Commit(mac, ip, now).state, es + Broadcast(at, order, m);
    CommitLearns(n, mac, ip, now);
    NoticesConcat(es, Broadcast(at, order, m));
    NoticesBroadcast(at, order, m);
    UpdatedOnlyAt(k, at, n, es, n', es');
    assert forall j | j in order :: Notice(at, j, Pair(mac, ip)) in Notices(es');
  }

  lemma RequestChange(k: Ledger, at: Id, n: Dhcp.State, es: seq<Event>, mac: Dhcp.MacAddr, now: Dhcp.Time, stamp: Dhcp.Time, mesh: bool)
    returns (kept: set<Pair>)
    requires Describes(k, at, n, es) && n.CursorOk()
    ensures Changes(k, at, Request(kept, FreshOffer(n, mac, now, stamp)), Updated(k, at, n.Discover(mac, now, stamp).state, es), mesh)
  {
    kept := DiscoverServes(n, mac, now, stamp);
    UpdatedOnlyAt(k, at, n, es, n.Discover(mac, now, stamp).state, es);
  }

  lemma CopyChange(k: Ledger, at: Id, n: Dhcp.State, es: seq<Event>, n': Dhcp.State, out: seq<Event>, mesh: bool)
    requires Describes(k, at, n, es) && SameTables(n, n')
    requires Notices(out) == {} && forall m | m in Copies(out) :: m.pair in Pairs(n.leases)
    ensures Changes(k, at, Copy, Updated(k, at, n', es + out), mesh)
  {
    NoticesConcat(es, out);
    UpdatedOnlyAt(k, at, n, es, n', es + out);
  }

  lemma ReplaceChange(k: Ledger, at: Id, n: Dhcp.State, es: seq<Event>, e: Event, rest: seq<Event>, mesh: bool)
    requires Describes(k, at, n, es) && e in es && IsTable(e)
    requires Notices(rest) == Notices(es) && Copies(rest) <= Copies(es)
    ensures Changes(k, at, Replace(Pairs(e.message.leases)), Updated(k, at, n.(leases := e.message.leases), rest), mesh)
  {
    UpdatedOnlyAt(k, at, n, es, n.(leases := e.message.leases), rest);
    forall x | x in Pairs(e.message.leases) ensures Notice(e.sender, e.to, x) in Copies(es) {
    }
  }

  // ---------------------------------------------------------------- the cluster follows the ledger

  /** Events other than Lease and LeaseTable do not touch the tables, and send no lease. */
  lemma OtherEventsKeepTables(n: Node, e: Event, order: seq<Id>)
    requires !IsLease(e) && !IsTable(e)
    requires n.dhcp.CursorOk() && n.HandleEvent(e, order).React?
    ensures var r := n.HandleEvent(e, order);
            SameTables(n.dhcp, r.node.dhcp) && r.node.dhcp.CursorOk() && Notices(r.out) == {} && Copies(r.out) == {}
  {
    ElectionsSent(n.config.id, order);
    if n.BecomeCoordinator(order).React? { RoundKeepsTables(n, order); }
    if e.PeerMessage? { NoNotices(n.HandleEvent(e, order).out); } else { NoNotices([]); }
  }

  lemma RoundKeepsTables(n: Node, order: seq<Id>)
    requires n.BecomeCoordinator(order).React?
    ensures var r := n.BecomeCoordinator(order);
            SameTables(n.dhcp, r.node.dhcp) && r.node.dhcp.CursorOk() && Notices(r.out) == {} && Copies(r.out) == {}
  {
    RoundSent(n, order);
    NoNotices(n.BecomeCoordinator(order).out);
  }

  /** The pair that a step newly offers, if any. */
  function OfferOf(c: Cluster, l: Label): Option<Pair> {
    if l.LeaseRequest? && l.at in c.nodes && c.nodes[l.at].majority
    then FreshOffer(c.nodes[l.at].dhcp, l.mac, l.now, l.stamp)
    else None
  }

  /** Node `at` goes through the change `ch`, keeps its id, and has its cursor in its pool. */
  ghost predicate Follows(c: Cluster, at: Id, ch: Change, c': Cluster, mesh: bool) {
    && at in c.nodes && c'.nodes.Keys == c.nodes.Keys
    && (forall p | p in c.nodes && p != at :: c'.nodes[p] == c.nodes[p])
    && c'.nodes[at].config == c.nodes[at].config && c'.nodes[at].dhcp.CursorOk()
    && Changes(LedgerOf(c), at, ch, LedgerOf(c'), mesh)
  }

  lemma ChangesOne(c: Cluster, at: Id, n': Node, es': seq<Event>, c': Cluster)
    requires at in c.nodes && c' == Cluster(c.nodes[at := n'], es')
    ensures c'.nodes.Keys == c.nodes.Keys && c'.nodes[at] == n'
    ensures forall p | p in c.nodes && p != at :: c'.nodes[p] == c.nodes[p]
  {
  }

  lemma UnchangedFollows(c: Cluster, at: Id, c': Cluster, mesh: bool)
    requires Sane(c) && at in c.nodes && c' == c
    ensures Follows(c, at, Quiet, c', mesh)
  {
    var n := c.nodes[at];
    assert c.nodes[at := n] == c.nodes && c.pending + [] == c.pending;
    NoNotices([]);
    LedgerUpdate(c, at, n, c.pending, c');
    QuietChange(LedgerOf(c), at, n.dhcp, c.pending, n.dhcp, c.pending, [], mesh);
  }

  lemma LeaseFollows(c: Cluster, i: nat, rest: seq<Event>, c': Cluster, mesh: bool)
    requires Sane(c) && i < |c.pending| && IsLease(c.pending[i]) && c.pending[i].to in c.nodes
    requires rest == Without(c.pending, i) || rest == c.pending
    requires var e := c.pending[i]; var n := c.nodes[e.to];
             c' == Cluster(c.nodes[e.to := n.(dhcp := n.dhcp.AddLease(e.message.lease))], rest)
    ensures Follows(c, c.pending[i].to, Receive(NoticeOf(c.pending[i])), c', mesh)
  {
    var e := c.pending[i];
    var n := c.nodes[e.to];
    NoticesWithout(c.pending, i);
    LedgerUpdate(c, e.to, n.(dhcp := n.dhcp.AddLease(e.message.lease)), rest, c');
    ReceiveChange(LedgerOf(c), e.to, n.dhcp, c.pending, e, rest, mesh);
  }

  lemma TableFollows(c: Cluster, i: nat, c': Cluster, mesh: bool) returns (ch: Change)
    requires Sane(c) && i < |c.pending| && IsTable(c.pending[i]) && c.pending[i].to in c.nodes
    requires var e := c.pending[i];
             c' == Cluster(c.nodes[e.to := c.nodes[e.to].HandleLeaseTable(e.message.leases)], Without(c.pending, i))
    ensures Follows(c, c.pending[i].to, ch, c', mesh) && !ch.Request?
  {
    var e, rest := c.pending[i], Without(c.pending, i);
    var n, n' := c.nodes[e.to], c.nodes[e.to].HandleLeaseTable(e.message.leases);
    NoticesWithout(c.pending, i);
    LedgerUpdate(c, e.to, n', rest, c');
    if n' == n {
      ch := Quiet;
      assert rest + [] == rest;
      NoNotices([]);
      QuietChange(LedgerOf(c), e.to, n.dhcp, c.pending, n.dhcp, rest, [], mesh);
    } else {
      ch := Replace(Pairs(e.message.leases));
      ReplaceChange(LedgerOf(c), e.to, n.dhcp, c.pending, e, rest, mesh);
    }
  }

  lemma OtherEventFollows(c: Cluster, i: nat, r: Reaction, order: seq<Id>, c': Cluster, mesh: bool)
    requires Sane(c) && i < |c.pending| && Target(c.pending[i]) in c.nodes
    requires !IsLease(c.pending[i]) && !IsTable(c.pending[i])
    requires var at := Target(c.pending[i]);
             && r == c.nodes[at].HandleEvent(c.pending[i], order) && Leads(c, at, r, Without(c.pending, i), c')
             && r.node.dhcp.pool == c.nodes[at].dhcp.pool
    ensures Follows(c, Target(c.pending[i]), Quiet, c', mesh)
  {
    var at := Target(c.pending[i]);
    var rest := Without(c.pending, i);
    NoticesWithout(c.pending, i);
    EventKeepsConnections(c.nodes[at], c.pending[i], order);
    OtherEventsKeepTables(c.nodes[at], c.pending[i], order);
    LedgerUpdate(c, at, r.node, rest + r.out, c');
    QuietChange(LedgerOf(c), at, c.nodes[at].dhcp, c.pending, r.node.dhcp, rest, r.out, mesh);
  }

  lemma TriggerCopies(n: Node, order: seq<Id>, cause: Cause)
    requires CanCause(n, cause)
    ensures var r := Triggered(n, order, cause);
            r.React? && Notices(r.out) == {} && forall m | m in Copies(r.out) :: m.pair in Pairs(n.dhcp.leases)
  {
    TriggerSends(n, order, cause);
    ElectionsSent(n.config.id, order);
    NoNotices(n.StartElection(order).out);
    NoticesConcat(Hello(n, cause), n.StartElection(order).out);
  }

  lemma TriggerFollows(c: Cluster, at: Id, order: seq<Id>, cause: Cause, c': Cluster, mesh: bool)
    requires Sane(c) && Step(c, Trigger(at, order, cause), c')
    ensures Follows(c, at, Copy, c', mesh)
  {
    var n := c.nodes[at];
    var r := Triggered(n, order, cause);
    TriggerSends(n, order, cause);
    TriggerCopies(n, order, cause);
    LedgerUpdate(c, at, r.node, c.pending + r.out, c');
    CopyChange(LedgerOf(c), at, n.dhcp, c.pending, r.node.dhcp, r.out, mesh);
  }

  lemma RejoinFollows(c: Cluster, at: Id, peer: Id, c': Cluster, mesh: bool)
    requires Sane(c) && Step(c, Rejoin(at, peer), c')
    ensures Follows(c, at, Copy, c', mesh)
  {
    RejoinSends(c, at, peer, c');
    var n := c.nodes[at];
    assert c.nodes[at := n] == c.nodes;
    LedgerUpdate(c, at, n, c'.pending, c');
    CopyChange(LedgerOf(c), at, n.dhcp, c.pending, n.dhcp, [PeerMessage(peer, at, LeaseTable(n.dhcp.leases))], mesh);
  }

  lemma DiscoverKeepsPool(s: Dhcp.State, mac: Dhcp.MacAddr, now: Dhcp.Time, stamp: Dhcp.Time)
    requires s.CursorOk()
    ensures var s' := s.Discover(mac, now, stamp).state; s'.pool == s.pool && s'.CursorOk()
  {
    Allocator.StepKeepsCursor(s, Allocator.DiscoverOp(mac, now, stamp));
  }

  lemma DiscoverFollows(c: Cluster, at: Id, mac: Dhcp.MacAddr, now: Dhcp.Time, stamp: Dhcp.Time, c': Cluster, mesh: bool)
    returns (ch: Change)
    requires Sane(c) && at in c.nodes
    requires c' == Cluster(c.nodes[at := c.nodes[at].(dhcp := c.nodes[at].dhcp.Discover(mac, now, stamp).state)], c.pending)
    ensures Follows(c, at, ch, c', mesh) && ch.Request? && ch.offer == FreshOffer(c.nodes[at].dhcp, mac, now, stamp)
  {
    var n := c.nodes[at];
    DiscoverKeepsPool(n.dhcp, mac, now, stamp);
    LedgerUpdate(c, at, n.(dhcp := n.dhcp.Discover(mac, now, stamp).state), c.pending, c');
    var kept := RequestChange(LedgerOf(c), at, n.dhcp, c.pending, mac, now, stamp, mesh);
    ch := Request(kept, FreshOffer(n.dhcp, mac, now, stamp));
  }

  lemma RequestFollows(c: Cluster, at: Id, mac: Dhcp.MacAddr, now: Dhcp.Time, stamp: Dhcp.Time, c': Cluster, mesh: bool)
    returns (ch: Change)
    requires Sane(c) && at in c.nodes
    requires c' == Cluster(c.nodes[at := c.nodes[at].HandleLeaseRequest(mac, now, stamp).node], c.pending)
    ensures Follows(c, at, ch, c', mesh)
    ensures (if ch.Request? then ch.offer else None) == OfferOf(c, LeaseRequest(at, mac, now, stamp))
  {
    var n := c.nodes[at];
    if n.majority {
      ch := DiscoverFollows(c, at, mac, now, stamp, c', mesh);
    } else {
      ch := Quiet;
      assert c.nodes[at := n] == c.nodes;
      UnchangedFollows(c, at, c', mesh);
    }
  }

  lemma CommitKeepsPool(s: Dhcp.State, mac: Dhcp.MacAddr, ip: Address, now: Dhcp.Time)
    ensures var s' := s.Commit(mac, ip, now).state; s'.pool == s.pool && s'.next == s.next
  {
  }

  lemma CommitFollows(c: Cluster, at: Id, mac: Dhcp.MacAddr, ip: Address, now: Dhcp.Time, order: seq<Id>, m: Message, c': Cluster, mesh: bool)
    requires Sane(c) && at in c.nodes && IsOrder(order, c.nodes[at].peers)
    requires mesh ==> c.nodes[at].peers == c.nodes.Keys - {at}
    requires c.nodes[at].dhcp.Commit(mac, ip, now).result.Success?
    requires m.Lease? && m.lease == c.nodes[at].dhcp.Commit(mac, ip, now).result.value
    requires var n := c.nodes[at];
             c' == Cluster(c.nodes[at := n.(dhcp := n.dhcp.Commit(mac, ip, now).state)], c.pending + Broadcast(at, order, m))
    ensures Follows(c, at, Confirm(Pair(mac, ip)), c', mesh)
  {
    var n := c.nodes[at];
    var s', es' := n.dhcp.Commit(mac, ip, now).state, c.pending + Broadcast(at, order, m);
    CommitKeepsPool(n.dhcp, mac, ip, now);
    LedgerUpdate(c, at, n.(dhcp := s'), es', c');
    ConfirmChange(LedgerOf(c), at, n.dhcp, c.pending, mac, ip, now, order, m, mesh);
    ChangesOne(c, at, n.(dhcp := s'), es', c');
  }

  lemma ConfirmFollows(c: Cluster, at: Id, mac: Dhcp.MacAddr, ip: Address, now: Dhcp.Time, order: seq<Id>, c': Cluster, mesh: bool)
    returns (ch: Change)
    requires Sane(c) && at in c.nodes && IsOrder(order, c.nodes[at].peers)
    requires var r := c.nodes[at].HandleConfirmRequest(mac, ip, now, order); c' == Cluster(c.nodes[at := r.node], c.pending + r.out)
    requires mesh ==> c.nodes[at].peers == c.nodes.Keys - {at}
    ensures Follows(c, at, ch, c', mesh) && !ch.Request?
  {
    var n := c.nodes[at];
    var m := ConfirmSends(n, mac, ip, now, order);
    if n.majority && n.dhcp.Commit(mac, ip, now).result.Success? {
      CommitFollows(c, at, mac, ip, now, order, m, c', mesh);
      ch := Confirm(Pair(mac, ip));
    } else {
      assert c.pending + [] == c.pending;
      assert c' == Cluster(c.nodes[at := n], c.pending);
      UnchangedFollows(c, at, c', mesh);
      ch := Quiet;
    }
  }

  lemma ProcessFollows(c: Cluster, i: nat, order: seq<Id>, c': Cluster, mesh: bool) returns (at: Id, ch: Change)
    requires Sane(c) && Step(c, Process(i, order), c') && PoolsStay(c, c')
    ensures Follows(c, at, ch, c', mesh) && !ch.Request?
  {
    var e := c.pending[i];
    at := Target(e);
    var r := c.nodes[at].HandleEvent(e, order);
    assert c'.nodes[at] == r.node;
    var rest := Without(c.pending, i);
    assert rest + [] == rest;
    if IsLease(e) {
      LeaseFollows(c, i, rest, c', mesh);
      ch := Receive(NoticeOf(e));
    } else if IsTable(e) {
      ch := TableFollows(c, i, c', mesh);
    } else {
      OtherEventFollows(c, i, r, order, c', mesh);
      ch := Quiet;
    }
  }

  /** Every step that changes no pool is a change of the ledger at one node. */
  lemma StepFollows(c: Cluster, l: Label, c': Cluster, mesh: bool) returns (at: Id, ch: Change)
    requires Sane(c) && Step(c, l, c') && PoolsStay(c, c') && (mesh ==> FullMesh(c))
    ensures Follows(c, at, ch, c', mesh)
    ensures (if ch.Request? then ch.offer else None) == OfferOf(c, l)
    ensures l.LeaseRequest? ==> at == l.at
  {
    match l {
      case Process(i, order) =>
        at, ch := ProcessFollows(c, i, order, c', mesh);
      case Repeat(i) =>
        at, ch := c.pending[i].to, Receive(NoticeOf(c.pending[i]));
        assert c.pending + [] == c.pending;
        LeaseFollows(c, i, c.pending, c', mesh);
      case Trigger(p, order, cause) =>
        at, ch := p, Copy;
        TriggerFollows(c, at, order, cause, c', mesh);
      case Rejoin(p, peer) =>
        at, ch := p, Copy;
        RejoinFollows(c, p, peer, c', mesh);
      case LeaseRequest(p, mac, now, stamp) =>
        at := p;
        assert c'.pending == c.pending;
        ch := RequestFollows(c, at, mac, now, stamp, c', mesh);
      case ConfirmRequest(p, mac, ip, now, order) =>
        at := p;
        ch := ConfirmFollows(c, at, mac, ip, now, order, c', mesh);
    }
  }

  lemma FollowingIsSane(c: Cluster, at: Id, ch: Change, c': Cluster, mesh: bool)
    requires Sane(c) && Follows(c, at, ch, c', mesh)
    ensures Sane(c')
  {
  }
}
