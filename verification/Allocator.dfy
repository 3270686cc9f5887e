/** What the lease allocator of one node guarantees over sequences of calls. */
module Allocator {
  import opened Wrappers
  import opened Ipv4
  import opened Dhcp

  datatype Op =
    | DiscoverOp(mac: MacAddr, now: Time, stamp: Time)
    | CommitOp(mac: MacAddr, ip: Address, now: Time)
    | SetPoolOp(pool: Ipv4Range)
    | AddLeaseOp(lease: Lease)

  function Apply(s: State, op: Op): State {
    match op
    case DiscoverOp(mac, now, stamp) => s.Discover(mac, now, stamp).state
    case CommitOp(mac, ip, now) => s.Commit(mac, ip, now).state
    case SetPoolOp(pool) => s.SetPool(pool)
    case AddLeaseOp(lease) => s.AddLease(lease)
  }

  function Run(s: State, ops: seq<Op>): State {
    if ops == [] then s else Apply(Run(s, ops[..|ops| - 1]), ops[|ops| - 1])
  }

  // ---------------------------------------------------------------- cursor

  lemma OfferIsInPool(s: State, mac: MacAddr, now: Time, stamp: Time)
    requires s.CursorOk() && IndexByMac(s.leases, mac) == |s.leases|
    requires s.Discover(mac, now, stamp).offer.Some?
    ensures s.pool.Contains(s.Discover(mac, now, stamp).offer.value.ip)
  {
    RotationIsExact(s.pool, s.next);
  }

  lemma StepKeepsCursor(s: State, op: Op)
    requires s.CursorOk()
    ensures Apply(s, op).CursorOk()
  {
    if op.DiscoverOp? && IndexByMac(s.leases, op.mac) == |s.leases| {
      if s.Discover(op.mac, op.now, op.stamp).offer.Some? { OfferIsInPool(s, op.mac, op.now, op.stamp); }
    }
  }

  /** The cursor never leaves the pool, whatever is called. */
  lemma {:induction false} CursorStaysInPool(s: State, ops: seq<Op>)
    requires s.CursorOk()
    ensures Run(s, ops).CursorOk()
  {
    if ops != [] {
      CursorStaysInPool(s, ops[..|ops| - 1]);
      StepKeepsCursor(Run(s, ops[..|ops| - 1]), ops[|ops| - 1]);
    }
  }

  // ---------------------------------------------------------------- no address twice

  ghost predicate DistinctAddresses(es: seq<Lease>) {
    forall i, j | 0 <= i < j < |es| :: es[i].ip != es[j].ip
  }

  ghost predicate Apart(a: seq<Lease>, b: seq<Lease>) {
    forall x, y | x in a && y in b :: x.ip != y.ip
  }

  lemma DistinctConcat(a: seq<Lease>, b: seq<Lease>)
    ensures DistinctAddresses(a + b) <==> DistinctAddresses(a) && DistinctAddresses(b) && Apart(a, b)
  {
    var c := a + b;
    if DistinctAddresses(c) {
      assert forall i | 0 <= i < |a| :: c[i] == a[i];
      assert forall j | 0 <= j < |b| :: c[|a| + j] == b[j];
      forall x, y | x in a && y in b ensures x.ip != y.ip {
        var i :| 0 <= i < |a| && a[i] == x;
        var j :| 0 <= j < |b| && b[j] == y;
        assert c[i].ip != c[|a| + j].ip;
      }
    }
    if DistinctAddresses(a) && DistinctAddresses(b) && Apart(a, b) {
      forall i, j | 0 <= i < j < |c| ensures c[i].ip != c[j].ip {
        if i < |a| <= j { assert a[i] in a && b[j - |a|] in b; }
      }
    }
  }

  lemma {:induction false} RetainKeepsDistinct(ls: seq<Lease>, now: Time)
    requires DistinctAddresses(ls)
    ensures DistinctAddresses(Retain(ls, now))
  {
    if ls != [] {
      var front, last := ls[..|ls| - 1], ls[|ls| - 1];
      RetainKeepsDistinct(front, now);
      assert Apart(front, [last]);
      DistinctConcat(Retain(front, now), [last]);
    }
  }

  lemma PruneKeepsDistinct(s: State, now: Time)
    requires DistinctAddresses(s.Entries())
    ensures DistinctAddresses(s.Prune(now).Entries())
  {
    DistinctConcat(s.leases, s.pending);
    RetainKeepsDistinct(s.leases, now);
    RetainKeepsDistinct(s.pending, now);
    DistinctConcat(s.Prune(now).leases, s.Prune(now).pending);
  }

  lemma DiscoverKeepsDistinct(s: State, mac: MacAddr, now: Time, stamp: Time)
    requires DistinctAddresses(s.Entries())
    ensures DistinctAddresses(s.Discover(mac, now, stamp).state.Entries())
  {
    var p, d := s.Prune(now), s.Discover(mac, now, stamp);
    PruneKeepsDistinct(s, now);
    if d.state != s && d.offer.Some? {
      assert d.state.Entries() == p.Entries() + [d.offer.value];
      DistinctConcat(p.Entries(), [d.offer.value]);
    }
  }

  lemma CommitKeepsDistinct(s: State, mac: MacAddr, ip: Address, now: Time)
    requires DistinctAddresses(s.Entries())
    ensures DistinctAddresses(s.Commit(mac, ip, now).state.Entries())
  {
    var p := IndexByPair(s.pending, mac, ip);
    if p < |s.pending| {
      MoveKeepsDistinct(s.leases, s.pending, p, s.pending[p].(expiry := now + s.leaseTime));
    } else {
      SameAddresses(s.Entries(), s.Commit(mac, ip, now).state.Entries());
    }
  }

  lemma MoveKeepsDistinct(leases: seq<Lease>, pending: seq<Lease>, p: nat, l: Lease)
    requires DistinctAddresses(leases + pending) && p < |pending| && l.ip == pending[p].ip
    ensures DistinctAddresses(leases + [l] + (pending[..p] + pending[p + 1..]))
  {
    var left, right := pending[..p], pending[p + 1..];
    DistinctConcat(leases, pending);
    assert pending[p] in pending;
    ReplacedAt(pending, p);
    DistinctConcat(leases, [l]);
    DistinctConcat(left, right);
    DistinctConcat(leases + [l], left + right);
  }

  lemma SameAddresses(a: seq<Lease>, b: seq<Lease>)
    requires |a| == |b| && forall i | 0 <= i < |a| :: a[i].ip == b[i].ip
    ensures DistinctAddresses(a) <==> DistinctAddresses(b)
  {
  }

  /** Recording a peer's lease keeps addresses distinct if and only if the very pair is stored
      already or nothing holds its address. */
  lemma AddLeaseKeepsDistinctIff(s: State, lease: Lease)
    requires DistinctAddresses(s.Entries())
    ensures DistinctAddresses(s.AddLease(lease).Entries()) <==>
            HasPair(s.leases, lease.mac, lease.ip) || !Held(s.Entries(), lease.ip)
  {
    if !HasPair(s.leases, lease.mac, lease.ip) {
      DistinctConcat(s.leases, s.pending);
      DistinctConcat(s.leases, [lease]);
      DistinctConcat(s.leases + [lease], s.pending);
      HeldInEither(s.leases, s.pending, lease.ip);
      assert lease in s.leases + [lease];
    } else {
      SameAddresses(s.Entries(), s.AddLease(lease).Entries());
    }
  }

  /** Over every sequence of discover, commit and set-pool calls, at arbitrary clock readings, no
      two stored entries share an address. */
  lemma {:induction false} NoAddressTwice(s: State, ops: seq<Op>)
    requires DistinctAddresses(s.Entries())
    requires forall op | op in ops :: !op.AddLeaseOp?
    ensures DistinctAddresses(Run(s, ops).Entries())
  {
    if ops != [] {
      var front, op := ops[..|ops| - 1], ops[|ops| - 1];
      assert op in ops;
      NoAddressTwice(s, front);
      match op
      case DiscoverOp(mac, now, stamp) => DiscoverKeepsDistinct(Run(s, front), mac, now, stamp);
      case CommitOp(mac, ip, now) => CommitKeepsDistinct(Run(s, front), mac, ip, now);
      case SetPoolOp(pool) => assert Run(s, ops).Entries() == Run(s, front).Entries();
    }
  }

  // ---------------------------------------------------------------- refinement

  datatype Binding = Binding(mac: MacAddr, expiry: Time, committed: bool)

  /** The simple allocator: at most one binding an address. */
  type Table = map<Address, Binding>

  ghost predicate Represents(s: State, t: Table) {
    && (forall ip: Address :: ip in t <==> Held(s.Entries(), ip))
    && (forall l | l in s.leases :: l.ip in t && t[l.ip] == Binding(l.mac, l.expiry, true))
    && (forall l | l in s.pending :: l.ip in t && t[l.ip] == Binding(l.mac, l.expiry, false))
  }

  /** Bindings may be dropped once their time has passed. */
  ghost predicate Drops(t: Table, now: Time, t': Table) {
    && (forall ip | ip in t' :: ip in t && t'[ip] == t[ip])
    && (forall ip | ip in t && ip !in t' :: t[ip].expiry <= now)
  }

  /** What the simple allocator may do on a request: it repeats a confirmed binding of the MAC, or
      it offers any pool address that no unexpired binding holds. It refuses only if there is none. */
  ghost predicate MayDiscover(t: Table, pool: Ipv4Range, leaseTime: nat, mac: MacAddr, now: Time, stamp: Time,
                              offer: Option<Lease>, t': Table)
  {
    match offer
    case None => Drops(t, now, t') && forall a: Address | pool.Contains(a) :: a in t && t[a].expiry > now
    case Some(l) =>
      || (t' == t && l.ip in t && l.mac == mac && t[l.ip] == Binding(mac, l.expiry, true))
      || (&& l.mac == mac && l.expiry == stamp + leaseTime && pool.Contains(l.ip)
          && l.ip in t' && t'[l.ip] == Binding(mac, l.expiry, false)
          && (l.ip in t ==> t[l.ip].expiry <= now)
          && Drops(t, now, t' - {l.ip}))
  }

  ghost predicate MayCommit(t: Table, leaseTime: nat, mac: MacAddr, ip: Address, now: Time,
                            result: Result<Lease, CommitError>, t': Table)
  {
    if ip in t && t[ip].mac == mac then
      && t' == t[ip := Binding(mac, now + leaseTime, true)]
      && result == Success(Lease(mac, ip, now + leaseTime))
    else
      t' == t && result == Failure(LeaseNotFound(mac, ip))
  }

  lemma PruneRefines(s: State, t: Table, now: Time) returns (t': Table)
    requires Represents(s, t) && DistinctAddresses(s.Entries())
    ensures Represents(s.Prune(now), t') && Drops(t, now, t')
    ensures forall ip | ip in t && t[ip].expiry > now :: ip in t'
  {
    var p := s.Prune(now);
    t' := map ip | ip in t && t[ip].expiry > now :: t[ip];
    forall ip: Address ensures ip in t' <==> Held(p.Entries(), ip) {
      HeldInEither(p.leases, p.pending, ip);
      HeldInEither(s.leases, s.pending, ip);
    }
  }

  lemma DiscoverRefines(s: State, t: Table, mac: MacAddr, now: Time, stamp: Time) returns (t': Table)
    requires s.CursorOk() && Represents(s, t) && DistinctAddresses(s.Entries())
    ensures Represents(s.Discover(mac, now, stamp).state, t')
    ensures MayDiscover(t, s.pool, s.leaseTime, mac, now, stamp, s.Discover(mac, now, stamp).offer, t')
  {
    var d := s.Discover(mac, now, stamp);
    if IndexByMac(s.leases, mac) < |s.leases| {
      return t;
    }
    var p := s.Prune(now);
    t' := PruneRefines(s, t, now);
    if d.offer.Some? {
      OfferIsInPool(s, mac, now, stamp);
      t' := AppendRefines(p, t', d.offer.value, d.state);
    } else {
      NoOfferIff(s, mac, now, stamp);
      forall a: Address | s.pool.Contains(a) ensures a in t && t[a].expiry > now {
        var l :| l in s.Entries() && l.ip == a && l.expiry > now;
        assert l in s.leases || l in s.pending;
      }
    }
  }

  lemma AppendRefines(p: State, t: Table, l: Lease, s': State) returns (t': Table)
    requires Represents(p, t) && !Held(p.Entries(), l.ip)
    requires s'.leases == p.leases && s'.pending == p.pending + [l]
    ensures Represents(s', t') && t' == t[l.ip := Binding(l.mac, l.expiry, false)] && t' - {l.ip} == t
  {
    t' := t[l.ip := Binding(l.mac, l.expiry, false)];
    assert l.ip !in t;
    assert s'.Entries() == p.Entries() + [l];
    forall ip: Address ensures ip in t' <==> Held(s'.Entries(), ip) {
      HeldInEither(p.Entries(), [l], ip);
      assert l in [l];
    }
    assert forall x | x in p.leases || x in p.pending :: x in p.Entries();
  }

  /** A commit replaces whatever was stored for the address by the confirmed lease. */
  lemma CommitReplaces(s: State, mac: MacAddr, ip: Address, now: Time)
    requires DistinctAddresses(s.Entries()) && s.Commit(mac, ip, now).result.Success?
    ensures var c := s.Commit(mac, ip, now); var l := c.result.value;
            && (forall x :: x in c.state.leases <==> x == l || (x in s.leases && x.ip != ip))
            && (forall x :: x in c.state.pending <==> x in s.pending && x.ip != ip)
  {
    var c := s.Commit(mac, ip, now);
    var l := c.result.value;
    var p, i := IndexByPair(s.pending, mac, ip), IndexByPair(s.leases, mac, ip);
    DistinctConcat(s.leases, s.pending);
    if p < |s.pending| {
      assert s.pending[p] in s.pending;
      ReplacedAt(s.pending, p);
      assert c.state.leases == s.leases + [l];
    } else {
      assert s.leases[i] in s.leases;
      ReplacedAt(s.leases, i);
      var without := s.leases[..i] + s.leases[i + 1..];
      assert forall x :: x in c.state.leases <==> x == l || x in without by {
        assert c.state.leases == s.leases[..i] + [l] + s.leases[i + 1..];
      }
    }
  }

  lemma ReplacedAt(ls: seq<Lease>, i: nat)
    requires i < |ls| && DistinctAddresses(ls)
    ensures forall x :: x in ls[..i] + ls[i + 1..] <==> x in ls && x.ip != ls[i].ip
  {
    var without := ls[..i] + ls[i + 1..];
    forall x | x in ls && x.ip != ls[i].ip ensures x in without {
      var j :| 0 <= j < |ls| && ls[j] == x;
      assert without[if j < i then j else j - 1] == x;
    }
    forall x | x in without ensures x in ls && x.ip != ls[i].ip {
      var j :| 0 <= j < |without| && without[j] == x;
      assert ls[if j < i then j else j + 1] == x;
    }
  }

  lemma CommitRefines(s: State, t: Table, mac: MacAddr, ip: Address, now: Time) returns (t': Table)
    requires Represents(s, t) && DistinctAddresses(s.Entries())
    ensures Represents(s.Commit(mac, ip, now).state, t')
    ensures MayCommit(t, s.leaseTime, mac, ip, now, s.Commit(mac, ip, now).result, t')
  {
    t' := if ip in t && t[ip].mac == mac then t[ip := Binding(mac, now + s.leaseTime, true)] else t;
    CommitReplies(s, t, mac, ip, now, t');
    CommitRepresents(s, t, mac, ip, now, t');
  }

  lemma CommitReplies(s: State, t: Table, mac: MacAddr, ip: Address, now: Time, t': Table)
    requires Represents(s, t)
    requires t' == if ip in t && t[ip].mac == mac then t[ip := Binding(mac, now + s.leaseTime, true)] else t
    ensures MayCommit(t, s.leaseTime, mac, ip, now, s.Commit(mac, ip, now).result, t')
  {
    CommitSucceedsIff(s, mac, ip, now);
    BoundToIff(s, t, mac, ip);
  }

  lemma CommitRepresents(s: State, t: Table, mac: MacAddr, ip: Address, now: Time, t': Table)
    requires Represents(s, t) && DistinctAddresses(s.Entries())
    requires t' == if ip in t && t[ip].mac == mac then t[ip := Binding(mac, now + s.leaseTime, true)] else t
    ensures Represents(s.Commit(mac, ip, now).state, t')
  {
    CommitSucceedsIff(s, mac, ip, now);
    BoundToIff(s, t, mac, ip);
    if ip in t && t[ip].mac == mac {
      CommitReplaces(s, mac, ip, now);
      var u := ReplaceRefines(s, t, Lease(mac, ip, now + s.leaseTime), s.Commit(mac, ip, now).state);
    }
  }

  /** A commit succeeds if and only if the pair is pending or leased. */
  lemma CommitSucceedsIff(s: State, mac: MacAddr, ip: Address, now: Time)
    ensures var c := s.Commit(mac, ip, now);
            if HasPair(s.pending, mac, ip) || HasPair(s.leases, mac, ip)
            then c.result == Success(Lease(mac, ip, now + s.leaseTime))
            else c.result == Failure(LeaseNotFound(mac, ip)) && c.state == s
  {
  }

  lemma BoundToIff(s: State, t: Table, mac: MacAddr, ip: Address)
    requires Represents(s, t)
    ensures ip in t && t[ip].mac == mac <==> HasPair(s.pending, mac, ip) || HasPair(s.leases, mac, ip)
  {
    HeldInEither(s.leases, s.pending, ip);
  }

  lemma ReplaceRefines(s: State, t: Table, l: Lease, s': State) returns (t': Table)
    requires Represents(s, t)
    requires forall x :: x in s'.leases <==> x == l || (x in s.leases && x.ip != l.ip)
    requires forall x :: x in s'.pending <==> x in s.pending && x.ip != l.ip
    ensures Represents(s', t') && t' == t[l.ip := Binding(l.mac, l.expiry, true)]
  {
    t' := t[l.ip := Binding(l.mac, l.expiry, true)];
    forall ip: Address ensures ip in t' <==> Held(s'.Entries(), ip) {
      HeldInEither(s.leases, s.pending, ip);
      HeldInEither(s'.leases, s'.pending, ip);
    }
  }

  ghost predicate AbstractStep(s: State, op: Op, t: Table, t': Table)
    requires !op.AddLeaseOp?
  {
    match op
    case DiscoverOp(mac, now, stamp) =>
      MayDiscover(t, s.pool, s.leaseTime, mac, now, stamp, s.Discover(mac, now, stamp).offer, t')
    case CommitOp(mac, ip, now) =>
      MayCommit(t, s.leaseTime, mac, ip, now, s.Commit(mac, ip, now).result, t')
    case SetPoolOp(_) => t' == t
  }

  lemma StepRefines(s: State, op: Op, t: Table) returns (t': Table)
    requires !op.AddLeaseOp? && s.CursorOk() && DistinctAddresses(s.Entries()) && Represents(s, t)
    ensures Represents(Apply(s, op), t') && AbstractStep(s, op, t, t')
  {
    match op {
      case DiscoverOp(mac, now, stamp) => t' := DiscoverRefines(s, t, mac, now, stamp);
      case CommitOp(mac, ip, now) => t' := CommitRefines(s, t, mac, ip, now);
      case SetPoolOp(_) => t' := t;
    }
  }

  ghost predicate AbstractAt(s: State, ops: seq<Op>, ts: seq<Table>, i: nat)
    requires i < |ops| < |ts|
  {
    !ops[i].AddLeaseOp? && AbstractStep(Run(s, ops[..i]), ops[i], ts[i], ts[i + 1])
  }

  /** A run `ts` of the simple allocator, starting with no bindings, that gives the replies of `ops`. */
  ghost predicate IsAbstractRun(s: State, ops: seq<Op>, ts: seq<Table>) {
    |ts| == |ops| + 1 && ts[0] == map[] && forall i | 0 <= i < |ops| :: AbstractAt(s, ops, ts, i)
  }

  lemma ExtendAbstractRun(s: State, ops: seq<Op>, ts: seq<Table>, op: Op, t: Table)
    requires IsAbstractRun(s, ops, ts) && !op.AddLeaseOp? && AbstractStep(Run(s, ops), op, ts[|ops|], t)
    ensures IsAbstractRun(s, ops + [op], ts + [t])
  {
    var ops', ts' := ops + [op], ts + [t];
    forall i | 0 <= i < |ops'| ensures AbstractAt(s, ops', ts', i) {
      assert ops'[..i] == ops[..i];
      if i < |ops| { assert AbstractAt(s, ops, ts, i); } else { assert ops[..i] == ops; }
    }
  }

  /** Refinement over whole runs: for every sequence of calls on a fresh service there is a run of
      the simple allocator which gives the same replies and represents the same bindings. */
  lemma {:induction false} RunRefines(pool: Ipv4Range, leaseTime: nat, ops: seq<Op>) returns (ts: seq<Table>)
    requires forall op | op in ops :: !op.AddLeaseOp?
    ensures IsAbstractRun(State.New(pool, leaseTime, []), ops, ts)
    ensures Represents(Run(State.New(pool, leaseTime, []), ops), ts[|ops|])
  {
    var s0 := State.New(pool, leaseTime, []);
    if ops == [] {
      return [map[]];
    }
    var front, op := ops[..|ops| - 1], ops[|ops| - 1];
    assert op in ops && ops == front + [op];
    ts := RunRefines(pool, leaseTime, front);
    NoAddressTwice(s0, front);
    CursorStaysInPool(s0, front);
    var t := StepRefines(Run(s0, front), op, ts[|front|]);
    ExtendAbstractRun(s0, front, ts, op, t);
    ts := ts + [t];
  }

  // ---------------------------------------------------------------- completeness

  /** Nothing is offered if and only if the MAC has no stored lease and an unexpired entry holds
      every address of the pool. */
  lemma NoOfferIff(s: State, mac: MacAddr, now: Time, stamp: Time)
    requires s.CursorOk()
    ensures s.Discover(mac, now, stamp).offer.None? <==>
            && (forall l | l in s.leases :: l.mac != mac)
            && (forall a: Address | s.pool.Contains(a) :: exists l | l in s.Entries() :: l.ip == a && l.expiry > now)
  {
    var candidates, held := IterStartingAt(s.pool, s.next), s.Prune(now).Entries();
    RotationIsExact(s.pool, s.next);
    forall a: Address ensures Held(held, a) <==> exists l | l in s.Entries() :: l.ip == a && l.expiry > now {
      HeldInEither(Retain(s.leases, now), Retain(s.pending, now), a);
    }
    if s.Discover(mac, now, stamp).offer.None? {
      forall a: Address | s.pool.Contains(a) ensures Held(held, a) {
        var i :| 0 <= i < |candidates| && candidates[i] == a;
      }
    } else if IndexByMac(s.leases, mac) == |s.leases| {
      var k := FirstFree(candidates, held);
      assert s.pool.Contains(candidates[k]);
    }
  }

  /** How far behind the cursor an address comes in the cyclic search order. */
  function CyclicDistance(s: State, a: Address): int {
    if a >= s.next then a - s.next else (s.pool.end - s.next) + (a - s.pool.start)
  }

  /** A fresh offer is the first free pool address in cyclic order from the cursor, and the cursor
      moves just behind it. */
  lemma OfferIsFirstFree(s: State, mac: MacAddr, now: Time, stamp: Time)
    requires s.CursorOk() && IndexByMac(s.leases, mac) == |s.leases|
    requires s.Discover(mac, now, stamp).offer.Some?
    ensures var d := s.Discover(mac, now, stamp);
            && !Held(s.Prune(now).Entries(), d.offer.value.ip)
            && d.state.next == d.offer.value.ip + 1
            && forall a: Address | s.pool.Contains(a) && CyclicDistance(s, a) < CyclicDistance(s, d.offer.value.ip) ::
                 Held(s.Prune(now).Entries(), a)
  {
    var candidates, held := IterStartingAt(s.pool, s.next), s.Prune(now).Entries();
    var k := FirstFree(candidates, held);
    OfferIsInPool(s, mac, now, stamp);
    assert CyclicDistance(s, candidates[k]) == k;
    forall a: Address | s.pool.Contains(a) && CyclicDistance(s, a) < k ensures Held(held, a) {
      assert candidates[CyclicDistance(s, a)] == a;
    }
  }

  /** The reply to a discover carries an expired lease if and only if the first lease stored for
      the MAC has expired: stored leases are returned before anything is pruned. */
  lemma ExpiredReplyIff(s: State, mac: MacAddr, now: Time, stamp: Time)
    requires s.leaseTime > 0 && stamp >= now
    ensures var d := s.Discover(mac, now, stamp); var i := IndexByMac(s.leases, mac);
            d.offer.Some? && d.offer.value.expiry <= now <==> i < |s.leases| && s.leases[i].expiry <= now
  {
  }

  // ---------------------------------------------------------------- several entries for a MAC

  function EntriesOf(es: seq<Lease>, mac: MacAddr): nat {
    if es == [] then 0 else EntriesOf(es[..|es| - 1], mac) + if es[|es| - 1].mac == mac then 1 else 0
  }

  lemma {:induction false} EntriesConcat(a: seq<Lease>, b: seq<Lease>, mac: MacAddr)
    ensures EntriesOf(a + b, mac) == EntriesOf(a, mac) + EntriesOf(b, mac)
  {
    if b == [] {
      assert a + b == a;
    } else {
      EntriesConcat(a, b[..|b| - 1], mac);
      assert (a + b)[..|a + b| - 1] == a + b[..|b| - 1];
    }
  }

  lemma {:induction false} SomeEntryOf(es: seq<Lease>, mac: MacAddr)
    ensures EntriesOf(es, mac) > 0 <==> exists l | l in es :: l.mac == mac
  {
    if es != [] {
      var front := es[..|es| - 1];
      SomeEntryOf(front, mac);
      assert forall l :: l in es <==> l in front || l == es[|es| - 1];
    }
  }

  lemma {:induction false} RetainDropsEntries(ls: seq<Lease>, now: Time, mac: MacAddr)
    ensures EntriesOf(Retain(ls, now), mac) <= EntriesOf(ls, mac)
  {
    if ls != [] {
      RetainDropsEntries(ls[..|ls| - 1], now, mac);
      EntriesConcat(Retain(ls[..|ls| - 1], now), [ls[|ls| - 1]], mac);
      assert [ls[|ls| - 1]][..0] == [];
    }
  }

  /** A request gives a MAC that has one entry at most a second one if and only if it has an
      unexpired offer, which has not been confirmed, and some address of the pool is free: offers
      are not looked at when the MAC is looked up. */
  lemma SecondEntryIff(s: State, mac: MacAddr, now: Time, stamp: Time)
    requires s.CursorOk() && EntriesOf(s.Entries(), mac) <= 1
    ensures EntriesOf(s.Discover(mac, now, stamp).state.Entries(), mac) > 1 <==>
            && (exists l | l in s.pending :: l.mac == mac && l.expiry > now)
            && (exists a: Address | s.pool.Contains(a) :: !Held(s.Prune(now).Entries(), a))
  {
    var d, pruned := s.Discover(mac, now, stamp), s.Prune(now);
    EntriesConcat(s.leases, s.pending, mac);
    SomeEntryOf(s.leases, mac);
    SomeEntryOf(s.pending, mac);
    if Uncommitted(s, mac) {
      NothingLeased(s, mac);
      PrunedEntries(s, mac, now);
      NoOfferIffHeld(s, mac, now, stamp);
      if d.offer.Some? { OfferAddsEntry(s, mac, now, stamp); }
    }
  }

  lemma NothingLeased(s: State, mac: MacAddr)
    requires Uncommitted(s, mac)
    ensures EntriesOf(s.leases, mac) == 0
  {
    SomeEntryOf(s.leases, mac);
  }

  lemma PrunedEntries(s: State, mac: MacAddr, now: Time)
    requires Uncommitted(s, mac)
    ensures EntriesOf(s.Prune(now).Entries(), mac) <= EntriesOf(s.Entries(), mac)
    ensures EntriesOf(s.Prune(now).Entries(), mac) > 0 <==> exists l | l in s.pending :: l.mac == mac && l.expiry > now
  {
    var pruned := s.Prune(now);
    EntriesConcat(s.leases, s.pending, mac);
    EntriesConcat(pruned.leases, pruned.pending, mac);
    RetainDropsEntries(s.leases, now, mac);
    RetainDropsEntries(s.pending, now, mac);
    NothingLeased(s, mac);
    SomeEntryOf(pruned.pending, mac);
  }

  lemma NoOfferIffHeld(s: State, mac: MacAddr, now: Time, stamp: Time)
    requires s.CursorOk() && Uncommitted(s, mac)
    ensures s.Discover(mac, now, stamp).offer.Some? <==>
            exists a: Address | s.pool.Contains(a) :: !Held(s.Prune(now).Entries(), a)
    ensures s.Discover(mac, now, stamp).offer.None? ==> s.Discover(mac, now, stamp).state == s.Prune(now)
  {
    var candidates := IterStartingAt(s.pool, s.next);
    RotationIsExact(s.pool, s.next);
    var k := FirstFree(candidates, s.Prune(now).Entries());
    if a: Address :| s.pool.Contains(a) && !Held(s.Prune(now).Entries(), a) {
      assert a in candidates;
    }
  }

  lemma OfferAddsEntry(s: State, mac: MacAddr, now: Time, stamp: Time)
    requires Uncommitted(s, mac) && s.Discover(mac, now, stamp).offer.Some?
    ensures EntriesOf(s.Discover(mac, now, stamp).state.Entries(), mac) == EntriesOf(s.Prune(now).Entries(), mac) + 1
  {
    var d, pruned := s.Discover(mac, now, stamp), s.Prune(now);
    var l := d.offer.value;
    assert d.state.Entries() == pruned.Entries() + [l];
    EntriesConcat(pruned.Entries(), [l], mac);
    assert [l][..0] == [];
  }

  /** A commit makes a MAC with a confirmed lease have one more if and only if the pair was only
      offered. So two offers of the same MAC can both be confirmed. */
  lemma SecondLeaseIff(s: State, mac: MacAddr, ip: Address, now: Time)
    ensures EntriesOf(s.Commit(mac, ip, now).state.leases, mac) > EntriesOf(s.leases, mac) <==> HasPair(s.pending, mac, ip)
  {
    var c := s.Commit(mac, ip, now);
    var i := IndexByPair(s.leases, mac, ip);
    if HasPair(s.pending, mac, ip) {
      EntriesConcat(s.leases, [c.result.value], mac);
      assert [c.result.value][..0] == [];
    } else if i < |s.leases| {
      UpdateKeepsEntries(s.leases, i, c.result.value, mac);
    }
  }

  lemma UpdateKeepsEntries(ls: seq<Lease>, i: nat, l: Lease, mac: MacAddr)
    requires i < |ls| && l.mac == ls[i].mac
    ensures EntriesOf(ls[i := l], mac) == EntriesOf(ls, mac)
  {
    EntriesAround(ls, i, mac);
    EntriesAround(ls[i := l], i, mac);
    assert ls[i := l][..i] == ls[..i] && ls[i := l][i + 1..] == ls[i + 1..];
  }

  lemma EntriesAround(ls: seq<Lease>, i: nat, mac: MacAddr)
    requires i < |ls|
    ensures EntriesOf(ls, mac) == EntriesOf(ls[..i], mac) + (if ls[i].mac == mac then 1 else 0) + EntriesOf(ls[i + 1..], mac)
  {
    EntriesConcat(ls[..i], [ls[i]], mac);
    EntriesConcat(ls[..i + 1], ls[i + 1..], mac);
    assert ls[..i + 1] == ls[..i] + [ls[i]] && ls == ls[..i + 1] + ls[i + 1..];
    assert [ls[i]][..0] == [];
  }

  // ---------------------------------------------------------------- exact exhaustion

  /** No entry expires while the calls are made: prunings read the clock up to `horizon`, and all
      expiries are set beyond it. */
  predicate BeforeHorizon(op: Op, leaseTime: nat, horizon: Time) {
    match op
    case DiscoverOp(_, now, stamp) => now <= horizon < stamp + leaseTime
    case CommitOp(_, _, now) => horizon < now + leaseTime
    case _ => false
  }

  predicate Uncommitted(s: State, mac: MacAddr) {
    IndexByMac(s.leases, mac) == |s.leases|
  }

  /** How many of the calls were discovers for a MAC without a committed lease. */
  function FreshRequests(s: State, ops: seq<Op>): nat {
    if ops == [] then 0
    else
      var front, op := ops[..|ops| - 1], ops[|ops| - 1];
      FreshRequests(s, front) +
      if op.DiscoverOp? && Uncommitted(Run(s, front), op.mac) then 1 else 0
  }

  /** The right answer to fresh request number `k`. */
  predicate Answers(offer: Option<Lease>, pool: Ipv4Range, k: nat, mac: MacAddr, expiry: Time) {
    match offer
    case Some(l) => k < Len(pool) && l.ip == pool.start + k && l.mac == mac && l.expiry == expiry
    case None => k >= Len(pool)
  }

  function Min(a: nat, b: nat): nat {
    if a < b then a else b
  }

  /** After `n` fresh requests the entries hold exactly the first `n` addresses of the pool. */
  ghost predicate Filled(s: State, pool: Ipv4Range, leaseTime: nat, n: nat, horizon: Time) {
    && s.pool == pool && s.leaseTime == leaseTime
    && n <= Len(pool) && s.next == pool.start + n
    && (forall a: Address :: Held(s.Entries(), a) <==> pool.start <= a < pool.start + n)
    && (forall l | l in s.Entries() :: l.expiry > horizon)
  }

  lemma {:induction false} RetainAll(ls: seq<Lease>, now: Time)
    requires forall l | l in ls :: l.expiry > now
    ensures Retain(ls, now) == ls
  {
    if ls != [] {
      RetainAll(ls[..|ls| - 1], now);
      assert ls[|ls| - 1] in ls;
    }
  }

  lemma PruneAll(s: State, now: Time)
    requires forall l | l in s.Entries() :: l.expiry > now
    ensures s.Prune(now) == s
  {
    assert forall l | l in s.leases || l in s.pending :: l in s.Entries();
    RetainAll(s.leases, now);
    RetainAll(s.pending, now);
  }

  lemma FilledOffers(s: State, pool: Ipv4Range, leaseTime: nat, n: nat, horizon: Time, mac: MacAddr, now: Time, stamp: Time)
    requires Filled(s, pool, leaseTime, n, horizon) && Uncommitted(s, mac)
    requires now <= horizon < stamp + leaseTime
    ensures var d := s.Discover(mac, now, stamp);
            if n < Len(pool)
            then d.offer == Some(Lease(mac, pool.start + n, stamp + leaseTime)) && Filled(d.state, pool, leaseTime, n + 1, horizon)
            else d.offer == None && d.state == s
  {
    PruneAll(s, now);
    var candidates, d := IterStartingAt(pool, s.next), s.Discover(mac, now, stamp);
    if n < Len(pool) {
      assert candidates[0] == s.next;
      var l := d.offer.value;
      assert d.state.Entries() == s.Entries() + [l];
      forall a: Address ensures Held(d.state.Entries(), a) <==> pool.start <= a < pool.start + n + 1 {
        HeldInEither(s.Entries(), [l], a);
        assert l in [l];
      }
    } else {
      RotationIsExact(pool, s.next);
      assert forall i | 0 <= i < |candidates| :: Held(s.Entries(), candidates[i]);
    }
  }

  lemma FilledCommits(s: State, pool: Ipv4Range, leaseTime: nat, n: nat, horizon: Time, mac: MacAddr, ip: Address, now: Time)
    requires Filled(s, pool, leaseTime, n, horizon) && horizon < now + leaseTime
    requires DistinctAddresses(s.Entries())
    ensures Filled(s.Commit(mac, ip, now).state, pool, leaseTime, n, horizon)
  {
    var c := s.Commit(mac, ip, now);
    CommitSucceedsIff(s, mac, ip, now);
    if c.result.Success? {
      CommitReplaces(s, mac, ip, now);
      forall a: Address ensures Held(c.state.Entries(), a) <==> Held(s.Entries(), a) {
        HeldInEither(s.leases, s.pending, a);
        HeldInEither(c.state.leases, c.state.pending, a);
      }
    }
  }

  lemma {:induction false} RunFills(pool: Ipv4Range, leaseTime: nat, ops: seq<Op>, horizon: Time)
    requires forall op | op in ops :: BeforeHorizon(op, leaseTime, horizon)
    ensures var s0 := State.New(pool, leaseTime, []);
            Filled(Run(s0, ops), pool, leaseTime, Min(FreshRequests(s0, ops), Len(pool)), horizon)
  {
    var s0 := State.New(pool, leaseTime, []);
    if ops != [] {
      var front, op := ops[..|ops| - 1], ops[|ops| - 1];
      assert op in ops;
      RunFills(pool, leaseTime, front, horizon);
      NoAddressTwice(s0, front);
      var s, n := Run(s0, front), Min(FreshRequests(s0, front), Len(pool));
      match op {
        case DiscoverOp(mac, now, stamp) =>
          if Uncommitted(s, mac) { FilledOffers(s, pool, leaseTime, n, horizon, mac, now, stamp); }
        case CommitOp(mac, ip, now) => FilledCommits(s, pool, leaseTime, n, horizon, mac, ip, now);
      }
    }
  }

  /** On a fresh service over a pool of n addresses, with commits and repeated requests freely
      interleaved and nothing expiring, fresh request number k gets address `start + k` if
      k < n, and nothing otherwise. */
  lemma ExactExhaustion(pool: Ipv4Range, leaseTime: nat, ops: seq<Op>, horizon: Time, mac: MacAddr, now: Time, stamp: Time)
    requires forall op | op in ops :: BeforeHorizon(op, leaseTime, horizon)
    requires now <= horizon < stamp + leaseTime
    requires Uncommitted(Run(State.New(pool, leaseTime, []), ops), mac)
    ensures var s0 := State.New(pool, leaseTime, []); var k := FreshRequests(s0, ops);
            Answers(Run(s0, ops).Discover(mac, now, stamp).offer, pool, k, mac, stamp + leaseTime)
  {
    var s0 := State.New(pool, leaseTime, []);
    RunFills(pool, leaseTime, ops, horizon);
    FilledAnswers(Run(s0, ops), pool, leaseTime, FreshRequests(s0, ops), horizon, mac, now, stamp);
  }

  lemma FilledAnswers(s: State, pool: Ipv4Range, leaseTime: nat, k: nat, horizon: Time, mac: MacAddr, now: Time, stamp: Time)
    requires Filled(s, pool, leaseTime, Min(k, Len(pool)), horizon) && Uncommitted(s, mac)
    requires now <= horizon < stamp + leaseTime
    ensures Answers(s.Discover(mac, now, stamp).offer, pool, k, mac, stamp + leaseTime)
  {
    FilledOffers(s, pool, leaseTime, Min(k, Len(pool)), horizon, mac, now, stamp);
  }

  // ---------------------------------------------------------------- offers are honoured

  predicate Confirms(r: Result<Lease, CommitError>, mac: MacAddr, ip: Address, expiry: Time) {
    r.Success? && r.value.mac == mac && r.value.ip == ip && r.value.expiry == expiry
  }

  /** The pair is stored with an expiry not before `deadline`. */
  ghost predicate Honoured(s: State, mac: MacAddr, ip: Address, deadline: Time) {
    exists l | l in s.Entries() :: l.mac == mac && l.ip == ip && l.expiry >= deadline
  }

  /** Calls whose clock readings lie in `[from, deadline)`; a peer's update of the very pair must
      not bring its expiry forward. */
  predicate Within(op: Op, leaseTime: nat, from: Time, deadline: Time, mac: MacAddr, ip: Address) {
    match op
    case DiscoverOp(_, now, _) => now < deadline
    case CommitOp(_, _, now) => from <= now
    case SetPoolOp(_) => true
    case AddLeaseOp(l) => (l.mac == mac && l.ip == ip) ==> l.expiry >= deadline
  }

  lemma StepHonours(s: State, op: Op, mac: MacAddr, ip: Address, from: Time, deadline: Time)
    requires Honoured(s, mac, ip, deadline) && deadline <= from + s.leaseTime
    requires Within(op, s.leaseTime, from, deadline, mac, ip)
    ensures Honoured(Apply(s, op), mac, ip, deadline)
  {
    var l :| l in s.Entries() && l.mac == mac && l.ip == ip && l.expiry >= deadline;
    var s' := Apply(s, op);
    match op {
      case DiscoverOp(m, now, stamp) => assert l in s.Prune(now).Entries();
      case SetPoolOp(_) =>
        assert s'.Entries() == s.Entries();
      case AddLeaseOp(new_) =>
        var i := IndexByPair(s.leases, new_.mac, new_.ip);
        if l in s.leases {
          KeptAfterUpdate(s.leases, l, i, s'.leases, deadline);
        } else {
          assert l in s'.pending && l in s'.Entries();
        }
      case CommitOp(m, a, now) => CommitHonours(s, m, a, now, l, deadline);
    }
  }

  lemma KeptAfterUpdate(ls: seq<Lease>, l: Lease, i: nat, ls': seq<Lease>, deadline: Time)
    requires l in ls && l.expiry >= deadline && i <= |ls|
    requires if i < |ls| then exists x: Lease :: SamePair(x, ls[i]) && ls' == ls[i := x] && (SamePair(x, l) ==> x.expiry >= deadline)
             else ls <= ls'
    ensures exists x | x in ls' :: SamePair(x, l) && x.expiry >= deadline
  {
    var j :| 0 <= j < |ls| && ls[j] == l;
    assert ls'[j] in ls';
  }

  lemma CommitHonours(s: State, mac: MacAddr, ip: Address, now: Time, l: Lease, deadline: Time)
    requires l in s.Entries() && l.expiry >= deadline && now + s.leaseTime >= deadline
    ensures Honoured(s.Commit(mac, ip, now).state, l.mac, l.ip, deadline)
  {
    var c := s.Commit(mac, ip, now);
    var p, i := IndexByPair(s.pending, mac, ip), IndexByPair(s.leases, mac, ip);
    if l in s.leases {
      if p == |s.pending| && i < |s.leases| {
        KeptAfterUpdate(s.leases, l, i, c.state.leases, deadline);
        var x :| x in c.state.leases && SamePair(x, l) && x.expiry >= deadline;
        assert x in c.state.Entries();
      } else {
        assert l in c.state.leases && l in c.state.Entries();
      }
    } else {
      var j :| 0 <= j < |s.pending| && s.pending[j] == l;
      if p == |s.pending| || j != p {
        assert p < |s.pending| ==> c.state.pending[if j < p then j else j - 1] == l;
        assert l in c.state.pending && l in c.state.Entries();
      } else {
        var x := c.result.value;
        assert x in c.state.leases && x in c.state.Entries();
      }
    }
  }

  lemma {:induction false} RunHonours(s: State, ops: seq<Op>, mac: MacAddr, ip: Address, from: Time, deadline: Time)
    requires Honoured(s, mac, ip, deadline) && deadline <= from + s.leaseTime
    requires forall op | op in ops :: Within(op, s.leaseTime, from, deadline, mac, ip)
    ensures Honoured(Run(s, ops), mac, ip, deadline) && Run(s, ops).leaseTime == s.leaseTime
  {
    if ops != [] {
      RunHonours(s, ops[..|ops| - 1], mac, ip, from, deadline);
      assert ops[|ops| - 1] in ops;
      StepHonours(Run(s, ops[..|ops| - 1]), ops[|ops| - 1], mac, ip, from, deadline);
    }
  }

  /** An offer made at `stamp` can be committed after any calls whose clock readings lie between
      `stamp` and `stamp + leaseTime`. */
  lemma OfferIsHonoured(s: State, mac: MacAddr, now: Time, stamp: Time, d: Discovery, ip: Address, ops: seq<Op>, t: Time)
    requires d == s.Discover(mac, now, stamp) && Uncommitted(s, mac)
    requires d.offer.Some? && d.offer.value.ip == ip
    requires forall op | op in ops :: Within(op, s.leaseTime, stamp, stamp + s.leaseTime, mac, ip)
    ensures Confirms(Run(d.state, ops).Commit(mac, ip, t).result, mac, ip, t + s.leaseTime)
  {
    FreshOfferIsStored(s, mac, now, stamp);
    HonouredCommits(d.state, ops, mac, ip, stamp, stamp + s.leaseTime, t);
  }

  lemma FreshOfferIsStored(s: State, mac: MacAddr, now: Time, stamp: Time)
    requires Uncommitted(s, mac) && s.Discover(mac, now, stamp).offer.Some?
    ensures var d := s.Discover(mac, now, stamp);
            Honoured(d.state, mac, d.offer.value.ip, stamp + s.leaseTime) && d.state.leaseTime == s.leaseTime
  {
    var d := s.Discover(mac, now, stamp);
    assert d.offer.value in d.state.pending && d.offer.value in d.state.Entries();
  }

  lemma HonouredCommits(s: State, ops: seq<Op>, mac: MacAddr, ip: Address, from: Time, deadline: Time, t: Time)
    requires Honoured(s, mac, ip, deadline) && deadline <= from + s.leaseTime
    requires forall op | op in ops :: Within(op, s.leaseTime, from, deadline, mac, ip)
    ensures Confirms(Run(s, ops).Commit(mac, ip, t).result, mac, ip, t + s.leaseTime)
  {
    RunHonours(s, ops, mac, ip, from, deadline);
    StoredPairCommits(Run(s, ops), mac, ip, deadline, t);
  }

  lemma StoredPairCommits(s: State, mac: MacAddr, ip: Address, deadline: Time, t: Time)
    requires Honoured(s, mac, ip, deadline)
    ensures Confirms(s.Commit(mac, ip, t).result, mac, ip, t + s.leaseTime)
  {
    CommitSucceedsIff(s, mac, ip, t);
  }

  lemma CommitIsStored(s: State, mac: MacAddr, ip: Address, now: Time)
    requires s.Commit(mac, ip, now).result.Success?
    ensures var c := s.Commit(mac, ip, now);
            && c.result.value == Lease(mac, ip, now + s.leaseTime) && c.result.value in c.state.leases
            && Honoured(c.state, mac, ip, now + s.leaseTime) && c.state.leaseTime == s.leaseTime
  {
    var c := s.Commit(mac, ip, now);
    var i := IndexByPair(s.leases, mac, ip);
    assert c.state.leases[if IndexByPair(s.pending, mac, ip) < |s.pending| then |s.leases| else i] == c.result.value;
    assert c.result.value in c.state.Entries();
  }

  /** Once committed, a lease can be committed again until it expires, and under a monotone clock
      the later commit never shortens it. */
  lemma CommitIsRepeatable(s: State, mac: MacAddr, ip: Address, t: Time, ops: seq<Op>, u: Time)
    requires s.Commit(mac, ip, t).result.Success? && t <= u
    requires forall op | op in ops :: Within(op, s.leaseTime, t, t + s.leaseTime, mac, ip)
    ensures var c := s.Commit(mac, ip, t); var c' := Run(c.state, ops).Commit(mac, ip, u);
            c'.result.Success? && c'.result.value.expiry >= c.result.value.expiry
  {
    var c := s.Commit(mac, ip, t);
    CommitIsStored(s, mac, ip, t);
    HonouredCommits(c.state, ops, mac, ip, t, t + s.leaseTime, u);
  }

  // ---------------------------------------------------------------- remaining seconds

  /** Converting a fresh offer, at a later clock reading, panics if and only if what then remains of
      the lease time is at least 2^32 seconds. So it never does if the lease time is shorter, and
      otherwise it does at first: the 64-bit configuration value allows that. */
  lemma OfferConversionIff(s: State, mac: MacAddr, now: Time, stamp: Time, later: Time)
    requires Uncommitted(s, mac) && s.Discover(mac, now, stamp).offer.Some? && stamp <= later
    ensures OfferSeconds(s.Discover(mac, now, stamp).offer.value, later).None? <==>
            s.leaseTime >= (later - stamp) + TWO_TO_32 * NANOS_PER_SECOND
  {
    var expiry := s.Discover(mac, now, stamp).offer.value.expiry;
    assert expiry == stamp + s.leaseTime;
    if expiry >= later { SecondsIff(expiry - later); }
  }

  lemma SecondsIff(remaining: nat)
    ensures remaining / NANOS_PER_SECOND >= TWO_TO_32 <==> remaining >= TWO_TO_32 * NANOS_PER_SECOND
  {
  }

  /** A lease that expires within the lease time converts, whenever the lease time fits. */
  lemma BoundedLeaseConverts(l: Lease, leaseTime: nat, now: Time)
    requires l.expiry <= now + leaseTime && leaseTime / NANOS_PER_SECOND < TWO_TO_32
    ensures OfferSeconds(l, now).Some? && OfferSeconds(l, now).value <= leaseTime / NANOS_PER_SECOND
  {
    if l.expiry >= now { DivMonotone(l.expiry - now, leaseTime); }
  }

  /** The conversion gives the whole seconds that remain: at least `s` and less than `s + 1` of them,
      if that fits, and none of an expired lease. */
  lemma OfferSecondsAreWhole(l: Lease, now: Time, s: u32)
    ensures l.expiry >= now ==>
              (OfferSeconds(l, now) == Some(s) <==> s * NANOS_PER_SECOND <= l.expiry - now < (s + 1) * NANOS_PER_SECOND)
    ensures l.expiry < now ==> OfferSeconds(l, now) == Some(0)
  {
    if l.expiry >= now { SecondsAre(l.expiry - now, s); }
  }

  lemma SecondsAre(remaining: nat, s: nat)
    ensures remaining / NANOS_PER_SECOND == s <==> s * NANOS_PER_SECOND <= remaining < (s + 1) * NANOS_PER_SECOND
  {
  }

  /** A client that is told at once is told the configured lease time. */
  lemma FreshOfferSeconds(s: State, mac: MacAddr, now: Time, stamp: Time, configured: u32)
    requires Uncommitted(s, mac) && s.Discover(mac, now, stamp).offer.Some? && s.leaseTime == configured * NANOS_PER_SECOND
    ensures OfferSeconds(s.Discover(mac, now, stamp).offer.value, stamp) == Some(configured)
  {
    var l := s.Discover(mac, now, stamp).offer.value;
    assert l.expiry == stamp + s.leaseTime;
    OfferSecondsAreWhole(l, stamp, configured);
  }

  // ---------------------------------------------------------------- what calls leave alone

  /** After a new pool has been set, the next fresh offer is its lowest free address. */
  lemma OfferAfterSetPool(s: State, pool: Ipv4Range, mac: MacAddr, now: Time, stamp: Time)
    requires Uncommitted(s, mac) && s.SetPool(pool).Discover(mac, now, stamp).offer.Some?
    ensures var ip := s.SetPool(pool).Discover(mac, now, stamp).offer.value.ip;
            && pool.Contains(ip) && !Held(s.Prune(now).Entries(), ip)
            && forall a: Address | pool.start <= a < ip :: Held(s.Prune(now).Entries(), a)
  {
    var moved := s.SetPool(pool);
    assert moved.CursorOk() && moved.Prune(now).Entries() == s.Prune(now).Entries();
    OfferIsInPool(moved, mac, now, stamp);
    OfferIsFirstFree(moved, mac, now, stamp);
    var ip := moved.Discover(mac, now, stamp).offer.value.ip;
    forall a: Address | pool.start <= a < ip ensures Held(s.Prune(now).Entries(), a) {
      assert CyclicDistance(moved, a) < CyclicDistance(moved, ip);
    }
  }

  /** Recording and committing leases leave the pool, the cursor and the lease time alone; recording
      also leaves the offers alone, and setting a pool all entries. */
  lemma CallsLeaveAlone(s: State, l: Lease, mac: MacAddr, ip: Address, now: Time, pool: Ipv4Range)
    ensures var r := s.AddLease(l); r.pool == s.pool && r.next == s.next && r.leaseTime == s.leaseTime && r.pending == s.pending
    ensures var r := s.Commit(mac, ip, now).state; r.pool == s.pool && r.next == s.next && r.leaseTime == s.leaseTime
    ensures var r := s.SetPool(pool); r.leases == s.leases && r.pending == s.pending && r.leaseTime == s.leaseTime
  {
  }

  /** A service that starts with leases offers each of their MACs the first one it has, and each other
      MAC the lowest address of the pool that no unexpired lease holds. */
  lemma RestoredService(pool: Ipv4Range, leaseTime: nat, leases: seq<Lease>, mac: MacAddr, now: Time, stamp: Time)
    ensures var offer := State.New(pool, leaseTime, leases).Discover(mac, now, stamp).offer; var i := IndexByMac(leases, mac);
            if i < |leases| then offer == Some(leases[i])
            else offer.Some? ==>
                 && pool.Contains(offer.value.ip) && !Held(Retain(leases, now), offer.value.ip)
                 && forall a: Address | pool.start <= a < offer.value.ip :: Held(Retain(leases, now), a)
  {
    var s := State.New(pool, leaseTime, leases);
    if IndexByMac(leases, mac) == |leases| && s.Discover(mac, now, stamp).offer.Some? {
      assert s == s.SetPool(pool);
      assert s.Prune(now).Entries() == Retain(leases, now);
      OfferAfterSetPool(s, pool, mac, now, stamp);
    }
  }

  /** New leases go behind the earlier ones. So a MAC that has a lease is offered that same address
      again, whatever is recorded or committed for it or others, as long as nothing is pruned. */
  lemma EarlierLeaseStaysFirst(s: State, l: Lease, m: MacAddr, ip: Address, now: Time, mac: MacAddr)
    requires !Uncommitted(s, mac)
    ensures StaysFirst(s.leases, s.AddLease(l).leases, mac)
    ensures StaysFirst(s.leases, s.Commit(m, ip, now).state.leases, mac)
  {
    var i := IndexByPair(s.leases, l.mac, l.ip);
    if i < |s.leases| { UpdateKeepsFirst(s.leases, i, s.leases[i].(expiry := l.expiry), mac); } else { AppendKeepsFirst(s.leases, l, mac); }
    var c := s.Commit(m, ip, now);
    var j := IndexByPair(s.leases, m, ip);
    if HasPair(s.pending, m, ip) {
      AppendKeepsFirst(s.leases, c.result.value, mac);
    } else if j < |s.leases| {
      UpdateKeepsFirst(s.leases, j, c.result.value, mac);
    } else {
      assert c.state == s;
    }
  }

  /** The first lease stored for the MAC is one of the same pair as before, at the same place. */
  ghost predicate StaysFirst(before: seq<Lease>, after: seq<Lease>, mac: MacAddr)
    requires IndexByMac(before, mac) < |before|
  {
    var i := IndexByMac(before, mac);
    IndexByMac(after, mac) == i < |after| && SamePair(after[i], before[i])
  }

  lemma AppendKeepsFirst(ls: seq<Lease>, l: Lease, mac: MacAddr)
    requires IndexByMac(ls, mac) < |ls|
    ensures StaysFirst(ls, ls + [l], mac)
  {
    FirstIs(ls + [l], IndexByMac(ls, mac), mac);
  }

  lemma UpdateKeepsFirst(ls: seq<Lease>, i: nat, l: Lease, mac: MacAddr)
    requires i < |ls| && SamePair(l, ls[i]) && IndexByMac(ls, mac) < |ls|
    ensures StaysFirst(ls, ls[i := l], mac)
  {
    FirstIs(ls[i := l], IndexByMac(ls, mac), mac);
  }

  lemma {:induction false} FirstIs(ls: seq<Lease>, i: nat, mac: MacAddr)
    requires i < |ls| && ls[i].mac == mac && forall j | 0 <= j < i :: ls[j].mac != mac
    ensures IndexByMac(ls, mac) == i
  {
    if i > 0 { FirstIs(ls[1..], i - 1, mac); }
  }

  lemma DivMonotone(x: nat, y: nat)
    requires x <= y
    ensures x / NANOS_PER_SECOND <= y / NANOS_PER_SECOND
  {
  }
}
