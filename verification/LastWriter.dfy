/** What nodes overwrite with whatever arrives last: the expiry of a lease, and a node's pool.
    Messages from different senders may arrive in any order, so what nodes end up with is certain
    exactly if all that is pending for a node says the same. */
module LastWriter {
  import opened Wrappers
  import opened Ipv4
  import opened ServerNode
  import opened Cluster
  import opened Election
  import opened ElectionOutcomes
  import opened LeaseLedger
  import opened Leases
  import Epochs
  import Dhcp

  // ---------------------------------------------------------------- registers

  /** What is overwritten at every node. */
  datatype Register = ExpiryOf(pair: Pair) | OwnPool

  datatype Content = Nothing | Until(expiry: Dhcp.Time) | Range(pool: Ipv4Range)

  predicate Writes(r: Register, e: Event) {
    match r
    case ExpiryOf(x) => IsLease(e) && PairOf(e.message.lease) == x
    case OwnPool => e.PeerMessage? && e.message.SetPool?
  }

  function Written(r: Register, e: Event): Content
    requires Writes(r, e)
  {
    match r
    case ExpiryOf(_) => Until(e.message.lease.expiry)
    case OwnPool => Range(e.message.pool)
  }

  /** The expiry of the first entry for the pair. */
  function ExpiryIn(ls: seq<Dhcp.Lease>, x: Pair): Content {
    if ls == [] then Nothing
    else if PairOf(ls[0]) == x then Until(ls[0].expiry)
    else ExpiryIn(ls[1..], x)
  }

  function Held(r: Register, s: Dhcp.State): Content {
    match r
    case ExpiryOf(x) => ExpiryIn(s.leases, x)
    case OwnPool => Range(s.pool)
  }

  lemma {:induction false} ExpiryAfterAppend(ls: seq<Dhcp.Lease>, l: Dhcp.Lease, x: Pair)
    ensures ExpiryIn(ls + [l], x) ==
            if ExpiryIn(ls, x) != Nothing then ExpiryIn(ls, x) else if PairOf(l) == x then Until(l.expiry) else Nothing
  {
    if ls == [] {
      assert [l][1..] == [];
    } else {
      ExpiryAfterAppend(ls[1..], l, x);
      assert (ls + [l])[1..] == ls[1..] + [l];
    }
  }

  lemma {:induction false} ExpiryAfterUpdate(ls: seq<Dhcp.Lease>, i: nat, l: Dhcp.Lease, x: Pair)
    requires i < |ls| && i == Dhcp.IndexByPair(ls, l.mac, l.ip)
    ensures ExpiryIn(ls[i := l], x) == if PairOf(l) == x then Until(l.expiry) else ExpiryIn(ls, x)
  {
    if i == 0 {
      assert ls[0 := l][1..] == ls[1..];
    } else {
      ExpiryAfterUpdate(ls[1..], i - 1, l, x);
      assert ls[i := l][1..] == ls[1..][i - 1 := l];
    }
  }

  lemma {:induction false} ExpiryNothingIff(ls: seq<Dhcp.Lease>, x: Pair)
    ensures ExpiryIn(ls, x) == Nothing <==> Dhcp.IndexByPair(ls, x.mac, x.ip) == |ls|
  {
    if ls != [] { ExpiryNothingIff(ls[1..], x); }
  }

  lemma ExpiryAfterAddLease(s: Dhcp.State, l: Dhcp.Lease, x: Pair)
    ensures ExpiryIn(s.AddLease(l).leases, x) == if PairOf(l) == x then Until(l.expiry) else ExpiryIn(s.leases, x)
  {
    var i := Dhcp.IndexByPair(s.leases, l.mac, l.ip);
    if i < |s.leases| {
      ExpiryAfterUpdate(s.leases, i, s.leases[i].(expiry := l.expiry), x);
    } else {
      ExpiryNothingIff(s.leases, PairOf(l));
      ExpiryAfterAppend(s.leases, l, x);
    }
  }

  lemma ExpiryAfterCommit(s: Dhcp.State, mac: Dhcp.MacAddr, ip: Address, now: Dhcp.Time, x: Pair)
    requires x != Pair(mac, ip)
    ensures ExpiryIn(s.Commit(mac, ip, now).state.leases, x) == ExpiryIn(s.leases, x)
  {
    var c := s.Commit(mac, ip, now);
    var i := Dhcp.IndexByPair(s.leases, mac, ip);
    if Dhcp.HasPair(s.pending, mac, ip) {
      ExpiryAfterAppend(s.leases, c.result.value, x);
    } else if i < |s.leases| {
      ExpiryAfterUpdate(s.leases, i, c.result.value, x);
    }
  }

  // ---------------------------------------------------------------- steps

  /** A write is all that its message does. */
  lemma WriteTakesEffect(r: Register, n: Node, e: Event, order: seq<Id>)
    requires Writes(r, e)
    ensures var q := n.HandleEvent(e, order); q.React? && q.out == [] && Held(r, q.node.dhcp) == Written(r, e)
  {
    match r
    case ExpiryOf(x) => ExpiryAfterAddLease(n.dhcp, e.message.lease, x);
    case OwnPool =>
  }

  /** A step that starts no new writes: for a lease, nobody confirms the pair, nothing is pruned and
      no table replaced; for pools, there is no election. */
  ghost predicate Undisturbed(r: Register, c: Cluster, l: Label) {
    match r
    case ExpiryOf(x) => Epochs.Gentle(c, l) && !(l.ConfirmRequest? && Pair(l.mac, l.ip) == x)
    case OwnPool => !l.Trigger? && !IsElectionStep(c, l)
  }

  /** The node holds what it held, and sends no write. */
  ghost predicate Leaves(r: Register, n: Node, n': Node, out: seq<Event>) {
    Held(r, n'.dhcp) == Held(r, n.dhcp) && forall e | e in out :: !Writes(r, e)
  }

  lemma OtherEventLeaves(r: Register, n: Node, e: Event, order: seq<Id>)
    requires !Writes(r, e) && n.HandleEvent(e, order).React?
    requires r.ExpiryOf? && IsTable(e) ==> |e.message.leases| <= |n.dhcp.leases|
    requires r.OwnPool? ==> !IsElectionEvent(e)
    ensures var q := n.HandleEvent(e, order); Leaves(r, n, q.node, q.out)
  {
    if r.ExpiryOf? {
      ElectionsSent(n.config.id, order);
      if e.ElectionTimeout? {
        if n.election == WaitingForElection { RoundSent(n, order); }
      } else if IsLease(e) {
        ExpiryAfterAddLease(n.dhcp, e.message.lease, r.pair);
      }
    }
  }

  lemma TriggerLeaves(x: Pair, n: Node, order: seq<Id>, cause: Cause)
    requires CanCause(n, cause)
    ensures var q := Triggered(n, order, cause); q.React? && Leaves(ExpiryOf(x), n, q.node, q.out)
  {
    TriggerSends(n, order, cause);
    ElectionsSent(n.config.id, order);
  }

  lemma RequestLeaves(r: Register, n: Node, mac: Dhcp.MacAddr, now: Dhcp.Time, stamp: Dhcp.Time)
    requires r.ExpiryOf? ==> forall x | x in n.dhcp.Entries() :: x.expiry > now
    ensures Leaves(r, n, n.HandleLeaseRequest(mac, now, stamp).node, [])
  {
    if r.ExpiryOf? { Epochs.RequestRetains(n, mac, now, stamp); }
  }

  lemma ConfirmLeaves(r: Register, n: Node, mac: Dhcp.MacAddr, ip: Address, now: Dhcp.Time, order: seq<Id>)
    requires r.ExpiryOf? ==> r.pair != Pair(mac, ip)
    ensures var q := n.HandleConfirmRequest(mac, ip, now, order); Leaves(r, n, q.node, q.out)
  {
    var m := ConfirmSends(n, mac, ip, now, order);
    BroadcastSent(n.config.id, order, m);
    CommitKeepsPool(n.dhcp, mac, ip, now);
    if r.ExpiryOf? {
      ExpiryAfterCommit(n.dhcp, mac, ip, now, r.pair);
      if n.dhcp.Commit(mac, ip, now).result.Success? { CommitLearns(n.dhcp, mac, ip, now); }
    }
  }

  ghost predicate PendingFor(r: Register, c: Cluster, p: Id) {
    exists e :: e in c.pending && Writes(r, e) && e.to == p
  }

  /** Every node holds what is wanted of it, unless that is still to arrive; nothing else is. */
  ghost predicate Carries(c: Cluster, r: Register, want: map<Id, Content>) {
    && want.Keys == c.nodes.Keys
    && (forall e | e in c.pending && Writes(r, e) && e.to in want :: Written(r, e) == want[e.to])
    && (forall p | p in want :: Held(r, c.nodes[p].dhcp) == want[p] || PendingFor(r, c, p))
  }

  /** Node `at` changes to `n'`, having handled a write `e` if there is one. */
  lemma ChangeKeepsCarrying(c: Cluster, at: Id, n': Node, rest: seq<Event>, out: seq<Event>, c': Cluster, r: Register, want: map<Id, Content>)
    requires Carries(c, r, want) && at in c.nodes && c' == Cluster(c.nodes[at := n'], rest + out)
    requires Leaves(r, c.nodes[at], n', out)
    requires forall e | e in c.pending && Writes(r, e) :: e in rest
    requires forall e | e in rest :: e in c.pending
    ensures Carries(c', r, want)
  {
    forall p | p in want ensures Held(r, c'.nodes[p].dhcp) == want[p] || PendingFor(r, c', p) {
      if PendingFor(r, c, p) {
        var e :| e in c.pending && Writes(r, e) && e.to == p;
        assert e in c'.pending;
      }
    }
  }

  lemma WriteKeepsCarrying(c: Cluster, e: Event, n': Node, rest: seq<Event>, c': Cluster, r: Register, want: map<Id, Content>)
    requires Carries(c, r, want) && e in c.pending && Writes(r, e) && e.to in c.nodes && c' == Cluster(c.nodes[e.to := n'], rest)
    requires Held(r, n'.dhcp) == Written(r, e)
    requires forall x | x in c.pending && x != e :: x in rest
    requires forall x | x in rest :: x in c.pending
    ensures Carries(c', r, want)
  {
    forall p | p in want ensures Held(r, c'.nodes[p].dhcp) == want[p] || PendingFor(r, c', p) {
      if p != e.to && PendingFor(r, c, p) {
        var x :| x in c.pending && Writes(r, x) && x.to == p;
        assert x in c'.pending;
      }
    }
  }

  lemma DeliveryKeepsCarrying(c: Cluster, i: nat, order: seq<Id>, rest: seq<Event>, c': Cluster, r: Register, want: map<Id, Content>)
    requires Carries(c, r, want) && i < |c.pending| && Target(c.pending[i]) in c.nodes
    requires rest == c.pending || rest == Without(c.pending, i)
    requires var at := Target(c.pending[i]); Leads(c, at, c.nodes[at].HandleEvent(c.pending[i], order), rest, c')
    requires r.ExpiryOf? && IsTable(c.pending[i]) ==> |c.pending[i].message.leases| <= |c.nodes[c.pending[i].to].dhcp.leases|
    requires r.OwnPool? ==> !IsElectionEvent(c.pending[i])
    ensures Carries(c', r, want)
  {
    var e, at := c.pending[i], Target(c.pending[i]);
    var q := c.nodes[at].HandleEvent(e, order);
    WithoutMembers(c.pending, i);
    if Writes(r, e) {
      WriteTakesEffect(r, c.nodes[at], e, order);
      assert rest + [] == rest;
      WriteKeepsCarrying(c, e, q.node, rest, c', r, want);
    } else {
      OtherEventLeaves(r, c.nodes[at], e, order);
      ChangeKeepsCarrying(c, at, q.node, rest, q.out, c', r, want);
    }
  }

  lemma RejoinKeepsCarrying(c: Cluster, at: Id, peer: Id, c': Cluster, r: Register, want: map<Id, Content>)
    requires Carries(c, r, want) && Step(c, Rejoin(at, peer), c')
    ensures Carries(c', r, want)
  {
    RejoinSends(c, at, peer, c');
    var n := c.nodes[at];
    assert c.nodes[at := n] == c.nodes;
    ChangeKeepsCarrying(c, at, n, c.pending, [PeerMessage(peer, n.config.id, LeaseTable(n.dhcp.leases))], c', r, want);
  }

  lemma StepKeepsCarrying(c: Cluster, l: Label, c': Cluster, r: Register, want: map<Id, Content>)
    requires Carries(c, r, want) && Step(c, l, c') && Undisturbed(r, c, l)
    ensures Carries(c', r, want)
  {
    match l
    case Process(i, order) => DeliveryKeepsCarrying(c, i, order, Without(c.pending, i), c', r, want);
    case Repeat(i) => DeliveryKeepsCarrying(c, i, [], c.pending, c', r, want);
    case Trigger(at, order, cause) =>
      TriggerLeaves(r.pair, c.nodes[at], order, cause);
      var q := Triggered(c.nodes[at], order, cause);
      ChangeKeepsCarrying(c, at, q.node, c.pending, q.out, c', r, want);
    case Rejoin(at, peer) => RejoinKeepsCarrying(c, at, peer, c', r, want);
    case LeaseRequest(at, mac, now, stamp) =>
      RequestLeaves(r, c.nodes[at], mac, now, stamp);
      var q := c.nodes[at].HandleLeaseRequest(mac, now, stamp);
      ChangeKeepsCarrying(c, at, q.node, c.pending, q.out, c', r, want);
    case ConfirmRequest(at, mac, ip, now, order) =>
      ConfirmLeaves(r, c.nodes[at], mac, ip, now, order);
      var q := c.nodes[at].HandleConfirmRequest(mac, ip, now, order);
      ChangeKeepsCarrying(c, at, q.node, c.pending, q.out, c', r, want);
  }

  // ---------------------------------------------------------------- what a run may end with

  ghost predicate UndisturbedAt(r: Register, cs: seq<Cluster>, ls: seq<Label>, i: nat)
    requires i < |ls| < |cs|
  {
    Undisturbed(r, cs[i], ls[i])
  }

  /** A run without new writes, at whose end none is pending. */
  ghost predicate Settles(c: Cluster, r: Register, cs: seq<Cluster>, ls: seq<Label>, last: Cluster) {
    && IsRun(cs, ls) && cs[0] == c && cs[|ls|] == last
    && (forall i | 0 <= i < |ls| :: UndisturbedAt(r, cs, ls, i))
    && (forall e | e in last.pending :: !Writes(r, e))
  }

  ghost predicate Shows(c: Cluster, r: Register, want: map<Id, Content>) {
    c.nodes.Keys == want.Keys && forall p | p in want :: Held(r, c.nodes[p].dhcp) == want[p]
  }

  lemma CarryingAt(cs: seq<Cluster>, ls: seq<Label>, i: nat, next: nat, r: Register, want: map<Id, Content>)
    requires IsRun(cs, ls) && i < |ls| && next == i + 1 && UndisturbedAt(r, cs, ls, i) && Carries(cs[i], r, want)
    ensures Carries(cs[next], r, want)
  {
    RunStep(cs, ls, i);
    StepKeepsCarrying(cs[i], ls[i], cs[next], r, want);
  }

  lemma {:induction false} RunCarries(cs: seq<Cluster>, ls: seq<Label>, n: nat, r: Register, want: map<Id, Content>)
    requires IsRun(cs, ls) && Carries(cs[0], r, want) && n <= |ls|
    requires forall i | 0 <= i < |ls| :: UndisturbedAt(r, cs, ls, i)
    ensures Carries(cs[n], r, want)
  {
    if n > 0 {
      RunCarries(cs, ls, n - 1, r, want);
      CarryingAt(cs, ls, n - 1, n, r, want);
    }
  }

  lemma SettlingShows(c: Cluster, r: Register, cs: seq<Cluster>, ls: seq<Label>, last: Cluster, want: map<Id, Content>)
    requires Carries(c, r, want) && Settles(c, r, cs, ls, last)
    ensures Shows(last, r, want)
  {
    RunCarries(cs, ls, |ls|, r, want);
  }

  /** `o` is pending for the node, or it holds `o` and nothing is pending for it. */
  ghost predicate Possible(c: Cluster, r: Register, p: Id, o: Content)
    requires p in c.nodes
  {
    || (exists e :: e in c.pending && Writes(r, e) && e.to == p && Written(r, e) == o)
    || (!PendingFor(r, c, p) && Held(r, c.nodes[p].dhcp) == o)
  }

  ghost predicate AllPossible(c: Cluster, r: Register, end: map<Id, Content>) {
    end.Keys == c.nodes.Keys && forall p | p in end :: Possible(c, r, p, end[p])
  }

  /** The write to deliver next: one that must be overwritten later, if there is any. */
  lemma NextWrite(c: Cluster, r: Register, end: map<Id, Content>) returns (i: nat)
    requires WellFormed(c) && AllPossible(c, r, end) && exists e :: e in c.pending && Writes(r, e)
    ensures i < |c.pending| && Writes(r, c.pending[i]) && c.pending[i].to in end
    ensures || Written(r, c.pending[i]) != end[c.pending[i].to]
            || forall e | e in c.pending && Writes(r, e) && e.to in end :: Written(r, e) == end[e.to]
  {
    var e := NextWriteEvent(c, r, end);
    assert WellAddressed(c.nodes.Keys, e);
    i := IndexIn(c.pending, e);
  }

  lemma IndexIn(es: seq<Event>, e: Event) returns (i: nat)
    requires e in es
    ensures i < |es| && es[i] == e
  {
    i :| 0 <= i < |es| && es[i] == e;
  }

  lemma NextWriteEvent(c: Cluster, r: Register, end: map<Id, Content>) returns (e: Event)
    requires exists e :: e in c.pending && Writes(r, e)
    ensures e in c.pending && Writes(r, e)
    ensures || (e.to in end && Written(r, e) != end[e.to])
            || forall e | e in c.pending && Writes(r, e) && e.to in end :: Written(r, e) == end[e.to]
  {
    if bad :| bad in c.pending && Writes(r, bad) && bad.to in end && Written(r, bad) != end[bad.to] {
      return bad;
    }
    e :| e in c.pending && Writes(r, e);
  }

  lemma WriteKeepsPossible(c: Cluster, r: Register, e: Event, n': Node, rest: seq<Event>, c': Cluster, end: map<Id, Content>)
    requires AllPossible(c, r, end) && e in c.pending && Writes(r, e) && e.to in end && c' == Cluster(c.nodes[e.to := n'], rest)
    requires Held(r, n'.dhcp) == Written(r, e)
    requires forall x | x in c.pending && x != e :: x in rest
    requires forall x | x in rest :: x in c.pending
    requires || Written(r, e) != end[e.to]
             || forall x | x in c.pending && Writes(r, x) && x.to in end :: Written(r, x) == end[x.to]
    ensures AllPossible(c', r, end)
  {
    forall p | p in end ensures Possible(c', r, p, end[p]) {
      assert Possible(c, r, p, end[p]);
      assert PendingFor(r, c, e.to);
      if x :| x in c.pending && Writes(r, x) && x.to == p && Written(r, x) == end[p] && x != e {
        assert x in c'.pending;
      } else if y :| y in c'.pending && Writes(r, y) && y.to == p {
        assert y in c.pending;
      }
    }
  }

  lemma Delivers(c: Cluster, r: Register, i: nat) returns (l: Label, c': Cluster)
    requires WellFormed(c) && i < |c.pending| && Writes(r, c.pending[i])
    ensures Step(c, l, c') && Undisturbed(r, c, l) && WellFormed(c')
    ensures c.pending[i].to in c.nodes && c'.pending == Without(c.pending, i)
    ensures exists n': Node :: Held(r, n'.dhcp) == Written(r, c.pending[i]) && c' == Cluster(c.nodes[c.pending[i].to := n'], Without(c.pending, i))
  {
    l, c' := CanProcess(c, i);
    var n := c.nodes[c.pending[i].to];
    WriteTakesEffect(r, n, c.pending[i], l.order);
    StepKeepsWellFormed(c, l, c');
    var n' := n.HandleEvent(c.pending[i], l.order).node;
    assert Without(c.pending, i) + [] == Without(c.pending, i);
    assert Held(r, n'.dhcp) == Written(r, c.pending[i]) && c' == Cluster(c.nodes[c.pending[i].to := n'], Without(c.pending, i));
  }

  lemma PrependSettles(c: Cluster, r: Register, l: Label, c': Cluster, cs: seq<Cluster>, ls: seq<Label>, last: Cluster)
    requires Step(c, l, c') && Undisturbed(r, c, l) && Settles(c', r, cs, ls, last)
    ensures Settles(c, r, [c] + cs, [l] + ls, last)
  {
    Prepend(c, l, cs, ls);
    var cs', ls' := [c] + cs, [l] + ls;
    forall i | 0 <= i < |ls'| ensures UndisturbedAt(r, cs', ls', i) {
      if i > 0 { assert UndisturbedAt(r, cs, ls, i - 1); }
    }
  }

  /** Whatever is possible at each node may be what all nodes end up with. */
  lemma {:induction false} CanEndWith(c: Cluster, r: Register, end: map<Id, Content>) returns (cs: seq<Cluster>, ls: seq<Label>, last: Cluster)
    requires WellFormed(c) && AllPossible(c, r, end)
    ensures Settles(c, r, cs, ls, last) && Shows(last, r, end)
    decreases |c.pending|
  {
    if forall e | e in c.pending :: !Writes(r, e) {
      return [c], [], c;
    }
    var i := NextWrite(c, r, end);
    var l, c' := Delivers(c, r, i);
    var n': Node :| Held(r, n'.dhcp) == Written(r, c.pending[i]) && c' == Cluster(c.nodes[c.pending[i].to := n'], Without(c.pending, i));
    WithoutMembers(c.pending, i);
    WriteKeepsPossible(c, r, c.pending[i], n', Without(c.pending, i), c', end);
    cs, ls, last := CanEndWith(c', r, end);
    PrependSettles(c, r, l, c', cs, ls, last);
    cs, ls := [c] + cs, [l] + ls;
  }

  ghost function SomeOutcome(c: Cluster, r: Register, p: Id): (o: Content)
    requires p in c.nodes
    ensures Possible(c, r, p, o)
  {
    if PendingFor(r, c, p) then
      var e :| e in c.pending && Writes(r, e) && e.to == p;
      Written(r, e)
    else Held(r, c.nodes[p].dhcp)
  }

  ghost function SomeEnd(c: Cluster, r: Register): (end: map<Id, Content>)
    ensures AllPossible(c, r, end)
  {
    map p | p in c.nodes :: SomeOutcome(c, r, p)
  }

  // ---------------------------------------------------------------- exactly when

  /** Everything possible is wanted. */
  lemma OnlyWantedIsCarrying(c: Cluster, r: Register, want: map<Id, Content>)
    requires want.Keys == c.nodes.Keys && forall p, o | p in want && Possible(c, r, p, o) :: o == want[p]
    ensures Carries(c, r, want)
  {
    forall e | e in c.pending && Writes(r, e) && e.to in want ensures Written(r, e) == want[e.to] {
      assert Possible(c, r, e.to, Written(r, e));
    }
    forall p | p in want ensures Held(r, c.nodes[p].dhcp) == want[p] || PendingFor(r, c, p) {
      assert PendingFor(r, c, p) || Possible(c, r, p, Held(r, c.nodes[p].dhcp));
    }
  }

  ghost predicate AlwaysShows(c: Cluster, r: Register, want: map<Id, Content>) {
    forall cs, ls, last | Settles(c, r, cs, ls, last) :: Shows(last, r, want)
  }

  /** Without new writes, all nodes are sure to end up with what is wanted of them if and only if
      every pending write carries what is wanted of its target, and every node without one has it. */
  lemma AlwaysShowsIff(c: Cluster, r: Register, want: map<Id, Content>)
    requires WellFormed(c) && want.Keys == c.nodes.Keys
    ensures AlwaysShows(c, r, want) <==> Carries(c, r, want)
  {
    if Carries(c, r, want) {
      forall cs, ls, last | Settles(c, r, cs, ls, last) ensures Shows(last, r, want) {
        SettlingShows(c, r, cs, ls, last, want);
      }
    }
    if AlwaysShows(c, r, want) {
      forall p, o | p in want && Possible(c, r, p, o) ensures o == want[p] {
        var end := SomeEnd(c, r)[p := o];
        CanDiffer(c, r, SomeEnd(c, r), p, o);
        var cs, ls, last := CanEndWith(c, r, end);
        assert Shows(last, r, want);
      }
      OnlyWantedIsCarrying(c, r, want);
    }
  }

  /** All nodes hold the same. */
  ghost predicate Uniform(c: Cluster, r: Register, o: Content) {
    forall p | p in c.nodes :: Held(r, c.nodes[p].dhcp) == o
  }

  function Everywhere(c: Cluster, o: Content): map<Id, Content> {
    map p | p in c.nodes :: o
  }

  /** Without new writes, all nodes are sure to end up with the same. */
  ghost predicate AlwaysAgrees(c: Cluster, r: Register) {
    forall cs, ls, last | Settles(c, r, cs, ls, last) :: exists o :: o != Nothing && Uniform(last, r, o)
  }

  lemma EndsAgree(c: Cluster, r: Register, end: map<Id, Content>, p: Id, q: Id)
    requires WellFormed(c) && AlwaysAgrees(c, r) && AllPossible(c, r, end) && p in end && q in end
    ensures end[p] == end[q] != Nothing
  {
    var cs, ls, last := CanEndWith(c, r, end);
    var o :| o != Nothing && Uniform(last, r, o);
  }

  lemma AgreeingOutcomes(c: Cluster, r: Register, p: Id, o: Content)
    requires WellFormed(c) && AlwaysAgrees(c, r) && |c.nodes.Keys| >= 2 && p in c.nodes && Possible(c, r, p, o)
    ensures forall q | q in c.nodes :: SomeEnd(c, r)[q] == o
  {
    var end := SomeEnd(c, r);
    var other := SomeOther(c.nodes.Keys, p);
    CanDiffer(c, r, end, p, o);
    EndsAgree(c, r, end[p := o], p, other);
    forall q | q in c.nodes ensures end[q] == o { EndsAgree(c, r, end, q, other); }
  }

  lemma SomeOther(ids: set<Id>, p: Id) returns (other: Id)
    requires |ids| >= 2
    ensures other in ids && other != p
  {
    other :| other in ids;
    if other == p {
      assert |ids - {p}| == |ids| - 1;
      other :| other in ids - {p};
    }
  }

  lemma CanDiffer(c: Cluster, r: Register, end: map<Id, Content>, p: Id, o: Content)
    requires AllPossible(c, r, end) && p in end && Possible(c, r, p, o)
    ensures AllPossible(c, r, end[p := o])
  {
  }

  /** In a cluster of at least two nodes they are sure to, if and only if there is something that
      every pending write carries, and every node without one holds. */
  lemma AlwaysAgreesIff(c: Cluster, r: Register)
    requires WellFormed(c) && |c.nodes.Keys| >= 2
    ensures AlwaysAgrees(c, r) <==> exists o :: o != Nothing && Carries(c, r, Everywhere(c, o))
  {
    if o :| o != Nothing && Carries(c, r, Everywhere(c, o)) {
      forall cs, ls, last | Settles(c, r, cs, ls, last) ensures exists o :: o != Nothing && Uniform(last, r, o) {
        SettlingShows(c, r, cs, ls, last, Everywhere(c, o));
        assert Uniform(last, r, o);
      }
    }
    if AlwaysAgrees(c, r) {
      var p :| p in c.nodes.Keys;
      var o := SomeOutcome(c, r, p);
      AgreeingOutcomes(c, r, p, o);
      EndsAgree(c, r, SomeEnd(c, r), p, p);
      forall q, x | q in c.nodes && Possible(c, r, q, x) ensures x == o { AgreeingOutcomes(c, r, q, x); }
      OnlyWantedIsCarrying(c, r, Everywhere(c, o));
    }
  }
}
