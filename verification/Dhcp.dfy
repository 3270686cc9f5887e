/** The lease allocator of one node: `Service` of `server-node/src/dhcp.rs`.
    `State` is the value of a `Service`; the functions say what each operation computes, and the
    methods of the class are proved against them. Clock readings are arguments. */
module Dhcp {
  import opened Wrappers
  import opened Ipv4
  import MacAddress

  type MacAddr = MacAddress.MacAddr

  /** Nanoseconds since the epoch. */
  type Time = nat

  const NANOS_PER_SECOND := 1_000_000_000

  datatype Lease = Lease(mac: MacAddr, ip: Address, expiry: Time)

  datatype CommitError = LeaseNotFound(mac: MacAddr, ip: Address)

  // ---------------------------------------------------------------- searching lists

  predicate SamePair(a: Lease, b: Lease) {
    a.mac == b.mac && a.ip == b.ip
  }

  predicate HasPair(leases: seq<Lease>, mac: MacAddr, ip: Address) {
    exists l | l in leases :: l.mac == mac && l.ip == ip
  }

  predicate Held(leases: seq<Lease>, ip: Address) {
    exists l | l in leases :: l.ip == ip
  }

  function IndexByMac(leases: seq<Lease>, mac: MacAddr): (i: nat)
    ensures i <= |leases|
    ensures i < |leases| ==> leases[i].mac == mac
    ensures forall j | 0 <= j < i :: leases[j].mac != mac
  {
    if leases == [] || leases[0].mac == mac then 0 else 1 + IndexByMac(leases[1..], mac)
  }

  function IndexByPair(leases: seq<Lease>, mac: MacAddr, ip: Address): (i: nat)
    ensures i <= |leases|
    ensures i < |leases| ==> leases[i].mac == mac && leases[i].ip == ip
    ensures forall j | 0 <= j < i :: !(leases[j].mac == mac && leases[j].ip == ip)
    ensures i < |leases| <==> HasPair(leases, mac, ip)
  {
    if leases == [] || (leases[0].mac == mac && leases[0].ip == ip) then 0
    else 1 + IndexByPair(leases[1..], mac, ip)
  }

  /** `retain(|l| l.expiry_timestamp > now)`. */
  function Retain(leases: seq<Lease>, now: Time): (kept: seq<Lease>)
    ensures forall l :: l in kept <==> l in leases && l.expiry > now
    ensures |kept| <= |leases|
  {
    if leases == [] then []
    else
      var rest := Retain(leases[..|leases| - 1], now);
      if leases[|leases| - 1].expiry > now then rest + [leases[|leases| - 1]] else rest
  }

  function FirstFree(candidates: seq<Address>, held: seq<Lease>): (k: nat)
    ensures k <= |candidates|
    ensures k < |candidates| ==> !Held(held, candidates[k])
    ensures forall j | 0 <= j < k :: Held(held, candidates[j])
  {
    if candidates == [] || !Held(held, candidates[0]) then 0
    else 1 + FirstFree(candidates[1..], held)
  }

  lemma HeldInEither(a: seq<Lease>, b: seq<Lease>, ip: Address)
    ensures Held(a + b, ip) <==> Held(a, ip) || Held(b, ip)
  {
    assert forall l :: l in a + b <==> l in a || l in b;
  }

  // ---------------------------------------------------------------- operations

  datatype Discovery = Discovery(state: State, offer: Option<Lease>)

  datatype Commitment = Commitment(state: State, result: Result<Lease, CommitError>)

  datatype State = State(pool: Ipv4Range, leaseTime: nat, leases: seq<Lease>, pending: seq<Lease>, next: Address) {
    /** Every entry, in the order in which allocation looks at them. */
    function Entries(): seq<Lease> {
      leases + pending
    }

    /** The search cursor lies in the pool or just behind it. */
    predicate CursorOk() {
      pool.start <= next <= pool.end
    }

    static function New(pool: Ipv4Range, leaseTime: nat, leases: seq<Lease>): State {
      State(pool, leaseTime, leases, [], pool.start)
    }

    function SetPool(newPool: Ipv4Range): State {
      this.(pool := newPool, next := newPool.start)
    }

    function AddLease(lease: Lease): State {
      var i := IndexByPair(leases, lease.mac, lease.ip);
      if i < |leases|
      then this.(leases := leases[i := leases[i].(expiry := lease.expiry)])
      else this.(leases := leases + [lease])
    }

    function Prune(now: Time): State {
      this.(leases := Retain(leases, now), pending := Retain(pending, now))
    }

    /** `now` is the clock reading used for pruning, `stamp` the one used for the new expiry. */
    function Discover(mac: MacAddr, now: Time, stamp: Time): Discovery {
      var i := IndexByMac(leases, mac);
      if i < |leases| then Discovery(this, Some(leases[i]))
      else
        var pruned := Prune(now);
        var candidates := IterStartingAt(pool, next);
        var k := FirstFree(candidates, pruned.Entries());
        if k == |candidates| then Discovery(pruned, None)
        else
          var lease := Lease(mac, candidates[k], stamp + leaseTime);
          Discovery(pruned.(next := candidates[k] + 1, pending := pruned.pending + [lease]), Some(lease))
    }

    function Commit(mac: MacAddr, ip: Address, now: Time): Commitment {
      var expiry := now + leaseTime;
      var p := IndexByPair(pending, mac, ip);
      var i := IndexByPair(leases, mac, ip);
      if p < |pending| then
        var lease := pending[p].(expiry := expiry);
        Commitment(this.(pending := pending[..p] + pending[p + 1..], leases := leases + [lease]), Success(lease))
      else if i < |leases| then
        var lease := leases[i].(expiry := expiry);
        Commitment(this.(leases := leases[i := lease]), Success(lease))
      else Commitment(this, Failure(LeaseNotFound(mac, ip)))
    }
  }

  /** The `lease_time` of the `DhcpOffer` sent to a client: the remaining whole seconds. `None` is
      the panic of `try_into().unwrap()`. */
  function OfferSeconds(lease: Lease, now: Time): Option<u32> {
    var seconds := if lease.expiry >= now then (lease.expiry - now) / NANOS_PER_SECOND else 0;
    if seconds < TWO_TO_32 then Some(seconds) else None
  }

  // ---------------------------------------------------------------- the service object

  class Service {
    var pool: Ipv4Range
    const leaseTime: nat
    var leases: seq<Lease>
    var pendingLeases: seq<Lease>
    var nextCandidateAddress: Address

    function View(): State
      reads this
    {
      State(pool, leaseTime, leases, pendingLeases, nextCandidateAddress)
    }

    ghost predicate Valid()
      reads this
    {
      View().CursorOk()
    }

    constructor NewWithLeases(pool: Ipv4Range, leaseTime: nat, leases: seq<Lease>)
      ensures Valid() && View() == State.New(pool, leaseTime, leases)
    {
      this.pool := pool;
      this.leaseTime := leaseTime;
      this.leases := leases;
      this.pendingLeases := [];
      this.nextCandidateAddress := pool.start;
    }

    method SetPool(pool: Ipv4Range)
      modifies this
      ensures Valid() && View() == old(View()).SetPool(pool)
    {
      this.pool := pool;
      nextCandidateAddress := this.pool.start;
    }

    method AddLease(newLease: Lease)
      requires Valid()
      modifies this`leases
      ensures Valid() && View() == old(View()).AddLease(newLease)
    {
      var i := IndexByPair(leases, newLease.mac, newLease.ip);
      if i < |leases| {
        leases := leases[i := leases[i].(expiry := newLease.expiry)];
      } else {
        leases := leases + [newLease];
      }
    }

    method DiscoverLease(mac: MacAddr, now: Time, stamp: Time) returns (offer: Option<Lease>)
      requires Valid()
      modifies this
      ensures Valid()
      ensures View() == old(View()).Discover(mac, now, stamp).state
      ensures offer == old(View()).Discover(mac, now, stamp).offer
    {
      var i := IndexByMac(leases, mac);
      if i < |leases| { return Some(leases[i]); }

      leases := Retain(leases, now);
      pendingLeases := Retain(pendingLeases, now);

      var candidates := IterStartingAt(pool, nextCandidateAddress);
      var k := SearchFree(candidates, leases, pendingLeases);
      if k == |candidates| { return None; }
      CandidateInPool(pool, nextCandidateAddress, k);

      nextCandidateAddress := candidates[k] + 1;
      var lease := Lease(mac, candidates[k], stamp + leaseTime);
      pendingLeases := pendingLeases + [lease];
      return Some(lease);
    }

    static lemma CandidateInPool(pool: Ipv4Range, cursor: Address, k: nat)
      requires pool.start <= cursor <= pool.end && k < |IterStartingAt(pool, cursor)|
      ensures pool.Contains(IterStartingAt(pool, cursor)[k])
    {
      RotationIsExact(pool, cursor);
    }

    /** The loop of `discover_lease`: skip the candidates that an entry holds. */
    static method SearchFree(candidates: seq<Address>, leases: seq<Lease>, pending: seq<Lease>) returns (k: nat)
      ensures k == FirstFree(candidates, leases + pending)
    {
      k := 0;
      while k < |candidates|
        invariant k <= FirstFree(candidates, leases + pending)
      {
        HeldInEither(leases, pending, candidates[k]);
        if !Held(leases, candidates[k]) && !Held(pending, candidates[k]) { return; }
        k := k + 1;
      }
    }

    method CommitLease(mac: MacAddr, ip: Address, now: Time) returns (result: Result<Lease, CommitError>)
      requires Valid()
      modifies this`leases, this`pendingLeases
      ensures Valid()
      ensures Commitment(View(), result) == old(View()).Commit(mac, ip, now)
    {
      var freshTimestamp := now + leaseTime;
      var p := IndexByPair(pendingLeases, mac, ip);
      if p < |pendingLeases| {
        var lease := pendingLeases[p].(expiry := freshTimestamp);
        pendingLeases := pendingLeases[..p] + pendingLeases[p + 1..];
        leases := leases + [lease];
        return Success(lease);
      }
      var i := IndexByPair(leases, mac, ip);
      if i < |leases| {
        leases := leases[i := leases[i].(expiry := freshTimestamp)];
        return Success(leases[i]);
      }
      return Failure(LeaseNotFound(mac, ip));
    }
  }
}
