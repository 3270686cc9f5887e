/** Who knows which leases: the abstract protocol by which nodes with disjoint pools allocate
    addresses and tell each other, and which of its changes keep every address bound once. */
module LeaseLedger {
  import opened Wrappers
  import opened Ipv4
  import Dhcp
  import ServerNode

  type Id = ServerNode.Id

  /** A MAC bound to an address. */
  datatype Pair = Pair(mac: Dhcp.MacAddr, ip: Address)

  /** A pair on its way from one node to another. */
  datatype Notice = Notice(sender: Id, to: Id, pair: Pair)

  /** `sent` are the leases on their way, and `copied` the entries of whole tables on their way. */
  datatype Ledger = Ledger(pools: map<Id, Ipv4Range>, leased: map<Id, set<Pair>>, offered: map<Id, set<Pair>>,
                           sent: set<Notice>, copied: set<Notice>)

  ghost predicate SameNodes(k: Ledger) {
    k.leased.Keys == k.pools.Keys && k.offered.Keys == k.pools.Keys
  }

  ghost predicate Disjoint(pools: map<Id, Ipv4Range>) {
    forall p, q, a: Address | p in pools && q in pools && pools[p].Contains(a) && pools[q].Contains(a) :: p == q
  }

  // ---------------------------------------------------------------- changes

  datatype Change =
    | Quiet                                                   // nothing, or a table arrives that is not longer
    | Receive(notice: Notice)                                 // a lease arrives
    | Confirm(pair: Pair)                                     // a pair is committed, and others are told
    | Request(kept: set<Pair>, offer: Option<Pair>)           // offers other than `kept` are pruned
    | Copy                                                    // the table is sent to someone
    | Replace(table: set<Pair>)                               // a longer table arrives

  /** Nothing happens except at node `at`. */
  ghost predicate OnlyAt(k: Ledger, at: Id, k': Ledger) {
    && SameNodes(k) && at in k.pools && k'.pools == k.pools
    && SameNodes(k') && k'.leased == k.leased[at := k'.leased[at]] && k'.offered == k.offered[at := k'.offered[at]]
  }

  /** How the ledger changes; `mesh` says that everyone is connected to everyone. */
  ghost predicate Changes(k: Ledger, at: Id, ch: Change, k': Ledger, mesh: bool) {
    && OnlyAt(k, at, k')
    && match ch
       case Quiet =>
         k'.leased == k.leased && k'.offered == k.offered && k'.sent == k.sent && k'.copied <= k.copied
       case Receive(m) =>
         && k'.leased[at] == k.leased[at] + {m.pair} && k'.offered[at] <= k.offered[at]
         && m in k.sent && m.to == at && k'.sent <= k.sent <= k'.sent + {m} && k'.copied == k.copied
       case Confirm(x) =>
         && x in k.leased[at] + k.offered[at]
         && k'.leased[at] == k.leased[at] + {x} && k'.offered[at] <= k.offered[at]
         && k.sent <= k'.sent && k'.copied == k.copied
         && (forall m | m in k'.sent :: m in k.sent || m.pair == x)
         && (mesh ==> forall j | j in k.pools && j != at :: OnItsWay(k', j, x))
       case Request(kept, offer) =>
         && k'.leased[at] <= k.leased[at] && kept <= k.offered[at] && k'.sent == k.sent && k'.copied == k.copied
         && k'.offered[at] == kept + (if offer.Some? then {offer.value} else {})
         && (offer.Some? ==> IsFree(k.pools[at], k'.leased[at] + kept, offer.value.ip))
       case Copy =>
         && k'.leased == k.leased && k'.offered == k.offered && k'.sent == k.sent
         && forall m | m in k'.copied :: m in k.copied || m.pair in k.leased[at]
       case Replace(table) =>
         && k'.leased[at] == table && k'.offered == k.offered && k'.sent == k.sent && k'.copied <= k.copied
         && forall x | x in table :: exists m :: m in k.copied && m.pair == x
  }

  predicate IsOffered(ch: Change, x: Pair) {
    ch.Request? && ch.offer == Some(x)
  }

  ghost predicate IsFree(pool: Ipv4Range, entries: set<Pair>, ip: Address) {
    pool.Contains(ip) && forall y | y in entries :: y.ip != ip
  }

  // ---------------------------------------------------------------- uniqueness

  ghost predicate LeasedSomewhere(k: Ledger, x: Pair)
    requires SameNodes(k)
  {
    exists p :: p in k.pools && x in k.leased[p]
  }

  ghost predicate OfferedSomewhere(k: Ledger, x: Pair)
    requires SameNodes(k)
  {
    exists p :: p in k.pools && x in k.offered[p]
  }

  /** The pair is on its way to someone. */
  ghost predicate Travels(k: Ledger, x: Pair) {
    exists m :: m in k.sent + k.copied && m.pair == x
  }

  /** Every pair that any node has leased or offered, or that is on its way. */
  ghost predicate Known(k: Ledger, x: Pair)
    requires SameNodes(k)
  {
    LeasedSomewhere(k, x) || OfferedSomewhere(k, x) || Travels(k, x)
  }

  /** No address is bound to two MACs anywhere. */
  ghost predicate NoDoubleBinding(k: Ledger)
    requires SameNodes(k)
  {
    forall x, y | Known(k, x) && Known(k, y) && x.ip == y.ip :: x == y
  }

  /** The pair is still leased at another node, or on its way. */
  ghost predicate Elsewhere(k: Ledger, at: Id, x: Pair)
    requires SameNodes(k)
  {
    Travels(k, x) || exists q :: q in k.pools && q != at && x in k.leased[q]
  }

  ghost predicate OffersOwn(k: Ledger)
    requires SameNodes(k)
  {
    forall p, x | p in k.pools && x in k.offered[p] :: k.pools[p].Contains(x.ip)
  }

  /** Disjoint pools, offers from the own pool, and no address bound twice. */
  ghost predicate Guarded(k: Ledger) {
    SameNodes(k) && Disjoint(k.pools) && OffersOwn(k) && NoDoubleBinding(k)
  }

  /** Nobody else knows the address offered as that of another MAC. */
  ghost predicate Harmless(k: Ledger, at: Id, ch: Change)
    requires SameNodes(k)
  {
    ch.Request? && ch.offer.Some? ==> forall y | Elsewhere(k, at, y) && y.ip == ch.offer.value.ip :: y == ch.offer.value
  }

  lemma OffersStayOwn(k: Ledger, at: Id, ch: Change, k': Ledger, mesh: bool)
    requires Changes(k, at, ch, k', mesh) && OffersOwn(k)
    ensures OffersOwn(k')
  {
  }

  lemma LeasedBefore(k: Ledger, at: Id, ch: Change, k': Ledger, mesh: bool, x: Pair)
    requires Changes(k, at, ch, k', mesh) && LeasedSomewhere(k', x)
    ensures Known(k, x)
  {
    var p :| p in k'.pools && x in k'.leased[p];
    if p != at || x in k.leased[p] {
      assert LeasedSomewhere(k, x);
    } else if ch.Receive? {
      assert ch.notice in k.sent + k.copied;
    } else if ch.Replace? {
      var m :| m in k.copied && m.pair == x;
      assert m in k.sent + k.copied;
    } else {
      assert x in k.offered[at];
    }
  }

  lemma TravelledBefore(k: Ledger, at: Id, ch: Change, k': Ledger, mesh: bool, x: Pair)
    requires Changes(k, at, ch, k', mesh) && Travels(k', x)
    ensures Known(k, x)
  {
    var m :| m in k'.sent + k'.copied && m.pair == x;
    if m in k.sent + k.copied {
      assert Travels(k, x);
    } else {
      assert x in k.leased[at] || x in k.offered[at];
    }
  }

  /** Whatever is known after a change was known before, but for the pair offered. */
  lemma KnownBefore(k: Ledger, at: Id, ch: Change, k': Ledger, mesh: bool, x: Pair)
    requires Changes(k, at, ch, k', mesh) && Known(k', x)
    ensures Known(k, x) || IsOffered(ch, x)
  {
    if LeasedSomewhere(k', x) {
      LeasedBefore(k, at, ch, k', mesh, x);
    } else if Travels(k', x) {
      TravelledBefore(k, at, ch, k', mesh, x);
    } else {
      var p :| p in k'.pools && x in k'.offered[p];
      assert x in k.offered[p] || IsOffered(ch, x);
    }
  }

  /** Something else of the address offered is known afterwards only if it is elsewhere. */
  lemma OldPairIsElsewhere(k: Ledger, at: Id, ch: Change, k': Ledger, mesh: bool, y: Pair)
    requires Disjoint(k.pools) && SameNodes(k) && OffersOwn(k) && Changes(k, at, ch, k', mesh)
    requires ch.Request? && ch.offer.Some? && y.ip == ch.offer.value.ip && y != ch.offer.value && Known(k', y)
    ensures Elsewhere(k, at, y)
  {
    if LeasedSomewhere(k', y) {
      var p :| p in k'.pools && y in k'.leased[p];
      assert p != at && y in k.leased[p];
    }
  }

  lemma ElsewhereStaysKnown(k: Ledger, at: Id, ch: Change, k': Ledger, mesh: bool, y: Pair)
    requires Changes(k, at, ch, k', mesh) && ch.Request? && Elsewhere(k, at, y)
    ensures Known(k', y)
  {
    if q :| q in k.pools && q != at && y in k.leased[q] {
      assert y in k'.leased[q];
      assert LeasedSomewhere(k', y);
    } else {
      assert Travels(k', y);
    }
  }

  /** A change keeps every address bound once if and only if it is harmless. */
  lemma GuardedIff(k: Ledger, at: Id, ch: Change, k': Ledger, mesh: bool)
    requires Guarded(k) && Changes(k, at, ch, k', mesh)
    ensures Guarded(k') <==> NoDoubleBinding(k')
    ensures NoDoubleBinding(k') <==> Harmless(k, at, ch)
  {
    OffersStayOwn(k, at, ch, k', mesh);
    if Harmless(k, at, ch) {
      HarmlessKeepsUnique(k, at, ch, k', mesh);
    } else {
      var y :| Elsewhere(k, at, y) && y.ip == ch.offer.value.ip && y != ch.offer.value;
      ElsewhereStaysKnown(k, at, ch, k', mesh, y);
      assert ch.offer.value in k'.offered[at];
      assert OfferedSomewhere(k', ch.offer.value);
    }
  }

  lemma HarmlessKeepsUnique(k: Ledger, at: Id, ch: Change, k': Ledger, mesh: bool)
    requires Guarded(k) && Changes(k, at, ch, k', mesh) && Harmless(k, at, ch)
    ensures NoDoubleBinding(k')
  {
    forall x, y | Known(k', x) && Known(k', y) && x.ip == y.ip ensures x == y {
      KnownBefore(k, at, ch, k', mesh, x);
      KnownBefore(k, at, ch, k', mesh, y);
      if x != y && !Known(k, x) { OldPairIsElsewhere(k, at, ch, k', mesh, y); }
      if x != y && !Known(k, y) { OldPairIsElsewhere(k, at, ch, k', mesh, x); }
    }
  }

  // ---------------------------------------------------------------- owners

  /** The owner of the pair's address has leased it. */
  ghost predicate OwnerHas(k: Ledger, x: Pair)
    requires SameNodes(k)
  {
    exists o :: o in k.pools && k.pools[o].Contains(x.ip) && x in k.leased[o]
  }

  /** The owner of an address has bound it to at most one MAC. */
  ghost predicate OwnerIsSure(k: Ledger, o: Id)
    requires SameNodes(k) && o in k.pools
  {
    forall x, y | x in k.leased[o] + k.offered[o] && y in k.leased[o] + k.offered[o] && x.ip == y.ip && k.pools[o].Contains(x.ip) ::
      x == y
  }

  /** Owners know every lease of their addresses, and bind each of them at most once. */
  ghost predicate Sound(k: Ledger) {
    && SameNodes(k) && Disjoint(k.pools) && OffersOwn(k)
    && (forall x | LeasedSomewhere(k, x) || Travels(k, x) :: OwnerHas(k, x))
    && (forall p | p in k.pools :: OwnerIsSure(k, p))
  }

  lemma KnownHasOwner(k: Ledger, x: Pair) returns (o: Id)
    requires Sound(k) && Known(k, x)
    ensures o in k.pools && k.pools[o].Contains(x.ip) && x in k.leased[o] + k.offered[o]
  {
    if p :| p in k.pools && x in k.offered[p] {
      return p;
    } else {
      assert OwnerHas(k, x);
      o :| o in k.pools && k.pools[o].Contains(x.ip) && x in k.leased[o];
    }
  }

  lemma SoundIsSafe(k: Ledger)
    requires Sound(k)
    ensures Guarded(k)
  {
    forall x, y | Known(k, x) && Known(k, y) && x.ip == y.ip ensures x == y {
      var o := KnownHasOwner(k, x);
      var o' := KnownHasOwner(k, y);
      assert o == o' && OwnerIsSure(k, o);
    }
  }

  /** The node forgets no lease of its own pool that is still elsewhere. */
  ghost predicate Careful(k: Ledger, at: Id, k': Ledger)
    requires SameNodes(k) && SameNodes(k') && at in k.pools && at in k'.pools
  {
    forall y | y in k.leased[at] && y !in k'.leased[at] && k.pools[at].Contains(y.ip) :: !Elsewhere(k', at, y)
  }

  lemma OwnerKeeps(k: Ledger, at: Id, k': Ledger, x: Pair)
    requires OnlyAt(k, at, k') && OwnerHas(k, x) && (k.pools[at].Contains(x.ip) ==> x in k.leased[at] ==> x in k'.leased[at])
    ensures OwnerHas(k', x)
  {
    var o :| o in k.pools && k.pools[o].Contains(x.ip) && x in k.leased[o];
    assert x in k'.leased[o];
  }

  /** What `at` leases afterwards is owned afterwards. */
  lemma OwnLeasesAreOwned(k: Ledger, at: Id, ch: Change, k': Ledger, mesh: bool, x: Pair)
    requires Sound(k) && Changes(k, at, ch, k', mesh) && x in k'.leased[at]
    ensures OwnerHas(k', x)
  {
    assert LeasedSomewhere(k', x);
    LeasedBefore(k, at, ch, k', mesh, x);
    if LeasedSomewhere(k, x) || Travels(k, x) {
      assert OwnerHas(k, x);
      OwnerKeeps(k, at, k', x);
    } else {
      var p :| p in k.pools && x in k.offered[p];
      OfferedIsOnlyHere(k, at, ch, k', mesh, x);
      assert k.pools[at].Contains(x.ip);
    }
  }

  lemma OfferedIsOnlyHere(k: Ledger, at: Id, ch: Change, k': Ledger, mesh: bool, x: Pair)
    requires Changes(k, at, ch, k', mesh) && x in k'.leased[at] && !LeasedSomewhere(k, x) && !Travels(k, x)
    ensures x in k.offered[at]
  {
    assert forall m | m in k.sent || m in k.copied :: m in k.sent + k.copied;
  }

  lemma CarefulKeepsOwned(k: Ledger, at: Id, ch: Change, k': Ledger, mesh: bool, x: Pair)
    requires Sound(k) && Changes(k, at, ch, k', mesh) && Careful(k, at, k')
    requires LeasedSomewhere(k', x) || Travels(k', x)
    ensures OwnerHas(k', x)
  {
    if x in k'.leased[at] {
      OwnLeasesAreOwned(k, at, ch, k', mesh, x);
    } else {
      assert Elsewhere(k', at, x) by {
        if p :| p in k'.pools && x in k'.leased[p] { assert p != at; }
      }
      ElsewhereWasOwned(k, at, ch, k', mesh, x);
      OwnerKeeps(k, at, k', x);
    }
  }

  lemma ElsewhereWasOwned(k: Ledger, at: Id, ch: Change, k': Ledger, mesh: bool, x: Pair)
    requires Sound(k) && Changes(k, at, ch, k', mesh) && Elsewhere(k', at, x) && x !in k'.leased[at]
    ensures OwnerHas(k, x)
  {
    if Travels(k', x) {
      var m :| m in k'.sent + k'.copied && m.pair == x;
      assert m in k.sent + k.copied;
    } else {
      var q :| q in k'.pools && q != at && x in k'.leased[q];
      assert LeasedSomewhere(k, x);
    }
  }

  /** What a node knows of its own pool after a change it knew before, but for the pair offered. */
  lemma OwnBefore(k: Ledger, at: Id, ch: Change, k': Ledger, mesh: bool, x: Pair)
    requires Sound(k) && Changes(k, at, ch, k', mesh)
    requires x in k'.leased[at] + k'.offered[at] && k.pools[at].Contains(x.ip)
    ensures x in k.leased[at] + k.offered[at] || IsOffered(ch, x)
  {
    if x in k'.leased[at] && x !in k.leased[at] + k.offered[at] {
      assert LeasedSomewhere(k', x);
      LeasedBefore(k, at, ch, k', mesh, x);
      var o := KnownHasOwner(k, x);
    }
  }

  lemma ChangeKeepsSure(k: Ledger, at: Id, ch: Change, k': Ledger, mesh: bool, p: Id)
    requires Sound(k) && Changes(k, at, ch, k', mesh) && p in k.pools
    ensures OwnerIsSure(k', p)
  {
    assert OwnerIsSure(k, p);
    if p == at {
      forall x, y | x in k'.leased[p] + k'.offered[p] && y in k'.leased[p] + k'.offered[p] && x.ip == y.ip && k.pools[p].Contains(x.ip)
        ensures x == y
      {
        OwnBefore(k, at, ch, k', mesh, x);
        OwnBefore(k, at, ch, k', mesh, y);
      }
    } else {
      assert k'.leased[p] == k.leased[p] && k'.offered[p] == k.offered[p];
    }
  }

  /** A change keeps owners informed if and only if it is careful. */
  lemma SoundIff(k: Ledger, at: Id, ch: Change, k': Ledger, mesh: bool)
    requires Sound(k) && Changes(k, at, ch, k', mesh)
    ensures Sound(k') <==> Careful(k, at, k')
  {
    if Careful(k, at, k') { CarefulKeepsSound(k, at, ch, k', mesh); }
    if Sound(k') { SoundIsCareful(k, at, k'); }
  }

  lemma SoundIsCareful(k: Ledger, at: Id, k': Ledger)
    requires OnlyAt(k, at, k') && Sound(k')
    ensures Careful(k, at, k')
  {
    assert forall y | Elsewhere(k', at, y) :: LeasedSomewhere(k', y) || Travels(k', y);
  }

  lemma CarefulKeepsSound(k: Ledger, at: Id, ch: Change, k': Ledger, mesh: bool)
    requires Sound(k) && Changes(k, at, ch, k', mesh) && Careful(k, at, k')
    ensures Sound(k')
  {
    OffersStayOwn(k, at, ch, k', mesh);
    forall x | LeasedSomewhere(k', x) || Travels(k', x) ensures OwnerHas(k', x) {
      CarefulKeepsOwned(k, at, ch, k', mesh, x);
    }
    forall p | p in k'.pools ensures OwnerIsSure(k', p) { ChangeKeepsSure(k, at, ch, k', mesh, p); }
  }

  // ---------------------------------------------------------------- convergence

  ghost predicate OnItsWay(k: Ledger, to: Id, x: Pair) {
    exists m :: m in k.sent && m.to == to && m.pair == x
  }

  /** Whatever travels is leased somewhere, and whatever one node has leased, every other node has
      leased too, or will be told. */
  ghost predicate Spreads(k: Ledger) {
    && SameNodes(k)
    && (forall x | Travels(k, x) :: LeasedSomewhere(k, x))
    && (forall j, x | j in k.pools && LeasedSomewhere(k, x) :: x in k.leased[j] || OnItsWay(k, j, x))
  }

  /** The node forgets nothing. */
  ghost predicate Retains(k: Ledger, at: Id, k': Ledger)
    requires at in k.leased && at in k'.leased
  {
    k.leased[at] <= k'.leased[at]
  }

  lemma RetainsSomewhere(k: Ledger, at: Id, k': Ledger, x: Pair)
    requires OnlyAt(k, at, k') && Retains(k, at, k') && LeasedSomewhere(k, x)
    ensures LeasedSomewhere(k', x)
  {
    var p :| p in k.pools && x in k.leased[p];
    assert x in k'.leased[p];
  }

  lemma TravelsIsLeased(k: Ledger, at: Id, ch: Change, k': Ledger, mesh: bool, x: Pair)
    requires Spreads(k) && Changes(k, at, ch, k', mesh) && Retains(k, at, k') && Travels(k', x)
    ensures LeasedSomewhere(k', x)
  {
    var m :| m in k'.sent + k'.copied && m.pair == x;
    if m in k.sent + k.copied {
      assert Travels(k, x);
      RetainsSomewhere(k, at, k', x);
    } else {
      assert x in k'.leased[at];
    }
  }

  /** Notices disappear only by being taken in. */
  lemma NoticesStay(k: Ledger, at: Id, ch: Change, k': Ledger, mesh: bool, j: Id, x: Pair)
    requires Changes(k, at, ch, k', mesh) && OnItsWay(k, j, x)
    ensures (x in k'.leased[at] && j == at) || OnItsWay(k', j, x)
  {
    var m :| m in k.sent && m.to == j && m.pair == x;
    assert m in k'.sent || (ch.Receive? && m == ch.notice);
  }

  lemma NewlyLeased(k: Ledger, at: Id, ch: Change, k': Ledger, mesh: bool, x: Pair)
    requires Spreads(k) && Changes(k, at, ch, k', mesh) && LeasedSomewhere(k', x) && !LeasedSomewhere(k, x)
    ensures ch == Confirm(x) && x in k'.leased[at]
  {
    var p :| p in k'.pools && x in k'.leased[p];
    assert x !in k.leased[p] && !Travels(k, x);
    assert forall m | m in k.sent || m in k.copied :: m in k.sent + k.copied;
  }

  /** As long as nothing is forgotten, leases spread to everyone. */
  lemma RetainingKeepsSpreading(k: Ledger, at: Id, ch: Change, k': Ledger)
    requires Spreads(k) && Changes(k, at, ch, k', true) && Retains(k, at, k')
    ensures Spreads(k')
  {
    forall x | Travels(k', x) ensures LeasedSomewhere(k', x) { TravelsIsLeased(k, at, ch, k', true, x); }
    forall j, x | j in k'.pools && LeasedSomewhere(k', x) ensures x in k'.leased[j] || OnItsWay(k', j, x) {
      if LeasedSomewhere(k, x) {
        if x !in k.leased[j] { NoticesStay(k, at, ch, k', true, j, x); }
      } else {
        NewlyLeased(k, at, ch, k', true, x);
      }
    }
  }

  lemma QuietMeansEqual(k: Ledger, i: Id, j: Id)
    requires Spreads(k) && k.sent == {} && i in k.pools && j in k.pools
    ensures k.leased[i] == k.leased[j]
  {
    assert forall x | x in k.leased[i] || x in k.leased[j] :: LeasedSomewhere(k, x);
  }
}
