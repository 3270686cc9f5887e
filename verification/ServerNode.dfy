/** One cluster node: the event handlers of `server-node/src/server.rs`.
    `Node` is the value of a `Server`. Its functions say what each handler does to the node and
    which events it sends; the methods of the class are proved against them. */
module ServerNode {
  import opened Wrappers
  import opened Ipv4
  import Dhcp

  type Id = u32

  datatype ElectionState = WaitingForElection | Coordinator | Follower

  datatype Message =
    | Join(id: Id)
    | JoinAck(id: Id)
    | Heartbeat
    | Election
    | Okay
    | Coordinator(majority: bool)
    | Lease(lease: Dhcp.Lease)
    | LeaseTable(leases: seq<Dhcp.Lease>)
    | SetPool(pool: Ipv4Range)

  /** An event on its way to a node: an election timer that will fire, or a message. */
  datatype Event =
    | ElectionTimeout(at: Id)
    | PeerMessage(to: Id, sender: Id, message: Message)

  datatype Config = Config(id: Id, peers: seq<Id>, dhcpPool: Ipv4Range, leaseTime: nat)

  /** `Crash` is a Rust panic of the event loop. */
  datatype Reaction = Crash | React(node: Node, out: seq<Event>)

  datatype Reply<+R> = Reply(node: Node, answer: Option<R>, out: seq<Event>)

  /** How the reception of a handshake went. */
  datatype Handshake = RecvFailed | Joined(peer: Id) | AckFailed | NoJoin

  /** `order` is one enumeration of the peer map. */
  ghost predicate IsOrder(order: seq<Id>, peers: set<Id>) {
    && |order| == |peers|
    && (forall i, j | 0 <= i < j < |order| :: order[i] != order[j])
    && (forall p :: p in order <==> p in peers)
  }

  // ---------------------------------------------------------------- what is sent

  function Elections(me: Id, order: seq<Id>): seq<Event> {
    if order == [] then []
    else
      var last := order[|order| - 1];
      Elections(me, order[..|order| - 1]) + if last > me then [PeerMessage(last, me, Election)] else []
  }

  function Broadcast(me: Id, order: seq<Id>, message: Message): seq<Event> {
    if order == [] then []
    else Broadcast(me, order[..|order| - 1], message) + [PeerMessage(order[|order| - 1], me, message)]
  }

  /** Pool number `i + 1` goes to the peer enumerated as number `i`. */
  function Assignments(me: Id, order: seq<Id>, pools: seq<Ipv4Range>): seq<Event>
    requires |pools| > |order|
  {
    if order == [] then []
    else
      var n := |order| - 1;
      Assignments(me, order[..n], pools) + [PeerMessage(order[n], me, SetPool(pools[n + 1]))]
  }

  function HasMajority(view: nat, configuredPeers: nat): bool {
    view > (configuredPeers + 1) / 2
  }

  // ---------------------------------------------------------------- the node

  datatype Node = Node(config: Config, coordinatorId: Option<Id>, dhcp: Dhcp.State,
                       peers: set<Id>, election: ElectionState, majority: bool) {

    static function New(config: Config): Node {
      Node(config, None, Dhcp.State.New(config.dhcpPool, config.leaseTime, []), {}, Follower, false)
    }

    function BecomeCoordinator(order: seq<Id>): Reaction {
      if |peers| + 1 >= TWO_TO_32 || |order| != |peers| then Crash
      else
        var hasMajority := HasMajority(|peers| + 1, |config.peers|);
        var pools := Divided(config.dhcpPool, |peers| + 1);
        React(
          this.(election := ElectionState.Coordinator, coordinatorId := Some(config.id),
                majority := hasMajority, dhcp := dhcp.SetPool(pools[0])),
          Broadcast(config.id, order, Message.Coordinator(hasMajority)) + Assignments(config.id, order, pools))
    }

    function StartElection(order: seq<Id>): (r: Reaction)
      ensures r.React?
    {
      React(this.(election := WaitingForElection), Elections(config.id, order) + [ElectionTimeout(config.id)])
    }

    function FinishElection(order: seq<Id>): Reaction {
      match election
      case WaitingForElection => BecomeCoordinator(order)
      case Coordinator => React(this, [])
      case Follower => React(this, [])
    }

    function HandleElection(sender: Id, order: seq<Id>): Reaction {
      if sender >= config.id then React(this, [])
      else if sender !in peers then Crash
      else
        var r := StartElection(order);
        React(r.node, [PeerMessage(sender, config.id, Okay)] + r.out)
    }

    function HandleOkay(sender: Id): Reaction {
      if sender <= config.id then Crash
      else if election.WaitingForElection? then React(this.(election := Follower), [])
      else React(this, [])
    }

    function HandleCoordinator(sender: Id, theirMajority: bool, order: seq<Id>): (r: Reaction)
      ensures r.React?
    {
      var n := this.(coordinatorId := Some(sender), election := Follower, majority := theirMajority);
      if sender < config.id then n.StartElection(order) else React(n, [])
    }

    function HandleLeaseTable(table: seq<Dhcp.Lease>): Node {
      if |dhcp.leases| < |table| then this.(dhcp := dhcp.(leases := table)) else this
    }

    function HandlePeerMessage(sender: Id, message: Message, order: seq<Id>): Reaction {
      match message
      case Heartbeat => React(this, [])
      case Election => HandleElection(sender, order)
      case Okay => HandleOkay(sender)
      case Coordinator(m) => HandleCoordinator(sender, m, order)
      case Lease(lease) => React(this.(dhcp := dhcp.AddLease(lease)), [])
      case LeaseTable(leases) => React(HandleLeaseTable(leases), [])
      case SetPool(pool) => React(this.(dhcp := dhcp.SetPool(pool)), [])
      case Join(_) => React(this, [])
      case JoinAck(_) => React(this, [])
    }

    function HandleEvent(e: Event, order: seq<Id>): Reaction {
      match e
      case ElectionTimeout(_) => FinishElection(order)
      case PeerMessage(_, sender, message) => HandlePeerMessage(sender, message, order)
    }

    // Clients.

    function HandleLeaseRequest(mac: Dhcp.MacAddr, now: Dhcp.Time, stamp: Dhcp.Time): Reply<Dhcp.Lease> {
      if !majority then Reply(this, None, [])
      else
        var d := dhcp.Discover(mac, now, stamp);
        Reply(this.(dhcp := d.state), d.offer, [])
    }

    function HandleConfirmRequest(mac: Dhcp.MacAddr, ip: Address, now: Dhcp.Time, order: seq<Id>): Reply<bool> {
      if !majority then Reply(this, None, [])
      else
        var c := dhcp.Commit(mac, ip, now);
        match c.result
        case Success(lease) =>
          Reply(this.(dhcp := c.state), Some(true), Broadcast(config.id, order, Message.Lease(lease)))
        case Failure(_) => Reply(this.(dhcp := c.state), Some(false), [])
    }

    // Membership. In each, `order` enumerates the peers as they are after the change.

    function AddPeer(peer: Id): Option<Reaction> {
      if peer in peers then None
      else Some(React(this.(peers := peers + {peer}), [PeerMessage(peer, config.id, LeaseTable(dhcp.leases))]))
    }

    function PeerEstablished(peer: Id, order: seq<Id>): Reaction {
      match AddPeer(peer)
      case None => React(this, [])
      case Some(r) =>
        var e := r.node.StartElection(order);
        React(e.node, r.out + e.out)
    }

    function AnnounceIfCoordinator(order: seq<Id>): Reaction {
      if election == ElectionState.Coordinator then BecomeCoordinator(order) else React(this, [])
    }

    function AnswerHandshake(h: Handshake, order: seq<Id>): Reaction {
      match h
      case RecvFailed => React(this, [])
      case AckFailed => AnnounceIfCoordinator(order)
      case NoJoin => AnnounceIfCoordinator(order)
      case Joined(peer) =>
        match AddPeer(peer)
        case None => Crash
        case Some(r) =>
          match r.node.AnnounceIfCoordinator(order)
          case Crash => Crash
          case React(n, out) => React(n, r.out + out)
    }

    /** The announcement and the election each enumerate the remaining peers. */
    function RemovePeer(peer: Id, announceOrder: seq<Id>, order: seq<Id>): Reaction {
      match this.(peers := peers - {peer}).AnnounceIfCoordinator(announceOrder)
      case Crash => Crash
      case React(n, out) =>
        if n.coordinatorId == Some(peer) then
          var e := n.StartElection(order);
          React(e.node, out + e.out)
        else React(n, out)
    }
  }

  /** A node and its peers. */
  function Group(n: Node): set<Id> {
    n.peers + {n.config.id}
  }

  // ---------------------------------------------------------------- the server object

  class Server {
    const config: Config
    var coordinatorId: Option<Id>
    const dhcpService: Dhcp.Service
    var peers: set<Id>
    var electionState: ElectionState
    var majority: bool

    function View(): Node
      reads this, dhcpService
    {
      Node(config, coordinatorId, dhcpService.View(), peers, electionState, majority)
    }

    ghost predicate Valid()
      reads this, dhcpService
    {
      dhcpService.Valid()
    }

    constructor (config: Config)
      ensures Valid() && fresh(dhcpService) && View() == Node.New(config)
    {
      this.config := config;
      coordinatorId := None;
      dhcpService := new Dhcp.Service.NewWithLeases(config.dhcpPool, config.leaseTime, []);
      peers := {};
      electionState := Follower;
      majority := false;
    }

    /** An arbitrary enumeration of the peer map. */
    method PeerOrder() returns (order: seq<Id>)
      ensures IsOrder(order, peers)
    {
      order := [];
      var rest := peers;
      while rest != {}
        invariant rest <= peers && IsOrder(order, peers - rest)
        decreases |rest|
      {
        var p :| p in rest;
        assert peers - (rest - {p}) == (peers - rest) + {p};
        order := order + [p];
        rest := rest - {p};
      }
      assert peers - rest == peers;
    }

    method BecomeCoordinator() returns (out: seq<Event>, ghost order: seq<Id>)
      requires Valid() && |peers| + 1 < TWO_TO_32
      modifies this, dhcpService
      ensures Valid() && IsOrder(order, peers)
      ensures React(View(), out) == old(View()).BecomeCoordinator(order)
    {
      electionState := ElectionState.Coordinator;
      coordinatorId := Some(config.id);
      var hasMajority := |peers| + 1 > (|config.peers| + 1) / 2;
      HandleMajority(hasMajority);

      var values := PeerOrder();
      order := values;
      out := SendAll(values, Message.Coordinator(hasMajority));

      var pools := Divide(config.dhcpPool, |peers| + 1);
      dhcpService.SetPool(pools[0]);

      var shares := Assign(values, pools);
      out := out + shares;
    }

    /** The loop that sends a message to every peer. */
    method SendAll(values: seq<Id>, message: Message) returns (out: seq<Event>)
      ensures out == Broadcast(config.id, values, message)
    {
      out := [];
      for i := 0 to |values|
        invariant out == Broadcast(config.id, values[..i], message)
      {
        assert values[..i + 1][..i] == values[..i];
        out := out + [PeerMessage(values[i], config.id, message)];
      }
      assert values[..|values|] == values;
    }

    /** The loop over the remaining pools and the peers, side by side. */
    method Assign(values: seq<Id>, pools: seq<Ipv4Range>) returns (out: seq<Event>)
      requires |pools| > |values|
      ensures out == Assignments(config.id, values, pools)
    {
      out := [];
      for i := 0 to |values|
        invariant out == Assignments(config.id, values[..i], pools)
      {
        assert values[..i + 1][..i] == values[..i];
        out := out + [PeerMessage(values[i], config.id, SetPool(pools[i + 1]))];
      }
      assert values[..|values|] == values;
    }

    method StartElection() returns (out: seq<Event>, ghost order: seq<Id>)
      modifies this`electionState
      ensures IsOrder(order, peers)
      ensures React(View(), out) == old(View()).StartElection(order)
    {
      electionState := WaitingForElection;
      var keys := PeerOrder();
      order := keys;
      out := [];
      for i := 0 to |keys|
        invariant out == Elections(config.id, keys[..i])
      {
        assert keys[..i + 1][..i] == keys[..i];
        if keys[i] > config.id {
          out := out + [PeerMessage(keys[i], config.id, Election)];
        }
      }
      assert keys[..|keys|] == keys;
      out := out + [ElectionTimeout(config.id)];
    }

    method FinishElection() returns (out: seq<Event>, ghost order: seq<Id>)
      requires Valid() && |peers| + 1 < TWO_TO_32
      modifies this, dhcpService
      ensures Valid() && IsOrder(order, peers)
      ensures React(View(), out) == old(View()).FinishElection(order)
    {
      match electionState {
        case WaitingForElection => out, order := BecomeCoordinator();
        case Coordinator => out := []; order := PeerOrder();
        case Follower => out := []; order := PeerOrder();
      }
    }

    method HandleElection(sender: Id) returns (out: seq<Event>, ghost order: seq<Id>)
      requires sender < config.id ==> sender in peers
      modifies this`electionState
      ensures IsOrder(order, peers)
      ensures React(View(), out) == old(View()).HandleElection(sender, order)
    {
      if sender < config.id {
        out, order := StartElection();
        out := [PeerMessage(sender, config.id, Okay)] + out;
      } else {
        out := [];
        order := PeerOrder();
      }
    }

    method HandleOkay(sender: Id)
      requires sender > config.id
      modifies this`electionState
      ensures React(View(), []) == old(View()).HandleOkay(sender)
    {
      if electionState == WaitingForElection {
        electionState := Follower;
      }
    }

    method HandleCoordinator(sender: Id, theirMajority: bool) returns (out: seq<Event>, ghost order: seq<Id>)
      modifies this
      ensures peers == old(peers) && IsOrder(order, peers)
      ensures React(View(), out) == old(View()).HandleCoordinator(sender, theirMajority, order)
    {
      coordinatorId := Some(sender);
      electionState := Follower;
      HandleMajority(theirMajority);
      if sender < config.id {
        out, order := StartElection();
      } else {
        out := [];
        order := PeerOrder();
      }
    }

    method HandleMajority(newMajority: bool)
      modifies this`majority
      ensures majority == newMajority
    {
      if majority != newMajority {
        majority := newMajority;
      }
    }

    method HandlePeerMessage(sender: Id, message: Message) returns (out: seq<Event>, ghost order: seq<Id>)
      requires Valid()
      requires message.Election? && sender < config.id ==> sender in peers
      requires message.Okay? ==> sender > config.id
      modifies this, dhcpService
      ensures Valid() && IsOrder(order, peers)
      ensures React(View(), out) == old(View()).HandlePeerMessage(sender, message, order)
    {
      order := PeerOrder();
      out := [];
      match message {
        case Heartbeat =>
        case Election => out, order := HandleElection(sender);
        case Okay => HandleOkay(sender);
        case Coordinator(m) => out, order := HandleCoordinator(sender, m);
        case Lease(lease) => dhcpService.AddLease(lease);
        case LeaseTable(leases) =>
          if |dhcpService.leases| < |leases| {
            dhcpService.leases := leases;
          }
        case SetPool(pool) => dhcpService.SetPool(pool);
        case Join(_) =>
        case JoinAck(_) =>
      }
    }

    method HandleLeaseRequest(mac: Dhcp.MacAddr, now: Dhcp.Time, stamp: Dhcp.Time) returns (offer: Option<Dhcp.Lease>)
      requires Valid()
      modifies dhcpService
      ensures Valid()
      ensures Reply(View(), offer, []) == old(View()).HandleLeaseRequest(mac, now, stamp)
    {
      if !majority { return None; }
      offer := dhcpService.DiscoverLease(mac, now, stamp);
    }

    method HandleConfirmRequest(mac: Dhcp.MacAddr, ip: Address, now: Dhcp.Time)
      returns (confirmed: Option<bool>, out: seq<Event>, ghost order: seq<Id>)
      requires Valid()
      modifies dhcpService
      ensures Valid() && IsOrder(order, peers)
      ensures Reply(View(), confirmed, out) == old(View()).HandleConfirmRequest(mac, ip, now, order)
    {
      var values := PeerOrder();
      order := values;
      out := [];
      if !majority { return None, out, order; }
      var result := dhcpService.CommitLease(mac, ip, now);
      match result {
        case Success(lease) =>
          confirmed := Some(true);
          out := SendAll(values, Message.Lease(lease));
        case Failure(_) =>
          confirmed := Some(false);
      }
    }

    method AddPeer(peer: Id) returns (ok: bool, out: seq<Event>)
      modifies this`peers
      ensures match old(View()).AddPeer(peer)
              case None => !ok && View() == old(View())
              case Some(r) => ok && r == React(View(), out)
    {
      if peer in peers { return false, []; }
      peers := peers + {peer};
      return true, [PeerMessage(peer, config.id, LeaseTable(dhcpService.leases))];
    }

    method AnnounceIfCoordinator() returns (out: seq<Event>, ghost order: seq<Id>)
      requires Valid() && |peers| + 1 < TWO_TO_32
      modifies this, dhcpService
      ensures Valid() && peers == old(peers) && IsOrder(order, peers)
      ensures React(View(), out) == old(View()).AnnounceIfCoordinator(order)
    {
      if electionState == ElectionState.Coordinator {
        out, order := BecomeCoordinator();
      } else {
        out := [];
        order := PeerOrder();
      }
    }

    method PeerEstablished(peer: Id) returns (out: seq<Event>, ghost order: seq<Id>)
      modifies this
      ensures IsOrder(order, peers)
      ensures React(View(), out) == old(View()).PeerEstablished(peer, order)
    {
      var ok, hello := AddPeer(peer);
      if ok {
        out, order := StartElection();
        out := hello + out;
      } else {
        out := [];
        order := PeerOrder();
      }
    }

    method AnswerHandshake(h: Handshake) returns (out: seq<Event>, ghost order: seq<Id>)
      requires Valid() && |peers| + 2 < TWO_TO_32
      requires h.Joined? ==> h.peer !in peers
      modifies this, dhcpService
      ensures Valid() && IsOrder(order, peers)
      ensures React(View(), out) == old(View()).AnswerHandshake(h, order)
    {
      if h.RecvFailed? {
        out := [];
        order := PeerOrder();
        return;
      }
      var hello := [];
      if h.Joined? {
        var ok;
        ok, hello := AddPeer(h.peer);
      }
      out, order := AnnounceIfCoordinator();
      out := hello + out;
    }

    method RemovePeer(peer: Id) returns (out: seq<Event>, ghost announceOrder: seq<Id>, ghost order: seq<Id>)
      requires Valid() && |peers| + 1 < TWO_TO_32
      modifies this, dhcpService
      ensures Valid() && IsOrder(announceOrder, peers) && IsOrder(order, peers)
      ensures React(View(), out) == old(View()).RemovePeer(peer, announceOrder, order)
    {
      peers := peers - {peer};
      out, announceOrder := AnnounceIfCoordinator();
      order := announceOrder;
      if coordinatorId == Some(peer) {
        var more;
        more, order := StartElection();
        out := out + more;
      }
    }
  }
}
