/** One node of the chat server as it runs: connections whose room sets are changed
    in place, above the room manager. Every handler is proved to be the step of
    `RoomModel`, and delivery to be the loop of `Delivery`. */
module RoomServerObjects {
  import opened Wrappers
  import opened RoomModel
  import opened RoomLaws
  import opened RoomManagerObjects
  import Channels
  import D = Delivery

  class Connection {
    const connectionId: ConnId
    const userId: UserId
    var rooms: set<RoomId>
    var open: bool  // `readyState` is OPEN
    var received: seq<D.Parcel>

    constructor (connectionId: ConnId, userId: UserId)
      ensures this.connectionId == connectionId && this.userId == userId
      ensures rooms == {} && open && received == []
    {
      this.connectionId, this.userId := connectionId, userId;
      rooms, open, received := {}, true, [];
    }
  }

  class Server {
    const manager: RoomManager
    var connections: map<ConnId, Connection>
    var isShuttingDown: bool
    ghost var declared: set<RoomId>

    constructor (limits: Limits)
      ensures fresh(manager) && manager.limits == limits && Bound() && Abs() == EMPTY && !isShuttingDown
    {
      manager := new RoomManager(limits);
      connections, isShuttingDown, declared := map[], false, {};
      new;
      assert Sessions() == map[];
    }

    ghost function Sessions(): map<ConnId, Session>
      reads this`connections, connections.Values
    {
      map c | c in connections :: Session(connections[c].userId, connections[c].rooms)
    }

    ghost function Endpoints(): map<ConnId, D.Endpoint>
      reads this`connections, connections.Values
    {
      map c | c in connections :: D.Endpoint(connections[c].rooms, connections[c].open, connections[c].received)
    }

    ghost function Abs(): Node
      reads this, connections.Values, manager, manager.localRooms.Values
    {
      Node(manager.Abs(), Sessions(), declared)
    }

    /** Objects are filed under their own ids. */
    ghost predicate Bound()
      reads this`connections, manager`localRooms
    {
      manager.Filed() && forall c :: c in connections ==> connections[c].connectionId == c
    }

    ghost predicate Live(conn: Connection)
      reads this`connections
    {
      conn.connectionId in connections && connections[conn.connectionId] == conn
    }

    lemma SizeOfSessions()
      ensures |connections| == |Sessions()|
    {
      assert connections.Keys == Sessions().Keys;
    }

    twostate lemma SessionsKept()
      requires connections == old(connections)
      requires forall c :: c in connections ==> connections[c].rooms == old(connections[c].rooms)
      ensures Sessions() == old(Sessions())
    {}

    // ---- Connections -----------------------------------------------------------------

    method AddConnection(connectionId: ConnId, userId: UserId)
      requires Bound()
      modifies this`connections
      ensures Bound()
      ensures Sessions() == old(Sessions())[connectionId := Session(userId, {})]
    {
      var conn := new Connection(connectionId, userId);
      connections := connections[connectionId := conn];
    }

    method HandleConnection(connectionId: ConnId, userId: UserId)
      requires Bound()
      modifies this`connections
      ensures Bound() && Abs() == OpenStep(manager.limits, old(Abs()), connectionId, userId, isShuttingDown)
    {
      if isShuttingDown {
        return;
      }
      SizeOfSessions();
      if |connections| >= manager.limits.maxConnectionsPerNode {
        return;
      }
      AddConnection(connectionId, userId);
    }

    method SetClosing(conn: Connection)
      requires Bound() && Live(conn)
      modifies conn`open
      ensures Sessions() == old(Sessions())
      ensures Endpoints() == old(Endpoints())[conn.connectionId := old(Endpoints())[conn.connectionId].(open := false)]
    {
      conn.open := false;
    }

    /** The socket starts to close; the connection stays until the close event. */
    method HandleClosing(conn: Connection)
      requires Bound() && Live(conn)
      modifies conn`open
      ensures Abs() == old(Abs())
      ensures Endpoints() == old(Endpoints())[conn.connectionId := old(Endpoints())[conn.connectionId].(open := false)]
    {
      SetClosing(conn);
    }

    method Shutdown()
      modifies this`isShuttingDown
      ensures isShuttingDown && Abs() == old(Abs())
    {
      isShuttingDown := true;
    }

    /** `state.rooms.add` and `state.rooms.delete`. */
    method SetRooms(conn: Connection, rooms: set<RoomId>)
      requires Bound() && Live(conn)
      modifies conn`rooms
      ensures Sessions() == old(Sessions())[conn.connectionId := Session(conn.userId, rooms)]
    {
      conn.rooms := rooms;
    }

    // ---- Rooms -------------------------------------------------------------------------

    method CreateOne(roomId: RoomId, info: RoomInfo) returns (result: Result)
      requires Bound()
      modifies manager`redis, manager`localRooms, manager.localRooms.Values
      ensures Bound() && Sessions() == old(Sessions())
      ensures
        var created := Create(manager.limits, old(manager.Abs()), roomId, info);
        manager.Abs() == created.0 && result == created.1
    {
      result := manager.CreateRoom(roomId, info);
      SessionsKept();
    }

    ghost method Declare(nowDeclared: set<RoomId>)
      requires Bound()
      modifies this`declared
      ensures Bound() && Abs() == old(Abs()).(declared := nowDeclared)
    {
      declared := nowDeclared;
    }

    method HandleCreateRoom(roomId: RoomId, info: RoomInfo)
      requires Bound()
      modifies this`declared, manager`redis, manager`localRooms, manager.localRooms.Values
      ensures Bound() && Abs() == CreateStep(manager.limits, old(Abs()), roomId, info)
    {
      var result := CreateOne(roomId, info);
      if result.Success? {
        Declare(declared + {roomId});
      }
    }

    /** The part of a join that is the room manager's. */
    method JoinOne(roomId: RoomId, userId: UserId, passwordOk: bool) returns (result: Option<Result>)
      requires Bound()
      modifies manager`redis, manager`localRooms, manager.localRooms.Values
      ensures Bound() && Sessions() == old(Sessions())
      ensures JoinedAs(old(manager.Abs()), manager.Abs(), manager.limits, roomId, userId, passwordOk, result)
    {
      result := manager.EnsureAndJoin(roomId, userId, passwordOk);
      SessionsKept();
    }

    method LeaveOne(roomId: RoomId, userId: UserId) returns (result: Result)
      requires Bound()
      modifies manager`redis, manager`localRooms, manager.localRooms.Values
      ensures Bound() && Sessions() == old(Sessions())
      ensures
        var left := Leave(manager.limits, old(manager.Abs()), roomId, userId);
        manager.Abs() == left.0 && result == left.1
    {
      result := manager.LeaveRoom(roomId, userId);
      SessionsKept();
    }

    /** The part that is the connection's. */
    method Record(conn: Connection, rooms: set<RoomId>, ghost nowDeclared: set<RoomId>)
      requires Bound() && Live(conn)
      modifies this`declared, conn`rooms
      ensures Bound()
      ensures Abs() == Recorded(old(Abs()), conn.connectionId, rooms, nowDeclared)
    {
      SetRooms(conn, rooms);
      Declare(nowDeclared);
    }

    method HandleJoinRoom(conn: Connection, roomId: RoomId, passwordOk: bool)
      requires Bound() && Live(conn)
      modifies this`declared, conn`rooms
      modifies manager`redis, manager`localRooms, manager.localRooms.Values
      ensures Bound()
      ensures Abs() == JoinStep(manager.limits, old(Abs()), conn.connectionId, roomId, passwordOk)
    {
      var result := JoinOne(roomId, conn.userId, passwordOk);
      if result.Some? && result.value.Success? {
        Record(conn, conn.rooms + {roomId}, declared - {roomId});
      }
    }

    method HandleLeaveRoom(conn: Connection, roomId: RoomId)
      requires Bound() && Live(conn)
      modifies this`declared, conn`rooms
      modifies manager`redis, manager`localRooms, manager.localRooms.Values
      ensures Bound()
      ensures Abs() == LeaveStep(manager.limits, old(Abs()), conn.connectionId, roomId)
    {
      var result := LeaveOne(roomId, conn.userId);
      if result.Success? {
        Record(conn, conn.rooms - {roomId}, Remaining(declared, manager.Abs()));
      }
    }

    method Forget(conn: Connection, ghost nowDeclared: set<RoomId>)
      requires Bound() && Live(conn)
      modifies this`connections, this`declared
      ensures Bound()
      ensures Abs() == Node(old(manager.Abs()), old(Sessions()) - {conn.connectionId}, nowDeclared)
    {
      connections := connections - {conn.connectionId};
      declared := nowDeclared;
      assert Sessions() == old(Sessions()) - {conn.connectionId};
    }

    /** Leaves all rooms, in the order returned, and then forgets the connection. */
    method HandleDisconnection(conn: Connection) returns (ghost order: seq<RoomId>)
      requires Bound() && Live(conn)
      modifies this`connections, this`declared
      modifies manager`redis, manager`localRooms, manager.localRooms.Values
      ensures Bound() && Lists(order, old(Abs()).sessions[conn.connectionId].rooms)
      ensures Abs() == DisconnectStep(manager.limits, old(Abs()), conn.connectionId, order)
    {
      order := LeaveAll(conn.rooms, conn.userId);
      Forget(conn, Remaining(declared, manager.Abs()));
    }

    method LeaveAll(rooms: set<RoomId>, userId: UserId) returns (ghost order: seq<RoomId>)
      requires Bound()
      modifies manager`redis, manager`localRooms, manager.localRooms.Values
      ensures Bound() && Lists(order, rooms) && Sessions() == old(Sessions())
      ensures manager.Abs() == LeaveEach(manager.limits, old(manager.Abs()), userId, order)
    {
      order := manager.LeaveRooms(rooms, userId);
    }

    method Cleanup() returns (ghost order: seq<RoomId>)
      requires Bound()
      modifies this`declared, manager`redis, manager`localRooms
      ensures Bound() && Lists(order, old(Abs()).manager.cache.Keys)
      ensures Abs() == CleanupStep(old(Abs()), order)
    {
      order := manager.CleanupRooms();
      Declare(Remaining(declared, manager.Abs()));
    }

    // ---- Events --------------------------------------------------------------------------

    /** Every event below is one step of the model, and keeps the invariant of runs over
        separate ids. */
    method RouteMessage(conn: Connection, message: ClientMessage, ghost ids: iset<RoomId>)
      requires Bound() && Live(conn)
      modifies this`declared, conn`rooms
      modifies manager`redis, manager`localRooms, manager.localRooms.Values
      ensures Bound() && Abs() == Next(manager.limits, old(Abs()), StepOf(conn.connectionId, message))
      ensures Keeps(ids, old(Abs()), StepOf(conn.connectionId, message), Abs())
      ensures Abs() ==
        match message
        case JoinMessage(roomId, passwordOk) =>
          Next(manager.limits, old(Abs()), JoinRoom(conn.connectionId, roomId, passwordOk))
        case LeaveMessage(roomId) => Next(manager.limits, old(Abs()), LeaveRoom(conn.connectionId, roomId))
    {
      StepKeeps(ids, manager.limits, Abs(), StepOf(conn.connectionId, message));
      match message
      case JoinMessage(roomId, passwordOk) => HandleJoinRoom(conn, roomId, passwordOk);
      case LeaveMessage(roomId) => HandleLeaveRoom(conn, roomId);
    }

    method OnConnection(connectionId: ConnId, userId: UserId, ghost ids: iset<RoomId>)
      requires Bound() && Enabled(Abs(), Open(connectionId, userId, isShuttingDown))
      modifies this`connections
      ensures Bound() && Abs() == Next(manager.limits, old(Abs()), Open(connectionId, userId, isShuttingDown))
      ensures Keeps(ids, old(Abs()), Open(connectionId, userId, isShuttingDown), Abs())
    {
      StepKeeps(ids, manager.limits, Abs(), Open(connectionId, userId, isShuttingDown));
      HandleConnection(connectionId, userId);
    }

    method OnClose(conn: Connection, ghost ids: iset<RoomId>) returns (ghost order: seq<RoomId>)
      requires Bound() && Live(conn)
      modifies this`connections, this`declared
      modifies manager`redis, manager`localRooms, manager.localRooms.Values
      ensures Bound() && Enabled(old(Abs()), Disconnect(conn.connectionId, order))
      ensures Abs() == Next(manager.limits, old(Abs()), Disconnect(conn.connectionId, order))
      ensures Keeps(ids, old(Abs()), Disconnect(conn.connectionId, order), Abs())
    {
      ghost var before := Abs();
      order := HandleDisconnection(conn);
      StepKeeps(ids, manager.limits, before, Disconnect(conn.connectionId, order));
    }

    method OnRoomRequest(roomId: RoomId, info: RoomInfo, ghost ids: iset<RoomId>)
      requires Bound()
      modifies this`declared, manager`redis, manager`localRooms, manager.localRooms.Values
      ensures Bound() && Abs() == Next(manager.limits, old(Abs()), CreateRoom(roomId, info))
      ensures Keeps(ids, old(Abs()), CreateRoom(roomId, info), Abs())
    {
      StepKeeps(ids, manager.limits, Abs(), CreateRoom(roomId, info));
      HandleCreateRoom(roomId, info);
    }

    method OnCleanup(ghost ids: iset<RoomId>) returns (ghost order: seq<RoomId>)
      requires Bound()
      modifies this`declared, manager`redis, manager`localRooms
      ensures Bound() && Enabled(old(Abs()), Step.Cleanup(order))
      ensures Abs() == Next(manager.limits, old(Abs()), Step.Cleanup(order))
      ensures Keeps(ids, old(Abs()), Step.Cleanup(order), Abs())
    {
      ghost var before := Abs();
      order := Cleanup();
      StepKeeps(ids, manager.limits, before, Step.Cleanup(order));
    }

    ghost predicate Possible(event: Event)
      reads this, connections.Values, manager, manager.localRooms.Values
    {
      match event
      case Connected(c, u) => Enabled(Abs(), Open(c, u, isShuttingDown))
      case Received(c, _) => c in connections
      case Closing(c) => c in connections
      case Closed(c) => c in connections
      case _ => true
    }

    /** One event. It takes the step of the model that belongs to it, if any does, and
        keeps the invariant over any separate ids that include those it mentions. */
    method HandleEvent(event: Event, ghost ids: iset<RoomId>) returns (ghost step: Option<Step>)
      requires Bound() && Possible(event)
      modifies this, connections.Values
      modifies manager`redis, manager`localRooms, manager.localRooms.Values
      ensures Bound() && Belongs(event, old(isShuttingDown), step)
      ensures step.None? ==> Abs() == old(Abs())
      ensures step.Some? ==>
        && Enabled(old(Abs()), step.value) && Abs() == Next(manager.limits, old(Abs()), step.value)
        && Keeps(ids, old(Abs()), step.value, Abs())
    {
      match event
      case Connected(c, u) => step := Some(Open(c, u, isShuttingDown)); OnConnection(c, u, ids);
      case RoomRequested(r, info) => step := Some(CreateRoom(r, info)); OnRoomRequest(r, info, ids);
      case Received(c, message) => step := Some(StepOf(c, message)); RouteMessage(connections[c], message, ids);
      case Closing(c) => step := None; HandleClosing(connections[c]);
      case Closed(c) => ghost var order := OnClose(connections[c], ids); step := Some(Disconnect(c, order));
      case CleanupDue => ghost var order := OnCleanup(ids); step := Some(Step.Cleanup(order));
      case ShutdownRequested => step := None; Shutdown();
      case Arrived(channel, parcel) => step := None; OnMessage(channel, parcel);
    }

    // ---- Delivery ----------------------------------------------------------------------

    /** Sends the message to one connection if it is in the room and open. */
    method Offer(conn: Connection, roomId: RoomId, parcel: D.Parcel)
      requires Bound() && Live(conn)
      modifies conn`received
      ensures Endpoints() ==
        old(Endpoints())[conn.connectionId := D.Given(old(Endpoints())[conn.connectionId], roomId, parcel)]
      ensures Sessions() == old(Sessions())
    {
      if roomId in conn.rooms && conn.open {
        conn.received := conn.received + [parcel];
      }
    }

    /** The loop over the connections. */
    method OfferAll(roomId: RoomId, parcel: D.Parcel)
      requires Bound()
      modifies connections.Values
      ensures Bound() && Endpoints() == D.GivenAll(old(Endpoints()), roomId, parcel) && Abs() == old(Abs())
    {
      var todo := connections.Keys;
      while todo != {}
        invariant Bound() && todo <= connections.Keys && Sessions() == old(Sessions())
        invariant Endpoints() == GivenBut(old(Endpoints()), roomId, parcel, todo)
      {
        var connectionId :| connectionId in todo;
        GivenOneMore(old(Endpoints()), roomId, parcel, todo, connectionId);
        Offer(connections[connectionId], roomId, parcel);
        todo := todo - {connectionId};
      }
    }

    /** The message was sent to exactly the connections that are in the room and open. */
    twostate predicate Offered(roomId: RoomId, parcel: D.Parcel)
      reads this`connections, connections.Values
    {
      && connections == old(connections)
      && forall c :: c in connections ==>
           && connections[c].rooms == old(connections[c].rooms) && connections[c].open == old(connections[c].open)
           && connections[c].received ==
                old(connections[c].received)
                + if roomId in connections[c].rooms && connections[c].open then [parcel] else []
    }

    /** A message delivered to a room. */
    method DeliverMessage(roomId: RoomId, parcel: D.Parcel)
      requires Bound()
      modifies connections.Values
      ensures Bound() && Endpoints() == D.GivenAll(old(Endpoints()), roomId, parcel) && Abs() == old(Abs())
      ensures Offered(roomId, parcel)
    {
      OfferAll(roomId, parcel);
      forall c | c in connections
        ensures Endpoints()[c] == D.Given(old(Endpoints())[c], roomId, parcel)
      {}
    }

    /** A message taken from the node's queue: the room is read from the channel. */
    method OnMessage(channel: string, parcel: D.Parcel)
      requires Bound()
      modifies connections.Values
      ensures Bound() && Abs() == old(Abs())
      ensures Endpoints() == D.GivenAll(old(Endpoints()), Channels.RoomOf(channel), parcel)
      ensures channel == Channels.ChannelOf(parcel.room) ==>
        Endpoints() == D.GivenAll(old(Endpoints()), D.Route(parcel), parcel)
    {
      DeliverMessage(Channels.RoomOf(channel), parcel);
    }
  }

  function Recorded(n: Node, c: ConnId, rooms: set<RoomId>, nowDeclared: set<RoomId>): Node
    requires c in n.sessions
  {
    Node(n.manager, n.sessions[c := n.sessions[c].(rooms := rooms)], nowDeclared)
  }

  datatype ClientMessage = JoinMessage(roomId: RoomId, passwordOk: bool) | LeaveMessage(roomId: RoomId)

  function StepOf(c: ConnId, message: ClientMessage): Step {
    match message
    case JoinMessage(r, passwordOk) => JoinRoom(c, r, passwordOk)
    case LeaveMessage(r) => LeaveRoom(c, r)
  }

  /** What happens to a node. */
  datatype Event =
    | Connected(connectionId: ConnId, userId: UserId)
    | RoomRequested(roomId: RoomId, info: RoomInfo)
    | Received(connectionId: ConnId, message: ClientMessage)
    | Closing(connectionId: ConnId)
    | Closed(connectionId: ConnId)
    | CleanupDue
    | ShutdownRequested
    | Arrived(channel: string, parcel: D.Parcel)

  /** The step is one of the event. */
  predicate Belongs(event: Event, shuttingDown: bool, step: Option<Step>) {
    match event
    case Connected(c, u) => step == Some(Open(c, u, shuttingDown))
    case RoomRequested(r, info) => step == Some(CreateRoom(r, info))
    case Received(c, message) => step == Some(StepOf(c, message))
    case Closed(c) => step.Some? && step.value.Disconnect? && step.value.conn == c
    case CleanupDue => step.Some? && step.value.Cleanup?
    case _ => step.None?
  }

  ghost predicate Keeps(ids: iset<RoomId>, n: Node, step: Step, n': Node) {
    Separate(ids) && StepOver(step, ids) && Inv(ids, n) ==> Inv(ids, n')
  }

  lemma StepKeeps(ids: iset<RoomId>, limits: Limits, n: Node, step: Step)
    requires Enabled(n, step)
    ensures Keeps(ids, n, step, Next(limits, n, step))
  {
    if Separate(ids) && StepOver(step, ids) && Inv(ids, n) { NextKeeps(ids, limits, n, step); }
  }

  /** The connections of `todo` have still to be offered the message. */
  function GivenBut(sockets: map<ConnId, D.Endpoint>, room: RoomId, p: D.Parcel, todo: set<ConnId>)
    : map<ConnId, D.Endpoint>
  {
    map c | c in sockets :: if c in todo then sockets[c] else D.Given(sockets[c], room, p)
  }

  lemma GivenOneMore(sockets: map<ConnId, D.Endpoint>, room: RoomId, p: D.Parcel, todo: set<ConnId>, c: ConnId)
    requires c in sockets && c in todo
    ensures GivenBut(sockets, room, p, todo)[c] == sockets[c]
    ensures GivenBut(sockets, room, p, todo - {c}) ==
      GivenBut(sockets, room, p, todo)[c := D.Given(sockets[c], room, p)]
  {}
}
