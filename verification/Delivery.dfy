/** Publication and delivery on several nodes: a message is appended to the stream
    of its room and then published; every node has a FIFO queue of what was
    published since it subscribed, and hands each message to its connections that
    are open and in the room at that moment. Publishers, nodes and connections
    interleave freely. */
module Delivery {
  import Channels

  type RoomId = string
  type NodeId = string
  type ConnId = string

  /** A message, reduced to what delivery depends on. */
  datatype Parcel = Parcel(id: string, room: RoomId)

  /** The room that nodes route a message to: they read it back from the name of the
      channel it was published on. */
  function Route(p: Parcel): RoomId {
    Channels.RoomOf(Channels.ChannelOf(p.room))
  }

  /** A connection on a node; `open` is false from the moment it starts to close. */
  datatype Endpoint = Endpoint(rooms: set<RoomId>, open: bool, received: seq<Parcel>)

  /** The rooms a connection is in, and whether it is open. */
  datatype Presence = Presence(rooms: set<RoomId>, open: bool)

  /** History of a connection: how many messages had been published and consumed by
      its node when it connected, and its presence at each delivery since. */
  datatype Attendance = Attendance(since: int, seen: seq<Presence>)

  datatype NodeState = NodeState(queue: seq<Parcel>, sockets: map<ConnId, Endpoint>, past: map<ConnId, Attendance>)

  /** `pending` are the messages stored but not yet published; `log` is everything
      published, in order. */
  datatype Network = Network(streams: map<RoomId, seq<Parcel>>, pending: set<Parcel>, log: seq<Parcel>,
                             nodes: map<NodeId, NodeState>)

  const EMPTY := Network(map[], {}, [], map[])

  datatype Step =
    | StartNode(node: NodeId)
    | StopNode(node: NodeId)
    | Connect(node: NodeId, conn: ConnId)
    | StartClosing(node: NodeId, conn: ConnId)
    | Close(node: NodeId, conn: ConnId)
    | Enter(node: NodeId, conn: ConnId, room: RoomId)
    | Exit(node: NodeId, conn: ConnId, room: RoomId)
    | Persist(parcel: Parcel)
    | Publish(parcel: Parcel)
    | Abandon(parcel: Parcel)
    | Deliver(node: NodeId)

  function Stream(s: Network, r: RoomId): seq<Parcel> {
    if r in s.streams then s.streams[r] else []
  }

  /** Message ids are fresh; a message is published at most once, after it was
      stored. `Abandon` is a failing publication. */
  ghost predicate Enabled(s: Network, step: Step) {
    match step
    case StartNode(n) => n !in s.nodes
    case StopNode(n) => n in s.nodes
    case Connect(n, c) => n in s.nodes && c !in s.nodes[n].sockets
    case StartClosing(n, c) => n in s.nodes && c in s.nodes[n].sockets
    case Close(n, c) => n in s.nodes && c in s.nodes[n].sockets
    case Enter(n, c, _) => n in s.nodes && c in s.nodes[n].sockets
    case Exit(n, c, _) => n in s.nodes && c in s.nodes[n].sockets
    case Persist(p) => p !in Stream(s, p.room)
    case Publish(p) => p in s.pending
    case Abandon(p) => p in s.pending
    case Deliver(n) => n in s.nodes && s.nodes[n].queue != []
  }

  function Given(e: Endpoint, room: RoomId, p: Parcel): Endpoint {
    if room in e.rooms && e.open then e.(received := e.received + [p]) else e
  }

  /** The delivery loop over the connections of a node. */
  function GivenAll(sockets: map<ConnId, Endpoint>, room: RoomId, p: Parcel): map<ConnId, Endpoint> {
    map c | c in sockets :: Given(sockets[c], room, p)
  }

  function Attended(a: Attendance, presence: Presence): Attendance {
    a.(seen := a.seen + [presence])
  }

  function AttendedAll(past: map<ConnId, Attendance>, sockets: map<ConnId, Endpoint>): map<ConnId, Attendance> {
    map c | c in past && c in sockets :: Attended(past[c], Presence(sockets[c].rooms, sockets[c].open))
  }

  function Delivered(node: NodeState): NodeState
    requires node.queue != []
  {
    var p := node.queue[0];
    NodeState(node.queue[1..], GivenAll(node.sockets, Route(p), p), AttendedAll(node.past, node.sockets))
  }

  function Enqueued(node: NodeState, p: Parcel): NodeState {
    node.(queue := node.queue + [p])
  }

  function Queued(nodes: map<NodeId, NodeState>, p: Parcel): map<NodeId, NodeState> {
    map n | n in nodes :: Enqueued(nodes[n], p)
  }

  function SetNode(s: Network, n: NodeId, node: NodeState): Network {
    s.(nodes := s.nodes[n := node])
  }

  function SetRooms(node: NodeState, c: ConnId, rooms: set<RoomId>): NodeState
    requires c in node.sockets
  {
    node.(sockets := node.sockets[c := node.sockets[c].(rooms := rooms)])
  }

  function SetClosing(node: NodeState, c: ConnId): NodeState
    requires c in node.sockets
  {
    node.(sockets := node.sockets[c := node.sockets[c].(open := false)])
  }

  ghost function Next(s: Network, step: Step): Network
    requires Enabled(s, step)
  {
    match step
    case StartNode(n) => SetNode(s, n, NodeState([], map[], map[]))
    case StopNode(n) => s.(nodes := s.nodes - {n})
    case Connect(n, c) =>
      var node := s.nodes[n];
      SetNode(s, n, node.(sockets := node.sockets[c := Endpoint({}, true, [])],
                          past := node.past[c := Attendance(|s.log| - |node.queue|, [])]))
    case StartClosing(n, c) => SetNode(s, n, SetClosing(s.nodes[n], c))
    case Close(n, c) =>
      SetNode(s, n, s.nodes[n].(sockets := s.nodes[n].sockets - {c}, past := s.nodes[n].past - {c}))
    case Enter(n, c, r) => SetNode(s, n, SetRooms(s.nodes[n], c, s.nodes[n].sockets[c].rooms + {r}))
    case Exit(n, c, r) => SetNode(s, n, SetRooms(s.nodes[n], c, s.nodes[n].sockets[c].rooms - {r}))
    case Persist(p) => s.(streams := s.streams[p.room := Stream(s, p.room) + [p]], pending := s.pending + {p})
    case Publish(p) => s.(pending := s.pending - {p}, log := s.log + [p], nodes := Queued(s.nodes, p))
    case Abandon(p) => s.(pending := s.pending - {p})
    case Deliver(n) => SetNode(s, n, Delivered(s.nodes[n]))
  }

  ghost predicate Runs(s: Network, steps: seq<Step>)
    decreases |steps|
  {
    steps == [] || (Enabled(s, steps[0]) && Runs(Next(s, steps[0]), steps[1..]))
  }

  ghost function After(s: Network, steps: seq<Step>): Network
    requires Runs(s, steps)
    decreases |steps|
  {
    if steps == [] then s else After(Next(s, steps[0]), steps[1..])
  }

  // ---- Invariant --------------------------------------------------------------------

  ghost predicate Distinct<T(!new)>(s: seq<T>) {
    forall i, j :: 0 <= i < j < |s| ==> s[i] != s[j]
  }

  /** A message of the room is for those who are in it and open. */
  predicate Hears(presence: Presence, room: RoomId) {
    presence.open && room in presence.rooms
  }

  /** Of the messages `log[since..]`, one for each element of `seen`, those that were
      for it. */
  function Selected(log: seq<Parcel>, since: nat, seen: seq<Presence>): seq<Parcel>
    requires since + |seen| <= |log|
    decreases |seen|
  {
    if seen == [] then []
    else
      var p := log[since + |seen| - 1];
      Selected(log, since, seen[..|seen| - 1]) + if Hears(seen[|seen| - 1], Route(p)) then [p] else []
  }

  /** The connection has received exactly what it attended, up to `consumed`. */
  ghost predicate Faithful(log: seq<Parcel>, consumed: int, e: Endpoint, a: Attendance) {
    && 0 <= a.since && a.since + |a.seen| == consumed <= |log|
    && e.received == Selected(log, a.since, a.seen)
  }

  /** The queue is the unconsumed end of the log. */
  ghost predicate NodeInv(log: seq<Parcel>, node: NodeState) {
    && |node.queue| <= |log| && node.queue == log[|log| - |node.queue|..]
    && node.past.Keys == node.sockets.Keys
    && forall c :: c in node.sockets ==> Faithful(log, |log| - |node.queue|, node.sockets[c], node.past[c])
  }

  ghost predicate StoredFirst(s: Network) {
    && (forall r :: r in s.streams ==> Distinct(s.streams[r]))
    && (forall p :: p in s.log ==> p in Stream(s, p.room))
    && (forall p :: p in s.pending ==> p in Stream(s, p.room))
  }

  ghost predicate Once(s: Network) {
    Distinct(s.log) && forall p :: p in s.log ==> p !in s.pending
  }

  ghost predicate Inv(s: Network) {
    StoredFirst(s) && Once(s) && forall n :: n in s.nodes ==> NodeInv(s.log, s.nodes[n])
  }

  // ---- Preservation -----------------------------------------------------------------

  lemma {:induction false} SelectedGrows(log: seq<Parcel>, p: Parcel, since: nat, seen: seq<Presence>)
    requires since + |seen| <= |log|
    ensures Selected(log + [p], since, seen) == Selected(log, since, seen)
    decreases |seen|
  {
    if seen != [] { SelectedGrows(log, p, since, seen[..|seen| - 1]); }
  }

  lemma SelectedNext(log: seq<Parcel>, since: nat, seen: seq<Presence>, presence: Presence)
    requires since + |seen| < |log|
    ensures
      var p := log[since + |seen|];
      Selected(log, since, seen + [presence])
        == Selected(log, since, seen) + if Hears(presence, Route(p)) then [p] else []
  {
    assert (seen + [presence])[..|seen|] == seen;
  }

  lemma FaithfulGrows(log: seq<Parcel>, p: Parcel, consumed: int, e: Endpoint, a: Attendance)
    requires Faithful(log, consumed, e, a)
    ensures Faithful(log + [p], consumed, e, a)
  {
    SelectedGrows(log, p, a.since, a.seen);
  }

  lemma FaithfulGiven(log: seq<Parcel>, consumed: int, e: Endpoint, a: Attendance)
    requires Faithful(log, consumed, e, a) && consumed < |log|
    ensures Faithful(log, consumed + 1, Given(e, Route(log[consumed]), log[consumed]),
                     Attended(a, Presence(e.rooms, e.open)))
  {
    SelectedNext(log, a.since, a.seen, Presence(e.rooms, e.open));
  }

  lemma QueueTaken(log: seq<Parcel>, queue: seq<Parcel>)
    requires queue != [] && |queue| <= |log| && queue == log[|log| - |queue|..]
    ensures queue[0] == log[|log| - |queue|] && queue[1..] == log[|log| - |queue| + 1..]
  {}

  lemma DeliveredKeeps(log: seq<Parcel>, node: NodeState)
    requires NodeInv(log, node) && node.queue != []
    ensures NodeInv(log, Delivered(node))
  {
    var consumed, node' := |log| - |node.queue|, Delivered(node);
    QueueTaken(log, node.queue);
    forall c | c in node'.sockets ensures Faithful(log, consumed + 1, node'.sockets[c], node'.past[c]) {
      FaithfulGiven(log, consumed, node.sockets[c], node.past[c]);
    }
  }

  lemma QueuedKeeps(log: seq<Parcel>, node: NodeState, p: Parcel)
    requires NodeInv(log, node)
    ensures NodeInv(log + [p], Enqueued(node, p))
  {
    var consumed := |log| - |node.queue|;
    assert (log + [p])[consumed..] == log[consumed..] + [p];
    forall c | c in node.sockets ensures Faithful(log + [p], consumed, node.sockets[c], node.past[c]) {
      FaithfulGrows(log, p, consumed, node.sockets[c], node.past[c]);
    }
  }

  lemma SetNodeKeeps(s: Network, n: NodeId, node: NodeState)
    requires Inv(s) && NodeInv(s.log, node)
    ensures Inv(SetNode(s, n, node))
  {
    var s' := SetNode(s, n, node);
    assert forall r :: Stream(s', r) == Stream(s, r);
  }

  lemma PersistKeeps(s: Network, p: Parcel)
    requires Inv(s) && Enabled(s, Persist(p))
    ensures Inv(Next(s, Persist(p)))
  {
    var s' := Next(s, Persist(p));
    assert forall q: Parcel :: q in Stream(s, q.room) ==> q in Stream(s', q.room);
    assert p in Stream(s', p.room);
  }

  lemma PublishKeeps(s: Network, p: Parcel)
    requires Inv(s) && Enabled(s, Publish(p))
    ensures Inv(Next(s, Publish(p)))
  {
    var s' := Next(s, Publish(p));
    assert forall r :: Stream(s', r) == Stream(s, r);
    forall n | n in s'.nodes ensures NodeInv(s'.log, s'.nodes[n]) {
      QueuedKeeps(s.log, s.nodes[n], p);
    }
  }

  lemma RemoveKeeps(s: Network, n: NodeId, p: Parcel)
    requires Inv(s)
    ensures Inv(s.(nodes := s.nodes - {n})) && Inv(s.(pending := s.pending - {p}))
  {
    assert forall r :: Stream(s.(nodes := s.nodes - {n}), r) == Stream(s, r);
    assert forall r :: Stream(s.(pending := s.pending - {p}), r) == Stream(s, r);
  }

  lemma ConnectedNode(log: seq<Parcel>, node: NodeState, c: ConnId)
    requires NodeInv(log, node)
    ensures NodeInv(log, node.(sockets := node.sockets[c := Endpoint({}, true, [])],
                               past := node.past[c := Attendance(|log| - |node.queue|, [])]))
    ensures NodeInv(log, node.(sockets := node.sockets - {c}, past := node.past - {c}))
  {}

  lemma RoomsNode(log: seq<Parcel>, node: NodeState, c: ConnId, rooms: set<RoomId>)
    requires NodeInv(log, node) && c in node.sockets
    ensures NodeInv(log, SetRooms(node, c, rooms)) && NodeInv(log, SetClosing(node, c))
  {
    var node', closing := SetRooms(node, c, rooms), SetClosing(node, c);
    forall d | d in closing.sockets ensures Faithful(log, |log| - |node.queue|, closing.sockets[d], closing.past[d]) {
      assert Faithful(log, |log| - |node.queue|, node.sockets[d], node.past[d]);
    }
    forall d | d in node'.sockets ensures Faithful(log, |log| - |node.queue|, node'.sockets[d], node'.past[d]) {
      assert Faithful(log, |log| - |node.queue|, node.sockets[d], node.past[d]);
    }
  }

  lemma NextKeeps(s: Network, step: Step)
    requires Inv(s) && Enabled(s, step)
    ensures Inv(Next(s, step))
  {
    match step
    case StartNode(n) => SetNodeKeeps(s, n, NodeState([], map[], map[]));
    case StopNode(n) => RemoveKeeps(s, n, Parcel("", ""));
    case Connect(n, c) => ConnectedNode(s.log, s.nodes[n], c); SetNodeKeeps(s, n, Next(s, step).nodes[n]);
    case StartClosing(n, c) => RoomsNode(s.log, s.nodes[n], c, {}); SetNodeKeeps(s, n, Next(s, step).nodes[n]);
    case Close(n, c) => ConnectedNode(s.log, s.nodes[n], c); SetNodeKeeps(s, n, Next(s, step).nodes[n]);
    case Enter(n, c, r) =>
      RoomsNode(s.log, s.nodes[n], c, s.nodes[n].sockets[c].rooms + {r});
      SetNodeKeeps(s, n, Next(s, step).nodes[n]);
    case Exit(n, c, r) =>
      RoomsNode(s.log, s.nodes[n], c, s.nodes[n].sockets[c].rooms - {r});
      SetNodeKeeps(s, n, Next(s, step).nodes[n]);
    case Persist(p) => PersistKeeps(s, p);
    case Publish(p) => PublishKeeps(s, p);
    case Abandon(p) => RemoveKeeps(s, "", p);
      assert s.(pending := s.pending - {p}) == Next(s, step);
    case Deliver(n) => DeliveredKeeps(s.log, s.nodes[n]); SetNodeKeeps(s, n, Delivered(s.nodes[n]));
  }

  lemma {:induction false} RunKeeps(s: Network, steps: seq<Step>)
    requires Inv(s) && Runs(s, steps)
    ensures Inv(After(s, steps))
    decreases |steps|
  {
    if steps != [] {
      NextKeeps(s, steps[0]);
      RunKeeps(Next(s, steps[0]), steps[1..]);
    }
  }

  /** A state some run leads to. */
  ghost predicate Reached(s: Network) {
    exists steps :: Runs(EMPTY, steps) && After(EMPTY, steps) == s
  }

  lemma ReachedInv(s: Network)
    requires Reached(s)
    ensures Inv(s)
  {
    var steps :| Runs(EMPTY, steps) && After(EMPTY, steps) == s;
    RunKeeps(EMPTY, steps);
  }

  // ---- What connections receive -------------------------------------------------------

  ghost predicate Precedes(s: seq<Parcel>, p: Parcel, q: Parcel) {
    exists i, j :: 0 <= i < j < |s| && s[i] == p && s[j] == q
  }

  /** A message is selected exactly when it was for the presence of its moment. */
  lemma {:induction false} SelectedMembers(log: seq<Parcel>, since: nat, seen: seq<Presence>, i: nat)
    requires since + |seen| <= |log| && Distinct(log) && since <= i < since + |seen|
    ensures log[i] in Selected(log, since, seen) <==> Hears(seen[i - since], Route(log[i]))
    decreases |seen|
  {
    var prev := seen[..|seen| - 1];
    if i < since + |prev| {
      SelectedMembers(log, since, prev, i);
    } else if log[i] in Selected(log, since, prev) {
      SelectedFrom(log, since, prev, log[i]);
    }
  }

  lemma {:induction false} SelectedFrom(log: seq<Parcel>, since: nat, seen: seq<Presence>, p: Parcel)
    requires since + |seen| <= |log| && p in Selected(log, since, seen)
    ensures exists i :: since <= i < since + |seen| && log[i] == p
    decreases |seen|
  {
    var prev := seen[..|seen| - 1];
    if p in Selected(log, since, prev) { SelectedFrom(log, since, prev, p); }
  }

  /** What is selected keeps the order of the log. */
  lemma {:induction false} SelectedInOrder(log: seq<Parcel>, since: nat, seen: seq<Presence>, i: nat, j: nat)
    requires since + |seen| <= |log| && i < j < |Selected(log, since, seen)|
    ensures
      var picked := Selected(log, since, seen);
      exists a, b :: since <= a < b < since + |seen| && log[a] == picked[i] && log[b] == picked[j]
    decreases |seen|
  {
    var prev := seen[..|seen| - 1];
    var before := Selected(log, since, prev);
    if j < |before| {
      SelectedInOrder(log, since, prev, i, j);
    } else {
      SelectedFrom(log, since, prev, before[i]);
      var a :| since <= a < since + |prev| && log[a] == before[i];
      assert log[since + |prev|] == Selected(log, since, seen)[j];
    }
  }

  lemma SelectedDistinct(log: seq<Parcel>, since: nat, seen: seq<Presence>)
    requires since + |seen| <= |log| && Distinct(log)
    ensures Distinct(Selected(log, since, seen))
  {
    var picked := Selected(log, since, seen);
    forall i, j | 0 <= i < j < |picked| ensures picked[i] != picked[j] {
      SelectedInOrder(log, since, seen, i, j);
    }
  }

  ghost predicate Open(s: Network, n: NodeId, c: ConnId) {
    n in s.nodes && c in s.nodes[n].sockets && c in s.nodes[n].past
  }

  /** How much of the log a node has taken from its queue. */
  ghost function Consumed(s: Network, n: NodeId): int
    requires n in s.nodes
  {
    |s.log| - |s.nodes[n].queue|
  }

  /** The message at position `i` of the log was routed to the connection: at that
      moment it was open and in the room read back. */
  ghost predicate Attending(s: Network, n: NodeId, c: ConnId, i: int)
    requires Open(s, n, c)
  {
    var a := s.nodes[n].past[c];
    && a.since <= i < a.since + |a.seen| && 0 <= i < |s.log|
    && Hears(a.seen[i - a.since], Route(s.log[i]))
  }

  lemma OpenFaithful(s: Network, n: NodeId, c: ConnId)
    requires Reached(s) && n in s.nodes && c in s.nodes[n].sockets
    ensures Inv(s) && Open(s, n, c)
    ensures Faithful(s.log, Consumed(s, n), s.nodes[n].sockets[c], s.nodes[n].past[c])
  {
    ReachedInv(s);
    assert NodeInv(s.log, s.nodes[n]);
  }

  lemma ReceivedAttending(s: Network, n: NodeId, c: ConnId, p: Parcel) returns (i: int)
    requires Inv(s) && Open(s, n, c) && p in s.nodes[n].sockets[c].received
    ensures Attending(s, n, c, i) && s.log[i] == p
  {
    var a := s.nodes[n].past[c];
    assert NodeInv(s.log, s.nodes[n]);
    assert Faithful(s.log, Consumed(s, n), s.nodes[n].sockets[c], a);
    SelectedFrom(s.log, a.since, a.seen, p);
    i :| a.since <= i < a.since + |a.seen| && s.log[i] == p;
    SelectedMembers(s.log, a.since, a.seen, i);
  }

  lemma ReceivedExactly(s: Network, n: NodeId, c: ConnId, i: int)
    requires Open(s, n, c) && Distinct(s.log)
    requires Faithful(s.log, Consumed(s, n), s.nodes[n].sockets[c], s.nodes[n].past[c])
    requires s.nodes[n].past[c].since <= i < Consumed(s, n)
    ensures 0 <= i < |s.log| && (s.log[i] in s.nodes[n].sockets[c].received <==> Attending(s, n, c, i))
  {
    SelectedMembers(s.log, s.nodes[n].past[c].since, s.nodes[n].past[c].seen, i);
  }

  /** What every connection has received, in every reachable state: of the messages
      its node has taken from its queue since it connected, exactly those routed to
      the rooms it was in, and open, at that moment, each once. */
  lemma DeliveryIsFaithful(s: Network, n: NodeId, c: ConnId)
    requires Reached(s) && n in s.nodes && c in s.nodes[n].sockets
    ensures Open(s, n, c) && s.nodes[n].past[c].since + |s.nodes[n].past[c].seen| == Consumed(s, n)
    ensures forall i :: s.nodes[n].past[c].since <= i < Consumed(s, n) ==>
      0 <= i < |s.log| && (s.log[i] in s.nodes[n].sockets[c].received <==> Attending(s, n, c, i))
    ensures forall p :: p in s.nodes[n].sockets[c].received ==> exists i :: Attending(s, n, c, i) && s.log[i] == p
    ensures Distinct(s.nodes[n].sockets[c].received)
  {
    OpenFaithful(s, n, c);
    var a := s.nodes[n].past[c];
    forall i | a.since <= i < Consumed(s, n)
      ensures 0 <= i < |s.log| && (s.log[i] in s.nodes[n].sockets[c].received <==> Attending(s, n, c, i))
    {
      ReceivedExactly(s, n, c, i);
    }
    forall p | p in s.nodes[n].sockets[c].received ensures exists i :: Attending(s, n, c, i) && s.log[i] == p {
      var i := ReceivedAttending(s, n, c, p);
    }
    SelectedDistinct(s.log, a.since, a.seen);
  }

  /** What was handed out are the messages of the rooms it was handed out in. */
  ghost predicate OwnRooms(s: Network) {
    forall n, c, i :: Open(s, n, c) && Handed(s, n, c, i) ==>
      var e, a := s.nodes[n].sockets[c], s.nodes[n].past[c];
      (s.log[i] in e.received <==> Hears(a.seen[i - a.since], s.log[i].room))
  }

  /** Position `i` of the log was taken from the queue while the connection was there. */
  ghost predicate Handed(s: Network, n: NodeId, c: ConnId, i: int)
    requires Open(s, n, c)
  {
    var a := s.nodes[n].past[c];
    a.since <= i < a.since + |a.seen| && 0 <= i < |s.log|
  }

  ghost predicate Over(steps: seq<Step>, ids: iset<RoomId>) {
    forall k :: 0 <= k < |steps| && steps[k].Persist? ==> steps[k].parcel.room in ids
  }

  ghost predicate StoredOver(s: Network, ids: iset<RoomId>) {
    && (forall p :: p in s.log ==> p.room in ids)
    && (forall p :: p in s.pending ==> p.room in ids)
  }

  lemma {:induction false} RunStoresOver(s: Network, steps: seq<Step>, ids: iset<RoomId>)
    requires StoredOver(s, ids) && Runs(s, steps) && Over(steps, ids)
    ensures StoredOver(After(s, steps), ids)
    decreases |steps|
  {
    if steps != [] {
      assert StoredOver(Next(s, steps[0]), ids);
      RunStoresOver(Next(s, steps[0]), steps[1..], ids);
    }
  }

  lemma ReceivedIfOwn(s: Network, n: NodeId, c: ConnId, i: int)
    requires Reached(s) && Open(s, n, c) && Handed(s, n, c, i) && Channels.Clean(s.log[i].room)
    ensures s.log[i] in s.nodes[n].sockets[c].received
      <==> Hears(s.nodes[n].past[c].seen[i - s.nodes[n].past[c].since], s.log[i].room)
  {
    DeliveryIsFaithful(s, n, c);
    Channels.ReadBackExact(s.log[i].room);
  }

  lemma CleanRunsOwn(steps: seq<Step>, ids: iset<RoomId>)
    requires Runs(EMPTY, steps) && Over(steps, ids) && forall r :: r in ids ==> Channels.Clean(r)
    ensures OwnRooms(After(EMPTY, steps))
  {
    var s := After(EMPTY, steps);
    assert Reached(s);
    RunStoresOver(EMPTY, steps, ids);
    forall n, c, i | Open(s, n, c) && Handed(s, n, c, i)
      ensures s.log[i] in s.nodes[n].sockets[c].received
        <==> Hears(s.nodes[n].past[c].seen[i - s.nodes[n].past[c].since], s.log[i].room)
    {
      assert s.log[i] in s.log;
      ReceivedIfOwn(s, n, c, i);
    }
  }

  lemma {:induction false} RunOneMore(s: Network, steps: seq<Step>, step: Step)
    requires Runs(s, steps) && Enabled(After(s, steps), step)
    ensures Runs(s, steps + [step]) && After(s, steps + [step]) == Next(After(s, steps), step)
    decreases |steps|
  {
    if steps == [] {
      assert [step][1..] == [] && steps + [step] == [step];
      assert Runs(Next(s, step), []) && After(Next(s, step), []) == Next(s, step);
    } else {
      assert (steps + [step])[1..] == steps[1..] + [step];
      RunOneMore(Next(s, steps[0]), steps[1..], step);
    }
  }

  /** One connection in room `r`, to which one message is published. */
  lemma OneDelivery(r: RoomId) returns (steps: seq<Step>)
    ensures Runs(EMPTY, steps) && Over(steps, iset{r})
    ensures
      var p, s := Parcel("1", r), After(EMPTY, steps);
      && s.log == [p] && Open(s, "n", "c")
      && s.nodes["n"].past["c"] == Attendance(0, [Presence({r}, true)])
      && s.nodes["n"].sockets["c"] == Given(Endpoint({r}, true, []), Route(p), p)
  {
    var before, s := OnePublication(r);
    RunOneMore(EMPTY, before, Deliver("n"));
    steps := before + [Deliver("n")];
    var node := Delivered(s.nodes["n"]);
    assert After(EMPTY, steps).nodes["n"] == node;
    assert node.past == map["c" := Attendance(0, [] + [Presence({r}, true)])];
  }

  lemma OnePublication(r: RoomId) returns (steps: seq<Step>, s: Network)
    ensures Runs(EMPTY, steps) && Over(steps, iset{r}) && s == After(EMPTY, steps)
    ensures s.log == [Parcel("1", r)] && "n" in s.nodes
    ensures s.nodes["n"]
         == NodeState([Parcel("1", r)], map["c" := Endpoint({r}, true, [])], map["c" := Attendance(0, [])])
  {
    var p := Parcel("1", r);
    var start := [StartNode("n"), Connect("n", "c"), Enter("n", "c", r)];
    var s3 := Started(r);
    RunOneMore(EMPTY, start, Persist(p));
    RunOneMore(EMPTY, start + [Persist(p)], Publish(p));
    steps := start + [Persist(p)] + [Publish(p)];
    s := Next(Next(s3, Persist(p)), Publish(p));
    assert s.nodes["n"] == Enqueued(s3.nodes["n"], p);
  }

  lemma Started(r: RoomId) returns (s: Network)
    ensures
      var steps := [StartNode("n"), Connect("n", "c"), Enter("n", "c", r)];
      Runs(EMPTY, steps) && s == After(EMPTY, steps)
    ensures s.streams == map[] && s.pending == {} && s.log == [] && "n" in s.nodes
    ensures s.nodes["n"] == NodeState([], map["c" := Endpoint({r}, true, [])], map["c" := Attendance(0, [])])
  {
    var s1 := Next(EMPTY, StartNode("n"));
    assert s1.nodes["n"] == NodeState([], map[], map[]);
    var s2 := Next(s1, Connect("n", "c"));
    assert s2.nodes["n"] == NodeState([], map["c" := Endpoint({}, true, [])], map["c" := Attendance(0, [])]);
    s := Next(s2, Enter("n", "c", r));
    assert s.nodes["n"].sockets == map["c" := Endpoint({} + {r}, true, [])];
    assert Runs(EMPTY, []) && After(EMPTY, []) == EMPTY;
    RunOneMore(EMPTY, [], StartNode("n"));
    RunOneMore(EMPTY, [] + [StartNode("n")], Connect("n", "c"));
    RunOneMore(EMPTY, [] + [StartNode("n")] + [Connect("n", "c")], Enter("n", "c", r));
    assert [] + [StartNode("n")] + [Connect("n", "c")] + [Enter("n", "c", r)]
        == [StartNode("n"), Connect("n", "c"), Enter("n", "c", r)];
    assert {} + {r} == {r};
  }

  /** Every connection receives the messages of its own rooms, in every run over a set
      of ids, if and only if each of them is read back from its channel. */
  lemma OwnRoomsExact(ids: iset<RoomId>)
    ensures (forall steps :: Runs(EMPTY, steps) && Over(steps, ids) ==> OwnRooms(After(EMPTY, steps)))
      <==> forall r :: r in ids ==> Channels.Clean(r)
  {
    if r :| r in ids && !Channels.Clean(r) {
      var steps := OneDelivery(r);
      var s := After(EMPTY, steps);
      Channels.ReadBackExact(r);
      assert Handed(s, "n", "c", 0) && s.log[0] !in s.nodes["n"].sockets["c"].received;
      assert !OwnRooms(s) && Over(steps, ids);
    } else {
      forall steps | Runs(EMPTY, steps) && Over(steps, ids) ensures OwnRooms(After(EMPTY, steps)) {
        CleanRunsOwn(steps, ids);
      }
    }
  }

  /** Stored before delivered: whatever waits in a queue or was received is in the
      stream of its room; and a queue is the part of the log not consumed yet. */
  lemma PersistedFirst(s: Network, n: NodeId)
    requires Reached(s) && n in s.nodes
    ensures 0 <= Consumed(s, n) && s.log[Consumed(s, n)..] == s.nodes[n].queue
    ensures forall p :: p in s.nodes[n].queue ==> p in Stream(s, p.room)
    ensures forall c, p :: c in s.nodes[n].sockets && p in s.nodes[n].sockets[c].received ==> p in Stream(s, p.room)
  {
    ReachedInv(s);
    assert NodeInv(s.log, s.nodes[n]);
    forall c, p | c in s.nodes[n].sockets && p in s.nodes[n].sockets[c].received ensures p in Stream(s, p.room) {
      DeliveryIsFaithful(s, n, c);
    }
  }

  lemma OrderOfLog(log: seq<Parcel>, since: nat, seen: seq<Presence>, p: Parcel, q: Parcel)
    requires since + |seen| <= |log| && Distinct(log) && p != q
    requires p in Selected(log, since, seen) && q in Selected(log, since, seen)
    ensures Precedes(Selected(log, since, seen), p, q) <==> Precedes(log, p, q)
  {
    var picked := Selected(log, since, seen);
    var i :| 0 <= i < |picked| && picked[i] == p;
    var j :| 0 <= j < |picked| && picked[j] == q;
    SelectedDistinct(log, since, seen);
    if i < j {
      SelectedInOrder(log, since, seen, i, j);
      assert Precedes(picked, p, q);
    } else {
      SelectedInOrder(log, since, seen, j, i);
      assert Precedes(log, q, p);
      assert !Precedes(log, p, q) && !Precedes(picked, p, q);
    }
  }

  lemma OrderOfReceived(s: Network, n: NodeId, c: ConnId, p: Parcel, q: Parcel)
    requires Reached(s) && n in s.nodes && c in s.nodes[n].sockets
    requires p in s.nodes[n].sockets[c].received && q in s.nodes[n].sockets[c].received
    ensures Precedes(s.nodes[n].sockets[c].received, p, q) <==> Precedes(s.log, p, q)
  {
    OpenFaithful(s, n, c);
    var a := s.nodes[n].past[c];
    if p == q {
      SelectedDistinct(s.log, a.since, a.seen);
    } else {
      OrderOfLog(s.log, a.since, a.seen, p, q);
    }
  }

  /** Any two connections, on any nodes, have received the messages they share in
      the same order. */
  lemma OneOrder(s: Network, n: NodeId, c: ConnId, n': NodeId, c': ConnId, p: Parcel, q: Parcel)
    requires Reached(s) && n in s.nodes && c in s.nodes[n].sockets && n' in s.nodes && c' in s.nodes[n'].sockets
    requires p in s.nodes[n].sockets[c].received && q in s.nodes[n].sockets[c].received
    requires p in s.nodes[n'].sockets[c'].received && q in s.nodes[n'].sockets[c'].received
    ensures Precedes(s.nodes[n].sockets[c].received, p, q) <==> Precedes(s.nodes[n'].sockets[c'].received, p, q)
  {
    OrderOfReceived(s, n, c, p, q);
    OrderOfReceived(s, n', c', p, q);
  }

  // ---- History and delivery --------------------------------------------------------------

  /** Published messages of a room are in its stream in the order they were
      published in. */
  ghost predicate HistoryAgrees(s: Network) {
    forall p: Parcel, q: Parcel :: p.room == q.room && Precedes(s.log, p, q) ==> Precedes(Stream(s, p.room), p, q)
  }

  /** At most one message of each room is stored and not yet published. */
  ghost predicate OneInFlight(s: Network) {
    forall p, q :: p in s.pending && q in s.pending && p.room == q.room ==> p == q
  }

  /** What is published of a room precedes, in its stream, what is still pending. */
  ghost predicate PendingLast(s: Network) {
    forall p, q :: p in s.log && q in s.pending && p.room == q.room ==> Precedes(Stream(s, p.room), p, q)
  }

  /** Every publication starts when no other one of the room is in flight. */
  ghost predicate Serial(s: Network, steps: seq<Step>)
    requires Runs(s, steps)
    decreases |steps|
  {
    steps == [] ||
    ((steps[0].Persist? ==> forall q :: q in s.pending ==> q.room != steps[0].parcel.room)
     && Serial(Next(s, steps[0]), steps[1..]))
  }

  lemma PrecedesAppended(s: seq<Parcel>, x: Parcel, p: Parcel, q: Parcel)
    ensures Precedes(s + [x], p, q) <==> Precedes(s, p, q) || (p in s && q == x)
  {
    var t := s + [x];
    if Precedes(t, p, q) {
      var i, j :| 0 <= i < j < |t| && t[i] == p && t[j] == q;
      assert i < |s| && t[i] == s[i];
      if j < |s| { assert s[j] == q; }
    }
    if Precedes(s, p, q) {
      var i, j :| 0 <= i < j < |s| && s[i] == p && s[j] == q;
      assert t[i] == p && t[j] == q;
    }
    if p in s && q == x {
      var i :| 0 <= i < |s| && s[i] == p;
      assert t[i] == p && t[|s|] == q;
    }
  }

  lemma PersistAgrees(s: Network, p: Parcel)
    requires Inv(s) && HistoryAgrees(s) && PendingLast(s) && Enabled(s, Persist(p))
    ensures HistoryAgrees(Next(s, Persist(p))) && PendingLast(Next(s, Persist(p)))
  {
    var s' := Next(s, Persist(p));
    forall a: Parcel, b: Parcel | a.room == b.room
      ensures Precedes(Stream(s, a.room), a, b) ==> Precedes(Stream(s', a.room), a, b)
    {
      PrecedesAppended(Stream(s, a.room), p, a, b);
    }
    forall a, b | a in s'.log && b in s'.pending && a.room == b.room ensures Precedes(Stream(s', a.room), a, b) {
      PrecedesAppended(Stream(s, a.room), p, a, b);
    }
  }

  lemma PublishAgrees(s: Network, p: Parcel)
    requires Inv(s) && HistoryAgrees(s) && PendingLast(s) && OneInFlight(s) && Enabled(s, Publish(p))
    ensures HistoryAgrees(Next(s, Publish(p))) && PendingLast(Next(s, Publish(p)))
  {
    var s' := Next(s, Publish(p));
    forall a: Parcel, b: Parcel | a.room == b.room && Precedes(s'.log, a, b)
      ensures Precedes(Stream(s', a.room), a, b)
    {
      PrecedesAppended(s.log, p, a, b);
      assert Stream(s', a.room) == Stream(s, a.room);
    }
    forall a, b | a in s'.log && b in s'.pending && a.room == b.room ensures Precedes(Stream(s', a.room), a, b) {
      assert a != p;
      assert Stream(s', a.room) == Stream(s, a.room);
    }
  }

  lemma OtherAgrees(s: Network, step: Step)
    requires HistoryAgrees(s) && PendingLast(s) && Enabled(s, step) && !step.Persist? && !step.Publish?
    ensures HistoryAgrees(Next(s, step)) && PendingLast(Next(s, step))
  {
    var s' := Next(s, step);
    assert s'.log == s.log && s'.pending <= s.pending;
    assert forall r :: Stream(s', r) == Stream(s, r);
  }

  /** One publication of a room at a time: its history shows the messages in the
      order they were published in. */
  lemma {:induction false} SerialRunsAgree(s: Network, steps: seq<Step>)
    requires Inv(s) && HistoryAgrees(s) && PendingLast(s) && OneInFlight(s)
    requires Runs(s, steps) && Serial(s, steps)
    ensures HistoryAgrees(After(s, steps))
    decreases |steps|
  {
    if steps != [] {
      var s' := Next(s, steps[0]);
      if steps[0].Persist? {
        PersistAgrees(s, steps[0].parcel);
      } else if steps[0].Publish? {
        PublishAgrees(s, steps[0].parcel);
      } else {
        OtherAgrees(s, steps[0]);
      }
      NextKeeps(s, steps[0]);
      assert OneInFlight(s');
      SerialRunsAgree(s', steps[1..]);
    }
  }

  lemma TwoInFlightDisagree(s: Network, p: Parcel, q: Parcel)
    requires Inv(s) && p in s.pending && q in s.pending && p.room == q.room && p != q
    ensures Runs(s, [Publish(p), Publish(q)]) && Runs(s, [Publish(q), Publish(p)])
    ensures !(HistoryAgrees(After(s, [Publish(p), Publish(q)])) && HistoryAgrees(After(s, [Publish(q), Publish(p)])))
  {
    PublishTwo(s, p, q);
    PublishTwo(s, q, p);
    assert Distinct(Stream(s, p.room));
  }

  lemma PublishTwo(s: Network, p: Parcel, q: Parcel)
    requires p in s.pending && q in s.pending && p != q
    ensures Runs(s, [Publish(p), Publish(q)]) && Serial(s, [Publish(p), Publish(q)])
    ensures Precedes(After(s, [Publish(p), Publish(q)]).log, p, q)
    ensures After(s, [Publish(p), Publish(q)]).streams == s.streams
  {
    var steps := [Publish(p), Publish(q)];
    var s1 := Next(s, steps[0]);
    assert steps[1..] == [Publish(q)];
    assert [Publish(q)][1..] == [];
    var s2 := Next(s1, Publish(q));
    assert Runs(s2, []) && After(s2, []) == s2;
    assert Runs(s1, [Publish(q)]) && After(s1, [Publish(q)]) == s2;
    PrecedesAppended(s.log + [p], q, p, q);
  }

  /** History shows the order of delivery now, and goes on doing so in every
      continuation that starts a publication only when no other one of its room
      is in flight. */
  ghost predicate Certain(s: Network) {
    forall steps :: Runs(s, steps) && Serial(s, steps) ==> HistoryAgrees(After(s, steps))
  }

  lemma TwoInFlightUncertain(s: Network, p: Parcel, q: Parcel)
    requires Inv(s) && p in s.pending && q in s.pending && p.room == q.room && p != q
    ensures !Certain(s)
  {
    TwoInFlightDisagree(s, p, q);
    PublishTwo(s, p, q);
    PublishTwo(s, q, p);
  }

  lemma OneStep(s: Network, step: Step)
    requires Enabled(s, step)
    ensures Runs(s, [step]) && After(s, [step]) == Next(s, step)
    ensures !step.Persist? ==> Serial(s, [step])
  {
    assert [step][1..] == [];
    assert Runs(Next(s, step), []) && After(Next(s, step), []) == Next(s, step);
  }

  /** A message that is stored before a published one can only be published out
      of order. */
  lemma OvertakenUncertain(s: Network, p: Parcel, q: Parcel)
    requires p in s.log && q in s.pending && p.room == q.room && !Precedes(Stream(s, p.room), p, q)
    ensures !Certain(s)
  {
    OneStep(s, Publish(q));
    PrecedesAppended(s.log, q, p, q);
    assert Stream(Next(s, Publish(q)), p.room) == Stream(s, p.room);
  }

  lemma AgreesNow(s: Network)
    requires Certain(s)
    ensures HistoryAgrees(s)
  {
    assert Runs(s, []) && Serial(s, []) && After(s, []) == s;
  }

  /** It is certain if and only if history agrees so far, no room has two messages
      in flight, and none in flight has been overtaken by a published one. */
  lemma HistoryOrderExact(s: Network)
    requires Inv(s)
    ensures Certain(s) <==> HistoryAgrees(s) && OneInFlight(s) && PendingLast(s)
  {
    if HistoryAgrees(s) && OneInFlight(s) && PendingLast(s) {
      forall steps | Runs(s, steps) && Serial(s, steps) ensures HistoryAgrees(After(s, steps)) {
        SerialRunsAgree(s, steps);
      }
    } else if !OneInFlight(s) {
      var p, q :| p in s.pending && q in s.pending && p.room == q.room && p != q;
      TwoInFlightUncertain(s, p, q);
    } else if !PendingLast(s) {
      var p, q :| p in s.log && q in s.pending && p.room == q.room && !Precedes(Stream(s, p.room), p, q);
      OvertakenUncertain(s, p, q);
    } else if Certain(s) {
      AgreesNow(s);
    }
  }

  /** Two messages are stored and the second is published: a state in which
      history agrees and one message is in flight, and yet nothing can save it. */
  lemma OvertakingReached() returns (s: Network)
    ensures Reached(s) && HistoryAgrees(s) && OneInFlight(s) && !Certain(s)
  {
    var p, q := Parcel("1", "lobby"), Parcel("2", "lobby");
    var steps := [Persist(p), Persist(q), Publish(q)];
    var s1 := Next(EMPTY, Persist(p));
    var s2 := Next(s1, Persist(q));
    s := Next(s2, Publish(q));
    assert steps[1..] == [Persist(q), Publish(q)] && [Persist(q), Publish(q)][1..] == [Publish(q)];
    OneStep(s2, Publish(q));
    assert Runs(s1, steps[1..]) && After(s1, steps[1..]) == s;
    assert Runs(EMPTY, steps) && After(EMPTY, steps) == s;
    assert Stream(s, "lobby") == [p, q] && s.log == [q] && s.pending == {p};
    OvertakenUncertain(s, q, p);
  }

  /** With one publication of a room at a time, what a connection receives comes in
      the order of the room's history. */
  lemma ReceivedInHistoryOrder(steps: seq<Step>, n: NodeId, c: ConnId, p: Parcel, q: Parcel)
    requires Runs(EMPTY, steps) && Serial(EMPTY, steps)
    requires n in After(EMPTY, steps).nodes && c in After(EMPTY, steps).nodes[n].sockets
    requires p.room == q.room
    requires Precedes(After(EMPTY, steps).nodes[n].sockets[c].received, p, q)
    ensures Precedes(Stream(After(EMPTY, steps), p.room), p, q)
  {
    var s := After(EMPTY, steps);
    assert Reached(s);
    SerialRunsAgree(EMPTY, steps);
    OrderOfReceived(s, n, c, p, q);
  }
}
