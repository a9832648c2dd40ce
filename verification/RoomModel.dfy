/** Rooms and sessions on one node: the Redis keys of the room manager, its local
    cache, and the connections of the server, with one step per handler. */
module RoomModel {
  import opened Wrappers

  type RoomId = string
  type UserId = string
  type ConnId = string

  /** The stored part of a room. `maxParticipants` 0 means unlimited. */
  datatype RoomInfo = RoomInfo(maxParticipants: nat, passwordProtected: bool, hasPassword: bool, persistent: bool)

  /** A cached room: the stored part, and the participants as this node knows them. */
  datatype Cached = Cached(info: RoomInfo, participants: set<UserId>, participantCount: nat)

  // ---- Redis -----------------------------------------------------------------------

  type Key = string

  /** What a key holds: the text of a room, or a set of participants. */
  datatype Value = RoomValue(info: RoomInfo) | MembersValue(users: set<UserId>)

  const ROOM_PREFIX := "room:"
  const PARTICIPANTS_PREFIX := "room:participants:"

  function RoomKey(r: RoomId): Key {
    ROOM_PREFIX + r
  }

  function MembersKey(r: RoomId): Key {
    PARTICIPANTS_PREFIX + r
  }

  /** The room manager: one space of Redis keys, and the cache. */
  datatype Manager = Manager(redis: map<Key, Value>, cache: map<RoomId, Cached>)

  datatype Limits = Limits(maxCachedRooms: nat, defaultMaxParticipants: nat, maxConnectionsPerNode: nat)

  datatype Result = Success | Failure(error: string)

  /** Set commands on the participants' key do not fail with a wrong type. */
  predicate Readable(m: Manager, r: RoomId) {
    MembersKey(r) in m.redis ==> m.redis[MembersKey(r)].MembersValue?
  }

  /** `smembers`: a missing key is an empty set. */
  function Members(m: Manager, r: RoomId): set<UserId> {
    if MembersKey(r) in m.redis && m.redis[MembersKey(r)].MembersValue? then m.redis[MembersKey(r)].users else {}
  }

  /** `get`, as `getRoom` sees it: a key of the wrong type is caught, like a missing
      one. */
  function Stored(m: Manager, r: RoomId): Option<RoomInfo> {
    if RoomKey(r) in m.redis && m.redis[RoomKey(r)].RoomValue? then Some(m.redis[RoomKey(r)].info) else None
  }

  /** `setex`: whatever the key held is overwritten. */
  function PutRoom(m: Manager, r: RoomId, info: RoomInfo): Manager {
    m.(redis := m.redis[RoomKey(r) := RoomValue(info)])
  }

  /** `sadd` and `srem`, on a readable key: an empty set is gone. */
  function SetMembers(m: Manager, r: RoomId, users: set<UserId>): Manager {
    m.(redis := if users == {} then m.redis - {MembersKey(r)} else m.redis[MembersKey(r) := MembersValue(users)])
  }

  /** `del` of both keys. */
  function Delete(m: Manager, r: RoomId): Manager {
    Manager(m.redis - {RoomKey(r), MembersKey(r)}, m.cache - {r})
  }

  // ---- Room manager --------------------------------------------------------------

  /** What `getRoom` returns. It throws if the participants of a cached room cannot
      be counted; if they cannot be listed for a stored one, there is no room. */
  datatype Lookup = Found(info: RoomInfo) | Missing | Thrown

  function Look(m: Manager, r: RoomId): Lookup {
    if r in m.cache then if Readable(m, r) then Found(m.cache[r].info) else Thrown
    else if Stored(m, r).Some? && Readable(m, r) then Found(Stored(m, r).value)
    else Missing
  }

  /** The manager after `getRoom`, which synchronises or fills the cache. */
  function Looked(limits: Limits, m: Manager, r: RoomId): Manager {
    if !Look(m, r).Found? then m
    else if r in m.cache then m.(cache := m.cache[r := m.cache[r].(participantCount := |Members(m, r)|)])
    else if |m.cache| < limits.maxCachedRooms then
      m.(cache := m.cache[r := Cached(Look(m, r).info, Members(m, r), |Members(m, r)|)])
    else m
  }

  function Recached(m: Manager, r: RoomId, participants: set<UserId>, count: nat): Manager {
    if r in m.cache then m.(cache := m.cache[r := Cached(m.cache[r].info, participants, count)]) else m
  }

  function CachedParticipants(m: Manager, r: RoomId): set<UserId> {
    if r in m.cache then m.cache[r].participants else {}
  }

  /** The new room, stored and cached. */
  function Persisted(m: Manager, r: RoomId, info: RoomInfo): Manager {
    var m1 := PutRoom(m, r, info);
    m1.(cache := m1.cache[r := Cached(info, {}, 0)])
  }

  function Create(limits: Limits, m: Manager, r: RoomId, info: RoomInfo): (Manager, Result) {
    match Look(m, r)
    case Thrown => (m, Failure("SERVER_ERROR"))
    case Found(_) => (Looked(limits, m, r), Failure("ALREADY_JOINED"))
    case Missing => (Persisted(m, r, info), Success)
  }

  /** Why a join is refused, in the order of the checks. `passwordOk`: a password
      was given and its hash is the stored one. */
  function Refusal(info: RoomInfo, users: set<UserId>, u: UserId, passwordOk: bool): Option<string> {
    if u in users then Some("ALREADY_JOINED")
    else if info.maxParticipants > 0 && |users| >= info.maxParticipants then Some("ROOM_FULL")
    else if info.passwordProtected && info.hasPassword && !passwordOk then Some("UNAUTHORIZED")
    else None
  }

  /** The user added in Redis and in the cached room, whose count becomes one more
      than was read. */
  function Admitted(m: Manager, r: RoomId, u: UserId): Manager {
    Recached(SetMembers(m, r, Members(m, r) + {u}), r, CachedParticipants(m, r) + {u}, |Members(m, r)| + 1)
  }

  function Dismissed(m: Manager, r: RoomId, u: UserId): Manager {
    Recached(SetMembers(m, r, Members(m, r) - {u}), r, CachedParticipants(m, r) - {u}, |Members(m, r) - {u}|)
  }

  function JoinFound(m: Manager, r: RoomId, info: RoomInfo, u: UserId, passwordOk: bool): (Manager, Result) {
    var refusal := Refusal(info, Members(m, r), u, passwordOk);
    if refusal.Some? then (m, Failure(refusal.value)) else (Admitted(m, r, u), Success)
  }

  function Join(limits: Limits, m: Manager, r: RoomId, u: UserId, passwordOk: bool): (Manager, Result) {
    match Look(m, r)
    case Thrown => (m, Failure("SERVER_ERROR"))
    case Missing => (m, Failure("ROOM_NOT_FOUND"))
    case Found(info) => JoinFound(Looked(limits, m, r), r, info, u, passwordOk)
  }

  /** An empty room goes with its last participant, unless it is persistent. */
  function Swept(m: Manager, r: RoomId, info: RoomInfo): Manager {
    if Members(m, r) == {} && !info.persistent then Delete(m, r) else m
  }

  function Leave(limits: Limits, m: Manager, r: RoomId, u: UserId): (Manager, Result) {
    match Look(m, r)
    case Thrown => (m, Failure("SERVER_ERROR"))
    case Missing => (m, Failure("ROOM_NOT_FOUND"))
    case Found(info) => (Swept(Dismissed(Looked(limits, m, r), r, u), r, info), Success)
  }

  /** The periodic task on the cached rooms, in order. It ends at the first one whose
      participants cannot be counted. */
  function Cleaned(m: Manager, order: seq<RoomId>): Manager
    decreases |order|
  {
    if order == [] || !Readable(m, order[0]) then m
    else
      Cleaned(if order[0] in m.cache then Swept(m, order[0], m.cache[order[0]].info) else m, order[1..])
  }

  // ---- Sessions -------------------------------------------------------------------

  datatype Session = Session(userId: UserId, rooms: set<RoomId>)

  /** `declared` holds the rooms that were created but not joined since. */
  datatype Node = Node(manager: Manager, sessions: map<ConnId, Session>, declared: set<RoomId>)

  const EMPTY := Node(Manager(map[], map[]), map[], {})

  datatype Step =
    | Open(conn: ConnId, user: UserId, shuttingDown: bool)
    | CreateRoom(room: RoomId, info: RoomInfo)
    | JoinRoom(conn: ConnId, room: RoomId, passwordOk: bool)
    | LeaveRoom(conn: ConnId, room: RoomId)
    | Disconnect(conn: ConnId, order: seq<RoomId>)
    | Cleanup(order: seq<RoomId>)

  /** Every room of the set once, in some order. */
  ghost predicate Lists(order: seq<RoomId>, rooms: set<RoomId>) {
    && (forall r :: r in order <==> r in rooms)
    && (forall i, j :: 0 <= i < j < |order| ==> order[i] != order[j])
  }

  /** Connection ids and user ids are fresh. */
  ghost predicate Enabled(n: Node, step: Step) {
    match step
    case Open(c, u, _) => c !in n.sessions && forall x :: x in n.sessions ==> n.sessions[x].userId != u
    case JoinRoom(c, _, _) => c in n.sessions
    case LeaveRoom(c, _) => c in n.sessions
    case Disconnect(c, order) => c in n.sessions && Lists(order, n.sessions[c].rooms)
    case Cleanup(order) => Lists(order, n.manager.cache.Keys)
    case CreateRoom(_, _) => true
  }

  function DefaultRoom(limits: Limits): RoomInfo {
    RoomInfo(limits.defaultMaxParticipants, false, false, false)
  }

  function WithRoom(n: Node, c: ConnId, r: RoomId): map<ConnId, Session>
    requires c in n.sessions
  {
    n.sessions[c := n.sessions[c].(rooms := n.sessions[c].rooms + {r})]
  }

  function WithoutRoom(n: Node, c: ConnId, r: RoomId): map<ConnId, Session>
    requires c in n.sessions
  {
    n.sessions[c := n.sessions[c].(rooms := n.sessions[c].rooms - {r})]
  }

  /** A connection during shutdown or over the limit is closed at once. */
  function OpenStep(limits: Limits, n: Node, c: ConnId, u: UserId, shuttingDown: bool): Node {
    if shuttingDown || |n.sessions| >= limits.maxConnectionsPerNode then n
    else n.(sessions := n.sessions[c := Session(u, {})])
  }

  function CreateStep(limits: Limits, n: Node, r: RoomId, info: RoomInfo): Node {
    var created := Create(limits, n.manager, r, info);
    Node(created.0, n.sessions, if created.1.Success? then n.declared + {r} else n.declared)
  }

  /** The manager after the look-up and, if there is no room, its creation. */
  function Ensured(limits: Limits, m: Manager, r: RoomId): Manager {
    if Look(m, r).Missing? then Create(limits, m, r, DefaultRoom(limits)).0 else Looked(limits, m, r)
  }

  /** The room is created unless it exists, and then joined. If the look-up throws,
      the handler ends. */
  function JoinStep(limits: Limits, n: Node, c: ConnId, r: RoomId, passwordOk: bool): Node
    requires c in n.sessions
  {
    if Look(n.manager, r).Thrown? then n else EnsuredJoinStep(limits, n, c, r, passwordOk)
  }

  function EnsuredJoinStep(limits: Limits, n: Node, c: ConnId, r: RoomId, passwordOk: bool): Node
    requires c in n.sessions
  {
    var m := Ensured(limits, n.manager, r);
    var joined := Join(limits, m, r, n.sessions[c].userId, passwordOk);
    if joined.1.Success? then Node(joined.0, WithRoom(n, c, r), n.declared - {r})
    else n.(manager := joined.0)
  }

  /** Rooms that no longer exist are no longer declared. */
  function Remaining(declared: set<RoomId>, m: Manager): set<RoomId> {
    set r | r in declared && Stored(m, r).Some?
  }

  function LeaveStep(limits: Limits, n: Node, c: ConnId, r: RoomId): Node
    requires c in n.sessions
  {
    var left := Leave(limits, n.manager, r, n.sessions[c].userId);
    if left.1.Success? then Node(left.0, WithoutRoom(n, c, r), Remaining(n.declared, left.0))
    else n.(manager := left.0)
  }

  /** Leaving the rooms one after the other. */
  function LeaveEach(limits: Limits, m: Manager, u: UserId, order: seq<RoomId>): Manager
    decreases |order|
  {
    if order == [] then m else LeaveEach(limits, Leave(limits, m, order[0], u).0, u, order[1..])
  }

  function DisconnectStep(limits: Limits, n: Node, c: ConnId, order: seq<RoomId>): Node
    requires c in n.sessions
  {
    var m := LeaveEach(limits, n.manager, n.sessions[c].userId, order);
    Node(m, n.sessions - {c}, Remaining(n.declared, m))
  }

  function CleanupStep(n: Node, order: seq<RoomId>): Node {
    var m := Cleaned(n.manager, order);
    Node(m, n.sessions, Remaining(n.declared, m))
  }

  ghost function Next(limits: Limits, n: Node, step: Step): Node
    requires Enabled(n, step)
  {
    match step
    case Open(c, u, shuttingDown) => OpenStep(limits, n, c, u, shuttingDown)
    case CreateRoom(r, info) => CreateStep(limits, n, r, info)
    case JoinRoom(c, r, passwordOk) => JoinStep(limits, n, c, r, passwordOk)
    case LeaveRoom(c, r) => LeaveStep(limits, n, c, r)
    case Disconnect(c, order) => DisconnectStep(limits, n, c, order)
    case Cleanup(order) => CleanupStep(n, order)
  }

  ghost predicate Runs(limits: Limits, n: Node, steps: seq<Step>)
    decreases |steps|
  {
    steps == [] || (Enabled(n, steps[0]) && Runs(limits, Next(limits, n, steps[0]), steps[1..]))
  }

  ghost function After(limits: Limits, n: Node, steps: seq<Step>): Node
    requires Runs(limits, n, steps)
    decreases |steps|
  {
    if steps == [] then n else After(limits, Next(limits, n, steps[0]), steps[1..])
  }

  /** The room ids that a run mentions are all among `ids`. */
  predicate StepOver(step: Step, ids: iset<RoomId>) {
    match step
    case CreateRoom(r, _) => r in ids
    case JoinRoom(_, r, _) => r in ids
    case LeaveRoom(_, r) => r in ids
    case _ => true
  }

  ghost predicate Over(steps: seq<Step>, ids: iset<RoomId>) {
    forall i :: 0 <= i < |steps| ==> StepOver(steps[i], ids)
  }

  /** No id is the name under which the participants of another one are stored. */
  ghost predicate Separate(ids: iset<RoomId>) {
    forall r :: r in ids ==> "participants:" + r !in ids
  }

  // ---- Agreement ------------------------------------------------------------------

  /** The cache shows rooms that exist, with their actual participants; rooms that
      do not exist have none. */
  ghost predicate ManagerInv(ids: iset<RoomId>, m: Manager) {
    && (forall r :: r in ids ==> Readable(m, r))
    && (forall r :: r in ids && Members(m, r) != {} ==> Stored(m, r).Some?)
    && (forall r :: r in m.cache ==>
          r in ids && Stored(m, r) == Some(m.cache[r].info)
          && m.cache[r] == Cached(m.cache[r].info, Members(m, r), |Members(m, r)|))
  }

  /** A connection has a room in its set exactly when its user participates. */
  ghost predicate SessionsAgree(ids: iset<RoomId>, m: Manager, sessions: map<ConnId, Session>) {
    && (forall c, r :: c in sessions && r in sessions[c].rooms ==> r in ids)
    && (forall c, r :: c in sessions && r in ids ==> (r in sessions[c].rooms <==> sessions[c].userId in Members(m, r)))
  }

  predicate Connected(sessions: map<ConnId, Session>, u: UserId) {
    exists c :: c in sessions && sessions[c].userId == u
  }

  /** No participant without a connection. */
  ghost predicate NoGhosts(ids: iset<RoomId>, m: Manager, sessions: map<ConnId, Session>) {
    forall r, u :: r in ids && u in Members(m, r) ==> Connected(sessions, u)
  }

  ghost predicate DistinctUsers(sessions: map<ConnId, Session>) {
    forall c, d :: c in sessions && d in sessions && c != d ==> sessions[c].userId != sessions[d].userId
  }

  /** Only persistent rooms, and rooms not joined since they were created, are
      empty. */
  ghost predicate EmptyRooms(ids: iset<RoomId>, m: Manager, declared: set<RoomId>) {
    && (forall r :: r in ids && Stored(m, r).Some? && Members(m, r) == {} ==>
          Stored(m, r).value.persistent || r in declared)
    && (forall r :: r in declared ==> r in ids && Stored(m, r).Some? && Members(m, r) == {})
  }

  ghost predicate Inv(ids: iset<RoomId>, n: Node) {
    && ManagerInv(ids, n.manager)
    && SessionsAgree(ids, n.manager, n.sessions)
    && NoGhosts(ids, n.manager, n.sessions)
    && DistinctUsers(n.sessions)
    && EmptyRooms(ids, n.manager, n.declared)
  }
}
