/** What every event does to rooms, participants and connections, over separate ids and
    from any state that keeps the invariant. */
module RoomEffects {
  import opened Wrappers
  import opened RoomModel
  import opened RoomLaws

  /** All rooms are as before but for `r`. */
  ghost predicate OthersSame(ids: iset<RoomId>, m: Manager, m': Manager, r: RoomId) {
    forall x :: x in ids && x != r ==> Stored(m', x) == Stored(m, x) && Members(m', x) == Members(m, x)
  }

  // ---- Joining -----------------------------------------------------------------------

  /** A room that is not there is created for whoever asks, without password. */
  predicate JoinGranted(m: Manager, r: RoomId, u: UserId, passwordOk: bool) {
    Stored(m, r).None? || MayJoin(m, r, u, passwordOk)
  }

  ghost predicate Joined(ids: iset<RoomId>, limits: Limits, n: Node, t: Node, c: ConnId, r: RoomId, granted: bool)
    requires c in n.sessions
  {
    && t.sessions ==
         (if granted then n.sessions[c := n.sessions[c].(rooms := n.sessions[c].rooms + {r})] else n.sessions)
    && Members(t.manager, r) == Members(n.manager, r) + (if granted then {n.sessions[c].userId} else {})
    && Stored(t.manager, r)
         == (if Stored(n.manager, r).Some? then Stored(n.manager, r)
             else Some(RoomInfo(limits.defaultMaxParticipants, false, false, false)))
    && OthersSame(ids, n.manager, t.manager, r)
  }

  lemma JoinsExisting(ids: iset<RoomId>, limits: Limits, n: Node, c: ConnId, r: RoomId, passwordOk: bool)
    requires Separate(ids) && Inv(ids, n) && c in n.sessions && r in ids && Stored(n.manager, r).Some?
    ensures
      Joined(ids, limits, n, JoinStep(limits, n, c, r, passwordOk), c, r,
             MayJoin(n.manager, r, n.sessions[c].userId, passwordOk))
  {
    var m, u := n.manager, n.sessions[c].userId;
    var m1 := Looked(limits, m, r);
    LookedKeeps(ids, limits, m, r);
    SameRedis(ids, m, m1);
    JoinKeeps(ids, limits, m1, r, u, passwordOk);
    var m2 := Join(limits, m1, r, u, passwordOk).0;
    if MayJoin(m, r, u, passwordOk) {
      ChangedAfterLook(ids, m, m1, m2, r, Members(m, r) + {u});
    } else {
      SameRedis(ids, m, m2);
    }
  }

  lemma JoinsNew(ids: iset<RoomId>, limits: Limits, n: Node, c: ConnId, r: RoomId, passwordOk: bool)
    requires Separate(ids) && Inv(ids, n) && c in n.sessions && r in ids && Stored(n.manager, r).None?
    ensures Joined(ids, limits, n, JoinStep(limits, n, c, r, passwordOk), c, r, true)
  {
    var m, u, info := n.manager, n.sessions[c].userId, DefaultRoom(limits);
    LookedKeeps(ids, limits, m, r);
    CreateKeeps(ids, limits, m, r, info);
    var m1 := Create(limits, m, r, info).0;
    assert MayJoin(m1, r, u, passwordOk);
    JoinKeeps(ids, limits, m1, r, u, passwordOk);
  }

  /** A connection that asks to join gets the room, and its user becomes a participant,
      if and only if there was no such room or nothing speaks against joining it:
      membership, a full room, a password. Nothing else changes. */
  lemma JoinEffect(ids: iset<RoomId>, limits: Limits, n: Node, c: ConnId, r: RoomId, passwordOk: bool)
    requires Separate(ids) && Inv(ids, n) && c in n.sessions && r in ids
    ensures
      Joined(ids, limits, n, Next(limits, n, JoinRoom(c, r, passwordOk)), c, r,
             JoinGranted(n.manager, r, n.sessions[c].userId, passwordOk))
  {
    if Stored(n.manager, r).Some? {
      JoinsExisting(ids, limits, n, c, r, passwordOk);
    } else {
      JoinsNew(ids, limits, n, c, r, passwordOk);
    }
  }

  /** The answers of the room manager: to a join in the order in which reasons count. */
  lemma Answers(ids: iset<RoomId>, limits: Limits, m: Manager, r: RoomId, u: UserId, passwordOk: bool)
    requires Separate(ids) && ManagerInv(ids, m) && r in ids
    ensures
      var result := Join(limits, m, r, u, passwordOk).1;
      match Stored(m, r)
      case None => result == Failure("ROOM_NOT_FOUND")
      case Some(info) =>
        var full := 0 < info.maxParticipants <= |Members(m, r)|;
        var locked := info.passwordProtected && info.hasPassword && !passwordOk;
        && (result == Failure("ALREADY_JOINED") <==> u in Members(m, r))
        && (result == Failure("ROOM_FULL") <==> u !in Members(m, r) && full)
        && (result == Failure("UNAUTHORIZED") <==> u !in Members(m, r) && !full && locked)
        && (result == Success <==> u !in Members(m, r) && !full && !locked)
    ensures Leave(limits, m, r, u).1 == if Stored(m, r).Some? then Success else Failure("ROOM_NOT_FOUND")
    ensures forall info ::
      Create(limits, m, r, info).1 == if Stored(m, r).Some? then Failure("ALREADY_JOINED") else Success
  {
    LookedKeeps(ids, limits, m, r);
    assert Members(Looked(limits, m, r), r) == Members(m, r);
  }

  /** A look-up caches a room that exists if there is space, and drops nothing. */
  lemma LookUpCaches(ids: iset<RoomId>, limits: Limits, m: Manager, r: RoomId)
    requires Separate(ids) && ManagerInv(ids, m) && r in ids
    ensures Looked(limits, m, r).cache.Keys ==
      m.cache.Keys + (if Stored(m, r).Some? && |m.cache| < limits.maxCachedRooms then {r} else {})
  {
    LookedKeeps(ids, limits, m, r);
  }

  // ---- Leaving -----------------------------------------------------------------------

  /** Without user `u`, an empty room that is not persistent is gone. */
  function WithoutUser(m: Manager, r: RoomId, u: UserId): Option<RoomInfo> {
    if Stored(m, r).Some? && (Members(m, r) - {u} != {} || Stored(m, r).value.persistent) then Stored(m, r) else None
  }

  lemma LeaveOnce(ids: iset<RoomId>, limits: Limits, m: Manager, r: RoomId, u: UserId)
    requires Separate(ids) && ManagerInv(ids, m) && r in ids
    ensures
      var (m', result) := Leave(limits, m, r, u);
      && ManagerInv(ids, m') && (result.Success? <==> Stored(m, r).Some?)
      && OthersSame(ids, m, m', r)
      && Members(m', r) == Members(m, r) - {u} && Stored(m', r) == WithoutUser(m, r, u)
  {
    LeaveKeeps(ids, limits, m, r, u);
    if Stored(m, r).None? { SameRedis(ids, m, Leave(limits, m, r, u).0); }
  }

  /** A connection that asks to leave a room that exists loses it, its user is no
      participant any more, and the room goes with its last participant unless it is
      persistent. Nothing else changes. */
  lemma LeaveEffect(ids: iset<RoomId>, limits: Limits, n: Node, c: ConnId, r: RoomId)
    requires Separate(ids) && Inv(ids, n) && c in n.sessions && r in ids
    ensures
      var t, u := Next(limits, n, LeaveRoom(c, r)), n.sessions[c].userId;
      && t.sessions ==
           (if Stored(n.manager, r).Some?
            then n.sessions[c := n.sessions[c].(rooms := n.sessions[c].rooms - {r})] else n.sessions)
      && Members(t.manager, r) == Members(n.manager, r) - {u}
      && Stored(t.manager, r) == WithoutUser(n.manager, r, u)
      && OthersSame(ids, n.manager, t.manager, r)
  {
    LeaveOnce(ids, limits, n.manager, r, n.sessions[c].userId);
  }

  /** After user `u` has left the rooms of `order`. */
  ghost predicate LeftEach(ids: iset<RoomId>, m: Manager, m': Manager, u: UserId, order: seq<RoomId>) {
    forall x :: x in ids ==>
      && Members(m', x) == (if x in order then Members(m, x) - {u} else Members(m, x))
      && Stored(m', x) == (if x in order then WithoutUser(m, x, u) else Stored(m, x))
  }

  lemma LeftOneMore(ids: iset<RoomId>, m: Manager, m1: Manager, m': Manager, u: UserId, r: RoomId, rest: seq<RoomId>)
    requires OthersSame(ids, m, m1, r) && LeftEach(ids, m1, m', u, rest) && r !in rest
    requires Members(m1, r) == Members(m, r) - {u} && Stored(m1, r) == WithoutUser(m, r, u)
    ensures LeftEach(ids, m, m', u, [r] + rest)
  {
    forall x | x in ids
      ensures Members(m', x) == (if x in [r] + rest then Members(m, x) - {u} else Members(m, x))
      ensures Stored(m', x) == (if x in [r] + rest then WithoutUser(m, x, u) else Stored(m, x))
    {
      if x != r { assert Stored(m1, x) == Stored(m, x) && Members(m1, x) == Members(m, x); }
    }
  }

  lemma {:induction false} LeaveEachEffect(ids: iset<RoomId>, limits: Limits, m: Manager, u: UserId,
                                           order: seq<RoomId>)
    requires Separate(ids) && ManagerInv(ids, m) && forall r :: r in order ==> r in ids
    requires forall i, j :: 0 <= i < j < |order| ==> order[i] != order[j]
    ensures LeftEach(ids, m, LeaveEach(limits, m, u, order), u, order)
    decreases |order|
  {
    if order != [] {
      var r, rest := order[0], order[1..];
      assert r in ids;
      var m1 := Leave(limits, m, r, u).0;
      LeaveOnce(ids, limits, m, r, u);
      LeaveEachEffect(ids, limits, m1, u, rest);
      LeftOneMore(ids, m, m1, LeaveEach(limits, m1, u, rest), u, r, rest);
      assert order == [r] + rest;
    }
  }

  /** A connection that closes is gone, its user participates nowhere any more, and of
      its rooms those are gone where nobody is left and which are not persistent.
      Other rooms and connections stay as they are. */
  lemma DisconnectEffect(ids: iset<RoomId>, limits: Limits, n: Node, c: ConnId, order: seq<RoomId>)
    requires Separate(ids) && Inv(ids, n) && Enabled(n, Disconnect(c, order))
    ensures
      var t, u := Next(limits, n, Disconnect(c, order)), n.sessions[c].userId;
      && t.sessions == n.sessions - {c}
      && forall x :: x in ids ==>
           && Members(t.manager, x) == Members(n.manager, x) - {u}
           && Stored(t.manager, x)
                == (if x in n.sessions[c].rooms then WithoutUser(n.manager, x, u) else Stored(n.manager, x))
  {
    var u := n.sessions[c].userId;
    LeaveEachEffect(ids, limits, n.manager, u, order);
    forall x | x in ids && x !in order ensures u !in Members(n.manager, x) {
      assert x !in n.sessions[c].rooms;
    }
  }

  // ---- Creating and cleaning up ---------------------------------------------------------

  /** A room is created, empty, if and only if there is none; an existing one stays as
      it is. */
  lemma CreateEffect(ids: iset<RoomId>, limits: Limits, n: Node, r: RoomId, info: RoomInfo)
    requires Separate(ids) && Inv(ids, n) && r in ids
    ensures
      var t := Next(limits, n, CreateRoom(r, info));
      && t.sessions == n.sessions && Members(t.manager, r) == Members(n.manager, r)
      && Stored(t.manager, r) == (if Stored(n.manager, r).Some? then Stored(n.manager, r) else Some(info))
      && OthersSame(ids, n.manager, t.manager, r)
  {
    CreateKeeps(ids, limits, n.manager, r, info);
    if Stored(n.manager, r).Some? { SameRedis(ids, n.manager, Create(limits, n.manager, r, info).0); }
  }

  /** The room goes in a cleanup. */
  predicate Idle(m: Manager, r: RoomId) {
    r in m.cache && Members(m, r) == {} && !m.cache[r].info.persistent
  }

  /** After the rooms of `order` have been looked at. */
  ghost predicate Tidied(ids: iset<RoomId>, m: Manager, m': Manager, order: seq<RoomId>) {
    forall x :: x in ids ==>
      && Members(m', x) == Members(m, x)
      && Stored(m', x) == (if x in order && Idle(m, x) then None else Stored(m, x))
      && (x in m'.cache <==> x in m.cache && !(x in order && Idle(m, x)))
      && (x in m'.cache ==> m'.cache[x] == m.cache[x])
  }

  lemma TidiedOne(ids: iset<RoomId>, m: Manager, r: RoomId)
    requires Separate(ids) && ManagerInv(ids, m) && r in ids && r in m.cache
    ensures
      var m' := Swept(m, r, m.cache[r].info);
      ManagerInv(ids, m') && Tidied(ids, m, m', [r])
  {
    SweptKeeps(ids, m, r, m.cache[r].info);
  }

  lemma TidiedMore(ids: iset<RoomId>, m: Manager, m1: Manager, m': Manager, r: RoomId, rest: seq<RoomId>)
    requires Tidied(ids, m, m1, [r]) && Tidied(ids, m1, m', rest) && r !in rest
    ensures Tidied(ids, m, m', [r] + rest)
  {
    forall x | x in ids
      ensures Members(m', x) == Members(m, x)
      ensures Stored(m', x) == (if x in [r] + rest && Idle(m, x) then None else Stored(m, x))
      ensures x in m'.cache <==> x in m.cache && !(x in [r] + rest && Idle(m, x))
      ensures x in m'.cache ==> m'.cache[x] == m.cache[x]
    {
      if x != r { assert Idle(m1, x) <==> Idle(m, x); }
    }
  }

  lemma RestCached(ids: iset<RoomId>, m: Manager, m': Manager, order: seq<RoomId>)
    requires order != [] && Tidied(ids, m, m', [order[0]])
    requires forall r :: r in order ==> r in ids && r in m.cache
    requires forall i, j :: 0 <= i < j < |order| ==> order[i] != order[j]
    ensures order[0] !in order[1..] && forall r :: r in order[1..] ==> r in ids && r in m'.cache
  {
    forall r | r in order[1..] ensures r in ids && r in m'.cache {
      assert r in order && r != order[0];
    }
  }

  lemma {:induction false} CleanedEffect(ids: iset<RoomId>, m: Manager, order: seq<RoomId>)
    requires Separate(ids) && ManagerInv(ids, m)
    requires forall r :: r in order ==> r in ids && r in m.cache
    requires forall i, j :: 0 <= i < j < |order| ==> order[i] != order[j]
    ensures Tidied(ids, m, Cleaned(m, order), order)
    decreases |order|
  {
    if order != [] {
      var r, rest := order[0], order[1..];
      assert r in ids && r in m.cache;
      var m1 := Swept(m, r, m.cache[r].info);
      TidiedOne(ids, m, r);
      RestCached(ids, m, m1, order);
      CleanedEffect(ids, m1, rest);
      TidiedMore(ids, m, m1, Cleaned(m1, rest), r, rest);
      assert order == [r] + rest;
    }
  }

  /** A cleanup removes exactly the cached rooms that are empty and not persistent, from
      Redis and from the cache, and changes nothing else. */
  lemma CleanupEffect(ids: iset<RoomId>, limits: Limits, n: Node, order: seq<RoomId>)
    requires Separate(ids) && Inv(ids, n) && Enabled(n, Cleanup(order))
    ensures
      var t := Next(limits, n, Cleanup(order));
      && t.sessions == n.sessions
      && forall x :: x in ids ==>
           && Members(t.manager, x) == Members(n.manager, x)
           && Stored(t.manager, x) == (if Idle(n.manager, x) then None else Stored(n.manager, x))
           && (x in t.manager.cache <==> x in n.manager.cache && !Idle(n.manager, x))
  {
    CleanedEffect(ids, n.manager, order);
    forall x | x in n.manager.cache ensures x in order {}
  }

  // ---- Connections ------------------------------------------------------------------------

  /** A node has no more connections than it may, in every state a run reaches. */
  lemma {:induction false} ConnectionLimit(limits: Limits, n: Node, steps: seq<Step>)
    requires Runs(limits, n, steps) && |n.sessions| <= limits.maxConnectionsPerNode
    ensures |After(limits, n, steps).sessions| <= limits.maxConnectionsPerNode
    decreases |steps|
  {
    if steps != [] {
      OneStepLimit(limits, n, steps[0]);
      ConnectionLimit(limits, Next(limits, n, steps[0]), steps[1..]);
    }
  }

  lemma OneStepLimit(limits: Limits, n: Node, step: Step)
    requires Enabled(n, step) && |n.sessions| <= limits.maxConnectionsPerNode
    ensures |Next(limits, n, step).sessions| <= limits.maxConnectionsPerNode
  {
    var t := Next(limits, n, step);
    match step
    case JoinRoom(c, r, _) => assert t.sessions.Keys == n.sessions.Keys; SameSize(n.sessions, t.sessions);
    case LeaveRoom(c, r) => assert t.sessions.Keys == n.sessions.Keys; SameSize(n.sessions, t.sessions);
    case Disconnect(c, _) => assert t.sessions == n.sessions - {c}; Smaller(n.sessions, c);
    case Open(c, u, _) => if t != n { Larger(n.sessions, c, Session(u, {})); }
    case _ =>
  }

  lemma SameSize(x: map<ConnId, Session>, y: map<ConnId, Session>)
    requires x.Keys == y.Keys
    ensures |x| == |y|
  {
    assert |x| == |x.Keys| && |y| == |y.Keys|;
  }

  lemma Smaller(x: map<ConnId, Session>, c: ConnId)
    requires c in x
    ensures |x - {c}| == |x| - 1
  {
    assert (x - {c}).Keys == x.Keys - {c};
  }

  lemma Larger(x: map<ConnId, Session>, c: ConnId, session: Session)
    requires c !in x
    ensures |x[c := session]| == |x| + 1
  {
    assert x[c := session].Keys == x.Keys + {c};
  }

  /** A new one is turned away if and only if the node shuts down or has them all. */
  lemma OpenEffect(limits: Limits, n: Node, c: ConnId, u: UserId, shuttingDown: bool)
    requires Enabled(n, Open(c, u, shuttingDown)) && |n.sessions| <= limits.maxConnectionsPerNode
    ensures
      var t := Next(limits, n, Open(c, u, shuttingDown));
      && t.manager == n.manager
      && (c !in t.sessions <==> shuttingDown || |n.sessions| == limits.maxConnectionsPerNode)
      && t.sessions == if c in t.sessions then n.sessions[c := Session(u, {})] else n.sessions
  {}
}
