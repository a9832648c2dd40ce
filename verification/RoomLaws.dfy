/** Over ids whose keys do not collide, every run of a node keeps sessions, shared
    membership and cache in agreement; over others some run breaks it. */
module RoomLaws {
  import opened Wrappers
  import opened RoomModel
  import opened Sequences

  // ---- Keys ------------------------------------------------------------------------

  /** When a room and a set of participants are stored under the same key. */
  lemma SameKey(r': RoomId, r: RoomId)
    ensures RoomKey(r') == MembersKey(r) <==> r' == "participants:" + r
  {
    assert PARTICIPANTS_PREFIX == ROOM_PREFIX + "participants:";
    assert MembersKey(r) == ROOM_PREFIX + ("participants:" + r);
    SamePrefix(ROOM_PREFIX, r', "participants:" + r);
  }

  lemma OwnKeys(r: RoomId, x: RoomId)
    ensures RoomKey(r) == RoomKey(x) <==> r == x
    ensures MembersKey(r) == MembersKey(x) <==> r == x
  {
    SamePrefix(ROOM_PREFIX, r, x);
    SamePrefix(PARTICIPANTS_PREFIX, r, x);
  }

  lemma ApartKeys(ids: iset<RoomId>, r: RoomId, x: RoomId)
    requires Separate(ids) && r in ids && x in ids
    ensures RoomKey(r) != MembersKey(x)
  {
    SameKey(r, x);
  }

  // ---- What the operations of the manager do to membership ------------------------

  /** Stored rooms and membership are the same. */
  ghost predicate Same(ids: iset<RoomId>, m: Manager, m': Manager) {
    forall x :: x in ids ==> Stored(m', x) == Stored(m, x) && Members(m', x) == Members(m, x)
  }

  /** They are the same but for room `r`, whose participants are `users`. */
  ghost predicate Changed(ids: iset<RoomId>, m: Manager, m': Manager, r: RoomId, users: set<UserId>) {
    && Members(m', r) == users
    && forall x :: x in ids && x != r ==> Stored(m', x) == Stored(m, x) && Members(m', x) == Members(m, x)
  }

  /** No set of participants becomes unreadable. */
  ghost predicate StaysReadable(ids: iset<RoomId>, m: Manager, m': Manager) {
    forall x :: x in ids && Readable(m, x) ==> Readable(m', x)
  }

  lemma SetMembersFrame(ids: iset<RoomId>, m: Manager, r: RoomId, users: set<UserId>)
    requires Separate(ids) && r in ids
    ensures Changed(ids, m, SetMembers(m, r, users), r, users) && Stored(SetMembers(m, r, users), r) == Stored(m, r)
    ensures StaysReadable(ids, m, SetMembers(m, r, users))
  {
    forall x | x in ids ensures RoomKey(x) != MembersKey(r) && (x != r ==> MembersKey(x) != MembersKey(r)) {
      ApartKeys(ids, x, r);
      OwnKeys(x, r);
    }
  }

  lemma PutRoomFrame(ids: iset<RoomId>, m: Manager, r: RoomId, info: RoomInfo)
    requires Separate(ids) && r in ids
    ensures Changed(ids, m, PutRoom(m, r, info), r, Members(m, r)) && Stored(PutRoom(m, r, info), r) == Some(info)
    ensures StaysReadable(ids, m, PutRoom(m, r, info))
  {
    forall x | x in ids ensures RoomKey(r) != MembersKey(x) && (x != r ==> RoomKey(x) != RoomKey(r)) {
      ApartKeys(ids, r, x);
      OwnKeys(x, r);
    }
  }

  lemma DeleteFrame(ids: iset<RoomId>, m: Manager, r: RoomId)
    requires Separate(ids) && r in ids
    ensures Changed(ids, m, Delete(m, r), r, {}) && Stored(Delete(m, r), r).None?
    ensures StaysReadable(ids, m, Delete(m, r))
  {
    forall x | x in ids
      ensures RoomKey(x) != MembersKey(r) && RoomKey(r) != MembersKey(x)
      ensures x != r ==> RoomKey(x) != RoomKey(r) && MembersKey(x) != MembersKey(r)
    {
      ApartKeys(ids, x, r);
      ApartKeys(ids, r, x);
      OwnKeys(x, r);
    }
  }

  lemma LookedKeeps(ids: iset<RoomId>, limits: Limits, m: Manager, r: RoomId)
    requires ManagerInv(ids, m) && r in ids
    ensures ManagerInv(ids, Looked(limits, m, r)) && Looked(limits, m, r).redis == m.redis
    ensures Look(m, r) == if Stored(m, r).Some? then Found(Stored(m, r).value) else Missing
  {}

  lemma PersistedKeeps(ids: iset<RoomId>, m: Manager, r: RoomId, info: RoomInfo)
    requires Separate(ids) && ManagerInv(ids, m) && r in ids && Stored(m, r).None?
    ensures
      var m' := Persisted(m, r, info);
      ManagerInv(ids, m') && Changed(ids, m, m', r, {}) && Stored(m', r) == Some(info) && Members(m, r) == {}
  {
    var m1, m' := PutRoom(m, r, info), Persisted(m, r, info);
    PutRoomFrame(ids, m, r, info);
    assert m'.redis == m1.redis;
    forall x | x in ids ensures Stored(m', x) == Stored(m1, x) && Members(m', x) == Members(m1, x) {}
  }

  lemma CreateKeeps(ids: iset<RoomId>, limits: Limits, m: Manager, r: RoomId, info: RoomInfo)
    requires Separate(ids) && ManagerInv(ids, m) && r in ids
    ensures
      var (m', result) := Create(limits, m, r, info);
      && ManagerInv(ids, m') && (result.Success? <==> Stored(m, r).None?)
      && (if Stored(m, r).Some? then m'.redis == m.redis
          else Changed(ids, m, m', r, {}) && Stored(m', r) == Some(info) && Members(m, r) == {})
  {
    LookedKeeps(ids, limits, m, r);
    if Stored(m, r).None? { PersistedKeeps(ids, m, r, info); }
  }

  /** Changing the participants of an existing room, in Redis and in the cache. */
  lemma UpdateKeeps(ids: iset<RoomId>, m: Manager, r: RoomId, users: set<UserId>, shown: set<UserId>)
    requires Separate(ids) && ManagerInv(ids, m) && r in ids && Stored(m, r).Some?
    requires r in m.cache ==> shown == users
    ensures
      var m' := Recached(SetMembers(m, r, users), r, shown, |users|);
      ManagerInv(ids, m') && Changed(ids, m, m', r, users) && Stored(m', r) == Stored(m, r)
  {
    var m1, m' := SetMembers(m, r, users), Recached(SetMembers(m, r, users), r, shown, |users|);
    SetMembersFrame(ids, m, r, users);
    assert m'.redis == m1.redis;
    forall x | x in ids ensures Stored(m', x) == Stored(m1, x) && Members(m', x) == Members(m1, x) {}
  }

  lemma AdmittedKeeps(ids: iset<RoomId>, m: Manager, r: RoomId, u: UserId)
    requires Separate(ids) && ManagerInv(ids, m) && r in ids && Stored(m, r).Some? && u !in Members(m, r)
    ensures ManagerInv(ids, Admitted(m, r, u)) && Stored(Admitted(m, r, u), r) == Stored(m, r)
    ensures Changed(ids, m, Admitted(m, r, u), r, Members(m, r) + {u})
  {
    assert |Members(m, r) + {u}| == |Members(m, r)| + 1;
    UpdateKeeps(ids, m, r, Members(m, r) + {u}, CachedParticipants(m, r) + {u});
  }

  lemma DismissedKeeps(ids: iset<RoomId>, m: Manager, r: RoomId, u: UserId)
    requires Separate(ids) && ManagerInv(ids, m) && r in ids && Stored(m, r).Some?
    ensures ManagerInv(ids, Dismissed(m, r, u)) && Stored(Dismissed(m, r, u), r) == Stored(m, r)
    ensures Changed(ids, m, Dismissed(m, r, u), r, Members(m, r) - {u})
  {
    UpdateKeeps(ids, m, r, Members(m, r) - {u}, CachedParticipants(m, r) - {u});
  }

  lemma DeleteKeeps(ids: iset<RoomId>, m: Manager, r: RoomId)
    requires Separate(ids) && ManagerInv(ids, m) && r in ids
    ensures ManagerInv(ids, Delete(m, r)) && Changed(ids, m, Delete(m, r), r, {}) && Stored(Delete(m, r), r).None?
  {
    DeleteFrame(ids, m, r);
  }

  lemma SweptKeeps(ids: iset<RoomId>, m: Manager, r: RoomId, info: RoomInfo)
    requires Separate(ids) && ManagerInv(ids, m) && r in ids && Stored(m, r) == Some(info)
    ensures
      var m' := Swept(m, r, info);
      && ManagerInv(ids, m') && Changed(ids, m, m', r, Members(m, r))
      && Stored(m', r) == (if Members(m, r) != {} || info.persistent then Some(info) else None)
  {
    if Members(m, r) == {} { DeleteKeeps(ids, m, r); }
  }

  /** Two changes of the same room. */
  lemma ChangedTwice(ids: iset<RoomId>, m: Manager, m1: Manager, m2: Manager, r: RoomId, users: set<UserId>)
    requires Changed(ids, m, m1, r, users) && Changed(ids, m1, m2, r, users)
    ensures Changed(ids, m, m2, r, users)
  {}

  lemma ChangedAfterLook(ids: iset<RoomId>, m: Manager, m1: Manager, m2: Manager, r: RoomId, users: set<UserId>)
    requires m1.redis == m.redis && Changed(ids, m1, m2, r, users)
    ensures Changed(ids, m, m2, r, users)
  {
    forall x | x in ids ensures Stored(m1, x) == Stored(m, x) && Members(m1, x) == Members(m, x) {}
  }

  /** The reasons not to refuse a join. */
  predicate MayJoin(m: Manager, r: RoomId, u: UserId, passwordOk: bool) {
    && Stored(m, r).Some? && u !in Members(m, r)
    && var info := Stored(m, r).value;
       && (info.maxParticipants > 0 ==> |Members(m, r)| < info.maxParticipants)
       && (info.passwordProtected && info.hasPassword ==> passwordOk)
  }

  /** Over separate ids the join is refused for exactly these reasons, and otherwise
      adds the user to this room only. */
  lemma JoinKeeps(ids: iset<RoomId>, limits: Limits, m: Manager, r: RoomId, u: UserId, passwordOk: bool)
    requires Separate(ids) && ManagerInv(ids, m) && r in ids
    ensures
      var (m', result) := Join(limits, m, r, u, passwordOk);
      && ManagerInv(ids, m') && (result.Success? <==> MayJoin(m, r, u, passwordOk))
      && (if MayJoin(m, r, u, passwordOk)
          then Changed(ids, m, m', r, Members(m, r) + {u}) && Stored(m', r) == Stored(m, r)
          else m'.redis == m.redis)
  {
    var m1 := Looked(limits, m, r);
    LookedKeeps(ids, limits, m, r);
    assert Stored(m1, r) == Stored(m, r) && Members(m1, r) == Members(m, r);
    if MayJoin(m, r, u, passwordOk) {
      AdmittedKeeps(ids, m1, r, u);
      ChangedAfterLook(ids, m, m1, Admitted(m1, r, u), r, Members(m, r) + {u});
    }
  }

  /** Over separate ids leaving removes the user from this room only, and the room
      with the last one. */
  lemma LeaveKeeps(ids: iset<RoomId>, limits: Limits, m: Manager, r: RoomId, u: UserId)
    requires Separate(ids) && ManagerInv(ids, m) && r in ids
    ensures
      var (m', result) := Leave(limits, m, r, u);
      && ManagerInv(ids, m') && (result.Success? <==> Stored(m, r).Some?)
      && (if Stored(m, r).Some? then Changed(ids, m, m', r, Members(m, r) - {u})
          else m'.redis == m.redis && Members(m, r) == {})
      && Stored(m', r) == (if Stored(m, r).Some? && (Members(m, r) - {u} != {} || Stored(m, r).value.persistent)
                           then Stored(m, r) else None)
  {
    var m1 := Looked(limits, m, r);
    LookedKeeps(ids, limits, m, r);
    assert Stored(m1, r) == Stored(m, r) && Members(m1, r) == Members(m, r);
    if Stored(m, r).Some? {
      var m2, m3 := Dismissed(m1, r, u), Swept(Dismissed(m1, r, u), r, Stored(m, r).value);
      DismissedKeeps(ids, m1, r, u);
      SweptKeeps(ids, m2, r, Stored(m, r).value);
      ChangedTwice(ids, m1, m2, m3, r, Members(m, r) - {u});
      ChangedAfterLook(ids, m, m1, m3, r, Members(m, r) - {u});
    }
  }

  /** Membership is the same, and rooms that are left are the same. */
  ghost predicate Cleaner(ids: iset<RoomId>, m: Manager, m': Manager) {
    forall x :: x in ids ==> Members(m', x) == Members(m, x) && (Stored(m', x).Some? ==> Stored(m', x) == Stored(m, x))
  }

  lemma SweptCleans(ids: iset<RoomId>, m: Manager, r: RoomId, info: RoomInfo)
    requires Separate(ids) && ManagerInv(ids, m) && r in ids && Stored(m, r) == Some(info)
    ensures ManagerInv(ids, Swept(m, r, info)) && Cleaner(ids, m, Swept(m, r, info))
  {
    SweptKeeps(ids, m, r, info);
  }

  lemma {:induction false} CleanedKeeps(ids: iset<RoomId>, m: Manager, order: seq<RoomId>)
    requires Separate(ids) && ManagerInv(ids, m) && forall r :: r in order ==> r in ids
    ensures ManagerInv(ids, Cleaned(m, order)) && Cleaner(ids, m, Cleaned(m, order))
    decreases |order|
  {
    if order != [] {
      var r := order[0];
      assert r in ids;
      if r in m.cache {
        SweptCleans(ids, m, r, m.cache[r].info);
        CleanedKeeps(ids, Swept(m, r, m.cache[r].info), order[1..]);
      } else {
        CleanedKeeps(ids, m, order[1..]);
      }
    }
  }

  lemma SameRedis(ids: iset<RoomId>, m: Manager, m': Manager)
    requires m'.redis == m.redis
    ensures Same(ids, m, m')
  {
    forall x | x in ids ensures Stored(m', x) == Stored(m, x) && Members(m', x) == Members(m, x) {}
  }

  // ---- Sessions --------------------------------------------------------------------

  lemma NobodyElse(sessions: map<ConnId, Session>, c: ConnId, d: ConnId)
    requires DistinctUsers(sessions) && c in sessions && d in sessions
    ensures sessions[c].userId == sessions[d].userId <==> c == d
  {}

  lemma JoinAgrees(ids: iset<RoomId>, m: Manager, m': Manager, sessions: map<ConnId, Session>, c: ConnId, r: RoomId)
    requires SessionsAgree(ids, m, sessions) && DistinctUsers(sessions) && c in sessions && r in ids
    requires Changed(ids, m, m', r, Members(m, r) + {sessions[c].userId})
    ensures SessionsAgree(ids, m', sessions[c := sessions[c].(rooms := sessions[c].rooms + {r})])
  {
    var sessions' := sessions[c := sessions[c].(rooms := sessions[c].rooms + {r})];
    forall d, x | d in sessions' && x in ids
      ensures x in sessions'[d].rooms <==> sessions'[d].userId in Members(m', x)
    {
      NobodyElse(sessions, c, d);
      assert x in sessions[d].rooms <==> sessions[d].userId in Members(m, x);
    }
  }

  lemma LeaveAgrees(ids: iset<RoomId>, m: Manager, m': Manager, sessions: map<ConnId, Session>, c: ConnId, r: RoomId)
    requires SessionsAgree(ids, m, sessions) && DistinctUsers(sessions) && c in sessions && r in ids
    requires Changed(ids, m, m', r, Members(m, r) - {sessions[c].userId})
    ensures SessionsAgree(ids, m', sessions[c := sessions[c].(rooms := sessions[c].rooms - {r})])
  {
    var sessions' := sessions[c := sessions[c].(rooms := sessions[c].rooms - {r})];
    forall d, x | d in sessions' && x in ids
      ensures x in sessions'[d].rooms <==> sessions'[d].userId in Members(m', x)
    {
      NobodyElse(sessions, c, d);
      assert x in sessions[d].rooms <==> sessions[d].userId in Members(m, x);
    }
  }

  /** Connections keep their users, and new participants are connected. */
  lemma NoGhostsKept(ids: iset<RoomId>, m: Manager, m': Manager, sessions: map<ConnId, Session>,
                     sessions': map<ConnId, Session>)
    requires NoGhosts(ids, m, sessions)
    requires forall c :: c in sessions ==> c in sessions' && sessions'[c].userId == sessions[c].userId
    requires forall r, u :: r in ids && u in Members(m', r) ==> u in Members(m, r) || Connected(sessions', u)
    ensures NoGhosts(ids, m', sessions')
  {
    forall r, u | r in ids && u in Members(m', r) ensures Connected(sessions', u) {
      if u in Members(m, r) {
        assert Connected(sessions, u);
        var c :| c in sessions && sessions[c].userId == u;
        assert c in sessions' && sessions'[c].userId == u;
      }
    }
  }

  lemma JoinedNode(ids: iset<RoomId>, n: Node, m': Manager, c: ConnId, r: RoomId)
    requires Inv(ids, n) && c in n.sessions && r in ids && ManagerInv(ids, m')
    requires Changed(ids, n.manager, m', r, Members(n.manager, r) + {n.sessions[c].userId})
    requires Stored(m', r) == Stored(n.manager, r)
    ensures Inv(ids, Node(m', WithRoom(n, c, r), n.declared - {r}))
  {
    var u, sessions' := n.sessions[c].userId, WithRoom(n, c, r);
    JoinAgrees(ids, n.manager, m', n.sessions, c, r);
    assert sessions'[c].userId == u;
    NoGhostsKept(ids, n.manager, m', n.sessions, sessions');
    JoinedEmptyRooms(ids, n.manager, m', n.declared, r, u);
  }

  lemma JoinedEmptyRooms(ids: iset<RoomId>, m: Manager, m': Manager, declared: set<RoomId>, r: RoomId, u: UserId)
    requires EmptyRooms(ids, m, declared) && Changed(ids, m, m', r, Members(m, r) + {u})
    ensures EmptyRooms(ids, m', declared - {r})
  {
    assert u in Members(m', r);
  }

  lemma LeftEmptyRooms(ids: iset<RoomId>, m: Manager, m': Manager, declared: set<RoomId>, r: RoomId, u: UserId)
    requires EmptyRooms(ids, m, declared) && Changed(ids, m, m', r, Members(m, r) - {u}) && Stored(m, r).Some?
    requires Stored(m', r) == if Members(m, r) - {u} != {} || Stored(m, r).value.persistent then Stored(m, r) else None
    ensures EmptyRooms(ids, m', Remaining(declared, m'))
  {
    forall x | x in Remaining(declared, m') ensures Members(m', x) == {} {
      assert Members(m, x) == {};
    }
  }

  lemma LeftRoom(ids: iset<RoomId>, n: Node, m': Manager, c: ConnId, r: RoomId)
    requires Inv(ids, n) && c in n.sessions && r in ids && Stored(n.manager, r).Some? && ManagerInv(ids, m')
    requires Changed(ids, n.manager, m', r, Members(n.manager, r) - {n.sessions[c].userId})
    requires Stored(m', r) ==
      if Members(n.manager, r) - {n.sessions[c].userId} != {} || Stored(n.manager, r).value.persistent
      then Stored(n.manager, r) else None
    ensures Inv(ids, Node(m', WithoutRoom(n, c, r), Remaining(n.declared, m')))
  {
    LeaveAgrees(ids, n.manager, m', n.sessions, c, r);
    NoGhostsKept(ids, n.manager, m', n.sessions, WithoutRoom(n, c, r));
    LeftEmptyRooms(ids, n.manager, m', n.declared, r, n.sessions[c].userId);
  }

  lemma LeftNode(ids: iset<RoomId>, n: Node, limits: Limits, c: ConnId, r: RoomId)
    requires Separate(ids) && Inv(ids, n) && c in n.sessions && r in ids
    ensures Inv(ids, LeaveStep(limits, n, c, r))
  {
    var u := n.sessions[c].userId;
    var m' := Leave(limits, n.manager, r, u).0;
    LeaveKeeps(ids, limits, n.manager, r, u);
    if Stored(n.manager, r).Some? { LeftRoom(ids, n, m', c, r); } else { SameNode(ids, n, m'); }
  }

  lemma SameNode(ids: iset<RoomId>, n: Node, m': Manager)
    requires Inv(ids, n) && ManagerInv(ids, m') && m'.redis == n.manager.redis
    ensures Inv(ids, n.(manager := m'))
  {
    SameRedis(ids, n.manager, m');
  }

  /** A room comes into being, empty and declared. */
  lemma CreatedNode(ids: iset<RoomId>, n: Node, m': Manager, r: RoomId)
    requires Inv(ids, n) && ManagerInv(ids, m') && r in ids && Members(n.manager, r) == {} && Stored(m', r).Some?
    requires Changed(ids, n.manager, m', r, {})
    ensures Inv(ids, Node(m', n.sessions, n.declared + {r}))
  {
    assert forall x :: x in ids ==> Members(m', x) == Members(n.manager, x);
  }

  lemma CreateNode(ids: iset<RoomId>, limits: Limits, n: Node, r: RoomId, info: RoomInfo)
    requires Separate(ids) && Inv(ids, n) && r in ids
    ensures Inv(ids, CreateStep(limits, n, r, info))
  {
    CreateKeeps(ids, limits, n.manager, r, info);
    var m' := Create(limits, n.manager, r, info).0;
    if Stored(n.manager, r).Some? { SameNode(ids, n, m'); } else { CreatedNode(ids, n, m', r); }
  }

  lemma JoinNode(ids: iset<RoomId>, limits: Limits, n: Node, c: ConnId, r: RoomId, passwordOk: bool)
    requires Separate(ids) && Inv(ids, n) && c in n.sessions && r in ids
    ensures
      var joined := Join(limits, n.manager, r, n.sessions[c].userId, passwordOk);
      if joined.1.Success? then Inv(ids, Node(joined.0, WithRoom(n, c, r), n.declared - {r}))
      else Inv(ids, n.(manager := joined.0))
  {
    var u := n.sessions[c].userId;
    JoinKeeps(ids, limits, n.manager, r, u, passwordOk);
    var m' := Join(limits, n.manager, r, u, passwordOk).0;
    if MayJoin(n.manager, r, u, passwordOk) { JoinedNode(ids, n, m', c, r); } else { SameNode(ids, n, m'); }
  }

  lemma JoinStepNode(ids: iset<RoomId>, limits: Limits, n: Node, c: ConnId, r: RoomId, passwordOk: bool)
    requires Separate(ids) && Inv(ids, n) && c in n.sessions && r in ids
    ensures Inv(ids, JoinStep(limits, n, c, r, passwordOk))
  {
    var m := n.manager;
    LookedKeeps(ids, limits, m, r);
    if Stored(m, r).Some? {
      var looked := Looked(limits, m, r);
      SameNode(ids, n, looked);
      JoinNode(ids, limits, n.(manager := looked), c, r, passwordOk);
    } else {
      NewRoomNode(ids, limits, n, c, r, passwordOk);
    }
  }

  lemma NewRoomNode(ids: iset<RoomId>, limits: Limits, n: Node, c: ConnId, r: RoomId, passwordOk: bool)
    requires Separate(ids) && Inv(ids, n) && c in n.sessions && r in ids && Look(n.manager, r).Missing?
    requires Stored(n.manager, r).None?
    ensures Inv(ids, JoinStep(limits, n, c, r, passwordOk))
  {
    var info, u := DefaultRoom(limits), n.sessions[c].userId;
    CreateKeeps(ids, limits, n.manager, r, info);
    var m' := Create(limits, n.manager, r, info).0;
    CreatedNode(ids, n, m', r);
    assert MayJoin(m', r, u, passwordOk);
    JoinKeeps(ids, limits, m', r, u, passwordOk);
    JoinNode(ids, limits, Node(m', n.sessions, n.declared + {r}), c, r, passwordOk);
    assert n.declared + {r} - {r} == n.declared - {r};
  }

  // ---- Disconnection ------------------------------------------------------------------

  function LeaveSteps(limits: Limits, n: Node, c: ConnId, order: seq<RoomId>): Node
    requires c in n.sessions
    decreases |order|
  {
    if order == [] then n else LeaveSteps(limits, LeaveStep(limits, n, c, order[0]), c, order[1..])
  }

  lemma {:induction false} LeaveStepsInv(ids: iset<RoomId>, limits: Limits, n: Node, c: ConnId, order: seq<RoomId>)
    requires Separate(ids) && Inv(ids, n) && c in n.sessions && forall r :: r in order ==> r in ids
    ensures Inv(ids, LeaveSteps(limits, n, c, order))
    decreases |order|
  {
    if order != [] {
      assert order[0] in ids;
      LeftNode(ids, n, limits, c, order[0]);
      LeaveStepsInv(ids, limits, LeaveStep(limits, n, c, order[0]), c, order[1..]);
    }
  }

  /** No room has been created. */
  ghost predicate NoneNew(ids: iset<RoomId>, m: Manager, m': Manager) {
    forall r :: r in ids && Stored(m', r).Some? ==> Stored(m, r).Some?
  }

  /** What leaving all rooms one after the other amounts to. */
  ghost predicate LeftAll(ids: iset<RoomId>, limits: Limits, n: Node, c: ConnId, order: seq<RoomId>, t: Node)
    requires c in n.sessions
  {
    && t.sessions == n.sessions[c := n.sessions[c].(rooms := {})]
    && t.manager == LeaveEach(limits, n.manager, n.sessions[c].userId, order)
    && NoneNew(ids, n.manager, t.manager)
    && t.declared == Remaining(n.declared, t.manager)
  }

  lemma LeftNone(ids: iset<RoomId>, limits: Limits, n: Node, c: ConnId)
    requires Inv(ids, n) && c in n.sessions && n.sessions[c].rooms == {}
    ensures LeftAll(ids, limits, n, c, [], n)
  {
    assert n.sessions == n.sessions[c := n.sessions[c].(rooms := {})];
  }

  lemma RemainingTwice(ids: iset<RoomId>, declared: set<RoomId>, m1: Manager, m2: Manager)
    requires NoneNew(ids, m1, m2) && forall r :: r in declared ==> r in ids
    ensures Remaining(Remaining(declared, m1), m2) == Remaining(declared, m2)
  {}

  lemma LeaveEachHead(limits: Limits, m: Manager, u: UserId, order: seq<RoomId>, m1: Manager)
    requires order != [] && m1 == Leave(limits, m, order[0], u).0
    ensures LeaveEach(limits, m, u, order) == LeaveEach(limits, m1, u, order[1..])
  {}

  lemma LeftOneMore(ids: iset<RoomId>, limits: Limits, n: Node, c: ConnId, order: seq<RoomId>, n1: Node, t: Node)
    requires Inv(ids, n) && c in n.sessions && order != []
    requires n1.manager == Leave(limits, n.manager, order[0], n.sessions[c].userId).0
    requires n1.sessions == WithoutRoom(n, c, order[0]) && n1.declared == Remaining(n.declared, n1.manager)
    requires NoneNew(ids, n.manager, n1.manager) && LeftAll(ids, limits, n1, c, order[1..], t)
    ensures LeftAll(ids, limits, n, c, order, t)
  {
    LeaveEachHead(limits, n.manager, n.sessions[c].userId, order, n1.manager);
    RemainingTwice(ids, n.declared, n1.manager, t.manager);
    assert n1.sessions[c].userId == n.sessions[c].userId;
    assert n1.sessions[c := n1.sessions[c].(rooms := {})] == n.sessions[c := n.sessions[c].(rooms := {})];
  }

  lemma {:induction false} LeaveStepsShape(ids: iset<RoomId>, limits: Limits, n: Node, c: ConnId, order: seq<RoomId>)
    requires Separate(ids) && Inv(ids, n) && c in n.sessions && Lists(order, n.sessions[c].rooms)
    ensures LeftAll(ids, limits, n, c, order, LeaveSteps(limits, n, c, order))
    decreases |order|
  {
    if order == [] {
      assert forall r :: r in n.sessions[c].rooms ==> r in order;
      assert n.sessions[c].rooms == {};
      LeftNone(ids, limits, n, c);
    } else {
      ListsRest(order, n.sessions[c].rooms);
      LeftNode(ids, n, limits, c, order[0]);
      LeaveStepSucceeds(ids, limits, n, c, order[0]);
      var n1 := LeaveStep(limits, n, c, order[0]);
      LeaveStepsShape(ids, limits, n1, c, order[1..]);
      LeftOneMore(ids, limits, n, c, order, n1, LeaveSteps(limits, n1, c, order[1..]));
    }
  }

  lemma LeaveStepSucceeds(ids: iset<RoomId>, limits: Limits, n: Node, c: ConnId, r: RoomId)
    requires Separate(ids) && Inv(ids, n) && c in n.sessions && r in n.sessions[c].rooms
    ensures
      var t := LeaveStep(limits, n, c, r);
      && t == Node(Leave(limits, n.manager, r, n.sessions[c].userId).0, WithoutRoom(n, c, r),
                   Remaining(n.declared, t.manager))
      && NoneNew(ids, n.manager, t.manager)
  {
    assert n.sessions[c].userId in Members(n.manager, r);
    LeaveKeeps(ids, limits, n.manager, r, n.sessions[c].userId);
  }

  lemma ListsRest(order: seq<RoomId>, rooms: set<RoomId>)
    requires Lists(order, rooms) && order != []
    ensures order[0] in rooms && Lists(order[1..], rooms - {order[0]})
  {
    forall r ensures r in order[1..] <==> r in rooms - {order[0]} {
      if r in order[1..] {
        var i :| 0 <= i < |order| - 1 && order[1..][i] == r;
        assert order[i + 1] == r;
      }
      if r in rooms - {order[0]} {
        var i :| 0 <= i < |order| && order[i] == r;
        assert order[1..][i - 1] == r;
      }
    }
  }

  /** A session without rooms can go. */
  lemma ClosedNode(ids: iset<RoomId>, n: Node, c: ConnId)
    requires Inv(ids, n) && c in n.sessions && n.sessions[c].rooms == {}
    ensures Inv(ids, n.(sessions := n.sessions - {c}))
  {
    forall r, u | r in ids && u in Members(n.manager, r) ensures Connected(n.sessions - {c}, u) {
      assert Connected(n.sessions, u);
      var d :| d in n.sessions && n.sessions[d].userId == u;
      assert d != c;
      assert d in n.sessions - {c} && (n.sessions - {c})[d].userId == u;
    }
  }

  lemma DisconnectNode(ids: iset<RoomId>, limits: Limits, n: Node, c: ConnId, order: seq<RoomId>)
    requires Separate(ids) && Inv(ids, n) && Enabled(n, Disconnect(c, order))
    ensures Inv(ids, DisconnectStep(limits, n, c, order))
  {
    LeaveStepsInv(ids, limits, n, c, order);
    LeaveStepsShape(ids, limits, n, c, order);
    var t := LeaveSteps(limits, n, c, order);
    ClosedNode(ids, t, c);
    assert t.sessions - {c} == n.sessions - {c};
  }

  lemma CleanupNode(ids: iset<RoomId>, n: Node, order: seq<RoomId>)
    requires Separate(ids) && Inv(ids, n) && Lists(order, n.manager.cache.Keys)
    ensures Inv(ids, CleanupStep(n, order))
  {
    CleanedKeeps(ids, n.manager, order);
  }

  lemma OpenNode(ids: iset<RoomId>, limits: Limits, n: Node, c: ConnId, u: UserId, shuttingDown: bool)
    requires Inv(ids, n) && Enabled(n, Open(c, u, shuttingDown))
    ensures Inv(ids, OpenStep(limits, n, c, u, shuttingDown))
  {
    var sessions' := n.sessions[c := Session(u, {})];
    forall r | r in ids ensures u !in Members(n.manager, r) {
      assert u in Members(n.manager, r) ==> Connected(n.sessions, u);
    }
    NoGhostsKept(ids, n.manager, n.manager, n.sessions, sessions');
  }

  lemma NextKeeps(ids: iset<RoomId>, limits: Limits, n: Node, step: Step)
    requires Separate(ids) && Inv(ids, n) && Enabled(n, step) && StepOver(step, ids)
    ensures Inv(ids, Next(limits, n, step))
  {
    match step
    case Open(c, u, shuttingDown) => OpenNode(ids, limits, n, c, u, shuttingDown);
    case CreateRoom(r, info) => CreateNode(ids, limits, n, r, info);
    case JoinRoom(c, r, passwordOk) => JoinStepNode(ids, limits, n, c, r, passwordOk);
    case LeaveRoom(c, r) => LeftNode(ids, n, limits, c, r);
    case Disconnect(c, order) => DisconnectNode(ids, limits, n, c, order);
    case Cleanup(order) => CleanupNode(ids, n, order);
  }

  lemma {:induction false} RunKeeps(ids: iset<RoomId>, limits: Limits, n: Node, steps: seq<Step>)
    requires Separate(ids) && Inv(ids, n) && Runs(limits, n, steps) && Over(steps, ids)
    ensures Inv(ids, After(limits, n, steps))
    decreases |steps|
  {
    if steps != [] {
      NextKeeps(ids, limits, n, steps[0]);
      RunKeeps(ids, limits, Next(limits, n, steps[0]), steps[1..]);
    }
  }

  // ---- Agreement ------------------------------------------------------------------------

  /** A connection has a room in its set if and only if its user is a participant;
      every participant has a connection that has the room; a cached room exists and
      shows its actual participants; a room is empty only if it is persistent or has
      not been joined since it was created; and a room with participants exists. */
  ghost predicate Agrees(ids: iset<RoomId>, n: Node) {
    && (forall c, r :: c in n.sessions && r in ids ==>
          (r in n.sessions[c].rooms <==> n.sessions[c].userId in Members(n.manager, r)))
    && (forall r, u :: r in ids && u in Members(n.manager, r) ==>
          exists c :: c in n.sessions && n.sessions[c].userId == u && r in n.sessions[c].rooms)
    && (forall r :: r in n.manager.cache ==>
          Stored(n.manager, r).Some? && n.manager.cache[r].participants == Members(n.manager, r)
          && n.manager.cache[r].participantCount == |Members(n.manager, r)|)
    && (forall r :: r in ids && Stored(n.manager, r).Some? && Members(n.manager, r) == {} ==>
          Stored(n.manager, r).value.persistent || r in n.declared)
    && (forall r :: r in ids && Members(n.manager, r) != {} ==> Stored(n.manager, r).Some?)
  }

  lemma InvAgrees(ids: iset<RoomId>, n: Node)
    requires Inv(ids, n)
    ensures Agrees(ids, n)
  {
    forall r, u | r in ids && u in Members(n.manager, r)
      ensures exists c :: c in n.sessions && n.sessions[c].userId == u && r in n.sessions[c].rooms
    {
      assert Connected(n.sessions, u);
      var c :| c in n.sessions && n.sessions[c].userId == u;
      assert r in n.sessions[c].rooms;
    }
  }

  /** Agreement, in every state that a run over separate ids reaches. */
  lemma SessionsAndMembershipAgree(ids: iset<RoomId>, limits: Limits, steps: seq<Step>)
    requires Separate(ids) && Runs(limits, EMPTY, steps) && Over(steps, ids)
    ensures Agrees(ids, After(limits, EMPTY, steps))
  {
    RunKeeps(ids, limits, EMPTY, steps);
    InvAgrees(ids, After(limits, EMPTY, steps));
  }

  /** One connection joins `r` and then the room under whose key the participants of
      `r` are stored. Creating that room overwrites them. */
  function CollidingRun(r: RoomId): seq<Step> {
    [Open("c", "u", false), JoinRoom("c", r, false), JoinRoom("c", "participants:" + r, false)]
  }

  lemma JoinFirst(limits: Limits, n: Node, r: RoomId)
    requires "c" in n.sessions && r !in n.manager.cache && Readable(n.manager, r) && Members(n.manager, r) == {}
    requires n.manager == Manager(map[], map[]) && n.sessions == map["c" := Session("u", {})]
    ensures
      var t := JoinStep(limits, n, "c", r, false);
      && t.sessions == map["c" := Session("u", {r})]
      && t.manager.redis == map[RoomKey(r) := RoomValue(DefaultRoom(limits)), MembersKey(r) := MembersValue({"u"})]
      && t.manager.cache.Keys == {r}
  {
    var info := DefaultRoom(limits);
    var m := Persisted(n.manager, r, info);
    SameKey(r, r);
    LengthOfKey(r);
    assert Look(n.manager, r).Missing? && Ensured(limits, n.manager, r) == m;
    assert MembersKey(r) !in m.redis;
    assert Look(m, r) == Found(info) && Members(m, r) == {};
    assert Looked(limits, m, r).redis == m.redis;
    assert Join(limits, m, r, "u", false).1.Success?;
  }

  lemma LengthOfKey(r: RoomId)
    ensures RoomKey(r) != MembersKey(r)
  {
    assert |RoomKey(r)| < |MembersKey(r)|;
  }

  lemma JoinSecond(limits: Limits, n: Node, r: RoomId)
    requires n.sessions == map["c" := Session("u", {r})]
    requires n.manager.redis == map[RoomKey(r) := RoomValue(DefaultRoom(limits)), MembersKey(r) := MembersValue({"u"})]
    requires n.manager.cache.Keys == {r}
    ensures
      var t := JoinStep(limits, n, "c", "participants:" + r, false);
      && "c" in t.sessions && r in t.sessions["c"].rooms && t.sessions["c"].userId == "u"
      && !Readable(t.manager, r) && r in t.manager.cache
  {
    var p, info := "participants:" + r, DefaultRoom(limits);
    var m := Persisted(n.manager, p, info);
    SameKey(p, r);
    LengthOfKey(r);
    LengthOfKey(p);
    assert |p| > |r|;
    assert Look(n.manager, p).Missing? && Ensured(limits, n.manager, p) == m;
    OwnKeys(p, r);
    assert |MembersKey(p)| > |RoomKey(p)| > |RoomKey(r)|;
    assert MembersKey(p) !in m.redis;
    assert Look(m, p) == Found(info) && Members(m, p) == {};
    var m1 := Looked(limits, m, p);
    assert m1.redis == m.redis;
    assert Join(limits, m, p, "u", false) == (Admitted(m1, p, "u"), Success);
    assert Admitted(m1, p, "u").redis == m.redis[MembersKey(p) := MembersValue({"u"})];
  }

  /** Joins and leaves of a cached room fail whose participants cannot be read. */
  ghost predicate Stuck(limits: Limits, n: Node, c: ConnId, r: RoomId)
    requires c in n.sessions
  {
    && (forall u, ok :: Join(limits, n.manager, r, u, ok) == (n.manager, Failure("SERVER_ERROR")))
    && (forall u :: Leave(limits, n.manager, r, u) == (n.manager, Failure("SERVER_ERROR")))
    && (forall ok :: Next(limits, n, JoinRoom(c, r, ok)) == n)
    && Next(limits, n, LeaveRoom(c, r)) == n
  }

  lemma UnreadableStuck(limits: Limits, n: Node, c: ConnId, r: RoomId)
    requires c in n.sessions && r in n.manager.cache && !Readable(n.manager, r)
    ensures Stuck(limits, n, c, r)
  {}

  /** The run leaves a connection that has `r` in its set while its user is no
      participant of `r`. Whoever asks to join or to leave `r` fails, and nothing
      changes. */
  lemma CollisionDisagrees(limits: Limits, r: RoomId)
    requires limits.maxConnectionsPerNode > 0
    ensures Runs(limits, EMPTY, CollidingRun(r))
    ensures
      var n := After(limits, EMPTY, CollidingRun(r));
      && "c" in n.sessions && r in n.sessions["c"].rooms && n.sessions["c"].userId !in Members(n.manager, r)
      && !Readable(n.manager, r) && Stuck(limits, n, "c", r)
  {
    var run, p := CollidingRun(r), "participants:" + r;
    var n1 := Next(limits, EMPTY, Open("c", "u", false));
    assert n1 == Node(Manager(map[], map[]), map["c" := Session("u", {})], {});
    JoinFirst(limits, n1, r);
    var n2 := Next(limits, n1, JoinRoom("c", r, false));
    JoinSecond(limits, n2, r);
    var n3 := Next(limits, n2, JoinRoom("c", p, false));
    assert run[1..] == [JoinRoom("c", r, false), JoinRoom("c", p, false)] && run[1..][1..] == [JoinRoom("c", p, false)];
    assert run[1..][1..][1..] == [];
    assert Runs(limits, n3, []) && After(limits, n3, []) == n3;
    assert Runs(limits, n2, run[1..][1..]) && After(limits, n2, run[1..][1..]) == n3;
    assert Runs(limits, n1, run[1..]) && After(limits, n1, run[1..]) == n3;
    UnreadableStuck(limits, n3, "c", r);
  }

  /** Agreement in every state that a run over these ids reaches. */
  ghost predicate AlwaysAgrees(ids: iset<RoomId>, limits: Limits) {
    forall steps :: Runs(limits, EMPTY, steps) && Over(steps, ids) ==> Agrees(ids, After(limits, EMPTY, steps))
  }

  lemma SeparateAgrees(ids: iset<RoomId>, limits: Limits)
    requires Separate(ids)
    ensures AlwaysAgrees(ids, limits)
  {
    forall steps | Runs(limits, EMPTY, steps) && Over(steps, ids) ensures Agrees(ids, After(limits, EMPTY, steps)) {
      SessionsAndMembershipAgree(ids, limits, steps);
    }
  }

  lemma CollidingDisagrees(ids: iset<RoomId>, limits: Limits, r: RoomId)
    requires limits.maxConnectionsPerNode > 0 && r in ids && "participants:" + r in ids
    ensures !AlwaysAgrees(ids, limits)
  {
    CollisionDisagrees(limits, r);
    assert Over(CollidingRun(r), ids);
    assert !Agrees(ids, After(limits, EMPTY, CollidingRun(r)));
  }

  /** Sessions and membership agree in every run over a set of ids, if and only if no
      id of the set is another one behind "participants:". */
  lemma AgreementExact(ids: iset<RoomId>, limits: Limits)
    requires limits.maxConnectionsPerNode > 0
    ensures AlwaysAgrees(ids, limits) <==> Separate(ids)
  {
    if Separate(ids) {
      SeparateAgrees(ids, limits);
    } else {
      var r :| r in ids && "participants:" + r in ids;
      CollidingDisagrees(ids, limits, r);
    }
  }
}
