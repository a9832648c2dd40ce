/** The room manager as it runs: Redis keys, and cached room objects updated in
    place. Every operation is proved to be the one of `RoomModel`. */
module RoomManagerObjects {
  import opened Wrappers
  import opened RoomModel

  class Room {
    const id: RoomId
    const info: RoomInfo
    var participants: set<UserId>
    var participantCount: nat

    constructor (id: RoomId, info: RoomInfo, participants: set<UserId>)
      ensures this.id == id && Value() == Cached(info, participants, |participants|)
    {
      this.id, this.info := id, info;
      this.participants, participantCount := participants, |participants|;
    }

    ghost function Value(): Cached
      reads this
    {
      Cached(info, participants, participantCount)
    }
  }

  class RoomManager {
    const limits: Limits
    var redis: map<Key, Value>
    var localRooms: map<RoomId, Room>

    constructor (limits: Limits)
      ensures this.limits == limits && Filed() && Abs() == EMPTY.manager && localRooms == map[]
    {
      this.limits := limits;
      redis, localRooms := map[], map[];
      new;
      assert Cache() == map[];
    }

    ghost function Cache(): map<RoomId, Cached>
      reads this`localRooms, localRooms.Values
    {
      map r | r in localRooms :: localRooms[r].Value()
    }

    ghost function Abs(): Manager
      reads this, localRooms.Values
    {
      Manager(redis, Cache())
    }

    /** Cached rooms are filed under their own ids, so no two names share one. */
    ghost predicate Filed()
      reads this`localRooms
    {
      forall r :: r in localRooms ==> localRooms[r].id == r
    }

    /** `room` is the cached object if there is one. */
    ghost predicate Current(room: Room)
      reads this`localRooms
    {
      room.id in localRooms ==> localRooms[room.id] == room
    }

    /** `get` of the room's key, wrong types caught. */
    method GetStored(roomId: RoomId) returns (info: Option<RoomInfo>)
      ensures info == Stored(Abs(), roomId)
    {
      var key := RoomKey(roomId);
      if key !in redis {
        return None;
      }
      match redis[key]
      case RoomValue(stored) => return Some(stored);
      case MembersValue(_) => return None;
    }

    /** `smembers`. None: the command throws, as the key holds no set. */
    method GetParticipants(roomId: RoomId) returns (users: Option<set<UserId>>)
      ensures users == if Readable(Abs(), roomId) then Some(Members(Abs(), roomId)) else None
    {
      var key := MembersKey(roomId);
      if key !in redis {
        return Some({});
      }
      match redis[key]
      case MembersValue(stored) => return Some(stored);
      case RoomValue(_) => return None;
    }

    method GetParticipantCount(roomId: RoomId) returns (count: Option<nat>)
      ensures count == if Readable(Abs(), roomId) then Some(|Members(Abs(), roomId)|) else None
    {
      var users := GetParticipants(roomId);
      count := if users.Some? then Some(|users.value|) else None;
    }

    method IsInRoom(roomId: RoomId, userId: UserId) returns (result: Option<bool>)
      ensures result == if Readable(Abs(), roomId) then Some(userId in Members(Abs(), roomId)) else None
    {
      var users := GetParticipants(roomId);
      result := if users.Some? then Some(userId in users.value) else None;
    }

    /** `sadd` and `srem`: a set that becomes empty is gone. */
    method StoreMembers(roomId: RoomId, users: set<UserId>)
      modifies this`redis
      ensures Abs() == SetMembers(old(Abs()), roomId, users)
    {
      if users == {} {
        redis := redis - {MembersKey(roomId)};
      } else {
        redis := redis[MembersKey(roomId) := MembersValue(users)];
      }
    }

    /** The room object's participants and count are changed in place. */
    method Touch(room: Room, participants: set<UserId>, count: nat)
      requires Filed() && Current(room)
      modifies room
      ensures Abs() == Recached(old(Abs()), room.id, participants, count)
      ensures room.participants == participants && room.participantCount == count
    {
      room.participants := participants;
      room.participantCount := count;
      assert Cache() == Recached(old(Abs()), room.id, participants, count).cache;
    }

    method CacheRoom(room: Room)
      requires Filed()
      modifies this`localRooms
      ensures Filed() && localRooms == old(localRooms)[room.id := room]
      ensures Abs() == old(Abs()).(cache := old(Cache())[room.id := room.Value()])
    {
      localRooms := localRooms[room.id := room];
      assert Cache() == old(Cache())[room.id := room.Value()];
    }

    /** A room that is stored, cached if there is space. */
    method FetchRoom(roomId: RoomId, info: RoomInfo, users: set<UserId>) returns (room: Room)
      requires Filed() && roomId !in localRooms && Look(Abs(), roomId) == Found(info) && users == Members(Abs(), roomId)
      modifies this`localRooms
      ensures Filed() && Abs() == Looked(limits, old(Abs()), roomId)
      ensures fresh(room) && room.id == roomId && room.info == info
      ensures localRooms == old(localRooms) || localRooms == old(localRooms)[roomId := room]
    {
      room := new Room(roomId, info, users);
      SizeOfCache();
      if |localRooms| < limits.maxCachedRooms {
        CacheRoom(room);
      }
    }

    /** The room, null if there is none. For a cached room the count may throw. */
    method GetRoom(roomId: RoomId) returns (room: Room?, thrown: bool)
      requires Filed()
      modifies this`localRooms, localRooms.Values
      ensures Filed() && Abs() == Looked(limits, old(Abs()), roomId)
      ensures thrown <==> Look(old(Abs()), roomId).Thrown?
      ensures room == null <==> !Look(old(Abs()), roomId).Found?
      ensures room != null ==>
        room.id == roomId && Current(room) && Look(old(Abs()), roomId) == Found(room.info)
        && (fresh(room) || room in old(localRooms.Values))
      ensures OnlyNew()
    {
      room, thrown := null, false;
      if roomId in localRooms {
        var count := GetParticipantCount(roomId);
        if count.None? {
          return null, true;
        }
        room := localRooms[roomId];
        Touch(room, room.participants, count.value);
        return;
      }
      var info := GetStored(roomId);
      if info.None? {
        return;
      }
      var users := GetParticipants(roomId);
      if users.None? {
        return;
      }
      room := FetchRoom(roomId, info.value, users.value);
    }

    lemma SizeOfCache()
      ensures |localRooms| == |Cache()|
    {
      assert localRooms.Keys == Cache().Keys;
    }

    /** The new room, stored and cached. */
    method PersistRoom(room: Room)
      requires Filed() && room.Value() == Cached(room.info, {}, 0)
      modifies this`redis, this`localRooms
      ensures Filed() && localRooms == old(localRooms)[room.id := room]
      ensures Abs() == Persisted(old(Abs()), room.id, room.info)
    {
      redis := redis[RoomKey(room.id) := RoomValue(room.info)];
      CacheRoom(room);
    }

    method PersistNew(roomId: RoomId, info: RoomInfo)
      requires Filed()
      modifies this`redis, this`localRooms
      ensures Filed() && OnlyNew() && Abs() == Persisted(old(Abs()), roomId, info)
    {
      var room := new Room(roomId, info, {});
      PersistRoom(room);
    }

    method CreateRoom(roomId: RoomId, info: RoomInfo) returns (result: Result)
      requires Filed()
      modifies this`redis, this`localRooms, localRooms.Values
      ensures Filed() && OnlyNew()
      ensures (Abs(), result) == Create(limits, old(Abs()), roomId, info)
    {
      var existing, thrown := GetRoom(roomId);
      if thrown {
        return Failure("SERVER_ERROR");
      }
      if existing != null {
        return Failure("ALREADY_JOINED");
      }
      PersistNew(roomId, info);
      return Success;
    }

    /** No object has come into the cache but new ones. */
    twostate predicate OnlyNew()
      reads this`localRooms
    {
      forall room :: room in localRooms.Values ==> fresh(room) || room in old(localRooms.Values)
    }

    method DeleteRoom(roomId: RoomId)
      requires Filed()
      modifies this`redis, this`localRooms
      ensures Filed() && Abs() == Delete(old(Abs()), roomId) && localRooms == old(localRooms) - {roomId}
    {
      redis := redis - {RoomKey(roomId), MembersKey(roomId)};
      localRooms := localRooms - {roomId};
      assert Cache() == old(Cache()) - {roomId};
    }

    /** Participants in Redis and in the room object. */
    method Update(room: Room, users: set<UserId>, shown: set<UserId>, count: nat)
      requires Filed() && Current(room)
      modifies this`redis, room
      ensures Abs() == Recached(SetMembers(old(Abs()), room.id, users), room.id, shown, count)
    {
      StoreMembers(room.id, users);
      Touch(room, shown, count);
    }

    method Admit(room: Room, userId: UserId)
      requires Filed() && Current(room) && Readable(Abs(), room.id)
      modifies this`redis, room
      ensures Abs() == Admitted(old(Abs()), room.id, userId)
    {
      var users := GetParticipants(room.id);
      Update(room, users.value + {userId}, room.participants + {userId}, |users.value| + 1);
    }

    method Dismiss(room: Room, userId: UserId)
      requires Filed() && Current(room) && Readable(Abs(), room.id)
      modifies this`redis, room
      ensures Abs() == Dismissed(old(Abs()), room.id, userId)
    {
      var users := GetParticipants(room.id);
      var left := users.value - {userId};
      Update(room, left, room.participants - {userId}, |left|);
    }

    /** Deletes the room if nobody is left in it. */
    method Sweep(roomId: RoomId, info: RoomInfo)
      requires Filed() && Readable(Abs(), roomId)
      modifies this`redis, this`localRooms
      ensures Filed() && Abs() == Swept(old(Abs()), roomId, info)
      ensures localRooms == old(localRooms) || localRooms == old(localRooms) - {roomId}
    {
      var count := GetParticipantCount(roomId);
      if count.value == 0 && !info.persistent {
        DeleteRoom(roomId);
      }
    }

    /** The checks of a join, in order. */
    method CheckJoin(room: Room, userId: UserId, passwordOk: bool) returns (refusal: Option<string>)
      requires Readable(Abs(), room.id)
      ensures refusal == Refusal(room.info, Members(Abs(), room.id), userId, passwordOk)
    {
      var isMember := IsInRoom(room.id, userId);
      if isMember.value {
        return Some("ALREADY_JOINED");
      }
      var count := GetParticipantCount(room.id);
      if room.info.maxParticipants > 0 && count.value >= room.info.maxParticipants {
        return Some("ROOM_FULL");
      }
      if room.info.passwordProtected && room.info.hasPassword && !passwordOk {
        return Some("UNAUTHORIZED");
      }
      return None;
    }

    /** The part of a join after the room was found. */
    method JoinExisting(room: Room, userId: UserId, passwordOk: bool) returns (result: Result)
      requires Filed() && Current(room) && Readable(Abs(), room.id)
      modifies this`redis, room
      ensures (Abs(), result) == JoinFound(old(Abs()), room.id, room.info, userId, passwordOk)
    {
      var refusal := CheckJoin(room, userId, passwordOk);
      if refusal.Some? {
        return Failure(refusal.value);
      }
      Admit(room, userId);
      return Success;
    }

    /** `passwordOk`: a password was given and hashes to the stored one. */
    method JoinRoom(roomId: RoomId, userId: UserId, passwordOk: bool) returns (result: Result)
      requires Filed()
      modifies this`redis, this`localRooms, localRooms.Values
      ensures Filed() && OnlyNew()
      ensures (Abs(), result) == Join(limits, old(Abs()), roomId, userId, passwordOk)
    {
      var room, thrown := GetRoom(roomId);
      if thrown {
        return Failure("SERVER_ERROR");
      }
      if room == null {
        return Failure("ROOM_NOT_FOUND");
      }
      result := JoinExisting(room, userId, passwordOk);
    }

    method LeaveRoom(roomId: RoomId, userId: UserId) returns (result: Result)
      requires Filed()
      modifies this`redis, this`localRooms, localRooms.Values
      ensures Filed() && OnlyNew()
      ensures (Abs(), result) == Leave(limits, old(Abs()), roomId, userId)
    {
      var room, thrown := GetRoom(roomId);
      if thrown {
        return Failure("SERVER_ERROR");
      }
      if room == null {
        return Failure("ROOM_NOT_FOUND");
      }
      Dismiss(room, userId);
      Sweep(roomId, room.info);
      return Success;
    }

    /** The room exists afterwards, unless the look-up throws. */
    method EnsureRoom(roomId: RoomId) returns (thrown: bool)
      requires Filed()
      modifies this`redis, this`localRooms, localRooms.Values
      ensures Filed() && OnlyNew() && Abs() == Ensured(limits, old(Abs()), roomId)
      ensures thrown <==> Look(old(Abs()), roomId).Thrown?
    {
      var existing;
      existing, thrown := GetRoom(roomId);
      if existing == null && !thrown {
        var result := CreateRoom(roomId, DefaultRoom(limits));
      }
    }

    /** What a connection that joins asks of the manager. */
    method EnsureAndJoin(roomId: RoomId, userId: UserId, passwordOk: bool) returns (result: Option<Result>)
      requires Filed()
      modifies this`redis, this`localRooms, localRooms.Values
      ensures Filed()
      ensures JoinedAs(old(Abs()), Abs(), limits, roomId, userId, passwordOk, result)
    {
      var thrown := EnsureRoom(roomId);
      if thrown {
        return None;
      }
      var joined := JoinRoom(roomId, userId, passwordOk);
      result := Some(joined);
    }

    /** What a connection that closes asks of it: to leave the rooms one after the
        other, in the order returned. */
    method LeaveRooms(rooms: set<RoomId>, userId: UserId) returns (ghost order: seq<RoomId>)
      requires Filed()
      modifies this`redis, this`localRooms, localRooms.Values
      ensures Filed() && Lists(order, rooms)
      ensures Abs() == LeaveEach(limits, old(Abs()), userId, order)
    {
      var todo := rooms;
      order := [];
      while todo != {}
        invariant Filed() && todo <= rooms && Lists(order, rooms - todo) && OnlyNew()
        invariant Abs() == LeaveEach(limits, old(Abs()), userId, order)
      {
        var roomId :| roomId in todo;
        LeaveEachLast(limits, old(Abs()), userId, order, roomId);
        ListsNext(order, rooms, todo, roomId);
        var result := LeaveRoom(roomId, userId);
        todo := todo - {roomId};
        order := order + [roomId];
      }
      assert rooms - todo == rooms;
    }

    /** One round of the periodic task, unless the count throws. */
    method CleanOne(roomId: RoomId) returns (thrown: bool)
      requires Filed() && roomId in localRooms
      modifies this`redis, this`localRooms
      ensures Filed() && (localRooms == old(localRooms) || localRooms == old(localRooms) - {roomId})
      ensures thrown <==> !Readable(old(Abs()), roomId)
      ensures Abs() == if thrown then old(Abs()) else CleanedOne(old(Abs()), roomId)
    {
      var count := GetParticipantCount(roomId);
      if count.None? {
        return true;
      }
      assert Abs().cache[roomId] == localRooms[roomId].Value();
      Sweep(roomId, localRooms[roomId].info);
      return false;
    }

    /** The periodic task: deletes the cached rooms that nobody is in, in the order
        returned, and ends early when a count throws. */
    method CleanupRooms() returns (ghost order: seq<RoomId>)
      requires Filed()
      modifies this`redis, this`localRooms
      ensures Filed() && Lists(order, old(Abs()).cache.Keys) && Abs() == Cleaned(old(Abs()), order)
    {
      var todo := localRooms.Keys;
      ghost var before := Abs();
      ghost var all := before.cache.Keys;
      order := [];
      while todo != {}
        invariant Filed() && todo <= all && todo <= localRooms.Keys && Lists(order, all - todo)
        invariant Completes(before, order) && Abs() == Cleaned(before, order)
      {
        var roomId :| roomId in todo;
        CleanedLast(before, order, roomId);
        var thrown := CleanOne(roomId);
        if thrown {
          order := StopAt(before, order, roomId, all, todo);
          return;
        }
        ListsNext(order, all, todo, roomId);
        todo := todo - {roomId};
        order := order + [roomId];
      }
      assert all - todo == all;
    }
  }

  /** The room is created unless it exists, and the user joins it or is refused; None
      if the look-up throws. */
  predicate JoinedAs(m: Manager, m': Manager, limits: Limits, r: RoomId, u: UserId, passwordOk: bool,
                     result: Option<Result>) {
    if Look(m, r).Thrown? then m' == m && result.None?
    else result.Some? && (m', result.value) == Join(limits, Ensured(limits, m, r), r, u, passwordOk)
  }

  function CleanedOne(m: Manager, r: RoomId): Manager {
    if r in m.cache then Swept(m, r, m.cache[r].info) else m
  }

  /** The periodic task comes to the end of these rooms. */
  predicate Completes(m: Manager, order: seq<RoomId>)
    decreases |order|
  {
    order == [] || (Readable(m, order[0]) && Completes(CleanedOne(m, order[0]), order[1..]))
  }

  /** What comes after rooms it came to the end of. */
  lemma {:induction false} CleanedOn(m: Manager, order: seq<RoomId>, rest: seq<RoomId>)
    requires Completes(m, order)
    ensures Cleaned(m, order + rest) == Cleaned(Cleaned(m, order), rest)
    ensures Completes(m, order + rest) <==> Completes(Cleaned(m, order), rest)
    decreases |order|
  {
    if order == [] {
      assert order + rest == rest;
    } else {
      assert (order + rest)[1..] == order[1..] + rest;
      CleanedOn(CleanedOne(m, order[0]), order[1..], rest);
    }
  }

  lemma CleanedLast(m: Manager, order: seq<RoomId>, r: RoomId)
    requires Completes(m, order)
    ensures Readable(Cleaned(m, order), r) ==>
      Completes(m, order + [r]) && Cleaned(m, order + [r]) == CleanedOne(Cleaned(m, order), r)
  {
    CleanedOn(m, order, [r]);
    assert [r][1..] == [];
  }

  /** The rooms that are not reached come last, in any order. */
  lemma StopAt(m: Manager, order: seq<RoomId>, r: RoomId, all: set<RoomId>, todo: set<RoomId>)
    returns (longer: seq<RoomId>)
    requires Completes(m, order) && !Readable(Cleaned(m, order), r)
    requires todo <= all && Lists(order, all - todo) && r in todo
    ensures Lists(longer, all) && Cleaned(m, longer) == Cleaned(m, order)
  {
    ListsOneMore(order, all - todo, r);
    var rest := Listing(order + [r], all - todo + {r}, todo - {r});
    CleanedOn(m, order, [r] + rest);
    longer := order + [r] + rest;
    assert longer == order + ([r] + rest);
    assert all - todo + {r} + (todo - {r}) == all;
  }

  /** More rooms can be listed behind others. */
  lemma {:induction false} Listing(order: seq<RoomId>, rooms: set<RoomId>, more: set<RoomId>)
    returns (rest: seq<RoomId>)
    requires Lists(order, rooms) && rooms !! more
    ensures Lists(order + rest, rooms + more)
    decreases more
  {
    if more == {} {
      rest := [];
      assert order + rest == order && rooms + more == rooms;
    } else {
      var r :| r in more;
      ListsOneMore(order, rooms, r);
      var tail := Listing(order + [r], rooms + {r}, more - {r});
      rest := [r] + tail;
      assert order + rest == order + [r] + tail && rooms + more == rooms + {r} + (more - {r});
    }
  }

  lemma {:induction false} LeaveEachLast(limits: Limits, m: Manager, u: UserId, order: seq<RoomId>, r: RoomId)
    ensures LeaveEach(limits, m, u, order + [r]) == Leave(limits, LeaveEach(limits, m, u, order), r, u).0
    decreases |order|
  {
    if order == [] {
      assert LeaveEach(limits, m, u, [r]) == LeaveEach(limits, Leave(limits, m, r, u).0, u, [r][1..]);
    } else {
      assert (order + [r])[1..] == order[1..] + [r];
      LeaveEachLast(limits, Leave(limits, m, order[0], u).0, u, order[1..], r);
    }
  }

  lemma ListsOneMore(order: seq<RoomId>, rooms: set<RoomId>, r: RoomId)
    requires Lists(order, rooms) && r !in rooms
    ensures Lists(order + [r], rooms + {r})
  {}

  /** One of the rooms still to do has been done. */
  lemma ListsNext(order: seq<RoomId>, rooms: set<RoomId>, todo: set<RoomId>, r: RoomId)
    requires Lists(order, rooms - todo) && r in todo && todo <= rooms
    ensures Lists(order + [r], rooms - (todo - {r}))
  {
    ListsOneMore(order, rooms - todo, r);
    assert rooms - todo + {r} == rooms - (todo - {r});
  }
}
