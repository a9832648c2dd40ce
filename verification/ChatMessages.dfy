/** A chat message from a connection: membership, then the rate limit of the room,
    then publication. */
module ChatMessages {
  import opened RoomModel
  import RoomServerObjects
  import D = Delivery
  import L = RateLimiter
  import W = SlidingWindow

  /** `Failed`: the membership test throws, as the key of the participants holds a
      room. */
  datatype Outcome = Failed | NotInRoom | RateLimited | Published(parcel: D.Parcel)

  /** The limiter's key for a room, and the attempts under it once this one is made. */
  ghost function Attempts(limiter: L.RateLimiter, roomId: RoomId, attempt: W.Attempt): seq<W.Attempt>
    reads limiter`logs
  {
    limiter.Log(limiter.FullKey("room:" + roomId)) + [attempt]
  }

  /** A message is turned away for membership exactly when the user is no participant,
      at no cost to the room; a participant's message is published exactly when the
      attempts on the room in the last window, this one included, are within the
      limit. In every state that a run over separate ids reaches, the participants are
      those whose own connection has joined, and the test does not fail. */
  method HandleChatMessage(server: RoomServerObjects.Server, limiter: L.RateLimiter, conn: RoomServerObjects.Connection,
                           roomId: RoomId, messageId: string, now: nat, nonce: string, ghost ids: iset<RoomId>)
    returns (outcome: Outcome)
    requires server.Bound() && server.Live(conn) && limiter.Valid()
    requires W.Proper(Attempts(limiter, roomId, W.Attempt(now, nonce)))
    modifies limiter`windows, limiter`logs
    ensures limiter.Valid()
    ensures outcome.Failed? <==> !Readable(server.manager.Abs(), roomId)
    ensures outcome.NotInRoom? <==>
      Readable(server.manager.Abs(), roomId) && conn.userId !in Members(server.manager.Abs(), roomId)
    ensures outcome.Failed? || outcome.NotInRoom? ==> limiter.windows == old(limiter.windows)
    ensures outcome.Published? <==>
      conn.userId in Members(server.manager.Abs(), roomId) &&
      W.InLastWindow(old(Attempts(limiter, roomId, W.Attempt(now, nonce))), limiter.windowMs)
        <= limiter.maxRequestsPerRoom + limiter.burstAllowance
    ensures outcome.Published? ==> outcome.parcel == D.Parcel(messageId, roomId)
    ensures !outcome.Failed? && !outcome.NotInRoom? ==>
      limiter.Log(limiter.FullKey("room:" + roomId)) == old(Attempts(limiter, roomId, W.Attempt(now, nonce)))
    ensures Inv(ids, server.Abs()) && roomId in ids ==>
      !outcome.Failed? && (outcome.NotInRoom? <==> roomId !in conn.rooms)
  {
    MemberHasRoom(ids, server.Abs(), conn.connectionId, roomId);
    var inRoom := server.manager.IsInRoom(roomId, conn.userId);
    if inRoom.None? {
      return Failed;
    }
    if !inRoom.value {
      return NotInRoom;
    }
    var limit := limiter.CheckRoomLimit(roomId, now, nonce);
    if !limit.allowed {
      return RateLimited;
    }
    return Published(D.Parcel(messageId, roomId));
  }

  lemma MemberHasRoom(ids: iset<RoomId>, n: Node, c: ConnId, r: RoomId)
    requires c in n.sessions
    ensures Inv(ids, n) && r in ids ==>
      Readable(n.manager, r) && (r in n.sessions[c].rooms <==> n.sessions[c].userId in Members(n.manager, r))
  {}
}
