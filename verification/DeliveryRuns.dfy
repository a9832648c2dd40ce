/** Delivery told by the steps of a run: who was in which rooms when a message was taken
    from a node's queue. */
module DeliveryRuns {
  import opened Wrappers
  import opened Delivery

  /** The presence of a connection after these steps, None if it is not connected: in
      the rooms it has entered and not left since it connected, and open until it starts
      to close. */
  function PresentBy(steps: seq<Step>, n: NodeId, c: ConnId): Option<Presence>
    decreases |steps|
  {
    if steps == [] then None
    else
      var before := PresentBy(steps[..|steps| - 1], n, c);
      match steps[|steps| - 1]
      case StartNode(n') => if n' == n then None else before
      case StopNode(n') => if n' == n then None else before
      case Connect(n', c') => if n' == n && c' == c then Some(Presence({}, true)) else before
      case Close(n', c') => if n' == n && c' == c then None else before
      case StartClosing(n', c') =>
        if n' == n && c' == c && before.Some? then Some(Presence(before.value.rooms, false)) else before
      case Enter(n', c', r) =>
        if n' == n && c' == c && before.Some? then Some(Presence(before.value.rooms + {r}, before.value.open))
        else before
      case Exit(n', c', r) =>
        if n' == n && c' == c && before.Some? then Some(Presence(before.value.rooms - {r}, before.value.open))
        else before
      case _ => before
  }

  /** The presence of a connection in a state. */
  function PresentIn(s: Network, n: NodeId, c: ConnId): Option<Presence> {
    if n in s.nodes && c in s.nodes[n].sockets
    then Some(Presence(s.nodes[n].sockets[c].rooms, s.nodes[n].sockets[c].open)) else None
  }

  lemma {:induction false} RunSplit(s: Network, steps: seq<Step>, k: nat)
    requires Runs(s, steps) && k <= |steps|
    ensures Runs(s, steps[..k]) && Runs(After(s, steps[..k]), steps[k..])
    ensures After(After(s, steps[..k]), steps[k..]) == After(s, steps)
    decreases k
  {
    if k == 0 {
      assert steps[..0] == [] && steps[0..] == steps;
    } else {
      RunSplit(Next(s, steps[0]), steps[1..], k - 1);
      assert steps[..k][1..] == steps[1..][..k - 1] && steps[k..] == steps[1..][k - 1..];
    }
  }

  lemma LastStep(s: Network, steps: seq<Step>)
    requires Runs(s, steps) && steps != []
    ensures
      var front, last := steps[..|steps| - 1], steps[|steps| - 1];
      Runs(s, front) && Enabled(After(s, front), last) && After(s, steps) == Next(After(s, front), last)
  {
    var n := |steps| - 1;
    RunSplit(s, steps, n);
    var rest := steps[n..];
    assert rest[0] == steps[n] && |rest[1..]| == 0;
    assert After(Next(After(s, steps[..n]), rest[0]), rest[1..]) == Next(After(s, steps[..n]), rest[0]);
  }

  lemma StepPresence(s: Network, step: Step, n: NodeId, c: ConnId)
    requires Enabled(s, step)
    ensures
      var before, after := PresentIn(s, n, c), PresentIn(Next(s, step), n, c);
      after ==
        match step
        case StartNode(n') => if n' == n then None else before
        case StopNode(n') => if n' == n then None else before
        case Connect(n', c') => if n' == n && c' == c then Some(Presence({}, true)) else before
        case Close(n', c') => if n' == n && c' == c then None else before
        case StartClosing(n', c') =>
          if n' == n && c' == c && before.Some? then Some(Presence(before.value.rooms, false)) else before
        case Enter(n', c', r) =>
          if n' == n && c' == c && before.Some? then Some(Presence(before.value.rooms + {r}, before.value.open))
          else before
        case Exit(n', c', r) =>
          if n' == n && c' == c && before.Some? then Some(Presence(before.value.rooms - {r}, before.value.open))
          else before
        case _ => before
  {}

  /** The sockets of a node hold what the steps of the run say. */
  lemma {:induction false} PresenceFollows(steps: seq<Step>, n: NodeId, c: ConnId)
    requires Runs(EMPTY, steps)
    ensures PresentIn(After(EMPTY, steps), n, c) == PresentBy(steps, n, c)
    decreases |steps|
  {
    if steps != [] {
      var front, last := steps[..|steps| - 1], steps[|steps| - 1];
      LastStep(EMPTY, steps);
      PresenceFollows(front, n, c);
      StepPresence(After(EMPTY, front), last, n, c);
    }
  }

  /** Message `p`, position `i` of the log, was handed out when the connection was
      present like this. */
  ghost predicate Recorded(s: Network, n: NodeId, c: ConnId, i: int, p: Parcel, presence: Presence) {
    && Open(s, n, c) && Handed(s, n, c, i) && s.log[i] == p
    && var a := s.nodes[n].past[c]; a.seen[i - a.since] == presence
  }

  /** The connection does not go in this step. */
  predicate Stays(step: Step, n: NodeId, c: ConnId) {
    step != StopNode(n) && step != Close(n, c)
  }

  lemma RecordedKept(s: Network, step: Step, n: NodeId, c: ConnId, i: int, p: Parcel, presence: Presence)
    requires Recorded(s, n, c, i, p, presence) && Enabled(s, step) && Stays(step, n, c)
    ensures Recorded(Next(s, step), n, c, i, p, presence)
  {}

  lemma {:induction false} RecordedAfter(s: Network, steps: seq<Step>, n: NodeId, c: ConnId, i: int, p: Parcel,
                                         presence: Presence)
    requires Recorded(s, n, c, i, p, presence) && Runs(s, steps)
    requires forall k :: 0 <= k < |steps| ==> Stays(steps[k], n, c)
    ensures Recorded(After(s, steps), n, c, i, p, presence)
    decreases |steps|
  {
    if steps != [] {
      RecordedKept(s, steps[0], n, c, i, p, presence);
      RecordedAfter(Next(s, steps[0]), steps[1..], n, c, i, p, presence);
    }
  }

  lemma DeliverExtends(node: NodeState, c: ConnId)
    requires node.queue != [] && c in node.sockets && c in node.past
    ensures
      var node', a, e := Delivered(node), node.past[c], node.sockets[c];
      && c in node'.sockets && c in node'.past
      && node'.past[c] == Attendance(a.since, a.seen + [Presence(e.rooms, e.open)])
      && node'.past[c].seen[|a.seen|] == Presence(e.rooms, e.open)
  {}

  lemma NextInQueue(log: seq<Parcel>, node: NodeState, c: ConnId)
    requires NodeInv(log, node) && node.queue != [] && c in node.sockets
    ensures c in node.past && 0 <= |log| - |node.queue| < |log| && node.queue[0] == log[|log| - |node.queue|]
    ensures 0 <= node.past[c].since && node.past[c].since + |node.past[c].seen| == |log| - |node.queue|
  {
    assert Faithful(log, |log| - |node.queue|, node.sockets[c], node.past[c]);
    QueueTaken(log, node.queue);
  }

  lemma DeliverIs(s: Network, n: NodeId)
    requires Enabled(s, Deliver(n))
    ensures
      var t := Next(s, Deliver(n));
      t.log == s.log && n in t.nodes && t.nodes[n] == Delivered(s.nodes[n])
  {}

  lemma DeliverRecords(s: Network, n: NodeId, c: ConnId)
    requires Enabled(s, Deliver(n)) && NodeInv(s.log, s.nodes[n]) && c in s.nodes[n].sockets
    ensures
      Recorded(Next(s, Deliver(n)), n, c, Consumed(s, n), s.nodes[n].queue[0],
               Presence(s.nodes[n].sockets[c].rooms, s.nodes[n].sockets[c].open))
  {
    NextInQueue(s.log, s.nodes[n], c);
    DeliverExtends(s.nodes[n], c);
    DeliverIs(s, n);
  }

  lemma RecordedReceived(s: Network, n: NodeId, c: ConnId, i: int, p: Parcel, presence: Presence)
    requires Reached(s) && Recorded(s, n, c, i, p, presence)
    ensures p in s.nodes[n].sockets[c].received <==> Hears(presence, Route(p))
  {
    DeliveryIsFaithful(s, n, c);
  }

  lemma ReceivedAfter(s: Network, later: seq<Step>, n: NodeId, c: ConnId)
    requires Inv(s) && Enabled(s, Deliver(n)) && c in s.nodes[n].sockets
    requires Runs(Next(s, Deliver(n)), later) && Reached(After(Next(s, Deliver(n)), later))
    requires forall j :: 0 <= j < |later| ==> Stays(later[j], n, c)
    ensures
      var p, t, e := s.nodes[n].queue[0], After(Next(s, Deliver(n)), later), s.nodes[n].sockets[c];
      && n in t.nodes && c in t.nodes[n].sockets
      && (p in t.nodes[n].sockets[c].received <==> Hears(Presence(e.rooms, e.open), Route(p)))
  {
    var p, e, i := s.nodes[n].queue[0], s.nodes[n].sockets[c], Consumed(s, n);
    assert NodeInv(s.log, s.nodes[n]);
    DeliverRecords(s, n, c);
    RecordedAfter(Next(s, Deliver(n)), later, n, c, i, p, Presence(e.rooms, e.open));
    RecordedReceived(After(Next(s, Deliver(n)), later), n, c, i, p, Presence(e.rooms, e.open));
  }

  lemma SplitAt(steps: seq<Step>, k: nat)
    requires Runs(EMPTY, steps) && k < |steps|
    ensures Runs(EMPTY, steps[..k]) && Enabled(After(EMPTY, steps[..k]), steps[k])
    ensures Runs(Next(After(EMPTY, steps[..k]), steps[k]), steps[k + 1..])
    ensures After(Next(After(EMPTY, steps[..k]), steps[k]), steps[k + 1..]) == After(EMPTY, steps)
  {
    RunSplit(EMPTY, steps, k);
    var rest := steps[k..];
    assert rest[0] == steps[k] && rest[1..] == steps[k + 1..];
  }

  /** At any delivery of a run: a connection that was there, and is since, has received
      the message that the node took from its queue if and only if it was open then and
      in the room the message was routed to, going by the steps before. */
  lemma ReceivedByRun(steps: seq<Step>, k: nat, n: NodeId, c: ConnId)
    requires Runs(EMPTY, steps) && k < |steps| && steps[k] == Deliver(n)
    requires PresentBy(steps[..k], n, c).Some? && forall j :: k < j < |steps| ==> Stays(steps[j], n, c)
    ensures Runs(EMPTY, steps[..k])
    ensures
      var s, t := After(EMPTY, steps[..k]), After(EMPTY, steps);
      && n in s.nodes && s.nodes[n].queue != [] && n in t.nodes && c in t.nodes[n].sockets
      && var p, presence := s.nodes[n].queue[0], PresentBy(steps[..k], n, c).value;
         (p in t.nodes[n].sockets[c].received <==> presence.open && Route(p) in presence.rooms)
  {
    SplitAt(steps, k);
    PresenceFollows(steps[..k], n, c);
    RunKeeps(EMPTY, steps[..k]);
    ReceivedAfter(After(EMPTY, steps[..k]), steps[k + 1..], n, c);
  }
}
