/** Sessions and membership of one room when handlers interleave. A join adds the user
    to the participants and, some awaits later, the room to the connection's set; a
    leave, or a connection that closes, removes them the same way, and may find the
    room empty and delete it in between, as the periodic cleanup does. */
module SessionRaces {

  /** Users, each with one connection, and handler calls, numbered. */
  type UserId = nat
  type CallId = nat

  /** How far a call has come. A join: begun, found not to participate, added. A leave
      or a close: begun, removed, found the room empty, done with the participants. A
      cleanup begins where these have removed their user. */
  datatype Phase =
    | Joining | Admitted | Added
    | Leaving | Removed | Deleting | Finishing

  datatype Kind = Joins | Leaves | Closes | Cleans

  /** The user is of no account in a cleanup. */
  datatype Call = Call(user: UserId, phase: Phase, kind: Kind)

  /** Open connections, those that have the room in their set, the participants in
      Redis, and the calls in progress. */
  datatype Room = Room(open: set<UserId>, inRoom: set<UserId>, members: set<UserId>, calls: map<CallId, Call>)

  const EMPTY := Room({}, {}, {}, map[])

  /** Which calls a join may overlap. */
  datatype Overlap = Overlap(withLeave: bool, withClose: bool, withCleanup: bool)

  datatype Step =
    | Open(user: UserId)
    | BeginJoin(call: CallId, user: UserId)
    | BeginLeave(call: CallId, user: UserId)
    | BeginClose(call: CallId, user: UserId)
    | BeginCleanup(call: CallId)
    | Refuse(call: CallId)
    | Check(call: CallId)
    | Add(call: CallId)
    | Record(call: CallId)
    | Remove(call: CallId)
    | Count(call: CallId, sweep: bool)
    | Sweep(call: CallId)
    | Finish(call: CallId)

  predicate Without(s: Room, kind: Kind) {
    forall k :: k in s.calls ==> s.calls[k].kind != kind
  }

  predicate Closing(s: Room, u: UserId) {
    exists k :: k in s.calls && s.calls[k].kind.Closes? && s.calls[k].user == u
  }

  /** The connection of the user is open and does not close yet. */
  predicate Live(s: Room, u: UserId) {
    u in s.open && !Closing(s, u)
  }

  predicate InPhase(s: Room, k: CallId, phase: Phase) {
    k in s.calls && s.calls[k].phase == phase
  }

  /** Messages come from open connections that do not close yet. A room that is not
      found, a full one and so on end a join or a leave at its beginning. */
  predicate Enabled(s: Room, step: Step, o: Overlap) {
    match step
    case Open(u) => u !in s.open && u !in s.inRoom
    case BeginJoin(k, u) =>
      && k !in s.calls && Live(s, u) && (o.withLeave || Without(s, Leaves))
      && (o.withClose || Without(s, Closes)) && (o.withCleanup || Without(s, Cleans))
    case BeginLeave(k, u) => k !in s.calls && Live(s, u) && (o.withLeave || Without(s, Joins))
    case BeginClose(k, u) => k !in s.calls && Live(s, u) && (o.withClose || Without(s, Joins))
    case BeginCleanup(k) => k !in s.calls && (o.withCleanup || Without(s, Joins))
    case Refuse(k) =>
      k in s.calls && !s.calls[k].kind.Closes?
      && (s.calls[k].phase.Joining? || s.calls[k].phase.Admitted? || s.calls[k].phase.Leaving?)
    case Check(k) => InPhase(s, k, Joining)
    case Add(k) => InPhase(s, k, Admitted)
    case Record(k) => InPhase(s, k, Added)
    case Remove(k) => InPhase(s, k, Leaving)
    case Count(k, sweep) => InPhase(s, k, Removed) && (sweep ==> s.members == {})
    case Sweep(k) => InPhase(s, k, Deleting)
    case Finish(k) => InPhase(s, k, Finishing)
  }

  function Advance(s: Room, k: CallId, phase: Phase): Room
    requires k in s.calls
  {
    s.(calls := s.calls[k := s.calls[k].(phase := phase)])
  }

  function End(s: Room, k: CallId): Room {
    s.(calls := s.calls - {k})
  }

  /** A connection that closes leaves the room if it is in its set. */
  function Next(s: Room, step: Step, o: Overlap): Room
    requires Enabled(s, step, o)
  {
    match step
    case Open(u) => s.(open := s.open + {u})
    case BeginJoin(k, u) => s.(calls := s.calls[k := Call(u, Joining, Joins)])
    case BeginLeave(k, u) => s.(calls := s.calls[k := Call(u, Leaving, Leaves)])
    case BeginClose(k, u) => s.(calls := s.calls[k := Call(u, if u in s.inRoom then Leaving else Finishing, Closes)])
    case BeginCleanup(k) => s.(calls := s.calls[k := Call(0, Removed, Cleans)])
    case Refuse(k) => End(s, k)
    case Check(k) => if s.calls[k].user in s.members then End(s, k) else Advance(s, k, Admitted)
    case Add(k) => Advance(s, k, Added).(members := s.members + {s.calls[k].user})
    case Record(k) => End(s, k).(inRoom := s.inRoom + {s.calls[k].user})
    case Remove(k) => Advance(s, k, Removed).(members := s.members - {s.calls[k].user})
    case Count(k, sweep) => Advance(s, k, if sweep then Deleting else Finishing)
    case Sweep(k) => Advance(s, k, Finishing).(members := {})
    case Finish(k) => Finished(End(s, k), s.calls[k].user, s.calls[k].kind)
  }

  function Finished(s: Room, u: UserId, kind: Kind): Room {
    match kind
    case Closes => s.(open := s.open - {u})
    case Leaves => s.(inRoom := s.inRoom - {u})
    case _ => s
  }

  predicate Runs(s: Room, steps: seq<Step>, o: Overlap)
    decreases |steps|
  {
    steps == [] || (Enabled(s, steps[0], o) && Runs(Next(s, steps[0], o), steps[1..], o))
  }

  function After(s: Room, steps: seq<Step>, o: Overlap): Room
    requires Runs(s, steps, o)
    decreases |steps|
  {
    if steps == [] then s else After(Next(s, steps[0], o), steps[1..], o)
  }

  /** When nothing is in progress, the participants are the users whose connections are
      open and have the room in their sets. */
  predicate AgreesAtRest(s: Room) {
    s.calls == map[] ==> s.members == s.open * s.inRoom
  }

  // ---- Without overlap --------------------------------------------------------------

  const APART := Overlap(false, false, false)

  /** A join of the user has added it and not recorded it yet. */
  predicate AddedBy(s: Room, u: UserId) {
    exists k :: k in s.calls && s.calls[k] == Call(u, Added, Joins)
  }

  /** A leave or a close of the user has removed it. */
  predicate RemovedBy(s: Room, u: UserId) {
    exists k :: k in s.calls && s.calls[k].user == u && HasRemoved(s.calls[k])
  }

  predicate Past(phase: Phase) {
    phase.Removed? || phase.Deleting? || phase.Finishing?
  }

  predicate OfJoin(call: Call) {
    call.kind.Joins? && (call.phase.Joining? || call.phase.Admitted? || call.phase.Added?)
  }

  predicate OfLeave(call: Call) {
    !call.kind.Joins? && (Past(call.phase) || (call.phase.Leaving? && !call.kind.Cleans?))
  }

  predicate HasRemoved(call: Call) {
    !call.kind.Cleans? && Past(call.phase)
  }

  ghost predicate WhileJoining(s: Room) {
    && (forall k :: k in s.calls ==> OfJoin(s.calls[k]) && s.calls[k].user in s.open)
    && (forall u :: u in s.members <==> (u in s.open && u in s.inRoom) || AddedBy(s, u))
  }

  ghost predicate WhileLeaving(s: Room) {
    && (forall k :: k in s.calls ==> OfLeave(s.calls[k]))
    && (forall u :: u in s.members ==> u in s.open && u in s.inRoom)
    && (forall u :: u in s.open && u in s.inRoom && u !in s.members ==> RemovedBy(s, u))
    && (forall k :: k in s.calls && s.calls[k].phase.Deleting? ==> s.members == {})
    && (forall k :: k in s.calls && HasRemoved(s.calls[k]) ==> s.calls[k].user !in s.members)
  }

  ghost predicate Inv(s: Room) {
    WhileJoining(s) || WhileLeaving(s)
  }

  lemma AtRestBoth(s: Room)
    requires Inv(s) && s.calls == map[]
    ensures WhileJoining(s) && WhileLeaving(s)
  {}

  /** No other call is of the other kind, so the state is like one at rest. */
  lemma ReadyToJoin(s: Room)
    requires Inv(s) && Without(s, Leaves) && Without(s, Closes) && Without(s, Cleans)
    ensures WhileJoining(s)
  {
    if !WhileJoining(s) {
      forall k ensures k !in s.calls {}
      assert s.calls == map[];
      AtRestBoth(s);
    }
  }

  lemma ReadyToLeave(s: Room)
    requires Inv(s) && Without(s, Joins)
    ensures WhileLeaving(s)
  {
    if !WhileLeaving(s) {
      forall k ensures k !in s.calls {}
      assert s.calls == map[];
      AtRestBoth(s);
    }
  }

  lemma JoinSide(s: Room, step: Step)
    requires WhileJoining(s) && Enabled(s, step, APART)
    requires step.BeginJoin? || step.Refuse? || step.Check? || step.Add? || step.Record?
    ensures WhileJoining(Next(s, step, APART))
  {
    var t := Next(s, step, APART);
    forall u ensures u in t.members <==> (u in t.open && u in t.inRoom) || AddedBy(t, u) {
      if AddedBy(s, u) {
        var k :| k in s.calls && s.calls[k] == Call(u, Added, Joins);
        assert (k in t.calls && t.calls[k] == s.calls[k]) || (step == Record(k) && u in t.inRoom);
      }
      if step.Add? && s.calls[step.call].user == u {
        assert t.calls[step.call] == Call(u, Added, Joins);
      }
    }
  }

  lemma StillRemoved(s: Room, t: Room, u: UserId)
    requires RemovedBy(s, u)
    requires forall k :: k in s.calls && s.calls[k].user == u && HasRemoved(s.calls[k]) ==>
      k in t.calls && t.calls[k].user == u && HasRemoved(t.calls[k])
    ensures RemovedBy(t, u)
  {
    var k :| k in s.calls && s.calls[k].user == u && HasRemoved(s.calls[k]);
    assert k in t.calls && t.calls[k].user == u && HasRemoved(t.calls[k]);
  }

  lemma LeaveSide(s: Room, step: Step)
    requires WhileLeaving(s) && Enabled(s, step, APART)
    requires step.BeginLeave? || step.BeginClose? || step.BeginCleanup? || step.Refuse? || step.Remove? || step.Count?
      || step.Sweep?
    ensures WhileLeaving(Next(s, step, APART))
  {
    var t := Next(s, step, APART);
    forall u | u in t.open && u in t.inRoom && u !in t.members ensures RemovedBy(t, u) {
      if u in s.members {
        assert step.Remove? && s.calls[step.call].user == u;
        assert t.calls[step.call].user == u && HasRemoved(t.calls[step.call]);
      } else {
        StillRemoved(s, t, u);
      }
    }
  }

  lemma FinishSide(s: Room, k: CallId)
    requires WhileLeaving(s) && Enabled(s, Finish(k), APART)
    ensures WhileLeaving(Next(s, Finish(k), APART))
  {
    var t := Next(s, Finish(k), APART);
    forall u | u in t.open && u in t.inRoom && u !in t.members ensures RemovedBy(t, u) {
      assert !s.calls[k].kind.Cleans? ==> u != s.calls[k].user;
      StillRemoved(s, t, u);
    }
  }

  lemma OpenSide(s: Room, u: UserId)
    requires Inv(s) && Enabled(s, Open(u), APART)
    ensures Inv(Next(s, Open(u), APART))
  {
    var t := Next(s, Open(u), APART);
    if WhileJoining(s) {
      forall v ensures AddedBy(t, v) <==> AddedBy(s, v) {}
    } else {
      forall v | v in t.open && v in t.inRoom && v !in t.members ensures RemovedBy(t, v) {
        StillRemoved(s, t, v);
      }
    }
  }

  lemma NextKeeps(s: Room, step: Step)
    requires Inv(s) && Enabled(s, step, APART)
    ensures Inv(Next(s, step, APART))
  {
    match step
    case Open(u) => OpenSide(s, u);
    case BeginJoin(_, _) => ReadyToJoin(s); JoinSide(s, step);
    case BeginLeave(_, _) => ReadyToLeave(s); LeaveSide(s, step);
    case BeginClose(_, _) => ReadyToLeave(s); LeaveSide(s, step);
    case BeginCleanup(_) => ReadyToLeave(s); LeaveSide(s, step);
    case Refuse(_) => if WhileJoining(s) { JoinSide(s, step); } else { LeaveSide(s, step); }
    case Finish(k) => FinishSide(s, k);
    case Check(_) => JoinSide(s, step);
    case Add(_) => JoinSide(s, step);
    case Record(_) => JoinSide(s, step);
    case _ => LeaveSide(s, step);
  }

  lemma {:induction false} RunKeeps(s: Room, steps: seq<Step>)
    requires Inv(s) && Runs(s, steps, APART)
    ensures Inv(After(s, steps, APART))
    decreases |steps|
  {
    if steps != [] {
      NextKeeps(s, steps[0]);
      RunKeeps(Next(s, steps[0], APART), steps[1..]);
    }
  }

  /** If joins overlap neither leaves nor closes nor the cleanup, sessions and
      membership agree whenever nothing is in progress. */
  lemma ApartAgrees(steps: seq<Step>)
    requires Runs(EMPTY, steps, APART)
    ensures AgreesAtRest(After(EMPTY, steps, APART))
  {
    assert WhileJoining(EMPTY);
    RunKeeps(EMPTY, steps);
  }

  // ---- With overlap --------------------------------------------------------------------

  ghost predicate Leads(steps: seq<Step>, s: Room, o: Overlap) {
    Runs(EMPTY, steps, o) && After(EMPTY, steps, o) == s
  }

  lemma {:induction false} RunOneMore(s: Room, steps: seq<Step>, step: Step, o: Overlap)
    requires Runs(s, steps, o) && Enabled(After(s, steps, o), step, o)
    ensures Runs(s, steps + [step], o) && After(s, steps + [step], o) == Next(After(s, steps, o), step, o)
    decreases |steps|
  {
    if steps == [] {
      assert [step][1..] == [] && steps + [step] == [step];
      assert Runs(Next(s, step, o), [], o) && After(Next(s, step, o), [], o) == Next(s, step, o);
    } else {
      assert (steps + [step])[1..] == steps[1..] + [step];
      RunOneMore(Next(s, steps[0], o), steps[1..], step, o);
    }
  }

  lemma Go(steps: seq<Step>, s: Room, step: Step, t: Room, o: Overlap) returns (longer: seq<Step>)
    requires Leads(steps, s, o) && Enabled(s, step, o) && Next(s, step, o) == t
    ensures Leads(longer, t, o)
  {
    RunOneMore(EMPTY, steps, step, o);
    longer := steps + [step];
  }

  lemma Opened(o: Overlap) returns (steps: seq<Step>)
    ensures Leads(steps, Room({0}, {}, {}, map[]), o)
  {
    assert Runs(EMPTY, [], o) && After(EMPTY, [], o) == EMPTY;
    steps := Go([], EMPTY, Open(0), Room({0}, {}, {}, map[]), o);
  }

  const ADMITTED := map[1 := Call(0, Admitted, Joins)]
  const REMOVED := map[1 := Call(0, Removed, Leaves)]

  lemma CheckedJoin(o: Overlap) returns (steps: seq<Step>)
    ensures Leads(steps, Room({0}, {}, {}, ADMITTED), o)
  {
    var joining := Room({0}, {}, {}, map[1 := Call(0, Joining, Joins)]);
    steps := Opened(o);
    steps := Go(steps, Room({0}, {}, {}, map[]), BeginJoin(1, 0), joining, o);
    steps := Go(steps, joining, Check(1), Room({0}, {}, {}, ADMITTED), o);
  }

  lemma ClosedMeanwhile(before: seq<Step>, o: Overlap) returns (steps: seq<Step>)
    requires o.withClose && Leads(before, Room({0}, {}, {}, ADMITTED), o)
    ensures Leads(steps, Room({}, {}, {}, ADMITTED), o)
  {
    var closing := Room({0}, {}, {}, ADMITTED[2 := Call(0, Finishing, Closes)]);
    steps := Go(before, Room({0}, {}, {}, ADMITTED), BeginClose(2, 0), closing, o);
    steps := Go(steps, closing, Finish(2), Room({}, {}, {}, ADMITTED), o);
  }

  /** A connection closes while its join is under way: the user is added when the
      connection is gone. */
  lemma JoinOutlivesConnection(o: Overlap) returns (steps: seq<Step>)
    requires o.withClose
    ensures Leads(steps, Room({}, {0}, {0}, map[]), o)
  {
    var added := Room({}, {}, {0}, map[1 := Call(0, Added, Joins)]);
    steps := CheckedJoin(o);
    steps := ClosedMeanwhile(steps, o);
    steps := Go(steps, Room({}, {}, {}, ADMITTED), Add(1), added, o);
    steps := Go(steps, added, Record(1), Room({}, {0}, {0}, map[]), o);
  }

  lemma RemovedFirst(o: Overlap) returns (steps: seq<Step>)
    ensures Leads(steps, Room({0}, {}, {}, REMOVED), o)
  {
    var leaving := Room({0}, {}, {}, map[1 := Call(0, Leaving, Leaves)]);
    steps := Opened(o);
    steps := Go(steps, Room({0}, {}, {}, map[]), BeginLeave(1, 0), leaving, o);
    steps := Go(steps, leaving, Remove(1), Room({0}, {}, {}, REMOVED), o);
  }

  lemma CheckedMeanwhile(before: seq<Step>, o: Overlap) returns (steps: seq<Step>)
    requires o.withLeave && Leads(before, Room({0}, {}, {}, REMOVED), o)
    ensures Leads(steps, Room({0}, {}, {}, REMOVED[2 := Call(0, Admitted, Joins)]), o)
  {
    var joining := Room({0}, {}, {}, REMOVED[2 := Call(0, Joining, Joins)]);
    steps := Go(before, Room({0}, {}, {}, REMOVED), BeginJoin(2, 0), joining, o);
    steps := Go(steps, joining, Check(2), Room({0}, {}, {}, REMOVED[2 := Call(0, Admitted, Joins)]), o);
  }

  lemma JoinedMeanwhile(before: seq<Step>, o: Overlap) returns (steps: seq<Step>)
    requires o.withLeave && Leads(before, Room({0}, {}, {}, REMOVED), o)
    ensures Leads(steps, Room({0}, {0}, {0}, REMOVED), o)
  {
    var admitted := Room({0}, {}, {}, REMOVED[2 := Call(0, Admitted, Joins)]);
    var added := Room({0}, {}, {0}, REMOVED[2 := Call(0, Added, Joins)]);
    steps := CheckedMeanwhile(before, o);
    steps := Go(steps, admitted, Add(2), added, o);
    steps := Go(steps, added, Record(2), Room({0}, {0}, {0}, REMOVED), o);
  }

  /** A join passes between the two halves of a leave. */
  lemma JoinWithinLeave(o: Overlap) returns (steps: seq<Step>)
    requires o.withLeave
    ensures Leads(steps, Room({0}, {}, {0}, map[]), o)
  {
    var finishing := Room({0}, {0}, {0}, map[1 := Call(0, Finishing, Leaves)]);
    steps := RemovedFirst(o);
    steps := JoinedMeanwhile(steps, o);
    steps := Go(steps, Room({0}, {0}, {0}, REMOVED), Count(1, false), finishing, o);
    steps := Go(steps, finishing, Finish(1), Room({0}, {}, {0}, map[]), o);
  }

  const CLEANED := map[1 := Call(0, Deleting, Cleans)]

  lemma FoundEmpty(o: Overlap) returns (steps: seq<Step>)
    ensures Leads(steps, Room({0}, {}, {}, CLEANED), o)
  {
    var counting := Room({0}, {}, {}, map[1 := Call(0, Removed, Cleans)]);
    steps := Opened(o);
    steps := Go(steps, Room({0}, {}, {}, map[]), BeginCleanup(1), counting, o);
    steps := Go(steps, counting, Count(1, true), Room({0}, {}, {}, CLEANED), o);
  }

  lemma CheckedWhileCleaned(before: seq<Step>, o: Overlap) returns (steps: seq<Step>)
    requires o.withCleanup && Leads(before, Room({0}, {}, {}, CLEANED), o)
    ensures Leads(steps, Room({0}, {}, {}, CLEANED[2 := Call(0, Admitted, Joins)]), o)
  {
    var joining := Room({0}, {}, {}, CLEANED[2 := Call(0, Joining, Joins)]);
    steps := Go(before, Room({0}, {}, {}, CLEANED), BeginJoin(2, 0), joining, o);
    steps := Go(steps, joining, Check(2), Room({0}, {}, {}, CLEANED[2 := Call(0, Admitted, Joins)]), o);
  }

  lemma JoinedWhileCleaned(before: seq<Step>, o: Overlap) returns (steps: seq<Step>)
    requires o.withCleanup && Leads(before, Room({0}, {}, {}, CLEANED), o)
    ensures Leads(steps, Room({0}, {0}, {0}, CLEANED), o)
  {
    var admitted := Room({0}, {}, {}, CLEANED[2 := Call(0, Admitted, Joins)]);
    var added := Room({0}, {}, {0}, CLEANED[2 := Call(0, Added, Joins)]);
    steps := CheckedWhileCleaned(before, o);
    steps := Go(steps, admitted, Add(2), added, o);
    steps := Go(steps, added, Record(2), Room({0}, {0}, {0}, CLEANED), o);
  }

  /** A join passes between the count and the deletion of a cleanup. */
  lemma JoinWithinCleanup(o: Overlap) returns (steps: seq<Step>)
    requires o.withCleanup
    ensures Leads(steps, Room({0}, {0}, {}, map[]), o)
  {
    var finishing := Room({0}, {0}, {}, map[1 := Call(0, Finishing, Cleans)]);
    steps := FoundEmpty(o);
    steps := JoinedWhileCleaned(steps, o);
    steps := Go(steps, Room({0}, {0}, {0}, CLEANED), Sweep(1), finishing, o);
    steps := Go(steps, finishing, Finish(1), Room({0}, {0}, {}, map[]), o);
  }

  /** In every run, sessions and membership agree whenever nothing is in progress. */
  ghost predicate AlwaysAgrees(o: Overlap) {
    forall steps :: Runs(EMPTY, steps, o) ==> AgreesAtRest(After(EMPTY, steps, o))
  }

  lemma Disagrees(steps: seq<Step>, s: Room, o: Overlap)
    requires Leads(steps, s, o) && !AgreesAtRest(s)
    ensures !AlwaysAgrees(o)
  {
    assert !AgreesAtRest(After(EMPTY, steps, o));
  }

  /** Whatever the interleaving, they agree at rest if and only if joins may overlap
      neither leaves nor closes nor the cleanup. */
  lemma RaceExact(o: Overlap)
    ensures AlwaysAgrees(o) <==> !o.withLeave && !o.withClose && !o.withCleanup
  {
    if o.withClose {
      var steps := JoinOutlivesConnection(o);
      Disagrees(steps, Room({}, {0}, {0}, map[]), o);
    } else if o.withLeave {
      var steps := JoinWithinLeave(o);
      Disagrees(steps, Room({0}, {}, {0}, map[]), o);
    } else if o.withCleanup {
      var steps := JoinWithinCleanup(o);
      Disagrees(steps, Room({0}, {0}, {}, map[]), o);
    } else {
      forall steps | Runs(EMPTY, steps, o) ensures AgreesAtRest(After(EMPTY, steps, o)) {
        ApartAgrees(steps);
      }
    }
  }
}
