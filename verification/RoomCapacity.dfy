/** The capacity of one room when joins interleave. `joinRoom` awaits Redis
    between its checks: the room, the membership test, the count, perhaps the
    password, and the addition are separate steps, and other joins, leaves and
    deletions happen in between. */
module RoomCapacity {

  /** Users and join calls, numbered. */
  type UserId = nat
  type JoinId = nat

  /** How far a join call has come: the room was found; the user is no member; the
      count was below the maximum. */
  datatype Phase = RoomFound | NotMember | Approved

  datatype Join = Join(user: UserId, phase: Phase)

  datatype Room = Room(members: set<UserId>, joins: map<JoinId, Join>)

  const EMPTY := Room({}, map[])

  datatype Step =
    | Begin(join: JoinId, user: UserId)
    | CheckMember(join: JoinId)
    | ReadCount(join: JoinId)
    | RefusePassword(join: JoinId)
    | Add(join: JoinId)
    | Leave(user: UserId)
    | DeleteAll

  function Pending(s: Room): set<JoinId> {
    set j | j in s.joins && s.joins[j].phase.Approved?
  }

  predicate Full(s: Room, max: nat) {
    max > 0 && |s.members| >= max
  }

  /** `overlap` bounds how many joins are between the count and the addition. */
  predicate Enabled(s: Room, step: Step, max: nat, overlap: nat) {
    match step
    case Begin(j, _) => j !in s.joins
    case CheckMember(j) => j in s.joins && s.joins[j].phase.RoomFound?
    case ReadCount(j) =>
      j in s.joins && s.joins[j].phase.NotMember? && (!Full(s, max) ==> |Pending(s)| < overlap)
    case RefusePassword(j) => j in s.joins && s.joins[j].phase.Approved?
    case Add(j) => j in s.joins && s.joins[j].phase.Approved?
    case _ => true
  }

  function Advance(s: Room, j: JoinId, phase: Phase): Room
    requires j in s.joins
  {
    s.(joins := s.joins[j := s.joins[j].(phase := phase)])
  }

  function Answer(s: Room, j: JoinId): Room {
    s.(joins := s.joins - {j})
  }

  function Next(s: Room, step: Step, max: nat, overlap: nat): Room
    requires Enabled(s, step, max, overlap)
  {
    match step
    case Begin(j, u) => s.(joins := s.joins[j := Join(u, RoomFound)])
    case CheckMember(j) => if s.joins[j].user in s.members then Answer(s, j) else Advance(s, j, NotMember)
    case ReadCount(j) => if Full(s, max) then Answer(s, j) else Advance(s, j, Approved)
    case RefusePassword(j) => Answer(s, j)
    case Add(j) => Answer(s.(members := s.members + {s.joins[j].user}), j)
    case Leave(u) => s.(members := s.members - {u})
    case DeleteAll => s.(members := {})
  }

  predicate Runs(s: Room, steps: seq<Step>, max: nat, overlap: nat)
    decreases |steps|
  {
    steps == [] ||
    (Enabled(s, steps[0], max, overlap) && Runs(Next(s, steps[0], max, overlap), steps[1..], max, overlap))
  }

  function After(s: Room, steps: seq<Step>, max: nat, overlap: nat): Room
    requires Runs(s, steps, max, overlap)
    decreases |steps|
  {
    if steps == [] then s else After(Next(s, steps[0], max, overlap), steps[1..], max, overlap)
  }

  // ---- The bound ----------------------------------------------------------------

  predicate Bounded(s: Room, max: nat, overlap: nat) {
    |Pending(s)| <= overlap && |s.members| + |Pending(s)| <= max - 1 + overlap
  }

  lemma PendingWithout(s: Room, j: JoinId)
    requires j in s.joins
    ensures Pending(Answer(s, j)) == Pending(s) - {j}
    ensures |Pending(Answer(s, j))| == |Pending(s)| - if s.joins[j].phase.Approved? then 1 else 0
  {
    assert Pending(Answer(s, j)) == Pending(s) - {j};
    if !s.joins[j].phase.Approved? { assert Pending(s) - {j} == Pending(s); }
  }

  lemma PendingAfterApproval(s: Room, j: JoinId)
    requires j in s.joins && !s.joins[j].phase.Approved?
    ensures |Pending(Advance(s, j, Approved))| == |Pending(s)| + 1
    ensures Pending(Advance(s, j, NotMember)) == Pending(s)
  {
    assert Pending(Advance(s, j, Approved)) == Pending(s) + {j};
    assert Pending(Advance(s, j, NotMember)) == Pending(s);
  }

  lemma Fewer(a: set<UserId>, b: set<UserId>)
    requires a <= b
    ensures |a| <= |b|
  {
    assert b == a + (b - a);
  }

  lemma AnswerBounded(s: Room, j: JoinId, max: nat, overlap: nat)
    requires Bounded(s, max, overlap) && j in s.joins
    ensures Bounded(Answer(s, j), max, overlap)
  {
    PendingWithout(s, j);
  }

  lemma ApproveBounded(s: Room, j: JoinId, max: nat, overlap: nat)
    requires max > 0 && Bounded(s, max, overlap) && Enabled(s, ReadCount(j), max, overlap) && !Full(s, max)
    ensures Bounded(Advance(s, j, Approved), max, overlap)
  {
    PendingAfterApproval(s, j);
  }

  lemma AddBounded(s: Room, j: JoinId, max: nat, overlap: nat)
    requires Bounded(s, max, overlap) && Enabled(s, Add(j), max, overlap)
    ensures Bounded(Next(s, Add(j), max, overlap), max, overlap)
  {
    var added := s.(members := s.members + {s.joins[j].user});
    assert Pending(added) == Pending(s);
    PendingWithout(added, j);
  }

  lemma NextBounded(s: Room, step: Step, max: nat, overlap: nat)
    requires max > 0 && Bounded(s, max, overlap) && Enabled(s, step, max, overlap)
    ensures Bounded(Next(s, step, max, overlap), max, overlap)
  {
    match step
    case Begin(j, u) =>
      assert Pending(Next(s, step, max, overlap)) == Pending(s);
    case CheckMember(j) =>
      AnswerBounded(s, j, max, overlap);
      PendingAfterApproval(s, j);
    case ReadCount(j) =>
      AnswerBounded(s, j, max, overlap);
      if !Full(s, max) { ApproveBounded(s, j, max, overlap); }
    case RefusePassword(j) => AnswerBounded(s, j, max, overlap);
    case Add(j) => AddBounded(s, j, max, overlap);
    case Leave(u) =>
      Fewer(s.members - {u}, s.members);
      assert Pending(Next(s, step, max, overlap)) == Pending(s);
    case DeleteAll =>
      assert Pending(Next(s, step, max, overlap)) == Pending(s);
  }

  lemma {:induction false} RunBounded(s: Room, steps: seq<Step>, max: nat, overlap: nat)
    requires max > 0 && Bounded(s, max, overlap) && Runs(s, steps, max, overlap)
    ensures Bounded(After(s, steps, max, overlap), max, overlap)
    decreases |steps|
  {
    if steps != [] {
      NextBounded(s, steps[0], max, overlap);
      RunBounded(Next(s, steps[0], max, overlap), steps[1..], max, overlap);
    }
  }

  /** In every reachable state, members and approved joins together are at most
      the maximum plus the overlap minus one. */
  lemma CapacityBound(steps: seq<Step>, max: nat, overlap: nat)
    requires max > 0 && Runs(EMPTY, steps, max, overlap)
    ensures |After(EMPTY, steps, max, overlap).members| + |Pending(After(EMPTY, steps, max, overlap))|
      <= max - 1 + overlap
  {
    assert Pending(EMPTY) == {};
    RunBounded(EMPTY, steps, max, overlap);
  }

  // ---- The bound is reached ---------------------------------------------------------

  lemma {:induction false} RunsConcat(s: Room, a: seq<Step>, b: seq<Step>, max: nat, overlap: nat)
    requires Runs(s, a, max, overlap) && Runs(After(s, a, max, overlap), b, max, overlap)
    ensures Runs(s, a + b, max, overlap)
    ensures After(s, a + b, max, overlap) == After(After(s, a, max, overlap), b, max, overlap)
    decreases |a|
  {
    if a == [] {
      assert a + b == b;
    } else {
      assert (a + b)[0] == a[0] && (a + b)[1..] == a[1..] + b;
      RunsConcat(Next(s, a[0], max, overlap), a[1..], b, max, overlap);
    }
  }

  lemma OneStep(s: Room, step: Step, max: nat, overlap: nat)
    requires Enabled(s, step, max, overlap)
    ensures Runs(s, [step], max, overlap) && After(s, [step], max, overlap) == Next(s, step, max, overlap)
  {
    assert [step][1..] == [];
  }

  function Upto(n: nat): (users: set<UserId>)
    ensures forall u: nat :: u in users <==> u < n
    ensures |users| == n
  {
    if n == 0 then {} else Upto(n - 1) + {n - 1}
  }

  /** Joins `from` up to `upto`, each of the user of its number, approved. */
  function Waiting(from: nat, upto: nat): map<JoinId, Join> {
    map j: nat | from <= j < upto :: Join(j, Approved)
  }

  lemma SizeWaiting(members: set<UserId>, from: nat, upto: nat)
    requires from <= upto
    ensures |Pending(Room(members, Waiting(from, upto)))| == upto - from
    decreases upto
  {
    if from < upto {
      SizeWaiting(members, from, upto - 1);
      assert Pending(Room(members, Waiting(from, upto)))
          == Pending(Room(members, Waiting(from, upto - 1))) + {upto - 1};
    } else {
      assert Pending(Room(members, Waiting(from, upto))) == {};
    }
  }

  /** Users up to `n` are members, the joins from there up to `upto` approved. */
  function Stage(n: nat, upto: nat): Room {
    Room(Upto(n), Waiting(n, upto))
  }

  /** A run from the empty room that leads to `t`. */
  predicate Leads(steps: seq<Step>, t: Room, max: nat, overlap: nat) {
    Runs(EMPTY, steps, max, overlap) && After(EMPTY, steps, max, overlap) == t
  }

  lemma OneMore(steps: seq<Step>, s: Room, step: Step, max: nat, overlap: nat)
    requires Leads(steps, s, max, overlap) && Enabled(s, step, max, overlap)
    ensures Leads(steps + [step], Next(s, step, max, overlap), max, overlap)
  {
    OneStep(s, step, max, overlap);
    RunsConcat(EMPTY, steps, [step], max, overlap);
  }

  lemma ApproveEnabled(n: nat, upto: nat, max: nat, overlap: nat)
    requires n <= upto && n < max && upto - n < overlap
    ensures
      var begun := Stage(n, upto).(joins := Stage(n, upto).joins[upto := Join(upto, RoomFound)]);
      var s := Advance(begun, upto, NotMember);
      && upto !in Stage(n, upto).members && upto !in Stage(n, upto).joins
      && Enabled(s, ReadCount(upto), max, overlap) && !Full(s, max)
      && Advance(s, upto, Approved) == Stage(n, upto + 1)
  {
    SizeWaiting(Upto(n), n, upto);
    var begun := Stage(n, upto).(joins := Stage(n, upto).joins[upto := Join(upto, RoomFound)]);
    var s := Advance(begun, upto, NotMember);
    assert Pending(s) == Pending(Stage(n, upto));
    assert Advance(s, upto, Approved).joins == Waiting(n, upto + 1);
  }

  /** The join of user `upto` comes as far as being approved. */
  lemma ApproveOne(before: seq<Step>, n: nat, upto: nat, max: nat, overlap: nat) returns (steps: seq<Step>)
    requires n <= upto && n < max && upto - n < overlap && Leads(before, Stage(n, upto), max, overlap)
    ensures Leads(steps, Stage(n, upto + 1), max, overlap)
  {
    ApproveEnabled(n, upto, max, overlap);
    var s := Stage(n, upto);
    var begun := s.(joins := s.joins[upto := Join(upto, RoomFound)]);
    OneMore(before, s, Begin(upto, upto), max, overlap);
    OneMore(before + [Begin(upto, upto)], begun, CheckMember(upto), max, overlap);
    steps := before + [Begin(upto, upto)] + [CheckMember(upto)];
    OneMore(steps, Advance(begun, upto, NotMember), ReadCount(upto), max, overlap);
    steps := steps + [ReadCount(upto)];
  }

  lemma AddEnabled(n: nat, upto: nat, max: nat, overlap: nat)
    requires n < upto
    ensures Enabled(Stage(n, upto), Add(n), max, overlap)
    ensures Next(Stage(n, upto), Add(n), max, overlap) == Stage(n + 1, upto)
  {
    assert Upto(n) + {n} == Upto(n + 1);
    assert Waiting(n, upto) - {n} == Waiting(n + 1, upto);
  }

  lemma AddOne(before: seq<Step>, n: nat, upto: nat, max: nat, overlap: nat) returns (steps: seq<Step>)
    requires n < upto && Leads(before, Stage(n, upto), max, overlap)
    ensures Leads(steps, Stage(n + 1, upto), max, overlap)
  {
    AddEnabled(n, upto, max, overlap);
    OneMore(before, Stage(n, upto), Add(n), max, overlap);
    steps := before + [Add(n)];
  }

  /** One join after the other, up to one below the maximum. */
  lemma {:induction false} Fill(n: nat, max: nat, overlap: nat) returns (steps: seq<Step>)
    requires n < max && overlap > 0
    ensures Leads(steps, Stage(n, n), max, overlap)
    decreases n
  {
    if n == 0 {
      steps := [];
      assert Waiting(0, 0) == map[];
    } else {
      steps := Fill(n - 1, max, overlap);
      steps := ApproveOne(steps, n - 1, n - 1, max, overlap);
      steps := AddOne(steps, n - 1, n, max, overlap);
    }
  }

  /** Then as many joins as may overlap all read the same count. */
  lemma {:induction false} ApproveMany(k: nat, max: nat, overlap: nat) returns (steps: seq<Step>)
    requires max > 0 && k <= overlap && overlap > 0
    ensures Leads(steps, Stage(max - 1, max - 1 + k), max, overlap)
    decreases k
  {
    if k == 0 {
      steps := Fill(max - 1, max, overlap);
    } else {
      steps := ApproveMany(k - 1, max, overlap);
      steps := ApproveOne(steps, max - 1, max - 1 + (k - 1), max, overlap);
    }
  }

  /** And all of them add their user. */
  lemma {:induction false} AddMany(k: nat, max: nat, overlap: nat) returns (steps: seq<Step>)
    requires max > 0 && k <= overlap && overlap > 0
    ensures Leads(steps, Stage(max - 1 + k, max - 1 + overlap), max, overlap)
    decreases k
  {
    if k == 0 {
      steps := ApproveMany(overlap, max, overlap);
    } else {
      var n, upto := max - 1 + k, max - 1 + overlap;
      var before := AddMany(k - 1, max, overlap);
      assert Leads(before, Stage(n - 1, upto), max, overlap);
      steps := AddOne(before, n - 1, upto, max, overlap);
    }
  }

  /** The bound is tight: a run with as many members. */
  lemma BoundReached(max: nat, overlap: nat) returns (steps: seq<Step>)
    requires max > 0 && overlap > 0
    ensures Runs(EMPTY, steps, max, overlap)
    ensures |After(EMPTY, steps, max, overlap).members| == max - 1 + overlap
  {
    steps := AddMany(overlap, max, overlap);
  }

  /** The limit is kept in every reachable state if and only if at most one join
      at a time is between the count and the addition. */
  lemma LimitExact(max: nat, overlap: nat)
    requires max > 0
    ensures (forall steps :: Runs(EMPTY, steps, max, overlap) ==>
              |After(EMPTY, steps, max, overlap).members| <= max)
      <==> overlap <= 1
  {
    if overlap <= 1 {
      forall steps | Runs(EMPTY, steps, max, overlap)
        ensures |After(EMPTY, steps, max, overlap).members| <= max
      {
        CapacityBound(steps, max, overlap);
      }
    } else {
      var steps := BoundReached(max, overlap);
      assert Runs(EMPTY, steps, max, overlap);
    }
  }

  // ---- Without interleaving ---------------------------------------------------------

  lemma Then(s: Room, step: Step, rest: seq<Step>, max: nat, overlap: nat)
    requires Enabled(s, step, max, overlap) && Runs(Next(s, step, max, overlap), rest, max, overlap)
    ensures Runs(s, [step] + rest, max, overlap)
    ensures After(s, [step] + rest, max, overlap) == After(Next(s, step, max, overlap), rest, max, overlap)
  {
    assert ([step] + rest)[1..] == rest;
  }

  lemma Ended(s: Room, none: seq<Step>, max: nat, overlap: nat)
    requires |none| == 0
    ensures Runs(s, none, max, overlap) && After(s, none, max, overlap) == s
  {}

  /** The steps of a join from the count on. */
  lemma CountAlone(s: Room, j: JoinId, u: UserId, none: seq<Step>, max: nat, overlap: nat) returns (steps: seq<Step>)
    requires |none| == 0 && j in s.joins && s.joins[j] == Join(u, NotMember) && |Pending(s)| < overlap
    ensures Runs(s, steps, max, overlap)
    ensures After(s, steps, max, overlap) ==
      Room(if 0 < max <= |s.members| then s.members else s.members + {u}, s.joins - {j})
  {
    var counted := Next(s, ReadCount(j), max, overlap);
    if Full(s, max) {
      steps := none;
      Ended(counted, none, max, overlap);
    } else {
      var added := Next(counted, Add(j), max, overlap);
      assert added.joins == s.joins - {j};
      Ended(added, none, max, overlap);
      Then(counted, Add(j), none, max, overlap);
      steps := [Add(j)] + none;
    }
    Then(s, ReadCount(j), steps, max, overlap);
    steps := [ReadCount(j)] + steps;
  }

  /** A join during which nothing else happens adds its user if and only if the user is
      no member and the room has no maximum or less members than that. */
  lemma JoinAlone(s: Room, j: JoinId, u: UserId, max: nat, overlap: nat) returns (steps: seq<Step>)
    requires j !in s.joins && |Pending(s)| < overlap
    ensures Runs(s, steps, max, overlap)
    ensures After(s, steps, max, overlap) ==
      s.(members := if u in s.members || 0 < max <= |s.members| then s.members else s.members + {u})
  {
    var none: seq<Step> := [];
    var begun := Next(s, Begin(j, u), max, overlap);
    var checked := Next(begun, CheckMember(j), max, overlap);
    assert begun.joins - {j} == s.joins;
    if u in s.members {
      Ended(checked, none, max, overlap);
      steps := none;
    } else {
      assert Pending(checked) == Pending(s) && checked.joins - {j} == s.joins;
      steps := CountAlone(checked, j, u, none, max, overlap);
    }
    Then(begun, CheckMember(j), steps, max, overlap);
    Then(s, Begin(j, u), [CheckMember(j)] + steps, max, overlap);
    steps := [Begin(j, u)] + ([CheckMember(j)] + steps);
  }

  /** In a full room a leave makes space for one join. */
  lemma LeaveMakesSpace(s: Room, j: JoinId, u: UserId, v: UserId, max: nat, overlap: nat) returns (steps: seq<Step>)
    requires u in s.members && v !in s.members && |s.members| == max && j !in s.joins && |Pending(s)| < overlap
    ensures Runs(s, [Leave(u)] + steps, max, overlap)
    ensures After(s, [Leave(u)] + steps, max, overlap) == s.(members := s.members - {u} + {v})
  {
    var left := Next(s, Leave(u), max, overlap);
    assert Pending(left) == Pending(s);
    steps := JoinAlone(left, j, v, max, overlap);
    Then(s, Leave(u), steps, max, overlap);
  }
}
