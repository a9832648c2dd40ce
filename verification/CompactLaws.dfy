/** Compaction computes a normal form of the ways to cut an edit. */
module CompactLaws {
  import opened TextEdits
  import opened CutLaws

  /** No zero retain, no two retains in a row, no two deletes in a row. */
  predicate Normal(ops: Edit) {
    && (forall k :: 0 <= k < |ops| ==> ops[k] != Retain(0))
    && (forall k :: 0 < k < |ops| ==> !(ops[k - 1].Retain? && ops[k].Retain?))
    && (forall k :: 0 < k < |ops| ==> !(ops[k - 1].Delete? && ops[k].Delete?))
  }

  lemma PushKeepsNormal(acc: Edit, op: Op)
    requires Normal(acc)
    ensures Normal(Push(acc, op))
  {
  }

  lemma {:induction false} CompactOntoIsNormal(acc: Edit, ops: Edit)
    requires Normal(acc)
    ensures Normal(CompactOnto(acc, ops))
    decreases |ops|
  {
    if ops != [] {
      PushKeepsNormal(acc, ops[0]);
      CompactOntoIsNormal(Push(acc, ops[0]), ops[1..]);
    }
  }

  lemma CompactIsNormal(ops: Edit)
    ensures Normal(Compact(ops))
  {
    CompactOntoIsNormal([], ops);
  }

  lemma {:induction false} CompactFixesNormal(acc: Edit, ops: Edit)
    requires Normal(acc + ops)
    ensures CompactOnto(acc, ops) == acc + ops
    decreases |ops|
  {
    if ops != [] {
      assert acc + ops == acc + [ops[0]] + ops[1..];
      assert (acc + ops)[|acc|] == ops[0];
      assert acc != [] ==> (acc + ops)[|acc| - 1] == acc[|acc| - 1];
      CompactFixesNormal(acc + [ops[0]], ops[1..]);
    }
  }

  lemma CompactIdempotent(ops: Edit)
    ensures Compact(Compact(ops)) == Compact(ops)
  {
    CompactIsNormal(ops);
    assert [] + Compact(ops) == Compact(ops);
    CompactFixesNormal([], Compact(ops));
  }

  lemma UnitsOfLast(front: Edit, last: Op)
    ensures Units(front + [last]) == Units(front) + CutOp(last)
  {
    UnitsOfConcat(front, [last]);
    UnitsOfOne(last);
  }

  lemma JoinedCut(last: Op, op: Op)
    requires (last.Retain? && op.Retain?) || (last.Delete? && op.Delete?)
    ensures CutOp(last) + CutOp(op) == CutOp(Long(op, last.count + op.count))
  {
    CopiesAdd(Long(op, 1), last.count, op.count);
  }

  lemma UnitsOfPush(acc: Edit, op: Op)
    ensures Units(Push(acc, op)) == Units(acc) + CutOp(op)
  {
    if op == Retain(0) {
      assert CutOp(op) == [];
    } else if Push(acc, op) == acc + [op] {
      UnitsOfLast(acc, op);
    } else {
      var front, last := acc[..|acc| - 1], acc[|acc| - 1];
      var joined := Long(op, last.count + op.count);
      assert acc == front + [last];
      assert Push(acc, op) == front + [joined];
      UnitsOfLast(front, last);
      UnitsOfLast(front, joined);
      JoinedCut(last, op);
      ConcatAssoc(Units(front), CutOp(last), CutOp(op));
    }
  }

  lemma {:induction false} UnitsOfCompactOnto(acc: Edit, ops: Edit)
    ensures Units(CompactOnto(acc, ops)) == Units(acc) + Units(ops)
    decreases |ops|
  {
    if ops != [] {
      UnitsOfPush(acc, ops[0]);
      UnitsOfCompactOnto(Push(acc, ops[0]), ops[1..]);
    }
  }

  lemma UnitsOfCompact(ops: Edit)
    ensures Units(Compact(ops)) == Units(ops)
  {
    UnitsOfCompactOnto([], ops);
  }

  /** Compaction does not change what an edit does to any text, nor what it
      walks over, deletes or inserts. */
  lemma CompactPreserves(d: string, ops: Edit)
    ensures Apply(d, Compact(ops)) == Apply(d, ops)
    ensures Consumed(Compact(ops)) == Consumed(ops)
    ensures Deleted(Compact(ops)) == Deleted(ops)
    ensures Inserts(Compact(ops)) == Inserts(ops)
  {
    UnitsOfCompact(ops);
    UnitsApply(d, Compact(ops));
    UnitsApply(d, ops);
    UnitsMeasures(Compact(ops));
    UnitsMeasures(ops);
  }

  lemma CompactHead(acc: Edit, op: Op, rest: Edit)
    ensures CompactOnto(acc, [op] + rest) == CompactOnto(Push(acc, op), rest)
  {
    assert ([op] + rest)[0] == op && ([op] + rest)[1..] == rest;
  }

  function Long(op: Op, n: nat): Op {
    if op.Retain? then Retain(n) else Delete(n)
  }

  lemma {:induction false} PushCopies(acc: Edit, op: Op, n: nat, rest: Edit)
    requires n > 0 && (op == Retain(1) || op == Delete(1))
    ensures CompactOnto(acc, Copies(op, n) + rest) == CompactOnto(Push(acc, Long(op, n)), rest)
    decreases n
  {
    CopiesHead(op, n, rest);
    CompactHead(acc, op, Copies(op, n - 1) + rest);
    if n > 1 {
      PushCopies(Push(acc, op), op, n - 1, rest);
      PushTwice(acc, op, n - 1);
    } else {
      assert Copies(op, 0) + rest == rest;
    }
  }

  lemma PushTwice(acc: Edit, op: Op, n: nat)
    requires n > 0 && (op == Retain(1) || op == Delete(1))
    ensures Push(Push(acc, op), Long(op, n)) == Push(acc, Long(op, n + 1))
  {}

  // ---- Deletes of length zero --------------------------------------------------

  /** The run of deletes an edit ends with: none, one of total length zero, or one
      that deletes something. */
  datatype DeleteRun = NoRun | Idle | Live

  function RunAfter(run: DeleteRun, op: Op): DeleteRun {
    match op
    case Retain(n) => if n == 0 then run else NoRun
    case Insert(_) => NoRun
    case Delete(n) => if n > 0 || run.Live? then Live else Idle
  }

  /** Zero retains aside, no maximal run of deletes in `ops`, which follows `run`,
      has total length zero. */
  predicate NoIdleRun(run: DeleteRun, ops: Edit)
    decreases |ops|
  {
    if ops == [] then !run.Idle?
    else (run.Idle? ==> !RunAfter(run, ops[0]).NoRun?) && NoIdleRun(RunAfter(run, ops[0]), ops[1..])
  }

  predicate NoIdleDeletes(ops: Edit) {
    NoIdleRun(NoRun, ops)
  }

  function RunOf(acc: Edit): DeleteRun {
    if acc == [] || !acc[|acc| - 1].Delete? then NoRun
    else if acc[|acc| - 1].count == 0 then Idle else Live
  }

  /** All deletes but the last operation are positive. */
  predicate PositiveBefore(acc: Edit) {
    acc == [] || PositiveDeletes(acc[..|acc| - 1])
  }

  lemma PushRun(acc: Edit, op: Op)
    ensures RunOf(Push(acc, op)) == RunAfter(RunOf(acc), op)
    ensures PositiveBefore(Push(acc, op)) <==>
      PositiveBefore(acc) && (RunOf(acc).Idle? ==> !RunAfter(RunOf(acc), op).NoRun?)
  {
    var pushed := Push(acc, op);
    if |pushed| == |acc| {
      assert acc != [] ==> pushed[..|pushed| - 1] == acc[..|acc| - 1];
    } else {
      assert pushed[..|pushed| - 1] == acc;
      if acc != [] {
        assert acc == acc[..|acc| - 1] + [acc[|acc| - 1]];
        assert PositiveDeletes(acc) <==> PositiveDeletes(acc[..|acc| - 1]) && !RunOf(acc).Idle?;
      }
    }
  }

  lemma {:induction false} IdleStays(acc: Edit, ops: Edit)
    requires !PositiveBefore(acc)
    ensures !PositiveDeletes(CompactOnto(acc, ops))
    decreases |ops|
  {
    if ops != [] {
      PushRun(acc, ops[0]);
      IdleStays(Push(acc, ops[0]), ops[1..]);
    }
  }

  lemma {:induction false} IdleShows(acc: Edit, ops: Edit)
    requires PositiveBefore(acc)
    ensures PositiveDeletes(CompactOnto(acc, ops)) <==> NoIdleRun(RunOf(acc), ops)
    decreases |ops|
  {
    if ops == [] {
      assert acc != [] ==> acc == acc[..|acc| - 1] + [acc[|acc| - 1]];
    } else {
      PushRun(acc, ops[0]);
      if PositiveBefore(Push(acc, ops[0])) {
        IdleShows(Push(acc, ops[0]), ops[1..]);
      } else {
        IdleStays(Push(acc, ops[0]), ops[1..]);
      }
    }
  }

  /** A run of deletes of total length zero does nothing, and compaction keeps it,
      as one delete of length zero. */
  lemma IdleDeletesKept(ops: Edit)
    ensures PositiveDeletes(Compact(ops)) <==> NoIdleDeletes(ops)
  {
    IdleShows([], ops);
  }

  lemma {:induction false} PositiveNoIdle(run: DeleteRun, ops: Edit)
    requires PositiveDeletes(ops) && !run.Idle?
    ensures NoIdleRun(run, ops)
    decreases |ops|
  {
    if ops != [] { PositiveNoIdle(RunAfter(run, ops[0]), ops[1..]); }
  }

  // ---- What compaction decides ---------------------------------------------------

  /** What one operation after `run` adds to the marked cut. */
  function Emitted(run: DeleteRun, op: Op): Edit {
    if run.Idle? && RunAfter(run, op).NoRun? then [Delete(0)] + CutOp(op) else CutOp(op)
  }

  function MarkedAfter(run: DeleteRun, ops: Edit): Edit
    decreases |ops|
  {
    if ops == [] then if run.Idle? then [Delete(0)] else []
    else Emitted(run, ops[0]) + MarkedAfter(RunAfter(run, ops[0]), ops[1..])
  }

  /** The edit cut into single characters, with one zero delete for every run of
      deletes of total length zero. */
  function MarkedCut(ops: Edit): Edit {
    MarkedAfter(NoRun, ops)
  }

  /** Every operation cut on its own, zero deletes left as they are. */
  function Flat(ops: Edit): Edit {
    if ops == [] then [] else FlatOp(ops[0]) + Flat(ops[1..])
  }

  function FlatOp(op: Op): Edit {
    if op == Delete(0) then [op] else CutOp(op)
  }

  lemma {:induction false} FlatOfConcat(A: Edit, B: Edit)
    ensures Flat(A + B) == Flat(A) + Flat(B)
  {
    if A == [] {
      assert A + B == B;
    } else {
      assert (A + B)[1..] == A[1..] + B;
      FlatOfConcat(A[1..], B);
      ConcatAssoc(FlatOp(A[0]), Flat(A[1..]), Flat(B));
    }
  }

  lemma FlatOfLast(front: Edit, last: Op)
    ensures Flat(front + [last]) == Flat(front) + FlatOp(last)
  {
    FlatOfConcat(front, [last]);
    assert [last][1..] == [] && FlatOp(last) + [] == FlatOp(last);
  }

  /** A compacted beginning without an idle run at its end. */
  function Settled(acc: Edit): Edit {
    if RunOf(acc).Idle? then acc[..|acc| - 1] else acc
  }

  lemma SettledIdle(front: Edit)
    ensures RunOf(front + [Delete(0)]).Idle? && Settled(front + [Delete(0)]) == front
  {
    assert (front + [Delete(0)])[..|front|] == front;
  }

  lemma FlatSettled(acc: Edit)
    ensures Flat(acc) == if RunOf(acc).Idle? then Flat(Settled(acc)) + [Delete(0)] else Flat(Settled(acc))
  {
    if RunOf(acc).Idle? {
      assert acc == Settled(acc) + [Delete(0)];
      FlatOfLast(Settled(acc), Delete(0));
    }
  }

  lemma SettledSame(acc: Edit)
    requires !RunOf(acc).Idle?
    ensures Settled(acc) == acc
  {}

  lemma FlatOfAppendIdle(acc: Edit)
    requires RunOf(acc).NoRun?
    ensures Flat(Settled(acc + [Delete(0)])) == Flat(Settled(acc)) + Emitted(RunOf(acc), Delete(0))
  {
    SettledIdle(acc);
    assert Flat(acc) + CutOp(Delete(0)) == Flat(acc);
  }

  lemma FlatOfAppend(acc: Edit, op: Op)
    requires op != Retain(0) && op != Delete(0) && (RunOf(acc).NoRun? || !op.Delete?)
    ensures Flat(Settled(acc + [op])) == Flat(Settled(acc)) + Emitted(RunOf(acc), op)
  {
    FlatSettled(acc);
    FlatOfLast(acc, op);
    SettledSame(acc + [op]);
    if RunOf(acc).Idle? { ConcatAssoc(Flat(Settled(acc)), [Delete(0)], CutOp(op)); }
  }

  lemma FlatOfJoin(front: Edit, last: Op, op: Op)
    requires (last.Retain? && op.Retain?) || (last.Delete? && op.Delete? && last.count > 0)
    ensures Flat(Settled(front + [Long(op, last.count + op.count)])) == Flat(Settled(front + [last])) + CutOp(op)
  {
    var joined := Long(op, last.count + op.count);
    SettledSame(front + [last]);
    SettledSame(front + [joined]);
    FlatOfLast(front, last);
    FlatOfLast(front, joined);
    JoinedCut(last, op);
    ConcatAssoc(Flat(front), CutOp(last), CutOp(op));
  }

  lemma FlatOfJoinIdle(front: Edit, op: Op)
    requires op.Delete?
    ensures Flat(Settled(front + [op])) == Flat(Settled(front + [Delete(0)])) + CutOp(op)
  {
    SettledIdle(front);
    if op.count == 0 {
      assert Flat(front) + CutOp(op) == Flat(front);
    } else {
      FlatOfLast(front, op);
    }
  }

  lemma FlatOfPush(acc: Edit, op: Op)
    ensures Flat(Settled(Push(acc, op))) == Flat(Settled(acc)) + Emitted(RunOf(acc), op)
  {
    if op == Retain(0) {
      assert Emitted(RunOf(acc), op) == [];
    } else if Push(acc, op) == acc + [op] {
      if op == Delete(0) { FlatOfAppendIdle(acc); } else { FlatOfAppend(acc, op); }
    } else {
      var front, last := acc[..|acc| - 1], acc[|acc| - 1];
      assert acc == front + [last] && Push(acc, op) == front + [Long(op, last.count + op.count)];
      if last == Delete(0) { FlatOfJoinIdle(front, op); } else { FlatOfJoin(front, last, op); }
    }
  }

  lemma {:induction false} FlatOfCompactOnto(acc: Edit, ops: Edit)
    ensures Flat(CompactOnto(acc, ops)) == Flat(Settled(acc)) + MarkedAfter(RunOf(acc), ops)
    decreases |ops|
  {
    if ops == [] {
      FlatSettled(acc);
    } else {
      PushRun(acc, ops[0]);
      FlatOfPush(acc, ops[0]);
      FlatOfCompactOnto(Push(acc, ops[0]), ops[1..]);
      ConcatAssoc(Flat(Settled(acc)), Emitted(RunOf(acc), ops[0]), MarkedAfter(RunAfter(RunOf(acc), ops[0]), ops[1..]));
    }
  }

  lemma {:induction false} CompactOntoFlat(acc: Edit, ops: Edit)
    ensures CompactOnto(acc, Flat(ops)) == CompactOnto(acc, ops)
    decreases |ops|
  {
    if ops != [] {
      var op, rest := ops[0], ops[1..];
      CompactOntoFlat(Push(acc, op), rest);
      if op.Insert? || op == Delete(0) {
        CompactHead(acc, op, Flat(rest));
      } else if op == Retain(0) {
        assert FlatOp(op) + Flat(rest) == Flat(rest);
      } else {
        PushCopies(acc, Long(op, 1), op.count, Flat(rest));
      }
    }
  }

  /** Compaction decides how edits are cut: two edits compact to the same list if
      and only if they are the same in single characters, with their idle runs of
      deletes at the same places. */
  lemma CompactDecidesCutting(A: Edit, B: Edit)
    ensures Compact(A) == Compact(B) <==> MarkedCut(A) == MarkedCut(B)
  {
    MarkedIsFlat(A);
    MarkedIsFlat(B);
  }

  lemma MarkedIsFlat(ops: Edit)
    ensures MarkedCut(ops) == Flat(Compact(ops))
    ensures Compact(MarkedCut(ops)) == Compact(ops)
  {
    FlatOfCompactOnto([], ops);
    CompactOntoFlat([], Compact(ops));
    CompactIdempotent(ops);
  }

  lemma {:induction false} MarkedIsUnits(run: DeleteRun, ops: Edit)
    requires NoIdleRun(run, ops)
    ensures MarkedAfter(run, ops) == Units(ops)
    decreases |ops|
  {
    if ops != [] {
      MarkedIsUnits(RunAfter(run, ops[0]), ops[1..]);
    }
  }

  lemma UnitsHaveNoIdle(ops: Edit)
    ensures NoIdleDeletes(Units(ops)) && Units(Units(ops)) == Units(ops)
  {
    UnitsAreUnit(ops);
    PositiveNoIdle(NoRun, Units(ops));
    UnitsTwice(ops);
  }

  /** Cutting an edit into single characters makes no difference to compaction, if
      and only if it has no run of deletes of total length zero: such a run does
      nothing, and compaction keeps it. */
  lemma ZeroDeleteKept(ops: Edit)
    ensures Compact(Units(ops)) == Compact(ops) <==> NoIdleDeletes(ops)
  {
    UnitsHaveNoIdle(ops);
    CompactDecidesCutting(Units(ops), ops);
    MarkedIsUnits(NoRun, Units(ops));
    IdleDeletesKept(Units(ops));
    IdleDeletesKept(ops);
    if NoIdleDeletes(ops) { MarkedIsUnits(NoRun, ops); }
  }

  /** Without idle runs it is the cutting alone that counts. */
  lemma CompactDecidesUnits(A: Edit, B: Edit)
    requires NoIdleDeletes(A)
    ensures Compact(A) == Compact(B) <==> Units(A) == Units(B) && NoIdleDeletes(B)
  {
    UnitsOfCompact(A);
    UnitsOfCompact(B);
    ZeroDeleteKept(A);
    ZeroDeleteKept(B);
    IdleDeletesKept(A);
    IdleDeletesKept(B);
  }

  /** A zero delete on its own is kept; next to another delete it vanishes. */
  lemma IdleExamples()
    ensures !NoIdleDeletes([Delete(0)]) && !NoIdleDeletes([Delete(0), Retain(0), Delete(0), Insert("x")])
    ensures NoIdleDeletes([Delete(0), Delete(1)]) && NoIdleDeletes([Delete(1), Retain(0), Delete(0)])
  {
    assert [Delete(0)][1..] == [];
    assert [Delete(0), Delete(1)][1..] == [Delete(1)] && [Delete(1)][1..] == [];
    var a := [Delete(0), Retain(0), Delete(0), Insert("x")];
    assert a[1..] == [Retain(0), Delete(0), Insert("x")] && a[1..][1..] == [Delete(0), Insert("x")];
    assert [Delete(0), Insert("x")][1..] == [Insert("x")];
    var b := [Delete(1), Retain(0), Delete(0)];
    assert b[1..] == [Retain(0), Delete(0)] && b[1..][1..] == [Delete(0)];
  }
}
