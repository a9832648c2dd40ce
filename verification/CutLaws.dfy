/** How an edit is cut into pieces does not matter to what it does. */
module CutLaws {
  import opened TextEdits

  lemma ConcatAssoc<T>(a: seq<T>, b: seq<T>, c: seq<T>)
    ensures (a + b) + c == a + (b + c)
  {}

  lemma {:induction false} UnitsOfConcat(A: Edit, B: Edit)
    ensures Units(A + B) == Units(A) + Units(B)
  {
    if A == [] {
      assert A + B == B;
    } else {
      assert (A + B)[1..] == A[1..] + B;
      UnitsOfConcat(A[1..], B);
    }
  }

  lemma {:induction false} CopiesAdd(op: Op, m: nat, n: nat)
    ensures Copies(op, m) + Copies(op, n) == Copies(op, m + n)
  {
    if m > 0 { CopiesAdd(op, m - 1, n); }
  }

  lemma {:induction false} CopiesShape(op: Op, n: nat)
    ensures |Copies(op, n)| == n
    ensures forall k :: 0 <= k < n ==> Copies(op, n)[k] == op
  {
    if n > 0 { CopiesShape(op, n - 1); }
  }

  /** What the first operation of an edit does. */
  lemma ApplyHead(d: string, op: Op, rest: Edit)
    ensures Apply(d, [op] + rest) ==
      if op.Retain? then Take(d, op.count) + Apply(Drop(d, op.count), rest)
      else if op.Insert? then op.text + Apply(d, rest)
      else Apply(Drop(d, op.count), rest)
  {
    assert ([op] + rest)[0] == op && ([op] + rest)[1..] == rest;
  }

  lemma CopiesHead(op: Op, n: nat, rest: Edit)
    requires n > 0
    ensures Copies(op, n) + rest == [op] + (Copies(op, n - 1) + rest)
  {}

  lemma TakeThenTake(d: string, n: nat, tail: string)
    requires n > 0
    ensures Take(d, 1) + (Take(Drop(d, 1), n - 1) + tail) == Take(d, n) + tail
  {
    assert Take(d, 1) + Take(Drop(d, 1), n - 1) == Take(d, n);
  }

  lemma DropThenDrop(d: string, m: nat, n: nat)
    ensures Drop(Drop(d, m), n) == Drop(d, m + n)
  {}

  lemma {:induction false} ApplyRetains(d: string, n: nat, rest: Edit)
    ensures Apply(d, Copies(Retain(1), n) + rest) == Take(d, n) + Apply(Drop(d, n), rest)
    decreases n
  {
    if n == 0 {
      assert Copies(Retain(1), 0) + rest == rest;
    } else {
      CopiesHead(Retain(1), n, rest);
      ApplyHead(d, Retain(1), Copies(Retain(1), n - 1) + rest);
      ApplyRetains(Drop(d, 1), n - 1, rest);
      DropThenDrop(d, 1, n - 1);
      TakeThenTake(d, n, Apply(Drop(d, n), rest));
    }
  }

  lemma {:induction false} ApplyDeletes(d: string, n: nat, rest: Edit)
    ensures Apply(d, Copies(Delete(1), n) + rest) == Apply(Drop(d, n), rest)
    decreases n
  {
    if n == 0 {
      assert Copies(Delete(1), 0) + rest == rest;
    } else {
      CopiesHead(Delete(1), n, rest);
      ApplyHead(d, Delete(1), Copies(Delete(1), n - 1) + rest);
      ApplyDeletes(Drop(d, 1), n - 1, rest);
      DropThenDrop(d, 1, n - 1);
    }
  }

  /** One step of the induction below. */
  lemma UnitsApplyHead(d: string, op: Op, rest: Edit)
    requires op.Insert? ==> Apply(d, Units(rest)) == Apply(d, rest)
    requires !op.Insert? ==> Apply(Drop(d, op.count), Units(rest)) == Apply(Drop(d, op.count), rest)
    ensures Apply(d, CutOp(op) + Units(rest)) ==
      if op.Retain? then Take(d, op.count) + Apply(Drop(d, op.count), rest)
      else if op.Insert? then op.text + Apply(d, rest)
      else Apply(Drop(d, op.count), rest)
  {
    match op
    case Insert(s) => ApplyHead(d, op, Units(rest));
    case Retain(n) => ApplyRetains(d, n, Units(rest));
    case Delete(n) => ApplyDeletes(d, n, Units(rest));
  }

  /** An edit and its single-character pieces do the same to every text,
      also to one that is too short for them. */
  lemma {:induction false} UnitsApply(d: string, ops: Edit)
    ensures Apply(d, Units(ops)) == Apply(d, ops)
    decreases |ops|
  {
    if ops != [] {
      UnitsApply(if ops[0].Insert? then d else Drop(d, ops[0].count), ops[1..]);
      UnitsApplyHead(d, ops[0], ops[1..]);
    }
  }

  lemma {:induction false} ConsumedOfConcat(A: Edit, B: Edit)
    ensures Consumed(A + B) == Consumed(A) + Consumed(B)
  {
    if A == [] {
      assert A + B == B;
    } else {
      assert (A + B)[1..] == A[1..] + B;
      ConsumedOfConcat(A[1..], B);
    }
  }

  lemma {:induction false} DeletedOfConcat(A: Edit, B: Edit)
    ensures Deleted(A + B) == Deleted(A) + Deleted(B)
  {
    if A == [] {
      assert A + B == B;
    } else {
      assert (A + B)[1..] == A[1..] + B;
      DeletedOfConcat(A[1..], B);
    }
  }

  lemma {:induction false} InsertsOfConcat(A: Edit, B: Edit)
    ensures Inserts(A + B) == Inserts(A) + Inserts(B)
  {
    if A == [] {
      assert A + B == B;
    } else {
      assert (A + B)[1..] == A[1..] + B;
      InsertsOfConcat(A[1..], B);
      ConcatAssoc(if A[0].Insert? then [A[0].text] else [], Inserts(A[1..]), Inserts(B));
    }
  }

  lemma MeasuresOfConcat(A: Edit, B: Edit)
    ensures Consumed(A + B) == Consumed(A) + Consumed(B)
    ensures Deleted(A + B) == Deleted(A) + Deleted(B)
    ensures Inserts(A + B) == Inserts(A) + Inserts(B)
  {
    ConsumedOfConcat(A, B);
    DeletedOfConcat(A, B);
    InsertsOfConcat(A, B);
  }

  lemma {:induction false} MeasuresOfCopies(op: Op, n: nat)
    requires op == Retain(1) || op == Delete(1)
    ensures Consumed(Copies(op, n)) == n
    ensures Deleted(Copies(op, n)) == if op.Delete? then n else 0
    ensures Inserts(Copies(op, n)) == []
  {
    if n > 0 {
      assert Copies(op, n)[1..] == Copies(op, n - 1);
      MeasuresOfCopies(op, n - 1);
    }
  }

  lemma {:induction false} UnitsMeasures(ops: Edit)
    ensures Consumed(Units(ops)) == Consumed(ops)
    ensures Deleted(Units(ops)) == Deleted(ops)
    ensures Inserts(Units(ops)) == Inserts(ops)
  {
    if ops != [] {
      UnitsMeasures(ops[1..]);
      MeasuresOfConcat(CutOp(ops[0]), Units(ops[1..]));
      if !ops[0].Insert? {
        MeasuresOfCopies(if ops[0].Retain? then Retain(1) else Delete(1), ops[0].count);
      } else {
        assert CutOp(ops[0])[1..] == [];
      }
    }
  }

  /** Every retain and delete has length one. */
  predicate AllUnit(ops: Edit) {
    forall k :: 0 <= k < |ops| && !ops[k].Insert? ==> ops[k].count == 1
  }

  lemma {:induction false} UnitsAreUnit(ops: Edit)
    ensures AllUnit(Units(ops))
  {
    if ops != [] {
      UnitsAreUnit(ops[1..]);
      if !ops[0].Insert? {
        CopiesShape(if ops[0].Retain? then Retain(1) else Delete(1), ops[0].count);
      }
    }
  }

  /** Two edits in single-character pieces never miss each other on the walk. */
  lemma {:induction false} UnitsAlign(A: Edit, B: Edit)
    requires AllUnit(A) && AllUnit(B)
    ensures Aligned(A, B)
    decreases |A| + |B|
  {
    if A != [] && B != [] {
      if A[0].Insert? { UnitsAlign(A[1..], B); }
      else if B[0].Insert? { UnitsAlign(A, B[1..]); }
      else { UnitsAlign(A[1..], B[1..]); }
    }
  }

  // ---- Position by position ------------------------------------------------

  /** What an edit does at a gap, by its first operation. */
  lemma HeadAt(op: Op, rest: Edit, g: nat)
    ensures InsertedAt([op] + rest, g) ==
      if op.Insert? then (if g == 0 then op.text else "") + InsertedAt(rest, g)
      else if g < op.count then "" else InsertedAt(rest, g - op.count)
    ensures DeletesAt([op] + rest, g) <==>
      if op.Insert? then DeletesAt(rest, g)
      else if g < op.count then op.Delete? else DeletesAt(rest, g - op.count)
  {
    assert ([op] + rest)[1..] == rest;
  }

  lemma {:induction false} InsertedAtCopies(op: Op, n: nat, rest: Edit, g: nat)
    requires op == Retain(1) || op == Delete(1)
    ensures InsertedAt(Copies(op, n) + rest, g) == if g < n then "" else InsertedAt(rest, g - n)
    ensures DeletesAt(Copies(op, n) + rest, g) == if g < n then op.Delete? else DeletesAt(rest, g - n)
  {
    if n == 0 {
      assert Copies(op, 0) + rest == rest;
    } else {
      CopiesHead(op, n, rest);
      HeadAt(op, Copies(op, n - 1) + rest, g);
      if g > 0 { InsertedAtCopies(op, n - 1, rest, g - 1); }
    }
  }

  lemma {:induction false} UnitsMeaning(ops: Edit, g: nat)
    ensures InsertedAt(Units(ops), g) == InsertedAt(ops, g)
    ensures DeletesAt(Units(ops), g) == DeletesAt(ops, g)
  {
    if ops != [] {
      match ops[0]
      case Insert(s) =>
        UnitsMeaning(ops[1..], g);
        assert Units(ops)[1..] == Units(ops[1..]);
      case Retain(n) =>
        InsertedAtCopies(Retain(1), n, Units(ops[1..]), g);
        if g >= n { UnitsMeaning(ops[1..], g - n); }
      case Delete(n) =>
        InsertedAtCopies(Delete(1), n, Units(ops[1..]), g);
        if g >= n { UnitsMeaning(ops[1..], g - n); }
    }
  }

  lemma UnitsOfOne(op: Op)
    ensures Units([op]) == CutOp(op)
  {
    assert [op][1..] == [];
    assert Units([op][1..]) == [];
  }

  lemma {:induction false} UnitsOfUnits(op: Op, n: nat)
    requires op == Retain(1) || op == Delete(1)
    ensures Units(Copies(op, n)) == Copies(op, n)
  {
    if n > 0 {
      assert Copies(op, n)[1..] == Copies(op, n - 1);
      UnitsOfUnits(op, n - 1);
      assert Copies(op, 1) == [op] + Copies(op, 0);
    }
  }

  lemma {:induction false} UnitsTwice(A: Edit)
    ensures Units(Units(A)) == Units(A)
  {
    if A != [] {
      UnitsTwice(A[1..]);
      UnitsOfConcat(CutOp(A[0]), Units(A[1..]));
      if A[0].Insert? { UnitsOfOne(A[0]); }
      else { UnitsOfUnits(if A[0].Retain? then Retain(1) else Delete(1), A[0].count); }
    }
  }
}
