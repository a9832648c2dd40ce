/** The engine as the editor runs it: loops over the operation lists. */
module OTEngineLoops {
  import opened TextEdits
  import opened CutLaws

  /** JavaScript's `document.slice(from, to)` for non-negative bounds. */
  function Slice(d: string, from: nat, to: nat): string {
    var lo := Min(from, |d|);
    var hi := Min(to, |d|);
    if lo <= hi then d[lo..hi] else ""
  }

  lemma SliceLaws(d: string, index: nat, n: nat)
    ensures Drop(Drop(d, index), n) == Drop(d, index + n)
    ensures Take(Drop(d, index), n) == Slice(d, index, index + n)
  {}

  /** What one operation appends, and where it leaves the index. */
  function Chunk(d: string, index: nat, op: Op): string {
    if op.Retain? then Slice(d, index, index + op.count) else if op.Insert? then op.text else ""
  }

  function Advanced(index: nat, op: Op): nat {
    if op.Insert? then index else index + op.count
  }

  /** Index and result of the loop after `k` rounds. */
  function IndexAt(ops: Edit, k: nat): nat
    requires k <= |ops|
  {
    if k == 0 then 0 else Advanced(IndexAt(ops, k - 1), ops[k - 1])
  }

  function AppliedSoFar(d: string, ops: Edit, k: nat): string
    requires k <= |ops|
  {
    if k == 0 then ""
    else
      match ops[k - 1]
      case Retain(n) => AppliedSoFar(d, ops, k - 1) + Slice(d, IndexAt(ops, k - 1), IndexAt(ops, k - 1) + n)
      case Insert(s) => AppliedSoFar(d, ops, k - 1) + s
      case Delete(_) => AppliedSoFar(d, ops, k - 1)
  }

  lemma ApplyStep(d: string, index: nat, op: Op, rest: Edit)
    ensures Apply(Drop(d, index), [op] + rest) == Chunk(d, index, op) + Apply(Drop(d, Advanced(index, op)), rest)
  {
    ApplyHead(Drop(d, index), op, rest);
    if !op.Insert? { SliceLaws(d, index, op.count); }
  }

  /** What is done so far, and the rest of the edit on the rest of the document. */
  ghost predicate Splits(d: string, ops: Edit, k: nat)
    requires k <= |ops|
  {
    AppliedSoFar(d, ops, k) + Apply(Drop(d, IndexAt(ops, k)), ops[k..]) == Apply(d, ops)
  }

  lemma {:induction false} AppliedRest(d: string, ops: Edit, k: nat)
    requires k <= |ops|
    ensures Splits(d, ops, k)
  {
    if k == 0 {
      AppliedStart(d, ops);
    } else {
      AppliedRest(d, ops, k - 1);
      AppliedStep(d, ops, k - 1);
    }
  }

  lemma AppliedStart(d: string, ops: Edit)
    ensures Splits(d, ops, 0)
  {
    assert Drop(d, 0) == d && ops[0..] == ops;
  }

  lemma AppliedStep(d: string, ops: Edit, k: nat)
    requires k < |ops| && Splits(d, ops, k)
    ensures Splits(d, ops, k + 1)
  {
    var index := IndexAt(ops, k);
    assert ops[k..] == [ops[k]] + ops[k + 1..];
    ApplyStep(d, index, ops[k], ops[k + 1..]);
    AppliedRound(AppliedSoFar(d, ops, k), Chunk(d, index, ops[k]), Apply(Drop(d, IndexAt(ops, k + 1)), ops[k + 1..]));
  }

  lemma AppliedAll(d: string, ops: Edit)
    ensures AppliedSoFar(d, ops, |ops|) + Slice(d, IndexAt(ops, |ops|), |d|) == Apply(d, ops)
  {
    AppliedRest(d, ops, |ops|);
    assert ops[|ops|..] == [];
  }

  lemma AppliedRound(done: string, chunk: string, rest: string)
    ensures done + (chunk + rest) == done + chunk + rest
    ensures chunk == "" ==> done + chunk == done
  {}

  /** What the transform loops have still to push, with their two pointers. */
  function WalkFrom(A: Edit, B: Edit, i: nat, j: nat): Edit
    requires i <= |A| && j <= |B|
    decreases |A| - i + |B| - j
  {
    if i == |A| || j == |B| then A[i..]
    else if A[i].Insert? then [A[i]] + WalkFrom(A, B, i + 1, j)
    else if B[j].Insert? then [Retain(|B[j].text|)] + WalkFrom(A, B, i, j + 1)
    else
      Meet(A[i], B[j]) +
      WalkFrom(A, B, if A[i].count <= B[j].count then i + 1 else i,
                     if B[j].count <= A[i].count then j + 1 else j)
  }

  lemma {:induction false} WalkFromIsWalk(A: Edit, B: Edit, i: nat, j: nat)
    requires i <= |A| && j <= |B|
    ensures WalkFrom(A, B, i, j) == Walk(A[i..], B[j..])
    decreases |A| - i + |B| - j
  {
    if i < |A| && j < |B| {
      assert A[i..][1..] == A[i + 1..];
      assert B[j..][1..] == B[j + 1..];
      if A[i].Insert? {
        WalkFromIsWalk(A, B, i + 1, j);
      } else if B[j].Insert? {
        WalkFromIsWalk(A, B, i, j + 1);
      } else {
        WalkFromIsWalk(A, B, if A[i].count <= B[j].count then i + 1 else i,
                             if B[j].count <= A[i].count then j + 1 else j);
      }
    }
  }

  class OTEngine {

    static method ApplyOps(document: string, operations: Edit) returns (result: string)
      ensures result == Apply(document, operations)
    {
      result := "";
      var index := 0;
      for k := 0 to |operations|
        invariant index == IndexAt(operations, k) && result == AppliedSoFar(document, operations, k)
      {
        match operations[k] {
          case Retain(count) =>
            result := result + Slice(document, index, index + count);
            index := index + count;
          case Insert(text) =>
            result := result + text;
          case Delete(count) =>
            index := index + count;
        }
      }
      result := result + Slice(document, index, |document|);
      AppliedAll(document, operations);
    }

    static method CompactOps(ops: Edit) returns (result: Edit)
      ensures result == Compact(ops)
    {
      result := [];
      assert ops[0..] == ops;
      for k := 0 to |ops|
        invariant CompactOnto(result, ops[k..]) == Compact(ops)
      {
        var op := ops[k];
        assert ops[k..][1..] == ops[k + 1..];
        if op.Retain? && op.count == 0 { continue; }
        if result != [] && result[|result| - 1].Retain? && op.Retain? {
          result := result[|result| - 1 := Retain(result[|result| - 1].count + op.count)];
        } else if result != [] && result[|result| - 1].Delete? && op.Delete? {
          result := result[|result| - 1 := Delete(result[|result| - 1].count + op.count)];
        } else {
          result := result + [op];
        }
      }
    }

    /** Signed length, as the engine computes it: deletes count negative. */
    static function SignedLength(op: Op): int
      requires !op.Insert?
    {
      if op.Delete? then 0 - op.count else op.count
    }

    static function Abs(x: int): nat {
      if x < 0 then -x else x
    }

    /** What two non-inserts that meet push. */
    static method PushMeet(pushed: Edit, a: Op, b: Op) returns (result: Edit)
      requires !a.Insert? && !b.Insert?
      ensures result == pushed + Meet(a, b)
    {
      var minLen := Min(Abs(SignedLength(a)), Abs(SignedLength(b)));
      result := pushed;
      if a.Retain? && b.Retain? {
        result := result + [Retain(minLen)];
      } else if a.Retain? && b.Delete? {
      } else if a.Delete? && b.Retain? {
        result := result + [Delete(minLen)];
      }
    }

    static method TransformOps(opA: Edit, opB: Edit) returns (result: Edit)
      ensures result == Transform(opA, opB)
    {
      result := [];
      var i, j := 0, 0;
      WalkStarts(opA, opB);
      while i < |opA| && j < |opB|
        invariant 0 <= i <= |opA| && 0 <= j <= |opB| && Remains(result, opA, opB, i, j)
        decreases |opA| - i + |opB| - j
      {
        var a, b := opA[i], opB[j];
        RoundRemains(result, opA, opB, i, j);
        if a.Insert? {
          result := result + [a];
          i := i + 1;
          continue;
        }
        if b.Insert? {
          result := result + [Retain(|b.text|)];
          j := j + 1;
          continue;
        }
        var aLen, bLen := SignedLength(a), SignedLength(b);
        result := PushMeet(result, a, b);
        if Abs(aLen) <= Abs(bLen) { i := i + 1; }
        if Abs(bLen) <= Abs(aLen) { j := j + 1; }
      }
      while i < |opA|
        invariant 0 <= i <= |opA| && (i < |opA| ==> j == |opB|) && Remains(result, opA, opB, i, j)
      {
        RestRemains(result, opA, i, opB);
        result := result + [opA[i]];
        i := i + 1;
      }
      WalkEnds(result, opA, opB, j);
      result := CompactOps(result);
    }
  }

  /** What is pushed so far, followed by what is still to push, is the walk. */
  ghost predicate Remains(result: Edit, A: Edit, B: Edit, i: nat, j: nat)
    requires i <= |A| && j <= |B|
  {
    result + WalkFrom(A, B, i, j) == Walk(A, B)
  }

  lemma WalkStarts(A: Edit, B: Edit)
    ensures Remains([], A, B, 0, 0)
  {
    WalkFromIsWalk(A, B, 0, 0);
    assert A[0..] == A && B[0..] == B;
  }

  lemma RoundRemains(result: Edit, A: Edit, B: Edit, i: nat, j: nat)
    requires i < |A| && j < |B| && Remains(result, A, B, i, j)
    ensures A[i].Insert? ==> Remains(result + [A[i]], A, B, i + 1, j)
    ensures !A[i].Insert? && B[j].Insert? ==> Remains(result + [Retain(|B[j].text|)], A, B, i, j + 1)
    ensures !A[i].Insert? && !B[j].Insert? ==>
      Remains(result + Meet(A[i], B[j]), A, B, if A[i].count <= B[j].count then i + 1 else i,
                                               if B[j].count <= A[i].count then j + 1 else j)
  {
    if A[i].Insert? {
      ConcatAssoc(result, [A[i]], WalkFrom(A, B, i + 1, j));
    } else if B[j].Insert? {
      ConcatAssoc(result, [Retain(|B[j].text|)], WalkFrom(A, B, i, j + 1));
    } else {
      ConcatAssoc(result, Meet(A[i], B[j]), WalkFrom(A, B, if A[i].count <= B[j].count then i + 1 else i,
                                                           if B[j].count <= A[i].count then j + 1 else j));
    }
  }

  lemma RestRemains(result: Edit, A: Edit, i: nat, B: Edit)
    requires i < |A| && Remains(result, A, B, i, |B|)
    ensures Remains(result + [A[i]], A, B, i + 1, |B|)
  {
    assert A[i..] == [A[i]] + A[i + 1..];
    ConcatAssoc(result, [A[i]], A[i + 1..]);
  }

  lemma WalkEnds(result: Edit, A: Edit, B: Edit, j: nat)
    requires j <= |B| && Remains(result, A, B, |A|, j)
    ensures result == Walk(A, B)
  {
    assert A[|A|..] == [] && result + [] == result;
  }
}
