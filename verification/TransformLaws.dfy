/** What transformation guarantees about pairs of concurrent edits. */
module TransformLaws {
  import opened TextEdits
  import opened CutLaws
  import opened CompactLaws

  // ---- Lengths and closure --------------------------------------------------

  lemma {:induction false} LengthLaw(d: string, ops: Edit)
    requires Fits(ops, d)
    ensures |Apply(d, ops)| == |d| + Inserted(ops) - Deleted(ops)
  {
    if ops != [] {
      match ops[0]
      case Insert(s) => LengthLaw(d, ops[1..]);
      case Retain(n) => LengthLaw(Drop(d, n), ops[1..]);
      case Delete(n) => LengthLaw(Drop(d, n), ops[1..]);
    }
  }

  lemma {:induction false} DeletedAtMostConsumed(ops: Edit)
    ensures Deleted(ops) <= Consumed(ops)
  {
    if ops != [] { DeletedAtMostConsumed(ops[1..]); }
  }

  /** Against an edit of a text of `n` characters, an aligned edit of the same
      text walks over no more than what is left of it, and deletes no more than
      before. */
  lemma {:induction false} WalkCloses(A: Edit, B: Edit, n: nat)
    requires Aligned(A, B) && Consumed(A) <= n && Consumed(B) <= n
    ensures Consumed(Walk(A, B)) <= n + Inserted(B) - Deleted(B)
    ensures Deleted(Walk(A, B)) <= Deleted(A)
    decreases |A| + |B|
  {
    if A == [] || B == [] {
      DeletedAtMostConsumed(B);
    } else if A[0].Insert? {
      WalkCloses(A[1..], B, n);
      MeasuresOfConcat([A[0]], Walk(A[1..], B));
    } else if B[0].Insert? {
      WalkCloses(A, B[1..], n);
      MeasuresOfConcat([Retain(|B[0].text|)], Walk(A, B[1..]));
    } else {
      WalkCloses(A[1..], B[1..], n - A[0].count);
      MeasuresOfConcat(Meet(A[0], B[0]), Walk(A[1..], B[1..]));
      assert Meet(A[0], B[0]) != [] ==> Meet(A[0], B[0])[1..] == [];
    }
  }

  lemma Closure(d: string, A: Edit, B: Edit)
    requires Aligned(A, B) && Fits(A, d) && Fits(B, d)
    ensures Fits(Transform(A, B), Apply(d, B))
    ensures Deleted(Transform(A, B)) <= Deleted(A)
  {
    LengthLaw(d, B);
    WalkCloses(A, B, |d|);
    CompactPreserves(d, Walk(A, B));
  }

  // ---- No typed text is lost -------------------------------------------------

  lemma {:induction false} WalkKeepsInserts(A: Edit, B: Edit)
    ensures Inserts(Walk(A, B)) == Inserts(A)
    decreases |A| + |B|
  {
    if A == [] || B == [] {
    } else if A[0].Insert? {
      WalkKeepsInserts(A[1..], B);
    } else if B[0].Insert? {
      WalkKeepsInserts(A, B[1..]);
      assert Walk(A, B)[1..] == Walk(A, B[1..]);
    } else {
      var A', B' := if A[0].count <= B[0].count then A[1..] else A, if B[0].count <= A[0].count then B[1..] else B;
      WalkKeepsInserts(A', B');
      MeasuresOfConcat(Meet(A[0], B[0]), Walk(A', B'));
      assert Meet(A[0], B[0]) != [] ==> Meet(A[0], B[0])[1..] == [];
    }
  }

  /** However many edits it is transformed against, aligned or not, an edit
      goes on inserting the same strings in the same order. */
  lemma {:induction false} FoldKeepsInserts(A: Edit, Bs: seq<Edit>)
    ensures Inserts(Fold(A, Bs)) == Inserts(A)
    decreases |Bs|
  {
    if Bs != [] {
      WalkKeepsInserts(A, Bs[0]);
      CompactPreserves("", Walk(A, Bs[0]));
      FoldKeepsInserts(Transform(A, Bs[0]), Bs[1..]);
    }
  }

  /** The strings occur in `text` one after the other, without overlap. */
  predicate Occur(strings: seq<string>, text: string)
    decreases |strings|
  {
    strings == [] ||
    exists at :: 0 <= at <= |text| - |strings[0]| && text[at..][..|strings[0]|] == strings[0] &&
      Occur(strings[1..], text[at..][|strings[0]|..])
  }

  lemma OccurLater(strings: seq<string>, front: string, text: string)
    requires Occur(strings, text)
    ensures Occur(strings, front + text)
  {
    if strings != [] {
      var at :| 0 <= at <= |text| - |strings[0]| && text[at..][..|strings[0]|] == strings[0] &&
        Occur(strings[1..], text[at..][|strings[0]|..]);
      assert (front + text)[|front| + at..] == text[at..];
    }
  }

  lemma {:induction false} InsertsOccur(d: string, ops: Edit)
    ensures Occur(Inserts(ops), Apply(d, ops))
  {
    if ops != [] {
      match ops[0]
      case Insert(s) =>
        InsertsOccur(d, ops[1..]);
        var text := Apply(d, ops);
        assert text[0..] == text && text[..|s|] == s && text[|s|..] == Apply(d, ops[1..]);
        assert Inserts(ops)[1..] == Inserts(ops[1..]);
      case Retain(n) =>
        InsertsOccur(Drop(d, n), ops[1..]);
        assert Inserts(ops) == Inserts(ops[1..]);
        OccurLater(Inserts(ops[1..]), Take(d, n), Apply(Drop(d, n), ops[1..]));
      case Delete(n) =>
        InsertsOccur(Drop(d, n), ops[1..]);
        assert Inserts(ops) == Inserts(ops[1..]);
    }
  }

  /** Whatever the server has accepted in between, everything the author typed
      appears in the new document, in order. */
  lemma NoTextLost(d: string, A: Edit, Bs: seq<Edit>)
    ensures Occur(Inserts(A), Apply(d, Fold(A, Bs)))
  {
    FoldKeepsInserts(A, Bs);
    InsertsOccur(d, Fold(A, Bs));
  }

  // ---- Both edits at once -----------------------------------------------------

  /** The text in which both edits have been carried out, read off along the
      walk; at a tie the text of `A` comes first. */
  function Blend(d: string, A: Edit, B: Edit): string
    requires Aligned(A, B)
    decreases |A| + |B|
  {
    if A == [] then Apply(d, B)
    else if B == [] then Apply(d, A)
    else if A[0].Insert? then A[0].text + Blend(d, A[1..], B)
    else if B[0].Insert? then B[0].text + Blend(d, A, B[1..])
    else
      (if A[0].Retain? && B[0].Retain? then Take(d, A[0].count) else "") +
      Blend(Drop(d, A[0].count), A[1..], B[1..])
  }

  lemma RetainPrefix(x: string, y: string, ops: Edit)
    ensures Apply(x + y, [Retain(|x|)] + ops) == x + Apply(y, ops)
    ensures Apply(x + y, [Delete(|x|)] + ops) == Apply(y, ops)
  {
    assert Take(x + y, |x|) == x && Drop(x + y, |x|) == y;
    assert ([Retain(|x|)] + ops)[1..] == ops && ([Delete(|x|)] + ops)[1..] == ops;
  }

  /** After `B`, the transformed `A` leads to the blend of the two. */
  lemma {:induction false} WalkBlends(d: string, A: Edit, B: Edit)
    requires Aligned(A, B) && Fits(A, d) && Fits(B, d)
    ensures Apply(Apply(d, B), Walk(A, B)) == Blend(d, A, B)
    decreases |A| + |B|
  {
    if A == [] || B == [] {
    } else if A[0].Insert? {
      WalkBlends(d, A[1..], B);
      assert Walk(A, B)[1..] == Walk(A[1..], B);
    } else if B[0].Insert? {
      WalkBlends(d, A, B[1..]);
      RetainPrefix(B[0].text, Apply(d, B[1..]), Walk(A, B[1..]));
    } else {
      var n := A[0].count;
      WalkBlends(Drop(d, n), A[1..], B[1..]);
      if B[0].Retain? {
        RetainPrefix(Take(d, n), Apply(Drop(d, n), B[1..]), Walk(A[1..], B[1..]));
      } else {
        assert [] + Walk(A[1..], B[1..]) == Walk(A[1..], B[1..]);
      }
    }
  }

  lemma TransformBlends(d: string, A: Edit, B: Edit)
    requires Aligned(A, B) && Fits(A, d) && Fits(B, d)
    ensures Apply(Apply(d, B), Transform(A, B)) == Blend(d, A, B)
  {
    WalkBlends(d, A, B);
    CompactPreserves(Apply(d, B), Walk(A, B));
  }

  lemma {:induction false} AlignedSymmetric(A: Edit, B: Edit)
    requires Aligned(A, B)
    ensures Aligned(B, A)
    decreases |A| + |B|
  {
    if A == [] || B == [] {
    } else if A[0].Insert? {
      AlignedSymmetric(A[1..], B);
      AlignedSkipInsert(B, A);
    } else if B[0].Insert? {
      AlignedSymmetric(A, B[1..]);
    } else {
      AlignedSymmetric(A[1..], B[1..]);
    }
  }

  /** An insert at the head of the second edit can be skipped first. */
  lemma {:induction false} AlignedSkipInsert(A: Edit, B: Edit)
    requires B != [] && B[0].Insert?
    ensures Aligned(A, B[1..]) ==> Aligned(A, B)
    decreases |A|
  {
    if A != [] && A[0].Insert? {
      AlignedSkipInsert(A[1..], B);
      if B[1..] == [] { AlignedOneInsert(A[1..], B); }
    }
  }

  lemma {:induction false} AlignedOneInsert(A: Edit, B: Edit)
    requires |B| == 1 && B[0].Insert?
    ensures Aligned(A, B)
    decreases |A|
  {
    if A != [] && A[0].Insert? { AlignedOneInsert(A[1..], B); }
  }

  lemma {:induction false} AlignedAfterRuns(A: Edit, B: Edit)
    requires Aligned(A, B)
    ensures Aligned(AfterRun(A), AfterRun(B))
    decreases |A| + |B|
  {
    if A == [] || B == [] {
    } else if A[0].Insert? {
      AlignedAfterRuns(A[1..], B);
    } else if B[0].Insert? {
      AlignedAfterRuns(A, B[1..]);
    }
  }

  lemma {:induction false} ApplyRun(d: string, A: Edit)
    ensures Apply(d, A) == Run(A) + Apply(d, AfterRun(A))
  {
    if A != [] && A[0].Insert? { ApplyRun(d, A[1..]); }
  }

  lemma FirstRun(text: string, x: string, y: string, rest: string)
    ensures text + (x + y + rest) == (text + x) + y + rest
    ensures x == "" ==> text + (x + y + rest) == x + (text + y) + rest
  {
    assert text + (x + y + rest) == (text + x) + y + rest;
    if x == "" { assert x + y == y && x + (text + y) == text + y; }
  }

  lemma {:induction false} BlendRuns(d: string, A: Edit, B: Edit)
    requires Aligned(A, B)
    ensures Aligned(AfterRun(A), AfterRun(B))
    ensures Blend(d, A, B) == Run(A) + Run(B) + Blend(d, AfterRun(A), AfterRun(B))
    decreases |A| + |B|
  {
    AlignedAfterRuns(A, B);
    if A == [] || B == [] {
      ApplyRun(d, A);
      ApplyRun(d, B);
    } else if A[0].Insert? {
      BlendRuns(d, A[1..], B);
      FirstRun(A[0].text, Run(A[1..]), Run(B), Blend(d, AfterRun(A), AfterRun(B)));
    } else if B[0].Insert? {
      BlendRuns(d, A, B[1..]);
      FirstRun(B[0].text, Run(A), Run(B[1..]), Blend(d, AfterRun(A), AfterRun(B)));
    }
  }

  lemma SplitEqual(x: string, y: string, p: string, q: string)
    requires |x| == |y|
    ensures x + p == y + q <==> x == y && p == q
  {
    assert (x + p)[..|x|] == x && (y + q)[..|y|] == y;
    assert (x + p)[|x|..] == p && (y + q)[|y|..] == q;
  }

  /** The order of the two edits shows in the blend only at a tie between
      texts that do not commute. */
  lemma {:induction false} BlendOrder(d: string, A: Edit, B: Edit)
    requires Aligned(A, B) && Aligned(B, A)
    ensures Blend(d, A, B) == Blend(d, B, A) <==> TiesCommute(A, B)
    decreases |A|
  {
    if A != [] && B != [] {
      var A', B' := AfterRun(A), AfterRun(B);
      BlendRuns(d, A, B);
      BlendRuns(d, B, A);
      SplitEqual(Run(A) + Run(B), Run(B) + Run(A), Blend(d, A', B'), Blend(d, B', A'));
      AfterRunHead(A);
      AfterRunHead(B);
      if A' != [] && B' != [] {
        var n := A'[0].count;
        var kept := if A'[0].Retain? && B'[0].Retain? then Take(d, n) else "";
        BlendOrder(Drop(d, n), A'[1..], B'[1..]);
        SplitEqual(kept, kept, Blend(Drop(d, n), A'[1..], B'[1..]), Blend(Drop(d, n), B'[1..], A'[1..]));
      }
    }
  }

  lemma {:induction false} AfterRunHead(A: Edit)
    ensures AfterRun(A) != [] ==> !AfterRun(A)[0].Insert?
  {
    if A != [] && A[0].Insert? { AfterRunHead(A[1..]); }
  }

  /** The two ways round the diamond lead to the same text. */
  predicate Converge(d: string, A: Edit, B: Edit, A': Edit, B': Edit) {
    Apply(Apply(d, A), B') == Apply(Apply(d, B), A')
  }

  /** The diamond. Two aligned edits of the same text converge on every text,
      whichever is carried out first, if and only if their ties commute. */
  lemma Diamond(d: string, A: Edit, B: Edit)
    requires Aligned(A, B) && Fits(A, d) && Fits(B, d)
    ensures Converge(d, A, B, Transform(A, B), Transform(B, A)) <==> TiesCommute(A, B)
  {
    AlignedSymmetric(A, B);
    TransformBlends(d, A, B);
    TransformBlends(d, B, A);
    BlendOrder(d, A, B);
  }
}
