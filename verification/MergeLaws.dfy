/** Transformation preserves intention: the transformed edit leads to the merge
    of the two edits, which is defined position by position on the original
    text and mentions neither `Apply` nor `Transform`. */
module MergeLaws {
  import opened TextEdits
  import opened CutLaws
  import opened CompactLaws
  import opened TransformLaws

  // ---- Unrolling the merge ----------------------------------------------------

  /** The merge from `g` on depends only on what the edits do from `g` on. */
  lemma {:induction false} MergeFromSame(d: string, A: Edit, B: Edit, A': Edit, B': Edit, g: nat)
    requires g <= |d|
    requires forall h: nat :: h >= g ==> InsertedAt(A, h) == InsertedAt(A', h)
    requires forall h: nat :: h >= g ==> InsertedAt(B, h) == InsertedAt(B', h)
    requires forall h: nat :: h >= g ==> DeletesAt(A, h) == DeletesAt(A', h)
    requires forall h: nat :: h >= g ==> DeletesAt(B, h) == DeletesAt(B', h)
    ensures MergeFrom(d, A, B, g) == MergeFrom(d, A', B', g)
    decreases |d| - g
  {
    if g < |d| { MergeFromSame(d, A, B, A', B', g + 1); }
  }

  /** Two merges that agree past the first gap. */
  lemma SameAfterFirstGap(d: string, A: Edit, B: Edit, A': Edit, B': Edit) returns (rest: string)
    requires forall h: nat :: h >= 1 ==> InsertedAt(A, h) == InsertedAt(A', h)
    requires forall h: nat :: h >= 1 ==> InsertedAt(B, h) == InsertedAt(B', h)
    requires forall h: nat :: DeletesAt(A, h) == DeletesAt(A', h)
    requires forall h: nat :: DeletesAt(B, h) == DeletesAt(B', h)
    ensures Merge(d, A, B) == InsertedAt(A, 0) + InsertedAt(B, 0) + rest
    ensures Merge(d, A', B') == InsertedAt(A', 0) + InsertedAt(B', 0) + rest
  {
    if d == "" {
      rest := "";
    } else {
      MergeFromSame(d, A, B, A', B', 1);
      rest := (if DeletesAt(A, 0) || DeletesAt(B, 0) then "" else [d[0]]) + MergeFrom(d, A, B, 1);
    }
  }

  lemma Reassociate(s: string, x: string, y: string, rest: string)
    ensures (s + x) + y + rest == s + (x + y + rest)
    ensures "" + (s + x) + rest == s + ("" + x + rest)
  {}

  lemma MergeInsertFirst(d: string, A: Edit, B: Edit)
    requires A != [] && A[0].Insert?
    ensures Merge(d, A, B) == A[0].text + Merge(d, A[1..], B)
  {
    var rest := SameAfterFirstGap(d, A, B, A[1..], B);
    Reassociate(A[0].text, InsertedAt(A[1..], 0), InsertedAt(B, 0), rest);
  }

  /** Past the first `n` characters, `A` does what `A'` does from the start. */
  ghost predicate Continues(A: Edit, A': Edit, n: nat) {
    forall h: nat :: h >= n ==>
      InsertedAt(A, h) == InsertedAt(A', h - n) && DeletesAt(A, h) == DeletesAt(A', h - n)
  }

  lemma {:induction false} MergeShift(d: string, A: Edit, B: Edit, A': Edit, B': Edit, n: nat, g: nat)
    requires n + g <= |d|
    requires Continues(A, A', n) && Continues(B, B', n)
    ensures MergeFrom(d, A, B, n + g) == MergeFrom(Drop(d, n), A', B', g)
    decreases |d| - g
  {
    ContinuesAt(A, A', n, g);
    ContinuesAt(B, B', n, g);
    if n + g < |d| { MergeShift(d, A, B, A', B', n, g + 1); }
    MergeShiftStep(d, A, B, A', B', n, g);
  }

  lemma ContinuesAt(A: Edit, A': Edit, n: nat, g: nat)
    requires Continues(A, A', n)
    ensures InsertedAt(A, n + g) == InsertedAt(A', g) && DeletesAt(A, n + g) == DeletesAt(A', g)
  {}

  lemma MergeShiftStep(d: string, A: Edit, B: Edit, A': Edit, B': Edit, n: nat, g: nat)
    requires n + g <= |d|
    requires InsertedAt(A, n + g) == InsertedAt(A', g) && DeletesAt(A, n + g) == DeletesAt(A', g)
    requires InsertedAt(B, n + g) == InsertedAt(B', g) && DeletesAt(B, n + g) == DeletesAt(B', g)
    requires n + g < |d| ==> MergeFrom(d, A, B, n + g + 1) == MergeFrom(Drop(d, n), A', B', g + 1)
    ensures MergeFrom(d, A, B, n + g) == MergeFrom(Drop(d, n), A', B', g)
  {}

  lemma MergeStep(d: string, A: Edit, B: Edit, g: nat)
    requires g < |d| && InsertedAt(A, g) == "" && InsertedAt(B, g) == ""
    ensures MergeFrom(d, A, B, g) ==
      (if DeletesAt(A, g) || DeletesAt(B, g) then "" else [d[g]]) + MergeFrom(d, A, B, g + 1)
  {}

  /** On a stretch without insertions, all of it deleted or all of it kept. */
  lemma {:induction false} MergeStretch(d: string, A: Edit, B: Edit, g: nat, n: nat, gone: bool)
    requires g <= n <= |d|
    requires forall h: nat :: h < n ==> InsertedAt(A, h) == "" && InsertedAt(B, h) == ""
    requires forall h: nat :: h < n ==> (DeletesAt(A, h) || DeletesAt(B, h)) == gone
    ensures MergeFrom(d, A, B, g) == (if gone then "" else d[g..n]) + MergeFrom(d, A, B, n)
    decreases n - g
  {
    if g < n {
      MergeStretch(d, A, B, g + 1, n, gone);
      MergeStep(d, A, B, g);
      assert (DeletesAt(A, g) || DeletesAt(B, g)) == gone;
      if !gone { StretchText(d, g, n, MergeFrom(d, A, B, n)); }
    }
  }

  lemma StretchText(d: string, g: nat, n: nat, rest: string)
    requires g < n <= |d|
    ensures [d[g]] + (d[g + 1..n] + rest) == d[g..n] + rest
  {}

  /** An edit on the stretch its first operation covers, and past it. */
  lemma HeadMeaning(A: Edit)
    requires A != [] && !A[0].Insert?
    ensures forall h: nat :: h < A[0].count ==> InsertedAt(A, h) == "" && DeletesAt(A, h) == A[0].Delete?
    ensures Continues(A, A[1..], A[0].count)
  {}

  lemma {:induction false} MergeOfNothing(d: string, g: nat)
    requires g <= |d|
    ensures MergeFrom(d, [], [], g) == d[g..]
    decreases |d| - g
  {
    if g < |d| {
      MergeOfNothing(d, g + 1);
      assert d[g..] == [d[g]] + d[g + 1..];
    }
  }

  lemma MergeMeetAlone(d: string, A: Edit)
    requires A != [] && !A[0].Insert? && A[0].count <= |d|
    ensures Merge(d, A, []) ==
      (if A[0].Retain? then Take(d, A[0].count) else "") + Merge(Drop(d, A[0].count), A[1..], [])
  {
    var n := A[0].count;
    HeadMeaning(A);
    assert Continues([], [], n);
    MergeStretch(d, A, [], 0, n, A[0].Delete?);
    MergeShift(d, A, [], A[1..], [], n, 0);
  }

  /** A single edit does what it says position by position. */
  lemma {:induction false} ApplyMeans(d: string, A: Edit)
    requires Fits(A, d)
    ensures Apply(d, A) == Merge(d, A, [])
  {
    if A == [] {
      MergeOfNothing(d, 0);
    } else if A[0].Insert? {
      ApplyMeans(d, A[1..]);
      MergeInsertFirst(d, A, []);
    } else {
      ApplyMeans(Drop(d, A[0].count), A[1..]);
      MergeMeetAlone(d, A);
    }
  }

  lemma {:induction false} ClampedFits(A: Edit, d: string)
    ensures Fits(Clamped(A, |d|), d)
  {
    if A == [] {
    } else if A[0].Insert? {
      ClampedFits(A[1..], d);
      MeasuresOfConcat([A[0]], Clamped(A[1..], |d|));
    } else {
      var op := Resized(A[0], Min(A[0].count, |d|));
      ClampedFits(A[1..], Drop(d, A[0].count));
      MeasuresOfConcat([op], Clamped(A[1..], |d| - op.count));
    }
  }

  lemma {:induction false} ClampedSame(A: Edit, d: string)
    ensures Apply(d, Clamped(A, |d|)) == Apply(d, A)
  {
    if A == [] {
    } else if A[0].Insert? {
      ClampedSame(A[1..], d);
      ApplyHead(d, A[0], Clamped(A[1..], |d|));
    } else {
      var op := Resized(A[0], Min(A[0].count, |d|));
      ClampedSame(A[1..], Drop(d, A[0].count));
      ApplyHead(d, op, Clamped(A[1..], |d| - op.count));
    }
  }

  /** An edit that walks past the end of the text does what it would say if its
      operations were cut down to the characters there are. */
  lemma ApplyAlwaysMeans(d: string, A: Edit)
    ensures Apply(d, A) == Merge(d, Clamped(A, |d|), [])
  {
    ClampedFits(A, d);
    ClampedSame(A, d);
    ApplyMeans(d, Clamped(A, |d|));
  }

  // ---- Intention ---------------------------------------------------------------

  /** Two operations that are not inserts, as one. */
  function JointHead(a: Op, b: Op): Op
    requires !a.Insert? && !b.Insert?
  {
    if a.Retain? && b.Retain? then a else Delete(a.count)
  }

  /** Both edits as one, in the order in which the walk of `A` against `B` meets
      them. */
  function Joint(A: Edit, B: Edit): Edit
    requires Aligned(A, B)
    decreases |A| + |B|
  {
    if A == [] then B
    else if B == [] then A
    else if A[0].Insert? then [A[0]] + Joint(A[1..], B)
    else if B[0].Insert? then [B[0]] + Joint(A, B[1..])
    else [JointHead(A[0], B[0])] + Joint(A[1..], B[1..])
  }

  lemma {:induction false} JointBlends(d: string, A: Edit, B: Edit)
    requires Aligned(A, B) && Fits(A, d) && Fits(B, d)
    ensures Apply(d, Joint(A, B)) == Blend(d, A, B)
    decreases |A| + |B|
  {
    if A == [] || B == [] {
    } else if A[0].Insert? {
      JointBlends(d, A[1..], B);
      ApplyHead(d, A[0], Joint(A[1..], B));
    } else if B[0].Insert? {
      JointBlends(d, A, B[1..]);
      ApplyHead(d, B[0], Joint(A, B[1..]));
    } else {
      var n, rest := A[0].count, Joint(A[1..], B[1..]);
      JointBlends(Drop(d, n), A[1..], B[1..]);
      ApplyHead(d, JointHead(A[0], B[0]), rest);
      assert "" + Apply(Drop(d, n), rest) == Apply(Drop(d, n), rest);
    }
  }


  /** What the joint edit deletes, and how much it inserts in a gap. */
  lemma {:induction false} JointDeletes(A: Edit, B: Edit, g: nat)
    requires Aligned(A, B)
    ensures DeletesAt(Joint(A, B), g) <==> DeletesAt(A, g) || DeletesAt(B, g)
    decreases |A| + |B|
  {
    if A == [] || B == [] {
    } else if A[0].Insert? {
      JointDeletes(A[1..], B, g);
      HeadAt(A[0], Joint(A[1..], B), g);
    } else if B[0].Insert? {
      JointDeletes(A, B[1..], g);
      HeadAt(B[0], Joint(A, B[1..]), g);
    } else {
      if g >= A[0].count { JointDeletes(A[1..], B[1..], g - A[0].count); }
      HeadAt(JointHead(A[0], B[0]), Joint(A[1..], B[1..]), g);
    }
  }

  lemma {:induction false} JointLength(A: Edit, B: Edit, g: nat)
    requires Aligned(A, B)
    ensures |InsertedAt(Joint(A, B), g)| == |InsertedAt(A, g)| + |InsertedAt(B, g)|
    decreases |A| + |B|
  {
    if A == [] || B == [] {
    } else if A[0].Insert? {
      JointLength(A[1..], B, g);
      HeadAt(A[0], Joint(A[1..], B), g);
    } else if B[0].Insert? {
      JointLength(A, B[1..], g);
      HeadAt(B[0], Joint(A, B[1..]), g);
    } else {
      if g >= A[0].count { JointLength(A[1..], B[1..], g - A[0].count); }
      HeadAt(JointHead(A[0], B[0]), Joint(A[1..], B[1..]), g);
    }
  }

  lemma JointMeasures(A: Edit, B: Edit, g: nat)
    requires Aligned(A, B)
    ensures DeletesAt(Joint(A, B), g) <==> DeletesAt(A, g) || DeletesAt(B, g)
    ensures |InsertedAt(Joint(A, B), g)| == |InsertedAt(A, g)| + |InsertedAt(B, g)|
  {
    JointDeletes(A, B, g);
    JointLength(A, B, g);
  }

  /** In gap `g` the walk meets the texts of `A` before those of `B`. */
  predicate InOrderAt(A: Edit, B: Edit, g: nat)
    requires Aligned(A, B)
  {
    InsertedAt(Joint(A, B), g) == InsertedAt(A, g) + InsertedAt(B, g)
  }

  /** So in every gap of a document of length `n`, from gap `g` on. */
  predicate GapsInOrderFrom(A: Edit, B: Edit, g: nat, n: nat)
    requires Aligned(A, B)
  {
    forall h: nat :: g <= h <= n ==> InOrderAt(A, B, h)
  }

  predicate GapsInOrder(A: Edit, B: Edit, n: nat)
    requires Aligned(A, B)
  {
    GapsInOrderFrom(A, B, 0, n)
  }

  lemma PassEmpty(t: string, a: string, b: string)
    requires t == "" || a == ""
    ensures t + (a + b) == a + (t + b)
  {}

  lemma InOrderFirst(A: Edit, B: Edit, g: nat)
    requires A != [] && B != [] && A[0].Insert? && Aligned(A[1..], B) && InOrderAt(A[1..], B, g)
    ensures InOrderAt(A, B, g)
  {
    assert A == [A[0]] + A[1..];
    HeadAt(A[0], Joint(A[1..], B), g);
    HeadAt(A[0], A[1..], g);
    ConcatAssoc(if g == 0 then A[0].text else "", InsertedAt(A[1..], g), InsertedAt(B, g));
  }

  lemma InOrderSecond(A: Edit, B: Edit, g: nat)
    requires A != [] && B != [] && !A[0].Insert? && InsertedAt(A, 0) == "" && B[0].Insert?
    requires Aligned(A, B[1..]) && InOrderAt(A, B[1..], g)
    ensures InOrderAt(A, B, g)
  {
    assert B == [B[0]] + B[1..];
    HeadAt(B[0], Joint(A, B[1..]), g);
    HeadAt(B[0], B[1..], g);
    PassEmpty(if g == 0 then B[0].text else "", InsertedAt(A, g), InsertedAt(B[1..], g));
  }

  lemma InOrderMeet(A: Edit, B: Edit, g: nat)
    requires A != [] && B != [] && !A[0].Insert? && !B[0].Insert? && A[0].count == B[0].count
    requires Aligned(A[1..], B[1..]) && (g >= A[0].count ==> InOrderAt(A[1..], B[1..], g - A[0].count))
    ensures InOrderAt(A, B, g)
  {
    HeadAt(JointHead(A[0], B[0]), Joint(A[1..], B[1..]), g);
  }

  /** No operation of length zero stands before an insertion in the same gap. */
  predicate Tidy(A: Edit) {
    A == [] ||
    (Tidy(A[1..]) && (!A[0].Insert? && A[0].count == 0 ==> InsertedAt(A[1..], 0) == ""))
  }

  lemma {:induction false} PositiveTidy(A: Edit)
    requires Positive(A)
    ensures Tidy(A)
  {
    if A != [] { PositiveTidy(A[1..]); }
  }

  /** The texts of such an edit always come first. */
  lemma {:induction false} TidyInOrder(A: Edit, B: Edit, g: nat)
    requires Aligned(A, B) && Tidy(A)
    ensures InOrderAt(A, B, g)
    decreases |A| + |B|
  {
    if A == [] || B == [] {
      assert "" + InsertedAt(B, g) == InsertedAt(B, g) && InsertedAt(A, g) + "" == InsertedAt(A, g);
    } else if A[0].Insert? {
      TidyInOrder(A[1..], B, g);
      InOrderFirst(A, B, g);
    } else if B[0].Insert? {
      TidyInOrder(A, B[1..], g);
      InOrderSecond(A, B, g);
    } else {
      if g >= A[0].count { TidyInOrder(A[1..], B[1..], g - A[0].count); }
      InOrderMeet(A, B, g);
    }
  }

  lemma OutOfOrderFirst(A: Edit, B: Edit, g: nat)
    requires A != [] && B != [] && A[0].Insert? && Aligned(A[1..], B) && !InOrderAt(A[1..], B, g)
    ensures !InOrderAt(A, B, g)
  {
    var t := if g == 0 then A[0].text else "";
    assert A == [A[0]] + A[1..];
    HeadAt(A[0], Joint(A[1..], B), g);
    HeadAt(A[0], A[1..], g);
    ConcatAssoc(t, InsertedAt(A[1..], g), InsertedAt(B, g));
    SplitEqual(t, t, InsertedAt(Joint(A[1..], B), g), InsertedAt(A[1..], g) + InsertedAt(B, g));
  }

  lemma JointRetain(op: Op, A: Edit, B: Edit)
    requires !op.Insert? && Aligned(A, B)
    ensures Aligned([op] + A, [Retain(op.count)] + B)
    ensures Joint([op] + A, [Retain(op.count)] + B) == [op] + Joint(A, B)
  {
    assert ([Retain(op.count)] + B)[1..] == B && ([op] + A)[1..] == A;
  }

  lemma ShiftedAt(op: Op, rest: Edit, g: nat)
    requires !op.Insert?
    ensures InsertedAt([op] + rest, op.count + g) == InsertedAt(rest, g)
  {
    HeadAt(op, rest, op.count + g);
  }

  lemma OutOfOrderMeet(op: Op, A: Edit, B: Edit, g: nat)
    requires !op.Insert? && Aligned(A, B) && !InOrderAt(A, B, g)
    ensures Aligned([op] + A, [Retain(op.count)] + B)
    ensures !InOrderAt([op] + A, [Retain(op.count)] + B, op.count + g)
  {
    JointRetain(op, A, B);
    ShiftedAt(op, Joint(A, B), g);
    ShiftedAt(op, A, g);
    ShiftedAt(Retain(op.count), B, g);
  }

  /** A character that does not commute with `x`. */
  lemma Intruder(x: string) returns (y: string)
    requires x != ""
    ensures y + x != x + y
  {
    y := if x[0] == 'a' then "b" else "a";
    assert (y + x)[0] == y[0] && (x + y)[0] == x[0];
  }

  /** An insertion where an operation of length zero gives way to it. */
  lemma JointInsert(A: Edit, y: string)
    requires A != [] && !A[0].Insert?
    ensures Aligned(A, [Insert(y)]) && Joint(A, [Insert(y)]) == [Insert(y)] + A
  {
    assert [Insert(y)][1..] == [];
  }

  lemma InsertOnly(y: string)
    ensures InsertedAt([Insert(y)], 0) == y
  {
    assert [Insert(y)] == [Insert(y)] + [] && y + "" == y;
    HeadAt(Insert(y), [], 0);
  }

  lemma OutOfOrderHere(A: Edit, y: string)
    requires A != [] && !A[0].Insert? && A[0].count == 0
    requires y + InsertedAt(A[1..], 0) != InsertedAt(A[1..], 0) + y
    ensures Aligned(A, [Insert(y)]) && !InOrderAt(A, [Insert(y)], 0)
  {
    JointInsert(A, y);
    HeadAt(Insert(y), A, 0);
    InsertOnly(y);
  }

  /** Any other edit is put out of order by some aligned edit. */
  lemma {:induction false} UntidyOutOfOrder(A: Edit) returns (B: Edit, g: nat)
    requires !Tidy(A)
    ensures B != [] && Aligned(A, B) && Consumed(B) <= g <= Consumed(A) && !InOrderAt(A, B, g)
  {
    if !A[0].Insert? && A[0].count == 0 && InsertedAt(A[1..], 0) != "" {
      var y := Intruder(InsertedAt(A[1..], 0));
      OutOfOrderHere(A, y);
      assert Consumed([Insert(y)]) == Consumed([]) == 0;
      B, g := [Insert(y)], 0;
    } else {
      B, g := UntidyOutOfOrder(A[1..]);
      if A[0].Insert? {
        OutOfOrderFirst(A, B, g);
      } else {
        OutOfOrderMeet(A[0], A[1..], B, g);
        assert A == [A[0]] + A[1..] && ([Retain(A[0].count)] + B)[1..] == B;
        B, g := [Retain(A[0].count)] + B, A[0].count + g;
      }
    }
  }

  lemma OneGap(x: string, y: string, kept: string, p: string, q: string)
    requires |x| == |y|
    ensures x + "" + (kept + p) == y + (kept + q) <==> x == y && p == q
    ensures x + "" + "" == x && y + "" == y
  {
    assert x + "" == x;
    SplitTwice(x, y, kept, p, q);
  }

  /** The two merges agree from gap `g` on if they agree in it and after it. */
  lemma JointGap(d: string, A: Edit, B: Edit, g: nat)
    requires Aligned(A, B) && g < |d|
    ensures MergeFrom(d, Joint(A, B), [], g) == MergeFrom(d, A, B, g) <==>
      InOrderAt(A, B, g) && MergeFrom(d, Joint(A, B), [], g + 1) == MergeFrom(d, A, B, g + 1)
  {
    JointMeasures(A, B, g);
    OneGap(InsertedAt(Joint(A, B), g), InsertedAt(A, g) + InsertedAt(B, g),
           if DeletesAt(A, g) || DeletesAt(B, g) then "" else [d[g]],
           MergeFrom(d, Joint(A, B), [], g + 1), MergeFrom(d, A, B, g + 1));
  }

  lemma LastGap(d: string, A: Edit, B: Edit)
    requires Aligned(A, B)
    ensures MergeFrom(d, Joint(A, B), [], |d|) == MergeFrom(d, A, B, |d|) <==> InOrderAt(A, B, |d|)
  {
    JointMeasures(A, B, |d|);
    OneGap(InsertedAt(Joint(A, B), |d|), InsertedAt(A, |d|) + InsertedAt(B, |d|), "", "", "");
  }

  lemma {:induction false} JointIsMerge(d: string, A: Edit, B: Edit, g: nat)
    requires Aligned(A, B) && g <= |d|
    ensures MergeFrom(d, Joint(A, B), [], g) == MergeFrom(d, A, B, g) <==> GapsInOrderFrom(A, B, g, |d|)
    decreases |d| - g
  {
    if g < |d| {
      JointGap(d, A, B, g);
      JointIsMerge(d, A, B, g + 1);
      assert GapsInOrderFrom(A, B, g, |d|) <==> InOrderAt(A, B, g) && GapsInOrderFrom(A, B, g + 1, |d|);
    } else {
      LastGap(d, A, B);
      assert GapsInOrderFrom(A, B, g, |d|) <==> InOrderAt(A, B, g);
    }
  }

  lemma {:induction false} JointFits(d: string, A: Edit, B: Edit)
    requires Aligned(A, B) && Fits(A, d) && Fits(B, d)
    ensures Fits(Joint(A, B), d)
    decreases |A| + |B|
  {
    if A == [] || B == [] {
    } else if A[0].Insert? {
      JointFits(d, A[1..], B);
      MeasuresOfConcat([A[0]], Joint(A[1..], B));
    } else if B[0].Insert? {
      JointFits(d, A, B[1..]);
      MeasuresOfConcat([B[0]], Joint(A, B[1..]));
    } else {
      JointFits(Drop(d, A[0].count), A[1..], B[1..]);
      MeasuresOfConcat([JointHead(A[0], B[0])], Joint(A[1..], B[1..]));
    }
  }

  /** After `B`, the transformed `A` leads to the merge of the two edits, if and
      only if the walk meets their insertions in order in every gap. */
  lemma IntentionExact(d: string, A: Edit, B: Edit)
    requires Aligned(A, B) && Fits(A, d) && Fits(B, d)
    ensures Apply(Apply(d, B), Transform(A, B)) == Merge(d, A, B) <==> GapsInOrder(A, B, |d|)
  {
    TransformBlends(d, A, B);
    JointBlends(d, A, B);
    JointFits(d, A, B);
    ApplyMeans(d, Joint(A, B));
    JointIsMerge(d, A, B, 0);
  }

  /** So it does, ties included, whenever `A` has no operation of length zero before
      an insertion. */
  lemma Intention(d: string, A: Edit, B: Edit)
    requires Aligned(A, B) && Tidy(A) && Fits(A, d) && Fits(B, d)
    ensures Apply(Apply(d, B), Transform(A, B)) == Merge(d, A, B)
  {
    forall g: nat | g <= |d| ensures InOrderAt(A, B, g) { TidyInOrder(A, B, g); }
    IntentionExact(d, A, B);
  }

  /** Whatever `A` is transformed against, its intention is kept. */
  ghost predicate AlwaysMerges(A: Edit) {
    forall d, B :: Aligned(A, B) && Fits(A, d) && Fits(B, d) ==>
      Apply(Apply(d, B), Transform(A, B)) == Merge(d, A, B)
  }

  /** And those are all the edits of which this can be said. */
  lemma IntentionAlways(A: Edit)
    ensures AlwaysMerges(A) <==> Tidy(A)
  {
    if Tidy(A) {
      forall d, B | Aligned(A, B) && Fits(A, d) && Fits(B, d)
        ensures Apply(Apply(d, B), Transform(A, B)) == Merge(d, A, B)
      {
        Intention(d, A, B);
      }
    } else {
      var B, g := UntidyOutOfOrder(A);
      var d := seq(Consumed(A), _ => ' ');
      assert Fits(A, d) && Fits(B, d) && !GapsInOrder(A, B, |d|);
      IntentionExact(d, A, B);
    }
  }

  /** A retain of length zero in front of `A`'s text gives the tie away: the text
      of `B` comes first. */
  lemma ZeroRetainLosesTie(d: string, x: string, y: string)
    ensures
      var A, B := [Retain(0), Insert(x)], [Insert(y)];
      Aligned(A, B) && (Apply(Apply(d, B), Transform(A, B)) == Merge(d, A, B) <==> x + y == y + x)
  {
    var A, B := [Retain(0), Insert(x)], [Insert(y)];
    assert A == [Retain(0)] + [Insert(x)];
    MeasuresOfConcat([Retain(0)], [Insert(x)]);
    assert Consumed([Insert(x)]) == Consumed([Insert(y)]) == Consumed([Retain(0)]) == Consumed([]);
    forall g: nat ensures InOrderAt(A, B, g) <==> g > 0 || y + x == x + y {
      TieGap(x, y, g);
    }
    assert GapsInOrder(A, B, |d|) <==> InOrderAt(A, B, 0);
    IntentionExact(d, A, B);
  }

  lemma TieGap(x: string, y: string, g: nat)
    ensures
      var A, B := [Retain(0), Insert(x)], [Insert(y)];
      Aligned(A, B) && (InOrderAt(A, B, g) <==> g > 0 || y + x == x + y)
  {
    var A, B := [Retain(0), Insert(x)], [Insert(y)];
    assert A == [Retain(0)] + [Insert(x)] && [Insert(x)] == [Insert(x)] + [] && B == [Insert(y)] + [];
    assert B[1..] == [] && Joint(A, []) == A;
    assert Joint(A, B) == [Insert(y)] + A;
    HeadAt(Insert(y), A, g);
    HeadAt(Retain(0), [Insert(x)], g);
    HeadAt(Insert(x), [], g);
    HeadAt(Insert(y), [], g);
    assert x + "" == x && y + "" == y;
  }

  // ---- Every pair of edits, once cut ---------------------------------------------

  lemma CutMerge(d: string, A: Edit, B: Edit)
    ensures Merge(d, Units(A), Units(B)) == Merge(d, A, B)
  {
    forall h: nat
      ensures InsertedAt(Units(A), h) == InsertedAt(A, h) && DeletesAt(Units(A), h) == DeletesAt(A, h)
      ensures InsertedAt(Units(B), h) == InsertedAt(B, h) && DeletesAt(Units(B), h) == DeletesAt(B, h)
    {
      UnitsMeaning(A, h);
      UnitsMeaning(B, h);
    }
    MergeFromSame(d, Units(A), Units(B), A, B, 0);
  }

  /** No alignment needed once both edits are cut into single characters. */
  lemma CutIntention(d: string, A: Edit, B: Edit)
    requires Fits(A, d) && Fits(B, d)
    ensures Apply(Apply(d, B), Transform(Units(A), Units(B))) == Merge(d, A, B)
  {
    UnitsAreUnit(A);
    UnitsAreUnit(B);
    UnitsAlign(Units(A), Units(B));
    UnitsMeasures(A);
    UnitsMeasures(B);
    PositiveTidy(Units(A));
    Intention(d, Units(A), Units(B));
    UnitsApply(d, B);
    CutMerge(d, A, B);
  }

  predicate CommuteFrom(A: Edit, B: Edit, g: nat, n: nat) {
    forall h: nat :: g <= h <= n ==> CommuteAt(A, B, h)
  }

  lemma OrderGap(d: string, A: Edit, B: Edit, g: nat)
    requires g < |d|
    ensures MergeFrom(d, A, B, g) == MergeFrom(d, B, A, g) <==>
      CommuteAt(A, B, g) && MergeFrom(d, A, B, g + 1) == MergeFrom(d, B, A, g + 1)
  {
    SplitTwice(InsertedAt(A, g) + InsertedAt(B, g), InsertedAt(B, g) + InsertedAt(A, g),
               if DeletesAt(A, g) || DeletesAt(B, g) then "" else [d[g]],
               MergeFrom(d, A, B, g + 1), MergeFrom(d, B, A, g + 1));
  }

  lemma LastOrderGap(d: string, A: Edit, B: Edit)
    ensures MergeFrom(d, A, B, |d|) == MergeFrom(d, B, A, |d|) <==> CommuteAt(A, B, |d|)
  {
    var ab, ba := InsertedAt(A, |d|) + InsertedAt(B, |d|), InsertedAt(B, |d|) + InsertedAt(A, |d|);
    assert ab + "" == ab && ba + "" == ba;
  }

  lemma {:induction false} MergeOrder(d: string, A: Edit, B: Edit, g: nat)
    requires g <= |d|
    ensures MergeFrom(d, A, B, g) == MergeFrom(d, B, A, g) <==> CommuteFrom(A, B, g, |d|)
    decreases |d| - g
  {
    if g < |d| {
      OrderGap(d, A, B, g);
      MergeOrder(d, A, B, g + 1);
      assert CommuteFrom(A, B, g, |d|) <==> CommuteAt(A, B, g) && CommuteFrom(A, B, g + 1, |d|);
    } else {
      LastOrderGap(d, A, B);
      assert CommuteFrom(A, B, g, |d|) <==> CommuteAt(A, B, g);
    }
  }

  lemma SplitTwice(x: string, y: string, kept: string, p: string, q: string)
    requires |x| == |y|
    ensures x + (kept + p) == y + (kept + q) <==> x == y && p == q
  {
    SplitEqual(kept, kept, p, q);
    SplitEqual(x, y, kept + p, kept + q);
  }

  /** The diamond for every fitting pair of edits, cut into single characters:
      the two orders converge if and only if the insertions commute in every
      gap of the text. */
  lemma CutDiamond(d: string, A: Edit, B: Edit)
    requires Fits(A, d) && Fits(B, d)
    ensures Converge(d, A, B, Transform(Units(A), Units(B)), Transform(Units(B), Units(A)))
      <==> GapsCommute(A, B, |d|)
  {
    CutIntention(d, A, B);
    CutIntention(d, B, A);
    MergeOrder(d, A, B, 0);
    assert CommuteFrom(A, B, 0, |d|) <==> GapsCommute(A, B, |d|);
    UnitsApply(d, A);
    UnitsApply(d, B);
  }

  // ---- Aligned edits need no cutting -----------------------------------------------

  lemma WalkMeet(a: Op, b: Op, A: Edit, B: Edit)
    requires !a.Insert? && !b.Insert? && a.count == b.count
    ensures Walk([a] + A, [b] + B) == Meet(a, b) + Walk(A, B)
  {
    assert ([a] + A)[1..] == A && ([b] + B)[1..] == B;
  }

  lemma {:induction false} WalkOfCopies(a: Op, b: Op, n: nat, A: Edit, B: Edit)
    requires (a == Retain(1) || a == Delete(1)) && (b == Retain(1) || b == Delete(1))
    ensures Walk(Copies(a, n) + A, Copies(b, n) + B) ==
      (if b.Delete? then [] else Copies(a, n)) + Walk(A, B)
    decreases n
  {
    if n == 0 {
      assert Copies(a, 0) + A == A && Copies(b, 0) + B == B;
    } else {
      var A', B' := Copies(a, n - 1) + A, Copies(b, n - 1) + B;
      CopiesHead(a, n, A);
      CopiesHead(b, n, B);
      WalkMeet(a, b, A', B');
      WalkOfCopies(a, b, n - 1, A, B);
      if !b.Delete? { CopiesHead(a, n, Walk(A, B)); }
    }
  }

  lemma {:induction false} WalkOfUnits(A: Edit, B: Edit)
    requires Aligned(A, B) && Positive(A)
    ensures Units(Walk(A, B)) == Units(Walk(Units(A), Units(B)))
    decreases |A| + |B|
  {
    if A == [] {
    } else if B == [] {
      UnitsTwice(A);
    } else if A[0].Insert? {
      WalkOfUnits(A[1..], B);
      WalkOfUnitsInsertA(A, B);
    } else if B[0].Insert? {
      WalkOfUnits(A, B[1..]);
      WalkOfUnitsInsertB(A, B);
    } else {
      WalkOfUnits(A[1..], B[1..]);
      WalkOfUnitsMeet(A, B);
    }
  }

  lemma WalkOfUnitsInsertA(A: Edit, B: Edit)
    requires A != [] && B != [] && A[0].Insert?
    requires Units(Walk(A[1..], B)) == Units(Walk(Units(A[1..]), Units(B)))
    ensures Units(Walk(A, B)) == Units(Walk(Units(A), Units(B)))
  {
    assert Units(A)[1..] == Units(A[1..]);
    UnitsOfConcat([A[0]], Walk(A[1..], B));
    UnitsOfConcat([A[0]], Walk(Units(A[1..]), Units(B)));
    if Units(B) == [] {
      assert Units(A) == [A[0]] + Units(A[1..]);
    }
  }

  lemma WalkOfUnitsInsertB(A: Edit, B: Edit)
    requires A != [] && B != [] && !A[0].Insert? && A[0].count > 0 && B[0].Insert?
    requires Units(Walk(A, B[1..])) == Units(Walk(Units(A), Units(B[1..])))
    ensures Units(Walk(A, B)) == Units(Walk(Units(A), Units(B)))
  {
    var skip := Retain(|B[0].text|);
    assert Units(B)[1..] == Units(B[1..]);
    CopiesShape(if A[0].Retain? then Retain(1) else Delete(1), A[0].count);
    assert Units(A) != [] && !Units(A)[0].Insert?;
    UnitsOfConcat([skip], Walk(A, B[1..]));
    UnitsOfConcat([skip], Walk(Units(A), Units(B[1..])));
  }

  lemma WalkOfUnitsMeet(A: Edit, B: Edit)
    requires A != [] && B != [] && !A[0].Insert? && !B[0].Insert? && A[0].count == B[0].count
    requires Units(Walk(A[1..], B[1..])) == Units(Walk(Units(A[1..]), Units(B[1..])))
    ensures Units(Walk(A, B)) == Units(Walk(Units(A), Units(B)))
  {
    var n := A[0].count;
    var a := if A[0].Retain? then Retain(1) else Delete(1);
    var b := if B[0].Retain? then Retain(1) else Delete(1);
    WalkOfCopies(a, b, n, Units(A[1..]), Units(B[1..]));
    UnitsOfConcat(Meet(A[0], B[0]), Walk(A[1..], B[1..]));
    UnitsOfConcat(if b.Delete? then [] else Copies(a, n), Walk(Units(A[1..]), Units(B[1..])));
    UnitsOfUnits(a, n);
    if B[0].Retain? { UnitsOfOne(A[0]); }
  }

  lemma {:induction false} WalkPositiveDeletes(A: Edit, B: Edit)
    requires Aligned(A, B) && Positive(A)
    ensures PositiveDeletes(Walk(A, B))
    decreases |A| + |B|
  {
    if A == [] || B == [] {
    } else if A[0].Insert? {
      WalkPositiveDeletes(A[1..], B);
    } else if B[0].Insert? {
      WalkPositiveDeletes(A, B[1..]);
    } else {
      WalkPositiveDeletes(A[1..], B[1..]);
    }
  }

  /** On aligned edits the engine, which never splits an operation, computes
      the very list it would compute on single characters. */
  lemma AlignedNeedsNoSplitting(A: Edit, B: Edit)
    requires Aligned(A, B) && Positive(A)
    ensures Transform(A, B) == Transform(Units(A), Units(B))
  {
    WalkOfUnits(A, B);
    UnitsAreUnit(A);
    UnitsAreUnit(B);
    UnitsAlign(Units(A), Units(B));
    WalkPositiveDeletes(A, B);
    WalkPositiveDeletes(Units(A), Units(B));
    PositiveNoIdle(NoRun, Walk(A, B));
    PositiveNoIdle(NoRun, Walk(Units(A), Units(B)));
    CompactDecidesUnits(Walk(A, B), Walk(Units(A), Units(B)));
  }
}
