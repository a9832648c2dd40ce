/** What transformation does to edits that are not aligned. Of two operations that
    meet, the engine advances past the shorter one and leaves the longer one as it is:
    it transforms as if the part that was met stood in front of the whole. */
module Unaligned {
  import opened Sequences
  import opened TextEdits
  import opened CutLaws
  import opened CompactLaws
  import opened TransformLaws
  import opened MergeLaws
  import opened Ladder

  // ---- Every pair of edits -----------------------------------------------------------

  /** Both edits with every part that is met in front of the operation it is part of. */
  function Stretched(A: Edit, B: Edit): (Edit, Edit)
    decreases |A| + |B|
  {
    if A == [] || B == [] then (A, B)
    else if A[0].Insert? then
      var rest := Stretched(A[1..], B);
      ([A[0]] + rest.0, rest.1)
    else if B[0].Insert? then
      var rest := Stretched(A, B[1..]);
      (rest.0, [B[0]] + rest.1)
    else
      var n := Min(A[0].count, B[0].count);
      var rest := Stretched(if n == A[0].count then A[1..] else A, if n == B[0].count then B[1..] else B);
      ([Resized(A[0], n)] + rest.0, [Resized(B[0], n)] + rest.1)
  }

  /** The first edit loses no head that is not an insert. */
  lemma {:induction false} HeadStays(A: Edit, B: Edit)
    requires A != [] && !A[0].Insert?
    ensures Stretched(A, B).0 != [] && !Stretched(A, B).0[0].Insert?
    decreases |B|
  {
    if B != [] && B[0].Insert? { HeadStays(A, B[1..]); }
  }

  lemma WalkInsertFirst(x: Op, S: Edit, T: Edit)
    requires x.Insert?
    ensures Walk([x] + S, T) == [x] + Walk(S, T) && (Aligned(S, T) ==> Aligned([x] + S, T))
  {
    assert ([x] + S)[1..] == S;
  }

  lemma WalkInsertSecond(S: Edit, y: Op, T: Edit)
    requires y.Insert? && S != [] && !S[0].Insert?
    ensures Walk(S, [y] + T) == [Retain(|y.text|)] + Walk(S, T) && (Aligned(S, T) ==> Aligned(S, [y] + T))
  {
    assert ([y] + T)[1..] == T;
  }

  lemma AlignedMeet(a: Op, b: Op, S: Edit, T: Edit)
    requires !a.Insert? && !b.Insert? && a.count == b.count && Aligned(S, T)
    ensures Aligned([a] + S, [b] + T)
  {
    assert ([a] + S)[1..] == S && ([b] + T)[1..] == T;
  }

  lemma {:induction false} WalkStretched(A: Edit, B: Edit)
    ensures Aligned(Stretched(A, B).0, Stretched(A, B).1)
    ensures Walk(A, B) == Walk(Stretched(A, B).0, Stretched(A, B).1)
    decreases |A| + |B|
  {
    if A == [] || B == [] {
    } else if A[0].Insert? {
      var rest := Stretched(A[1..], B);
      WalkStretched(A[1..], B);
      WalkInsertFirst(A[0], rest.0, rest.1);
    } else if B[0].Insert? {
      var rest := Stretched(A, B[1..]);
      WalkStretched(A, B[1..]);
      HeadStays(A, B[1..]);
      WalkInsertSecond(rest.0, B[0], rest.1);
    } else {
      var n := Min(A[0].count, B[0].count);
      var A', B' := if n == A[0].count then A[1..] else A, if n == B[0].count then B[1..] else B;
      var rest := Stretched(A', B');
      WalkStretched(A', B');
      AlignedMeet(Resized(A[0], n), Resized(B[0], n), rest.0, rest.1);
      WalkMeet(Resized(A[0], n), Resized(B[0], n), rest.0, rest.1);
    }
  }

  /** Whatever the two edits, the engine computes what it computes on two aligned
      ones: those stretched. */
  lemma TransformStretched(A: Edit, B: Edit)
    ensures Aligned(Stretched(A, B).0, Stretched(A, B).1)
    ensures Transform(A, B) == Transform(Stretched(A, B).0, Stretched(A, B).1)
  {
    WalkStretched(A, B);
  }

  /** `S` is `A` with shorter operations of the same kind put in front of operations. */
  predicate Repeats(S: Edit, A: Edit)
    decreases |S|
  {
    if S == [] || A == [] then S == A
    else
      || (S[0] == A[0] && Repeats(S[1..], A[1..]))
      || (!A[0].Insert? && !S[0].Insert? && S[0] == Resized(A[0], S[0].count) && S[0].count < A[0].count
          && Repeats(S[1..], A))
  }

  lemma {:induction false} RepeatsItself(A: Edit)
    ensures Repeats(A, A)
  {
    if A != [] { RepeatsItself(A[1..]); }
  }

  lemma RepeatsHead(op: Op, S: Edit, A: Edit)
    requires A != []
    requires (op == A[0] && Repeats(S, A[1..])) ||
      (!A[0].Insert? && !op.Insert? && op == Resized(A[0], op.count) && op.count < A[0].count && Repeats(S, A))
    ensures Repeats([op] + S, A)
  {
    assert ([op] + S)[1..] == S;
  }

  lemma {:induction false} StretchedRepeats(A: Edit, B: Edit)
    ensures Repeats(Stretched(A, B).0, A) && Repeats(Stretched(A, B).1, B)
    decreases |A| + |B|
  {
    if A == [] || B == [] {
      RepeatsItself(A);
      RepeatsItself(B);
    } else if A[0].Insert? {
      StretchedRepeats(A[1..], B);
      RepeatsHead(A[0], Stretched(A[1..], B).0, A);
    } else if B[0].Insert? {
      StretchedRepeats(A, B[1..]);
      RepeatsHead(B[0], Stretched(A, B[1..]).1, B);
    } else {
      var n := Min(A[0].count, B[0].count);
      var A', B' := if n == A[0].count then A[1..] else A, if n == B[0].count then B[1..] else B;
      StretchedRepeats(A', B');
      RepeatsHead(Resized(A[0], n), Stretched(A', B').0, A);
      RepeatsHead(Resized(B[0], n), Stretched(A', B').1, B);
    }
  }

  lemma {:induction false} AlignedStretched(A: Edit, B: Edit)
    requires Aligned(A, B)
    ensures Stretched(A, B) == (A, B)
    decreases |A| + |B|
  {
    if A == [] || B == [] {
    } else if A[0].Insert? {
      AlignedStretched(A[1..], B);
      assert A == [A[0]] + A[1..];
    } else if B[0].Insert? {
      AlignedStretched(A, B[1..]);
      assert B == [B[0]] + B[1..];
    } else {
      AlignedStretched(A[1..], B[1..]);
      assert Resized(A[0], A[0].count) == A[0] && Resized(B[0], B[0].count) == B[0];
      assert A == [A[0]] + A[1..] && B == [B[0]] + B[1..];
    }
  }

  /** Stretching adds operations and keeps all there are; it adds none if and only if
      the edits are aligned. */
  lemma StretchedExact(A: Edit, B: Edit)
    ensures Repeats(Stretched(A, B).0, A) && Repeats(Stretched(A, B).1, B)
    ensures Stretched(A, B) == (A, B) <==> Aligned(A, B)
  {
    StretchedRepeats(A, B);
    WalkStretched(A, B);
    if Aligned(A, B) { AlignedStretched(A, B); }
  }

  /** For every pair of edits: after the second one stretched, the transformed first
      one leads to the merge of the two stretched edits, if and only if the walk meets
      their insertions in order. */
  lemma StretchedMerge(d: string, A: Edit, B: Edit)
    requires Fits(Stretched(A, B).0, d) && Fits(Stretched(A, B).1, d)
    ensures Aligned(Stretched(A, B).0, Stretched(A, B).1)
    ensures
      var (S, T) := Stretched(A, B);
      Apply(Apply(d, T), Transform(A, B)) == Merge(d, S, T) <==> GapsInOrder(S, T, |d|)
  {
    TransformStretched(A, B);
    IntentionExact(d, Stretched(A, B).0, Stretched(A, B).1);
  }

  /** No operation of `B` is longer than one of `A` that it meets. */
  predicate Covered(A: Edit, B: Edit) {
    Stretched(A, B).1 == B
  }

  /** Then the text is the one the server has: the merge of `B` with the stretched
      `A`, in which every operation that met shorter ones is carried out on what these
      cover, and then again in full. */
  lemma CoveredMerge(d: string, A: Edit, B: Edit)
    requires Covered(A, B) && Fits(Stretched(A, B).0, d) && Fits(B, d)
    ensures Aligned(Stretched(A, B).0, B)
    ensures Apply(Apply(d, B), Transform(A, B)) == Merge(d, Stretched(A, B).0, B)
      <==> GapsInOrder(Stretched(A, B).0, B, |d|)
  {
    StretchedMerge(d, A, B);
  }

  // ---- Two operations of different length -----------------------------------------------

  lemma FrontWalk(m: nat, A: Edit, B: Edit)
    ensures Walk([Retain(m)] + A, [Retain(m)] + B) == [Retain(m)] + Walk(A, B)
  {
    WalkMeet(Retain(m), Retain(m), A, B);
  }

  /** The text that one edit, transformed, makes of what the other one made. */
  function Via(d: string, B: Edit, A: Edit): string {
    Apply(Apply(d, B), Transform(A, B))
  }

  lemma ViaWalk(d: string, B: Edit, A: Edit)
    ensures Via(d, B, A) == Apply(Apply(d, B), Walk(A, B))
  {
    CompactPreserves(Apply(d, B), Walk(A, B));
  }

  /** Retaining the same text first makes no difference. */
  lemma CommonFront(p: string, w: string, A: Edit, B: Edit)
    ensures Via(p + w, [Retain(|p|)] + B, [Retain(|p|)] + A) == p + Via(w, B, A)
  {
    var A', B' := [Retain(|p|)] + A, [Retain(|p|)] + B;
    ViaWalk(p + w, B', A');
    ViaWalk(w, B, A);
    FrontWalk(|p|, A, B);
    RetainPrefix(p, w, B);
    RetainPrefix(p, Apply(w, B), Walk(A, B));
  }

  lemma ApplyDelete(w: string, k: nat)
    ensures Apply(w, [Delete(k)]) == Drop(w, k)
  {
    assert [Delete(k)] == [Delete(k)] + [];
    ApplyHead(w, Delete(k), []);
  }

  lemma ApplyType(w: string, n: nat, y: string)
    ensures Apply(w, Type(n, y)) == Take(w, n) + (y + Drop(w, n))
  {
    assert Type(n, y) == [Retain(n)] + [Insert(y)] && [Insert(y)] == [Insert(y)] + [];
    ApplyHead(w, Retain(n), [Insert(y)]);
    ApplyHead(Drop(w, n), Insert(y), []);
  }

  /** A deletion of `k` characters of which `n` are followed by what the other types. */
  lemma DeleteOverWalks(k: nat, n: nat, y: string)
    requires n < k
    ensures Walk([Delete(k)], Type(n, y)) == [Delete(n)] + ([Retain(|y|)] + [Delete(k)])
    ensures Walk(Type(n, y), [Delete(k)]) == [Insert(y)]
  {
    var A, B := [Delete(k)], Type(n, y);
    assert B[1..] == [Insert(y)] && [Insert(y)][1..] == [];
    assert Walk(A, [Insert(y)]) == [Retain(|y|)] + Walk(A, []);
    assert Walk([Insert(y)], A) == [Insert(y)] + Walk([], A);
  }

  lemma DeleteOverVia(w: string, k: nat, n: nat, y: string)
    requires n < k <= |w|
    ensures Via(w, Type(n, y), [Delete(k)]) == y + Drop(w, n + k)
    ensures Via(w, [Delete(k)], Type(n, y)) == y + Drop(w, k)
  {
    var front, rest := Take(w, n), Drop(w, n);
    ViaWalk(w, Type(n, y), [Delete(k)]);
    ViaWalk(w, [Delete(k)], Type(n, y));
    DeleteOverWalks(k, n, y);
    ApplyType(w, n, y);
    RetainPrefix(front, y + rest, [Retain(|y|)] + [Delete(k)]);
    RetainPrefix(y, rest, [Delete(k)]);
    ApplyDelete(rest, k);
    DropThenDrop(w, n, k);
    ApplyDelete(w, k);
    assert [Insert(y)] == [Insert(y)] + [];
    ApplyHead(Drop(w, k), Insert(y), []);
  }

  lemma SameDrop(w: string, k: nat, n: nat)
    requires 0 < n && k <= |w|
    ensures Drop(w, n + k) == Drop(w, k) <==> k == |w|
  {
    assert |Drop(w, k)| == |w| - k && |Drop(w, n + k)| == |w| - Min(n + k, |w|);
    if k == |w| { assert Drop(w, n + k) == "" == Drop(w, k); }
  }

  /** Behind `p`, one author deletes `k` characters and the other types in the middle
      of them. The deletion comes to `n` characters more than it was meant for. */
  lemma DeleteOverInsert(p: string, w: string, k: nat, n: nat, y: string)
    requires 0 < n < k <= |w|
    ensures
      var A, B := [Retain(|p|)] + [Delete(k)], [Retain(|p|)] + Type(n, y);
      && Apply(Apply(p + w, B), Transform(A, B)) == p + (y + Drop(w, n + k))
      && Apply(Apply(p + w, A), Transform(B, A)) == p + (y + Drop(w, k))
      && (Converge(p + w, A, B, Transform(A, B), Transform(B, A)) <==> k == |w|)
  {
    CommonFront(p, w, [Delete(k)], Type(n, y));
    CommonFront(p, w, Type(n, y), [Delete(k)]);
    DeleteOverVia(w, k, n, y);
    SamePrefix(p, y + Drop(w, n + k), y + Drop(w, k));
    SamePrefix(y, Drop(w, n + k), Drop(w, k));
    SameDrop(w, k, n);
  }

  lemma DeleteBeforeWalks(k: nat, n: nat, x: string)
    requires n < k
    ensures Walk(Type(k, x), [Delete(n)]) == Type(k, x)
    ensures Walk([Delete(n)], Type(k, x)) == [Delete(n)]
  {
    var A, B := Type(k, x), [Delete(n)];
    assert B[1..] == [];
    assert Walk(A, B) == [] + Walk(A, []);
    assert Walk(B, A) == [Delete(n)] + Walk([], A);
  }

  lemma DropTyped(w: string, k: nat, n: nat, x: string)
    requires n < k <= |w|
    ensures Drop(w[..k] + (x + w[k..]), n) == w[n..k] + (x + w[k..])
  {
    assert w[..k] == w[..n] + w[n..k];
    assert w[..k] + (x + w[k..]) == w[..n] + (w[n..k] + (x + w[k..]));
  }

  lemma DeleteBeforeVia(w: string, k: nat, n: nat, x: string)
    requires n < k <= |w|
    ensures Via(w, [Delete(n)], Type(k, x)) == Take(w[n..], k) + (x + Drop(w[n..], k))
    ensures Via(w, Type(k, x), [Delete(n)]) == w[n..k] + (x + w[k..])
  {
    ViaWalk(w, [Delete(n)], Type(k, x));
    ViaWalk(w, Type(k, x), [Delete(n)]);
    DeleteBeforeWalks(k, n, x);
    ApplyDelete(w, n);
    ApplyType(w[n..], k, x);
    ApplyType(w, k, x);
    ApplyDelete(w[..k] + (x + w[k..]), n);
    DropTyped(w, k, n, x);
  }

  lemma MovedBehind(w: string, k: nat, n: nat, x: string)
    requires n < k <= |w|
    ensures
      var moved := w[k..Min(n + k, |w|)];
      Take(w[n..], k) + (x + Drop(w[n..], k)) == w[n..k] + (x + w[k..]) <==> moved + x == x + moved
  {
    var front, end := w[n..k], Min(n + k, |w|);
    var moved, r := w[k..end], w[end..];
    assert Take(w[n..], k) == front + moved && Drop(w[n..], k) == r && w[k..] == moved + r;
    ConcatAssoc(front, moved, x + r);
    SamePrefix(front, moved + (x + r), x + (moved + r));
    ConcatAssoc(moved, x, r);
    ConcatAssoc(x, moved, r);
    SplitEqual(moved + x, x + moved, r, r);
  }

  /** Behind `p`, one author deletes `n` characters and the other types further on.
      What is typed lands `n` characters too far. */
  lemma DeleteBeforeInsert(p: string, w: string, k: nat, n: nat, x: string)
    requires n < k <= |w|
    ensures
      var A, B := [Retain(|p|)] + Type(k, x), [Retain(|p|)] + [Delete(n)];
      var moved := w[k..Min(n + k, |w|)];
      && Apply(Apply(p + w, B), Transform(A, B)) == p + (Take(w[n..], k) + (x + Drop(w[n..], k)))
      && Apply(Apply(p + w, A), Transform(B, A)) == p + (w[n..k] + (x + w[k..]))
      && (Converge(p + w, A, B, Transform(A, B), Transform(B, A)) <==> moved + x == x + moved)
  {
    CommonFront(p, w, Type(k, x), [Delete(n)]);
    CommonFront(p, w, [Delete(n)], Type(k, x));
    DeleteBeforeVia(w, k, n, x);
    SamePrefix(p, Take(w[n..], k) + (x + Drop(w[n..], k)), w[n..k] + (x + w[k..]));
    MovedBehind(w, k, n, x);
  }

  lemma TwoDeletesWalks(k: nat, n: nat)
    requires n < k
    ensures Walk([Delete(k)], [Delete(n)]) == [Delete(k)]
    ensures Walk([Delete(n)], [Delete(k)]) == []
  {
    var A, B := [Delete(k)], [Delete(n)];
    assert B[1..] == [];
    assert Walk(A, B) == [] + Walk(A, []);
    assert Walk(B, A) == [] + Walk([], A);
  }

  lemma TwoDeletesVia(w: string, k: nat, n: nat)
    requires n < k
    ensures Via(w, [Delete(n)], [Delete(k)]) == Drop(w, n + k)
    ensures Via(w, [Delete(k)], [Delete(n)]) == Drop(w, k)
  {
    ViaWalk(w, [Delete(n)], [Delete(k)]);
    ViaWalk(w, [Delete(k)], [Delete(n)]);
    TwoDeletesWalks(k, n);
    ApplyDelete(w, n);
    ApplyDelete(Drop(w, n), k);
    DropThenDrop(w, n, k);
    ApplyDelete(w, k);
  }

  /** Behind `p`, both authors delete, one of them more. The longer deletion takes `n`
      further characters that nobody meant. */
  lemma TwoDeletes(p: string, w: string, k: nat, n: nat)
    requires 0 < n < k <= |w|
    ensures
      var A, B := [Retain(|p|)] + [Delete(k)], [Retain(|p|)] + [Delete(n)];
      && Apply(Apply(p + w, B), Transform(A, B)) == p + Drop(w, n + k)
      && Apply(Apply(p + w, A), Transform(B, A)) == p + Drop(w, k)
      && (Converge(p + w, A, B, Transform(A, B), Transform(B, A)) <==> k == |w|)
  {
    CommonFront(p, w, [Delete(k)], [Delete(n)]);
    CommonFront(p, w, [Delete(n)], [Delete(k)]);
    TwoDeletesVia(w, k, n);
    SamePrefix(p, Drop(w, n + k), Drop(w, k));
    SameDrop(w, k, n);
  }
}
