/** An edit that was made against an old revision: the server folds it over the
    edits accepted since, the author's copy folds those over the edit. */
module Ladder {
  import opened Sequences
  import opened TextEdits
  import opened CutLaws
  import opened CompactLaws
  import opened TransformLaws

  /** The author's copy: it carried out `A` at once, and then every accepted
      edit as transformed against `A` as transformed so far. */
  function AuthorReplay(copy: string, A: Edit, Bs: seq<Edit>): string
    decreases |Bs|
  {
    if Bs == [] then copy
    else AuthorReplay(Apply(copy, Transform(Bs[0], A)), Transform(A, Bs[0]), Bs[1..])
  }

  /** At every rung the accepted edit fits the text, is aligned with the edit as
      transformed so far, and ties with it only where the order is immaterial. */
  predicate Rungs(d: string, A: Edit, Bs: seq<Edit>)
    decreases |Bs|
  {
    Bs == [] ||
    (Fits(Bs[0], d) && Aligned(A, Bs[0]) && TiesCommute(A, Bs[0]) &&
     Rungs(Apply(d, Bs[0]), Transform(A, Bs[0]), Bs[1..]))
  }

  /** Server and author end with the same text. */
  lemma {:induction false} LadderConverges(d: string, A: Edit, Bs: seq<Edit>)
    requires Fits(A, d) && Rungs(d, A, Bs)
    ensures Apply(Replay(d, Bs), Fold(A, Bs)) == AuthorReplay(Apply(d, A), A, Bs)
    ensures Fits(Fold(A, Bs), Replay(d, Bs))
    decreases |Bs|
  {
    if Bs != [] {
      var B, A' := Bs[0], Transform(A, Bs[0]);
      Diamond(d, A, B);
      Closure(d, A, B);
      LadderConverges(Apply(d, B), A', Bs[1..]);
    }
  }

  /** On one rung the hypothesis on ties is exactly what is needed. */
  lemma OneRung(d: string, A: Edit, B: Edit)
    requires Fits(A, d) && Fits(B, d) && Aligned(A, B)
    ensures Apply(Replay(d, [B]), Fold(A, [B])) == AuthorReplay(Apply(d, A), A, [B])
      <==> TiesCommute(A, B)
  {
    Diamond(d, A, B);
    assert [B][1..] == [];
    assert Replay(d, [B]) == Replay(Apply(d, B), []);
    assert Fold(A, [B]) == Fold(Transform(A, B), []);
    assert AuthorReplay(Apply(d, A), A, [B]) == AuthorReplay(Apply(Apply(d, A), Transform(B, A)), Transform(A, B), []);
  }

  // ---- Where convergence fails ---------------------------------------------------

  /** The edit of an author who types `text` behind `at` characters. */
  function Type(at: nat, text: string): Edit {
    [Retain(at), Insert(text)]
  }

  /** Two authors type at the same place. */
  lemma TieExact(d: string, m: nat, x: string, y: string)
    requires m <= |d|
    ensures
      var A, B := Type(m, x), Type(m, y);
      Aligned(A, B) && (Converge(d, A, B, Transform(A, B), Transform(B, A)) <==> x + y == y + x)
  {
    var A, B := Type(m, x), Type(m, y);
    assert A[1..] == [Insert(x)] && B[1..] == [Insert(y)];
    TieOfInserts(x, y);
    assert Run(A) == "" && Run(B) == "" && AfterRun(A) == A && AfterRun(B) == B;
    assert Consumed(A) == m && Consumed(B) == m;
    Diamond(d, A, B);
  }

  lemma TieOfInserts(x: string, y: string)
    ensures Aligned([Insert(x)], [Insert(y)]) && (TiesCommute([Insert(x)], [Insert(y)]) <==> x + y == y + x)
    ensures Consumed([Insert(x)]) == Consumed([Insert(y)]) == 0
  {
    var A, B := [Insert(x)], [Insert(y)];
    assert A[1..] == [] && B[1..] == [];
    assert Run(A) == x + "" == x && Run(B) == y + "" == y;
  }

  lemma TieDiverges(d: string, m: nat)
    requires m <= |d|
    ensures
      var A, B := Type(m, "x"), Type(m, "y");
      Aligned(A, B) && Fits(A, d) && Fits(B, d) && !Converge(d, A, B, Transform(A, B), Transform(B, A))
  {
    TieExact(d, m, "x", "y");
    TieOfInserts("x", "y");
    assert ("x" + "y")[0] != ("y" + "x")[0];
    assert Type(m, "x")[1..] == [Insert("x")] && Type(m, "y")[1..] == [Insert("y")];
  }

  lemma TypeApply(front: string, rest: string, x: string)
    ensures Apply(front + rest, Type(|front|, x)) == front + (x + rest)
  {
    assert Type(|front|, x) == [Retain(|front|)] + [Insert(x)];
    RetainPrefix(front, rest, [Insert(x)]);
    assert [Insert(x)] == [Insert(x)] + [];
    ApplyHead(rest, Insert(x), []);
  }

  lemma TypeWalks(m: nat, n: nat, x: string, y: string)
    requires n < m
    ensures Walk(Type(m, x), Type(n, y)) == [Retain(n)] + ([Retain(|y|)] + Type(m, x))
    ensures Walk(Type(n, y), Type(m, x)) == Type(n, y)
  {
    var A, B := Type(m, x), Type(n, y);
    assert B[1..] == [Insert(y)] && [Insert(y)][1..] == [];
    assert Walk(A, [Insert(y)]) == [Retain(|y|)] + Walk(A, []);
    assert Walk([Insert(y)], A) == [Insert(y)] + Walk([], A);
  }

  /** A retain to the end of the text or past it. */
  lemma RetainAll(d: string, at: nat, ops: Edit, empty: string)
    requires at >= |d| && |empty| == 0
    ensures Apply(d, [Retain(at)] + ops) == d + Apply(empty, ops)
  {
    ApplyHead(d, Retain(at), ops);
    assert Take(d, at) == d && Drop(d, at) == empty;
  }

  /** Behind a text that is too short one types at its end. */
  lemma TypeAtEnd(d: string, at: nat, x: string)
    requires at >= |d|
    ensures Apply(d, Type(at, x)) == d + x
  {
    var empty := Drop(d, at);
    assert Type(at, x) == [Retain(at)] + [Insert(x)] && [Insert(x)] == [Insert(x)] + [];
    RetainAll(d, at, [Insert(x)], empty);
    ApplyHead(empty, Insert(x), []);
    assert x + empty == x;
  }

  /** `front` is as long as the retain, or all there is. */
  lemma TypeBehind(front: string, rest: string, at: nat, x: string)
    requires |front| == at || (|front| < at && rest == "")
    ensures Apply(front + rest, Type(at, x)) == front + (x + rest)
  {
    if |front| == at {
      TypeApply(front, rest, x);
    } else {
      assert front + "" == front && x + "" == x;
      TypeAtEnd(front, at, x);
    }
  }

  lemma RetainBoth(p: string, y: string, t: string, rest: Edit)
    ensures Apply(p + (y + t), [Retain(|p|)] + ([Retain(|y|)] + rest)) == p + (y + Apply(t, rest))
  {
    RetainPrefix(p, y + t, [Retain(|y|)] + rest);
    RetainPrefix(y, t, rest);
  }

  /** Behind `q` the later author's text is `moved` places off. */
  lemma TypedLater(q: string, moved: string, r: string, m: nat, x: string)
    requires m == |q| + |moved| || (m > |q| + |moved| && r == "")
    ensures Apply(q + (moved + r), Type(m, x)) == q + (moved + (x + r))
  {
    ConcatAssoc(q, moved, r);
    TypeBehind(q + moved, r, m, x);
    ConcatAssoc(q, moved, x + r);
  }

  /** The two results for a text `p + q + moved + r` with the cursors behind `p`
      and behind `q`. */
  lemma TypeBoth(p: string, q: string, moved: string, r: string, x: string, y: string)
    requires |moved| == |p| || (|moved| < |p| && r == "")
    requires q != ""
    ensures
      var A, B := Type(|p| + |q|, x), Type(|p|, y);
      && Apply(p + (y + (q + (moved + r))), Walk(A, B)) == p + (y + (q + (moved + (x + r))))
      && Apply(p + (q + (x + (moved + r))), Walk(B, A)) == p + (y + (q + (x + (moved + r))))
  {
    var A, B := Type(|p| + |q|, x), Type(|p|, y);
    TypeWalks(|p| + |q|, |p|, x, y);
    RetainBoth(p, y, q + (moved + r), A);
    TypedLater(q, moved, r, |p| + |q|, x);
    TypeApply(p, q + (x + (moved + r)), y);
  }

  lemma SameResults(p: string, y: string, q: string, moved: string, x: string, r: string)
    ensures p + (y + (q + (moved + (x + r)))) == p + (y + (q + (x + (moved + r)))) <==> moved + x == x + moved
  {
    SamePrefix(p, y + (q + (moved + (x + r))), y + (q + (x + (moved + r))));
    SamePrefix(y, q + (moved + (x + r)), q + (x + (moved + r)));
    SamePrefix(q, moved + (x + r), x + (moved + r));
    assert moved + (x + r) == (moved + x) + r && x + (moved + r) == (x + moved) + r;
    SplitEqual(moved + x, x + moved, r, r);
  }

  lemma CutText(d: string, m: nat, n: nat) returns (p: string, q: string, moved: string, r: string)
    requires n < m <= |d|
    ensures d == p + (q + (moved + r)) && d == (p + q) + (moved + r)
    ensures |p| == n && |q| == m - n && moved == d[m..Min(m + n, |d|)]
    ensures |moved| == n || (|moved| < n && r == "")
  {
    var end := Min(m + n, |d|);
    p, q, moved, r := d[..n], d[n..m], d[m..end], d[end..];
  }

  /** The diamond, from the texts that the four edits lead to. */
  lemma FourTexts(d: string, A: Edit, B: Edit, dA: string, dB: string, viaA: string, viaB: string)
    requires Apply(d, A) == dA && Apply(d, B) == dB
    requires Apply(dA, Walk(B, A)) == viaA && Apply(dB, Walk(A, B)) == viaB
    ensures Converge(d, A, B, Transform(A, B), Transform(B, A)) <==> viaB == viaA
  {
    CompactPreserves(dB, Walk(A, B));
    CompactPreserves(dA, Walk(B, A));
  }

  lemma TwoCursorsCut(p: string, q: string, moved: string, r: string, A: Edit, B: Edit, x: string, y: string)
    requires |moved| == |p| || (|moved| < |p| && r == "")
    requires q != "" && A == Type(|p + q|, x) && B == Type(|p|, y)
    ensures Converge(p + (q + (moved + r)), A, B, Transform(A, B), Transform(B, A))
      <==> moved + x == x + moved
  {
    var d := p + (q + (moved + r));
    assert d == (p + q) + (moved + r);
    TypeApply(p, q + (moved + r), y);
    TypeApply(p + q, moved + r, x);
    assert (p + q) + (x + (moved + r)) == p + (q + (x + (moved + r)));
    TypeBoth(p, q, moved, r, x, y);
    FourTexts(d, A, B, p + (q + (x + (moved + r))), p + (y + (q + (moved + r))),
              p + (y + (q + (x + (moved + r)))), p + (y + (q + (moved + (x + r)))));
    SameResults(p, y, q, moved, x, r);
  }

  /** Two authors type at two cursors of the text, `n < m`. The edits are not
      aligned, and the walk does not shorten the longer retain: the transformed
      insert of `x` lands `n` characters too far, or at the end of the text. The
      copies agree exactly when it makes no difference to carry `x` across those
      characters. */
  lemma TwoCursors(d: string, m: nat, n: nat, x: string, y: string)
    requires n < m <= |d|
    ensures
      var A, B, moved := Type(m, x), Type(n, y), d[m..Min(m + n, |d|)];
      Converge(d, A, B, Transform(A, B), Transform(B, A)) <==> moved + x == x + moved
  {
    var p, q, moved, r := CutText(d, m, n);
    TwoCursorsCut(p, q, moved, r, Type(m, x), Type(n, y), x, y);
  }

  /** At the end of the text there is nothing to carry it across. */
  lemma TypingAtTheEnd(d: string, n: nat, x: string, y: string)
    requires n < |d|
    ensures
      var A, B := Type(|d|, x), Type(n, y);
      Converge(d, A, B, Transform(A, B), Transform(B, A))
  {
    TwoCursors(d, |d|, n, x, y);
    assert d[|d|..|d|] == "" && "" + x == x + "";
  }

  /** In "abc", one author types behind `a` and one behind `b`. */
  lemma TwoCursorsDiverge()
    ensures
      var d, A, B := "abc", Type(2, "x"), Type(1, "y");
      !Converge(d, A, B, Transform(A, B), Transform(B, A))
  {
    TwoCursors("abc", 2, 1, "x", "y");
    assert "abc"[2..3] == "c" && ("c" + "x")[0] == 'c' && ("x" + "c")[0] == 'x';
  }

  // ---- Typing before a deletion ------------------------------------------------------

  /** The edit of an author who deletes `count` characters behind `at`. */
  function Cut(at: nat, count: nat): Edit {
    [Retain(at), Delete(count)]
  }

  lemma CutWalks(m: nat, k: nat, n: nat, y: string)
    requires n < m
    ensures Walk(Cut(m, k), Type(n, y)) == [Retain(n)] + ([Retain(|y|)] + Cut(m, k))
    ensures Walk(Type(n, y), Cut(m, k)) == Type(n, y)
  {
    var A, B := Cut(m, k), Type(n, y);
    assert B[1..] == [Insert(y)] && [Insert(y)][1..] == [];
    assert Walk(A, [Insert(y)]) == [Retain(|y|)] + Walk(A, []);
    assert Walk([Insert(y)], A) == [Insert(y)] + Walk([], A);
  }

  lemma CutApply(t: string, at: nat, k: nat, front: string, back: string)
    requires Take(t, at) == front && Drop(t, at + k) == back
    ensures Apply(t, Cut(at, k)) == front + back
  {
    assert Cut(at, k) == [Retain(at)] + [Delete(k)] && [Delete(k)] == [Delete(k)] + [];
    ApplyHead(t, Retain(at), [Delete(k)]);
    ApplyHead(Drop(t, at), Delete(k), []);
    DropThenDrop(t, at, k);
  }

  lemma BehindFront(q: string, w: string, n: nat)
    ensures Take(q + w, |q| + n) == q + Take(w, n) && Drop(q + w, |q| + n) == Drop(w, n)
  {}

  lemma CutBehindFront(q: string, w: string, n: nat, k: nat)
    ensures Apply(q + w, Cut(|q| + n, k)) == (q + Take(w, n)) + Drop(w, n + k)
  {
    BehindFront(q, w, n);
    BehindFront(q, w, n + k);
    CutApply(q + w, |q| + n, k, q + Take(w, n), Drop(w, n + k));
  }

  lemma BehindBoth(p: string, q: string, w: string, k: nat)
    ensures Take(p + (q + w), |p| + |q|) == p + q && Drop(p + (q + w), |p| + |q| + k) == Drop(w, k)
  {}

  lemma CutAlone(p: string, q: string, w: string, k: nat)
    ensures Apply(p + (q + w), Cut(|p| + |q|, k)) == (p + q) + Drop(w, k)
  {
    BehindBoth(p, q, w, k);
    CutApply(p + (q + w), |p| + |q|, k, p + q, Drop(w, k));
  }

  lemma CutAfterType(p: string, q: string, w: string, k: nat, y: string)
    ensures Apply(p + (y + (q + w)), [Retain(|p|)] + ([Retain(|y|)] + Cut(|p| + |q|, k)))
         == p + (y + ((q + Take(w, |p|)) + Drop(w, |p| + k)))
  {
    RetainBoth(p, y, q + w, Cut(|p| + |q|, k));
    CutBehindFront(q, w, |p|, k);
  }

  lemma SameBehind(p: string, y: string, q: string, u: string, v: string)
    ensures p + (y + (q + u)) == p + (y + (q + v)) <==> u == v
  {
    SamePrefix(p, y + (q + u), y + (q + v));
    SamePrefix(y, q + u, q + v);
    SamePrefix(q, u, v);
  }

  lemma TypeBeforeCut(p: string, q: string, w: string, k: nat, y: string)
    requires q != ""
    ensures
      var d, A, B := p + (q + w), Cut(|p| + |q|, k), Type(|p|, y);
      Converge(d, A, B, Transform(A, B), Transform(B, A)) <==> Drop(w, k) == Take(w, |p|) + Drop(w, |p| + k)
  {
    var d, A, B := p + (q + w), Cut(|p| + |q|, k), Type(|p|, y);
    CutWalks(|p| + |q|, k, |p|, y);
    CutAlone(p, q, w, k);
    ConcatAssoc(p, q, Drop(w, k));
    TypeApply(p, q + w, y);
    TypeApply(p, q + Drop(w, k), y);
    CutAfterType(p, q, w, k, y);
    ConcatAssoc(q, Take(w, |p|), Drop(w, |p| + k));
    FourTexts(d, A, B, Apply(d, A), Apply(d, B), Apply(Apply(d, A), Walk(B, A)), Apply(Apply(d, B), Walk(A, B)));
    SameBehind(p, y, q, Take(w, |p|) + Drop(w, |p| + k), Drop(w, k));
  }

  /** One author types at `n`, the other deletes `k` characters behind `m`, later in
      the text. The transformed deletion lands `n` characters too far. The copies
      agree exactly when deleting there, of what follows `m`, leaves the same text. */
  lemma InsertBeforeDelete(d: string, m: nat, k: nat, n: nat, y: string)
    requires n < m && m + k <= |d|
    ensures
      var A, B, w := Cut(m, k), Type(n, y), d[m..];
      Converge(d, A, B, Transform(A, B), Transform(B, A)) <==>
        w[k..] == w[..Min(n, |w|)] + w[Min(n + k, |w|)..]
  {
    var p, q, w := d[..n], d[n..m], d[m..];
    assert d == p + (q + w) && |p| == n && |q| == m - n;
    TypeBeforeCut(p, q, w, k, y);
  }

  /** In "abcd", one author types behind `a` and one deletes `c`. */
  lemma InsertBeforeDeleteDiverges()
    ensures
      var d, A, B := "abcd", Cut(2, 1), Type(1, "y");
      !Converge(d, A, B, Transform(A, B), Transform(B, A))
  {
    InsertBeforeDelete("abcd", 2, 1, 1, "y");
    assert "abcd"[2..] == "cd" && "cd"[1..] == "d" && "cd"[..1] + "cd"[2..] == "c";
    assert "d"[0] != "c"[0];
  }

  // ---- Edits that do not fit -------------------------------------------------------

  /** How far into the text `y`, typed at the end of `d`, a retain of `m` reaches. */
  function Reach(d: string, m: nat, y: string): nat {
    if m <= |d| then 0 else Min(m - |d|, |y|)
  }

  lemma UnfitWalks(m: nat, k: nat, x: string, y: string)
    ensures
      var A, B := Type(m, x), [Retain(m)] + Type(k, y);
      && Aligned(A, B) && TiesCommute(A, B)
      && Walk(A, B) == A && Walk(B, A) == [Retain(m)] + ([Retain(|x|)] + Type(k, y))
  {
    var A, B := Type(m, x), [Retain(m)] + Type(k, y);
    var A1, B1 := [Insert(x)], Type(k, y);
    assert A[1..] == A1 && B[1..] == B1 && A1[1..] == [];
    assert Run(A1) + Run(B1) == Run(B1) + Run(A1);
    assert AfterRun(A1) == [];
    assert Walk(A1, B1) == A1 + Walk([], B1);
    assert Walk(B1, A1) == [Retain(|x|)] + Walk(B1, []);
  }

  /** A text in front of both cursors, which the first retain ends. */
  lemma UnfitBehind(u: string, v: string, k: nat, x: string, y: string)
    ensures
      var A, B := Type(|u|, x), [Retain(|u|)] + Type(k, y);
      Apply(Apply(u + v, B), Walk(A, B)) == Apply(Apply(u + v, A), Walk(B, A))
  {
    var A, B := Type(|u|, x), [Retain(|u|)] + Type(k, y);
    UnfitWalks(|u|, k, x, y);
    RetainPrefix(u, v, Type(k, y));
    TypeApply(u, Apply(v, Type(k, y)), x);
    TypeApply(u, v, x);
    RetainPrefix(u, x + v, [Retain(|x|)] + Type(k, y));
    RetainPrefix(x, v, Type(k, y));
  }

  /** A text that ends before the first cursor. */
  lemma UnfitShort(d: string, m: nat, k: nat, x: string, y: string)
    requires m > |d|
    ensures
      var A, B, e := Type(m, x), [Retain(m)] + Type(k, y), Reach(d, m, y);
      && Apply(Apply(d, B), Walk(A, B)) == (d + y[..e]) + (x + y[e..])
      && Apply(Apply(d, A), Walk(B, A)) == (d + x) + y
  {
    var e, empty := Reach(d, m, y), Drop(d, m);
    UnfitWalks(m, k, x, y);
    AppendBoth(d, m, k, y, empty);
    CutBehind(d, y, e);
    TypeBehind(d + y[..e], y[e..], m, x);
    TypeAtEnd(d, m, x);
    AppendPast(d + x, m, |x|, k, y, empty);
  }

  lemma TakeDrop(t: string, n: nat)
    ensures Take(t, n) + Drop(t, n) == t
  {}

  lemma CutBehind(d: string, y: string, e: nat)
    requires e <= |y|
    ensures d + y == (d + y[..e]) + y[e..]
  {}

  lemma AppendBoth(d: string, m: nat, k: nat, y: string, empty: string)
    requires m >= |d| && |empty| == 0
    ensures Apply(d, [Retain(m)] + Type(k, y)) == d + y
  {
    RetainAll(d, m, Type(k, y), empty);
    TypeAtEnd(empty, k, y);
    assert empty + y == y;
  }

  lemma AppendPast(t: string, m: nat, n: nat, k: nat, y: string, empty: string)
    requires m + n >= |t| && |empty| == 0
    ensures Apply(t, [Retain(m)] + ([Retain(n)] + Type(k, y))) == t + y
  {
    ApplyHead(t, Retain(m), [Retain(n)] + Type(k, y));
    AppendBoth(Drop(t, m), n, k, y, empty);
    ConcatAssoc(Take(t, m), Drop(t, m), y);
    TakeDrop(t, m);
  }

  lemma SameUnfit(d: string, x: string, y: string, e: nat)
    requires e <= |y|
    ensures (d + y[..e]) + (x + y[e..]) == (d + x) + y <==> y[..e] + x == x + y[..e]
  {
    assert (d + y[..e]) + (x + y[e..]) == d + ((y[..e] + x) + y[e..]);
    assert (d + x) + y == d + ((x + y[..e]) + y[e..]);
    SamePrefix(d, (y[..e] + x) + y[e..], (x + y[..e]) + y[e..]);
    SplitEqual(y[..e] + x, x + y[..e], y[e..], y[e..]);
  }

  /** Two cursors `m` and `m + k`: aligned edits without a tie. If the first cursor
      is within the text, clamping the second is harmless. If it is not, both
      authors type at the end, and the transformed insert of `x` lands inside `y`:
      the copies agree exactly when `x` commutes with what it is carried across. */
  lemma UnfitExact(d: string, m: nat, k: nat, x: string, y: string)
    ensures
      var A, B, e := Type(m, x), [Retain(m)] + Type(k, y), Reach(d, m, y);
      && Aligned(A, B) && TiesCommute(A, B)
      && (Converge(d, A, B, Transform(A, B), Transform(B, A)) <==> y[..e] + x == x + y[..e])
  {
    var A, B, e := Type(m, x), [Retain(m)] + Type(k, y), Reach(d, m, y);
    UnfitWalks(m, k, x, y);
    if m <= |d| {
      assert d == d[..m] + d[m..] && y[..e] == "" && "" + x == x + "";
      UnfitBehind(d[..m], d[m..], k, x, y);
    } else {
      UnfitShort(d, m, k, x, y);
      SameUnfit(d, x, y, e);
    }
    FourTexts(d, A, B, Apply(d, A), Apply(d, B), Apply(Apply(d, A), Walk(B, A)), Apply(Apply(d, B), Walk(A, B)));
  }

  /** On the empty text clamping makes two distinct gaps one. */
  lemma UnfitDiverges()
    ensures
      var d, A, B := "", Type(1, "x"), [Retain(1)] + Type(1, "y");
      && Aligned(A, B) && TiesCommute(A, B) && !Fits(A, d)
      && !Converge(d, A, B, Transform(A, B), Transform(B, A))
  {
    UnfitExact("", 1, 1, "x", "y");
    assert "y"[..1] == "y" && ("y" + "x")[0] == 'y' && ("x" + "y")[0] == 'x';
  }
}
