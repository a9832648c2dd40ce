/** Text edits as lists of retain / insert / delete operations, and what the
    engine of the collaborative editor computes on them: the specification
    functions that the loops of `OTEngine` are proved against. */
module TextEdits {

  /** One operation. A retain or a delete carries a number of characters. */
  datatype Op = Retain(count: nat) | Insert(text: string) | Delete(count: nat)

  type Edit = seq<Op>

  function Min(a: nat, b: nat): nat {
    if a <= b then a else b
  }

  /** The first `n` characters; JavaScript's `slice` clamps at the end. */
  function Take(d: string, n: nat): string {
    d[..Min(n, |d|)]
  }

  /** Everything after the first `n` characters, clamped likewise. */
  function Drop(d: string, n: nat): string {
    d[Min(n, |d|)..]
  }

  /** The text that an edit turns `d` into. */
  function Apply(d: string, ops: Edit): string {
    if ops == [] then d else
      match ops[0]
      case Retain(n) => Take(d, n) + Apply(Drop(d, n), ops[1..])
      case Insert(s) => s + Apply(d, ops[1..])
      case Delete(n) => Apply(Drop(d, n), ops[1..])
  }

  /** The texts that a list of edits turns `d` into, one after the other. */
  function Replay(d: string, edits: seq<Edit>): string
    decreases |edits|
  {
    if edits == [] then d else Replay(Apply(d, edits[0]), edits[1..])
  }

  // ---- Sizes -------------------------------------------------------------

  /** Number of characters of the document that an edit walks over. */
  function Consumed(ops: Edit): nat {
    if ops == [] then 0
    else (if ops[0].Insert? then 0 else ops[0].count) + Consumed(ops[1..])
  }

  function Deleted(ops: Edit): nat {
    if ops == [] then 0
    else (if ops[0].Delete? then ops[0].count else 0) + Deleted(ops[1..])
  }

  function Inserted(ops: Edit): nat {
    if ops == [] then 0
    else (if ops[0].Insert? then |ops[0].text| else 0) + Inserted(ops[1..])
  }

  /** The strings an edit inserts, in order. */
  function Inserts(ops: Edit): seq<string> {
    if ops == [] then []
    else (if ops[0].Insert? then [ops[0].text] else []) + Inserts(ops[1..])
  }

  /** The edit does not walk past the end of `d`. */
  predicate Fits(ops: Edit, d: string) {
    Consumed(ops) <= |d|
  }

  /** No retain or delete of length zero. */
  predicate Positive(ops: Edit) {
    forall k :: 0 <= k < |ops| && !ops[k].Insert? ==> ops[k].count > 0
  }

  predicate PositiveDeletes(ops: Edit) {
    forall k :: 0 <= k < |ops| && ops[k].Delete? ==> ops[k].count > 0
  }

  /** An operation of the same kind on `n` characters. */
  function Resized(op: Op, n: nat): Op
    requires !op.Insert?
  {
    if op.Retain? then Retain(n) else Delete(n)
  }

  /** The edit cut down to the `n` characters there are. */
  function Clamped(ops: Edit, n: nat): Edit {
    if ops == [] then []
    else if ops[0].Insert? then [ops[0]] + Clamped(ops[1..], n)
    else
      var count := Min(ops[0].count, n);
      [Resized(ops[0], count)] + Clamped(ops[1..], n - count)
  }

  // ---- Compaction --------------------------------------------------------

  /** One round of the compaction loop: what happens to the result so far. */
  function Push(acc: Edit, op: Op): Edit {
    if op == Retain(0) then acc
    else if acc != [] && acc[|acc| - 1].Retain? && op.Retain? then
      acc[|acc| - 1 := Retain(acc[|acc| - 1].count + op.count)]
    else if acc != [] && acc[|acc| - 1].Delete? && op.Delete? then
      acc[|acc| - 1 := Delete(acc[|acc| - 1].count + op.count)]
    else acc + [op]
  }

  function CompactOnto(acc: Edit, ops: Edit): Edit
    decreases |ops|
  {
    if ops == [] then acc else CompactOnto(Push(acc, ops[0]), ops[1..])
  }

  function Compact(ops: Edit): Edit {
    CompactOnto([], ops)
  }

  // ---- Transformation ----------------------------------------------------

  /** What two non-inserts that meet contribute to the transformed edit. */
  function Meet(a: Op, b: Op): Edit
    requires !a.Insert? && !b.Insert?
  {
    if a.Retain? && b.Retain? then [Retain(Min(a.count, b.count))]
    else if a.Delete? && b.Retain? then [Delete(Min(a.count, b.count))]
    else []
  }

  /** The two-pointer walk. The pointer of the shorter operation advances, of
      both when they are equally long; the longer one is not shortened. */
  function Walk(A: Edit, B: Edit): Edit
    decreases |A| + |B|
  {
    if A == [] || B == [] then A
    else if A[0].Insert? then [A[0]] + Walk(A[1..], B)
    else if B[0].Insert? then [Retain(|B[0].text|)] + Walk(A, B[1..])
    else
      Meet(A[0], B[0]) +
      Walk(if A[0].count <= B[0].count then A[1..] else A,
           if B[0].count <= A[0].count then B[1..] else B)
  }

  function Transform(A: Edit, B: Edit): Edit {
    Compact(Walk(A, B))
  }

  /** `A` transformed against each of `Bs` in turn. */
  function Fold(A: Edit, Bs: seq<Edit>): Edit
    decreases |Bs|
  {
    if Bs == [] then A else Fold(Transform(A, Bs[0]), Bs[1..])
  }

  /** Whenever two non-inserts meet on the walk they have the same length. */
  predicate Aligned(A: Edit, B: Edit)
    decreases |A| + |B|
  {
    A == [] || B == [] ||
    if A[0].Insert? then Aligned(A[1..], B)
    else if B[0].Insert? then Aligned(A, B[1..])
    else A[0].count == B[0].count && Aligned(A[1..], B[1..])
  }

  /** The text of the inserts that an edit starts with. */
  function Run(A: Edit): string {
    if A == [] || !A[0].Insert? then "" else A[0].text + Run(A[1..])
  }

  function AfterRun(A: Edit): (r: Edit)
    ensures |r| <= |A|
    ensures A != [] && A[0].Insert? ==> |r| < |A|
  {
    if A == [] || !A[0].Insert? then A else AfterRun(A[1..])
  }

  /** Wherever both edits insert at the same point of the walk, it does not
      matter which text comes first. Holds outright when there is no tie. */
  predicate TiesCommute(A: Edit, B: Edit)
    decreases |A|
  {
    A == [] || B == [] ||
    var A', B' := AfterRun(A), AfterRun(B);
    && Run(A) + Run(B) == Run(B) + Run(A)
    && (A' == [] || B' == [] || TiesCommute(A'[1..], B'[1..]))
  }

  // ---- Cutting into units ------------------------------------------------

  function Copies(op: Op, n: nat): Edit {
    if n == 0 then [] else [op] + Copies(op, n - 1)
  }

  function CutOp(op: Op): Edit {
    match op
    case Retain(n) => Copies(Retain(1), n)
    case Insert(_) => [op]
    case Delete(n) => Copies(Delete(1), n)
  }

  /** The same edit with every retain and delete cut into single characters. */
  function Units(ops: Edit): Edit {
    if ops == [] then [] else CutOp(ops[0]) + Units(ops[1..])
  }

  // ---- Meaning of an edit, position by position --------------------------

  /** What the edit inserts in front of character `g` of the document (at its
      end when `g` is the length of the document). */
  function InsertedAt(ops: Edit, g: nat): string {
    if ops == [] then "" else
      match ops[0]
      case Insert(s) => (if g == 0 then s else "") + InsertedAt(ops[1..], g)
      case _ => if g < ops[0].count then "" else InsertedAt(ops[1..], g - ops[0].count)
  }

  /** The edit deletes character `p` of the document. */
  predicate DeletesAt(ops: Edit, p: nat) {
    ops != [] &&
    if ops[0].Insert? then DeletesAt(ops[1..], p)
    else if p < ops[0].count then ops[0].Delete?
    else DeletesAt(ops[1..], p - ops[0].count)
  }

  /** Both edits carried out on `d` at once, from character `g` on: in every gap
      the text of `A` and then that of `B`, and a character survives exactly
      when neither edit deletes it. Does not mention `Apply` or `Transform`. */
  function MergeFrom(d: string, A: Edit, B: Edit, g: nat): string
    requires g <= |d|
    decreases |d| - g
  {
    InsertedAt(A, g) + InsertedAt(B, g) +
    if g == |d| then ""
    else (if DeletesAt(A, g) || DeletesAt(B, g) then "" else [d[g]]) + MergeFrom(d, A, B, g + 1)
  }

  function Merge(d: string, A: Edit, B: Edit): string {
    MergeFrom(d, A, B, 0)
  }

  /** In gap `g` it does not matter which of the two insertions comes first. */
  predicate CommuteAt(A: Edit, B: Edit, g: nat) {
    InsertedAt(A, g) + InsertedAt(B, g) == InsertedAt(B, g) + InsertedAt(A, g)
  }

  /** So in every gap of a document of length `n`. */
  predicate GapsCommute(A: Edit, B: Edit, n: nat) {
    forall g: nat :: g <= n ==> CommuteAt(A, B, g)
  }
}
