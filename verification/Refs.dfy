/** Database references: indices into the object table, and the few that stand for none. */
module Refs {
  import opened Decimal

  /** A database reference is a signed 32-bit integer. */
  type Ref = n: int | -INT32_LIMIT <= n < INT32_LIMIT

  /** No object. */
  const NOTHING: Ref := -1
  /** A name that means more than one object. */
  const AMBIGUOUS: Ref := -2
  /** Wherever the mover's home is. */
  const HOME: Ref := -3
  /** A link that deliberately does nothing. */
  const NIL: Ref := -4
  /** The room everything else is in. */
  const GLOBAL: Ref := 0

  /** Narrowing a 64-bit number to a reference keeps its low 32 bits. */
  function ToRef(n: int): (r: Ref)
    ensures -INT32_LIMIT <= n < INT32_LIMIT ==> r == n
  {
    var m := n % (2 * INT32_LIMIT);
    if m < INT32_LIMIT then m else m - 2 * INT32_LIMIT
  }

  /** What an object is. */
  datatype Kind = Room | Thing | Exit | Player | Program | Garbage

  /** Distinct references from a set are no more than the set. */
  lemma {:induction false} DistinctFit(p: seq<Ref>, s: set<Ref>)
    requires forall i :: 0 <= i < |p| ==> p[i] in s
    requires forall i, j :: 0 <= i < j < |p| ==> p[i] != p[j]
    ensures |p| <= |s|
  {
    if p != [] { DistinctFit(p[1..], s - {p[0]}); }
  }
}
