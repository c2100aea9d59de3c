/** Walks up a chain of references: one step repeated, what stops it, and what it meets. */
module Walks {
  import opened Refs

  /** How far a loop check walks before it assumes a loop. */
  const MAX_PARENT_DEPTH: nat := 256

  type Step = Ref -> Ref

  /** k steps from r. */
  function Iter(f: Step, r: Ref, k: nat): Ref
    decreases k
  {
    if k == 0 then r else Iter(f, f(r), k - 1)
  }

  lemma {:induction false} IterJoins(f: Step, r: Ref, i: nat, j: nat)
    ensures Iter(f, Iter(f, r, i), j) == Iter(f, r, i + j)
    decreases i
  {
    if i > 0 { IterJoins(f, f(r), i - 1, j); }
  }

  lemma IterLast(f: Step, r: Ref, k: nat)
    ensures Iter(f, r, k + 1) == f(Iter(f, r, k))
  {
    IterJoins(f, r, k, 1);
  }

  /** A walk goes on past anything but NOTHING and the top. */
  predicate GoesOn(r: Ref) {
    r != NOTHING && r != GLOBAL
  }

  /** The first n steps from dest all go on. */
  ghost predicate LastsFor(f: Step, dest: Ref, n: nat) {
    forall j :: 1 <= j <= n ==> GoesOn(Iter(f, dest, j))
  }

  /** Some step within n comes to target, before anything stops the walk. */
  ghost predicate Meets(f: Step, dest: Ref, target: Ref, n: nat) {
    exists k :: 1 <= k <= n && Iter(f, dest, k) == target && LastsFor(f, dest, k)
  }

  /** What both loop checks decide: the walk from dest meets source or HOME, or is still
      going after the bound. */
  ghost predicate Loops(f: Step, source: Ref, dest: Ref) {
    || Meets(f, dest, source, MAX_PARENT_DEPTH)
    || Meets(f, dest, HOME, MAX_PARENT_DEPTH)
    || LastsFor(f, dest, MAX_PARENT_DEPTH)
  }

  /** A walk that comes back to where it has been never stops. */
  lemma {:induction false} RevisitLasts(f: Step, dest: Ref, i: nat, k: nat, n: nat)
    requires i < k && Iter(f, dest, i) == Iter(f, dest, k) && LastsFor(f, dest, k)
    ensures LastsFor(f, dest, n)
    decreases n
  {
    if n > k {
      RevisitLasts(f, dest, i, k, n - 1);
      IterJoins(f, dest, k, n - k);
      IterJoins(f, dest, i, n - k);
      assert Iter(f, dest, n) == Iter(f, dest, i + n - k);
      forall j | 1 <= j <= n ensures GoesOn(Iter(f, dest, j)) {
        if j == n { assert 1 <= i + n - k <= n - 1; }
      }
    }
  }

  /** The list of places seen is only a shortcut: finding one again decides the check. */
  lemma SeenAgain(f: Step, source: Ref, dest: Ref, seen: seq<Ref>, k: nat)
    requires 1 <= k <= MAX_PARENT_DEPTH && |seen| == k + 1
    requires seen[0] == source && forall i :: 0 <= i < k ==> seen[i + 1] == Iter(f, dest, i)
    requires LastsFor(f, dest, k) && Iter(f, dest, k) in seen
    ensures Loops(f, source, dest)
  {
    if Iter(f, dest, k) != source {
      var i :| 0 <= i < |seen| && seen[i] == Iter(f, dest, k);
      assert i >= 1 && seen[(i - 1) + 1] == Iter(f, dest, i - 1);
      RevisitLasts(f, dest, i - 1, k, MAX_PARENT_DEPTH);
    }
  }

  /** A walk that stops at step k, having met neither, decides the check the other way. */
  lemma StopsAt(f: Step, source: Ref, dest: Ref, k: nat)
    requires 1 <= k <= MAX_PARENT_DEPTH && !GoesOn(Iter(f, dest, k))
    requires forall i :: 1 <= i < k ==> Iter(f, dest, i) != source && Iter(f, dest, i) != HOME
    ensures !Loops(f, source, dest)
  {}

  /** One of two loop checks: the walk with its list of places seen. */
  method WalkCheck(f: Step, source: Ref, dest0: Ref) returns (loops: bool)
    ensures loops <==> Loops(f, source, dest0)
  {
    var dest := dest0;
    var seen := [source, dest];
    for level := 0 to MAX_PARENT_DEPTH
      invariant dest == Iter(f, dest0, level)
      invariant LastsFor(f, dest0, level)
      invariant |seen| == level + 2 && seen[0] == source
      invariant forall i :: 0 <= i <= level ==> seen[i + 1] == Iter(f, dest0, i)
      invariant forall i :: 1 <= i <= level ==> Iter(f, dest0, i) != source && Iter(f, dest0, i) != HOME
    {
      IterLast(f, dest0, level);
      dest := f(dest);
      if dest == NOTHING {
        StopsAt(f, source, dest0, level + 1);
        return false;
      }
      if dest == HOME {
        assert LastsFor(f, dest0, level + 1);
        return true;
      }
      if dest == GLOBAL {
        StopsAt(f, source, dest0, level + 1);
        return false;
      }
      assert LastsFor(f, dest0, level + 1);
      var again := Contains(seen, dest);
      if again {
        SeenAgain(f, source, dest0, seen, level + 1);
        return true;
      }
      seen := seen + [dest];
    }
    return true;
  }

  method Contains(s: seq<Ref>, r: Ref) returns (found: bool)
    ensures found <==> r in s
  {
    for k := 0 to |s|
      invariant r !in s[..k]
    {
      if s[k] == r { return true; }
    }
    return false;
  }
}
