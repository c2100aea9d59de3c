/** Exits that lead to other exits: the check made when one is linked, and why no sequence
    of links can close a short ring. */
module ExitGraph {
  import opened Refs

  /** How many exits one exit may chain through. */
  const MAX_METALINK_DEPTH: nat := 8

  /** How many destinations one exit may have. */
  const MAX_EXIT_LINKS: nat := 50

  /** The part of an object that linking looks at: its type and where it leads. */
  datatype Object = Object(kind: Kind, dest: seq<Ref>)

  type World = map<Ref, Object>

  predicate Valid(w: World, r: Ref) {
    r in w && !w[r].kind.Garbage?
  }

  predicate IsExit(w: World, r: Ref) {
    r in w && w[r].kind.Exit?
  }

  // ---------- Paths through exits ----------

  /** One link: an exit, and a live object it leads to. */
  predicate Link(w: World, a: Ref, b: Ref) {
    IsExit(w, a) && b in w[a].dest && Valid(w, b)
  }

  /** Some path of one to n links leads from a to b. */
  ghost predicate Reaches(w: World, a: Ref, b: Ref, n: nat)
    decreases n
  {
    n > 0 && exists c :: Link(w, a, c) && (c == b || Reaches(w, c, b, n - 1))
  }

  /** The same, with the path written out. */
  ghost predicate Path(w: World, p: seq<Ref>) {
    |p| >= 2 && forall i :: 0 <= i < |p| - 1 ==> Link(w, p[i], p[i + 1])
  }

  ghost predicate PathWithin(w: World, a: Ref, b: Ref, n: nat) {
    exists p :: Path(w, p) && p[0] == a && p[|p| - 1] == b && |p| - 1 <= n
  }

  lemma {:induction false} ReachesIsPath(w: World, a: Ref, b: Ref, n: nat)
    ensures Reaches(w, a, b, n) <==> PathWithin(w, a, b, n)
    decreases n
  {
    if Reaches(w, a, b, n) {
      var c :| Link(w, a, c) && (c == b || Reaches(w, c, b, n - 1));
      if c == b {
        assert Path(w, [a, b]);
      } else {
        ReachesIsPath(w, c, b, n - 1);
        var p :| Path(w, p) && p[0] == c && p[|p| - 1] == b && |p| - 1 <= n - 1;
        assert Path(w, [a] + p);
      }
    }
    if PathWithin(w, a, b, n) {
      var p :| Path(w, p) && p[0] == a && p[|p| - 1] == b && |p| - 1 <= n;
      assert Link(w, p[0], p[1]);
      if |p| > 2 {
        assert Path(w, p[1..]);
        assert p[1..][|p| - 2] == b;
        assert PathWithin(w, p[1], b, n - 1);
        ReachesIsPath(w, p[1], b, n - 1);
      }
    }
  }

  lemma {:induction false} ReachesMore(w: World, a: Ref, b: Ref, m: nat, n: nat)
    requires Reaches(w, a, b, m) && m <= n
    ensures Reaches(w, a, b, n)
    decreases n
  {
    var c :| Link(w, a, c) && (c == b || Reaches(w, c, b, m - 1));
    if c != b { ReachesMore(w, c, b, m - 1, n - 1); }
  }

  lemma {:induction false} ReachesJoins(w: World, a: Ref, b: Ref, c: Ref, m: nat, n: nat)
    requires Reaches(w, a, b, m) && Reaches(w, b, c, n)
    ensures Reaches(w, a, c, m + n)
    decreases m
  {
    var d :| Link(w, a, d) && (d == b || Reaches(w, d, b, m - 1));
    if d == b {
      ReachesMore(w, b, c, n, m + n - 1);
    } else {
      ReachesJoins(w, d, b, c, m - 1, n);
    }
  }

  // ---------- The check ----------

  /** exit_loop_check: whether linking source to dest would make a ring of exits. */
  method ExitLoopCheck(w: World, source: Ref, dest: Ref) returns (loops: bool)
    ensures loops <==> WouldLoop(w, source, dest)
  {
    loops := ExitLoopFrom(w, source, dest, 0);
  }

  ghost predicate WouldLoop(w: World, source: Ref, dest: Ref) {
    source == dest || Reaches(w, dest, source, MAX_METALINK_DEPTH + 1)
  }

  method ExitLoopFrom(w: World, source: Ref, dest: Ref, depth: nat) returns (loops: bool)
    requires depth <= MAX_METALINK_DEPTH + 1
    ensures loops <==> source == dest || Reaches(w, dest, source, MAX_METALINK_DEPTH + 1 - depth)
    decreases MAX_METALINK_DEPTH + 1 - depth
  {
    if source == dest { return true; }
    if dest !in w || !w[dest].kind.Exit? || depth > MAX_METALINK_DEPTH { return false; }
    var dests := w[dest].dest;
    for k := 0 to |dests|
      invariant forall j :: 0 <= j < k && Valid(w, dests[j]) ==>
        dests[j] != source && !Reaches(w, dests[j], source, MAX_METALINK_DEPTH - depth)
    {
      var cur := dests[k];
      if !Valid(w, cur) { continue; }
      if cur == source {
        assert Link(w, dest, cur);
        return true;
      }
      if w[cur].kind.Exit? {
        var deeper := ExitLoopFrom(w, source, cur, depth + 1);
        if deeper {
          assert Link(w, dest, cur);
          return true;
        }
      }
    }
    return false;
  }

  // ---------- Rings ----------

  /** How long a ring the link check can see: the new link and the nine it walks. */
  const RING_BOUND: nat := MAX_METALINK_DEPTH + 2

  ghost predicate RingFree(w: World) {
    forall e :: !Reaches(w, e, e, RING_BOUND)
  }

  /** The world after an exit is given a new list of destinations. */
  function Relink(w: World, exit: Ref, dests: seq<Ref>): World
    requires exit in w
  {
    w[exit := w[exit].(dest := dests)]
  }

  /** Every exit among the new destinations passed the check against exit. */
  ghost predicate Checked(w: World, exit: Ref, dests: seq<Ref>) {
    forall d :: d in dests && IsExit(w, d) ==> !WouldLoop(w, exit, d)
  }

  /** Up to its first visit of the relinked exit, a new path is an old one. */
  lemma {:induction false} OldUntilExit(w: World, exit: Ref, dests: seq<Ref>, a: Ref, n: nat)
    requires exit in w && a != exit
    requires Reaches(Relink(w, exit, dests), a, exit, n)
    ensures Reaches(w, a, exit, n)
    decreases n
  {
    var w' := Relink(w, exit, dests);
    var c :| Link(w', a, c) && (c == exit || Reaches(w', c, exit, n - 1));
    assert Link(w, a, c);
    if c != exit { OldUntilExit(w, exit, dests, c, n - 1); }
  }

  /** A new path is an old one, or goes through the relinked exit. */
  lemma {:induction false} OldOrThroughExit(w: World, exit: Ref, dests: seq<Ref>, a: Ref, b: Ref, n: nat)
    returns (k: nat)
    requires exit in w && Reaches(Relink(w, exit, dests), a, b, n)
    ensures
      var w' := Relink(w, exit, dests);
      || Reaches(w, a, b, n)
      || (k < n && (if k == 0 then a == exit else Reaches(w', a, exit, k)) && Reaches(w', exit, b, n - k))
    decreases n
  {
    var w' := Relink(w, exit, dests);
    k := 0;
    if a != exit {
      var c :| Link(w', a, c) && (c == b || Reaches(w', c, b, n - 1));
      assert Link(w, a, c);
      if c != b {
        var j := OldOrThroughExit(w, exit, dests, c, b, n - 1);
        if !Reaches(w, c, b, n - 1) {
          k := j + 1;
          assert Reaches(w', a, exit, k);
        }
      }
    }
  }

  /** A ring that the new destinations close goes through one that fails the check. */
  lemma NewRingWasChecked(w: World, exit: Ref, dests: seq<Ref>, e: Ref)
    requires RingFree(w) && IsExit(w, exit)
    requires Reaches(Relink(w, exit, dests), e, e, RING_BOUND)
    ensures !Checked(w, exit, dests)
  {
    var w' := Relink(w, exit, dests);
    var k := OldOrThroughExit(w, exit, dests, e, e, RING_BOUND);
    assert !Reaches(w, e, e, RING_BOUND);
    if k > 0 { ReachesJoins(w', exit, e, exit, RING_BOUND - k, k); }
    var d :| Link(w', exit, d) && (d == exit || Reaches(w', d, exit, RING_BOUND - 1));
    if d != exit { OldUntilExit(w, exit, dests, d, RING_BOUND - 1); }
    assert d in dests && IsExit(w, d) && WouldLoop(w, exit, d);
  }

  /** Destinations that passed the check close no ring. */
  lemma CheckedLinkKeepsRingFree(w: World, exit: Ref, dests: seq<Ref>)
    requires RingFree(w) && IsExit(w, exit) && Checked(w, exit, dests)
    ensures RingFree(Relink(w, exit, dests))
  {
    forall e ensures !Reaches(Relink(w, exit, dests), e, e, RING_BOUND) {
      if Reaches(Relink(w, exit, dests), e, e, RING_BOUND) {
        NewRingWasChecked(w, exit, dests, e);
      }
    }
  }

  /** Removing links, or objects, makes no path. */
  lemma {:induction false} FewerLinksFewerPaths(w: World, w': World, a: Ref, b: Ref, n: nat)
    requires forall x, y :: Link(w', x, y) ==> Link(w, x, y)
    requires Reaches(w', a, b, n)
    ensures Reaches(w, a, b, n)
    decreases n
  {
    var c :| Link(w', a, c) && (c == b || Reaches(w', c, b, n - 1));
    if c != b { FewerLinksFewerPaths(w, w', c, b, n - 1); }
  }
}
