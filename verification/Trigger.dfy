/** Running an exit: every destination fires, an exit among them runs in turn, and a bound
    on how deep that may go stands in for a ring that would never end. */
module Trigger {
  import opened Refs
  import opened ExitGraph
  import opened ExitLinks

  /** What firing an exit does, in order. */
  datatype Event =
    | Enter(exit: Ref, dest: Ref)
    | Bring(exit: Ref, dest: Ref)
    | Jump(exit: Ref, dest: Ref)
    | Metalink(exit: Ref, dest: Ref)
    | LoopAbort(exit: Ref, dest: Ref)
    | RunProgram(exit: Ref, program: Ref)

  /** What the player brings to it: their home, which things an exit boards, which players
      are somewhere, and which programs a guest is kept from. */
  datatype Who = Who(home: Ref, boards: (Ref, Ref) -> bool, placed: Ref -> bool, barred: (Ref, Ref) -> bool)

  function Resolve(w: World, who: Who, dest: Ref): Ref {
    if dest == HOME then who.home else dest
  }

  /** A destination that goes on to nothing: NIL, an absent object, or a thing as one's home. */
  predicate Skipped(w: World, who: Who, dest: Ref) {
    var d := Resolve(w, who, dest);
    d == NIL || d !in w || (dest == HOME && w[d].kind.Thing?)
  }

  /** A program that runs, which ends the exit: later destinations do not fire. */
  predicate Ends(w: World, who: Who, exit: Ref, dest: Ref) {
    && !Skipped(w, who, dest)
    && var d := Resolve(w, who, dest);
       w[d].kind.Program? && !who.barred(exit, d)
  }

  /** What one destination other than an exit does. */
  function Act(w: World, who: Who, exit: Ref, dest: Ref, pflag: bool): seq<Event> {
    if Skipped(w, who, dest) then []
    else
      var d := Resolve(w, who, dest);
      match w[d].kind
      case Room => if pflag then [Enter(exit, d)] else []
      case Thing => if !who.boards(exit, d) then [Bring(exit, d)] else if pflag then [Enter(exit, d)] else []
      case Player => if pflag && who.placed(d) then [Jump(exit, d)] else []
      case Program => if who.barred(exit, d) then [] else [RunProgram(exit, d)]
      case Exit => []
      case Garbage => []
  }

  predicate LeadsToExit(w: World, who: Who, dest: Ref) {
    !Skipped(w, who, dest) && IsExit(w, Resolve(w, who, dest))
  }

  function Fire(w: World, who: Who, exit: Ref, pflag: bool, depth: nat): seq<Event>
    requires depth <= MAX_METALINK_DEPTH
    decreases MAX_METALINK_DEPTH - depth, 1, 0
  {
    if exit in w then FireAll(w, who, exit, w[exit].dest, pflag, depth) else []
  }

  function FireAll(w: World, who: Who, exit: Ref, dests: seq<Ref>, pflag: bool, depth: nat): seq<Event>
    requires depth <= MAX_METALINK_DEPTH
    decreases MAX_METALINK_DEPTH - depth, 0, |dests|
  {
    if dests == [] then []
    else if LeadsToExit(w, who, dests[0]) then
      FireExit(w, who, exit, Resolve(w, who, dests[0]), depth) + FireAll(w, who, exit, dests[1..], pflag, depth)
    else if Ends(w, who, exit, dests[0]) then Act(w, who, exit, dests[0], pflag)
    else Act(w, who, exit, dests[0], pflag) + FireAll(w, who, exit, dests[1..], pflag, depth)
  }

  lemma FireAllStep(w: World, who: Who, exit: Ref, dests: seq<Ref>, pflag: bool, depth: nat)
    requires depth <= MAX_METALINK_DEPTH
    ensures FireAll(w, who, exit, dests, pflag, depth) ==
      if dests == [] then []
      else if LeadsToExit(w, who, dests[0]) then
        FireExit(w, who, exit, Resolve(w, who, dests[0]), depth) + FireAll(w, who, exit, dests[1..], pflag, depth)
      else if Ends(w, who, exit, dests[0]) then Act(w, who, exit, dests[0], pflag)
      else Act(w, who, exit, dests[0], pflag) + FireAll(w, who, exit, dests[1..], pflag, depth)
  {
    hide LeadsToExit, Ends, Act, FireExit;
  }

  lemma LogAppend(a: seq<Event>, b: seq<Event>, c: seq<Event>)
    ensures (a + b) + c == a + (b + c)
  {}

  /** A metalink: the other exit runs, or is refused when the chain is too deep. */
  function FireExit(w: World, who: Who, exit: Ref, d: Ref, depth: nat): seq<Event>
    requires depth <= MAX_METALINK_DEPTH
    decreases MAX_METALINK_DEPTH - depth, 0, 0
  {
    if depth >= MAX_METALINK_DEPTH then [LoopAbort(exit, d)]
    else [Metalink(exit, d)] + Fire(w, who, d, false, depth + 1)
  }

  /** The depth counter the server keeps while exits run inside exits. */
  class Session {
    var metaDepth: nat
    var log: seq<Event>

    /** trigger: always returns, and leaves the counter as it found it. */
    method TriggerExit(w: World, who: Who, exit: Ref, pflag: bool)
      requires metaDepth <= MAX_METALINK_DEPTH
      modifies this
      ensures metaDepth == old(metaDepth)
      ensures log == old(log) + Fire(w, who, exit, pflag, metaDepth)
      decreases MAX_METALINK_DEPTH - metaDepth
    {
      hide FireAll, FireExit, Act, Resolve, LeadsToExit, Ends;
      if exit !in w { return; }
      var dests := w[exit].dest;
      assert dests[0..] == dests;
      for k := 0 to |dests|
        invariant metaDepth == old(metaDepth)
        invariant log + FireAll(w, who, exit, dests[k..], pflag, metaDepth) ==
                  old(log) + Fire(w, who, exit, pflag, metaDepth)
      {
        ghost var before := log;
        var dest := dests[k];
        FireAllStep(w, who, exit, dests[k..], pflag, metaDepth);
        assert dests[k..][1..] == dests[k + 1..];
        ghost var rest := FireAll(w, who, exit, dests[k + 1..], pflag, metaDepth);
        if LeadsToExit(w, who, dest) {
          var d := Resolve(w, who, dest);
          RunMetalink(w, who, exit, d);
          LogAppend(before, FireExit(w, who, exit, d, metaDepth), rest);
        } else {
          log := log + Act(w, who, exit, dest, pflag);
          if Ends(w, who, exit, dest) { return; }
          LogAppend(before, Act(w, who, exit, dest, pflag), rest);
        }
      }
      assert dests[|dests|..] == [];
      FireAllStep(w, who, exit, [], pflag, metaDepth);
    }

    method RunMetalink(w: World, who: Who, exit: Ref, d: Ref)
      requires metaDepth <= MAX_METALINK_DEPTH
      modifies this
      ensures metaDepth == old(metaDepth)
      ensures log == old(log) + FireExit(w, who, exit, d, metaDepth)
      decreases MAX_METALINK_DEPTH - metaDepth, 0
    {
      if metaDepth >= MAX_METALINK_DEPTH {
        log := log + [LoopAbort(exit, d)];
        return;
      }
      log := log + [Metalink(exit, d)];
      metaDepth := metaDepth + 1;
      TriggerExit(w, who, d, false);
      metaDepth := metaDepth - 1;
    }
  }

  // ---------- When the bound is reached ----------

  /** d is an exit that a's k-th destination leads to, and nothing before it ends a. */
  predicate LiveAt(w: World, who: Who, a: Ref, dests: seq<Ref>, d: Ref, k: nat) {
    && k < |dests|
    && LeadsToExit(w, who, dests[k]) && Resolve(w, who, dests[k]) == d
    && forall j :: 0 <= j < k ==> !Ends(w, who, a, dests[j])
  }

  ghost predicate Live(w: World, who: Who, a: Ref, d: Ref) {
    a in w && exists k: nat :: LiveAt(w, who, a, w[a].dest, d, k)
  }

  /** A chain of n metalinks from e, every one of which fires. */
  ghost predicate Chain(w: World, who: Who, e: Ref, n: nat)
    decreases n
  {
    n == 0 || exists d :: Live(w, who, e, d) && Chain(w, who, d, n - 1)
  }

  predicate Aborts(log: seq<Event>) {
    exists i :: 0 <= i < |log| && log[i].LoopAbort?
  }

  lemma AbortsConcat(a: seq<Event>, b: seq<Event>)
    ensures Aborts(a + b) <==> Aborts(a) || Aborts(b)
  {
    assert forall i :: 0 <= i < |a| ==> (a + b)[i] == a[i];
    assert forall i :: 0 <= i < |b| ==> (a + b)[|a| + i] == b[i];
  }

  ghost predicate ChainThrough(w: World, who: Who, a: Ref, dests: seq<Ref>, n: nat) {
    exists k: nat, d: Ref :: LiveAt(w, who, a, dests, d, k) && Chain(w, who, d, n)
  }

  /** The chain starts at the first destination, or after it when that does not end the exit. */
  lemma ChainThroughSplits(w: World, who: Who, a: Ref, dests: seq<Ref>, n: nat)
    requires dests != []
    ensures ChainThrough(w, who, a, dests, n) <==>
      || (LeadsToExit(w, who, dests[0]) && Chain(w, who, Resolve(w, who, dests[0]), n))
      || (!Ends(w, who, a, dests[0]) && ChainThrough(w, who, a, dests[1..], n))
  {
    if ChainThrough(w, who, a, dests, n) {
      var k: nat, d: Ref :| LiveAt(w, who, a, dests, d, k) && Chain(w, who, d, n);
      if k > 0 { assert LiveAt(w, who, a, dests[1..], d, k - 1); }
    }
    if LeadsToExit(w, who, dests[0]) && Chain(w, who, Resolve(w, who, dests[0]), n) {
      assert LiveAt(w, who, a, dests, Resolve(w, who, dests[0]), 0);
    }
    if !Ends(w, who, a, dests[0]) && ChainThrough(w, who, a, dests[1..], n) {
      var k: nat, d: Ref :| LiveAt(w, who, a, dests[1..], d, k) && Chain(w, who, d, n);
      assert LiveAt(w, who, a, dests, d, k + 1);
    }
  }

  /** The message about a metalink loop is printed exactly when some chain of firing exits
      is longer than the bound leaves room for. */
  lemma {:induction false} AbortsIffLongChain(w: World, who: Who, exit: Ref, pflag: bool, depth: nat)
    requires depth <= MAX_METALINK_DEPTH
    ensures Aborts(Fire(w, who, exit, pflag, depth)) <==> Chain(w, who, exit, MAX_METALINK_DEPTH + 1 - depth)
    decreases MAX_METALINK_DEPTH - depth, 1, 0
  {
    if exit in w {
      var n := MAX_METALINK_DEPTH - depth;
      AbortsIffChainThrough(w, who, exit, w[exit].dest, pflag, depth);
      if Chain(w, who, exit, n + 1) {
        var d :| Live(w, who, exit, d) && Chain(w, who, d, n);
        var k: nat :| LiveAt(w, who, exit, w[exit].dest, d, k);
      }
      if ChainThrough(w, who, exit, w[exit].dest, n) {
        var k: nat, d: Ref :| LiveAt(w, who, exit, w[exit].dest, d, k) && Chain(w, who, d, n);
        assert Live(w, who, exit, d);
      }
    }
  }

  lemma {:induction false} AbortsIffChainThrough(w: World, who: Who, exit: Ref, dests: seq<Ref>, pflag: bool, depth: nat)
    requires depth <= MAX_METALINK_DEPTH
    ensures Aborts(FireAll(w, who, exit, dests, pflag, depth))
       <==> ChainThrough(w, who, exit, dests, MAX_METALINK_DEPTH - depth)
    decreases MAX_METALINK_DEPTH - depth, 0, |dests|
  {
    hide FireAll, Fire, FireExit, Act, Aborts, Chain, ChainThrough, Resolve;
    FireAllStep(w, who, exit, dests, pflag, depth);
    if dests == [] {
      NothingFires(w, who, exit, MAX_METALINK_DEPTH - depth);
    } else {
      var rest := FireAll(w, who, exit, dests[1..], pflag, depth);
      AbortsIffChainThrough(w, who, exit, dests[1..], pflag, depth);
      ChainThroughSplits(w, who, exit, dests, MAX_METALINK_DEPTH - depth);
      var d := Resolve(w, who, dests[0]);
      AbortsConcat(FireExit(w, who, exit, d, depth), rest);
      AbortsConcat(Act(w, who, exit, dests[0], pflag), rest);
      ActNeverAborts(w, who, exit, dests[0], pflag);
      LeadsOrEnds(w, who, exit, dests[0]);
      if LeadsToExit(w, who, dests[0]) {
        if depth < MAX_METALINK_DEPTH { AbortsIffLongChain(w, who, d, false, depth + 1); }
        MetalinkAborts(w, who, exit, d, depth);
      }
    }
  }

  lemma NothingFires(w: World, who: Who, a: Ref, n: nat)
    ensures !Aborts([]) && !ChainThrough(w, who, a, [], n)
  {}

  lemma ActNeverAborts(w: World, who: Who, exit: Ref, dest: Ref, pflag: bool)
    ensures !Aborts(Act(w, who, exit, dest, pflag))
  {}

  lemma LeadsOrEnds(w: World, who: Who, exit: Ref, dest: Ref)
    ensures LeadsToExit(w, who, dest) ==> !Ends(w, who, exit, dest)
  {}

  /** A metalink is refused at the bound, and below it comes to what the other exit does. */
  lemma MetalinkAborts(w: World, who: Who, exit: Ref, d: Ref, depth: nat)
    requires depth <= MAX_METALINK_DEPTH
    ensures Aborts(FireExit(w, who, exit, d, depth)) <==>
      depth == MAX_METALINK_DEPTH || Aborts(Fire(w, who, d, false, depth + 1))
    ensures Chain(w, who, d, 0)
  {
    hide Fire;
    if depth < MAX_METALINK_DEPTH {
      AbortsConcat([Metalink(exit, d)], Fire(w, who, d, false, depth + 1));
    } else {
      assert FireExit(w, who, exit, d, depth)[0].LoopAbort?;
    }
  }

  // ---------- In a world whose links were checked ----------

  ghost predicate ChainPath(w: World, who: Who, p: seq<Ref>) {
    forall i :: 0 <= i < |p| - 1 ==> Live(w, who, p[i], p[i + 1])
  }

  lemma {:induction false} ChainHasPath(w: World, who: Who, e: Ref, n: nat) returns (p: seq<Ref>)
    requires Chain(w, who, e, n)
    ensures |p| == n + 1 && p[0] == e && ChainPath(w, who, p)
    decreases n
  {
    p := [e];
    if n > 0 {
      var d :| Live(w, who, e, d) && Chain(w, who, d, n - 1);
      var rest := ChainHasPath(w, who, d, n - 1);
      p := [e] + rest;
      forall i | 0 <= i < |p| - 1 ensures Live(w, who, p[i], p[i + 1]) {
        if i > 0 { assert Live(w, who, rest[i - 1], rest[i]); }
      }
    }
  }

  /** A player's home is not an exit, so every live metalink is a link of the exit itself. */
  lemma LiveIsLink(w: World, who: Who, a: Ref, d: Ref)
    requires !IsExit(w, who.home) && IsExit(w, a) && Live(w, who, a, d)
    ensures Link(w, a, d) && IsExit(w, d)
  {}

  lemma {:induction false} PathReaches(w: World, who: Who, p: seq<Ref>, i: nat, j: nat)
    requires !IsExit(w, who.home) && ChainPath(w, who, p) && i < j < |p| && IsExit(w, p[i])
    ensures Reaches(w, p[i], p[j], j - i) && IsExit(w, p[j])
    decreases j - i
  {
    LiveIsLink(w, who, p[i], p[i + 1]);
    if i + 1 < j { PathReaches(w, who, p, i + 1, j); }
  }

  lemma PathDistinct(w: World, who: Who, p: seq<Ref>, i: nat, j: nat)
    requires RingFree(w) && !IsExit(w, who.home) && ChainPath(w, who, p)
    requires i < j < |p| <= RING_BOUND && IsExit(w, p[0])
    ensures p[i] != p[j]
  {
    hide ChainPath, Reaches;
    if i > 0 { PathReaches(w, who, p, 0, i); }
    PathReaches(w, who, p, i, j);
    if p[i] == p[j] { ReachesMore(w, p[i], p[i], j - i, RING_BOUND); }
  }

  /** Where every link was checked, the bound never stops a loop: whenever it stops a chain,
      that chain is made of ten different exits. */
  lemma AbortNeedsTenExits(w: World, who: Who, exit: Ref, pflag: bool) returns (p: seq<Ref>)
    requires RingFree(w) && IsExit(w, exit) && !IsExit(w, who.home)
    requires Aborts(Fire(w, who, exit, pflag, 0))
    ensures |p| == MAX_METALINK_DEPTH + 2 && p[0] == exit && ChainPath(w, who, p)
    ensures forall i, j :: 0 <= i < j < |p| ==> p[i] != p[j]
  {
    AbortsIffLongChain(w, who, exit, pflag, 0);
    hide Fire, Aborts, Live, Chain;
    p := ChainHasPath(w, who, exit, MAX_METALINK_DEPTH + 1);
    forall i, j | 0 <= i < j < |p| ensures p[i] != p[j] {
      PathDistinct(w, who, p, i, j);
    }
  }

  /** With no ring and fewer than ten exits there is no such chain: every exit fires in full. */
  lemma SmallWorldNeverAborts(w: World, who: Who, exit: Ref, pflag: bool, exits: set<Ref>)
    requires RingFree(w) && IsExit(w, exit) && !IsExit(w, who.home)
    requires |exits| < MAX_METALINK_DEPTH + 2
    requires forall e :: IsExit(w, e) ==> e in exits
    ensures !Aborts(Fire(w, who, exit, pflag, 0))
  {
    if Aborts(Fire(w, who, exit, pflag, 0)) {
      var p := AbortNeedsTenExits(w, who, exit, pflag);
      forall i | 0 <= i < |p| ensures p[i] in exits {
        if i > 0 { PathReaches(w, who, p, 0, i); }
      }
      DistinctFit(p, exits);
    }
  }
}
