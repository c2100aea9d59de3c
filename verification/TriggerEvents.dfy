/** What happens when an exit is used: exactly what the destinations of the exits it comes to
    call for, each by its kind, and in their order. */
module TriggerEvents {
  import opened Refs
  import opened ExitGraph
  import opened ExitLinks
  import opened Trigger

  // ---------- What one destination calls for ----------

  function Goal(who: Who, dest: Ref): Ref {
    if dest == HOME then who.home else dest
  }

  /** A destination that comes to an object. A home that is a thing is no destination. */
  predicate There(w: World, who: Who, dest: Ref) {
    Goal(who, dest) != NIL && Goal(who, dest) in w && (dest == HOME ==> w[who.home].kind != Thing)
  }

  /** A program runs there, and nothing after it. */
  predicate Stops(w: World, who: Who, x: Ref, dest: Ref) {
    There(w, who, dest) && w[Goal(who, dest)].kind == Program && !who.barred(x, Goal(who, dest))
  }

  /** What happens at a destination of x: a room is entered and a player jumped to only by the
      exit that was used itself; a thing is boarded, by that exit alone, or brought; a program
      runs unless the player is barred from it. */
  predicate Happens(w: World, who: Who, x: Ref, dest: Ref, used: bool, e: Event) {
    && There(w, who, dest)
    && e.exit == x
    && var d := Goal(who, dest);
       match e
       case Enter(_, at) => at == d && used && (w[d].kind == Room || (w[d].kind == Thing && who.boards(x, d)))
       case Bring(_, what) => what == d && w[d].kind == Thing && !who.boards(x, d)
       case Jump(_, whom) => whom == d && used && w[d].kind == Player && who.placed(d)
       case RunProgram(_, program) => program == d && Stops(w, who, x, dest)
       case _ => false
  }

  /** It happens at one of the destinations, and no program ran before it. */
  ghost predicate HappensIn(w: World, who: Who, x: Ref, dests: seq<Ref>, used: bool, e: Event) {
    exists k: nat :: HappensAt(w, who, x, dests, used, e, k)
  }

  predicate HappensAt(w: World, who: Who, x: Ref, dests: seq<Ref>, used: bool, e: Event, k: nat) {
    k < |dests| && Happens(w, who, x, dests[k], used, e) && forall j :: 0 <= j < k ==> !Stops(w, who, x, dests[j])
  }

  /** x goes on to another exit. */
  predicate LeadsAt(w: World, who: Who, x: Ref, dests: seq<Ref>, d: Ref, k: nat) {
    && k < |dests| && There(w, who, dests[k]) && Goal(who, dests[k]) == d && w[d].kind == Exit
    && forall j :: 0 <= j < k ==> !Stops(w, who, x, dests[j])
  }

  ghost predicate Leads(w: World, who: Who, x: Ref, d: Ref) {
    x in w && exists k: nat :: LeadsAt(w, who, x, w[x].dest, d, k)
  }

  predicate Plain(e: Event) {
    !e.Metalink? && !e.LoopAbort?
  }

  lemma ActIs(w: World, who: Who, x: Ref, dest: Ref, used: bool, e: Event)
    requires Plain(e)
    ensures e in Act(w, who, x, dest, used) <==> Happens(w, who, x, dest, used, e)
    ensures Ends(w, who, x, dest) <==> Stops(w, who, x, dest)
    ensures LeadsToExit(w, who, dest) <==> There(w, who, dest) && w[Goal(who, dest)].kind == Exit
    ensures Resolve(w, who, dest) == Goal(who, dest)
    ensures LeadsToExit(w, who, dest) ==> !Happens(w, who, x, dest, used, e) && !Stops(w, who, x, dest)
  {}

  // ---------- Everything an exit comes to ----------

  /** It happens at x, or at an exit that x comes to by n metalinks or fewer. */
  ghost predicate Within(w: World, who: Who, x: Ref, used: bool, n: nat, e: Event)
    decreases n
  {
    || (x in w && HappensIn(w, who, x, w[x].dest, used, e))
    || (n > 0 && exists d :: Leads(w, who, x, d) && Within(w, who, d, false, n - 1, e))
  }

  ghost predicate Through(w: World, who: Who, x: Ref, dests: seq<Ref>, n: nat, e: Event) {
    n > 0 && exists k: nat, d: Ref :: LeadsAt(w, who, x, dests, d, k) && Within(w, who, d, false, n - 1, e)
  }

  lemma HappensInSplits(w: World, who: Who, x: Ref, dests: seq<Ref>, used: bool, e: Event)
    requires dests != []
    ensures HappensIn(w, who, x, dests, used, e) <==>
      || Happens(w, who, x, dests[0], used, e)
      || (!Stops(w, who, x, dests[0]) && HappensIn(w, who, x, dests[1..], used, e))
  {
    hide Happens, Stops;
    if HappensIn(w, who, x, dests, used, e) {
      var k: nat :| HappensAt(w, who, x, dests, used, e, k);
      if k > 0 { assert HappensAt(w, who, x, dests[1..], used, e, k - 1); }
    }
    if Happens(w, who, x, dests[0], used, e) { assert HappensAt(w, who, x, dests, used, e, 0); }
    if !Stops(w, who, x, dests[0]) && HappensIn(w, who, x, dests[1..], used, e) {
      var k: nat :| HappensAt(w, who, x, dests[1..], used, e, k);
      assert HappensAt(w, who, x, dests, used, e, k + 1);
    }
  }

  lemma ThroughSplits(w: World, who: Who, x: Ref, dests: seq<Ref>, n: nat, e: Event)
    requires dests != [] && n > 0
    ensures Through(w, who, x, dests, n, e) <==>
      || (There(w, who, dests[0]) && w[Goal(who, dests[0])].kind == Exit && Within(w, who, Goal(who, dests[0]), false, n - 1, e))
      || (!Stops(w, who, x, dests[0]) && Through(w, who, x, dests[1..], n, e))
  {
    hide Stops, Within;
    if Through(w, who, x, dests, n, e) {
      var k: nat, d: Ref :| LeadsAt(w, who, x, dests, d, k) && Within(w, who, d, false, n - 1, e);
      if k > 0 { assert LeadsAt(w, who, x, dests[1..], d, k - 1); }
    }
    if There(w, who, dests[0]) && w[Goal(who, dests[0])].kind == Exit && Within(w, who, Goal(who, dests[0]), false, n - 1, e) {
      assert LeadsAt(w, who, x, dests, Goal(who, dests[0]), 0);
    }
    if !Stops(w, who, x, dests[0]) && Through(w, who, x, dests[1..], n, e) {
      var k: nat, d: Ref :| LeadsAt(w, who, x, dests[1..], d, k) && Within(w, who, d, false, n - 1, e);
      assert LeadsAt(w, who, x, dests, d, k + 1);
    }
  }

  lemma {:induction false} InFire(w: World, who: Who, x: Ref, used: bool, depth: nat, e: Event)
    requires depth <= MAX_METALINK_DEPTH && Plain(e)
    ensures e in Fire(w, who, x, used, depth) <==> Within(w, who, x, used, MAX_METALINK_DEPTH - depth, e)
    decreases MAX_METALINK_DEPTH - depth, 1, 0
  {
    hide FireAll, HappensIn, LeadsAt;
    var n := MAX_METALINK_DEPTH - depth;
    if x in w {
      InFireAll(w, who, x, w[x].dest, used, depth, e);
      if n > 0 {
        if d :| Leads(w, who, x, d) && Within(w, who, d, false, n - 1, e) {
          var k: nat :| LeadsAt(w, who, x, w[x].dest, d, k);
        }
        if Through(w, who, x, w[x].dest, n, e) {
          var k: nat, d: Ref :| LeadsAt(w, who, x, w[x].dest, d, k) && Within(w, who, d, false, n - 1, e);
          assert Leads(w, who, x, d);
        }
      }
    }
  }

  lemma {:induction false} InFireAll(w: World, who: Who, x: Ref, dests: seq<Ref>, used: bool, depth: nat, e: Event)
    requires depth <= MAX_METALINK_DEPTH && Plain(e)
    ensures e in FireAll(w, who, x, dests, used, depth) <==>
      HappensIn(w, who, x, dests, used, e) || Through(w, who, x, dests, MAX_METALINK_DEPTH - depth, e)
    decreases MAX_METALINK_DEPTH - depth, 0, |dests|
  {
    hide FireAll, FireExit, Act, Ends, LeadsToExit, Resolve, HappensIn, Happens, Stops, There, Through, Within, LeadsAt, Goal;
    var n := MAX_METALINK_DEPTH - depth;
    FireAllStep(w, who, x, dests, used, depth);
    if dests == [] {
      NothingHappens(w, who, x, used, n, e);
    } else {
      var d := Goal(who, dests[0]);
      InFireAll(w, who, x, dests[1..], used, depth, e);
      ActIs(w, who, x, dests[0], used, e);
      HappensInSplits(w, who, x, dests, used, e);
      if n > 0 { ThroughSplits(w, who, x, dests, n, e); } else { NoDeeper(w, who, x, e); }
      if LeadsToExit(w, who, dests[0]) {
        if n > 0 { InFire(w, who, d, false, depth + 1, e); }
        InFireExit(w, who, x, d, depth, e);
      }
    }
  }

  lemma NothingHappens(w: World, who: Who, x: Ref, used: bool, n: nat, e: Event)
    ensures !HappensIn(w, who, x, [], used, e) && !Through(w, who, x, [], n, e)
  {}

  lemma NoDeeper(w: World, who: Who, x: Ref, e: Event)
    ensures forall dests :: !Through(w, who, x, dests, 0, e)
  {}

  lemma InFireExit(w: World, who: Who, x: Ref, d: Ref, depth: nat, e: Event)
    requires depth <= MAX_METALINK_DEPTH && Plain(e)
    ensures e in FireExit(w, who, x, d, depth) <==>
      depth < MAX_METALINK_DEPTH && e in Fire(w, who, d, false, depth + 1)
  {
    hide Fire;
  }

  // ---------- Along paths ----------

  ghost predicate LeadsPath(w: World, who: Who, p: seq<Ref>) {
    forall i :: 0 <= i < |p| - 1 ==> Leads(w, who, p[i], p[i + 1])
  }

  /** The path goes from x by n metalinks or fewer to an exit where it happens. */
  ghost predicate Along(w: World, who: Who, x: Ref, used: bool, n: nat, e: Event, p: seq<Ref>) {
    && 1 <= |p| <= n + 1 && p[0] == x && LeadsPath(w, who, p)
    && var y := p[|p| - 1];
       y in w && HappensIn(w, who, y, w[y].dest, used && |p| == 1, e)
  }

  lemma {:induction false} WithinHasPath(w: World, who: Who, x: Ref, used: bool, n: nat, e: Event) returns (p: seq<Ref>)
    requires Within(w, who, x, used, n, e)
    ensures Along(w, who, x, used, n, e, p)
    decreases n
  {
    hide HappensIn, Leads;
    p := [x];
    if !(x in w && HappensIn(w, who, x, w[x].dest, used, e)) {
      var d :| Leads(w, who, x, d) && Within(w, who, d, false, n - 1, e);
      var rest := WithinHasPath(w, who, d, false, n - 1, e);
      p := [x] + rest;
      assert forall i :: 0 < i < |p| ==> p[i] == rest[i - 1];
    }
  }

  lemma {:induction false} PathIsWithin(w: World, who: Who, x: Ref, used: bool, n: nat, e: Event, p: seq<Ref>)
    requires Along(w, who, x, used, n, e, p)
    ensures Within(w, who, x, used, n, e)
    decreases n
  {
    hide HappensIn, Leads;
    if |p| > 1 {
      var rest := p[1..];
      assert forall i :: 0 <= i < |rest| ==> rest[i] == p[i + 1];
      assert Leads(w, who, p[0], p[1]);
      PathIsWithin(w, who, p[1], false, n - 1, e, rest);
    }
  }

  /** Using an exit: something happens if and only if it is what a destination calls for, of
      that exit or of one that it comes to by eight metalinks or fewer, with no program before
      it in any list on the way. Nothing is entered and nobody jumped to but by the exit that
      was used. */
  lemma HappensIffCalledFor(w: World, who: Who, x: Ref, e: Event)
    requires Plain(e)
    ensures e in Fire(w, who, x, true, 0) <==> exists p :: Along(w, who, x, true, 8, e, p)
  {
    hide Fire, Within, Along;
    InFire(w, who, x, true, 0, e);
    if Within(w, who, x, true, 8, e) {
      var p := WithinHasPath(w, who, x, true, 8, e);
    }
    if p :| Along(w, who, x, true, 8, e, p) {
      PathIsWithin(w, who, x, true, 8, e, p);
    }
  }

  // ---------- In their order ----------

  /** What an earlier destination does comes before what a later one does, and a program is the
      last thing an exit does. */
  lemma {:induction false} InOrder(w: World, who: Who, x: Ref, a: seq<Ref>, b: seq<Ref>, used: bool, depth: nat)
    requires depth <= MAX_METALINK_DEPTH
    ensures FireAll(w, who, x, a + b, used, depth) ==
      FireAll(w, who, x, a, used, depth) +
      if exists k :: 0 <= k < |a| && Stops(w, who, x, a[k]) then [] else FireAll(w, who, x, b, used, depth)
    decreases |a|
  {
    hide FireAll, FireExit, Act, Ends, LeadsToExit, Resolve, Stops, There;
    FireAllStep(w, who, x, a, used, depth);
    if a == [] {
      assert a + b == b;
    } else {
      FireAllStep(w, who, x, a + b, used, depth);
      assert (a + b)[1..] == a[1..] + b && (a + b)[0] == a[0];
      ActIs(w, who, x, a[0], used, Enter(x, x));
      InOrder(w, who, x, a[1..], b, used, depth);
      StopsSplits(w, who, x, a);
      var rest := FireAll(w, who, x, a[1..], used, depth);
      var after := if exists k :: 0 <= k < |a[1..]| && Stops(w, who, x, a[1..][k]) then [] else FireAll(w, who, x, b, used, depth);
      LogAppend(FireExit(w, who, x, Resolve(w, who, a[0]), depth), rest, after);
      LogAppend(Act(w, who, x, a[0], used), rest, after);
      LeadsOrEnds(w, who, x, a[0]);
    }
  }

  lemma StopsSplits(w: World, who: Who, x: Ref, a: seq<Ref>)
    requires a != []
    ensures (exists k :: 0 <= k < |a| && Stops(w, who, x, a[k])) <==>
      Stops(w, who, x, a[0]) || exists k :: 0 <= k < |a[1..]| && Stops(w, who, x, a[1..][k])
  {
    hide Stops;
    if k :| 0 < k < |a| && Stops(w, who, x, a[k]) { assert a[1..][k - 1] == a[k]; }
    if k :| 0 <= k < |a[1..]| && Stops(w, who, x, a[1..][k]) { assert a[k + 1] == a[1..][k]; }
  }
}
