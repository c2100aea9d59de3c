/** Giving an exit its destinations, and the commands that change where exits lead. */
module ExitLinks {
  import opened Text
  import opened Decimal
  import opened Refs
  import opened ExitGraph

  /** What a typed destination name turns out to be, if anything. */
  type Resolver = string -> Option<Ref>

  /** The next name of a destination argument, and the text after its delimiter. */
  function CutWord(text: string): (r: (string, string))
    requires text != ""
    ensures |r.1| < |text|
  {
    var rest := SkipSpaces(text);
    var i := IndexOf(rest, ';');
    if i < |rest| then (rest[..i], SkipSpaces(rest[i + 1..])) else (rest, "")
  }

  /** The ';'-separated names of a destination argument. */
  function LinkWords(text: string): seq<string>
    decreases |text|
  {
    if text == "" then [] else [CutWord(text).0] + LinkWords(CutWord(text).1)
  }

  function Targets(words: seq<string>, resolve: Resolver): (ts: seq<Option<Ref>>)
    ensures |ts| == |words|
  {
    seq(|words|, i requires 0 <= i < |words| => resolve(words[i]))
  }

  /** A destination an exit may have only one of. */
  predicate Single(w: World, r: Ref) {
    r in w && (w[r].kind.Player? || w[r].kind.Room? || w[r].kind.Program?)
  }

  /** What linking one resolved destination comes to. */
  datatype Outcome = Missing | Refused | Taken

  ghost function Judge(w: World, exit: Ref, dest: Ref, prdest: bool): Outcome {
    if dest == NIL || dest == HOME then Taken
    else if dest !in w then Missing
    else if Single(w, dest) && prdest then Refused
    else if w[dest].kind.Exit? && WouldLoop(w, exit, dest) then Refused
    else Taken
  }

  datatype Linking = Linking(dests: seq<Ref>, prdest: bool, failed: bool)

  /** One resolved name, and whether the list is full after it. A refused destination is
      skipped. The length limit is looked at only after a destination other than NIL. */
  ghost function LinkOne(w: World, exit: Ref, target: Option<Ref>, dryrun: bool, st: Linking): (Linking, bool) {
    if target.None? then (st, false)
    else
      var dest := target.value;
      match Judge(w, exit, dest, st.prdest)
      case Missing => (st, false)
      case Refused => (st.(failed := st.failed || dryrun), false)
      case Taken =>
        var dests := st.dests + [dest];
        var full := dest != NIL && |dests| >= MAX_EXIT_LINKS;
        var prdest := st.prdest || (dest != NIL && dest != HOME && Single(w, dest));
        (Linking(dests, prdest, st.failed || (full && dryrun)), full)
  }

  /** Destinations in order, until the list is full. */
  ghost function LinkAll(w: World, exit: Ref, targets: seq<Option<Ref>>, dryrun: bool, st: Linking): Linking
    decreases |targets|
  {
    if targets == [] then st
    else
      var (next, full) := LinkOne(w, exit, targets[0], dryrun, st);
      if full then next else LinkAll(w, exit, targets[1..], dryrun, next)
  }

  ghost function Linked(w: World, exit: Ref, destName: string, resolve: Resolver, dryrun: bool): Linking {
    LinkAll(w, exit, Targets(LinkWords(destName), resolve), dryrun, Linking([], false, false))
  }

  /** _link_exit: with dryrun, anything skipped makes the whole argument fail. */
  method LinkExitDests(w: World, exit: Ref, destName: string, resolve: Resolver, dryrun: bool)
    returns (dests: seq<Ref>, ok: bool)
    ensures
      var r := Linked(w, exit, destName, resolve, dryrun);
      if dryrun && r.failed then dests == [] && !ok else dests == r.dests && ok == (r.dests != [])
  {
    var st := Linking([], false, false);
    var rest, full := destName, false;
    ghost var result := Linked(w, exit, destName, resolve, dryrun);
    while rest != "" && !full
      invariant full ==> result == st
      invariant !full ==> (result == LinkAll(w, exit, Targets(LinkWords(rest), resolve), dryrun, st))
      decreases !full, |rest|
    {
      ghost var targets := Targets(LinkWords(rest), resolve);
      var (word, after) := CutWord(rest);
      rest := after;
      assert targets[1..] == Targets(LinkWords(rest), resolve);
      st, full := LinkTarget(w, exit, resolve(word), dryrun, st);
    }
    if dryrun && st.failed { return [], false; }
    return st.dests, |st.dests| > 0;
  }

  method LinkTarget(w: World, exit: Ref, target: Option<Ref>, dryrun: bool, st: Linking)
    returns (next: Linking, full: bool)
    ensures (next, full) == LinkOne(w, exit, target, dryrun, st)
  {
    next, full := st, false;
    if target.None? { return; }
    var dest := target.value;
    if dest == NIL {
      next := st.(dests := st.dests + [dest]);
      return;
    }
    if dest != HOME {
      if dest !in w { return; }
      if Single(w, dest) {
        if st.prdest {
          next := st.(failed := st.failed || dryrun);
          return;
        }
        next := st.(prdest := true);
      } else if w[dest].kind.Exit? {
        var loops := ExitLoopCheck(w, exit, dest);
        if loops {
          next := st.(failed := st.failed || dryrun);
          return;
        }
      }
    }
    next := next.(dests := st.dests + [dest]);
    if |next.dests| >= MAX_EXIT_LINKS {
      next, full := next.(failed := next.failed || dryrun), true;
    }
  }

  // ---------- What the list satisfies ----------

  /** References never name both an object and one of the special destinations. */
  predicate RealRefs(w: World) {
    NIL !in w && HOME !in w
  }

  /** Every exit in the list passed the loop check. */
  lemma {:induction false} LinkAllChecked(w: World, exit: Ref, targets: seq<Option<Ref>>, dryrun: bool, st: Linking)
    requires RealRefs(w) && Checked(w, exit, st.dests)
    ensures Checked(w, exit, LinkAll(w, exit, targets, dryrun, st).dests)
    decreases |targets|
  {
    if targets != [] {
      var (next, full) := LinkOne(w, exit, targets[0], dryrun, st);
      if !full { LinkAllChecked(w, exit, targets[1..], dryrun, next); }
    }
  }

  function CountSingle(w: World, dests: seq<Ref>): nat {
    if dests == [] then 0
    else CountSingle(w, dests[..|dests| - 1]) + if Single(w, dests[|dests| - 1]) then 1 else 0
  }

  function CountReal(dests: seq<Ref>): nat {
    if dests == [] then 0
    else CountReal(dests[..|dests| - 1]) + if dests[|dests| - 1] != NIL then 1 else 0
  }

  lemma {:induction false} CountRealBound(dests: seq<Ref>)
    ensures CountReal(dests) <= |dests|
  {
    if dests != [] { CountRealBound(dests[..|dests| - 1]); }
  }

  predicate WithinLimits(w: World, st: Linking) {
    CountSingle(w, st.dests) <= (if st.prdest then 1 else 0) && CountReal(st.dests) < MAX_EXIT_LINKS
  }

  lemma LinkOneBounded(w: World, exit: Ref, target: Option<Ref>, dryrun: bool, st: Linking)
    requires RealRefs(w) && WithinLimits(w, st)
    ensures
      var (next, full) := LinkOne(w, exit, target, dryrun, st);
      && CountSingle(w, next.dests) <= (if next.prdest then 1 else 0)
      && CountReal(next.dests) <= MAX_EXIT_LINKS
      && (!full ==> WithinLimits(w, next))
  {
    var next := LinkOne(w, exit, target, dryrun, st).0;
    if next.dests != st.dests {
      assert next.dests[..|next.dests| - 1] == st.dests;
      CountRealBound(next.dests);
    }
  }

  /** At most one player, room or program, and at most fifty destinations besides NIL. */
  lemma {:induction false} LinkAllBounded(w: World, exit: Ref, targets: seq<Option<Ref>>, dryrun: bool, st: Linking)
    requires RealRefs(w) && WithinLimits(w, st)
    ensures
      var r := LinkAll(w, exit, targets, dryrun, st);
      CountSingle(w, r.dests) <= 1 && CountReal(r.dests) <= MAX_EXIT_LINKS
    decreases |targets|
  {
    if targets != [] {
      var (next, full) := LinkOne(w, exit, targets[0], dryrun, st);
      LinkOneBounded(w, exit, targets[0], dryrun, st);
      if !full { LinkAllBounded(w, exit, targets[1..], dryrun, next); }
    }
  }

  /** What would be taken if the length were never looked at. */
  ghost function Unstopped(w: World, exit: Ref, targets: seq<Option<Ref>>, st: Linking): Linking
    decreases |targets|
  {
    if targets == [] then st
    else Unstopped(w, exit, targets[1..], LinkOne(w, exit, targets[0], false, st).0)
  }

  /** How many of a list are kept, when the length is first looked at after n of them: the
      first that is no NIL and makes the list fifty or longer is the last. */
  function StopAt(dests: seq<Ref>, n: nat): (m: nat)
    requires n <= |dests|
    ensures n <= m <= |dests|
    decreases |dests| - n
  {
    if n == |dests| then n
    else if n + 1 >= MAX_EXIT_LINKS && dests[n] != NIL then n + 1
    else StopAt(dests, n + 1)
  }

  /** The list taken is the unstopped list up to where it is stopped. */
  lemma {:induction false} LinkAllStops(w: World, exit: Ref, targets: seq<Option<Ref>>, st: Linking)
    ensures
      var acc := Unstopped(w, exit, targets, st).dests;
      && st.dests <= acc
      && LinkAll(w, exit, targets, false, st).dests == acc[..StopAt(acc, |st.dests|)]
    decreases |targets|
  {
    hide Judge;
    if targets != [] {
      var (next, full) := LinkOne(w, exit, targets[0], false, st);
      LinkAllStops(w, exit, targets[1..], next);
      if next.dests != st.dests {
        assert next.dests == st.dests + [next.dests[|st.dests|]];
      }
    }
  }

  /** Up to the last place before the limit nothing is stopped. */
  lemma {:induction false} NotStoppedYet(dests: seq<Ref>, n: nat)
    requires n < MAX_EXIT_LINKS && n <= |dests|
    ensures StopAt(dests, 0) == StopAt(dests, n)
  {
    if n > 0 { NotStoppedYet(dests, n - 1); }
  }

  /** Fifty-one NILs are all linked: after a NIL the length is never looked at. */
  lemma NilIsUnlimited(w: World, exit: Ref)
    ensures
      var targets := seq(MAX_EXIT_LINKS + 1, _ => Some(NIL));
      |LinkAll(w, exit, targets, false, Linking([], false, false)).dests| == MAX_EXIT_LINKS + 1
  {
    NilsAllTaken(w, exit, MAX_EXIT_LINKS + 1, Linking([], false, false));
  }

  lemma {:induction false} NilsAllTaken(w: World, exit: Ref, n: nat, st: Linking)
    ensures |LinkAll(w, exit, seq(n, _ => Some(NIL)), false, st).dests| == |st.dests| + n
    decreases n
  {
    if n > 0 {
      var targets := seq(n, _ => Some(NIL));
      assert targets[1..] == seq(n - 1, _ => Some(NIL));
      NilsAllTaken(w, exit, n - 1, LinkOne(w, exit, targets[0], false, st).0);
    }
  }

  /** The destinations a list of targets names, when none is refused. */
  function Named(w: World, targets: seq<Option<Ref>>): seq<Ref> {
    if targets == [] then []
    else NamedBy(w, targets[0]) + Named(w, targets[1..])
  }

  function NamedBy(w: World, t: Option<Ref>): seq<Ref> {
    if t.Some? && (t.value == NIL || t.value == HOME || t.value in w) then [t.value] else []
  }

  /** One destination, tried and taken. */
  lemma DryStep(w: World, exit: Ref, t: Option<Ref>, st: Linking)
    requires !st.failed
    ensures
      var (dry, dryFull) := LinkOne(w, exit, t, true, st);
      var (wet, wetFull) := LinkOne(w, exit, t, false, st);
      && dryFull == wetFull && wet == dry.(failed := false)
      && (dryFull ==> dry.failed)
      && (!dry.failed ==> wet.dests == st.dests + NamedBy(w, t))
  {
    hide WouldLoop, Single;
  }

  /** What @relink relies on: the dry run takes the very list the real run takes, and when it
      does not fail, that list leaves nothing out. */
  lemma {:induction false} DryRunPredicts(w: World, exit: Ref, targets: seq<Option<Ref>>, st: Linking)
    requires !st.failed
    ensures
      var dry, wet := LinkAll(w, exit, targets, true, st), LinkAll(w, exit, targets, false, st);
      && dry.dests == wet.dests
      && !wet.failed
      && (!dry.failed ==> wet.dests == st.dests + Named(w, targets))
    decreases |targets|
  {
    hide LinkOne, NamedBy;
    if targets != [] {
      DryStep(w, exit, targets[0], st);
      var (dry, full) := LinkOne(w, exit, targets[0], true, st);
      var wet := LinkOne(w, exit, targets[0], false, st).0;
      if !full {
        DryRunPredicts(w, exit, targets[1..], wet);
        if dry.failed { DryRunFailed(w, exit, targets[1..], dry); }
      }
    }
  }

  /** Once something was refused the dry run stays failed, and still follows the same list. */
  lemma {:induction false} DryRunFailed(w: World, exit: Ref, targets: seq<Option<Ref>>, st: Linking)
    requires st.failed
    ensures
      var dry := LinkAll(w, exit, targets, true, st);
      dry.failed && dry.dests == LinkAll(w, exit, targets, false, st.(failed := false)).dests
    decreases |targets|
  {
    if targets != [] {
      var (dry, full) := LinkOne(w, exit, targets[0], true, st);
      if !full { DryRunFailed(w, exit, targets[1..], dry); }
    }
  }

  // ---------- Commands ----------

  datatype Command =
    | LinkTo(exit: Ref, destName: string, resolve: Resolver, controls: bool, pays: bool)
    | Open(made: Ref, destName: string, resolve: Resolver)
    | Unlink(exit: Ref)
    | Recycle(r: Ref)
    | Create(made: Ref, kind: Kind)

  /** The objects and where their exits lead. */
  class ExitWorld {
    var objs: World

    /** @link on an exit. An exit that leads somewhere other than NIL is not relinked. */
    method LinkExit(exit: Ref, destName: string, resolve: Resolver, controls: bool, pays: bool)
      requires IsExit(objs, exit)
      modifies this
      ensures objs == LinkStep(old(objs), exit, destName, resolve, controls, pays)
    {
      var o := objs[exit];
      if |o.dest| != 0 {
        if !controls || o.dest[0] != NIL { return; }
      }
      if !pays || destName == "" { return; }
      var dests, _ := LinkExitDests(objs, exit, destName, resolve, false);
      if |dests| == 0 { return; }
      objs := objs[exit := o.(dest := dests)];
    }

    /** @open: the exit exists first, and is linked afterwards if its name resolves. */
    method OpenExit(made: Ref, destName: string, resolve: Resolver)
      requires !Valid(objs, made)
      modifies this
      ensures objs == OpenStep(old(objs), made, destName, resolve)
    {
      objs := objs[made := Object(Exit, [])];
      if destName != "" {
        var dests, _ := LinkExitDests(objs, made, destName, resolve, false);
        if |dests| > 0 { objs := objs[made := Object(Exit, dests)]; }
      }
    }

    method UnlinkExit(exit: Ref)
      requires IsExit(objs, exit)
      modifies this
      ensures objs == Relink(old(objs), exit, [])
    {
      objs := objs[exit := objs[exit].(dest := [])];
    }
  }

  ghost function LinkStep(w: World, exit: Ref, destName: string, resolve: Resolver, controls: bool, pays: bool): World
    requires IsExit(w, exit)
  {
    var dests := Linked(w, exit, destName, resolve, false).dests;
    if (w[exit].dest != [] && !(controls && w[exit].dest[0] == NIL)) || !pays || dests == [] then w
    else Relink(w, exit, dests)
  }

  ghost function OpenStep(w: World, made: Ref, destName: string, resolve: Resolver): World {
    var w1 := w[made := Object(Exit, [])];
    var dests := Linked(w1, made, destName, resolve, false).dests;
    if dests == [] then w1 else w1[made := Object(Exit, dests)]
  }

  /** One command on the world; those that do not apply change nothing. */
  ghost function Do(w: World, c: Command): World {
    match c
    case LinkTo(exit, destName, resolve, controls, pays) =>
      if IsExit(w, exit) then LinkStep(w, exit, destName, resolve, controls, pays) else w
    case Open(made, destName, resolve) =>
      if Valid(w, made) || made < 0 then w else OpenStep(w, made, destName, resolve)
    case Unlink(exit) => if IsExit(w, exit) then Relink(w, exit, []) else w
    case Recycle(r) => if r in w then w[r := Object(Garbage, [])] else w
    case Create(made, kind) => if Valid(w, made) || made < 0 then w else w[made := Object(kind, [])]
  }

  ghost function RunAll(w: World, cs: seq<Command>): World {
    if cs == [] then w else Do(RunAll(w, cs[..|cs| - 1]), cs[|cs| - 1])
  }

  /** Each list that linking accepts is safe. */
  lemma LinkedIsChecked(w: World, exit: Ref, destName: string, resolve: Resolver)
    requires RealRefs(w)
    ensures Checked(w, exit, Linked(w, exit, destName, resolve, false).dests)
  {
    LinkAllChecked(w, exit, Targets(LinkWords(destName), resolve), false, Linking([], false, false));
  }

  /** A new object leads nowhere, so it is on no ring, even when old links name it. */
  lemma {:induction false} NewObjectOnNoPath(w: World, made: Ref, kind: Kind, a: Ref, b: Ref, n: nat)
    requires !Valid(w, made) && b != made
    requires Reaches(w[made := Object(kind, [])], a, b, n)
    ensures Reaches(w, a, b, n)
    decreases n
  {
    var w' := w[made := Object(kind, [])];
    var c :| Link(w', a, c) && (c == b || Reaches(w', c, b, n - 1));
    if c != b {
      NewObjectOnNoPath(w, made, kind, c, b, n - 1);
      var d :| Link(w, c, d);
    }
    assert Link(w, a, c);
  }

  lemma NewObjectKeepsRingFree(w: World, made: Ref, kind: Kind)
    requires !Valid(w, made) && RingFree(w)
    ensures RingFree(w[made := Object(kind, [])])
  {
    var w' := w[made := Object(kind, [])];
    forall e ensures !Reaches(w', e, e, RING_BOUND) {
      if Reaches(w', e, e, RING_BOUND) {
        var c :| Link(w', e, c);
        NewObjectOnNoPath(w, made, kind, e, e, RING_BOUND);
      }
    }
  }

  lemma FewerLinksKeepRingFree(w: World, w': World)
    requires RingFree(w)
    requires forall x, y :: Link(w', x, y) ==> Link(w, x, y)
    ensures RingFree(w')
  {
    forall e ensures !Reaches(w', e, e, RING_BOUND) {
      if Reaches(w', e, e, RING_BOUND) { FewerLinksFewerPaths(w, w', e, e, RING_BOUND); }
    }
  }

  lemma DoKeepsRingFree(w: World, c: Command)
    requires RealRefs(w) && RingFree(w)
    ensures RealRefs(Do(w, c)) && RingFree(Do(w, c))
  {
    match c
    case LinkTo(exit, destName, resolve, controls, pays) =>
      if IsExit(w, exit) {
        LinkedIsChecked(w, exit, destName, resolve);
        CheckedLinkKeepsRingFree(w, exit, Linked(w, exit, destName, resolve, false).dests);
      }
    case Open(made, destName, resolve) =>
      if !Valid(w, made) && made >= 0 {
        var w1 := w[made := Object(Exit, [])];
        NewObjectKeepsRingFree(w, made, Exit);
        LinkedIsChecked(w1, made, destName, resolve);
        CheckedLinkKeepsRingFree(w1, made, Linked(w1, made, destName, resolve, false).dests);
      }
    case Unlink(exit) =>
      if IsExit(w, exit) { FewerLinksKeepRingFree(w, Relink(w, exit, [])); }
    case Recycle(r) =>
      if r in w { FewerLinksKeepRingFree(w, w[r := Object(Garbage, [])]); }
    case Create(made, kind) =>
      if !Valid(w, made) && made >= 0 { NewObjectKeepsRingFree(w, made, kind); }
  }

  /** No sequence of commands ever builds a ring of ten or fewer exits. */
  lemma {:induction false} RunsKeepRingFree(w: World, cs: seq<Command>)
    requires RealRefs(w) && RingFree(w)
    ensures RealRefs(RunAll(w, cs)) && RingFree(RunAll(w, cs))
  {
    if cs != [] {
      RunsKeepRingFree(w, cs[..|cs| - 1]);
      DoKeepsRingFree(RunAll(w, cs[..|cs| - 1]), cs[|cs| - 1]);
    }
  }
}
