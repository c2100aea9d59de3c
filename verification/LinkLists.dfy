/** Which of the destinations that an argument names an exit is given: all of them in order,
    but for exits that would close a ring, and every player, room or program after the first. */
module LinkLists {
  import opened Text
  import opened Decimal
  import opened Refs
  import opened ExitGraph
  import opened ExitLinks

  predicate Real(w: World, d: Ref) {
    d != NIL && d != HOME && d in w
  }

  /** A player, a room or a program. */
  predicate Solitary(w: World, d: Ref) {
    Real(w, d) && w[d].kind in {Player, Room, Program}
  }

  /** An exit that is the one being linked, or leads back to it in nine links or fewer. */
  ghost predicate ClosesRing(w: World, exit: Ref, d: Ref) {
    Real(w, d) && w[d].kind == Exit && (d == exit || Reaches(w, d, exit, 9))
  }

  ghost predicate LeftOut(w: World, exit: Ref, ds: seq<Ref>, i: nat)
    requires i < |ds|
  {
    || ClosesRing(w, exit, ds[i])
    || (Solitary(w, ds[i]) && exists j :: 0 <= j < i && Solitary(w, ds[j]))
  }

  /** The destinations in order, less those that are left out. */
  ghost function Less(w: World, exit: Ref, ds: seq<Ref>): (r: seq<Ref>)
    ensures |r| <= |ds|
  {
    if ds == [] then []
    else Less(w, exit, ds[..|ds| - 1]) + if LeftOut(w, exit, ds, |ds| - 1) then [] else [ds[|ds| - 1]]
  }

  predicate HasSolitary(w: World, ds: seq<Ref>) {
    exists j :: 0 <= j < |ds| && Solitary(w, ds[j])
  }

  const START := Linking([], false, false)

  // ---------- One target at a time ----------

  lemma {:induction false} UnstoppedSnoc(w: World, exit: Ref, targets: seq<Option<Ref>>, t: Option<Ref>, st: Linking)
    ensures Unstopped(w, exit, targets + [t], st) == LinkOne(w, exit, t, false, Unstopped(w, exit, targets, st)).0
    decreases |targets|
  {
    hide LinkOne;
    if targets == [] {
      assert ([] + [t])[1..] == [];
    } else {
      assert (targets + [t])[1..] == targets[1..] + [t];
      UnstoppedSnoc(w, exit, targets[1..], t, LinkOne(w, exit, targets[0], false, st).0);
    }
  }

  lemma {:induction false} NamedSnoc(w: World, targets: seq<Option<Ref>>, t: Option<Ref>)
    ensures Named(w, targets + [t]) == Named(w, targets) + NamedBy(w, t)
  {
    hide NamedBy;
    if targets == [] {
      assert ([] + [t])[1..] == [];
      assert NamedBy(w, t) + [] == NamedBy(w, t) == [] + NamedBy(w, t);
    } else {
      assert (targets + [t])[1..] == targets[1..] + [t];
      NamedSnoc(w, targets[1..], t);
      assert NamedBy(w, targets[0]) + (Named(w, targets[1..]) + NamedBy(w, t))
          == NamedBy(w, targets[0]) + Named(w, targets[1..]) + NamedBy(w, t);
    }
  }

  lemma LessSnoc(w: World, exit: Ref, ds: seq<Ref>, d: Ref)
    ensures Less(w, exit, ds + [d]) ==
      Less(w, exit, ds) + if ClosesRing(w, exit, d) || (Solitary(w, d) && HasSolitary(w, ds)) then [] else [d]
    ensures HasSolitary(w, ds + [d]) <==> HasSolitary(w, ds) || Solitary(w, d)
  {
    hide ClosesRing, Solitary;
    var all := ds + [d];
    assert all[..|all| - 1] == ds && all[|ds|] == d;
    assert forall j :: 0 <= j < |ds| ==> all[j] == ds[j];
  }

  /** What one target does, when something named has been linked before or not. */
  lemma OneTaken(w: World, exit: Ref, t: Option<Ref>, st: Linking)
    requires !st.failed
    ensures
      var next := LinkOne(w, exit, t, false, st).0;
      && !next.failed
      && (NamedBy(w, t) == [] ==> next == st)
      && (NamedBy(w, t) != [] ==>
          && t.Some? && NamedBy(w, t) == [t.value]
          && next.dests == st.dests + (if ClosesRing(w, exit, t.value) || (Solitary(w, t.value) && st.prdest) then [] else [t.value])
          && (next.prdest <==> st.prdest || Solitary(w, t.value)))
  {
    hide Reaches;
  }

  /** Without the limit on length, the list is the named destinations less those left out. */
  lemma {:induction false} UnstoppedIsLess(w: World, exit: Ref, targets: seq<Option<Ref>>)
    ensures
      var r := Unstopped(w, exit, targets, START);
      && !r.failed
      && r.dests == Less(w, exit, Named(w, targets))
      && (r.prdest <==> HasSolitary(w, Named(w, targets)))
  {
    hide LinkOne, Named, NamedBy, ClosesRing, Solitary, Less, HasSolitary;
    if targets == [] {
      NothingNamed(w, exit);
    } else {
      var init, t := targets[..|targets| - 1], targets[|targets| - 1];
      assert targets == init + [t];
      UnstoppedIsLess(w, exit, init);
      UnstoppedSnoc(w, exit, init, t, START);
      NamedSnoc(w, init, t);
      OneTaken(w, exit, t, Unstopped(w, exit, init, START));
      if NamedBy(w, t) == [] {
        assert Named(w, init) + [] == Named(w, init);
      } else {
        LessSnoc(w, exit, Named(w, init), t.value);
      }
    }
  }

  lemma NothingNamed(w: World, exit: Ref)
    ensures Named(w, []) == [] && Less(w, exit, []) == [] && !HasSolitary(w, [])
  {}

  // ---------- The list ----------

  /** The list an exit is given: everything named, in order, less what is left out, as far as
      the limit on length lets it go. */
  lemma TakenList(w: World, exit: Ref, targets: seq<Option<Ref>>)
    ensures
      var kept := Less(w, exit, Named(w, targets));
      LinkAll(w, exit, targets, false, START).dests == kept[..StopAt(kept, 0)]
  {
    hide LinkAll, Unstopped, Less, StopAt;
    UnstoppedIsLess(w, exit, targets);
    LinkAllStops(w, exit, targets, START);
  }

  /** The limit of fifty is passed exactly when more than fifty would be taken and the
      fiftieth is NIL: the length is never looked at after a NIL. */
  lemma PassesLimitIffFiftiethIsNil(w: World, exit: Ref, targets: seq<Option<Ref>>)
    ensures
      var kept := Less(w, exit, Named(w, targets));
      |LinkAll(w, exit, targets, false, START).dests| > MAX_EXIT_LINKS
      <==> |kept| > MAX_EXIT_LINKS && kept[MAX_EXIT_LINKS - 1] == NIL
  {
    hide LinkAll, Less;
    var kept := Less(w, exit, Named(w, targets));
    TakenList(w, exit, targets);
    if |kept| >= MAX_EXIT_LINKS { NotStoppedYet(kept, MAX_EXIT_LINKS - 1); }
  }

  /** Somewhere from the fiftieth place on stands something other than NIL. */
  predicate Fills(kept: seq<Ref>) {
    exists i :: MAX_EXIT_LINKS - 1 <= i < |kept| && kept[i] != NIL
  }

  /** The same, from the n-th place on. */
  predicate FillsFrom(kept: seq<Ref>, n: nat) {
    exists i :: n <= i < |kept| && i >= MAX_EXIT_LINKS - 1 && kept[i] != NIL
  }

  /** One target of a dry run: it fails when something named is not taken, or fills the list. */
  lemma OneTried(w: World, exit: Ref, t: Option<Ref>, st: Linking)
    requires !st.failed
    ensures
      var (dry, full) := LinkOne(w, exit, t, true, st);
      var wet := LinkOne(w, exit, t, false, st).0;
      && full == LinkOne(w, exit, t, false, st).1
      && wet == dry.(failed := false)
      && st.dests <= wet.dests && |wet.dests| <= |st.dests| + |NamedBy(w, t)| <= |st.dests| + 1
      && (full <==> |wet.dests| > |st.dests| && wet.dests[|st.dests|] != NIL && |wet.dests| >= MAX_EXIT_LINKS)
      && (dry.failed <==> full || |wet.dests| < |st.dests| + |NamedBy(w, t)|)
  {
    hide WouldLoop, Single;
  }

  lemma {:induction false} UnstoppedGrows(w: World, exit: Ref, targets: seq<Option<Ref>>, st: Linking)
    requires !st.failed
    ensures st.dests <= Unstopped(w, exit, targets, st).dests
    ensures |Unstopped(w, exit, targets, st).dests| <= |st.dests| + |Named(w, targets)|
    decreases |targets|
  {
    hide LinkOne, NamedBy;
    if targets != [] {
      OneTried(w, exit, targets[0], st);
      UnstoppedGrows(w, exit, targets[1..], LinkOne(w, exit, targets[0], false, st).0);
    }
  }

  lemma {:induction false} DryFails(w: World, exit: Ref, targets: seq<Option<Ref>>, st: Linking)
    requires !st.failed
    ensures
      var acc := Unstopped(w, exit, targets, st).dests;
      LinkAll(w, exit, targets, true, st).failed <==>
        |acc| < |st.dests| + |Named(w, targets)| || FillsFrom(acc, |st.dests|)
    decreases |targets|
  {
    hide LinkOne, NamedBy, FillsFrom;
    if targets == [] {
      NothingFills(st.dests);
    } else {
      var t, rest := targets[0], targets[1..];
      var (dry, full) := LinkOne(w, exit, t, true, st);
      var wet := LinkOne(w, exit, t, false, st).0;
      OneTried(w, exit, t, st);
      UnstoppedGrows(w, exit, rest, wet);
      FillsNext(Unstopped(w, exit, rest, wet).dests, |st.dests|, |wet.dests|, wet.dests);
      if !full {
        if dry.failed { DryRunFailed(w, exit, rest, dry); } else { DryFails(w, exit, rest, wet); }
      }
    }
  }

  lemma NothingFills(acc: seq<Ref>)
    ensures !FillsFrom(acc, |acc|)
  {}

  /** One place further on. */
  lemma FillsNext(acc: seq<Ref>, n: nat, m: nat, part: seq<Ref>)
    requires part <= acc && |part| == m && n <= m <= n + 1
    ensures FillsFrom(acc, n) <==> FillsFrom(acc, m) || (m > n && part[n] != NIL && m >= MAX_EXIT_LINKS)
  {
    if m > n {
      assert part[n] == acc[n];
      if part[n] != NIL && m >= MAX_EXIT_LINKS { assert n >= MAX_EXIT_LINKS - 1; }
    }
  }

  /** What @relink asks first: the dry run fails exactly when something named would be left
      out or the list would be stopped for its length. */
  lemma DryRunFailsIff(w: World, exit: Ref, targets: seq<Option<Ref>>)
    ensures
      var named := Named(w, targets);
      var kept := Less(w, exit, named);
      LinkAll(w, exit, targets, true, START).failed <==> kept != named || Fills(kept)
  {
    hide LinkAll, Unstopped, Less, Named, Fills, FillsFrom;
    UnstoppedIsLess(w, exit, targets);
    DryFails(w, exit, targets, START);
    LessIsShorter(w, exit, Named(w, targets));
    FillsFromStart(Less(w, exit, Named(w, targets)));
  }

  lemma {:induction false} LessIsShorter(w: World, exit: Ref, ds: seq<Ref>)
    ensures |Less(w, exit, ds)| == |ds| ==> Less(w, exit, ds) == ds
  {
    hide LeftOut;
    if ds != [] {
      LessIsShorter(w, exit, ds[..|ds| - 1]);
      assert ds == ds[..|ds| - 1] + [ds[|ds| - 1]];
    }
  }

  lemma FillsFromStart(kept: seq<Ref>)
    ensures Fills(kept) <==> FillsFrom(kept, 0)
  {}

  // ---------- The names ----------

  predicate LinkName(s: string) {
    ';' !in s && (s == "" || !IsSpace(s[0]))
  }

  /** Names joined by ';' are cut into those names, but for an empty one at the end. */
  lemma {:induction false} WordsOfNames(names: seq<string>)
    requires names != [] && (forall k :: 0 <= k < |names| ==> LinkName(names[k])) && names[|names| - 1] != ""
    ensures LinkWords(Join(names, ';')) == names
    decreases |names|
  {
    hide Join, LinkWords;
    var first, rest := names[0], names[1..];
    assert names == [first] + rest;
    if rest == [] {
      assert names == [first];
      JoinOne(first, ';');
      CutLast(first);
    } else {
      WordsOfNames(rest);
      JoinStep(first, rest, ';');
      JoinedStart(rest);
      CutFirst(first, Join(rest, ';'));
    }
  }

  lemma JoinedStart(names: seq<string>)
    requires names != [] && LinkName(names[0])
    ensures SkipSpaces(Join(names, ';')) == Join(names, ';')
  {}

  lemma CutLast(name: string)
    requires LinkName(name) && name != ""
    ensures LinkWords(name) == [name]
  {
    hide SkipSpaces;
    IndexOfAbsent(name, ';');
    NoLeadingSpace(name);
    assert LinkWords("") == [];
  }

  lemma NoLeadingSpace(s: string)
    requires s == "" || !IsSpace(s[0])
    ensures SkipSpaces(s) == s
  {}

  lemma CutFirst(name: string, more: string)
    requires LinkName(name)
    ensures LinkWords(name + [';'] + more) == [name] + LinkWords(SkipSpaces(more))
  {
    hide SkipSpaces, IndexOf;
    var text := name + [';'] + more;
    NoLeadingSpace(text);
    CutExact(name, ';', more);
  }

  // ---------- The commands ----------

  /** The list that an argument comes to. */
  ghost function ListOf(w: World, exit: Ref, text: string, resolve: Resolver): seq<Ref> {
    var kept := Less(w, exit, Named(w, Targets(LinkWords(text), resolve)));
    kept[..StopAt(kept, 0)]
  }

  lemma LinkedIsList(w: World, exit: Ref, text: string, resolve: Resolver)
    ensures Linked(w, exit, text, resolve, false).dests == ListOf(w, exit, text, resolve)
  {
    TakenList(w, exit, Targets(LinkWords(text), resolve));
  }

  /** An exit that leads nowhere, or only to NIL under an owner who controls it, is given the
      list, if that holds anything and is paid for; any other is left alone. */
  lemma LinkLeads(w: World, exit: Ref, text: string, resolve: Resolver, controls: bool, pays: bool)
    requires IsExit(w, exit)
    ensures
      var list := ListOf(w, exit, text, resolve);
      Do(w, LinkTo(exit, text, resolve, controls, pays)) ==
        if pays && list != [] && (w[exit].dest == [] || (controls && w[exit].dest[0] == NIL))
        then w[exit := Object(Exit, list)] else w
  {
    hide LinkWords, Less, Named;
    LinkedIsList(w, exit, text, resolve);
  }

  /** Unlinking and then linking gives the exit the list, wherever it led before. */
  lemma UnlinkThenLink(w: World, exit: Ref, text: string, resolve: Resolver, controls: bool)
    requires IsExit(w, exit)
    ensures
      var free := w[exit := Object(Exit, [])];
      var list := ListOf(free, exit, text, resolve);
      RunAll(w, [Unlink(exit), LinkTo(exit, text, resolve, controls, true)]) ==
        if list != [] then w[exit := Object(Exit, list)] else free
  {
    hide LinkStep, ListOf;
    var cs := [Unlink(exit), LinkTo(exit, text, resolve, controls, true)];
    var free := w[exit := Object(Exit, [])];
    assert cs[..1] == [Unlink(exit)] && cs[..1][..0] == [];
    assert RunAll(w, [Unlink(exit)]) == free;
    LinkLeads(free, exit, text, resolve, controls, true);
    assert RunAll(w, cs) == Do(free, LinkTo(exit, text, resolve, controls, true));
  }

  /** A new exit, under a number that is free or was recycled, leads where its argument says,
      itself among the exits that close a ring. */
  lemma OpenLeads(w: World, made: Ref, text: string, resolve: Resolver)
    requires (made !in w || w[made].kind == Garbage) && made >= 0
    ensures Do(w, Open(made, text, resolve)) ==
      w[made := Object(Exit, ListOf(w[made := Object(Exit, [])], made, text, resolve))]
  {
    hide LinkWords, Less, Named;
    LinkedIsList(w[made := Object(Exit, [])], made, text, resolve);
  }
}
