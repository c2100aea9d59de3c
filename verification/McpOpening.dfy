/** How a connection comes to speak MCP: what the client's opening line does, and that nothing
    else turns it on. */
module McpOpening {
  import opened Text
  import opened Decimal
  import opened McpLex
  import opened McpMessage
  import opened McpFrame
  import opened McpSend
  import opened McpReassembly

  // ---------- The opening line ----------

  /** Pairs as they stand on a line, one after the other. */
  function PairsText(ps: seq<Pair>): string {
    if ps == [] then "" else PairText(ps[0], PairsText(ps[1..]))
  }

  function ArgsOf(ps: seq<Pair>): (args: seq<Arg>)
    ensures |args| == |ps| && forall i :: 0 <= i < |ps| ==> args[i] == Arg(ps[i].key, [ps[i].value])
  {
    seq(|ps|, i requires 0 <= i < |ps| => Arg(ps[i].key, [ps[i].value]))
  }

  /** Pairs that a line can carry whole: identifiers, each used once, no value put off. */
  predicate WirePairs(ps: seq<Pair>) {
    && (forall i :: 0 <= i < |ps| ==> IsIdent(ps[i].key) && !ps[i].deferred)
    && (forall i, j :: 0 <= i < j < |ps| ==> !EqualFold(ps[i].key, ps[j].key))
  }

  /** They are read as the arguments they spell. */
  lemma {:induction false} PairsReadBack(ps: seq<Pair>, k: nat)
    requires WirePairs(ps) && k <= |ps|
    ensures ReadArgs(ArgsOf(ps[..k]), false, PairsText(ps[k..])) == Some((ArgsOf(ps), false))
    decreases |ps| - k
  {
    hide ReadPair, WithPair, EscapeArg, EqualFold, IsIdent, PairText, ReadArgs;
    if k == |ps| {
      assert ps[..k] == ps && ps[k..] == [];
      NoMoreArgs(ArgsOf(ps));
    } else {
      var p, rest, done := ps[k], PairsText(ps[k + 1..]), ArgsOf(ps[..k]);
      assert ps[k..][1..] == ps[k + 1..];
      PairReadsBack(p, rest);
      NewPair(done, p);
      assert ArgsOf(ps[..k + 1]) == done + [Arg(p.key, [p.value])];
      OnePair(done, false, p, rest);
      PairsReadBack(ps, k + 1);
    }
  }

  lemma NoMoreArgs(args: seq<Arg>)
    ensures ReadArgs(args, false, "") == Some((args, false))
  {}

  /** The line that opens a connection. */
  function OpeningText(ps: seq<Pair>): string {
    PREFIX + (INIT_PACKAGE + PairsText(ps))
  }

  lemma PairsStart(ps: seq<Pair>)
    requires ps != []
    ensures PairsText(ps) != "" && PairsText(ps)[0] == ' '
  {}

  /** On any connection, whatever is under way, it is read as the opening message whole. */
  lemma OpeningIsRead(reg: Registry, st: State, ps: seq<Pair>)
    requires WirePairs(ps) && ps != []
    ensures ReadLine(reg, st, OpeningText(ps)) == Whole(Msg(INIT_PACKAGE, "", ArgsOf(ps)))
  {
    hide ReadIdent, ReadArgs, PairsText, WirePairs, ReadContinuation, ReadEnd, SplitPackage, Without;
    var s := INIT_PACKAGE + PairsText(ps);
    assert OpeningText(ps)[|PREFIX|..] == s;
    PairsStart(ps);
    OpeningHead(ps);
    NotContinued(s);
    PairsReadBack(ps, 0);
    assert ps[..0] == [] && ps[0..] == ps && ArgsOf([]) == [];
    InitSplitsToInit(reg, INIT_PACKAGE);
    assert EqualFold(INIT_PACKAGE, INIT_PACKAGE);
    assert ReadHeader(reg, st.authKey, s) == Some(Header(INIT_PACKAGE, "", ArgsOf(ps), false));
  }

  lemma OpeningHead(ps: seq<Pair>)
    requires ps != []
    ensures
      var s := INIT_PACKAGE + PairsText(ps);
      s[0] == 'm' && HasPrefixFold(s, "mcp ") && ReadIdent(s) == Got(INIT_PACKAGE, PairsText(ps))
  {
    hide PairsText, ReadIdent;
    var rest := PairsText(ps);
    var s := INIT_PACKAGE + rest;
    PairsStart(ps);
    assert s[..4] == "mcp " by { assert s[3] == rest[0]; }
    NameIsIdent();
    IdentReadsBack(INIT_PACKAGE, rest);
  }

  lemma NameIsIdent()
    ensures IsIdent(INIT_PACKAGE) && !IsIdentChar(' ')
  {
    assert forall i :: 0 <= i < |INIT_PACKAGE| ==> IsIdentChar(INIT_PACKAGE[i]);
  }

  lemma NotContinued(s: string)
    requires s != "" && s[0] == 'm'
    ensures ReadContinuation(s) == None && ReadEnd(s) == None
  {}

  // ---------- What it does ----------

  /** The pairs of an opening: the versions spoken, and perhaps a highest one and a key. */
  function Offer(from: Version, to: Option<Version>, key: Option<string>): seq<Pair> {
    [Pair("version", false, VersionText(from))]
    + (if to.Some? then [Pair("to", false, VersionText(to.value))] else [])
    + (if key.Some? then [Pair("authentication-key", false, key.value)] else [])
  }

  predicate Writable(v: Version) {
    v.major < INT64_LIMIT && v.minor < INT64_LIMIT
  }

  /** The server speaks 2.1 and nothing else. */
  predicate Holds21(from: Version, to: Version) {
    (from.major < 2 || (from.major == 2 && from.minor <= 1)) && (to.major > 2 || (to.major == 2 && to.minor >= 1))
  }

  lemma OfferIsWire(from: Version, to: Option<Version>, key: Option<string>)
    ensures WirePairs(Offer(from, to, key))
  {
    hide VersionText, IsIdent, EqualFold;
    NamesAreIdents();
    NamesApart();
  }

  lemma NamesAreIdents()
    ensures IsIdent("version") && IsIdent("to") && IsIdent("authentication-key")
  {
    assert forall i :: 0 <= i < |"version"| ==> IsIdentChar("version"[i]);
    assert forall i :: 0 <= i < |"to"| ==> IsIdentChar("to"[i]);
    assert forall i :: 0 <= i < |"authentication-key"| ==> IsIdentChar("authentication-key"[i]);
  }

  lemma OfferArgs(from: Version, to: Option<Version>, key: Option<string>)
    ensures
      var args := ArgsOf(Offer(from, to, key));
      && FirstLine(args, "version") == Some(VersionText(from))
      && FirstLine(args, "to") == (if to.Some? then Some(VersionText(to.value)) else None)
      && FirstLine(args, "authentication-key") == key
  {
    hide VersionText, FirstLine, EqualFold;
    var a, t, k := Arg("version", [VersionText(from)]), ToArgs(to), KeyArgs(key);
    assert ArgsOf(Offer(from, to, key)) == [a] + (t + k);
    NamesApart();
    forall name ensures FirstLine([a] + (t + k), name) ==
      if EqualFold("version", name) then Some(VersionText(from)) else FirstLine(t + k, name)
    {
      FirstOf(a, t + k, name);
    }
    forall name ensures FirstLine(t + k, name) ==
      if to.Some? && EqualFold("to", name) then Some(VersionText(to.value)) else FirstLine(k, name)
    {
      if to.Some? { FirstOf(t[0], k, name); } else { assert t + k == k; }
    }
    forall name ensures FirstLine(k, name) == if key.Some? && EqualFold("authentication-key", name) then key else None {
      FirstOfNone(name);
      if key.Some? { FirstOf(k[0], [], name); }
    }
  }

  function ToArgs(to: Option<Version>): seq<Arg> {
    if to.Some? then [Arg("to", [VersionText(to.value)])] else []
  }

  function KeyArgs(key: Option<string>): seq<Arg> {
    if key.Some? then [Arg("authentication-key", [key.value])] else []
  }

  lemma FirstOf(a: Arg, rest: seq<Arg>, name: string)
    requires a.lines != []
    ensures FirstLine([a] + rest, name) == if EqualFold(a.name, name) then Some(a.lines[0]) else FirstLine(rest, name)
    ensures [a] + [] == [a]
  {
    hide EqualFold;
    assert ([a] + rest)[1..] == rest;
  }

  lemma FirstOfNone(name: string)
    ensures FirstLine([], name) == None
  {}

  lemma NamesApart()
    ensures forall a, b :: a in {"version", "to", "authentication-key"} && b in {"version", "to", "authentication-key"} ==>
      (EqualFold(a, b) <==> a == b)
  {
    assert |"version"| == 7 && |"to"| == 2 && |"authentication-key"| == 18;
  }

  lemma VersionAlone(v: Version)
    requires Writable(v)
    ensures ParseVersion(VersionText(v)) == Some(v)
  {
    VersionReadsBack(v, "");
    assert VersionText(v) + "" == VersionText(v);
  }

  /** The opening line of a client that speaks from a version up to another: the frame holds
      the client's key, or the new one when none is named; it speaks version 2.1 if and only
      if that is among those offered, and MCP is on if and only if it was or now speaks it. */
  lemma OpeningTurnsOn(reg: Registry, st: State, from: Version, to: Option<Version>, key: Option<string>, newKey: string)
    requires Writable(from) && (to.Some? ==> Writable(to.value))
    ensures
      var agreed := Holds21(from, if to.Some? then to.value else from);
      Step(reg, st, OpeningText(Offer(from, to, key)), newKey) ==
        st.(authKey := if key.Some? then key.value else newKey,
            version := if agreed then Version(2, 1) else Version(0, 0),
            enabled := st.enabled || agreed)
  {
    hide ReadLine, OpeningText, Offer, FirstLine, ParseVersion, VersionText, ArgsOf;
    var ps := Offer(from, to, key);
    OfferIsWire(from, to, key);
    OfferArgs(from, to, key);
    OfferIsSome(from, to, key);
    OpeningIsRead(reg, st, ps);
    VersionAlone(from);
    if to.Some? { VersionAlone(to.value); }
    assert EqualFold(INIT_PACKAGE, INIT_PACKAGE);
  }

  lemma OfferIsSome(from: Version, to: Option<Version>, key: Option<string>)
    ensures Offer(from, to, key) != []
  {}

  // ---------- Whole connections ----------

  /** An opening message that offers a range with 2.1 in it. */
  predicate Opens(m: Msg) {
    && EqualFold(m.pkg, "mcp") && m.name == ""
    && var range := VersionRange(m, "version", "to");
       range.Some? && Holds21(range.value.0, range.value.1)
  }

  ghost predicate Opened(run: Run, n: nat)
    requires n <= |run.inputs|
  {
    exists i :: 0 <= i < n && run.Delivers(i).Some? && Opens(run.Delivers(i).value)
  }

  lemma StepEnables(reg: Registry, st: State, line: string, newKey: string)
    ensures
      var m := Completed(st.partial, ReadLine(reg, st, line));
      Step(reg, st, line, newKey).enabled <==> st.enabled || (m.Some? && Opens(m.value))
  {
    hide ReadLine, VersionRange;
  }

  /** MCP is on if and only if an opening message that offered 2.1 has been delivered. */
  lemma {:induction false} OnIffOpened(run: Run, n: nat)
    requires n <= |run.inputs|
    ensures run.At(n).enabled <==> Opened(run, n)
    decreases n
  {
    hide Step, ReadLine, Opens;
    if n > 0 {
      OnIffOpened(run, n - 1);
      StepEnables(run.reg, run.At(n - 1), run.inputs[n - 1].line, run.inputs[n - 1].newKey);
      assert Opened(run, n) <==> Opened(run, n - 1) || (run.Delivers(n - 1).Some? && Opens(run.Delivers(n - 1).value));
    }
  }
}
