/** Which package a message belongs to, and which versions of packages come to be agreed. */
module McpPackages {
  import opened Text
  import opened Decimal
  import opened McpMessage
  import opened McpFrame
  import opened McpReassembly
  import opened McpSend
  import opened McpOpening

  // ---------- Full names ----------

  /** The name is a package's, or that and a hyphen and more. */
  predicate Claims(pkg: string, name: string) {
    || EqualFold(name, pkg)
    || (|name| > |pkg| && name[|pkg|] == '-' && EqualFold(name[..|pkg|], pkg))
  }

  ghost predicate SomeClaims(reg: Registry, name: string) {
    exists k :: 0 <= k < |reg| && Claims(reg[k].name, name)
  }

  /** Some package claims the name, and len is the length of the longest that does. */
  ghost predicate LongestIs(reg: Registry, name: string, len: nat) {
    && (exists k :: 0 <= k < |reg| && Claims(reg[k].name, name) && |reg[k].name| == len)
    && forall k :: 0 <= k < |reg| && Claims(reg[k].name, name) ==> |reg[k].name| <= len
  }

  lemma FitsIsClaims(p: Package, name: string)
    ensures Fits(p, name) <==> Claims(p.name, name)
  {
    if |name| == |p.name| { assert name[..|p.name|] == name; }
  }

  /** A message of a package, named by the package, or by the package, a hyphen and its own
      name, is read as just that if and only if no other package claims the name: the opening
      package its own alone, the longest registered name whatever begins with it, and the
      negotiation what nobody else does. */
  lemma NameSplitsIff(reg: Registry, pkg: string, sub: string)
    requires pkg != "" && forall k :: 0 <= k < |reg| ==> reg[k].name != ""
    ensures
      var name := FullName(Msg(pkg, sub, []));
      SplitPackage(reg, name) == Some((pkg, sub)) <==>
        if EqualFold(name, "mcp") then sub == ""
        else if SomeClaims(reg, name) then LongestIs(reg, name, |pkg|)
        else HasPrefixFold(name, "mcp-negotiate") && |pkg| == |"mcp-negotiate"|
  {
    hide Claims, LongestFit, EqualFold, HasPrefixFold;
    var name := if sub == "" then pkg else pkg + "-" + sub;
    FullNameParts(pkg, sub);
    ShortMcp(name);
    ShorterThanMcp(name);
    LongestIsFit(reg, name);
    SplitLength(reg, name);
  }

  /** Whatever is taken as the package is a beginning of the name, and the rest, less its
      hyphen, is the message's own. */
  lemma SplitLength(reg: Registry, name: string)
    ensures
      var fit := LongestFit(reg, name);
      var n := if EqualFold(name, "mcp") then 3
        else if fit > 0 then fit
        else if HasPrefixFold(name, "mcp-negotiate") then 13
        else 0;
      SplitPackage(reg, name) ==
        if n == 0 then None
        else Some((name[..n], if name[n..] != "" && name[n] == '-' then name[n + 1..] else name[n..]))
  {
    hide LongestFit, EqualFold;
    ShortMcp(name);
    ShorterThanMcp(name);
  }

  lemma ShorterThanMcp(name: string)
    ensures HasPrefixFold(name, "mcp-negotiate") ==> |name| >= 13
    ensures EqualFold(name, "mcp") ==> |name| == 3
  {}

  lemma LongestIsFit(reg: Registry, name: string)
    requires forall k :: 0 <= k < |reg| ==> reg[k].name != ""
    ensures
      var n := LongestFit(reg, name);
      if SomeClaims(reg, name) then n > 0 && forall len :: LongestIs(reg, name, len) <==> len == n
      else n == 0
  {
    hide Fits, Claims;
    forall k | 0 <= k < |reg| ensures Fits(reg[k], name) <==> Claims(reg[k].name, name) { FitsIsClaims(reg[k], name); }
  }

  /** Cut at a length, a full name gives the two names it is made of only at the right one. */
  lemma FullNameParts(pkg: string, sub: string)
    requires pkg != ""
    ensures
      var name := if sub == "" then pkg else pkg + "-" + sub;
      && name[..|pkg|] == pkg
      && if sub == "" then |name| == |pkg|
         else |name| > |pkg| && name[|pkg|] == '-' && name[|pkg| + 1..] == sub
  {}

  lemma ShortMcp(name: string)
    ensures HasPrefixFold(name, "mcp") && |name| <= 3 <==> EqualFold(name, "mcp")
    ensures EqualFold(name, "mcp") ==> !HasPrefixFold(name, "mcp-negotiate")
  {
    if |name| == 3 { assert name[..3] == name; }
  }

  // ---------- Agreed versions ----------

  /** The first registration of a package's name. */
  ghost predicate Registered(reg: Registry, i: int, name: string) {
    0 <= i < |reg| && EqualFold(reg[i].name, name) && forall j :: 0 <= j < i ==> !EqualFold(reg[j].name, name)
  }

  /** The first registration of a package's name that has a handler is the negotiator's. */
  ghost predicate Negotiates(reg: Registry, i: int, name: string) {
    && 0 <= i < |reg| && EqualFold(reg[i].name, name) && reg[i].handler == Negotiator
    && forall j :: 0 <= j < i ==> !(EqualFold(reg[j].name, name) && reg[j].handler != NoHandler)
  }

  /** A message that settles a version v for the package kept under k. */
  ghost predicate Settles(reg: Registry, m: Msg, k: string, v: Version) {
    && !EqualFold(m.pkg, "mcp") && (exists i :: Negotiates(reg, i, m.pkg))
    && EqualFold(m.name, "can")
    && var pkg, range := FirstLine(m.args, "package"), VersionRange(m, "min-version", "max-version");
       && pkg.Some? && Fold(pkg.value) == k && range.Some? && v != Version(0, 0)
       && exists i :: Registered(reg, i, pkg.value)
            && v == SelectVersion(reg[i].minVer, reg[i].maxVer, range.value.0, range.value.1)
  }

  lemma {:induction false} NegotiatorIs(reg: Registry, name: string)
    ensures HandlerOf(reg, name).Negotiator? <==> exists i :: Negotiates(reg, i, name)
  {
    hide EqualFold;
    if reg != [] {
      var rest := reg[1..];
      NegotiatorIs(rest, name);
      if EqualFold(reg[0].name, name) && reg[0].handler != NoHandler {
        if reg[0].handler == Negotiator { assert Negotiates(reg, 0, name); }
      } else {
        forall i ensures Negotiates(reg, i, name) <==> Negotiates(rest, i - 1, name) {
          assert forall j :: 0 <= j < |rest| ==> rest[j] == reg[j + 1];
          assert forall j :: 1 <= j < |reg| ==> reg[j] == rest[j - 1];
        }
        if i :| Negotiates(rest, i, name) { assert Negotiates(reg, i + 1, name); }
      }
    }
  }

  /** One message: it records what it settles, and nothing else. */
  lemma CanSettles(reg: Registry, st: State, m: Msg, newKey: string)
    ensures
      var after := AfterDispatch(reg, st, m, newKey).packages;
      && (forall k, v :: Settles(reg, m, k, v) ==> after == st.packages[k := v])
      && ((forall k, v :: !Settles(reg, m, k, v)) ==> after == st.packages)
  {
    hide EqualFold, Fold, FirstLine, VersionRange, SelectVersion, Negotiates, HandlerOf, AfterInit;
    NegotiatorIs(reg, m.pkg);
    InitKeepsPackages(st, m, newKey);
    var pkg, range := FirstLine(m.args, "package"), VersionRange(m, "min-version", "max-version");
    if pkg.Some? && range.Some? && HandlerOf(reg, m.pkg).Negotiator? && !EqualFold(m.pkg, "mcp") && EqualFold(m.name, "can") {
      var i := PackageIndex(reg, pkg.value);
      if i < |reg| {
        assert Registered(reg, i, pkg.value);
        var v := SelectVersion(reg[i].minVer, reg[i].maxVer, range.value.0, range.value.1);
        if v != Version(0, 0) { assert Settles(reg, m, Fold(pkg.value), v); }
      }
    }
  }

  lemma InitKeepsPackages(st: State, m: Msg, newKey: string)
    ensures AfterInit(st, m, newKey).packages == st.packages
  {}

  /** What line i settles for the package kept under k. */
  ghost predicate SettlesAt(run: Run, i: nat, k: string, v: Version)
    requires i < |run.inputs|
  {
    run.Delivers(i).Some? && Settles(run.reg, run.Delivers(i).value, k, v)
  }

  ghost predicate NoneSettled(run: Run, from: nat, n: nat, k: string)
    requires n <= |run.inputs|
  {
    forall j, u :: from <= j < n ==> !SettlesAt(run, j, k, u)
  }

  ghost predicate LastSettled(run: Run, n: nat, k: string, v: Version)
    requires n <= |run.inputs|
  {
    exists i :: 0 <= i < n && SettlesAt(run, i, k, v) && NoneSettled(run, i + 1, n, k)
  }

  /** Over a whole connection: a package has the version that the last message to settle one
      settled, and has none exactly when no message did. */
  lemma {:induction false} VersionIsLastSettled(run: Run, n: nat, k: string)
    requires n <= |run.inputs|
    ensures
      var packages := run.At(n).packages;
      if k in packages then LastSettled(run, n, k, packages[k]) else NoneSettled(run, 0, n, k)
    decreases n
  {
    hide Step, ReadLine, Settles, SettlesAt, Run.Delivers;
    if n > 0 {
      VersionIsLastSettled(run, n - 1, k);
      StepSettles(run, n - 1, k);
      var before, after := run.At(n - 1).packages, run.At(n).packages;
      if NoneSettled(run, n - 1, n, k) {
        if k in after {
          var i :| 0 <= i < n - 1 && SettlesAt(run, i, k, before[k]) && NoneSettled(run, i + 1, n - 1, k);
          assert NoneSettled(run, i + 1, n, k);
        }
      } else {
        var v :| SettlesAt(run, n - 1, k, v);
        assert NoneSettled(run, n, n, k);
      }
    }
  }

  lemma StepSettles(run: Run, i: nat, k: string)
    requires i < |run.inputs|
    ensures
      var before, after := run.At(i).packages, run.At(i + 1).packages;
      && (forall v :: SettlesAt(run, i, k, v) ==> k in after && after[k] == v)
      && (NoneSettled(run, i, i + 1, k) ==> (k in after <==> k in before) && (k in after ==> after[k] == before[k]))
  {
    hide ReadLine, Settles, AfterDispatch;
    var st := run.At(i);
    var r := ReadLine(run.reg, st, run.inputs[i].line);
    var m := Completed(st.partial, r);
    if m.Some? {
      CanSettles(run.reg, st.(partial := Arriving(st.partial, r)), m.value, run.inputs[i].newKey);
      if NoneSettled(run, i, i + 1, k) {
        assert forall u :: !SettlesAt(run, i, k, u) ==> !Settles(run.reg, m.value, k, u);
      }
    }
  }

  // ---------- Who may be sent to ----------

  /** Over a whole connection: a message of the opening package may always be sent; any other
      only once MCP is on, which is the first refusal; and besides the negotiation's, only one
      of a package whose version has been settled, which is the second. */
  lemma SendsIff(run: Run, n: nat, m: Msg, texts: seq<string>)
    requires n <= |run.inputs| && m.pkg != ""
    ensures
      var sent := MaySend(run.At(n), m, texts);
      var on := EqualFold(m.pkg, "mcp") || Opened(run, n);
      var known :=
        || (EqualFold(m.pkg, "mcp") && m.name == "") || EqualFold(m.pkg, "mcp-negotiate")
        || exists v :: LastSettled(run, n, Fold(m.pkg), v);
      && (sent == NotEnabled <==> !on)
      && (sent == NoPackage <==> on && !known)
      && (sent == Lines(texts) <==> on && known)
  {
    hide Opened, LastSettled, NoneSettled, Run.At, EqualFold;
    OnIffOpened(run, n);
    VersionIsLastSettled(run, n, Fold(m.pkg));
    SettledIsSome(run, n, Fold(m.pkg));
    OpeningName(m);
  }

  lemma OpeningName(m: Msg)
    requires m.pkg != ""
    ensures EqualFold(FullName(m), "mcp") <==> EqualFold(m.pkg, "mcp") && m.name == ""
  {
    if m.name != "" {
      var name := FullName(m);
      assert name[|m.pkg|] == '-';
      assert forall k :: 0 <= k < 3 ==> Lower("mcp"[k]) != Lower('-');
      assert !EqualFold(name, "mcp");
    }
  }

  /** What was settled is never 0.0, and cannot be both settled and not. */
  lemma SettledIsSome(run: Run, n: nat, k: string)
    requires n <= |run.inputs|
    ensures forall v :: LastSettled(run, n, k, v) ==> v != Version(0, 0)
    ensures NoneSettled(run, 0, n, k) ==> forall v :: !LastSettled(run, n, k, v)
  {
    hide Run.Delivers;
  }
}
