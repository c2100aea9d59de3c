/** Sending a message: the lines it is written as, and that a frame reading those lines
    receives the message that was sent. */
module McpSend {
  import opened Text
  import opened Decimal
  import opened McpLex
  import opened McpMessage
  import opened McpFrame
  import opened McpTags

  /** How long name and value may be together before the value is sent on its own line. */
  const MAX_INLINE_VALUE := 400

  // ---------- Lines within values ----------

  /** A value's lines, with embedded line endings broken out. */
  function SplitLines(lines: seq<string>): seq<string> {
    if lines == [] then [] else SplitAt(Normalise(lines[0]), '\n') + SplitLines(lines[1..])
  }

  function SplitArgs(args: seq<Arg>): (r: seq<Arg>)
    ensures |r| == |args| && forall i :: 0 <= i < |r| ==> r[i] == Arg(args[i].name, SplitLines(args[i].lines))
  {
    seq(|args|, i requires 0 <= i < |args| => Arg(args[i].name, SplitLines(args[i].lines)))
  }

  // ---------- The lines of a message ----------

  function FullName(m: Msg): string {
    if m.name == "" then m.pkg else m.pkg + "-" + m.name
  }

  /** Sent on continuation lines: too many lines, or too long for the first line. */
  predicate Deferred(a: Arg) {
    |a.lines| > 1 || (|a.lines| == 1 && |a.lines[0]| + |a.name| > MAX_INLINE_VALUE)
  }

  /** What stands in the first line for an argument's value. */
  function Inline(a: Arg): string {
    if Deferred(a) || a.lines == [] then "" else a.lines[0]
  }

  /** " name: "value"" or " name*: "value"", and then rest. */
  function PairText(p: Pair, rest: string): string {
    " " + (p.key + ((if p.deferred then "*:" else ":") + (" " + (EscapeArg(p.value) + rest))))
  }

  function PairOf(a: Arg): Pair {
    Pair(a.name, Deferred(a), Inline(a))
  }

  function ArgsText(args: seq<Arg>, rest: string): string {
    if args == [] then rest else PairText(PairOf(args[0]), ArgsText(args[1..], rest))
  }

  function KeyText(name: string, authKey: string, rest: string): string {
    if EqualFold(name, INIT_PACKAGE) then rest else " " + (authKey + rest)
  }

  predicate AnyDeferred(args: seq<Arg>) {
    exists i :: 0 <= i < |args| && Deferred(args[i])
  }

  function TagText(tag: string): string {
    " " + (DATA_TAG + (":" + (" " + tag)))
  }

  function FirstText(m: Msg, authKey: string, tag: string): string {
    var name := FullName(m);
    PREFIX + (name + KeyText(name, authKey, ArgsText(m.args, if AnyDeferred(m.args) then TagText(tag) else "")))
  }

  function ContinuationText(tag: string, key: string, line: string): string {
    PREFIX + ("*" + (" " + (tag + (" " + (key + (":" + (" " + line)))))))
  }

  function EndText(tag: string): string {
    PREFIX + (":" + (" " + tag))
  }

  /** The lines of the deferred arguments, as key and line. */
  function DeferredLines(args: seq<Arg>): seq<(string, string)> {
    if args == [] then []
    else (if Deferred(args[0]) then Keyed(args[0].name, args[0].lines) else []) + DeferredLines(args[1..])
  }

  function Keyed(key: string, lines: seq<string>): (r: seq<(string, string)>)
    ensures |r| == |lines|
    ensures forall i :: 0 <= i < |r| ==> r[i] == (key, lines[i])
  {
    seq(|lines|, i requires 0 <= i < |lines| => (key, lines[i]))
  }

  function ContinuationTexts(tag: string, lines: seq<(string, string)>): (r: seq<string>)
    ensures |r| == |lines|
    ensures forall i :: 0 <= i < |r| ==> r[i] == ContinuationText(tag, lines[i].0, lines[i].1)
  {
    seq(|lines|, i requires 0 <= i < |lines| => ContinuationText(tag, lines[i].0, lines[i].1))
  }

  /** Everything written for a message whose values are already split into lines. */
  function MessageTexts(m: Msg, authKey: string, tag: string): seq<string> {
    [FirstText(m, authKey, tag)] +
    if AnyDeferred(m.args) then ContinuationTexts(tag, DeferredLines(m.args)) + [EndText(tag)] else []
  }

  // ---------- Reading the lines back ----------

  /** Names the wire can carry: identifiers, each used once, none of them the data tag's. */
  predicate WireArgs(args: seq<Arg>) {
    && (forall i :: 0 <= i < |args| ==> IsIdent(args[i].name) && !EqualFold(args[i].name, DATA_TAG))
    && (forall i, j :: 0 <= i < j < |args| ==> !EqualFold(args[i].name, args[j].name))
  }

  lemma PairReadsBack(p: Pair, rest: string)
    requires IsIdent(p.key)
    ensures ReadPair(PairText(p, rest)) == Some((p, rest))
  {
    hide ReadIdent, ReadUnquoted, ReadQuoted, SkipSpace, EscapeArg, IsIdent, IsIdentChar, IsIdentStart;
    var mark := if p.deferred then "*:" else ":";
    var value := EscapeArg(p.value) + rest;
    var s2 := mark + (" " + value);
    var s1 := p.key + s2;
    IdentHead(p.key, s2);
    OneSpace(s1);
    MarkEndsIdent(s2);
    IdentReadsBack(p.key, s2);
    QuoteHead(p.value, rest);
    OneSpace(value);
    assert s2[|mark|..] == " " + value;
    assert p.deferred ==> s2[1..][1..] == " " + value;
    EscapeReadsBack(p.value, rest);
    assert ReadValue(value) == Got(p.value, rest);
  }

  lemma IdentHead(key: string, rest: string)
    requires IsIdent(key)
    ensures key + rest != "" && !IsSpace((key + rest)[0])
  {
    assert (key + rest)[0] == key[0];
  }

  lemma MarkEndsIdent(s: string)
    requires s != "" && (s[0] == '*' || s[0] == ':')
    ensures !IsIdentChar(s[0])
  {}

  lemma QuoteHead(value: string, rest: string)
    ensures
      var s := EscapeArg(value) + rest;
      s != "" && s[0] == '"' && !IsSpace(s[0]) && ReadUnquoted(s) == Missing
  {
    var s := EscapeArg(value) + rest;
    assert s[0] == '"';
    assert !IsSimpleChar('"');
  }

  /** The arguments as they stand after the first line. */
  function Announced(args: seq<Arg>): (r: seq<Arg>)
    ensures |r| == |args|
    ensures forall i :: 0 <= i < |r| ==> r[i] == Arg(args[i].name, if Deferred(args[i]) then [] else [Inline(args[i])])
  {
    seq(|args|, i requires 0 <= i < |args| => Arg(args[i].name, if Deferred(args[i]) then [] else [Inline(args[i])]))
  }

  /** A pair with a new name always adds an argument of its own. */
  lemma NewPair(args: seq<Arg>, p: Pair)
    requires forall i :: 0 <= i < |args| ==> !EqualFold(args[i].name, p.key)
    ensures WithPair(args, p) == args + [Arg(p.key, if p.deferred then [] else [p.value])]
  {
    IndexIn(args, p.key, |args|);
  }

  /** Reading the argument text yields the arguments announced, then whatever rest yields. */
  lemma {:induction false} ArgsReadBack(args: seq<Arg>, k: nat, rest: string)
    requires WireArgs(args) && k <= |args|
    ensures ReadArgs(Announced(args)[..k], AnyDeferred(args[..k]), ArgsText(args[k..], rest))
         == ReadArgs(Announced(args), AnyDeferred(args), rest)
    decreases |args| - k
  {
    hide ReadPair, WithPair, EscapeArg, Deferred, Inline, EqualFold, IsIdent, PairText, ReadArgs, AnyDeferred;
    if k == |args| {
      assert args[..k] == args && Announced(args)[..k] == Announced(args) && args[k..] == [];
    } else {
      var p := PairOf(args[k]);
      var done := Announced(args)[..k];
      assert args[k..][1..] == args[k + 1..];
      PairReadsBack(p, ArgsText(args[k + 1..], rest));
      assert ArgsText(args[k..], rest) == PairText(p, ArgsText(args[k + 1..], rest));
      NewPair(done, p);
      assert Announced(args)[..k + 1] == WithPair(done, p);
      DeferredPrefix(args, k);
      ArgsReadBack(args, k + 1, rest);
      OnePair(done, AnyDeferred(args[..k]), p, ArgsText(args[k + 1..], rest));
    }
  }

  lemma DeferredPrefix(args: seq<Arg>, k: nat)
    requires k < |args|
    ensures AnyDeferred(args[..k + 1]) <==> AnyDeferred(args[..k]) || Deferred(args[k])
  {
    if AnyDeferred(args[..k]) {
      var i :| 0 <= i < k && Deferred(args[..k][i]);
      assert Deferred(args[..k + 1][i]);
    }
    if Deferred(args[k]) { assert Deferred(args[..k + 1][k]); }
    if AnyDeferred(args[..k + 1]) {
      var i :| 0 <= i < k + 1 && Deferred(args[..k + 1][i]);
      if i < k { assert Deferred(args[..k][i]); }
    }
  }

  lemma OnePair(args: seq<Arg>, deferred: bool, p: Pair, rest: string)
    requires ReadPair(PairText(p, rest)) == Some((p, rest))
    ensures ReadArgs(args, deferred, PairText(p, rest)) == ReadArgs(WithPair(args, p), deferred || p.deferred, rest)
  {
    hide ReadPair, WithPair, EscapeArg;
  }

  /** The tag's own pair is read bare, as the last of the line. */
  lemma TagReadsBack(args: seq<Arg>, deferred: bool, tag: string)
    requires IsSimple(tag)
    requires forall i :: 0 <= i < |args| ==> !EqualFold(args[i].name, DATA_TAG)
    ensures ReadArgs(args, deferred, TagText(tag)) == Some((args + [Arg(DATA_TAG, [tag])], deferred))
  {
    TagPair(tag);
    NewPair(args, Pair(DATA_TAG, false, tag));
    hide ReadPair, WithPair;
    assert ReadArgs(args + [Arg(DATA_TAG, [tag])], deferred, "") == Some((args + [Arg(DATA_TAG, [tag])], deferred));
  }

  lemma TagPair(tag: string)
    requires IsSimple(tag)
    ensures ReadPair(TagText(tag)) == Some((Pair(DATA_TAG, false, tag), ""))
  {
    TagIsIdent();
    SimpleHead(tag, "");
    SimpleReadsBack(tag, "");
    assert tag + "" == tag;
    hide ReadIdent, ReadUnquoted, ReadQuoted, SkipSpace, IsIdent, IsIdentChar, IsIdentStart, IsSimple;
    var s2 := ":" + (" " + tag);
    IdentHead(DATA_TAG, s2);
    OneSpace(DATA_TAG + s2);
    MarkEndsIdent(s2);
    IdentReadsBack(DATA_TAG, s2);
    OneSpace(tag);
    assert s2[1..] == " " + tag;
  }

  lemma TagIsIdent()
    ensures IsIdent(DATA_TAG)
  {
    assert forall i :: 0 <= i < |DATA_TAG| ==> IsIdentChar(DATA_TAG[i]);
  }

  lemma SimpleHead(tok: string, rest: string)
    requires IsSimple(tok)
    ensures tok + rest != "" && !IsSpace((tok + rest)[0])
  {
    assert (tok + rest)[0] == tok[0] && tok[0] in tok;
  }

  lemma {:induction false} WithoutTag(args: seq<Arg>, tag: string)
    requires forall i :: 0 <= i < |args| ==> !EqualFold(args[i].name, DATA_TAG)
    ensures Without(args + [Arg(DATA_TAG, [tag])], DATA_TAG) == args
    ensures FirstLine(args + [Arg(DATA_TAG, [tag])], DATA_TAG) == Some(tag)
  {
    var all := args + [Arg(DATA_TAG, [tag])];
    if args == [] {
      assert all == [Arg(DATA_TAG, [tag])];
    } else {
      assert all[1..] == args[1..] + [Arg(DATA_TAG, [tag])];
      WithoutTag(args[1..], tag);
    }
  }

  /** A message the wire can carry on a connection: its arguments are, its name is an
      identifier this frame resolves to it, and the key and tag are bare tokens. */
  predicate WireMessage(reg: Registry, m: Msg, authKey: string, tag: string) {
    && WireArgs(m.args)
    && IsIdent(FullName(m))
    && SplitPackage(reg, FullName(m)) == Some((m.pkg, m.name))
    && IsSimple(authKey)
    && IsSimple(tag)
  }

  lemma ArgsEndName(args: seq<Arg>, tail: string)
    requires tail == "" || tail[0] == ' '
    ensures ArgsText(args, tail) == "" || ArgsText(args, tail)[0] == ' '
  {}

  lemma HeaderReadsBack(reg: Registry, m: Msg, authKey: string, tag: string)
    requires WireMessage(reg, m, authKey, tag)
    ensures
      var rest := ArgsText(m.args, if AnyDeferred(m.args) then TagText(tag) else "");
      var s := FullName(m) + KeyText(FullName(m), authKey, rest);
      ReadHeader(reg, authKey, s) == match ReadArgs([], false, rest)
                                     case None => None
                                     case Some((args, d)) => Some(Header(m.pkg, m.name, args, d))
  {
    hide ReadIdent, ReadUnquoted, SkipSpace, SplitPackage, ReadArgs, ArgsText, FullName, WireArgs, AnyDeferred;
    var tail := if AnyDeferred(m.args) then TagText(tag) else "";
    var rest := ArgsText(m.args, tail);
    ArgsEndName(m.args, tail);
    var after := KeyText(FullName(m), authKey, rest);
    assert after == "" || after[0] == ' ';
    IdentReadsBack(FullName(m), after);
    SimpleHead(authKey, rest);
    SimpleReadsBack(authKey, rest);
    OneSpace(authKey + rest);
    assert PassKey(authKey, FullName(m), after) == Some(rest);
  }

  /** The first line is read as the message, complete or begun under the tag. */
  lemma FirstLineReadsBack(reg: Registry, m: Msg, authKey: string, tag: string)
    requires WireMessage(reg, m, authKey, tag)
    ensures ReadStart(reg, authKey, FirstText(m, authKey, tag)[|PREFIX|..]) ==
      Some(if AnyDeferred(m.args) then Begin(tag, Msg(m.pkg, m.name, Announced(m.args)))
           else Whole(Msg(m.pkg, m.name, Announced(m.args))))
  {
    hide ReadHeader, ArgsText, KeyText, FullName, Without, FirstLine, TagText, ReadArgs, Announced, AnyDeferred;
    var tail := if AnyDeferred(m.args) then TagText(tag) else "";
    HeaderReadsBack(reg, m, authKey, tag);
    ArgsReadBack(m.args, 0, tail);
    NoArgsYet(m.args);
    assert m.args[0..] == m.args && m.args[..0] == [];
    EndOfArgs(Announced(m.args), AnyDeferred(m.args));
    if AnyDeferred(m.args) {
      TagReadsBack(Announced(m.args), true, tag);
      WithoutTag(Announced(m.args), tag);
    }
    assert FirstText(m, authKey, tag)[|PREFIX|..] == FullName(m) + KeyText(FullName(m), authKey, ArgsText(m.args, tail));
  }

  lemma NoArgsYet(args: seq<Arg>)
    ensures Announced(args)[..0] == [] && !AnyDeferred(args[..0])
  {}

  lemma EndOfArgs(args: seq<Arg>, deferred: bool)
    ensures ReadArgs(args, deferred, "") == Some((args, deferred))
  {}

  lemma ContinuationReadsBack(tag: string, key: string, line: string)
    requires IsSimple(tag) && IsIdent(key)
    ensures ReadContinuation(ContinuationText(tag, key, line)[|PREFIX|..]) == Some(Continue(tag, key, line))
  {
    hide ReadIdent, ReadUnquoted, SkipSpace, IsIdent, IsIdentChar, IsIdentStart, IsSimple, IsSimpleChar;
    var s4 := ":" + (" " + line);
    var s3 := key + s4;
    var s2 := " " + s3;
    var s1 := tag + s2;
    assert ContinuationText(tag, key, line)[|PREFIX|..] == "*" + (" " + s1);
    assert ("*" + (" " + s1))[1..] == " " + s1;
    SimpleHead(tag, s2);
    OneSpace(s1);
    SpaceEndsToken(s2);
    SimpleReadsBack(tag, s2);
    IdentHead(key, s4);
    OneSpace(s3);
    MarkEndsIdent(s4);
    IdentReadsBack(key, s4);
    assert s4[2..] == line;
  }

  lemma SpaceEndsToken(s: string)
    requires s != "" && s[0] == ' '
    ensures !IsSimpleChar(s[0])
  {}

  lemma EndReadsBack(tag: string)
    requires IsSimple(tag)
    ensures ReadEnd(EndText(tag)[|PREFIX|..]) == Some(End(tag))
    ensures ReadContinuation(EndText(tag)[|PREFIX|..]) == None
  {
    var s := ":" + (" " + tag);
    assert EndText(tag)[|PREFIX|..] == s && s[1..] == " " + tag;
    SimpleHead(tag, "");
    SimpleReadsBack(tag, "");
    assert tag + "" == tag;
    OneSpace(tag);
  }

  // ---------- The whole message ----------

  /** The arguments a frame ends up with. One sent with no lines arrives with one empty line;
      every other arrives as it was sent. */
  function Arrived(a: Arg): seq<string> {
    if a.lines == [] then [""] else a.lines
  }

  lemma {:induction false} ValuesConcat(x: seq<(string, string)>, y: seq<(string, string)>, key: string)
    ensures ValuesFor(x + y, key) == ValuesFor(x, key) + ValuesFor(y, key)
    decreases |y|
  {
    if y == [] {
      assert x + y == x;
    } else {
      var init := y[..|y| - 1];
      ValuesConcat(x, init, key);
      assert (x + y)[..|x + y| - 1] == x + init;
    }
  }

  lemma {:induction false} ValuesKeyed(name: string, lines: seq<string>, key: string)
    ensures ValuesFor(Keyed(name, lines), key) == if EqualFold(name, key) then lines else []
    decreases |lines|
  {
    if lines != [] {
      var init := lines[..|lines| - 1];
      ValuesKeyed(name, init, key);
      assert Keyed(name, lines)[..|lines| - 1] == Keyed(name, init);
      assert init + [lines[|lines| - 1]] == lines;
    }
  }

  /** What the first argument contributes to a key, and what the others do. */
  lemma ValuesSplit(args: seq<Arg>, key: string)
    requires args != []
    ensures ValuesFor(DeferredLines(args), key) ==
      (if Deferred(args[0]) && EqualFold(args[0].name, key) then args[0].lines else [])
      + ValuesFor(DeferredLines(args[1..]), key)
  {
    hide Deferred, EqualFold, Keyed;
    var first := if Deferred(args[0]) then Keyed(args[0].name, args[0].lines) else [];
    ValuesKeyed(args[0].name, args[0].lines, key);
    ValuesConcat(first, DeferredLines(args[1..]), key);
  }

  lemma {:induction false} NoValues(args: seq<Arg>, key: string)
    requires forall i :: 0 <= i < |args| ==> !EqualFold(args[i].name, key)
    ensures ValuesFor(DeferredLines(args), key) == []
  {
    hide Deferred, EqualFold;
    if args != [] {
      ValuesSplit(args, key);
      NoValues(args[1..], key);
    }
  }

  /** The continuation lines of an argument are its lines, if it was deferred. */
  lemma {:induction false} ValuesOfArg(args: seq<Arg>, k: nat)
    requires WireArgs(args) && k < |args|
    ensures ValuesFor(DeferredLines(args), args[k].name) == if Deferred(args[k]) then args[k].lines else []
  {
    hide Deferred, EqualFold, IsIdent, ValuesFor, DeferredLines;
    var name, rest := args[k].name, args[1..];
    ValuesSplit(args, name);
    if k == 0 {
      forall i | 0 <= i < |rest| ensures !EqualFold(rest[i].name, name) {
        FoldSymmetric(args[0].name, args[i + 1].name);
      }
      NoValues(rest, name);
      FoldReflexive(name);
      assert args[0].lines + [] == args[0].lines;
    } else {
      ValuesOfArg(rest, k - 1);
      assert rest[k - 1] == args[k];
      assert [] + ValuesFor(DeferredLines(rest), name) == ValuesFor(DeferredLines(rest), name);
    }
  }

  lemma FoldReflexive(a: string)
    ensures EqualFold(a, a)
  {}

  lemma FoldSymmetric(a: string, b: string)
    ensures EqualFold(a, b) <==> EqualFold(b, a)
  {}

  lemma AnnouncedLines(args: seq<Arg>, k: nat)
    requires WireArgs(args) && k < |args|
    ensures LinesOf(Announced(args), args[k].name) == Some(if Deferred(args[k]) then [] else [Inline(args[k])])
  {
    IndexIn(Announced(args), args[k].name, k);
  }

  /** Once its continuation lines are in, each argument of the message shows exactly the
      lines it was sent with. */
  lemma ArgumentArrives(args: seq<Arg>, k: nat)
    requires WireArgs(args) && k < |args|
    ensures LinesOf(WithAll(Announced(args), DeferredLines(args)), args[k].name) == Some(Arrived(args[k]))
  {
    AnnouncedLines(args, k);
    ValuesOfArg(args, k);
    hide LinesOf, WithAll, Announced, DeferredLines, ValuesFor, WireArgs, IsIdent, EqualFold;
    WithAllPerKey(Announced(args), DeferredLines(args), args[k].name);
    DeferredShows(args[k]);
  }

  lemma DeferredShows(a: Arg)
    ensures ExtendedBy(Some(if Deferred(a) then [] else [Inline(a)]), if Deferred(a) then a.lines else [])
         == Some(Arrived(a))
  {
    assert [] + a.lines == a.lines;
    assert |a.lines| == 1 ==> a.lines == [a.lines[0]];
  }

  /** No other name shows anything. */
  lemma NothingElseArrives(args: seq<Arg>, key: string)
    requires forall i :: 0 <= i < |args| ==> !EqualFold(args[i].name, key)
    ensures LinesOf(WithAll(Announced(args), DeferredLines(args)), key) == None
  {
    IndexIn(Announced(args), key, |args|);
    NoValues(args, key);
    WithAllPerKey(Announced(args), DeferredLines(args), key);
  }

  lemma {:induction false} DeferredLineNames(args: seq<Arg>)
    requires WireArgs(args)
    ensures forall i :: 0 <= i < |DeferredLines(args)| ==> IsIdent(DeferredLines(args)[i].0)
    ensures !AnyDeferred(args) ==> DeferredLines(args) == []
  {
    if args != [] {
      if Deferred(args[0]) { assert AnyDeferred(args); }
      if AnyDeferred(args[1..]) {
        var i :| 0 <= i < |args[1..]| && Deferred(args[1..][i]);
        assert Deferred(args[i + 1]);
      }
      DeferredLineNames(args[1..]);
    }
  }

  /** A frame after the first n of some lines. */
  function After(reg: Registry, st: State, texts: seq<string>, n: nat): State
    requires n <= |texts|
  {
    if n == 0 then st else Step(reg, After(reg, st, texts, n - 1), texts[n - 1], "")
  }

  /** The message delivered by the last of some lines. */
  function Received(reg: Registry, st: State, texts: seq<string>): Option<Msg>
    requires texts != []
  {
    var before := After(reg, st, texts, |texts| - 1);
    Completed(before.partial, ReadLine(reg, before, texts[|texts| - 1]))
  }

  lemma MessageLine(reg: Registry, st: State, line: string, r: Reading)
    requires st.enabled && PREFIX <= line
    requires
      var s := line[|PREFIX|..];
      var c, e := ReadContinuation(s), ReadEnd(s);
      || (c == Some(r) && r.tag in st.partial)
      || (c == None && e == Some(r) && r.tag in st.partial)
      || (c == None && e == None && ReadStart(reg, st.authKey, s) == Some(r))
    ensures ReadLine(reg, st, line) == r
  {
    hide ReadContinuation, ReadEnd, ReadStart;
  }

  lemma FirstLineRead(reg: Registry, st: State, m: Msg, tag: string)
    requires st.enabled && WireMessage(reg, m, st.authKey, tag)
    ensures ReadLine(reg, st, FirstText(m, st.authKey, tag)) ==
      if AnyDeferred(m.args) then Begin(tag, Msg(m.pkg, m.name, Announced(m.args)))
      else Whole(Msg(m.pkg, m.name, Announced(m.args)))
  {
    hide ReadStart, FirstText, ReadContinuation, ReadEnd, ReadLine, WireMessage, Announced, AnyDeferred;
    var line := FirstText(m, st.authKey, tag);
    FirstLineReadsBack(reg, m, st.authKey, tag);
    FirstTextHead(reg, m, st.authKey, tag);
    StartsWithLetter(line[|PREFIX|..]);
    MessageLine(reg, st, line, ReadStart(reg, st.authKey, line[|PREFIX|..]).value);
  }

  lemma FirstTextHead(reg: Registry, m: Msg, authKey: string, tag: string)
    requires WireMessage(reg, m, authKey, tag)
    ensures
      var line := FirstText(m, authKey, tag);
      && PREFIX <= line
      && line[|PREFIX|..] != ""
      && IsIdentStart(line[|PREFIX|..][0])
  {
    hide ArgsText, KeyText, TagText;
    var line := FirstText(m, authKey, tag);
    assert line[|PREFIX|..][0] == FullName(m)[0];
  }

  lemma StartsWithLetter(s: string)
    requires s != "" && IsIdentStart(s[0])
    ensures ReadContinuation(s) == None && ReadEnd(s) == None
  {}

  lemma TextsInOrder(m: Msg, authKey: string, tag: string)
    requires AnyDeferred(m.args)
    ensures
      var texts, lines := MessageTexts(m, authKey, tag), DeferredLines(m.args);
      && |texts| == |lines| + 2
      && texts[0] == FirstText(m, authKey, tag)
      && (forall n :: 0 < n <= |lines| ==> texts[n] == ContinuationText(tag, lines[n - 1].0, lines[n - 1].1))
      && texts[|lines| + 1] == EndText(tag)
  {
    hide FirstText, DeferredLines, ContinuationText, EndText, AnyDeferred;
  }

  /** The message under its tag once n of its continuation lines are in. */
  function Grown(m: Msg, n: nat): Msg
    requires n <= |DeferredLines(m.args)|
  {
    Msg(m.pkg, m.name, WithAll(Announced(m.args), DeferredLines(m.args)[..n]))
  }

  lemma GrowOnce(m: Msg, n: nat)
    requires n < |DeferredLines(m.args)|
    ensures
      var (key, line) := DeferredLines(m.args)[n];
      Grown(m, n + 1) == WithMore(Grown(m, n), key, line)
  {
    hide DeferredLines, Announced, WithLine;
    var lines := DeferredLines(m.args);
    assert lines[..n + 1][..n] == lines[..n];
  }

  /** While the continuation lines arrive, the message under the tag grows by them, and
      nothing else about the frame changes. */
  lemma {:induction false} ContinuationsArrive(reg: Registry, st: State, m: Msg, tag: string, n: nat)
    requires st.enabled && WireMessage(reg, m, st.authKey, tag) && AnyDeferred(m.args)
    requires n <= |DeferredLines(m.args)| && n + 1 <= |MessageTexts(m, st.authKey, tag)|
    ensures After(reg, st, MessageTexts(m, st.authKey, tag), n + 1) == st.(partial := st.partial[tag := Grown(m, n)])
    decreases n
  {
    hide DeferredLines, MessageTexts, Step, WireMessage, AnyDeferred, Grown, ContinuationText, FirstText, EndText, ReadLine;
    var texts := MessageTexts(m, st.authKey, tag);
    TextsInOrder(m, st.authKey, tag);
    if n == 0 {
      FirstLineRead(reg, st, m, tag);
      GrownStart(m);
      BeginStep(reg, st, texts[0], tag, Grown(m, 0));
    } else {
      ContinuationsArrive(reg, st, m, tag, n - 1);
      OneArrives(reg, st, m, tag, n, texts[n], After(reg, st, texts, n));
    }
  }

  lemma GrownStart(m: Msg)
    ensures Grown(m, 0) == Msg(m.pkg, m.name, Announced(m.args))
  {
    hide DeferredLines, Announced;
    assert DeferredLines(m.args)[..0] == [];
  }

  lemma OneArrives(reg: Registry, st: State, m: Msg, tag: string, n: nat, text: string, before: State)
    requires st.enabled && WireMessage(reg, m, st.authKey, tag)
    requires 0 < n <= |DeferredLines(m.args)|
    requires text == ContinuationText(tag, DeferredLines(m.args)[n - 1].0, DeferredLines(m.args)[n - 1].1)
    requires before == st.(partial := st.partial[tag := Grown(m, n - 1)])
    ensures Step(reg, before, text, "") == st.(partial := st.partial[tag := Grown(m, n)])
  {
    hide DeferredLines, Step, AnyDeferred, Grown, ReadContinuation, ContinuationText, WireMessage, WireArgs,
      IsIdent, IsSimple, WithMore;
    var (key, line) := DeferredLines(m.args)[n - 1];
    WireFacts(reg, m, st.authKey, tag);
    DeferredLineNames(m.args);
    GrowOnce(m, n - 1);
    ContinuationReadsBack(tag, key, line);
    ContinuationPrefix(tag, key, line);
    ContinueStep(reg, before, text, tag, key, line);
    assert before.partial[tag := Grown(m, n)] == st.partial[tag := Grown(m, n)];
  }

  lemma WireFacts(reg: Registry, m: Msg, authKey: string, tag: string)
    requires WireMessage(reg, m, authKey, tag)
    ensures WireArgs(m.args) && IsSimple(tag)
  {}

  lemma ContinuationPrefix(tag: string, key: string, line: string)
    ensures PREFIX <= ContinuationText(tag, key, line)
  {}

  lemma BeginStep(reg: Registry, st: State, line: string, tag: string, m: Msg)
    requires ReadLine(reg, st, line) == Begin(tag, m)
    ensures Step(reg, st, line, "") == st.(partial := st.partial[tag := m])
  {
    hide ReadLine, AfterDispatch;
  }

  lemma ContinueStep(reg: Registry, st: State, line: string, tag: string, key: string, value: string)
    requires st.enabled && tag in st.partial && PREFIX <= line
    requires ReadContinuation(line[|PREFIX|..]) == Some(Continue(tag, key, value))
    ensures Step(reg, st, line, "") == st.(partial := st.partial[tag := WithMore(st.partial[tag], key, value)])
  {
    hide ReadLine, ReadContinuation, ReadEnd, ReadStart, WithMore, AfterDispatch;
    MessageLine(reg, st, line, Continue(tag, key, value));
  }

  /** The wire round trip: a frame that reads the lines of a message receives the message,
      under the same name and with every argument's lines as they were sent. */
  lemma WireRoundTrip(reg: Registry, st: State, m: Msg, tag: string, k: nat)
    requires st.enabled && WireMessage(reg, m, st.authKey, tag) && k < |m.args|
    ensures
      var d := Received(reg, st, MessageTexts(m, st.authKey, tag));
      && d.Some?
      && d.value.pkg == m.pkg && d.value.name == m.name
      && LinesOf(d.value.args, m.args[k].name) == Some(Arrived(m.args[k]))
  {
    MessageReceived(reg, st, m, tag);
    DeferredLineNames(m.args);
    ArgumentArrives(m.args, k);
  }

  lemma MessageReceived(reg: Registry, st: State, m: Msg, tag: string)
    requires st.enabled && WireMessage(reg, m, st.authKey, tag)
    ensures Received(reg, st, MessageTexts(m, st.authKey, tag)) ==
      Some(Msg(m.pkg, m.name, WithAll(Announced(m.args), DeferredLines(m.args))))
  {
    hide FirstText, DeferredLines, Announced, ContinuationText, EndText, ReadLine, MessageTexts, WithAll, WireMessage,
      WireArgs, AnyDeferred, Step, IsSimple;
    var texts := MessageTexts(m, st.authKey, tag);
    var lines := DeferredLines(m.args);
    WireFacts(reg, m, st.authKey, tag);
    if AnyDeferred(m.args) {
      TextsInOrder(m, st.authKey, tag);
      ContinuationsArrive(reg, st, m, tag, |lines|);
      assert lines[..|lines|] == lines;
      EndReceived(reg, After(reg, st, texts, |texts| - 1), tag);
    } else {
      OneText(m, st.authKey, tag);
      FirstLineRead(reg, st, m, tag);
      assert After(reg, st, texts, 0) == st;
    }
  }

  lemma OneText(m: Msg, authKey: string, tag: string)
    requires WireArgs(m.args) && !AnyDeferred(m.args)
    ensures MessageTexts(m, authKey, tag) == [FirstText(m, authKey, tag)]
    ensures WithAll(Announced(m.args), DeferredLines(m.args)) == Announced(m.args)
  {
    DeferredLineNames(m.args);
  }

  lemma EndReceived(reg: Registry, before: State, tag: string)
    requires before.enabled && tag in before.partial && IsSimple(tag)
    ensures ReadLine(reg, before, EndText(tag)) == End(tag)
  {
    hide ReadContinuation, ReadEnd, ReadLine, ReadStart;
    EndReadsBack(tag);
    MessageLine(reg, before, EndText(tag), End(tag));
  }

  // ---------- The sender ----------

  datatype Sent = Lines(texts: seq<string>) | NotEnabled | NoPackage

  /** sendMessage: what goes out, or why nothing does. */
  method SendMessage(st: State, m0: Msg, tag: string) returns (sent: Sent)
    ensures sent == MaySend(st, m0, MessageTexts(m0.(args := SplitArgs(m0.args)), st.authKey, tag))
  {
    hide MessageTexts, Fold;
    if !st.enabled && !EqualFold(m0.pkg, INIT_PACKAGE) { return NotEnabled; }
    var name := FullName(m0);
    if !EqualFold(name, INIT_PACKAGE) {
      var agreed := if Fold(m0.pkg) in st.packages then st.packages[Fold(m0.pkg)] else NO_VERSION;
      if !EqualFold(m0.pkg, NEGOTIATE_PACKAGE) && agreed == NO_VERSION { return NoPackage; }
    }
    var texts := WriteMessage(m0.(args := SplitArgs(m0.args)), st.authKey, tag);
    return Lines(texts);
  }

  /** Outside the negotiation package the client must have agreed to the package first. */
  function MaySend(st: State, m: Msg, texts: seq<string>): Sent {
    var supported := Fold(m.pkg) in st.packages && st.packages[Fold(m.pkg)] != NO_VERSION;
    if !st.enabled && !EqualFold(m.pkg, INIT_PACKAGE) then NotEnabled
    else if !EqualFold(FullName(m), INIT_PACKAGE) && !EqualFold(m.pkg, NEGOTIATE_PACKAGE) && !supported then NoPackage
    else Lines(texts)
  }

  method WriteMessage(m: Msg, authKey: string, tag: string) returns (texts: seq<string>)
    ensures texts == MessageTexts(m, authKey, tag)
  {
    hide EscapeArg, DeferredLines, ArgsText, AnyDeferred, ContinuationText, EndText, FirstText, TagText, FullName, EqualFold;
    var b := PREFIX + FullName(m);
    if !EqualFold(FullName(m), INIT_PACKAGE) { b := b + (" " + authKey); }
    assert b == PREFIX + FullName(m) + KeyText(FullName(m), authKey, "");
    var text, deferred := WriteArgs(m.args);
    DeferredSome(m.args);
    FirstTextIs(m, authKey, tag, text);
    b := b + text;
    if deferred == [] {
      assert b + "" == b;
      return [b];
    }
    texts := [b + TagText(tag)];
    for i := 0 to |deferred|
      invariant texts == [FirstText(m, authKey, tag)] + ContinuationTexts(tag, deferred)[..i]
    {
      texts := texts + [ContinuationText(tag, deferred[i].0, deferred[i].1)];
    }
    assert texts == [FirstText(m, authKey, tag)] + ContinuationTexts(tag, deferred);
    texts := texts + [EndText(tag)];
  }

  lemma PairTextRest(p: Pair, rest: string)
    ensures PairText(p, rest) == PairText(p, "") + rest
  {
    hide EscapeArg;
    var mark, value := if p.deferred then "*:" else ":", EscapeArg(p.value);
    assert value + "" == value;
    Append2(" ", value, rest);
    Append2(mark, " " + value, rest);
    Append2(p.key, mark + (" " + value), rest);
    Append2(" ", p.key + (mark + (" " + value)), rest);
  }

  lemma {:induction false} ArgsTextRest(args: seq<Arg>, rest: string)
    ensures ArgsText(args, rest) == ArgsText(args, "") + rest
  {
    if args == [] {
      assert "" + rest == rest;
    } else {
      hide PairText;
      var p, more := PairOf(args[0]), ArgsText(args[1..], "");
      ArgsTextRest(args[1..], rest);
      PairTextRest(p, more + rest);
      PairTextRest(p, more);
      Append2(PairText(p, ""), more, rest);
    }
  }

  lemma {:induction false} DeferredSome(args: seq<Arg>)
    ensures AnyDeferred(args) <==> DeferredLines(args) != []
  {
    if args != [] {
      DeferredSome(args[1..]);
      if Deferred(args[0]) { assert DeferredLines(args)[0] == (args[0].name, args[0].lines[0]); }
      if AnyDeferred(args[1..]) {
        var i :| 0 <= i < |args[1..]| && Deferred(args[1..][i]);
        assert Deferred(args[i + 1]);
      }
      if AnyDeferred(args) {
        var i :| 0 <= i < |args| && Deferred(args[i]);
        if i > 0 { assert Deferred(args[1..][i - 1]); }
      }
    }
  }

  /** The first line, put together from the pieces it is written in. */
  lemma FirstTextIs(m: Msg, authKey: string, tag: string, text: string)
    requires text == ArgsText(m.args, "")
    ensures
      var tail := if AnyDeferred(m.args) then TagText(tag) else "";
      FirstText(m, authKey, tag) == PREFIX + FullName(m) + KeyText(FullName(m), authKey, "") + text + tail
  {
    var tail := if AnyDeferred(m.args) then TagText(tag) else "";
    var name := FullName(m);
    ArgsTextRest(m.args, tail);
    hide ArgsText, FullName, TagText, AnyDeferred;
    var key := KeyText(name, authKey, "");
    KeyTextRest(name, authKey, text + tail);
    Append2(PREFIX + name + key, text, tail);
    Append2(PREFIX + name, key, text + tail);
    Append2(PREFIX, name, key + (text + tail));
  }

  lemma KeyTextRest(name: string, authKey: string, rest: string)
    ensures KeyText(name, authKey, rest) == KeyText(name, authKey, "") + rest
  {
    assert authKey + "" == authKey && "" + rest == rest;
    Append2(" ", authKey, rest);
  }

  /** The arguments' part of the first line, and the lines left for later. */
  method WriteArgs(args: seq<Arg>) returns (b: string, deferred: seq<(string, string)>)
    ensures b == ArgsText(args, "") && deferred == DeferredLines(args)
  {
    hide ArgsText, DeferredLines, Deferred, PairText;
    b, deferred := "", [];
    assert args[0..] == args;
    for i := 0 to |args|
      invariant b + ArgsText(args[i..], "") == ArgsText(args, "")
      invariant deferred + DeferredLines(args[i..]) == DeferredLines(args)
    {
      var a := args[i];
      var text := WritePair(a);
      ArgsTextStep(args, i);
      Append2(b, text, ArgsText(args[i + 1..], ""));
      b := b + text;
      if Deferred(a) { deferred := deferred + Keyed(a.name, a.lines); }
    }
    NoArgsLeft(args);
  }

  lemma NoArgsLeft(args: seq<Arg>)
    ensures ArgsText(args[|args|..], "") == "" && DeferredLines(args[|args|..]) == []
  {}

  lemma ArgsTextStep(args: seq<Arg>, i: nat)
    requires i < |args|
    ensures ArgsText(args[i..], "") == PairText(PairOf(args[i]), "") + ArgsText(args[i + 1..], "")
    ensures DeferredLines(args[i..]) ==
      (if Deferred(args[i]) then Keyed(args[i].name, args[i].lines) else []) + DeferredLines(args[i + 1..])
  {
    hide PairText, Deferred;
    assert args[i..][1..] == args[i + 1..];
    PairTextRest(PairOf(args[i]), ArgsText(args[i + 1..], ""));
  }

  /** One argument, by the three cases of its lines. */
  function WritePair(a: Arg): (text: string)
    ensures text == PairText(PairOf(a), "")
  {
    var text :=
      if |a.lines| == 0 then " " + a.name + ": " + EscapeArg("")
      else if |a.lines| > 1 || |a.lines[0]| + |a.name| > MAX_INLINE_VALUE then " " + a.name + "*: " + EscapeArg("")
      else " " + a.name + ": " + EscapeArg(a.lines[0]);
    assert text == PairText(PairOf(a), "") by { hide EscapeArg; }
    text
  }

  // ---------- Ordinary text ----------

  /** SendInband: text that would be read as a message is quoted. */
  method SendInband(enabled: bool, line: string) returns (text: string)
    ensures text == InbandText(enabled, line)
  {
    if enabled && PREFIX <= line { return QUOTE_PREFIX + line; }
    return line;
  }

  function InbandText(enabled: bool, line: string): string {
    if enabled && PREFIX <= line then QUOTE_PREFIX + line else line
  }

  /** Text is never read as a message by a frame in the sender's state. It is read back as
      itself exactly when it does not begin as a quotation; one that does loses its mark. */
  lemma InbandReadsBack(reg: Registry, st: State, line: string)
    requires st.enabled
    ensures
      var r := ReadLine(reg, st, InbandText(true, line));
      && r.Plain?
      && (r.text == line <==> !(QUOTE_PREFIX <= line))
      && (QUOTE_PREFIX <= line ==> r.text == line[|QUOTE_PREFIX|..])
  {
    hide ReadMessage;
    var text := InbandText(true, line);
    if PREFIX <= line {
      assert text[2] == '"' && line[2] == '#';
      assert text[|QUOTE_PREFIX|..] == line;
    }
  }
}
