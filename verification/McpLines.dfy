/** Whatever the values of a message hold, each text it is written as is one line. */
module McpLines {
  import opened McpLex
  import opened McpMessage
  import opened McpFrame
  import opened McpSend
  import opened Text

  predicate OneLine(s: string) {
    '\n' !in s && '\r' !in s
  }

  lemma TokensAreOneLine(s: string)
    requires IsIdent(s) || IsSimple(s)
    ensures OneLine(s)
  {}

  lemma {:induction false} EscapedIsOneLine(s: string)
    requires OneLine(s)
    ensures OneLine(EscapeBody(s))
  {
    if s != "" { EscapedIsOneLine(s[1..]); }
  }

  lemma ConcatIsOneLine(a: string, b: string)
    requires OneLine(a) && OneLine(b)
    ensures OneLine(a + b)
  {}

  predicate OneLineValues(args: seq<Arg>) {
    forall i, j :: 0 <= i < |args| && 0 <= j < |args[i].lines| ==> OneLine(args[i].lines[j])
  }

  /** Breaking values into lines leaves no line ending in any of them. */
  lemma {:induction false} SplitIsOneLine(lines: seq<string>)
    ensures forall k :: 0 <= k < |SplitLines(lines)| ==> OneLine(SplitLines(lines)[k])
  {
    if lines != [] {
      SplitIsOneLine(lines[1..]);
      SplitAvoids(Normalise(lines[0]), '\n', '\r');
    }
  }

  lemma SplitArgsAreOneLine(args: seq<Arg>)
    ensures OneLineValues(SplitArgs(args))
  {
    hide OneLine, SplitLines;
    forall i, j | 0 <= i < |args| && 0 <= j < |SplitArgs(args)[i].lines| ensures OneLine(SplitArgs(args)[i].lines[j]) {
      SplitIsOneLine(args[i].lines);
    }
  }

  lemma PairIsOneLine(a: Arg, rest: string)
    requires IsIdent(a.name) && OneLineValues([a]) && OneLine(rest)
    ensures OneLine(PairText(PairOf(a), rest))
  {
    assert OneLine(Inline(a)) by {
      if !Deferred(a) && a.lines != [] { assert [a][0].lines[0] == a.lines[0]; }
    }
    EscapedIsOneLine(Inline(a));
    TokensAreOneLine(a.name);
  }

  lemma {:induction false} ArgsAreOneLine(args: seq<Arg>, rest: string)
    requires OneLineValues(args) && OneLine(rest)
    requires forall i :: 0 <= i < |args| ==> IsIdent(args[i].name)
    ensures OneLine(ArgsText(args, rest))
  {
    hide OneLine, IsIdent, PairText;
    if args != [] {
      assert OneLineValues([args[0]]);
      assert OneLineValues(args[1..]) by {
        forall i, j | 0 <= i < |args[1..]| && 0 <= j < |args[1..][i].lines| ensures OneLine(args[1..][i].lines[j]) {
          assert args[1..][i] == args[i + 1];
        }
      }
      ArgsAreOneLine(args[1..], rest);
      PairIsOneLine(args[0], ArgsText(args[1..], rest));
    }
  }

  lemma {:induction false} DeferredAreOneLine(args: seq<Arg>)
    requires OneLineValues(args) && forall i :: 0 <= i < |args| ==> IsIdent(args[i].name)
    ensures forall k :: 0 <= k < |DeferredLines(args)| ==>
      IsIdent(DeferredLines(args)[k].0) && OneLine(DeferredLines(args)[k].1)
  {
    hide OneLine, IsIdent, Deferred;
    if args != [] {
      assert OneLineValues(args[1..]) by {
        forall i, j | 0 <= i < |args[1..]| && 0 <= j < |args[1..][i].lines| ensures OneLine(args[1..][i].lines[j]) {
          assert args[1..][i] == args[i + 1];
        }
      }
      DeferredAreOneLine(args[1..]);
    }
  }

  lemma FirstIsOneLine(reg: Registry, m: Msg, authKey: string, tag: string)
    requires WireMessage(reg, m, authKey, tag) && OneLineValues(m.args)
    ensures OneLine(FirstText(m, authKey, tag))
  {
    hide ArgsText, SplitPackage, OneLineValues, OneLine, IsIdent, IsSimple, FullName, AnyDeferred, TagText;
    var name, tail := FullName(m), if AnyDeferred(m.args) then TagText(tag) else "";
    var args := ArgsText(m.args, tail);
    FixedIsOneLine(tag);
    TokensAreOneLine(name);
    TokensAreOneLine(authKey);
    ArgsAreOneLine(m.args, tail);
    ConcatIsOneLine(authKey, args);
    ConcatIsOneLine(" ", authKey + args);
    ConcatIsOneLine(name, KeyText(name, authKey, args));
    ConcatIsOneLine(PREFIX, name + KeyText(name, authKey, args));
  }

  lemma FixedIsOneLine(tag: string)
    requires IsSimple(tag)
    ensures OneLine(PREFIX) && OneLine(" ") && OneLine("") && OneLine(TagText(tag))
  {}

  /** However many line endings, of whatever kind, the values held, nothing that is sent
      for the message can be taken for two lines. */
  lemma TextsAreLines(reg: Registry, m: Msg, authKey: string, tag: string)
    requires var split := m.(args := SplitArgs(m.args)); WireMessage(reg, split, authKey, tag)
    ensures
      var texts := MessageTexts(m.(args := SplitArgs(m.args)), authKey, tag);
      forall k :: 0 <= k < |texts| ==> OneLine(texts[k])
  {
    hide WireMessage, OneLineValues, SplitArgs, FirstText, DeferredLines;
    var split := m.(args := SplitArgs(m.args));
    SplitArgsAreOneLine(m.args);
    FirstIsOneLine(reg, split, authKey, tag);
    WireTokens(reg, split, authKey, tag);
    DeferredAreOneLine(split.args);
    forall key, line | IsIdent(key) && OneLine(line) ensures OneLine(ContinuationText(tag, key, line)) {
      TokensAreOneLine(key);
    }
  }

  lemma WireTokens(reg: Registry, m: Msg, authKey: string, tag: string)
    requires WireMessage(reg, m, authKey, tag)
    ensures OneLine(tag) && forall i :: 0 <= i < |m.args| ==> IsIdent(m.args[i].name)
  {
    TokensAreOneLine(tag);
  }
}
