/** Which words a "{...}" set accepts: those that one of its alternatives, read as a glob,
    accepts; or, with a caret, the others. */
module WordSets {
  import opened Text
  import opened Smatch
  import opened SmatchMeaning

  // ---------- How a set is written ----------

  /** No c stands in the text but behind a backslash, and no backslash at its end. */
  predicate Shut(a: Bytes, c: Byte)
    decreases |a|
  {
    a == [] || (a[0] != c && if a[0] == '\\' then |a| > 1 && Shut(a[2..], c) else Shut(a[1..], c))
  }

  /** A pattern that can be an alternative and holds no set of its own. */
  predicate Alternative(a: Bytes) {
    Shut(a, '|') && Shut(a, '}') && SetFree(Tokens(a))
  }

  function BarText(alts: seq<Bytes>): Bytes {
    if alts == [] then [] else if |alts| == 1 then alts[0] else alts[0] + ['|'] + BarText(alts[1..])
  }

  function SetText(alts: seq<Bytes>, inverted: bool): Bytes {
    ['{'] + (if inverted then ['^'] else []) + BarText(alts) + ['}']
  }

  /** What does not begin with a caret unless it means one. */
  predicate SetOf(alts: seq<Bytes>, inverted: bool) {
    && alts != [] && (forall k :: 0 <= k < |alts| ==> Alternative(alts[k]))
    && (inverted || BarText(alts) == [] || BarText(alts)[0] != '^')
  }

  /** The first c that is not escaped is the one after text that holds none. */
  lemma {:induction false} UnescapedAfter(a: Bytes, c: Byte, rest: Bytes)
    requires Shut(a, c) && c != '\\'
    ensures UnescapedIndex(a + [c] + rest, c, '\\') == |a|
    decreases |a|
  {
    var s := a + [c] + rest;
    if a != [] {
      var n := if a[0] == '\\' then 2 else 1;
      assert s[n..] == a[n..] + [c] + rest;
      UnescapedAfter(a[n..], c, rest);
    }
  }

  lemma {:induction false} NoneUnescaped(a: Bytes, c: Byte)
    requires Shut(a, c) && c != '\\'
    ensures UnescapedIndex(a, c, '\\') == -1
    decreases |a|
  {
    if a != [] { NoneUnescaped(a[if a[0] == '\\' then 2 else 1..], c); }
  }

  lemma {:induction false} ShutJoins(a: Bytes, b: Bytes, c: Byte)
    requires Shut(a, c) && Shut(b, c)
    ensures Shut(a + b, c)
    decreases |a|
  {
    if a == [] {
      assert a + b == b;
    } else {
      var n := if a[0] == '\\' then 2 else 1;
      assert (a + b)[n..] == a[n..] + b;
      ShutJoins(a[n..], b, c);
    }
  }

  lemma {:induction false} BarsShut(alts: seq<Bytes>)
    requires forall k :: 0 <= k < |alts| ==> Alternative(alts[k])
    ensures Shut(BarText(alts), '}')
  {
    hide Shut, Tokens;
    if alts == [] {
      NothingShut();
    } else if |alts| > 1 {
      BarsShut(alts[1..]);
      NothingShut();
      ShutJoins(alts[0], ['|'], '}');
      ShutJoins(alts[0] + ['|'], BarText(alts[1..]), '}');
    }
  }

  lemma NothingShut()
    ensures Shut([], '}') && Shut(['|'], '}') && Shut(['^'], '}')
  {}

  /** The set is read as what it was written from. */
  lemma SetReadsBack(alts: seq<Bytes>, inverted: bool, rest: Bytes)
    requires SetOf(alts, inverted)
    ensures
      var p := SetText(alts, inverted) + rest;
      FirstToken(p) == (WordSet(BarText(alts), inverted), |SetText(alts, inverted)|)
  {
    hide UnescapedIndex, Shut, BarText, Alternative;
    var body := BarText(alts);
    var marked := (if inverted then ['^'] else []) + body;
    BarsShut(alts);
    NothingShut();
    ShutJoins(if inverted then ['^'] else [], body, '}');
    assert Shut(marked, '}');
    var p := SetText(alts, inverted) + rest;
    assert p == ['{'] + (marked + ['}'] + rest);
    UnescapedAfter(marked, '}', rest);
    UnescapedNext('{', marked + ['}'] + rest, '}');
    SetBody(body, inverted, rest);
  }

  lemma UnescapedNext(x: Byte, s: Bytes, c: Byte)
    requires x != c && x != '\\' && UnescapedIndex(s, c, '\\') >= 0
    ensures UnescapedIndex([x] + s, c, '\\') == UnescapedIndex(s, c, '\\') + 1
  {
    assert ([x] + s)[1..] == s;
  }

  lemma SetBody(body: Bytes, inverted: bool, rest: Bytes)
    requires inverted || body == [] || body[0] != '^'
    ensures
      var marked := (if inverted then ['^'] else []) + body;
      var p := ['{'] + (marked + ['}'] + rest);
      && Inverted(p) == inverted
      && p[if inverted then 2 else 1..|marked| + 1] == body
      && p[|marked| + 1] == '}'
  {}

  // ---------- What it accepts ----------

  ghost predicate SomeGlob(alts: seq<Bytes>, w: Bytes) {
    exists k :: 0 <= k < |alts| && Glob(Tokens(alts[k]), w)
  }

  lemma {:induction false} AlternativesAreGlobs(alts: seq<Bytes>, w: Bytes)
    requires alts != [] && forall k :: 0 <= k < |alts| ==> Alternative(alts[k])
    ensures AnyAlternative(BarText(alts), w) <==> SomeGlob(alts, w)
    decreases |alts|
  {
    hide Matches, AnyAlternative, UnescapedIndex, Shut, Glob, Tokens, SetFree;
    var first, text := alts[0], BarText(alts);
    assert w[0..] == w;
    MatchesIsGlob(first, w, 0);
    AlternativeStep(text, w);
    if |alts| == 1 {
      NoneUnescaped(first, '|');
    } else {
      var more := BarText(alts[1..]);
      UnescapedAfter(first, '|', more);
      assert text[..|first|] == first && text[|first| + 1..] == more;
      AlternativesAreGlobs(alts[1..], w);
      assert SomeGlob(alts, w) <==> Glob(Tokens(first), w) || SomeGlob(alts[1..], w) by { SomeSplits(alts, w); }
    }
  }

  lemma SomeSplits(alts: seq<Bytes>, w: Bytes)
    requires alts != []
    ensures SomeGlob(alts, w) <==> Glob(Tokens(alts[0]), w) || SomeGlob(alts[1..], w)
  {
    hide Glob, Tokens;
    if SomeGlob(alts, w) {
      var k :| 0 <= k < |alts| && Glob(Tokens(alts[k]), w);
      if k > 0 { assert alts[1..][k - 1] == alts[k]; }
    }
    if SomeGlob(alts[1..], w) {
      var k :| 0 <= k < |alts[1..]| && Glob(Tokens(alts[1..][k]), w);
      assert alts[k + 1] == alts[1..][k];
    }
  }

  /** e is where the word that starts at si ends. */
  predicate WordAt(s: Bytes, si: nat, e: nat) {
    si <= e <= |s| && ' ' !in s[si..e] && (e == |s| || s[e] == ' ')
  }

  /** A set anywhere in a pattern, at any place in the subject: it must stand at the start of a
      word; that word must be one that some alternative accepts, or with a caret none; and the
      rest of the pattern goes on behind the word. There is no word at the end. */
  lemma SetAccepts(alts: seq<Bytes>, inverted: bool, rest: Bytes, s: Bytes, si: nat, e: nat)
    requires SetOf(alts, inverted) && WordAt(s, si, e)
    ensures Matches(SetText(alts, inverted) + rest, s, si) <==>
      && (si == 0 || s[si - 1] == ' ')
      && (si < |s| && SomeGlob(alts, s[si..e])) != inverted
      && Matches(rest, s, e)
  {
    hide Matches, FirstToken, SomeGlob, AnyAlternative, SetOf;
    var p := SetText(alts, inverted) + rest;
    SetReadsBack(alts, inverted, rest);
    MatchesSetStep(p, s, si);
    assert p[|SetText(alts, inverted)|..] == rest;
    WordEndIs(s, si, e);
    SetIsSome(alts, inverted, s[si..e]);
  }

  lemma SetIsSome(alts: seq<Bytes>, inverted: bool, w: Bytes)
    requires SetOf(alts, inverted)
    ensures AnyAlternative(BarText(alts), w) <==> SomeGlob(alts, w)
  {
    AlternativesAreGlobs(alts, w);
  }

  lemma {:induction false} WordEndIs(s: Bytes, si: nat, e: nat)
    requires WordAt(s, si, e)
    ensures WordEnd(s, si) == e
    decreases e - si
  {
    if si < e {
      assert s[si] in s[si..e] && s[si + 1..e] == s[si..e][1..];
      WordEndIs(s, si + 1, e);
    }
  }

  /** A pattern that is one set, on one word: true exactly when some alternative accepts the
      word, and with a caret exactly when none does. */
  method SetOnWord(alts: seq<Bytes>, inverted: bool, w: Bytes) returns (ok: bool)
    requires SetOf(alts, inverted) && w != [] && ' ' !in w
    ensures ok <==> SomeGlob(alts, w) != inverted
  {
    hide Matches, SetOf, SomeGlob;
    assert SetText(alts, inverted) + [] == SetText(alts, inverted) && w[0..|w|] == w;
    SetAccepts(alts, inverted, [], w, 0, |w|);
    MatchesNothing(w, |w|);
    ok := SMatch(w, SetText(alts, inverted));
  }

  /** The empty subject has no word, so only a set with a caret accepts it. */
  lemma SetOnNothing(alts: seq<Bytes>, inverted: bool)
    requires SetOf(alts, inverted)
    ensures Matches(SetText(alts, inverted), [], 0) <==> inverted
  {
    hide Matches, SetOf, SomeGlob;
    assert SetText(alts, inverted) + [] == SetText(alts, inverted);
    SetAccepts(alts, inverted, [], [], 0, 0);
    MatchesNothing([], 0);
  }

  // ---------- A set among stars ----------

  /** Some word of the subject is one the set accepts. */
  ghost predicate SomeWord(alts: seq<Bytes>, inverted: bool, s: Bytes) {
    exists b: nat, e: nat ::
      && WordAt(s, b, e) && (b == 0 || s[b - 1] == ' ')
      && (b < |s| && SomeGlob(alts, s[b..e])) != inverted
  }

  /** "*{...}*": true exactly when some word of the subject, at its start or behind a space,
      is one that the set accepts. */
  lemma AnyWordAccepted(alts: seq<Bytes>, inverted: bool, s: Bytes)
    requires SetOf(alts, inverted)
    ensures Matches(['*'] + SetText(alts, inverted) + ['*'], s, 0) <==> SomeWord(alts, inverted, s)
  {
    hide Matches, StarMatches, SetOf, SomeGlob, WordEnd, SetText, SomeWord;
    var words := SetText(alts, inverted) + ['*'];
    assert ['*'] + SetText(alts, inverted) + ['*'] == ['*'] + words;
    StarStep(words, s);
    SetStarts(alts, inverted);
    StarSetStep(words, s);
    if b: nat :| b <= |s| && (b == 0 || s[b - 1] == ' ') && Matches(words, s[b..], 0) {
      WordFrom(alts, inverted, s, b);
      WordIsSome(alts, inverted, s, b);
    }
    if SomeWord(alts, inverted, s) {
      var b := SomeIsWord(alts, inverted, s);
      WordFrom(alts, inverted, s, b);
    }
  }

  lemma SetStarts(alts: seq<Bytes>, inverted: bool)
    ensures SetText(alts, inverted) != [] && SetText(alts, inverted)[0] == '{'
  {}

  /** A set behind a star is tried where the subject starts and behind each space. */
  lemma StarSetStep(q: Bytes, s: Bytes)
    requires q != [] && q[0] == '{'
    ensures StarMatches(q, s, 0) <==>
      exists b: nat :: b <= |s| && (b == 0 || s[b - 1] == ' ') && Matches(q, s[b..], 0)
  {
    hide Matches;
    assert s[0..] == s;
    if b: nat :| b <= |s| && (b == 0 || s[b - 1] == ' ') && Matches(q, s[b..], 0) {
      if b > 0 {
        var k := b - 1;
        assert 0 <= k < |s| && s[k] == ' ' && Matches(q, s[k + 1..], 0);
      }
    }
    if StarMatches(q, s, 0) && !Matches(q, s, 0) {
      var k :| 0 <= k < |s| && s[k] == ' ' && Matches(q, s[k + 1..], 0);
      assert s[(k + 1) - 1] == ' ' && Matches(q, s[k + 1..], 0);
    }
  }

  lemma WordIsSome(alts: seq<Bytes>, inverted: bool, s: Bytes, b: nat)
    requires b <= |s| && (b == 0 || s[b - 1] == ' ') && AcceptsAt(alts, inverted, s, b)
    ensures SomeWord(alts, inverted, s)
  {
    hide SomeGlob, WordEnd;
    assert WordAt(s, b, WordEnd(s, b));
  }

  lemma SomeIsWord(alts: seq<Bytes>, inverted: bool, s: Bytes) returns (b: nat)
    requires SomeWord(alts, inverted, s)
    ensures b <= |s| && (b == 0 || s[b - 1] == ' ') && AcceptsAt(alts, inverted, s, b)
  {
    hide SomeGlob, WordEnd;
    var e: nat;
    b, e :|
      && WordAt(s, b, e) && (b == 0 || s[b - 1] == ' ')
      && (b < |s| && SomeGlob(alts, s[b..e])) != inverted;
    WordEndIs(s, b, e);
  }

  /** The word that starts at b is one the set accepts. */
  ghost predicate AcceptsAt(alts: seq<Bytes>, inverted: bool, s: Bytes, b: nat)
    requires b <= |s|
  {
    (b < |s| && SomeGlob(alts, s[b..WordEnd(s, b)])) != inverted
  }

  lemma StarStep(q: Bytes, s: Bytes)
    ensures Matches(['*'] + q, s, 0) == StarMatches(q, s, 0)
  {
    hide StarMatches;
    assert (['*'] + q)[1..] == q;
  }

  lemma WordFrom(alts: seq<Bytes>, inverted: bool, s: Bytes, b: nat)
    requires SetOf(alts, inverted) && b <= |s|
    ensures Matches(SetText(alts, inverted) + ['*'], s[b..], 0) <==> AcceptsAt(alts, inverted, s, b)
  {
    hide Matches, SetOf, SomeGlob, WordEnd;
    var e := WordEnd(s, b);
    var t := s[b..];
    assert t[0..e - b] == s[b..e];
    assert e < |s| ==> t[e - b] == s[e];
    assert ' ' !in s[b..e];
    SetAccepts(alts, inverted, ['*'], t, 0, e - b);
    StarAlone(t, e - b);
  }

  lemma StarAlone(s: Bytes, si: nat)
    requires si <= |s|
    ensures Matches(['*'], s, si)
  {}
}
