/** What the wildcard search means: a textbook glob outside word sets, and how a word set
    anchors itself to whole words. */
module SmatchMeaning {
  import opened Text
  import opened Smatch

  /** A pattern read as a list of symbols. Never is a class or set with no end, or a
      backslash with nothing after it: such a pattern matches nothing. */
  datatype Token =
    | Lit(ch: Byte)
    | AnyOne
    | Star
    | Class(body: Bytes)
    | WordSet(list: Bytes, inverted: bool)
    | Never

  /** The first symbol of a pattern, and how many bytes it takes. */
  function FirstToken(p: Bytes): (r: (Token, nat))
    requires p != []
    ensures 0 < r.1 <= |p|
  {
    if p[0] == '\\' then if |p| > 1 then (Lit(p[1]), 2) else (Never, 1)
    else if p[0] == '?' then (AnyOne, 1)
    else if p[0] == '*' then (Star, 1)
    else if p[0] == '[' then
      var end := UnescapedIndex(p, ']', '\\');
      if end < 0 then (Never, |p|) else (Class(p[1..end]), end + 1)
    else if p[0] == '{' then
      var end := UnescapedIndex(p, '}', '\\');
      if end < 0 then (Never, |p|) else (WordSet(SetList(p, end), Inverted(p)), end + 1)
    else (Lit(p[0]), 1)
  }

  function Tokens(p: Bytes): (toks: seq<Token>)
    ensures toks == [] <==> p == []
  {
    if p == [] then [] else [FirstToken(p).0] + Tokens(p[FirstToken(p).1..])
  }

  predicate SetFree(toks: seq<Token>) {
    forall k :: 0 <= k < |toks| ==> !toks[k].WordSet?
  }

  // ---------- The glob ----------

  /** The words one symbol stands for. */
  predicate Denotes(t: Token, w: Bytes) {
    match t
    case Lit(ch) => |w| == 1 && Lower(w[0]) == Lower(ch)
    case AnyOne => |w| == 1
    case Star => true
    case Class(body) => |w| == 1 && ClassAccepts(body, w[0])
    case WordSet(_, _) => false
    case Never => false
  }

  function Concat(pieces: seq<Bytes>): Bytes {
    if pieces == [] then [] else pieces[0] + Concat(pieces[1..])
  }

  /** A subject cut into one piece per symbol, each piece a word of its symbol. */
  predicate Cuts(toks: seq<Token>, s: Bytes, pieces: seq<Bytes>) {
    && |pieces| == |toks|
    && Concat(pieces) == s
    && forall k :: 0 <= k < |toks| ==> Denotes(toks[k], pieces[k])
  }

  ghost predicate Glob(toks: seq<Token>, s: Bytes) {
    exists pieces :: Cuts(toks, s, pieces)
  }

  /** The glob, one symbol at a time: its first piece is some prefix of the subject. */
  lemma GlobSplits(toks: seq<Token>, s: Bytes)
    ensures toks == [] ==> (Glob(toks, s) <==> s == [])
    ensures toks != [] ==> (Glob(toks, s) <==>
      exists k :: 0 <= k <= |s| && Denotes(toks[0], s[..k]) && Glob(toks[1..], s[k..]))
  {
    hide Cuts, Denotes, Concat;
    if toks == [] {
      NoCuts(s);
      return;
    }
    if Glob(toks, s) {
      var pieces :| Cuts(toks, s, pieces);
      CutsStep(toks, s, pieces);
      assert Glob(toks[1..], s[|pieces[0]|..]);
    }
    forall k | 0 <= k <= |s| && Denotes(toks[0], s[..k]) && Glob(toks[1..], s[k..])
      ensures Glob(toks, s)
    {
      var rest :| Cuts(toks[1..], s[k..], rest);
      CutsStep(toks, s, [s[..k]] + rest);
    }
  }

  lemma NoCuts(s: Bytes)
    ensures Glob([], s) <==> s == []
  {
    if s == [] { assert Cuts([], s, []); }
  }

  /** A cutting is a first piece and a cutting of what is left. */
  lemma CutsStep(toks: seq<Token>, s: Bytes, pieces: seq<Bytes>)
    requires toks != []
    ensures Cuts(toks, s, pieces) <==>
      && pieces != [] && |pieces[0]| <= |s| && s[..|pieces[0]|] == pieces[0]
      && Denotes(toks[0], pieces[0]) && Cuts(toks[1..], s[|pieces[0]|..], pieces[1..])
  {
    hide Denotes;
    if pieces != [] && |pieces[0]| <= |s| && s[..|pieces[0]|] == pieces[0] {
      assert s == pieces[0] + s[|pieces[0]|..];
    }
  }

  lemma GlobSymbol(toks: seq<Token>, s: Bytes)
    requires toks != [] && !toks[0].Star?
    ensures Glob(toks, s) <==> s != [] && Denotes(toks[0], s[..1]) && Glob(toks[1..], s[1..])
  {
    GlobSplits(toks, s);
  }

  lemma GlobStar(toks: seq<Token>, s: Bytes)
    requires toks != [] && toks[0].Star?
    ensures Glob(toks, s) <==> exists k :: 0 <= k <= |s| && Glob(toks[1..], s[k..])
  {
    GlobSplits(toks, s);
  }

  /** Star followed by rest, from a cursor: rest matches at some later position. */
  ghost predicate GlobLater(toks: seq<Token>, s: Bytes, si: nat)
    requires si <= |s|
  {
    exists k :: si <= k <= |s| && Glob(toks, s[k..])
  }

  lemma GlobStarAt(toks: seq<Token>, s: Bytes, si: nat)
    requires toks != [] && toks[0].Star? && si <= |s|
    ensures Glob(toks, s[si..]) <==> GlobLater(toks[1..], s, si)
  {
    GlobStar(toks, s[si..]);
    forall k | 0 <= k <= |s| - si ensures s[si..][k..] == s[si + k..] {}
    if GlobLater(toks[1..], s, si) {
      var k :| si <= k <= |s| && Glob(toks[1..], s[k..]);
      assert s[si..][k - si..] == s[k..];
    }
  }

  /** The search accepts exactly what the glob accepts, from any cursor. */
  lemma {:induction false} MatchesIsGlob(p: Bytes, s: Bytes, si: nat)
    requires si <= |s| && SetFree(Tokens(p))
    ensures Matches(p, s, si) <==> Glob(Tokens(p), s[si..])
    decreases |p|, 0
  {
    hide Matches, StarMatches, FirstToken, Tokens, Glob, GlobLater, Denotes;
    var toks := Tokens(p);
    if p == [] {
      MatchesNothing(s, si);
      GlobSplits(toks, s[si..]);
      return;
    }
    var (t, n) := FirstToken(p);
    TokensStep(p);
    if t.Star? {
      MatchesStarStep(p, s, si);
      StarIsGlob(p[1..], s, si);
      GlobStarAt(toks, s, si);
    } else {
      GlobSymbol(toks, s[si..]);
      MatchesSymbol(p, s, si);
      if si < |s| {
        assert s[si..][..1] == [s[si]] && s[si..][1..] == s[si + 1..];
        MatchesIsGlob(p[n..], s, si + 1);
      }
    }
  }

  lemma TokensStep(p: Bytes)
    requires p != []
    ensures Tokens(p) != [] && Tokens(p)[0] == FirstToken(p).0 && Tokens(p)[1..] == Tokens(p[FirstToken(p).1..])
  {
    hide FirstToken;
  }

  lemma MatchesNothing(s: Bytes, si: nat)
    requires si <= |s|
    ensures Matches([], s, si) <==> si == |s|
  {}

  lemma MatchesStarStep(p: Bytes, s: Bytes, si: nat)
    requires p != [] && FirstToken(p).0.Star? && si <= |s|
    ensures FirstToken(p).1 == 1 && Matches(p, s, si) == StarMatches(p[1..], s, si)
  {
    hide StarMatches, UnescapedIndex;
  }

  lemma MatchesSetStep(p: Bytes, s: Bytes, si: nat)
    requires p != [] && FirstToken(p).0.WordSet? && si <= |s|
    ensures
      var (t, n) := FirstToken(p);
      && |t.list| < |p|
      && Matches(p, s, si) == (
           && AtWord(s, si) && WordMatches(t.list, s, si) != t.inverted
           && Matches(p[n..], s, WordEnd(s, si)))
  {
    hide StarMatches, UnescapedIndex, WordMatches, AtWord, WordEnd, ClassAccepts;
  }

  /** One step of the search over anything but a star or a set. */
  lemma MatchesSymbol(p: Bytes, s: Bytes, si: nat)
    requires p != [] && si <= |s|
    requires !FirstToken(p).0.Star? && !FirstToken(p).0.WordSet?
    ensures
      var (t, n) := FirstToken(p);
      Matches(p, s, si) <==> si < |s| && Denotes(t, [s[si]]) && Matches(p[n..], s, si + 1)
  {
    hide StarMatches, UnescapedIndex, WordMatches, AtWord, WordEnd, ClassAccepts, Lower;
  }

  lemma {:induction false} StarIsGlob(q: Bytes, s: Bytes, si: nat)
    requires si <= |s| && SetFree(Tokens(q))
    ensures StarMatches(q, s, si) <==> GlobLater(Tokens(q), s, si)
    decreases |q|, 1
  {
    hide Matches, Tokens, Glob, Denotes, UnescapedIndex;
    var toks := Tokens(q);
    if q == [] {
      GlobSplits(toks, s[|s|..]);
      return;
    }
    var (t, n) := FirstToken(q);
    TokensStep(q);
    if t.Star? {
      StarIsGlob(q[1..], s, si);
      TwoStars(toks, s, si);
    } else if q[0] == '?' {
      if si < |s| { StarIsGlob(q[1..], s, si + 1); }
      StarThenAny(toks, s, si);
    } else if q[0] == '{' {
      NeverMatches(q, s, si);
    } else {
      forall k | si <= k <= |s|
        ensures Matches(q, s[k..], 0) <==> Glob(toks, s[k..])
      {
        assert s[k..][0..] == s[k..];
        MatchesIsGlob(q, s[k..], 0);
      }
    }
  }

  /** A second star adds nothing. */
  lemma TwoStars(toks: seq<Token>, s: Bytes, si: nat)
    requires toks != [] && toks[0].Star? && si <= |s|
    ensures GlobLater(toks, s, si) <==> GlobLater(toks[1..], s, si)
  {
    forall k | si <= k <= |s|
      ensures Glob(toks, s[k..]) <==> GlobLater(toks[1..], s, k)
    {
      GlobStarAt(toks, s, k);
    }
  }

  /** A '?' after a star eats one byte before the rest is looked for. */
  lemma StarThenAny(toks: seq<Token>, s: Bytes, si: nat)
    requires toks != [] && toks[0] == AnyOne && si <= |s|
    ensures GlobLater(toks, s, si) <==> si < |s| && GlobLater(toks[1..], s, si + 1)
  {
    forall k | si <= k <= |s|
      ensures Glob(toks, s[k..]) <==> k < |s| && Glob(toks[1..], s[k + 1..])
    {
      GlobSymbol(toks, s[k..]);
      if k < |s| { assert s[k..][1..] == s[k + 1..]; }
    }
    if GlobLater(toks, s, si) {
      var k :| si <= k <= |s| && Glob(toks, s[k..]);
      assert Glob(toks[1..], s[k + 1..]);
    }
    if si < |s| && GlobLater(toks[1..], s, si + 1) {
      var k :| si + 1 <= k <= |s| && Glob(toks[1..], s[k..]);
      assert Glob(toks, s[k - 1..]);
    }
  }

  /** An unterminated set refuses everything, after a star too. */
  lemma NeverMatches(q: Bytes, s: Bytes, si: nat)
    requires q != [] && q[0] == '{' && FirstToken(q).0 == Never && si <= |s|
    ensures !StarMatches(q, s, si) && !GlobLater(Tokens(q), s, si)
  {
    forall k | si <= k <= |s| ensures !Glob(Tokens(q), s[k..]) {
      GlobSymbol(Tokens(q), s[k..]);
    }
  }

  /** The whole function: for a pattern with no word set, the server's answer is the glob's. */
  method SMatchIsGlob(s: Bytes, pattern: Bytes) returns (ok: bool)
    requires SetFree(Tokens(pattern))
    ensures ok <==> Glob(Tokens(pattern), s)
  {
    assert s[0..] == s;
    MatchesIsGlob(pattern, s, 0);
    ok := SMatch(s, pattern);
  }

  /** A pattern without the byte '{' has no word set. */
  lemma {:induction false} NoBraceNoSet(p: Bytes)
    requires '{' !in p
    ensures SetFree(Tokens(p))
  {
    if p != [] {
      var (t, n) := FirstToken(p);
      assert p[0] in p && forall c :: c in p[n..] ==> c in p;
      NoBraceNoSet(p[n..]);
      assert Tokens(p) == [t] + Tokens(p[n..]);
    }
  }

  // ---------- Word sets ----------

  /** A set that passes started at a word and leaves the cursor at a space or at the end,
      whether it matched its word or was told to refuse it. */
  lemma SetConsumesWord(p: Bytes, s: Bytes, si: nat)
    requires p != [] && FirstToken(p).0.WordSet? && si <= |s|
    ensures Matches(p, s, si) ==>
      && AtWord(s, si)
      && var e := WordEnd(s, si);
         (e == |s| || s[e] == ' ') && ' ' !in s[si..e] && Matches(p[FirstToken(p).1..], s, e)
  {
    hide Matches, FirstToken, WordMatches, WordEnd;
    MatchesSetStep(p, s, si);
  }

  /** Somewhere in the pattern a set is followed at once by a literal that is no space. */
  predicate SetThenLiteral(toks: seq<Token>, k: nat) {
    k + 1 < |toks| && toks[k].WordSet? && toks[k + 1].Lit? && toks[k + 1].ch != ' '
  }

  /** Such a pattern matches no subject at all. */
  lemma {:induction false} SetThenLiteralMatchesNothing(p: Bytes, k: nat, s: Bytes, si: nat)
    requires si <= |s| && SetThenLiteral(Tokens(p), k)
    ensures !Matches(p, s, si)
    decreases |p|, 0
  {
    hide Matches, StarMatches, FirstToken, Tokens, WordEnd, AtWord;
    var (t, n) := FirstToken(p);
    TokensStep(p);
    if k == 0 {
      SetConsumesWord(p, s, si);
      var e := WordEnd(s, si);
      TokensStep(p[n..]);
      MatchesSymbol(p[n..], s, e);
    } else {
      assert SetThenLiteral(Tokens(p[n..]), k - 1);
      if t.Star? {
        MatchesStarStep(p, s, si);
        StarSetThenLiteral(p[1..], k - 1, s, si);
      } else if t.WordSet? {
        SetConsumesWord(p, s, si);
        SetThenLiteralMatchesNothing(p[n..], k - 1, s, WordEnd(s, si));
      } else {
        MatchesSymbol(p, s, si);
        if si < |s| { SetThenLiteralMatchesNothing(p[n..], k - 1, s, si + 1); }
      }
    }
  }

  lemma {:induction false} StarSetThenLiteral(q: Bytes, k: nat, s: Bytes, si: nat)
    requires si <= |s| && SetThenLiteral(Tokens(q), k)
    ensures !StarMatches(q, s, si)
    decreases |q|, 1
  {
    hide Matches, Tokens, UnescapedIndex;
    var (t, n) := FirstToken(q);
    TokensStep(q);
    if q[0] == '*' {
      StarSetThenLiteral(q[1..], k - 1, s, si);
    } else if q[0] == '?' {
      if si < |s| { StarSetThenLiteral(q[1..], k - 1, s, si + 1); }
    } else {
      forall j | si <= j <= |s| ensures !Matches(q, s[j..], 0) {
        SetThenLiteralMatchesNothing(q, k, s[j..], 0);
      }
      if si == 0 { SetThenLiteralMatchesNothing(q, k, s, 0); }
    }
  }

  // ---------- Letter case ----------

  function FoldBytes(s: Bytes): (r: Bytes)
    ensures |r| == |s| && forall i :: 0 <= i < |s| ==> r[i] == Lower(s[i])
  {
    seq(|s|, i requires 0 <= i < |s| => Lower(s[i]))
  }

  lemma {:induction false} WordEndFolds(s: Bytes, si: nat)
    requires si <= |s|
    ensures WordEnd(FoldBytes(s), si) == WordEnd(s, si)
    decreases |s| - si
  {
    if si < |s| && s[si] != ' ' { WordEndFolds(s, si + 1); }
  }

  /** The letter case of the subject never matters, in sets, classes and searches alike. */
  lemma {:induction false} SubjectCaseIgnored(p: Bytes, s: Bytes, si: nat)
    requires si <= |s|
    ensures Matches(p, FoldBytes(s), si) <==> Matches(p, s, si)
    decreases |p|, 0
  {
    hide Matches, StarMatches, FirstToken, WordEnd, FoldBytes, AtWord, WordMatches, Denotes, Lower;
    if p == [] {
      MatchesNothing(s, si);
      MatchesNothing(FoldBytes(s), si);
      return;
    }
    var (t, n) := FirstToken(p);
    if t.Star? {
      MatchesStarStep(p, s, si);
      MatchesStarStep(p, FoldBytes(s), si);
      StarCaseIgnored(p[1..], s, si);
    } else if t.WordSet? {
      MatchesSetStep(p, s, si);
      MatchesSetStep(p, FoldBytes(s), si);
      WordCaseIgnored(t.list, s, si);
      SubjectCaseIgnored(p[n..], s, WordEnd(s, si));
    } else {
      MatchesSymbol(p, s, si);
      MatchesSymbol(p, FoldBytes(s), si);
      if si < |s| {
        DenotesFolded(t, s[si], FoldBytes(s)[si]);
        SubjectCaseIgnored(p[n..], s, si + 1);
      }
    }
  }

  lemma DenotesFolded(t: Token, c: Byte, low: Byte)
    requires low == Lower(c)
    ensures Denotes(t, [low]) <==> Denotes(t, [c])
  {
    hide AnyHits, ClassItems;
  }

  /** Folding moves no word, and changes none of its matches. */
  lemma {:induction false} WordCaseIgnored(list: Bytes, s: Bytes, si: nat)
    requires si <= |s|
    ensures WordEnd(FoldBytes(s), si) == WordEnd(s, si) && AtWord(FoldBytes(s), si) == AtWord(s, si)
    ensures WordMatches(list, FoldBytes(s), si) <==> WordMatches(list, s, si)
    decreases |list|, 3
  {
    hide WordEnd, AnyAlternative;
    WordEndFolds(s, si);
    AtWordFolds(s, si);
    var e := WordEnd(s, si);
    assert FoldBytes(s)[si..e] == FoldBytes(s[si..e]);
    AlternativesCaseIgnored(list, s[si..e]);
  }

  lemma AtWordFolds(s: Bytes, si: nat)
    requires si <= |s|
    ensures AtWord(FoldBytes(s), si) == AtWord(s, si)
  {}

  lemma {:induction false} AlternativesCaseIgnored(list: Bytes, word: Bytes)
    ensures AnyAlternative(list, FoldBytes(word)) <==> AnyAlternative(list, word)
    decreases |list|, 2
  {
    hide Matches, AnyAlternative, UnescapedIndex, FoldBytes;
    var bar := UnescapedIndex(list, '|', '\\');
    AlternativeStep(list, word);
    AlternativeStep(list, FoldBytes(word));
    if bar < 0 {
      SubjectCaseIgnored(list, word, 0);
    } else {
      SubjectCaseIgnored(list[..bar], word, 0);
      AlternativesCaseIgnored(list[bar + 1..], word);
    }
  }

  lemma {:induction false} StarCaseIgnored(q: Bytes, s: Bytes, si: nat)
    requires si <= |s|
    ensures StarMatches(q, FoldBytes(s), si) <==> StarMatches(q, s, si)
    decreases |q|, 1
  {
    hide Matches, UnescapedIndex;
    if q == [] {
    } else if q[0] == '*' {
      StarCaseIgnored(q[1..], s, si);
    } else if q[0] == '?' {
      if si < |s| { StarCaseIgnored(q[1..], s, si + 1); }
    } else {
      forall k | 0 <= k <= |s|
        ensures Matches(q, FoldBytes(s)[k..], 0) <==> Matches(q, s[k..], 0)
      {
        assert FoldBytes(s)[k..] == FoldBytes(s[k..]);
        SubjectCaseIgnored(q, s[k..], 0);
      }
      assert s[0..] == s && FoldBytes(s)[0..] == FoldBytes(s);
    }
  }

  // ---------- Classes ----------

  /** What an item of a class stands for, letter case aside. */
  predicate Means(item: ClassItem, c: Byte) {
    match item
    case One(ch) => Lower(ch) == Lower(c)
    case Span(from, to) => exists b: Byte :: from <= b as int <= to && Lower(b) == Lower(c)
  }

  function ItemsOf(body: Bytes): seq<ClassItem> {
    ClassItems(if body != [] && body[0] == '^' then body[1..] else body)
  }

  /** A class in which no range ends at byte 255 accepts exactly what its items stand for, or
      exactly the rest when it is inverted. */
  lemma ClassMeaning(body: Bytes, c: Byte)
    requires forall k :: 0 <= k < |ItemsOf(body)| && ItemsOf(body)[k].Span? ==> ItemsOf(body)[k].to < 255
    ensures ClassAccepts(body, c) <==>
      ((body != [] && body[0] == '^') != exists k :: 0 <= k < |ItemsOf(body)| && Means(ItemsOf(body)[k], c))
  {
    hide ClassItems;
    var items := ItemsOf(body);
    forall k | 0 <= k < |items| ensures Hits(items[k], Lower(c)) <==> Means(items[k], c) {
      SameItem(items[k], c, Lower(c));
    }
  }

  lemma SameItem(item: ClassItem, c: Byte, low: Byte)
    requires low == Lower(c) && (item.Span? ==> item.to < 255)
    ensures Hits(item, low) <==> Means(item, c)
  {
    hide Lower;
  }

  /** A class as one would write it: bytes and ranges. */
  datatype Element = Single(ch: Byte) | Range(lo: Byte, hi: Byte)

  function ElementText(e: Element): Bytes {
    match e
    case Single(ch) => [ch]
    case Range(lo, hi) => [lo, '-', hi]
  }

  function ElementsText(es: seq<Element>): Bytes {
    if es == [] then [] else ElementText(es[0]) + ElementsText(es[1..])
  }

  /** Neither a dash nor an escape begins it, and a range is the right way round and ends
      below byte 255. */
  predicate PlainElement(e: Element) {
    match e
    case Single(ch) => ch != '-' && ch != '\\'
    case Range(lo, hi) => lo != '-' && lo != '\\' && lo <= hi && (hi as int) < 255
  }

  predicate Covers(e: Element, c: Byte) {
    match e
    case Single(ch) => Lower(ch) == Lower(c)
    case Range(lo, hi) => exists b: Byte :: lo <= b <= hi && Lower(b) == Lower(c)
  }

  predicate SomeCovers(es: seq<Element>, c: Byte) {
    exists k :: 0 <= k < |es| && Covers(es[k], c)
  }

  lemma SomeCoversStep(es: seq<Element>, c: Byte)
    requires es != []
    ensures SomeCovers(es, c) <==> Covers(es[0], c) || SomeCovers(es[1..], c)
  {
    hide Covers;
    if k :| 0 <= k < |es| && Covers(es[k], c) {
      if k > 0 { assert es[1..][k - 1] == es[k]; }
    }
    if k :| 0 <= k < |es[1..]| && Covers(es[1..][k], c) { assert es[k + 1] == es[1..][k]; }
  }

  /** A single byte read where it stands. */
  lemma SingleRead(before: Bytes, ch: Byte, rest: Bytes, c: Byte, low: Byte)
    requires PlainElement(Single(ch)) && low == Lower(c)
    ensures
      var body := before + [ch] + rest;
      AnyHits(ItemsFrom(body, |before|), low) <==>
        Covers(Single(ch), c) || AnyHits(ItemsFrom(body, |before| + 1), low)
  {
    hide Lower, AnyHits;
    var body := before + [ch] + rest;
    assert body[|before|] == ch;
    AnyHitsCons(One(ch), ItemsFrom(body, |before| + 1), low);
  }

  lemma RangeItems(body: Bytes, i: nat, lo: Byte, hi: Byte)
    requires PlainElement(Range(lo, hi))
    requires i + 2 < |body| && body[i] == lo && body[i + 1] == '-' && body[i + 2] == hi
    ensures ItemsFrom(body, i) == [One(lo)] + ItemsFrom(body, i + 1)
    ensures ItemsFrom(body, i + 1) == [Span(lo as int, hi as int)] + ItemsFrom(body, i + 3)
  {
    hide ItemAt;
    RangeItem(body, i, lo, hi);
  }

  lemma RangeItem(body: Bytes, i: nat, lo: Byte, hi: Byte)
    requires PlainElement(Range(lo, hi))
    requires i + 2 < |body| && body[i] == lo && body[i + 1] == '-' && body[i + 2] == hi
    ensures ItemAt(body, i) == (One(lo), i + 1) && ItemAt(body, i + 1) == (Span(lo as int, hi as int), i + 3)
  {}

  /** A range read where it stands: its lower end, and then all of it. */
  lemma RangeRead(before: Bytes, lo: Byte, hi: Byte, rest: Bytes, c: Byte, low: Byte)
    requires PlainElement(Range(lo, hi)) && low == Lower(c)
    ensures
      var body := before + [lo, '-', hi] + rest;
      AnyHits(ItemsFrom(body, |before|), low) <==>
        Covers(Range(lo, hi), c) || AnyHits(ItemsFrom(body, |before| + 3), low)
  {
    hide Lower, AnyHits, ItemsFrom;
    var body := before + [lo, '-', hi] + rest;
    assert body[|before|] == lo && body[|before| + 1] == '-' && body[|before| + 2] == hi;
    RangeItems(body, |before|, lo, hi);
    AnyHitsCons(Span(lo as int, hi as int), ItemsFrom(body, |before| + 3), low);
    AnyHitsCons(One(lo), ItemsFrom(body, |before| + 1), low);
  }

  lemma {:induction false} ElementsRead(before: Bytes, es: seq<Element>, c: Byte, low: Byte)
    requires low == Lower(c) && forall k :: 0 <= k < |es| ==> PlainElement(es[k])
    ensures AnyHits(ItemsFrom(before + ElementsText(es), |before|), low) <==> SomeCovers(es, c)
    decreases |es|
  {
    hide Lower, Covers, PlainElement, ItemsFrom, SomeCovers, AnyHits;
    if es == [] {
      assert before + ElementsText(es) == before;
      NothingHits(before, c, low);
    } else {
      var rest := ElementsText(es[1..]);
      var text := ElementText(es[0]);
      SomeCoversStep(es, c);
      assert before + ElementsText(es) == before + text + rest;
      ElementsRead(before + text, es[1..], c, low);
      match es[0]
      case Single(ch) => SingleRead(before, ch, rest, c, low);
      case Range(lo, hi) => RangeRead(before, lo, hi, rest, c, low);
    }
  }

  lemma NothingHits(body: Bytes, c: Byte, low: Byte)
    ensures !AnyHits(ItemsFrom(body, |body|), low) && !SomeCovers([], c)
  {}

  /** A class written as bytes and ranges accepts exactly the bytes it covers, and with a caret
      before it exactly the others. */
  lemma WrittenClass(es: seq<Element>, c: Byte)
    requires es != [] && forall k :: 0 <= k < |es| ==> PlainElement(es[k])
    ensures ElementsText(es)[..1] != ['^'] ==> (ClassAccepts(ElementsText(es), c) <==> SomeCovers(es, c))
    ensures ClassAccepts(['^'] + ElementsText(es), c) <==> !SomeCovers(es, c)
  {
    hide Covers, ItemsFrom, SomeCovers, AnyHits;
    var body := ElementsText(es);
    FirstIsPlain(es);
    ElementsRead([], es, c, Lower(c));
    assert [] + body == body;
    assert (['^'] + body)[1..] == body;
  }

  lemma FirstIsPlain(es: seq<Element>)
    requires es != [] && PlainElement(es[0])
    ensures ElementsText(es) != [] && ElementsText(es)[0] != '-'
  {}

  /** A range that ends at byte 255 makes its class accept every byte, or none if inverted. */
  lemma TopRangeAcceptsAll(body: Bytes, k: nat, c: Byte)
    requires body != []
    requires
      var items := ClassItems(if body[0] == '^' then body[1..] else body);
      k < |items| && items[k].Span? && items[k].to == 255
    ensures ClassAccepts(body, c) <==> body[0] != '^'
  {}

  /** So the class of the bytes from 'a' to the last accepts a space. */
  lemma TopRangeTakesSpace()
    ensures ClassAccepts(['a', '-', 255 as char], ' ')
  {
    var body: Bytes := ['a', '-', 255 as char];
    assert ItemsFrom(body, 3) == [];
    assert ItemsFrom(body, 1) == [Span('a' as int, 255)];
    assert ClassItems(body) == [One('a'), Span('a' as int, 255)];
    TopRangeAcceptsAll(body, 1, ' ');
  }
}
