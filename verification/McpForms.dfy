/** The lines of a message in pieces: exactly which texts are read as a further line or as the
    end, and that without a message they belong to they are only text. */
module McpForms {
  import opened Text
  import opened Decimal
  import opened McpLex
  import opened McpMessage
  import opened McpFrame
  import opened McpSend

  predicate Blank(s: string) {
    s != "" && forall c :: c in s ==> IsSpace(c)
  }

  /** Blanks are skipped, and there must be one. */
  lemma SkipIff(s: string, rest: string)
    ensures SkipSpace(s) == Some(rest) <==>
      exists a :: Blank(a) && s == a + rest && (rest == "" || !IsSpace(rest[0]))
  {
    if a :| Blank(a) && s == a + rest && (rest == "" || !IsSpace(rest[0])) {
      SpanExact(a, rest, IsSpace);
      assert a[0] in a && s[0] == a[0] && s[|a|..] == rest;
    }
    if SkipSpace(s) == Some(rest) {
      var n := SpanLength(s, IsSpace);
      assert s == s[..n] + rest;
      assert Blank(s[..n]);
    }
  }

  ghost predicate ContinuationForm(s: string, tag: string, key: string, value: string, a: string, b: string) {
    && Blank(a) && Blank(b) && IsSimple(tag) && IsIdent(key)
    && s == "*" + (a + (tag + (b + (key + (": " + value)))))
  }

  lemma SimpleFront(tok: string, rest: string)
    requires IsSimple(tok)
    ensures tok + rest != "" && !IsSpace((tok + rest)[0])
  {
    assert (tok + rest)[0] == tok[0] && tok[0] in tok;
  }

  lemma BlankFront(a: string, rest: string)
    requires Blank(a)
    ensures a + rest != "" && !IsSimpleChar((a + rest)[0]) && !IsIdentChar((a + rest)[0])
  {
    assert (a + rest)[0] == a[0] && a[0] in a;
  }

  /** A further line of a message is a star, the tag, the key, a colon and one space, and then
      the value, whatever it is; blanks may only stand before the tag and the key. */
  lemma ContinuationIff(s: string, tag: string, key: string, value: string)
    ensures ReadContinuation(s) == Some(Continue(tag, key, value)) <==>
      exists a, b :: ContinuationForm(s, tag, key, value, a, b)
  {
    if a, b :| ContinuationForm(s, tag, key, value, a, b) { ContinuationRead(s, tag, key, value, a, b); }
    if ReadContinuation(s) == Some(Continue(tag, key, value)) {
      var a, b := ContinuationShape(s, tag, key, value);
    }
  }

  lemma ContinuationRead(s: string, tag: string, key: string, value: string, a: string, b: string)
    requires ContinuationForm(s, tag, key, value, a, b)
    ensures ReadContinuation(s) == Some(Continue(tag, key, value))
  {
    hide ReadUnquoted, ReadIdent, SkipSpace, IsSimple, IsIdent, Blank;
    var s4 := ": " + value;
    var s3 := key + s4;
    var s2 := b + s3;
    var s1 := tag + s2;
    assert s[1..] == a + s1;
    SimpleFront(tag, s2);
    SkipIff(a + s1, s1);
    BlankFront(b, s3);
    SimpleReadsBack(tag, s2);
    IdentHead(key, s4);
    SkipIff(s2, s3);
    MarkEndsIdent(s4);
    IdentReadsBack(key, s4);
    assert s4[2..] == value;
  }

  lemma ContinuationShape(s: string, tag: string, key: string, value: string) returns (a: string, b: string)
    requires ReadContinuation(s) == Some(Continue(tag, key, value))
    ensures ContinuationForm(s, tag, key, value, a, b)
  {
    hide SkipSpace, IsSimple, IsIdent, Blank, ReadUnquoted, ReadIdent;
    var s1 := SkipSpace(s[1..]).value;
    SkipIff(s[1..], s1);
    a :| Blank(a) && s[1..] == a + s1;
    var s2 := ReadUnquoted(s1).rest;
    var s3 := SkipSpace(s2).value;
    SkipIff(s2, s3);
    b :| Blank(b) && s2 == b + s3;
    var s4 := ReadIdent(s3).rest;
    assert s4 == ": " + value;
    assert s == "*" + s[1..];
  }

  /** The end of a message is a colon and its tag, with blanks between and nothing after. */
  lemma EndIff(s: string, tag: string)
    ensures ReadEnd(s) == Some(End(tag)) <==> IsSimple(tag) && exists a :: Blank(a) && s == ":" + (a + tag)
  {
    hide SkipSpace, IsSimple, Blank, ReadUnquoted;
    if IsSimple(tag) {
      if a :| Blank(a) && s == ":" + (a + tag) {
        SimpleFront(tag, "");
        assert tag + "" == tag && s[1..] == a + tag;
        SkipIff(a + tag, tag);
        SimpleReadsBack(tag, "");
      }
    }
    if ReadEnd(s) == Some(End(tag)) {
      var s1 := SkipSpace(s[1..]).value;
      SkipIff(s[1..], s1);
      var a :| Blank(a) && s[1..] == a + s1;
      assert s1 == tag + "" == tag && s == ":" + s[1..];
    }
  }

  /** A further line, or an end, for a tag under which nothing is arriving is text. */
  lemma StrayIsText(reg: Registry, st: State, s: string, tag: string, key: string, value: string)
    requires tag !in st.partial
    requires ReadContinuation(s) == Some(Continue(tag, key, value)) || ReadEnd(s) == Some(End(tag))
    ensures ReadLine(reg, st, PREFIX + s) == Plain(PREFIX + s)
  {
    hide ReadArgs, SplitPackage, SkipSpace, ReadUnquoted;
    assert (PREFIX + s)[|PREFIX|..] == s;
    assert s[0] == '*' || s[0] == ':';
    assert ReadIdent(s) == Missing;
  }

  // ---------- Versions ----------

  ghost predicate VersionForm(s: string, v: Version, major: string, minor: string, rest: string) {
    && s == major + ("." + (minor + rest))
    && major != "" && minor != "" && AllDigits(major) && AllDigits(minor)
    && (rest == "" || !IsDigit(rest[0]))
    && v == Version(Value(major), Value(minor)) && v.major < INT64_LIMIT && v.minor < INT64_LIMIT
  }

  lemma DigitsIff(s: string, digits: string, rest: string)
    requires s == digits + rest && digits != "" && AllDigits(digits) && (rest == "" || !IsDigit(rest[0]))
    ensures LeadingDigits(s) == if Value(digits) < INT64_LIMIT then Some((Value(digits), rest)) else None
  {
    SpanExact(digits, rest, IsDigit);
    assert s[..|digits|] == digits && s[|digits|..] == rest;
  }

  lemma DigitsShape(s: string) returns (digits: string, rest: string)
    requires LeadingDigits(s).Some?
    ensures s == digits + rest && digits != "" && AllDigits(digits) && (rest == "" || !IsDigit(rest[0]))
    ensures LeadingDigits(s) == Some((Value(digits), rest)) && Value(digits) < INT64_LIMIT
  {
    var n := SpanLength(s, IsDigit);
    digits, rest := s[..n], s[n..];
  }

  /** A version is two numbers of 64 bits with a point between, and anything but a digit after
      them. */
  lemma VersionIff(s: string, v: Version)
    ensures ParseVersion(s) == Some(v) <==>
      exists major, minor, rest :: VersionForm(s, v, major, minor, rest)
  {
    hide LeadingDigits, Value;
    if major, minor, rest :| VersionForm(s, v, major, minor, rest) {
      DigitsIff(s, major, "." + (minor + rest));
      assert ("." + (minor + rest))[1..] == minor + rest;
      DigitsIff(minor + rest, minor, rest);
    }
    if ParseVersion(s) == Some(v) {
      var major, after := DigitsShape(s);
      var minor, rest := DigitsShape(after[1..]);
      assert after == "." + (minor + rest);
      assert VersionForm(s, v, major, minor, rest);
    }
  }

  // ---------- Quoted values ----------

  /** One character of a quoted value as it is written: bare, or behind a backslash. */
  datatype Unit = Bare(c: char) | Escaped(c: char)

  predicate Written(us: seq<Unit>) {
    forall k :: 0 <= k < |us| ==> us[k].Bare? ==> us[k].c != '"' && us[k].c != '\\'
  }

  function UnitsText(us: seq<Unit>, rest: string): string {
    if us == [] then "\"" + rest
    else (if us[0].Bare? then [us[0].c] else ['\\', us[0].c]) + UnitsText(us[1..], rest)
  }

  function Meant(us: seq<Unit>): (v: string)
    ensures |v| == |us| && forall k :: 0 <= k < |us| ==> v[k] == us[k].c
  {
    seq(|us|, k requires 0 <= k < |us| => us[k].c)
  }

  lemma {:induction false} UnitsRead(us: seq<Unit>, rest: string)
    requires Written(us)
    ensures ReadQuotedBody(UnitsText(us, rest)) == Got(Meant(us), rest)
    decreases |us|
  {
    var s := UnitsText(us, rest);
    if us == [] {
      assert s[1..] == rest && Meant(us) == "";
    } else {
      var n := if us[0].Bare? then 1 else 2;
      assert s[n..] == UnitsText(us[1..], rest);
      UnitsRead(us[1..], rest);
      assert Meant(us) == [us[0].c] + Meant(us[1..]);
    }
  }

  lemma {:induction false} UnitsShape(s: string, v: string, rest: string) returns (us: seq<Unit>)
    requires ReadQuotedBody(s) == Got(v, rest)
    ensures Written(us) && s == UnitsText(us, rest) && v == Meant(us)
    decreases |s|
  {
    hide UnitsText, Meant;
    if s[0] == '"' {
      NoUnits(rest);
      us := [];
      assert s == "\"" + s[1..];
    } else {
      var skip := if s[0] == '\\' then 1 else 0;
      var tail := s[skip + 1..];
      QuotedStep(s);
      var more := UnitsShape(tail, ReadQuotedBody(tail).tok, rest);
      var u := if skip == 1 then Escaped(s[1]) else Bare(s[0]);
      us := [u] + more;
      FirstUnit(u, more, rest);
      if skip == 1 { assert s == ['\\', s[1]] + tail; } else { assert s == [s[0]] + tail; }
    }
  }

  lemma NoUnits(rest: string)
    ensures UnitsText([], rest) == "\"" + rest && Meant([]) == ""
  {}

  lemma FirstUnit(u: Unit, us: seq<Unit>, rest: string)
    ensures UnitsText([u] + us, rest) == (if u.Bare? then [u.c] else ['\\', u.c]) + UnitsText(us, rest)
    ensures Meant([u] + us) == [u.c] + Meant(us)
  {
    assert ([u] + us)[1..] == us;
  }

  /** A quoted value is a quote, characters bare or behind a backslash, and a quote that is
      neither; it means those characters. */
  lemma QuotedIff(s: string, v: string, rest: string)
    ensures ReadQuoted(s) == Got(v, rest) <==>
      exists us :: Written(us) && s == "\"" + UnitsText(us, rest) && v == Meant(us)
  {
    hide ReadQuotedBody, UnitsText, Meant;
    if us :| Written(us) && s == "\"" + UnitsText(us, rest) && v == Meant(us) {
      assert s[1..] == UnitsText(us, rest);
      UnitsRead(us, rest);
    }
    if ReadQuoted(s) == Got(v, rest) {
      var us := UnitsShape(s[1..], v, rest);
      assert s == "\"" + s[1..];
    }
  }

  ghost predicate PairForm(s: string, p: Pair, a: string, b: string, text: string, rest: string) {
    && Blank(a) && Blank(b) && IsIdent(p.key) && (text == "" || !IsSpace(text[0])) && ReadValue(text) == Got(p.value, rest)
    && s == a + (p.key + ((if p.deferred then "*:" else ":") + (b + text)))
  }

  /** A pair on a first line is its key, a star if its value comes later, a colon and the text of
      a value, with blanks before the key and before the value and nowhere else. */
  lemma PairIff(s: string, p: Pair, rest: string)
    ensures ReadPair(s) == Some((p, rest)) <==> exists a, b, text :: PairForm(s, p, a, b, text, rest)
  {
    if a, b, text :| PairForm(s, p, a, b, text, rest) { PairRead(s, p, a, b, text, rest); }
    if ReadPair(s) == Some((p, rest)) {
      var a, b, text := PairShape(s, p, rest);
    }
  }

  lemma PairRead(s: string, p: Pair, a: string, b: string, text: string, rest: string)
    requires PairForm(s, p, a, b, text, rest)
    ensures ReadPair(s) == Some((p, rest))
  {
    hide ReadIdent, ReadValue, SkipSpace, IsIdent, Blank;
    var mark := if p.deferred then "*:" else ":";
    var s1 := mark + (b + text);
    IdentHead(p.key, s1);
    SkipIff(s, p.key + s1);
    MarkEndsIdent(s1);
    IdentReadsBack(p.key, s1);
    assert s1[|mark|..] == b + text;
    assert p.deferred ==> s1[1..][1..] == b + text;
    SkipIff(b + text, text);
  }

  lemma PairShape(s: string, p: Pair, rest: string) returns (a: string, b: string, text: string)
    requires ReadPair(s) == Some((p, rest))
    ensures PairForm(s, p, a, b, text, rest)
  {
    hide ReadIdent, ReadValue, SkipSpace, IsIdent, Blank;
    var s0 := SkipSpace(s).value;
    SkipIff(s, s0);
    a :| Blank(a) && s == a + s0 && (s0 == "" || !IsSpace(s0[0]));
    var s1 := ReadIdent(s0).rest;
    var s2 := if p.deferred then s1[1..] else s1;
    text := SkipSpace(s2[1..]).value;
    SkipIff(s2[1..], text);
    b :| Blank(b) && s2[1..] == b + text && (text == "" || !IsSpace(text[0]));
    assert s2 == ":" + (b + text);
    if p.deferred { assert s1 == "*" + s2; assert "*" + (":" + (b + text)) == "*:" + (b + text); }
  }

  // ---------- Characters ----------

  const UPPER := "ABCDEFGHIJKLMNOPQRSTUVWXYZ"
  const LOWER := "abcdefghijklmnopqrstuvwxyz"
  const DIGITS := "0123456789"
  const MARKS := "!#$%&'()+,-./;<=>?@[]^_`{|}~"

  /** A bare word is made of these, and a name of these that may stand in one. */
  lemma CharactersAre(c: char)
    ensures IsIdentStart(c) <==> c in UPPER || c in LOWER || c == '_'
    ensures IsIdentChar(c) <==> c in UPPER || c in LOWER || c in DIGITS || c == '_' || c == '-'
    ensures IsSimpleChar(c) <==> c in UPPER || c in LOWER || c in DIGITS || c in MARKS
  {
    UpperAre(c);
    LowerAre(c);
    DigitsAre(c);
    MarksAre(c);
  }

  lemma UpperAre(c: char)
    ensures c in UPPER <==> 'A' <= c <= 'Z'
  {}

  lemma LowerAre(c: char)
    ensures c in LOWER <==> 'a' <= c <= 'z'
  {}

  lemma DigitsAre(c: char)
    ensures c in DIGITS <==> '0' <= c <= '9'
  {}

  lemma MarksAre(c: char)
    ensures c in MARKS <==>
      '!' <= c <= '~' && c !in {'*', ':', '\\', '"'} && !('0' <= c <= '9' || 'a' <= c <= 'z' || 'A' <= c <= 'Z')
  {}
}
