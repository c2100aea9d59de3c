/** The tokens of MCP lines: what each reader takes, and that quoting is undone exactly. */
module McpLex {
  import opened Text
  import opened Decimal

  /** A token and the text after it, or nothing. */
  datatype Read = Got(tok: string, rest: string) | Missing

  predicate IsIdentStart(c: char) {
    'a' <= c <= 'z' || 'A' <= c <= 'Z' || c == '_'
  }

  predicate IsIdentChar(c: char) {
    IsIdentStart(c) || IsDigit(c) || c == '-'
  }

  /** Printable ASCII other than the characters that mean something to the parser. */
  predicate IsSimpleChar(c: char) {
    '\U{20}' < c < '\U{7F}' && c != '*' && c != ':' && c != '\\' && c != '"'
  }

  predicate IsIdent(s: string) {
    s != "" && IsIdentStart(s[0]) && forall c :: c in s ==> IsIdentChar(c)
  }

  predicate IsSimple(s: string) {
    s != "" && forall c :: c in s ==> IsSimpleChar(c)
  }

  function ReadIdent(s: string): (r: Read)
    ensures r.Got? ==> IsIdent(r.tok) && s == r.tok + r.rest
  {
    if s == "" || !IsIdentStart(s[0]) then Missing
    else
      var n := SpanLength(s, IsIdentChar);
      assert n > 0;
      assert forall c :: c in s[..n] ==> IsIdentChar(c);
      Got(s[..n], s[n..])
  }

  function ReadUnquoted(s: string): (r: Read)
    ensures r.Got? ==> IsSimple(r.tok) && s == r.tok + r.rest
  {
    var n := SpanLength(s, IsSimpleChar);
    assert forall c :: c in s[..n] ==> IsSimpleChar(c);
    if n == 0 then Missing else Got(s[..n], s[n..])
  }

  /** What follows an opening quote: a backslash takes the next character as it is. */
  function ReadQuotedBody(s: string): (r: Read)
    ensures r.Got? ==> |r.rest| < |s|
  {
    if s == "" then Missing
    else if s[0] == '"' then Got("", s[1..])
    else
      var skip := if s[0] == '\\' then 1 else 0;
      if skip >= |s| then Missing
      else match ReadQuotedBody(s[skip + 1..])
        case Missing => Missing
        case Got(tok, rest) => Got([s[skip]] + tok, rest)
  }

  function ReadQuoted(s: string): (r: Read)
    ensures r.Got? ==> |r.rest| < |s|
  {
    if s == "" || s[0] != '"' then Missing else ReadQuotedBody(s[1..])
  }

  /** One or more spaces. */
  function SkipSpace(s: string): (r: Option<string>)
    ensures r.Some? ==> |r.value| < |s|
  {
    if s == "" || !IsSpace(s[0]) then None else Some(SkipSpaces(s))
  }

  // ---------- The cursor loops ----------

  method ScanIdent(s: string) returns (r: Read)
    ensures r == ReadIdent(s)
  {
    if s == "" || !IsIdentStart(s[0]) { return Missing; }
    var i := 1;
    ghost var n := SpanLength(s, IsIdentChar);
    while i < |s| && IsIdentChar(s[i])
      invariant 1 <= i <= n
    {
      i := i + 1;
    }
    return Got(s[..i], s[i..]);
  }

  method ScanUnquoted(s: string) returns (r: Read)
    ensures r == ReadUnquoted(s)
  {
    var i := 0;
    ghost var n := SpanLength(s, IsSimpleChar);
    while i < |s| && IsSimpleChar(s[i])
      invariant 0 <= i <= n
    {
      i := i + 1;
    }
    if i == 0 { return Missing; }
    return Got(s[..i], s[i..]);
  }

  lemma QuotedStep(s: string)
    requires s != "" && s[0] != '"'
    ensures s[0] == '\\' && |s| == 1 ==> ReadQuotedBody(s) == Missing
    ensures s[0] == '\\' && |s| > 1 ==> ReadQuotedBody(s) == Prepend([s[1]], ReadQuotedBody(s[2..]))
    ensures s[0] != '\\' ==> ReadQuotedBody(s) == Prepend([s[0]], ReadQuotedBody(s[1..]))
  {}

  function Prepend(t: string, r: Read): Read {
    match r
    case Missing => Missing
    case Got(tok, rest) => Got(t + tok, rest)
  }

  lemma PrependPrepend(a: string, b: string, r: Read)
    ensures Prepend(a, Prepend(b, r)) == Prepend(a + b, r)
  {
    if r.Got? { assert a + (b + r.tok) == a + b + r.tok; }
  }

  method ScanQuoted(s: string) returns (r: Read)
    ensures r == ReadQuoted(s)
  {
    if s == "" || s[0] != '"' { return Missing; }
    var b, i := "", 1;
    assert Prepend("", ReadQuotedBody(s[1..])) == ReadQuotedBody(s[1..]);
    while i < |s|
      invariant 1 <= i <= |s|
      invariant ReadQuoted(s) == Prepend(b, ReadQuotedBody(s[i..]))
    {
      if s[i] == '"' {
        assert s[i..][1..] == s[i + 1..];
        return Got(b, s[i + 1..]);
      }
      QuotedStep(s[i..]);
      if s[i] == '\\' {
        i := i + 1;
        if i < |s| {
          PrependPrepend(b, [s[i]], ReadQuotedBody(s[i + 1..]));
          assert s[i - 1..][2..] == s[i + 1..];
          b, i := b + [s[i]], i + 1;
        }
      } else {
        PrependPrepend(b, [s[i]], ReadQuotedBody(s[i + 1..]));
        assert s[i..][1..] == s[i + 1..];
        b, i := b + [s[i]], i + 1;
      }
    }
    return Missing;
  }

  // ---------- Quoting ----------

  function EscapeBody(s: string): string {
    if s == "" then ""
    else (if s[0] == '"' || s[0] == '\\' then ['\\', s[0]] else [s[0]]) + EscapeBody(s[1..])
  }

  /** A value as a quoted MCP string. */
  function EscapeArg(s: string): string {
    ['"'] + EscapeBody(s) + ['"']
  }

  method WriteEscaped(s: string) returns (b: string)
    ensures b == EscapeArg(s)
  {
    b := ['"'];
    assert s[0..] == s;
    for i := 0 to |s|
      invariant b + EscapeBody(s[i..]) == ['"'] + EscapeBody(s)
    {
      assert s[i..][1..] == s[i + 1..];
      if s[i] == '"' || s[i] == '\\' { b := b + ['\\']; }
      b := b + [s[i]];
    }
    b := b + ['"'];
  }

  /** Reading a quoted value gives back the value and leaves whatever follows it. */
  lemma {:induction false} QuotedReadsBack(s: string, suffix: string)
    ensures ReadQuotedBody(EscapeBody(s) + ['"'] + suffix) == Got(s, suffix)
  {
    var text := EscapeBody(s) + ['"'] + suffix;
    if s == "" {
      assert text == ['"'] + suffix && text[1..] == suffix;
    } else {
      var tail := EscapeBody(s[1..]) + ['"'] + suffix;
      QuotedReadsBack(s[1..], suffix);
      EscapedHead(s, suffix);
      QuotedStep(text);
      assert [s[0]] + s[1..] == s;
    }
  }

  /** The first character of a value, escaped or not, and the rest of the quoted text. */
  lemma EscapedHead(s: string, suffix: string)
    requires s != ""
    ensures
      var text, tail := EscapeBody(s) + ['"'] + suffix, EscapeBody(s[1..]) + ['"'] + suffix;
      if s[0] == '"' || s[0] == '\\' then
        |text| > 1 && text[0] == '\\' && text[1] == s[0] && text[2..] == tail
      else text != [] && text[0] == s[0] && text[1..] == tail
  {
    var body := EscapeBody(s[1..]);
    var head := if s[0] == '"' || s[0] == '\\' then ['\\', s[0]] else [s[0]];
    Append3(head, body, ['"'], suffix);
    SplitHead(head, body + ['"'] + suffix);
  }

  lemma SplitHead(head: string, tail: string)
    ensures (head + tail)[..|head|] == head && (head + tail)[|head|..] == tail
    ensures forall i :: 0 <= i < |head| ==> (head + tail)[i] == head[i]
  {}

  lemma EscapeReadsBack(s: string, suffix: string)
    ensures ReadQuoted(EscapeArg(s) + suffix) == Got(s, suffix)
  {
    QuotedReadsBack(s, suffix);
    assert (EscapeArg(s) + suffix)[1..] == EscapeBody(s) + ['"'] + suffix;
  }

  /** A token is read whole when what follows it could not continue it. */
  lemma IdentReadsBack(s: string, suffix: string)
    requires IsIdent(s) && (suffix == "" || !IsIdentChar(suffix[0]))
    ensures ReadIdent(s + suffix) == Got(s, suffix)
  {
    SpanExact(s, suffix, IsIdentChar);
    assert (s + suffix)[..|s|] == s && (s + suffix)[|s|..] == suffix;
  }

  lemma SimpleReadsBack(s: string, suffix: string)
    requires IsSimple(s) && (suffix == "" || !IsSimpleChar(suffix[0]))
    ensures ReadUnquoted(s + suffix) == Got(s, suffix)
  {
    SpanExact(s, suffix, IsSimpleChar);
    assert (s + suffix)[..|s|] == s && (s + suffix)[|s|..] == suffix;
  }

  lemma OneSpace(s: string)
    requires s == "" || !IsSpace(s[0])
    ensures SkipSpace([' '] + s) == Some(s)
  {
    assert ([' '] + s)[1..] == s;
  }
}
