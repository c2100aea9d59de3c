/** Byte-level text helpers shared by the other modules: the C-locale character
    tests, and the two prefix scans every lexer here is made of. */
module Text {

  lemma Append2(a: string, b: string, c: string)
    ensures (a + b) + c == a + (b + c)
  {}

  lemma Append3(a: string, b: string, c: string, d: string)
    ensures ((a + b) + c) + d == a + (b + c + d)
  {}

  /** isspace() in the "C" locale. */
  predicate IsSpace(c: char) {
    c == ' ' || c == '\t' || c == '\n' || c == '\U{0B}' || c == '\U{0C}' || c == '\r'
  }

  predicate IsDigit(c: char) {
    '0' <= c <= '9'
  }

  /** ASCII lower-casing; every other character is left alone. */
  function Lower(c: char): (r: char)
    ensures !('A' <= r <= 'Z')
    ensures !('A' <= c <= 'Z') ==> r == c
  {
    if 'A' <= c <= 'Z' then c + ('a' - 'A') else c
  }

  function Fold(s: string): (r: string)
    ensures |r| == |s|
  {
    seq(|s|, i requires 0 <= i < |s| => Lower(s[i]))
  }

  predicate EqualFold(a: string, b: string) {
    |a| == |b| && forall i :: 0 <= i < |a| ==> Lower(a[i]) == Lower(b[i])
  }

  /** Length of the longest prefix of s whose characters all satisfy p. */
  function SpanLength(s: string, p: char -> bool): (n: nat)
    ensures n <= |s|
    ensures forall i :: 0 <= i < n ==> p(s[i])
    ensures n < |s| ==> !p(s[n])
  {
    if s == [] || !p(s[0]) then 0 else 1 + SpanLength(s[1..], p)
  }

  function SkipSpaces(s: string): (r: string)
    ensures |r| <= |s|
  {
    s[SpanLength(s, IsSpace)..]
  }

  function TrimRight(s: string): (r: string)
    ensures |r| <= |s| && r == s[..|r|]
    ensures r != [] ==> !IsSpace(r[|r| - 1])
  {
    if s == [] || !IsSpace(s[|s| - 1]) then s else TrimRight(s[..|s| - 1])
  }

  /** A span that is followed by a stopper is exactly the text before the stopper. */
  lemma {:induction false} SpanExact(w: string, rest: string, p: char -> bool)
    requires forall c :: c in w ==> p(c)
    requires rest == [] || !p(rest[0])
    ensures SpanLength(w + rest, p) == |w|
  {
    if w == [] {
      assert w + rest == rest;
    } else {
      assert w[0] in w && (w + rest)[1..] == w[1..] + rest;
      SpanExact(w[1..], rest, p);
    }
  }

  /** Index of the first c in s, or |s| when there is none. */
  function IndexOf(s: string, c: char): (n: nat)
    ensures n <= |s|
    ensures c !in s[..n]
    ensures n < |s| ==> s[n] == c
  {
    if s == [] || s[0] == c then 0 else 1 + IndexOf(s[1..], c)
  }

  lemma {:induction false} IndexOfExact(w: string, c: char, rest: string)
    requires c !in w
    ensures IndexOf(w + [c] + rest, c) == |w|
  {
    if w == [] {
      assert (w + [c] + rest)[0] == c;
    } else {
      assert w[0] in w && (w + [c] + rest)[1..] == w[1..] + [c] + rest;
      IndexOfExact(w[1..], c, rest);
    }
  }

  lemma {:induction false} IndexOfAbsent(s: string, c: char)
    requires c !in s
    ensures IndexOf(s, c) == |s|
  {
    if s != [] {
      assert s[0] in s;
      IndexOfAbsent(s[1..], c);
    }
  }

  /** Cutting at the first c gives what stands before it and what stands after. */
  lemma CutExact(w: string, c: char, rest: string)
    requires c !in w
    ensures
      var s := w + [c] + rest;
      IndexOf(s, c) == |w| && s[..|w|] == w && s[|w| + 1..] == rest
  {
    IndexOfExact(w, c, rest);
  }

  /** strings.TrimSpace. */
  function TrimSpace(s: string): (r: string)
    ensures |r| <= |s|
  {
    TrimRight(SkipSpaces(s))
  }

  lemma TrimNothing(s: string)
    requires s == [] || (!IsSpace(s[0]) && !IsSpace(s[|s| - 1]))
    ensures TrimSpace(s) == s
  {}

  /** strings.Split at one character: what stands between its occurrences. */
  function SplitAt(s: string, c: char): (r: seq<string>)
    ensures r != []
    ensures forall k :: 0 <= k < |r| ==> c !in r[k]
    decreases |s|
  {
    var n := IndexOf(s, c);
    if n == |s| then
      assert s == s[..n];
      [s]
    else [s[..n]] + SplitAt(s[n + 1..], c)
  }

  /** strings.Join. */
  function Join(parts: seq<string>, c: char): string {
    if parts == [] then "" else if |parts| == 1 then parts[0] else parts[0] + [c] + Join(parts[1..], c)
  }

  lemma SplitStep(s: string, c: char)
    ensures
      var n := IndexOf(s, c);
      SplitAt(s, c) == if n == |s| then [s] else [s[..n]] + SplitAt(s[n + 1..], c)
  {
    hide IndexOf;
  }

  lemma {:induction false} SplitOfJoin(parts: seq<string>, c: char)
    requires parts != [] && forall k :: 0 <= k < |parts| ==> c !in parts[k]
    ensures SplitAt(Join(parts, c), c) == parts
    decreases |parts|
  {
    hide SplitAt, IndexOf;
    var first := parts[0];
    SplitStep(Join(parts, c), c);
    if |parts| == 1 {
      IndexOfAbsent(first, c);
      assert parts == [first];
    } else {
      var more := Join(parts[1..], c);
      CutExact(first, c, more);
      SplitOfJoin(parts[1..], c);
    }
  }

  /** Each line with its newline. */
  function TextOf(lines: seq<string>): string {
    if lines == [] then "" else lines[0] + "\n" + TextOf(lines[1..])
  }

  lemma {:induction false} TextOfAppend(a: seq<string>, b: seq<string>)
    ensures TextOf(a + b) == TextOf(a) + TextOf(b)
  {
    if a == [] {
      assert a + b == b && TextOf(a) + TextOf(b) == TextOf(b);
    } else {
      assert (a + b)[1..] == a[1..] + b;
      TextOfAppend(a[1..], b);
      Append2(a[0] + "\n", TextOf(a[1..]), TextOf(b));
    }
  }

  lemma TextOfOne(s: string)
    ensures TextOf([s]) == s + "\n"
  {
    assert TextOf([s]) == s + "\n" + "";
  }

  /** Lines with their newlines are the lines joined, and one newline more. */
  lemma {:induction false} TextOfIsJoin(lines: seq<string>)
    requires lines != []
    ensures TextOf(lines) == Join(lines, '\n') + "\n"
    decreases |lines|
  {
    if |lines| == 1 {
      assert lines == [lines[0]];
      TextOfOne(lines[0]);
    } else {
      TextOfIsJoin(lines[1..]);
      Append2(lines[0] + "\n", Join(lines[1..], '\n'), "\n");
    }
  }

  /** Splitting such text at newlines gives the lines, and an empty one at the end. */
  lemma {:induction false} SplitOfText(lines: seq<string>)
    requires forall k :: 0 <= k < |lines| ==> '\n' !in lines[k]
    ensures SplitAt(TextOf(lines), '\n') == lines + [""]
  {
    hide SplitAt, IndexOf;
    SplitStep(TextOf(lines), '\n');
    if lines == [] {
      IndexOfAbsent("", '\n');
    } else {
      var first, more := lines[0], TextOf(lines[1..]);
      CutExact(first, '\n', more);
      SplitOfText(lines[1..]);
      assert lines + [""] == [first] + (lines[1..] + [""]);
    }
  }

  lemma {:induction false} SplitAvoids(s: string, sep: char, c: char)
    requires c !in s
    ensures forall k :: 0 <= k < |SplitAt(s, sep)| ==> c !in SplitAt(s, sep)[k]
    decreases |s|
  {
    var n := IndexOf(s, sep);
    assert forall x :: x in s[..n] ==> x in s;
    if n < |s| {
      assert forall x :: x in s[n + 1..] ==> x in s;
      SplitAvoids(s[n + 1..], sep, c);
    }
  }

  lemma JoinOne(first: string, c: char)
    ensures Join([first], c) == first
  {}

  lemma JoinStep(first: string, rest: seq<string>, c: char)
    requires rest != []
    ensures Join([first] + rest, c) == first + [c] + Join(rest, c)
  {
    assert ([first] + rest)[1..] == rest;
  }

  lemma CutBack(s: string, n: nat, c: char)
    requires n < |s| && s[n] == c
    ensures s == s[..n] + [c] + s[n + 1..]
  {}

  /** Joining what was split gives the text back. */
  lemma {:induction false} JoinOfSplit(s: string, c: char)
    ensures Join(SplitAt(s, c), c) == s
    decreases |s|
  {
    hide SplitAt, Join, IndexOf;
    var n := IndexOf(s, c);
    SplitStep(s, c);
    if n == |s| {
      JoinOne(s, c);
    } else {
      var rest := s[n + 1..];
      JoinOfSplit(rest, c);
      JoinStep(s[..n], SplitAt(rest, c), c);
      CutBack(s, n, c);
    }
  }

  // ---------- Line endings ----------

  /** strings.ReplaceAll of "\r\n" by "\n". */
  function Unreturn(s: string): (r: string)
    ensures |r| <= |s|
  {
    if |s| < 2 then s
    else if s[0] == '\r' && s[1] == '\n' then "\n" + Unreturn(s[2..])
    else [s[0]] + Unreturn(s[1..])
  }

  /** A carriage return before a newline. */
  predicate ReturnAt(s: string, k: int) {
    0 <= k < |s| - 1 && s[k] == '\r' && s[k + 1] == '\n'
  }

  ghost predicate NoReturns(s: string) {
    forall k :: !ReturnAt(s, k)
  }

  lemma NoReturnsStep(s: string)
    requires s != []
    ensures NoReturns(s) <==> !ReturnAt(s, 0) && NoReturns(s[1..])
  {
    var rest := s[1..];
    if NoReturns(s) {
      forall k ensures !ReturnAt(rest, k) { assert !ReturnAt(s, k + 1); }
    }
    if !ReturnAt(s, 0) && NoReturns(rest) {
      forall k ensures !ReturnAt(s, k) { assert !ReturnAt(rest, k - 1); }
    }
  }

  lemma NoReturnsShort(s: string)
    requires |s| < 2
    ensures NoReturns(s)
  {}

  /** Only text without one keeps its length. */
  lemma {:induction false} UnreturnKeeps(s: string)
    ensures NoReturns(s) <==> |Unreturn(s)| == |s|
    ensures NoReturns(s) ==> Unreturn(s) == s
  {
    hide NoReturns;
    if |s| < 2 {
      NoReturnsShort(s);
    } else {
      NoReturnsStep(s);
      if !ReturnAt(s, 0) {
        UnreturnKeeps(s[1..]);
        assert s == [s[0]] + s[1..];
      }
    }
  }

  lemma {:induction false} UnreturnEnds(s: string)
    requires s != [] && s[|s| - 1] == '\n'
    ensures Unreturn(s) != [] && Unreturn(s)[|Unreturn(s)| - 1] == '\n'
  {
    if |s| < 2 {
    } else if s[0] == '\r' && s[1] == '\n' {
      if |s| > 2 { UnreturnEnds(s[2..]); }
    } else {
      UnreturnEnds(s[1..]);
    }
  }

  /** strings.ReplaceAll of "\r" by "\n". */
  function NewlinesOnly(s: string): (r: string)
    ensures |r| == |s|
  {
    seq(|s|, i requires 0 <= i < |s| => if s[i] == '\r' then '\n' else s[i])
  }

  /** Every line ending, of whichever kind, as a newline. */
  function Normalise(s: string): (r: string)
    ensures '\r' !in r
  {
    NewlinesOnly(Unreturn(s))
  }
}
