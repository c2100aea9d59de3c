/** Ordering names with numbers in them the way a person expects: by the numbers, not their
    characters. */
module Alphanum {
  import opened Decimal
  import opened Text

  /** More digits than this are ordered by how many there are. */
  const MAX_EXACT: nat := 8

  /** The character at a place, NUL beyond either end. */
  function At(s: string, i: int): char {
    if 0 <= i < |s| then s[i] else '\0'
  }

  /** How far two strings agree but for case. */
  function Common(a: string, b: string): (n: nat)
    ensures n <= |a| && n <= |b|
    ensures forall k :: 0 <= k < n ==> Lower(a[k]) == Lower(b[k])
    ensures n < |a| && n < |b| ==> Lower(a[n]) != Lower(b[n])
  {
    if a == [] || b == [] || Lower(a[0]) != Lower(b[0]) then 0 else 1 + Common(a[1..], b[1..])
  }

  function BackOver(s: string, i: nat): (n: nat)
    ensures n <= i
  {
    if i > 0 && At(s, i) == '0' then BackOver(s, i - 1) else i
  }

  /** Where the numbers begin, once zeros have been backed over. */
  function Start(a: string, b: string, at: nat): (n: nat)
    ensures IsDigit(At(a, at)) ==> n <= at
  {
    var i := if at > 0 && At(b, at) == '0' then at - 1 else at;
    var k := BackOver(a, i);
    if IsDigit(At(a, k)) then k else k + 1
  }

  /** The digits from a place on. */
  function Run(s: string, i: nat): (r: string)
    requires i <= |s|
    ensures AllDigits(r)
  {
    s[i..][..SpanLength(s[i..], IsDigit)]
  }

  function Compare(a: string, b: string): int {
    var at := Common(a, b);
    if !(IsDigit(At(a, at)) && IsDigit(At(b, at))) then Lower(At(a, at)) as int - Lower(At(b, at)) as int
    else
      var k := Start(a, b, at);
      CompareRuns(Run(a, k), Run(b, k), At(a, at) as int - At(b, at) as int)
  }

  /** Two runs of digits, and the difference of the first characters that differ. */
  function CompareRuns(x: string, y: string, apart: int): int
    requires AllDigits(x) && AllDigits(y)
  {
    if |x| > MAX_EXACT || |y| > MAX_EXACT then
      if |x| == |y| then apart else |x| - |y|
    else if Value(x) != 0 && Value(y) != 0 && Value(x) != Value(y) then Value(x) - Value(y)
    else apart
  }

  lemma RunStep(s: string, i: nat, j: nat)
    requires i <= j < |s| && IsDigit(s[j]) && AllDigits(s[i..j])
    ensures AllDigits(s[i..j + 1]) && Value(s[i..j + 1]) == 10 * Value(s[i..j]) + DigitValue(s[j])
  {
    assert s[i..j + 1] == s[i..j] + [s[j]];
  }

  lemma RunEnds(s: string, i: nat, j: nat)
    requires i <= j <= |s| && AllDigits(s[i..j]) && !IsDigit(At(s, j))
    ensures Run(s, i) == s[i..j]
  {
    assert s[i..] == s[i..j] + s[j..];
    SpanExact(s[i..j], s[j..], IsDigit);
  }

  /** The number at a place and how many digits it has. */
  method ReadNumber(s: string, from: nat) returns (n: nat, count: nat)
    requires from <= |s|
    ensures n == Value(Run(s, from)) && count == |Run(s, from)|
  {
    n, count := 0, 0;
    var i := from;
    assert s[from..from] == "";
    while i < |s| && IsDigit(s[i])
      invariant from <= i <= |s| && count == i - from
      invariant AllDigits(s[from..i]) && n == Value(s[from..i])
    {
      RunStep(s, from, i);
      count := count + 1;
      n := n * 10 + DigitValue(s[i]);
      i := i + 1;
    }
    RunEnds(s, from, i);
  }

  method FindStart(a: string, b: string, at: nat) returns (i: nat)
    ensures i == Start(a, b, at)
  {
    i := at;
    if i > 0 && At(b, i) == '0' { i := i - 1; }
    ghost var from := i;
    while i > 0 && At(a, i) == '0'
      invariant i <= from && BackOver(a, from) == BackOver(a, i)
    {
      i := i - 1;
    }
    if !IsDigit(At(a, i)) { i := i + 1; }
  }

  method FindCommon(a: string, b: string) returns (i: nat)
    ensures i == Common(a, b)
  {
    i := 0;
    while i < |a| && i < |b| && Lower(a[i]) == Lower(b[i])
      invariant i <= |a| && i <= |b|
      invariant Common(a, b) == i + Common(a[i..], b[i..])
    {
      assert a[i..][1..] == a[i + 1..] && b[i..][1..] == b[i + 1..];
      i := i + 1;
    }
  }

  method AlphanumCompare(a: string, b: string) returns (r: int)
    ensures r == Compare(a, b)
  {
    hide Run, Value, Start, Common, Lower;
    var i := FindCommon(a, b);
    if !(IsDigit(At(a, i)) && IsDigit(At(b, i))) {
      return Lower(At(a, i)) as int - Lower(At(b, i)) as int;
    }
    var at := i;
    StartInside(a, b);
    i := FindStart(a, b, at);
    var n1, count1 := ReadNumber(a, i);
    var n2, count2 := ReadNumber(b, i);
    if count1 > MAX_EXACT || count2 > MAX_EXACT {
      if count1 == count2 { return At(a, at) as int - At(b, at) as int; }
      return count1 as int - count2 as int;
    }
    if n1 != 0 && n2 != 0 && n1 != n2 { return n1 as int - n2 as int; }
    return At(a, at) as int - At(b, at) as int;
  }

  // ---------- Symmetry ----------

  lemma {:induction false} CommonIs(a: string, b: string, n: nat)
    requires n <= |a| && n <= |b|
    requires forall k :: 0 <= k < n ==> Lower(a[k]) == Lower(b[k])
    requires n < |a| && n < |b| ==> Lower(a[n]) != Lower(b[n])
    ensures Common(a, b) == n
  {
    hide Lower;
    if n > 0 { CommonIs(a[1..], b[1..], n - 1); }
  }

  lemma CommonSymmetric(a: string, b: string)
    ensures Common(a, b) == Common(b, a)
  {
    CommonIs(b, a, Common(a, b));
  }

  lemma {:induction false} BackOverAgrees(a: string, b: string, i: nat)
    requires i < |a| && i < |b| && forall k :: 0 <= k <= i ==> Lower(a[k]) == Lower(b[k])
    ensures BackOver(a, i) == BackOver(b, i)
    ensures IsDigit(At(a, BackOver(a, i))) <==> IsDigit(At(b, BackOver(b, i)))
  {
    if i > 0 { BackOverAgrees(a, b, i - 1); }
  }

  /** Only one of the two can have the zero that is backed over first, and it makes no
      difference which is asked about. */
  lemma StartSymmetric(a: string, b: string)
    requires var at := Common(a, b); IsDigit(At(a, at)) && IsDigit(At(b, at))
    ensures Start(a, b, Common(a, b)) == Start(b, a, Common(a, b))
  {
    var at := Common(a, b);
    hide IsDigit, Lower;
    DigitsDiffer(a, b, at);
    if at > 0 { BackOverAgrees(a, b, at - 1); }
  }

  lemma DigitsDiffer(a: string, b: string, at: nat)
    requires at == Common(a, b) && IsDigit(At(a, at)) && IsDigit(At(b, at))
    ensures at < |a| && at < |b| && a[at] != b[at]
    ensures at > 0 ==> (IsDigit(a[at - 1]) <==> IsDigit(b[at - 1])) && (a[at - 1] == '0' <==> b[at - 1] == '0')
  {
    assert at > 0 ==> Lower(a[at - 1]) == Lower(b[at - 1]);
  }

  /** Swapping the two names turns the answer round, for all strings. */
  lemma Antisymmetric(a: string, b: string)
    ensures Compare(a, b) == -Compare(b, a)
  {
    hide Start, Run, Value, Common, At;
    CommonSymmetric(a, b);
    var at := Common(a, b);
    if IsDigit(At(a, at)) && IsDigit(At(b, at)) {
      StartSymmetric(a, b);
      StartInside(a, b);
    }
  }

  lemma StartInside(a: string, b: string)
    requires var at := Common(a, b); IsDigit(At(a, at)) && IsDigit(At(b, at))
    ensures Start(a, b, Common(a, b)) <= |a| && Start(a, b, Common(a, b)) <= |b|
  {}

  lemma Apart(a: string, b: string)
    requires '\0' !in a && '\0' !in b && !EqualFold(a, b)
    ensures Lower(At(a, Common(a, b))) != Lower(At(b, Common(a, b)))
  {
    var at := Common(a, b);
    if at < |a| { assert a[at] in a; }
    if at < |b| { assert b[at] in b; }
  }

  /** Two names without a NUL compare as equal exactly when they differ in case alone. */
  lemma ZeroIffSame(a: string, b: string)
    requires '\0' !in a && '\0' !in b
    ensures Compare(a, b) == 0 <==> EqualFold(a, b)
  {
    hide Start, Run, Value;
    if EqualFold(a, b) {
      CommonIs(a, b, |a|);
    } else {
      Apart(a, b);
    }
  }

  // ---------- Numbers ----------

  /** A number written without needless zeros. */
  predicate Numeral(s: string) {
    s != [] && AllDigits(s) && (|s| > 1 ==> s[0] != '0')
  }

  lemma {:induction false} ValueBounds(s: string)
    requires AllDigits(s) && s != []
    ensures Value(s) < Power10(|s|)
    ensures s[0] != '0' ==> Value(s) >= Power10(|s| - 1)
  {
    var init := s[..|s| - 1];
    assert s == init + [s[|s| - 1]];
    assert s[|s| - 1] in s && AllDigits(init);
    if init == [] {
      assert Power10(1) == 10 && Power10(0) == 1 && Value(init) == 0;
    } else {
      ValueBounds(init);
    }
  }

  lemma {:induction false} PowerGrows(j: nat, k: nat)
    requires j <= k
    ensures Power10(j) <= Power10(k)
  {
    if j < k { PowerGrows(j, k - 1); }
  }

  /** The longer of two numerals is the greater. */
  lemma LongerIsGreater(x: string, y: string)
    requires Numeral(x) && Numeral(y) && |x| < |y|
    ensures Value(x) < Value(y)
  {
    ValueBounds(x);
    ValueBounds(y);
    PowerGrows(|x|, |y| - 1);
  }

  lemma AllDigitsAppend(p: string, x: string)
    requires AllDigits(p + x)
    ensures AllDigits(p) && AllDigits(x)
  {
    assert forall c :: c in p ==> c in p + x;
    assert forall c :: c in x ==> c in p + x;
  }

  lemma {:induction false} ValueAppend(p: string, x: string)
    requires AllDigits(p) && AllDigits(x) && AllDigits(p + x)
    ensures Value(p + x) == Value(p) * Power10(|x|) + Value(x)
    decreases |x|
  {
    hide IsDigit, Value, Power10;
    if x == [] {
      assert p + x == p;
      NoDigits();
    } else {
      var init, last := x[..|x| - 1], x[|x| - 1];
      assert (p + x)[..|p + x| - 1] == p + init;
      assert x == init + [last];
      AllDigitsAppend(p + init, [last]) by { assert p + init + [last] == p + x; }
      AllDigitsAppend(init, [last]);
      ValueAppend(p, init);
      ValueLast(p + x);
      ValueLast(x);
      PowerStep(Value(p), |init|);
    }
  }

  lemma NoDigits()
    ensures Value("") == 0 && Power10(0) == 1
  {}

  lemma ValueLast(s: string)
    requires s != [] && AllDigits(s) && AllDigits(s[..|s| - 1]) && IsDigit(s[|s| - 1])
    ensures Value(s) == 10 * Value(s[..|s| - 1]) + DigitValue(s[|s| - 1])
  {}

  lemma PowerStep(n: nat, k: nat)
    ensures n * Power10(k + 1) == 10 * (n * Power10(k))
  {}

  /** Runs of the same length with the same value are the same. */
  lemma {:induction false} SameValue(x: string, y: string)
    requires AllDigits(x) && AllDigits(y) && |x| == |y| && Value(x) == Value(y)
    ensures x == y
  {
    if x != [] {
      var x0, y0 := x[..|x| - 1], y[..|y| - 1];
      assert x == x0 + [x[|x| - 1]] && y == y0 + [y[|y| - 1]];
      assert x[|x| - 1] in x && y[|y| - 1] in y;
      SameValue(x0, y0);
    }
  }

  /** The order of two numbers that begin alike is that of the rest of them, when neither
      rest begins with a zero. */
  lemma RestDecides(p: string, x: string, y: string)
    requires Numeral(p + x) && Numeral(p + y) && Numeral(x) && Numeral(y) && x != y
    ensures Value(x) != Value(y)
    ensures Value(p + x) < Value(p + y) <==> Value(x) < Value(y)
    ensures Value(p + x) != Value(p + y)
  {
    hide Numeral, Value, Power10;
    NumeralDigits(p + x); NumeralDigits(p + y); NumeralDigits(x); NumeralDigits(y);
    AllDigitsAppend(p, x);
    if |x| == |y| {
      ValueAppend(p, x);
      ValueAppend(p, y);
      if Value(x) == Value(y) { SameValue(x, y); }
    } else if |x| < |y| {
      LongerIsGreater(x, y);
      LongerIsGreater(p + x, p + y);
    } else {
      LongerIsGreater(y, x);
      LongerIsGreater(p + y, p + x);
    }
  }

  lemma NumeralDigits(s: string)
    requires Numeral(s)
    ensures AllDigits(s)
  {}

  lemma {:induction false} BackOverStops(s: string, i: nat, z: nat)
    requires z <= i < |s| && s[z] != '0'
    ensures z <= BackOver(s, i) && s[BackOver(s, i)] != '0'
  {
    if i > z && s[i] == '0' { BackOverStops(s, i - 1, z); }
  }

  /** A name's number, from a place in it on. */
  lemma RunOfSuffix(c: string, d: string, m: nat)
    requires AllDigits(d) && m <= |d|
    ensures AllDigits(d[m..]) && Run(c + d, |c| + m) == d[m..]
  {
    var s := c + d;
    assert d == d[..m] + d[m..];
    AllDigitsAppend(d[..m], d[m..]);
    assert s[|c| + m..|s|] == d[m..];
    RunEnds(s, |c| + m, |s|);
  }

  /** Where the numbers of two names begin that differ in a digit of theirs: at a digit other
      than zero, or at the very start of the numbers. */
  lemma StartOfNumbers(c: string, x: string, y: string, q: nat)
    requires Numeral(x) && Numeral(y) && (c == "" || !IsDigit(c[|c| - 1]))
    requires q < |x| && q < |y| && x[..q] == y[..q] && x[q] != y[q]
    ensures
      var k := Start(c + x, c + y, |c| + q);
      |c| <= k <= |c| + q && (if q == 0 then k == |c| else x[k - |c|] != '0' && y[k - |c|] != '0')
  {
    hide Numeral;
    var a, b, at := c + x, c + y, |c| + q;
    LeadingDigit(x);
    LeadingDigit(y);
    assert a[at] == x[q] && b[at] == y[q];
    if q == 0 {
      assert at > 0 ==> a[at - 1] == c[at - 1];
      StartAtFirst(a, b, |c|);
    } else {
      assert x[0] == x[..q][0] == y[0];
      DigitAt(x, q);
      if y[q] == '0' {
        BackOverStops(a, at - 1, |c|);
      } else {
        BackOverStops(a, at, |c|);
      }
      BackOverInside(c, x, y, q);
    }
  }

  /** Nothing is backed over past a character that is no digit. */
  lemma StartAtFirst(a: string, b: string, at: nat)
    requires at < |a| && IsDigit(a[at]) && (at > 0 ==> !IsDigit(a[at - 1]))
    ensures Start(a, b, at) == at
  {
    if at > 0 { assert BackOver(a, at - 1) == at - 1; }
  }

  lemma LeadingDigit(s: string)
    requires Numeral(s)
    ensures IsDigit(s[0]) && (|s| > 1 ==> s[0] != '0')
  {
    assert s[0] in s;
  }

  lemma DigitAt(s: string, k: nat)
    requires Numeral(s) && k < |s|
    ensures IsDigit(s[k])
  {
    assert s[k] in s;
  }

  /** What was backed over is in the part the numbers share, or is the place itself. */
  lemma BackOverInside(c: string, x: string, y: string, q: nat)
    requires Numeral(x) && Numeral(y) && 0 < q < |x| && q < |y| && x[..q] == y[..q] && x[q] != y[q]
    ensures
      var k := Start(c + x, c + y, |c| + q);
      |c| <= k <= |c| + q && x[k - |c|] != '0' && y[k - |c|] != '0'
  {
    hide Numeral;
    var a, b, at := c + x, c + y, |c| + q;
    LeadingDigit(x);
    var i := if b[at] == '0' then at - 1 else at;
    BackOverStops(a, i, |c|);
    var k := BackOver(a, i);
    DigitAt(x, k - |c|);
    assert a[k] == x[k - |c|];
    assert k < at ==> x[k - |c|] == x[..q][k - |c|] == y[k - |c|];
  }

  /** Two names that differ only in their last numbers, neither of more than eight digits nor
      written with needless zeros, are ordered as the numbers are. */
  lemma NumbersDecide(c: string, x: string, y: string)
    requires Numeral(x) && Numeral(y) && |x| <= MAX_EXACT && |y| <= MAX_EXACT
    requires c == "" || !IsDigit(c[|c| - 1])
    ensures AllDigits(x) && AllDigits(y)
    ensures Compare(c + x, c + y) < 0 <==> Value(x) < Value(y)
    ensures Compare(c + x, c + y) == 0 <==> Value(x) == Value(y)
  {
    hide Compare, Value, Numeral;
    NumeralDigits(x);
    NumeralDigits(y);
    var q := FirstApart(x, y);
    if q == |x| && q == |y| {
      ZeroIfSame(c + x);
    } else if q == |x| {
      PrefixFirst(c, x, y);
      LongerIsGreater(x, y);
    } else if q == |y| {
      PrefixFirst(c, y, x);
      LongerIsGreater(y, x);
      Antisymmetric(c + x, c + y);
    } else {
      DigitsDecide(c, x, y, q);
    }
  }

  /** How far two strings are the same. */
  function FirstApart(x: string, y: string): (n: nat)
    ensures n <= |x| && n <= |y| && x[..n] == y[..n]
    ensures n < |x| && n < |y| ==> x[n] != y[n]
    ensures n == |x| == |y| ==> x == y
  {
    if x == [] || y == [] || x[0] != y[0] then 0
    else
      assert x == [x[0]] + x[1..] && y == [y[0]] + y[1..];
      1 + FirstApart(x[1..], y[1..])
  }

  lemma ZeroIfSame(s: string)
    ensures Compare(s, s) == 0
  {
    Antisymmetric(s, s);
  }

  lemma PrefixFirst(c: string, x: string, y: string)
    requires AllDigits(x) && AllDigits(y) && |x| < |y| && x == y[..|x|]
    ensures Compare(c + x, c + y) < 0
  {
    hide Start, Run, Value;
    var a, b := c + x, c + y;
    assert forall k :: 0 <= k < |a| ==> a[k] == b[k];
    CommonIs(a, b, |a|);
    assert b[|a|] == y[|x|] && y[|x|] in y;
  }

  lemma DigitsDecide(c: string, x: string, y: string, q: nat)
    requires Numeral(x) && Numeral(y) && |x| <= MAX_EXACT && |y| <= MAX_EXACT
    requires c == "" || !IsDigit(c[|c| - 1])
    requires q < |x| && q < |y| && x[..q] == y[..q] && x[q] != y[q]
    ensures AllDigits(x) && AllDigits(y)
    ensures Value(x) != Value(y) && Compare(c + x, c + y) != 0
    ensures Compare(c + x, c + y) < 0 <==> Value(x) < Value(y)
  {
    hide Start, Run, Value, Numeral, CompareRuns, IsDigit, Lower, Common;
    var a, b, at := c + x, c + y, |c| + q;
    NumeralDigits(x);
    NumeralDigits(y);
    DigitAt(x, q);
    DigitAt(y, q);
    CommonOfNumbers(c, x, y, q);
    StartOfNumbers(c, x, y, q);
    var m := Start(a, b, at) - |c|;
    RunOfSuffix(c, x, m);
    RunOfSuffix(c, y, m);
    assert a[at] == x[q] && b[at] == y[q];
    assert Compare(a, b) == CompareRuns(x[m..], y[m..], x[q] as int - y[q] as int);
    RunsDecide(x, y, q, m);
  }

  lemma CommonOfNumbers(c: string, x: string, y: string, q: nat)
    requires q < |x| && q < |y| && x[..q] == y[..q] && x[q] != y[q] && IsDigit(x[q]) && IsDigit(y[q])
    ensures Common(c + x, c + y) == |c| + q
  {
    hide Lower, IsDigit, Common;
    var shared, x1, y1 := x[..q], x[q..], y[q..];
    DigitsApart(x[q], y[q]);
    Cut(x, q);
    Cut(y, q);
    CommonOfParts(c, shared, x1, y1);
  }

  lemma Cut(s: string, k: nat)
    requires k < |s|
    ensures s == s[..k] + s[k..] && s[k..] != [] && s[k..][0] == s[k]
  {}

  lemma CommonOfParts(c: string, p: string, x: string, y: string)
    requires x != [] && y != [] && Lower(x[0]) != Lower(y[0])
    ensures Common(c + (p + x), c + (p + y)) == |c| + |p|
  {
    hide Lower, Common;
    Append2(c, p, x);
    Append2(c, p, y);
    SharedPrefix(c + p, x, y);
  }

  lemma {:induction false} SharedPrefix(shared: string, x: string, y: string)
    requires x != [] && y != [] && Lower(x[0]) != Lower(y[0])
    ensures Common(shared + x, shared + y) == |shared|
  {
    hide Lower;
    if shared == [] {
      assert shared + x == x && shared + y == y;
    } else {
      assert (shared + x)[1..] == shared[1..] + x && (shared + y)[1..] == shared[1..] + y;
      SharedPrefix(shared[1..], x, y);
    }
  }

  /** An upper-case letter is no digit: where two digits differ, their lower cases do. */
  lemma DigitsApart(c: char, d: char)
    requires IsDigit(c) && IsDigit(d) && c != d
    ensures Lower(c) != Lower(d)
  {}

  lemma NumeralRest(s: string, m: nat)
    requires Numeral(s) && m < |s| && (m == 0 || s[m] != '0')
    ensures Numeral(s[m..]) && s == s[..m] + s[m..]
    ensures s[m] != '0' ==> Value(s[m..]) > 0
  {
    assert s == s[..m] + s[m..];
    AllDigitsAppend(s[..m], s[m..]);
    assert forall c :: c in s[m..] ==> c in s;
    ValueBounds(s[m..]);
  }

  lemma RunsDecide(x: string, y: string, q: nat, m: nat)
    requires Numeral(x) && Numeral(y) && |x| <= MAX_EXACT && |y| <= MAX_EXACT
    requires q < |x| && q < |y| && x[..q] == y[..q] && x[q] != y[q]
    requires m <= q && (if q == 0 then m == 0 else x[m] != '0' && y[m] != '0')
    requires AllDigits(x[m..]) && AllDigits(y[m..])
    ensures AllDigits(x) && AllDigits(y) && Value(x) != Value(y)
    ensures
      var r := CompareRuns(x[m..], y[m..], x[q] as int - y[q] as int);
      r != 0 && (r < 0 <==> Value(x) < Value(y))
  {
    hide Value, Numeral;
    NumeralDigits(x);
    NumeralDigits(y);
    NumeralRest(x, m);
    NumeralRest(y, m);
    assert x[..m] == x[..q][..m] == y[..m];
    assert x[m..][q - m] == x[q] && y[m..][q - m] == y[q];
    RestDecides(x[..m], x[m..], y[m..]);
    if q == 0 {
      assert x[0..] == x && y[0..] == y;
      ZeroNumeral(x, y);
      ZeroNumeral(y, x);
    }
  }

  /** Zero is written as one digit, which is less than the first of any other numeral. */
  lemma ZeroNumeral(x: string, y: string)
    requires Numeral(x) && Numeral(y) && x[0] != y[0]
    ensures AllDigits(x) && AllDigits(y)
    ensures Value(x) == 0 ==> x[0] < y[0] && Value(y) > 0
  {
    LeadingDigit(x);
    LeadingDigit(y);
    ValueBounds(x);
    ValueBounds(y);
  }

  /** A comparison worked out: where the names part, where the numbers begin and where they end. */
  lemma ComparedFrom(a: string, b: string, at: nat, k: nat, i: nat, j: nat)
    requires at < |a| && at < |b| && (forall n :: 0 <= n < at ==> Lower(a[n]) == Lower(b[n]))
    requires Lower(a[at]) != Lower(b[at]) && IsDigit(a[at]) && IsDigit(b[at])
    requires k <= i <= |a| && k <= j <= |b| && AllDigits(a[k..i]) && AllDigits(b[k..j])
    requires !IsDigit(At(a, i)) && !IsDigit(At(b, j)) && Start(a, b, at) == k
    ensures Compare(a, b) == CompareRuns(a[k..i], b[k..j], a[at] as int - b[at] as int)
  {
    hide Start, Run, CompareRuns, Common, Lower;
    CommonIs(a, b, at);
    RunEnds(a, k, i);
    RunEnds(b, k, j);
  }

  /** The same where they do not part at two digits. */
  lemma ComparedAt(a: string, b: string, at: nat)
    requires at < |a| && at < |b| && (forall n :: 0 <= n < at ==> Lower(a[n]) == Lower(b[n]))
    requires Lower(a[at]) != Lower(b[at]) && !(IsDigit(a[at]) && IsDigit(b[at]))
    ensures Compare(a, b) == Lower(a[at]) as int - Lower(b[at]) as int
  {
    hide Start, Run, CompareRuns, Common, Lower;
    CommonIs(a, b, at);
  }

  /** It is no order: each of these names comes before the next, round in a circle. */
  lemma NotTransitive()
    ensures Compare("x0z", "x1") < 0 && Compare("x1", "x02") < 0 && Compare("x02", "x0z") < 0
  {
    hide Compare, Value;
    assert Value("1") == 1 && Value("02") == 2 && Value("0") == 0 by { SpelledValues(); }
    ComparedFrom("x0z", "x1", 1, 1, 2, 2);
    ComparedFrom("x1", "x02", 1, 1, 2, 3);
    ComparedAt("x02", "x0z", 2);
    assert "x1"[1..2] == "1" && "x02"[1..3] == "02" && "x0z"[1..2] == "0";
  }

  lemma SpelledValues()
    ensures AllDigits("1") && AllDigits("02") && AllDigits("0")
    ensures Value("1") == 1 && Value("02") == 2 && Value("0") == 0
  {}
}
