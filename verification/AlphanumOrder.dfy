/** Where the comparison of names is an order: on tidy names it is the lexicographic order of
    their characters and numbers. */
module AlphanumOrder {
  import opened Alphanum
  import opened Decimal
  import opened Text

  /** No number in the name has needless zeros or more than eight digits, and each is
      followed by the end or by a character that comes before the digits. */
  predicate Tidy(s: string)
    decreases |s|
  {
    if s == "" then true
    else if IsDigit(s[0]) then
      var d := Run(s, 0);
      d != "" && Numeral(d) && |d| <= MAX_EXACT && At(s, |d|) < '0' && Tidy(s[|d|..])
    else s[0] != '\0' && Tidy(s[1..])
  }

  const NUMBERS: int := 100000000

  /** Where a character other than a digit stands: before every number or after them all. */
  function CharRank(c: char): int {
    if Lower(c) < '0' then Lower(c) as int else Lower(c) as int + NUMBERS
  }

  function NumberRank(n: nat): int {
    n + '0' as int
  }

  /** A name as the ranks of its characters and numbers. */
  function Key(s: string): seq<int>
    requires Tidy(s)
    decreases |s|
  {
    if s == "" then []
    else if IsDigit(s[0]) then [NumberRank(Value(Run(s, 0)))] + Key(s[|Run(s, 0)|..])
    else [CharRank(s[0])] + Key(s[1..])
  }

  predicate LexLe(x: seq<int>, y: seq<int>) {
    x == [] || (y != [] && (x[0] < y[0] || (x[0] == y[0] && LexLe(x[1..], y[1..]))))
  }

  lemma {:induction false} LexTransitive(x: seq<int>, y: seq<int>, z: seq<int>)
    requires LexLe(x, y) && LexLe(y, z)
    ensures LexLe(x, z)
  {
    if x != [] && x[0] == y[0] && y[0] == z[0] { LexTransitive(x[1..], y[1..], z[1..]); }
  }

  // ---------- A shared beginning ----------

  /** A beginning that both names share, but for case, and that splits no number. */
  predicate Splits(c: string, d: string, x: string, y: string) {
    && EqualFold(c, d)
    && (c == "" || !IsDigit(c[|c| - 1]) || !IsDigit(At(x, 0)) || !IsDigit(At(y, 0)))
  }

  lemma {:induction false} CommonAfter(c: string, d: string, x: string, y: string)
    requires EqualFold(c, d)
    ensures Common(c + x, d + y) == |c| + Common(x, y)
  {
    hide Lower;
    if c == "" {
      assert c + x == x && d + y == y;
    } else {
      assert (c + x)[1..] == c[1..] + x && (d + y)[1..] == d[1..] + y;
      CommonAfter(c[1..], d[1..], x, y);
    }
  }

  lemma AtAfter(c: string, x: string, k: nat)
    ensures At(c + x, |c| + k) == At(x, k)
  {}

  /** Backing over zeros stays behind the shared beginning, or stops at its last character. */
  lemma {:induction false} BackOverAfter(c: string, x: string, k: nat)
    ensures BackOver(x, k) > 0 || At(x, 0) != '0' ==> BackOver(c + x, |c| + k) == |c| + BackOver(x, k)
    ensures BackOver(x, k) == 0 && At(x, 0) == '0' ==> BackOver(c + x, |c| + k) == BackOver(c + x, |c|)
  {
    AtAfter(c, x, k);
    if k > 0 && At(x, k) == '0' { BackOverAfter(c, x, k - 1); }
  }

  /** At a beginning that ends in no digit, nothing before what follows it is backed over. */
  lemma StopsBefore(c: string, x: string)
    requires c != "" && !IsDigit(c[|c| - 1])
    ensures BackOver(c + x, |c| - 1) == |c| - 1 && !IsDigit(At(c + x, |c| - 1))
    ensures At(x, 0) == '0' ==> BackOver(c + x, |c|) == |c| - 1
  {
    assert At(c + x, |c| - 1) == c[|c| - 1];
    AtAfter(c, x, 0);
  }

  lemma StartAfter(c: string, d: string, x: string, y: string)
    requires Splits(c, d, x, y)
    requires var q := Common(x, y); IsDigit(At(x, q)) && IsDigit(At(y, q))
    ensures Start(c + x, d + y, |c| + Common(x, y)) == |c| + Start(x, y, Common(x, y))
  {
    hide IsDigit, Common, BackOver, Start, At, Splits, Lower;
    var q := Common(x, y);
    SplitsFold(c, d, x, y);
    if c == "" {
      assert c + x == x && d + y == y;
    } else if q == 0 {
      StartAtFirst(c, d, x, y);
    } else {
      StartLater(c, d, x, y);
    }
  }

  lemma StartAtFirst(c: string, d: string, x: string, y: string)
    requires Splits(c, d, x, y) && c != "" && IsDigit(At(x, 0)) && IsDigit(At(y, 0))
    ensures Start(c + x, d + y, |c|) == |c| + Start(x, y, 0)
  {
    hide IsDigit, BackOver, EqualFold;
    SplitsFold(c, d, x, y);
    AtAfter(c, x, 0);
    AtAfter(d, y, 0);
    BackAtStart(x);
    StopsBefore(c, x);
    BackIsDigit(c, x);
  }

  lemma StartLater(c: string, d: string, x: string, y: string)
    requires Splits(c, d, x, y) && c != ""
    requires var q := Common(x, y); 0 < q && IsDigit(At(x, q)) && IsDigit(At(y, q))
    ensures Start(c + x, d + y, |c| + Common(x, y)) == |c| + Start(x, y, Common(x, y))
  {
    hide IsDigit, Common, BackOver, EqualFold;
    var q := Common(x, y);
    SplitsFold(c, d, x, y);
    AtAfter(d, y, q);
    FirstsAgree(x, y, q);
    var i := if At(y, q) == '0' then q - 1 else q;
    BackOverAfter(c, x, i);
    AtAfter(c, x, BackOver(x, i));
    if BackOver(x, i) == 0 && At(x, 0) == '0' {
      ZeroIsDigit();
      StopsBefore(c, x);
    }
  }

  lemma BackAtStart(x: string)
    ensures BackOver(x, 0) == 0
  {}

  lemma ZeroIsDigit()
    ensures IsDigit('0')
  {}

  /** Standing on a digit that is no zero, or on one just past a beginning that ends in none. */
  lemma BackIsDigit(c: string, x: string)
    requires c != "" && !IsDigit(c[|c| - 1]) && IsDigit(At(x, 0))
    ensures BackOver(c + x, |c|) == if At(x, 0) == '0' then |c| - 1 else |c|
    ensures IsDigit(At(c + x, |c|))
  {
    AtAfter(c, x, 0);
    StopsBefore(c, x);
  }

  lemma FirstsAgree(x: string, y: string, q: nat)
    requires 0 < q <= Common(x, y)
    ensures At(x, 0) == '0' <==> At(y, 0) == '0'
  {
    assert Lower(x[0]) == Lower(y[0]);
  }

  lemma RunAfter(c: string, x: string, m: nat)
    requires m <= |x|
    ensures Run(c + x, |c| + m) == Run(x, m)
  {
    assert (c + x)[|c| + m..] == x[m..];
  }

  /** A shared beginning makes no difference to how two names compare. */
  lemma BeginningDropped(c: string, d: string, x: string, y: string)
    requires Splits(c, d, x, y)
    ensures Compare(c + x, d + y) == Compare(x, y)
  {
    hide Start, Run, Value, Common, CompareRuns, IsDigit, Lower, At, Splits;
    SplitsFold(c, d, x, y);
    CommonAfter(c, d, x, y);
    var q := Common(x, y);
    AtAfter(c, x, q);
    AtAfter(d, y, q);
    if IsDigit(At(x, q)) && IsDigit(At(y, q)) {
      StartAfter(c, d, x, y);
      StartInside(x, y);
      RunAfter(c, x, Start(x, y, q));
      RunAfter(d, y, Start(x, y, q));
    }
  }

  lemma SplitsFold(c: string, d: string, x: string, y: string)
    requires Splits(c, d, x, y)
    ensures EqualFold(c, d) && |c| == |d|
  {}

  // ---------- Two different numbers ----------

  /** What comes after two numbers that differ within both of them does not matter. */
  lemma TailsDropped(x: string, y: string, s: string, t: string, q: nat)
    requires Numeral(x) && Numeral(y) && q < |x| && q < |y| && x[..q] == y[..q] && x[q] != y[q]
    requires !IsDigit(At(s, 0)) && !IsDigit(At(t, 0))
    ensures Compare(x + s, y + t) == Compare(x, y)
  {
    hide Start, Run, Value, CompareRuns, IsDigit, Lower, Numeral, Common;
    DigitAt(x, q);
    DigitAt(y, q);
    CommonOfTails(x, y, s, t, q);
    CommonOfTails(x, y, "", "", q);
    assert x + "" == x && y + "" == y;
    assert At(x + s, q) == x[q] && At(y + t, q) == y[q];
    StartOfTails(x, y, s, t, q);
    var m := Start(x, y, q);
    StartOfNumbers("", x, y, q);
    assert "" + x == x && "" + y == y;
    NoDigitAtEnd();
    RunOfTail(x, s, m);
    RunOfTail(y, t, m);
    RunOfTail(x, "", m);
    RunOfTail(y, "", m);
  }

  lemma CommonOfTails(x: string, y: string, s: string, t: string, q: nat)
    requires q < |x| && q < |y| && x[..q] == y[..q] && x[q] != y[q] && IsDigit(x[q]) && IsDigit(y[q])
    ensures Common(x + s, y + t) == q
  {
    hide Lower, IsDigit, Common;
    DigitsApart(x[q], y[q]);
    Cut(x, q);
    Cut(y, q);
    Append2(x[..q], x[q..], s);
    Append2(y[..q], y[q..], t);
    SharedPrefix(x[..q], x[q..] + s, y[q..] + t);
  }

  lemma {:induction false} BackOverSame(a: string, b: string, i: nat)
    requires i < |a| && i < |b| && forall k :: 0 <= k <= i ==> a[k] == b[k]
    ensures BackOver(a, i) == BackOver(b, i)
  {
    if i > 0 { BackOverSame(a, b, i - 1); }
  }

  lemma StartOfTails(x: string, y: string, s: string, t: string, q: nat)
    requires q < |x| && q < |y|
    ensures Start(x + s, y + t, q) == Start(x, y, q)
  {
    hide IsDigit;
    assert At(y + t, q) == At(y, q);
    var i := if q > 0 && At(y, q) == '0' then q - 1 else q;
    BackOverSame(x + s, x, i);
    assert At(x + s, BackOver(x, i)) == At(x, BackOver(x, i));
  }

  lemma NoDigitAtEnd()
    ensures !IsDigit(At("", 0))
  {}

  lemma RunOfTail(x: string, s: string, m: nat)
    requires Numeral(x) && m < |x| && !IsDigit(At(s, 0))
    ensures Run(x + s, m) == x[m..]
  {
    assert x == x[..m] + x[m..];
    AllDigitsAppend(x[..m], x[m..]);
    assert (x + s)[m..|x|] == x[m..];
    assert At(x + s, |x|) == At(s, 0);
    RunEnds(x + s, m, |x|);
  }

  /** Two names that begin with different numbers are ordered as the numbers are. */
  lemma LeadingNumbersDecide(x: string, y: string, s: string, t: string)
    requires Numeral(x) && Numeral(y) && |x| <= MAX_EXACT && |y| <= MAX_EXACT && x != y
    requires At(s, 0) < '0' && At(t, 0) < '0'
    ensures AllDigits(x) && AllDigits(y) && Value(x) != Value(y)
    ensures Compare(x + s, y + t) <= 0 <==> Value(x) < Value(y)
  {
    hide Compare, Value, Numeral;
    NumeralDigits(x);
    NumeralDigits(y);
    var q := FirstApart(x, y);
    if q == |x| {
      NumberEndsFirst(x, y, s, t);
      LongerIsGreater(x, y);
    } else if q == |y| {
      NumberEndsFirst(y, x, t, s);
      LongerIsGreater(y, x);
      Antisymmetric(x + s, y + t);
    } else {
      TailsDropped(x, y, s, t, q);
      DigitsDecide("", x, y, q);
      assert "" + x == x && "" + y == y;
    }
  }

  /** Where one number ends the other goes on, and what follows the end comes first. */
  lemma NumberEndsFirst(x: string, y: string, s: string, t: string)
    requires AllDigits(x) && AllDigits(y) && |x| < |y| && x == y[..|x|] && At(s, 0) < '0'
    ensures Compare(x + s, y + t) < 0
  {
    hide Start, Run, Value, CompareRuns, Common;
    var rest := y[|x|..] + t;
    Append2(x, y[|x|..], t);
    assert y == x + y[|x|..];
    assert y[|x|] in y && At(rest, 0) == y[|x|];
    EqualFoldSame(x);
    CommonAfter(x, x, s, rest);
    CommonIs(s, rest, 0);
    AtAfter(x, s, 0);
    AtAfter(x, rest, 0);
  }

  lemma EqualFoldSame(x: string)
    ensures EqualFold(x, x)
  {}

  // ---------- The order ----------

  lemma {:induction false} PowerIs()
    ensures Power10(8) == NUMBERS
  {
    assert Power10(4) == 10000;
  }

  lemma SmallNumber(x: string)
    requires Numeral(x) && |x| <= MAX_EXACT
    ensures AllDigits(x) && Value(x) < NUMBERS
  {
    ValueBounds(x);
    PowerGrows(|x|, MAX_EXACT);
    PowerIs();
  }

  /** The run a tidy name begins with, and what follows it. */
  lemma LeadingRun(a: string)
    requires Tidy(a) && a != "" && IsDigit(a[0])
    ensures
      var d := Run(a, 0);
      && d != "" && Numeral(d) && |d| <= MAX_EXACT && |d| <= |a| && a == d + a[|d|..]
      && At(a[|d|..], 0) < '0' && Tidy(a[|d|..])
  {
    hide Numeral, Run, IsDigit;
    RunIsPrefix(a);
    AtAfter(Run(a, 0), a[|Run(a, 0)|..], 0);
  }

  lemma RunIsPrefix(a: string)
    ensures |Run(a, 0)| <= |a| && a == Run(a, 0) + a[|Run(a, 0)|..]
  {
    assert a[0..] == a;
  }

  /** Names whose first characters are compared as characters. */
  lemma HeadsDecide(a: string, b: string)
    requires a != "" && b != "" && Lower(a[0]) != Lower(b[0]) && !(IsDigit(a[0]) && IsDigit(b[0]))
    ensures Compare(a, b) == Lower(a[0]) as int - Lower(b[0]) as int
  {
    CommonIs(a, b, 0);
  }

  lemma EmptyFirst(a: string, b: string)
    requires '\0' !in b
    ensures a == "" ==> Compare(a, b) <= 0
    ensures b != "" && a == "" ==> Compare(b, a) > 0
  {
    if a == "" {
      CommonIs(a, b, 0);
      CommonIs(b, a, 0);
    }
  }

  lemma {:induction false} TidyHasNoNul(a: string)
    requires Tidy(a)
    ensures '\0' !in a
    decreases |a|
  {
    if a != "" {
      if IsDigit(a[0]) {
        LeadingRun(a);
        TidyHasNoNul(a[|Run(a, 0)|..]);
      } else {
        TidyHasNoNul(a[1..]);
      }
    }
  }

  /** The rank of the first thing in a name. */
  function Head(a: string): int
    requires Tidy(a) && a != ""
  {
    if IsDigit(a[0]) then NumberRank(Value(Run(a, 0))) else CharRank(a[0])
  }

  function Tail(a: string): (r: string)
    requires Tidy(a) && a != ""
    ensures Tidy(r) && |r| < |a|
  {
    if IsDigit(a[0]) then a[|Run(a, 0)|..] else a[1..]
  }

  lemma KeyStep(a: string)
    requires Tidy(a) && a != ""
    ensures Key(a) == [Head(a)] + Key(Tail(a))
  {}

  /** Names that begin alike compare as what follows, and as their keys do. */
  lemma SameHeads(a: string, b: string)
    requires Tidy(a) && Tidy(b) && a != "" && b != "" && Head(a) == Head(b)
    ensures Compare(a, b) == Compare(Tail(a), Tail(b))
  {
    hide Compare, Value, Tidy, Run;
    if IsDigit(a[0]) && IsDigit(b[0]) {
      LeadingRun(a);
      LeadingRun(b);
      var x, y := Run(a, 0), Run(b, 0);
      if x != y { LeadingNumbersDecide(x, y, Tail(a), Tail(b)); }
      EqualFoldSame(x);
      BeginningDropped(x, x, Tail(a), Tail(b));
    } else {
      RanksApart(a, b);
      assert a == [a[0]] + a[1..] && b == [b[0]] + b[1..];
      BeginningDropped([a[0]], [b[0]], a[1..], b[1..]);
    }
  }

  /** Characters and numbers never share a rank. */
  lemma RanksApart(a: string, b: string)
    requires Tidy(a) && Tidy(b) && a != "" && b != "" && Head(a) == Head(b) && !(IsDigit(a[0]) && IsDigit(b[0]))
    ensures !IsDigit(a[0]) && !IsDigit(b[0]) && Lower(a[0]) == Lower(b[0])
  {
    hide Value, Run;
    if IsDigit(a[0]) { NumberBetween(a); }
    if IsDigit(b[0]) { NumberBetween(b); }
  }

  lemma NumberBetween(a: string)
    requires Tidy(a) && a != "" && IsDigit(a[0])
    ensures '0' as int <= Head(a) < '0' as int + NUMBERS
  {
    hide Value, Run, Numeral;
    LeadingRun(a);
    SmallNumber(Run(a, 0));
  }

  lemma DifferentHeads(a: string, b: string)
    requires Tidy(a) && Tidy(b) && a != "" && b != "" && Head(a) != Head(b)
    ensures Compare(a, b) <= 0 <==> Head(a) < Head(b)
  {
    hide Compare, Value, Run, Tidy;
    if IsDigit(a[0]) && IsDigit(b[0]) {
      LeadingRun(a);
      LeadingRun(b);
      LeadingNumbersDecide(Run(a, 0), Run(b, 0), Tail(a), Tail(b));
    } else {
      if IsDigit(a[0]) { NumberBetween(a); }
      if IsDigit(b[0]) { NumberBetween(b); }
      HeadsDecide(a, b);
    }
  }

  /** Tidy names are ordered as their keys. */
  lemma {:induction false} CompareIsLex(a: string, b: string)
    requires Tidy(a) && Tidy(b)
    ensures Compare(a, b) <= 0 <==> LexLe(Key(a), Key(b))
    decreases |a|
  {
    hide Compare, Tidy, Key, Head, Tail;
    KeyOfEmpty();
    TidyHasNoNul(a);
    TidyHasNoNul(b);
    if a == "" {
      EmptyFirst(a, b);
    } else if b == "" {
      EmptyFirst(b, a);
      KeyStep(a);
    } else {
      KeyStep(a);
      KeyStep(b);
      if Head(a) == Head(b) {
        SameHeads(a, b);
        CompareIsLex(Tail(a), Tail(b));
      } else {
        DifferentHeads(a, b);
      }
    }
  }

  lemma KeyOfEmpty()
    ensures Tidy("") && Key("") == []
  {}

  /** On tidy names the comparison is an order: besides being antisymmetric and total it is
      transitive. */
  lemma TidyTransitive(a: string, b: string, c: string)
    requires Tidy(a) && Tidy(b) && Tidy(c) && Compare(a, b) <= 0 && Compare(b, c) <= 0
    ensures Compare(a, c) <= 0
  {
    hide Compare, Tidy, Key, LexLe;
    CompareIsLex(a, b);
    CompareIsLex(b, c);
    CompareIsLex(a, c);
    LexTransitive(Key(a), Key(b), Key(c));
  }

  /** Needless zeros are not the only thing that untidies: a letter after a number comes after
      every longer number, though the number itself comes before. */
  lemma LetterAfterNumber()
    ensures Compare("x1z", "x2") < 0 && Compare("x2", "x12") < 0 && Compare("x12", "x1z") < 0
  {
    hide Compare, Value;
    SmallValues();
    ComparedFrom("x1z", "x2", 1, 1, 2, 2);
    ComparedFrom("x2", "x12", 1, 1, 2, 3);
    ComparedAt("x12", "x1z", 2);
    assert "x1z"[1..2] == "1" && "x2"[1..2] == "2" && "x12"[1..3] == "12";
  }

  lemma SmallValues()
    ensures AllDigits("1") && AllDigits("2") && AllDigits("12")
    ensures Value("1") == 1 && Value("2") == 2 && Value("12") == 12
  {}
}
