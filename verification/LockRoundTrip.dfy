/** Storing a lock as text and parsing it again keeps its meaning.

    The round trip is not the identity on trees: "(a&b)&c" is stored as "a&b&c" and
    comes back associated to the right. Canon is that change, and nothing else changes. */
module LockRoundTrip {
  import opened Text
  import opened Decimal
  import opened Refs
  import opened LockSyntax

  // ---------- What the parser can build ----------

  predicate NameText(name: string) {
    && name != ""
    && !IsSpace(name[0]) && !IsSpace(name[|name| - 1])
    && name[0] != '(' && name[0] != '!'
    && forall c :: c in name ==> AtomChar(c) && c != ':'
  }

  predicate ValueText(value: string) {
    && value != ""
    && forall c :: c in value ==> AtomChar(c) && !IsSpace(c)
  }

  /** The trees whose property tests have text the lock language can hold. */
  predicate Storable(e: Expr) {
    match e
    case And(l, r) => Storable(l) && Storable(r)
    case Or(l, r) => Storable(l) && Storable(r)
    case Not(s) => Storable(s)
    case Const(_) => true
    case Prop(name, value) => NameText(name) && ValueText(value)
  }

  predicate StorableParse(r: Parsed) {
    r.Ok? ==> Storable(r.expr)
  }

  lemma ParsePropStorable(buf: string)
    requires ':' in buf
    requires !IsSpace(buf[0]) && buf[0] != '(' && buf[0] != '!'
    requires forall c :: c in buf ==> AtomChar(c)
    ensures StorableParse(ParseProp(buf))
  {
    if ParseProp(buf).Ok? {
      var idx := IndexOf(buf, ':');
      assert idx < |buf| by { assert buf[..|buf|] == buf; }
      var name := TrimRight(buf[..idx]);
      assert forall c :: c in name ==> c in buf[..idx] && c in buf;
      assert name[0] == buf[0];
      var rest := SkipSpaces(buf[idx + 1..]);
      var value := ParseProp(buf).expr.value;
      assert forall c :: c in value ==> c in rest && c in buf[idx + 1..] && c in buf;
    }
  }

  lemma TokenStorable(mode: Mode, t: string)
    requires t == "" || (!IsSpace(t[0]) && t[0] != '(' && t[0] != '!')
    ensures StorableParse(Token(mode, t))
  {
    hide ParseProp, IsSpace;
    var span := t[..SpanLength(t, AtomChar)];
    var buf := TrimRight(span);
    if ':' in buf {
      assert buf[0] == t[0];
      forall c | c in buf ensures AtomChar(c) {
        assert c in span;
      }
      ParsePropStorable(buf);
    }
  }

  lemma {:induction false} ParseFStorable(mode: Mode, text: string)
    ensures StorableParse(ParseF(mode, text))
    decreases |text|, 0
  {
    hide ParseE, ParseT, Token;
    var t := SkipSpaces(text);
    if t != "" && t[0] == '(' {
      ParseEStorable(mode, t[1..]);
    } else if t != "" && t[0] == '!' {
      ParseFStorable(mode, t[1..]);
    } else {
      TokenStorable(mode, t);
    }
  }

  lemma {:induction false} ParseTStorable(mode: Mode, text: string)
    ensures StorableParse(ParseT(mode, text))
    decreases |text|, 1
  {
    ParseFStorable(mode, text);
    var r := ParseF(mode, text);
    if r.Ok? {
      var after := SkipSpaces(r.rest);
      if after != "" && after[0] == '&' {
        ParseTStorable(mode, after[1..]);
      }
    }
  }

  /** Whatever the player typed, the tree that comes out is one the text can hold. */
  lemma {:induction false} ParseEStorable(mode: Mode, text: string)
    ensures StorableParse(ParseE(mode, text))
    decreases |text|, 2
  {
    ParseTStorable(mode, text);
    var r := ParseT(mode, text);
    if r.Ok? {
      var after := SkipSpaces(r.rest);
      if after != "" && after[0] == '|' {
        ParseEStorable(mode, after[1..]);
      }
    }
  }

  // ---------- Right association ----------

  /** x and then y, as one chain of '&' associated to the right. */
  function AppendAnd(x: Expr, y: Expr): Expr {
    if x.And? then And(x.left, AppendAnd(x.right, y)) else And(x, y)
  }

  function AppendOr(x: Expr, y: Expr): Expr {
    if x.Or? then Or(x.left, AppendOr(x.right, y)) else Or(x, y)
  }

  /** The same tree with every chain of one operator associated to the right. */
  function Canon(e: Expr): Expr {
    match e
    case And(l, r) => AppendAnd(Canon(l), Canon(r))
    case Or(l, r) => AppendOr(Canon(l), Canon(r))
    case Not(s) => Not(Canon(s))
    case Const(_) => e
    case Prop(_, _) => e
  }

  /** No operator has itself as its left operand. */
  predicate RightAssociated(e: Expr) {
    match e
    case And(l, r) => !l.And? && RightAssociated(l) && RightAssociated(r)
    case Or(l, r) => !l.Or? && RightAssociated(l) && RightAssociated(r)
    case Not(s) => RightAssociated(s)
    case Const(_) => true
    case Prop(_, _) => true
  }

  lemma {:induction false} AppendAndAssociates(x: Expr, y: Expr, z: Expr)
    ensures AppendAnd(x, AppendAnd(y, z)) == AppendAnd(AppendAnd(x, y), z)
  {
    if x.And? {
      AppendAndAssociates(x.right, y, z);
    }
  }

  lemma {:induction false} AppendOrAssociates(x: Expr, y: Expr, z: Expr)
    ensures AppendOr(x, AppendOr(y, z)) == AppendOr(AppendOr(x, y), z)
  {
    if x.Or? {
      AppendOrAssociates(x.right, y, z);
    }
  }

  lemma {:induction false} AppendRightAssociated(x: Expr, y: Expr)
    requires RightAssociated(x) && RightAssociated(y)
    ensures RightAssociated(AppendAnd(x, y)) && RightAssociated(AppendOr(x, y))
  {
    if x.And? || x.Or? {
      AppendRightAssociated(x.right, y);
    }
  }

  /** Canon reaches the right-associated form and leaves such a form alone. */
  lemma {:induction false} CanonIsRightAssociated(e: Expr)
    ensures RightAssociated(Canon(e))
    ensures RightAssociated(e) ==> Canon(e) == e
  {
    match e
    case And(l, r) =>
      CanonIsRightAssociated(l);
      CanonIsRightAssociated(r);
      AppendRightAssociated(Canon(l), Canon(r));
    case Or(l, r) =>
      CanonIsRightAssociated(l);
      CanonIsRightAssociated(r);
      AppendRightAssociated(Canon(l), Canon(r));
    case Not(s) => CanonIsRightAssociated(s);
    case Const(_) =>
    case Prop(_, _) =>
  }

  // ---------- Parsing what was printed ----------

  /** Text at which a factor may end. */
  predicate Stops(rest: string) {
    rest == "" || !AtomChar(rest[0])
  }

  lemma StopsSkips(rest: string)
    requires Stops(rest)
    ensures SkipSpaces(rest) == rest
  {}

  /** A token with no stopper in it is read whole. */
  lemma ParseToken(w: string, rest: string)
    requires w != "" && w[0] != '(' && w[0] != '!'
    requires !IsSpace(w[0]) && !IsSpace(w[|w| - 1])
    requires forall c :: c in w ==> AtomChar(c)
    requires Stops(rest)
    ensures
      var r := ParseAtom(DbLoad, w);
      ParseF(DbLoad, w + rest) == if r.Ok? then Ok(r.expr, rest) else r
  {
    hide SkipSpaces, TrimRight, ParseAtom, SpanLength, ParseE, ParseT, ParseF;
    var t := w + rest;
    assert t[0] == w[0];
    NoSkip(t);
    TokenUnfold(DbLoad, t);
    SpanExact(w, rest, AtomChar);
    assert t[..|w|] == w && t[|w|..] == rest;
    NoTrim(w);
  }

  lemma NoSkip(s: string)
    requires s != "" && !IsSpace(s[0])
    ensures SkipSpaces(s) == s
  {}

  lemma NoTrim(s: string)
    requires s != "" && !IsSpace(s[|s| - 1])
    ensures TrimRight(s) == s
  {}

  lemma PropAtom(name: string, value: string)
    requires NameText(name) && ValueText(value)
    ensures ParseAtom(DbLoad, name + ":" + value) == Ok(Prop(name, value), "")
  {
    hide SkipSpaces, TrimRight, SpanLength, IndexOf;
    var buf := name + ":" + value;
    assert buf[|name|] == ':';
    IndexOfExact(name, ':', value);
    assert buf[..|name|] == name && buf[|name| + 1..] == value;
    NoTrim(name);
    assert value[0] in value;
    NoSkip(value);
    SpanExact(value, "", c => !IsSpace(c));
    assert value + "" == value && value[..|value|] == value;
  }

  lemma ConstAtom(n: Ref)
    ensures ParseAtom(DbLoad, "#" + Itoa(n)) == Ok(Const(n), "")
  {
    hide Itoa, ParseInt, ParseProp;
    var text := Itoa(n);
    var buf := "#" + text;
    ItoaCharacters(n);
    ParseIntOfItoa(n, INT64_LIMIT);
    assert buf[1..] == text;
    assert ':' !in text;
  }

  lemma PropReparses(name: string, value: string, rest: string)
    requires NameText(name) && ValueText(value) && Stops(rest)
    ensures ParseF(DbLoad, name + ":" + value + rest) == Ok(Prop(name, value), rest)
  {
    var w := name + ":" + value;
    PropAtom(name, value);
    assert value[|value| - 1] in value && w[|w| - 1] == value[|value| - 1] && w[0] == name[0];
    ParseToken(w, rest);
  }

  lemma ConstReparses(n: Ref, rest: string)
    requires Stops(rest)
    ensures ParseF(DbLoad, "#" + Itoa(n) + rest) == Ok(Const(n), rest)
  {
    var w := "#" + Itoa(n);
    ConstAtom(n);
    ItoaCharacters(n);
    assert Itoa(n)[|Itoa(n)| - 1] in Itoa(n) && w[|w| - 1] == Itoa(n)[|Itoa(n)| - 1];
    forall c | c in w ensures AtomChar(c) {
      assert c == '#' || c in Itoa(n);
    }
    ParseToken(w, rest);
  }

  // One step of the parser at a time, so that the inductive proofs below need only
  // these and the text equations.

  lemma StepParens(text: string, inner: string, b: Expr, close: string)
    requires text != "" && text[0] == '(' && text[1..] == inner
    requires ParseE(DbLoad, inner) == Ok(b, close)
    requires close != "" && close[0] == ')'
    ensures ParseF(DbLoad, text) == Ok(b, close[1..])
  {
    hide ParseE, ParseT, ParseF, SkipSpaces;
    ParensUnfold(DbLoad, text);
    StopsSkips(close);
  }

  lemma StepNot(t: string, b: Expr, rest: string)
    requires ParseF(DbLoad, t) == Ok(b, rest)
    ensures ParseF(DbLoad, "!" + t) == Ok(Not(b), rest)
  {
    assert SkipSpaces("!" + t) == "!" + t;
    assert ("!" + t)[1..] == t;
  }

  lemma StepTermEnds(t: string, b: Expr, rest: string)
    requires ParseF(DbLoad, t) == Ok(b, rest)
    requires Stops(rest) && (rest == "" || rest[0] != '&')
    ensures ParseT(DbLoad, t) == Ok(b, rest)
  {
    hide ParseE, ParseF, SkipSpaces;
    StopsSkips(rest);
  }

  lemma StepTermContinues(t: string, b: Expr, after: string, x: Expr, rest: string)
    requires ParseF(DbLoad, t) == Ok(b, after)
    requires after != "" && after[0] == '&'
    requires ParseT(DbLoad, after[1..]) == Ok(x, rest)
    ensures ParseT(DbLoad, t) == Ok(And(b, x), rest)
  {
    hide ParseE, ParseF, SkipSpaces;
    StopsSkips(after);
  }

  lemma StepExprEnds(t: string, b: Expr, rest: string)
    requires ParseT(DbLoad, t) == Ok(b, rest)
    requires rest == "" || rest[0] == ')'
    ensures ParseE(DbLoad, t) == Ok(b, rest)
  {
    hide ParseT, ParseF, SkipSpaces;
    StopsSkips(rest);
  }

  lemma StepExprContinues(t: string, b: Expr, after: string, x: Expr, rest: string)
    requires ParseT(DbLoad, t) == Ok(b, after)
    requires after != "" && after[0] == '|'
    requires ParseE(DbLoad, after[1..]) == Ok(x, rest)
    ensures ParseE(DbLoad, t) == Ok(Or(b, x), rest)
  {
    hide ParseT, ParseF, SkipSpaces;
    StopsSkips(after);
  }

  /** The outer operator decides only whether there are parentheses. */
  lemma PrintInside(e: Expr, outer: Outer)
    ensures
      var body := Print(e, if e.Or? then InOr else InAnd);
      Print(e, outer) ==
      if (e.And? && outer == InNot) || (e.Or? && (outer == InNot || outer == InAnd))
      then "(" + body + ")" else body
  {}

  lemma ParensText(body: string, rest: string)
    ensures
      var text := "(" + body + ")" + rest;
      text[0] == '(' && text[1..] == body + (")" + rest) && (")" + rest)[1..] == rest
  {}

  /** A pair, its operator and what follows, split after the operator. */
  lemma PairText(l: string, op: string, r: string, rest: string)
    ensures l + op + r + rest == l + op + (r + rest)
  {}

  lemma ChainText(l: string, op: string, r: string, more: string)
    ensures (l + op + r) + op + more == l + op + (r + op + more)
  {}

  datatype Level = LevelE | LevelT | LevelF

  /** The order in which the three levels hand one tree to each other: a level that
      prints parentheses goes back to the top, one that does not goes down. */
  function Rank(e: Expr, level: Level): nat {
    if e.And? then (match level case LevelF => 3 case LevelE => 2 case LevelT => 1)
    else if e.Or? then (match level case LevelT => 3 case LevelF => 2 case LevelE => 1)
    else (match level case LevelE => 3 case LevelT => 2 case LevelF => 1)
  }

  lemma {:induction false} FactorReparses(e: Expr, rest: string)
    requires Storable(e) && Stops(rest)
    ensures ParseF(DbLoad, Print(e, InNot) + rest) == Ok(Canon(e), rest)
    decreases e, Rank(e, LevelF)
  {
    match e
    case And(_, _) =>
      PrintInside(e, InNot);
      ExprReparses(e, ")" + rest);
      ParensText(Print(e, InAnd), rest);
      StepParens("(" + Print(e, InAnd) + ")" + rest, Print(e, InAnd) + (")" + rest), Canon(e), ")" + rest);
    case Or(_, _) =>
      PrintInside(e, InNot);
      ExprReparses(e, ")" + rest);
      ParensText(Print(e, InOr), rest);
      StepParens("(" + Print(e, InOr) + ")" + rest, Print(e, InOr) + (")" + rest), Canon(e), ")" + rest);
    case Not(s) =>
      FactorReparses(s, rest);
      StepNot(Print(s, InNot) + rest, Canon(s), rest);
      Append2("!", Print(s, InNot), rest);
    case Const(n) => ConstReparses(n, rest);
    case Prop(name, value) => PropReparses(name, value, rest);
  }

  /** A term followed by '&' and more: the two chains join into one. */
  lemma {:induction false} TermChain(e: Expr, more: string, x: Expr, rest: string)
    requires Storable(e) && ParseT(DbLoad, more) == Ok(x, rest)
    ensures ParseT(DbLoad, Print(e, InAnd) + "&" + more) == Ok(AppendAnd(Canon(e), x), rest)
    decreases e, Rank(e, LevelT)
  {
    if e.And? {
      var l, r := Print(e.left, InAnd), Print(e.right, InAnd);
      TermChain(e.right, more, x, rest);
      TermChain(e.left, r + "&" + more, AppendAnd(Canon(e.right), x), rest);
      AppendAndAssociates(Canon(e.left), Canon(e.right), x);
      ChainText(l, "&", r, more);
      assert Print(e, InAnd) == l + "&" + r;
    } else {
      PrintInside(e, InAnd);
      PrintInside(e, InNot);
      FactorReparses(e, "&" + more);
      Append2(Print(e, InNot), "&", more);
      CanonKeepsKind(e);
      assert ("&" + more)[1..] == more;
      StepTermContinues(Print(e, InNot) + ("&" + more), Canon(e), "&" + more, x, rest);
    }
  }

  lemma {:induction false} CanonKeepsKind(e: Expr)
    ensures e.And? == Canon(e).And? && e.Or? == Canon(e).Or?
  {}

  lemma {:induction false} TermReparses(e: Expr, rest: string)
    requires Storable(e) && Stops(rest) && (rest == "" || rest[0] != '&')
    ensures ParseT(DbLoad, Print(e, InAnd) + rest) == Ok(Canon(e), rest)
    decreases e, Rank(e, LevelT)
  {
    if e.And? {
      var r := Print(e.right, InAnd);
      TermReparses(e.right, rest);
      TermChain(e.left, r + rest, Canon(e.right), rest);
      PairText(Print(e.left, InAnd), "&", r, rest);
    } else {
      PrintInside(e, InAnd);
      PrintInside(e, InNot);
      FactorReparses(e, rest);
      StepTermEnds(Print(e, InNot) + rest, Canon(e), rest);
    }
  }

  lemma {:induction false} ExprChain(e: Expr, more: string, x: Expr, rest: string)
    requires Storable(e) && ParseE(DbLoad, more) == Ok(x, rest)
    ensures ParseE(DbLoad, Print(e, InOr) + "|" + more) == Ok(AppendOr(Canon(e), x), rest)
    decreases e, Rank(e, LevelE)
  {
    if e.Or? {
      var l, r := Print(e.left, InOr), Print(e.right, InOr);
      ExprChain(e.right, more, x, rest);
      ExprChain(e.left, r + "|" + more, AppendOr(Canon(e.right), x), rest);
      AppendOrAssociates(Canon(e.left), Canon(e.right), x);
      ChainText(l, "|", r, more);
      assert Print(e, InOr) == l + "|" + r;
    } else {
      PrintInside(e, InOr);
      PrintInside(e, InAnd);
      TermReparses(e, "|" + more);
      Append2(Print(e, InAnd), "|", more);
      CanonKeepsKind(e);
      assert ("|" + more)[1..] == more;
      StepExprContinues(Print(e, InAnd) + ("|" + more), Canon(e), "|" + more, x, rest);
    }
  }

  lemma {:induction false} ExprReparses(e: Expr, rest: string)
    requires Storable(e) && (rest == "" || rest[0] == ')')
    ensures ParseE(DbLoad, Print(e, Top) + rest) == Ok(Canon(e), rest)
    decreases e, Rank(e, LevelE)
  {
    PrintInside(e, Top);
    if e.Or? {
      var r := Print(e.right, InOr);
      ExprReparses(e.right, rest);
      PrintInside(e.right, Top);
      PrintInside(e.right, InOr);
      ExprChain(e.left, r + rest, Canon(e.right), rest);
      PairText(Print(e.left, InOr), "|", r, rest);
    } else {
      PrintInside(e, InAnd);
      TermReparses(e, rest);
      StepExprEnds(Print(e, InAnd) + rest, Canon(e), rest);
    }
  }

  // ---------- Printing again ----------

  lemma {:induction false} PrintAppendAnd(x: Expr, y: Expr)
    ensures Print(AppendAnd(x, y), InAnd) == Print(x, InAnd) + "&" + Print(y, InAnd)
  {
    if x.And? {
      PrintAppendAnd(x.right, y);
      Append3(Print(x.left, InAnd) + "&", Print(x.right, InAnd), "&", Print(y, InAnd));
    }
  }

  lemma {:induction false} PrintAppendOr(x: Expr, y: Expr)
    ensures Print(AppendOr(x, y), InOr) == Print(x, InOr) + "|" + Print(y, InOr)
  {
    if x.Or? {
      PrintAppendOr(x.right, y);
      Append3(Print(x.left, InOr) + "|", Print(x.right, InOr), "|", Print(y, InOr));
    }
  }

  /** The text does not show how chains were associated. */
  lemma {:induction false} PrintCanon(e: Expr, outer: Outer)
    ensures Print(Canon(e), outer) == Print(e, outer)
  {
    match e
    case And(l, r) =>
      PrintCanon(l, InAnd);
      PrintCanon(r, InAnd);
      PrintAppendAnd(Canon(l), Canon(r));
      CanonKeepsKind(e);
      PrintInside(Canon(e), outer);
      PrintInside(e, outer);
    case Or(l, r) =>
      PrintCanon(l, InOr);
      PrintCanon(r, InOr);
      PrintAppendOr(Canon(l), Canon(r));
      CanonKeepsKind(e);
      PrintInside(Canon(e), outer);
      PrintInside(e, outer);
    case Not(s) => PrintCanon(s, InNot);
    case Const(_) =>
    case Prop(_, _) =>
  }

}
