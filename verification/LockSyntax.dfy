/** The lock language: its trees, its text, and the parser that reads the text back.

    Locks are stored as the text that Print produces and parsed again at every check,
    so what LockRoundTrip proves about Print and ParseE is what a stored lock means. */
module LockSyntax {
  import opened Text
  import opened Decimal
  import opened Refs

  datatype Expr =
    | And(left: Expr, right: Expr)
    | Or(left: Expr, right: Expr)
    | Not(sub: Expr)
    | Const(thing: Ref)
    | Prop(name: string, value: string)

  /** What the player's surroundings answer while a typed lock is being parsed. */
  datatype Host = Host(
    find: string -> Ref,
    wizard: bool,
    isSystem: string -> bool,
    isHidden: string -> bool)

  datatype ParseError =
    | Unbalanced
    | EmptyName
    | EmptyValue
    | BadRef(text: string)
    | NotHere(text: string)
    | Unclear(text: string)
    | HiddenProperty

  /** A parse yields a tree and the text after it, or an error. */
  datatype Parsed = Ok(expr: Expr, rest: string) | Err(error: ParseError)

  datatype Mode = DbLoad | Typed(host: Host)

  predicate AtomChar(c: char) {
    c != '&' && c != '|' && c != ')'
  }

  /** parse_boolprop: "name:value" into a property test. */
  function ParseProp(buf: string): Parsed
    requires ':' in buf
  {
    var idx := IndexOf(buf, ':');
    assert idx < |buf| by { assert buf[..|buf|] == buf; }
    var name := TrimRight(buf[..idx]);
    if name == "" then Err(EmptyName)
    else
      var rest := SkipSpaces(buf[idx + 1..]);
      var value := rest[..SpanLength(rest, c => !IsSpace(c))];
      if value == "" then Err(EmptyValue) else Ok(Prop(name, value), "")
  }

  /** One bare token: a property test, a typed name or a stored "#123". */
  function ParseAtom(mode: Mode, buf: string): Parsed {
    if ':' in buf then
      if mode.Typed? && (mode.host.isSystem(buf) || (!mode.host.wizard && mode.host.isHidden(buf)))
      then Err(HiddenProperty)
      else ParseProp(buf)
    else if mode.Typed? then
      var thing := mode.host.find(buf);
      if thing == NOTHING then Err(NotHere(buf))
      else if thing == AMBIGUOUS then Err(Unclear(buf))
      else Ok(Const(thing), "")
    else if |buf| < 2 || buf[0] != '#' then Err(BadRef(buf))
    else match ParseInt(buf[1..], INT64_LIMIT)
      case None => Err(BadRef(buf))
      case Some(n) => Ok(Const(ToRef(n)), "")
  }

  /** What stands before the next operator, its end trimmed, and the text after it. */
  function Token(mode: Mode, t: string): (r: Parsed)
    ensures r.Ok? ==> |r.rest| <= |t|
  {
    var n := SpanLength(t, AtomChar);
    match ParseAtom(mode, TrimRight(t[..n]))
    case Err(e) => Err(e)
    case Ok(b, _) => Ok(b, t[n..])
  }

  /** parse_boolexp_F: parentheses, '!' and bare tokens. */
  function ParseF(mode: Mode, text: string): (r: Parsed)
    ensures r.Ok? ==> |r.rest| <= |text|
    decreases |text|, 0
  {
    var t := SkipSpaces(text);
    if t != "" && t[0] == '(' then
      match ParseE(mode, t[1..])
      case Err(e) => Err(e)
      case Ok(b, r) =>
        var after := SkipSpaces(r);
        if after == "" || after[0] != ')' then Err(Unbalanced) else Ok(b, after[1..])
    else if t != "" && t[0] == '!' then
      match ParseF(mode, t[1..])
      case Err(e) => Err(e)
      case Ok(b, r) => Ok(Not(b), r)
    else Token(mode, t)
  }

  lemma ParensUnfold(mode: Mode, t: string)
    requires t != "" && t[0] == '('
    ensures ParseF(mode, t) ==
      match ParseE(mode, t[1..])
      case Err(e) => Err(e)
      case Ok(b, r) =>
        var after := SkipSpaces(r);
        if after == "" || after[0] != ')' then Err(Unbalanced) else Ok(b, after[1..])
  {
    hide ParseE, ParseT, Token;
    assert SkipSpaces(t) == t;
  }

  lemma NotUnfold(mode: Mode, t: string)
    requires t != "" && t[0] == '!'
    ensures ParseF(mode, t) ==
      match ParseF(mode, t[1..])
      case Err(e) => Err(e)
      case Ok(b, r) => Ok(Not(b), r)
  {
    hide ParseE, ParseT, Token;
    assert SkipSpaces(t) == t;
  }

  lemma TokenUnfold(mode: Mode, t: string)
    requires SkipSpaces(t) == t
    requires t == "" || (t[0] != '(' && t[0] != '!')
    ensures ParseF(mode, t) == Token(mode, t)
  {
    hide ParseE, ParseT, Token, SkipSpaces;
  }

  lemma SkipFirst(mode: Mode, text: string)
    ensures SkipSpaces(SkipSpaces(text)) == SkipSpaces(text)
    ensures ParseF(mode, text) == ParseF(mode, SkipSpaces(text))
  {
    hide ParseE, ParseT, Token, SkipSpaces;
    SkipTwice(text);
  }

  lemma SkipTwice(text: string)
    ensures SkipSpaces(SkipSpaces(text)) == SkipSpaces(text)
  {}

  lemma SkipOne(s: string)
    requires s != "" && IsSpace(s[0])
    ensures SkipSpaces(s) == SkipSpaces(s[1..])
  {}

  lemma SkipNone(s: string)
    requires s == "" || !IsSpace(s[0])
    ensures SkipSpaces(s) == s
  {}

  /** parse_boolexp_T: '&', associating to the right. */
  function ParseT(mode: Mode, text: string): (r: Parsed)
    ensures r.Ok? ==> |r.rest| <= |text|
    decreases |text|, 1
  {
    match ParseF(mode, text)
    case Err(e) => Err(e)
    case Ok(b, r) =>
      var after := SkipSpaces(r);
      if after != "" && after[0] == '&' then
        match ParseT(mode, after[1..])
        case Err(e) => Err(e)
        case Ok(b2, r2) => Ok(And(b, b2), r2)
      else Ok(b, after)
  }

  /** parse_boolexp_E: '|', associating to the right. */
  function ParseE(mode: Mode, text: string): (r: Parsed)
    ensures r.Ok? ==> |r.rest| <= |text|
    decreases |text|, 2
  {
    match ParseT(mode, text)
    case Err(e) => Err(e)
    case Ok(b, r) =>
      var after := SkipSpaces(r);
      if after != "" && after[0] == '|' then
        match ParseE(mode, after[1..])
        case Err(e) => Err(e)
        case Ok(b2, r2) => Ok(Or(b, b2), r2)
      else Ok(b, after)
  }

  /** What kind of node encloses the one being printed; Top is "none". */
  datatype Outer = InAnd | InOr | InNot | Top

  const UNLOCKED := "*UNLOCKED*"

  /** The stored text of a tree, with the fewest parentheses that keep its meaning. */
  function Print(e: Expr, outer: Outer): string {
    match e
    case And(l, r) =>
      var body := Print(l, InAnd) + "&" + Print(r, InAnd);
      if outer == InNot then "(" + body + ")" else body
    case Or(l, r) =>
      var body := Print(l, InOr) + "|" + Print(r, InOr);
      if outer == InNot || outer == InAnd then "(" + body + ")" else body
    case Not(s) => "!" + Print(s, InNot)
    case Const(n) => "#" + Itoa(n)
    case Prop(name, value) => name + ":" + value
  }

  /** A missing tree is an unlocked lock, and prints as such. */
  function Unparse(lock: Option<Expr>): string {
    match lock
    case None => UNLOCKED
    case Some(e) => Print(e, Top)
  }

  /** The output buffer that printing appends to. */
  class Builder {
    var text: string

    constructor ()
      ensures text == ""
    {
      text := "";
    }

    method Write(s: string)
      modifies this
      ensures text == old(text) + s
    {
      text := text + s;
    }
  }

  method UnparseInto(sb: Builder, e: Expr, outer: Outer)
    modifies sb
    ensures sb.text == old(sb.text) + Print(e, outer)
    decreases e
  {
    ghost var before := sb.text;
    match e {
      case And(l, r) =>
        var parens := outer == InNot;
        if parens { sb.Write("("); }
        UnparsePair(sb, l, "&", r, InAnd, e);
        if parens { sb.Write(")"); }
        Append3(before, "(", Print(l, InAnd) + "&" + Print(r, InAnd), ")");
      case Or(l, r) =>
        var parens := outer == InNot || outer == InAnd;
        if parens { sb.Write("("); }
        UnparsePair(sb, l, "|", r, InOr, e);
        if parens { sb.Write(")"); }
        Append3(before, "(", Print(l, InOr) + "|" + Print(r, InOr), ")");
      case Not(sub) =>
        sb.Write("!");
        UnparseInto(sb, sub, InNot);
        Append2(before, "!", Print(sub, InNot));
      case Const(n) =>
        sb.Write("#");
        sb.Write(Itoa(n));
        Append2(before, "#", Itoa(n));
      case Prop(name, value) =>
        sb.Write(name);
        sb.Write(":");
        sb.Write(value);
        Append3(before, name, ":", value);
    }
  }

  /** The two operands of parent around its operator. */
  method UnparsePair(sb: Builder, l: Expr, op: string, r: Expr, outer: Outer, ghost parent: Expr)
    requires l < parent && r < parent
    modifies sb
    ensures sb.text == old(sb.text) + (Print(l, outer) + op + Print(r, outer))
    decreases parent, 0
  {
    hide Print;
    ghost var before := sb.text;
    UnparseInto(sb, l, outer);
    sb.Write(op);
    UnparseInto(sb, r, outer);
    PairAppend(before, Print(l, outer), op, Print(r, outer));
  }

  lemma PairAppend(before: string, l: string, op: string, r: string)
    ensures ((before + l) + op) + r == before + (l + op + r)
  {}

  method UnparseLock(lock: Option<Expr>) returns (text: string)
    ensures text == Unparse(lock)
  {
    var sb := new Builder();
    match lock {
      case None => sb.Write(UNLOCKED);
      case Some(e) => UnparseInto(sb, e, Top);
    }
    text := sb.text;
  }

  /** A cursor walking a lock string left to right. */
  class Parser {
    const s: string
    const mode: Mode
    var i: nat

    constructor (s: string, mode: Mode)
      ensures this.s == s && this.mode == mode && i == 0
    {
      this.s, this.mode, i := s, mode, 0;
    }

    ghost predicate Valid()
      reads this
    {
      i <= |s|
    }

    /** The text still to be read. */
    ghost function Rest(): string
      reads this
      requires Valid()
    {
      s[i..]
    }

    /** The result of a parse step agrees with the grammar, cursor included. */
    ghost predicate Matches(r: Result, spec: Parsed)
      reads this
    {
      && Valid()
      && match spec
         case Err(e) => r == Failure(e)
         case Ok(b, rest) => r == Success(b) && Rest() == rest
    }

    method SkipWhitespace()
      requires Valid()
      modifies this
      ensures Valid() && Rest() == SkipSpaces(old(Rest()))
      ensures i >= old(i)
    {
      hide SkipSpaces;
      while i < |s| && IsSpace(s[i])
        invariant Valid() && old(i) <= i
        invariant SkipSpaces(Rest()) == SkipSpaces(old(Rest()))
      {
        SkipOne(Rest());
        assert Rest()[1..] == s[i + 1..];
        i := i + 1;
      }
      SkipNone(Rest());
    }

    function Peek(): char
      reads this
    {
      if i >= |s| then '\0' else s[i]
    }

    method ParseExpr() returns (r: Result)
      requires Valid()
      modifies this
      ensures Matches(r, ParseE(mode, old(Rest())))
      ensures i >= old(i)
      decreases |s| - i, 3
    {
      hide ParseT, ParseF, SkipSpaces;
      ghost var text := Rest();
      ghost var first := ParseT(mode, text);
      r := ParseTerm();
      if r.Failure? { return; }
      assert first == Ok(r.expr, Rest());
      SkipWhitespace();
      ghost var after := Rest();
      if Peek() != '|' {
        assert ParseE(mode, text) == Ok(r.expr, after);
        return;
      }
      i := i + 1;
      assert Rest() == after[1..];
      ghost var second := ParseE(mode, after[1..]);
      var r2 := ParseExpr();
      if r2.Failure? { return r2; }
      assert second == Ok(r2.expr, Rest());
      r := Success(Or(r.expr, r2.expr));
    }

    method ParseTerm() returns (r: Result)
      requires Valid()
      modifies this
      ensures Matches(r, ParseT(mode, old(Rest())))
      ensures i >= old(i)
      decreases |s| - i, 2
    {
      hide ParseE, ParseF, SkipSpaces;
      ghost var text := Rest();
      ghost var first := ParseF(mode, text);
      r := ParseFactor();
      if r.Failure? { return; }
      assert first == Ok(r.expr, Rest());
      SkipWhitespace();
      ghost var after := Rest();
      if Peek() != '&' {
        assert ParseT(mode, text) == Ok(r.expr, after);
        return;
      }
      i := i + 1;
      assert Rest() == after[1..];
      ghost var second := ParseT(mode, after[1..]);
      var r2 := ParseTerm();
      if r2.Failure? { return r2; }
      assert second == Ok(r2.expr, Rest());
      r := Success(And(r.expr, r2.expr));
    }

    method ParseFactor() returns (r: Result)
      requires Valid()
      modifies this
      ensures Matches(r, ParseF(mode, old(Rest())))
      ensures i >= old(i)
      decreases |s| - i, 1
    {
      hide ParseE, ParseT, ParseF, Token, SkipSpaces;
      SkipFirst(mode, Rest());
      SkipWhitespace();
      ghost var t := Rest();
      if Peek() == '(' {
        r := ParseParens();
      } else if Peek() == '!' {
        NotUnfold(mode, t);
        i := i + 1;
        assert Rest() == t[1..];
        ghost var spec := ParseF(mode, t[1..]);
        r := ParseFactor();
        if r.Failure? { return; }
        assert spec == Ok(r.expr, Rest());
        r := Success(Not(r.expr));
      } else {
        TokenUnfold(mode, t);
        r := ParseToken();
      }
    }

    /** A parenthesised expression, from its opening parenthesis. */
    method ParseParens() returns (r: Result)
      requires Valid() && i < |s| && s[i] == '('
      modifies this
      ensures i >= old(i)
      ensures Matches(r, ParseF(mode, old(Rest())))
      decreases |s| - i, 0
    {
      hide ParseE, ParseT, ParseF, SkipSpaces;
      ghost var t := Rest();
      ghost var spec := ParseF(mode, t);
      ParensUnfold(mode, t);
      i := i + 1;
      ghost var inner := Rest();
      assert inner == t[1..];
      r := ParseExpr();
      if r.Failure? {
        assert spec == Err(r.error);
        return;
      }
      ghost var before := Rest();
      assert ParseE(mode, inner) == Ok(r.expr, before);
      SkipWhitespace();
      ghost var after := Rest();
      assert after == SkipSpaces(before);
      if i >= |s| || s[i] != ')' {
        assert spec == Err(Unbalanced);
        return Failure(Unbalanced);
      }
      assert spec == Ok(r.expr, after[1..]);
      i := i + 1;
      assert Rest() == after[1..];
    }

    method ParseToken() returns (r: Result)
      requires Valid()
      modifies this
      ensures i >= old(i)
      ensures Matches(r, Token(mode, old(Rest())))
    {
      hide ParseAtom, TrimRight;
      var start := i;
      ghost var t := Rest();
      ghost var n := SpanLength(t, AtomChar);
      while i < |s| && AtomChar(s[i])
        invariant Valid() && start <= i
        invariant i - start <= n
      {
        assert s[i] == t[i - start];
        i := i + 1;
      }
      assert i - start == n;
      assert s[start..i] == t[..n] && Rest() == t[n..];
      match ParseAtom(mode, TrimRight(s[start..i]))
      case Err(e) => r := Failure(e);
      case Ok(b, _) => r := Success(b);
    }
  }

  datatype Result = Success(expr: Expr) | Failure(error: ParseError)

  /** Parse: compile a lock string. Text after the first complete expression is ignored. */
  method Parse(s: string, mode: Mode) returns (r: Result)
    ensures match ParseE(mode, s)
            case Err(e) => r == Failure(e)
            case Ok(b, _) => r == Success(b)
  {
    var p := new Parser(s, mode);
    assert p.Rest() == s;
    r := p.ParseExpr();
  }
}
