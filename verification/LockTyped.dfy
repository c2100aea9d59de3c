/** What a player can get into a lock by typing it: only what it may name, and all of that. */
module LockTyped {
  import opened Text
  import opened Decimal
  import opened Refs
  import opened LockSyntax
  import opened LockRoundTrip

  /** Everything the tree tests is something the player could name: an object found for some
      text, that is one object, and a property that is no system property and, unless the
      player is a wizard, not hidden from it. */
  ghost predicate Nameable(host: Host, e: Expr) {
    match e
    case And(l, r) => Nameable(host, l) && Nameable(host, r)
    case Or(l, r) => Nameable(host, l) && Nameable(host, r)
    case Not(s) => Nameable(host, s)
    case Const(n) => n != NOTHING && n != AMBIGUOUS && exists buf :: ':' !in buf && host.find(buf) == n
    case Prop(name, value) => exists buf :: MayTest(host, buf, name, value)
  }

  predicate MayTest(host: Host, buf: string, name: string, value: string) {
    && ':' in buf && ParseProp(buf) == Ok(Prop(name, value), "")
    && !host.isSystem(buf) && (host.wizard || !host.isHidden(buf))
  }

  lemma AtomIsNameable(host: Host, buf: string)
    ensures
      var r := ParseAtom(Typed(host), buf);
      r.Ok? ==> Nameable(host, r.expr)
  {
    hide SkipSpaces, TrimRight, IndexOf;
    var r := ParseAtom(Typed(host), buf);
    if r.Ok? && r.expr.Prop? { assert MayTest(host, buf, r.expr.name, r.expr.value); }
  }

  lemma {:induction false} FactorIsNameable(host: Host, text: string)
    ensures ParseF(Typed(host), text).Ok? ==> Nameable(host, ParseF(Typed(host), text).expr)
    decreases |text|, 0
  {
    hide ParseE, ParseT, ParseAtom;
    var t := SkipSpaces(text);
    if t != "" && t[0] == '(' {
      TypedIsNameable(host, t[1..]);
    } else if t != "" && t[0] == '!' {
      FactorIsNameable(host, t[1..]);
    } else {
      AtomIsNameable(host, TrimRight(t[..SpanLength(t, AtomChar)]));
    }
  }

  lemma {:induction false} TermIsNameable(host: Host, text: string)
    ensures ParseT(Typed(host), text).Ok? ==> Nameable(host, ParseT(Typed(host), text).expr)
    decreases |text|, 1
  {
    hide ParseF, ParseE;
    FactorIsNameable(host, text);
    var r := ParseF(Typed(host), text);
    if r.Ok? {
      var after := SkipSpaces(r.rest);
      if after != "" && after[0] == '&' { TermIsNameable(host, after[1..]); }
    }
  }

  /** Whatever is typed, a lock that comes of it tests only that. */
  lemma {:induction false} TypedIsNameable(host: Host, text: string)
    ensures ParseE(Typed(host), text).Ok? ==> Nameable(host, ParseE(Typed(host), text).expr)
    decreases |text|, 2
  {
    hide ParseF, ParseT;
    TermIsNameable(host, text);
    var r := ParseT(Typed(host), text);
    if r.Ok? {
      var after := SkipSpaces(r.rest);
      if after != "" && after[0] == '|' { TypedIsNameable(host, after[1..]); }
    }
  }

  // ---------- Stored text typed again ----------

  /** A player who finds every object by its number and may test every property. */
  ghost predicate SeesAll(host: Host) {
    && (forall buf :: !host.isSystem(buf)) && (host.wizard || forall buf :: !host.isHidden(buf))
    && forall buf, n :: ':' !in buf && ParseAtom(DbLoad, buf) == Ok(Const(n), "") && n != NOTHING && n != AMBIGUOUS ==>
         host.find(buf) == n
  }

  /** The tree names no object but real ones. */
  predicate RealObjects(e: Expr) {
    match e
    case And(l, r) => RealObjects(l) && RealObjects(r)
    case Or(l, r) => RealObjects(l) && RealObjects(r)
    case Not(s) => RealObjects(s)
    case Const(n) => n != NOTHING && n != AMBIGUOUS
    case Prop(_, _) => true
  }

  lemma AtomTyped(host: Host, buf: string)
    requires SeesAll(host) && ParseAtom(DbLoad, buf).Ok? && RealObjects(ParseAtom(DbLoad, buf).expr)
    ensures ParseAtom(Typed(host), buf).Ok? && ParseAtom(Typed(host), buf).expr == ParseAtom(DbLoad, buf).expr
  {
    hide ParseProp;
  }

  lemma {:induction false} FactorTyped(host: Host, text: string)
    requires SeesAll(host) && ParseF(DbLoad, text).Ok? && RealObjects(ParseF(DbLoad, text).expr)
    ensures ParseF(Typed(host), text) == ParseF(DbLoad, text)
    decreases |text|, 0
  {
    hide ParseE, ParseT, ParseAtom, SeesAll;
    var t := SkipSpaces(text);
    if t != "" && t[0] == '(' {
      StoredCanBeTyped(host, t[1..]);
    } else if t != "" && t[0] == '!' {
      FactorTyped(host, t[1..]);
    } else {
      AtomTyped(host, TrimRight(t[..SpanLength(t, AtomChar)]));
    }
  }

  lemma {:induction false} TermTyped(host: Host, text: string)
    requires SeesAll(host) && ParseT(DbLoad, text).Ok? && RealObjects(ParseT(DbLoad, text).expr)
    ensures ParseT(Typed(host), text) == ParseT(DbLoad, text)
    decreases |text|, 1
  {
    hide ParseF, ParseE, SeesAll;
    var r := ParseF(DbLoad, text);
    var after := SkipSpaces(r.rest);
    FactorTyped(host, text);
    if after != "" && after[0] == '&' { TermTyped(host, after[1..]); }
  }

  /** Stored text, typed by a player who may name everything in it, is the same lock. */
  lemma {:induction false} StoredCanBeTyped(host: Host, text: string)
    requires SeesAll(host) && ParseE(DbLoad, text).Ok? && RealObjects(ParseE(DbLoad, text).expr)
    ensures ParseE(Typed(host), text) == ParseE(DbLoad, text)
    decreases |text|, 2
  {
    hide ParseF, ParseT, SeesAll;
    var r := ParseT(DbLoad, text);
    var after := SkipSpaces(r.rest);
    TermTyped(host, text);
    if after != "" && after[0] == '|' { StoredCanBeTyped(host, after[1..]); }
  }

  // ---------- Single names ----------

  /** A token alone is read as its atom. */
  lemma TokenAlone(mode: Mode, w: string)
    requires w != "" && w[0] != '(' && w[0] != '!'
    requires !IsSpace(w[0]) && !IsSpace(w[|w| - 1])
    requires forall c :: c in w ==> AtomChar(c)
    ensures ParseE(mode, w) == (match ParseAtom(mode, w) case Ok(e, _) => Ok(e, "") case Err(x) => Err(x))
  {
    hide SkipSpaces, TrimRight, ParseAtom, SpanLength, ParseF;
    NoSkip(w);
    TokenUnfold(mode, w);
    SpanExact(w, "", AtomChar);
    assert w + "" == w && w[..|w|] == w && w[|w|..] == "";
    NoTrim(w);
    StopsSkips("");
  }

  /** A typed name is the object found for it, or one of the two refusals. */
  lemma NameTyped(host: Host, name: string)
    requires NameText(name)
    ensures
      var r, found := ParseE(Typed(host), name), host.find(name);
      && (r == Ok(Const(found), "") <==> found != NOTHING && found != AMBIGUOUS)
      && (r == Err(NotHere(name)) <==> found == NOTHING)
      && (r == Err(Unclear(name)) <==> found == AMBIGUOUS)
  {
    hide ParseE;
    TokenAlone(Typed(host), name);
  }

  /** A typed property is tested unless the player may not know of it. */
  lemma PropTyped(host: Host, name: string, value: string)
    requires NameText(name) && ValueText(value)
    ensures
      var text := name + ":" + value;
      ParseE(Typed(host), text) ==
        if host.isSystem(text) || (host.isHidden(text) && !host.wizard) then Err(HiddenProperty)
        else Ok(Prop(name, value), "")
  {
    hide ParseE, ParseProp;
    var text := name + ":" + value;
    assert text[|name|] == ':' && text[0] == name[0];
    assert value[|value| - 1] in value && text[|text| - 1] == value[|value| - 1];
    TokenAlone(Typed(host), text);
    PropAtom(name, value);
  }

  /** Stored text names objects by '#' and a number, and by nothing else. */
  lemma OnlyNumbersStored(name: string)
    requires NameText(name)
    ensures ParseE(DbLoad, name).Ok? <==>
      name[0] == '#' && |name| > 1 && ParseInt(name[1..], INT64_LIMIT).Some?
  {
    hide ParseE;
    TokenAlone(DbLoad, name);
  }

  // ---------- What is refused ----------

  /** A parenthesis that is not closed. */
  lemma UnclosedIsRefused(e: Expr)
    requires Storable(e)
    ensures ParseE(DbLoad, "(" + Print(e, Top)) == Err(Unbalanced)
  {
    hide ParseF, Print;
    var text := "(" + Print(e, Top);
    assert text[1..] == Print(e, Top) + "";
    ExprReparses(e, "");
    ParensUnfold(DbLoad, text);
    StopsSkips("");
  }

  /** A property test with nothing before its colon, or nothing after it. */
  lemma EmptyIsRefused(name: string, value: string)
    requires NameText(name) && ValueText(value)
    ensures ParseE(DbLoad, ":" + value) == Err(EmptyName)
    ensures ParseE(DbLoad, name + ":") == Err(EmptyValue)
  {
    hide ParseE, SkipSpaces, TrimRight, IndexOf, SpanLength;
    var a, b := ":" + value, name + ":";
    assert value[|value| - 1] in value && a[|a| - 1] == value[|value| - 1];
    assert b[0] == name[0] && b[|b| - 1] == ':';
    TokenAlone(DbLoad, a);
    TokenAlone(DbLoad, b);
    CutExact("", ':', value);
    CutExact(name, ':', "");
    assert "" + [':'] + value == a && name + [':'] + "" == b;
    NoTrim(name);
    TrimEmpty();
    StopsSkips("");
  }

  lemma TrimEmpty()
    ensures TrimRight("") == "" && SpanLength("", c => !IsSpace(c)) == 0
  {}
}
