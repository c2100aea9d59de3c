/** Evaluating a lock: the short-circuit order, and what a single atom asks of the world. */
module LockEval {
  import opened Text
  import opened Decimal
  import opened Refs
  import opened LockSyntax
  import opened LockRoundTrip

  /** The questions a lock puts to the world. */
  datatype Atom = IsThing(thing: Ref) | HasValue(name: string, value: string)

  /** The world answers each question from everything asked so far, so a question may
      have side effects: a lock program can change what the next atom sees. */
  type Oracle = seq<Atom> -> bool

  function Ask(world: Oracle, asked: seq<Atom>, a: Atom): (bool, seq<Atom>) {
    (world(asked + [a]), asked + [a])
  }

  /** The verdict, and the questions asked to reach it, oldest first. */
  function Eval(world: Oracle, asked: seq<Atom>, e: Expr): (bool, seq<Atom>)
    decreases e
  {
    match e
    case And(l, r) =>
      var (a, after) := Eval(world, asked, l);
      if a then Eval(world, after, r) else (false, after)
    case Or(l, r) =>
      var (a, after) := Eval(world, asked, l);
      if a then (true, after) else Eval(world, after, r)
    case Not(s) =>
      var (a, after) := Eval(world, asked, s);
      (!a, after)
    case Const(n) => Ask(world, asked, IsThing(n))
    case Prop(name, value) => Ask(world, asked, HasValue(name, value))
  }

  /** An unlocked lock passes without asking anything. */
  function EvalLock(world: Oracle, asked: seq<Atom>, lock: Option<Expr>): (bool, seq<Atom>) {
    match lock
    case None => (true, asked)
    case Some(e) => Eval(world, asked, e)
  }

  /** The lock of an object that has none lets everyone through and asks nothing. */
  lemma UnsetLockPasses(world: Oracle, asked: seq<Atom>)
    ensures EvalLock(world, asked, None) == (true, asked)
  {}

  lemma {:induction false} EvalAppendAnd(world: Oracle, asked: seq<Atom>, x: Expr, y: Expr)
    ensures Eval(world, asked, AppendAnd(x, y)) == Eval(world, asked, And(x, y))
    decreases x
  {
    if x.And? {
      EvalAppendAnd(world, Eval(world, asked, x.left).1, x.right, y);
    }
  }

  lemma {:induction false} EvalAppendOr(world: Oracle, asked: seq<Atom>, x: Expr, y: Expr)
    ensures Eval(world, asked, AppendOr(x, y)) == Eval(world, asked, Or(x, y))
    decreases x
  {
    if x.Or? {
      EvalAppendOr(world, Eval(world, asked, x.left).1, x.right, y);
    }
  }

  /** Re-association changes neither the verdict nor what is asked, nor in what order. */
  lemma {:induction false} EvalCanon(world: Oracle, asked: seq<Atom>, e: Expr)
    ensures Eval(world, asked, Canon(e)) == Eval(world, asked, e)
    decreases e
  {
    match e
    case And(l, r) =>
      EvalCanon(world, asked, l);
      EvalCanon(world, Eval(world, asked, l).1, r);
      EvalAppendAnd(world, asked, Canon(l), Canon(r));
    case Or(l, r) =>
      EvalCanon(world, asked, l);
      EvalCanon(world, Eval(world, asked, l).1, r);
      EvalAppendOr(world, asked, Canon(l), Canon(r));
    case Not(s) => EvalCanon(world, asked, s);
    case Const(_) =>
    case Prop(_, _) =>
  }

  /** The law the store rests on: whatever a player typed, the stored text parses back
      completely, to the right-associated form of the same lock, which any world answers
      alike by the same questions in the same order, and which is stored as the same text. */
  lemma StoredLockKeepsMeaning(mode: Mode, typed: string, world: Oracle, asked: seq<Atom>)
    requires ParseE(mode, typed).Ok?
    ensures
      var e := ParseE(mode, typed).expr;
      var text := Unparse(Some(e));
      && ParseE(DbLoad, text) == Ok(Canon(e), "")
      && RightAssociated(Canon(e))
      && EvalLock(world, asked, Some(Canon(e))) == EvalLock(world, asked, Some(e))
      && Unparse(Some(Canon(e))) == text
  {
    var e := ParseE(mode, typed).expr;
    ParseEStorable(mode, typed);
    ExprReparses(e, "");
    assert Print(e, Top) + "" == Print(e, Top);
    CanonIsRightAssociated(e);
    EvalCanon(world, asked, e);
    PrintCanon(e, Top);
  }

  /** Two locks share their stored text exactly when they differ by association only. */
  lemma TextIdentifiesLock(a: Expr, b: Expr)
    requires Storable(a) && Storable(b)
    ensures Print(a, Top) == Print(b, Top) <==> Canon(a) == Canon(b)
  {
    ExprReparses(a, "");
    ExprReparses(b, "");
    assert Print(a, Top) + "" == Print(a, Top) && Print(b, Top) + "" == Print(b, Top);
    PrintCanon(a, Top);
    PrintCanon(b, Top);
  }

  /** The text of an unlocked lock is not lock text: it must not be stored as a lock. */
  lemma UnlockedTextIsNotALock()
    ensures ParseE(DbLoad, Unparse(None)) == Err(BadRef(UNLOCKED))
  {
    UnlockedIsOneToken();
    ParseToken(UNLOCKED, "");
    assert UNLOCKED + "" == UNLOCKED;
  }

  lemma UnlockedIsOneToken()
    ensures forall k :: 0 <= k < |UNLOCKED| ==> AtomChar(UNLOCKED[k]) && UNLOCKED[k] != ':'
    ensures !IsSpace(UNLOCKED[0]) && !IsSpace(UNLOCKED[|UNLOCKED| - 1]) && UNLOCKED[0] == '*'
  {}

  // ---------- What one atom asks ----------

  datatype PropValue = Str(text: string, blessed: bool) | Num(n: int) | Real(r: real) | OtherType

  /** The parts of the world an atom looks at, for one player and one lock check. */
  datatype View = View(
    player: Ref,
    valid: Ref -> bool,
    isProgram: Ref -> bool,
    runLock: Ref -> bool,
    owner: Ref -> Ref,
    location: Ref -> Ref,
    contents: Ref -> seq<Ref>,
    parent: Ref -> Ref,
    envCheck: bool,
    prop: (Ref, string) -> Option<PropValue>,
    expand: (Ref, string, bool) -> string,
    wild: (string, string) -> bool)

  /** The dbref atom: a program decides by running; anything else passes by being the
      player, the player's owner, location or possession. */
  method EvalConst(v: View, target: Ref) returns (ok: bool)
    ensures ok <==>
      && target != NOTHING
      && if v.isProgram(target) then v.runLock(target)
         else target in {v.player, v.owner(v.player), v.location(v.player)} || target in v.contents(v.player)
  {
    if target == NOTHING { return false; }
    if v.isProgram(target) { return v.runLock(target); }
    if target == v.player || target == v.owner(v.player) || target == v.location(v.player) {
      return true;
    }
    var held := v.contents(v.player);
    for k := 0 to |held|
      invariant target !in held[..k]
    {
      if held[k] == target { return true; }
    }
    return false;
  }

  /** int64(f) truncates toward zero, so a float passes when it lies strictly inside (-1, 1). */
  predicate HasStrict(v: View, what: Ref, name: string, value: string) {
    match v.prop(what, name)
    case None => false
    case Some(Str(text, blessed)) => v.wild(v.expand(what, text, blessed), value)
    case Some(Num(n)) => n == 0
    case Some(Real(r)) => -1.0 < r < 1.0
    case Some(OtherType) => false
  }

  /** o is what itself or is somewhere inside it. */
  ghost predicate Inside(v: View, o: Ref, what: Ref, depth: nat)
    decreases depth
  {
    o == what || (depth > 0 && exists c :: c in v.contents(what) && Inside(v, o, c, depth - 1))
  }

  /** a is reached from o by one or more environment steps, none of them through NOTHING. */
  ghost predicate Above(v: View, a: Ref, o: Ref, height: nat)
    decreases height
  {
    height > 0 && v.parent(o) != NOTHING && (a == v.parent(o) || Above(v, a, v.parent(o), height - 1))
  }

  /** Containment and environment are finite below and above everything. The original
      walks both without a bound, so on any other world it does not return. */
  ghost predicate Grounded(v: View, depth: Ref -> nat, height: Ref -> nat) {
    && (forall x, c :: c in v.contents(x) ==> depth(c) < depth(x))
    && (forall x :: v.parent(x) != NOTHING ==> height(v.parent(x)) < height(x))
  }

  /** Where the property atom finds its value: on something inside what, or, with the
      environment check on, on something above one of those. */
  ghost predicate Found(v: View, what: Ref, name: string, value: string, depth: Ref -> nat, height: Ref -> nat) {
    exists o :: Inside(v, o, what, depth(what)) && FoundAt(v, o, name, value, height)
  }

  ghost predicate FoundAt(v: View, o: Ref, name: string, value: string, height: Ref -> nat) {
    || HasStrict(v, o, name, value)
    || (v.envCheck && exists a :: Above(v, a, o, height(o)) && HasStrict(v, a, name, value))
  }

  /** More fuel finds nothing new once the fuel covers the whole containment below. */
  lemma {:induction false} InsideStable(v: View, o: Ref, what: Ref, d: nat, depth: Ref -> nat, height: Ref -> nat)
    requires Grounded(v, depth, height) && depth(what) <= d
    ensures Inside(v, o, what, d) <==> Inside(v, o, what, depth(what))
    decreases depth(what)
  {
    if o != what {
      forall c | c in v.contents(what)
        ensures 0 < depth(what) <= d
        ensures Inside(v, o, c, d - 1) <==> Inside(v, o, c, depth(what) - 1)
      {
        assert depth(c) < depth(what);
        InsideStable(v, o, c, d - 1, depth, height);
        InsideStable(v, o, c, depth(what) - 1, depth, height);
      }
    }
  }

  lemma {:induction false} AboveStable(v: View, a: Ref, o: Ref, h: nat, depth: Ref -> nat, height: Ref -> nat)
    requires Grounded(v, depth, height) && height(o) <= h
    ensures Above(v, a, o, h) <==> Above(v, a, o, height(o))
    decreases height(o)
  {
    if v.parent(o) != NOTHING {
      AboveStable(v, a, v.parent(o), h - 1, depth, height);
      AboveStable(v, a, v.parent(o), height(o) - 1, depth, height);
    }
  }

  /** Found on what, or on one of the things directly inside it and below. */
  lemma FoundSplits(v: View, what: Ref, name: string, value: string, depth: Ref -> nat, height: Ref -> nat)
    requires Grounded(v, depth, height)
    ensures Found(v, what, name, value, depth, height) <==>
      FoundAt(v, what, name, value, height)
      || exists c :: c in v.contents(what) && Found(v, c, name, value, depth, height)
  {
    forall o, c | c in v.contents(what)
      ensures depth(what) > 0
      ensures Inside(v, o, c, depth(what) - 1) <==> Inside(v, o, c, depth(c))
    {
      assert depth(c) < depth(what);
      InsideStable(v, o, c, depth(what) - 1, depth, height);
    }
    if FoundAt(v, what, name, value, height) {
      assert Inside(v, what, what, depth(what));
    }
    forall c | c in v.contents(what) && Found(v, c, name, value, depth, height)
      ensures Found(v, what, name, value, depth, height)
    {
      var o :| Inside(v, o, c, depth(c)) && FoundAt(v, o, name, value, height);
      assert Inside(v, o, c, depth(what) - 1);
      assert Inside(v, o, what, depth(what));
    }
  }

  method EnvironmentHas(v: View, what: Ref, name: string, value: string, ghost depth: Ref -> nat, ghost height: Ref -> nat)
    returns (ok: bool)
    requires Grounded(v, depth, height)
    ensures ok <==> exists a :: Above(v, a, what, height(what)) && HasStrict(v, a, name, value)
  {
    var at := v.parent(what);
    ghost var below := what;
    while at != NOTHING
      invariant at == v.parent(below)
      invariant (exists a :: Above(v, a, what, height(what)) && HasStrict(v, a, name, value))
           <==> (exists a :: Above(v, a, below, height(below)) && HasStrict(v, a, name, value))
      decreases height(below)
    {
      forall a
        ensures Above(v, a, below, height(below)) <==> (a == at || Above(v, a, at, height(at)))
      {
        AboveStable(v, a, at, height(below) - 1, depth, height);
      }
      if HasStrict(v, at, name, value) {
        assert Above(v, at, below, height(below));
        return true;
      }
      below, at := at, v.parent(at);
    }
    return false;
  }

  /** The property atom finds its value exactly where Found says. */
  method HasProperty(v: View, what: Ref, name: string, value: string, ghost depth: Ref -> nat, ghost height: Ref -> nat)
    returns (ok: bool)
    requires Grounded(v, depth, height)
    ensures ok <==> Found(v, what, name, value, depth, height)
    decreases depth(what)
  {
    FoundSplits(v, what, name, value, depth, height);
    if HasStrict(v, what, name, value) { return true; }
    var inside := v.contents(what);
    for k := 0 to |inside|
      invariant forall j :: 0 <= j < k ==> !Found(v, inside[j], name, value, depth, height)
    {
      var found := HasProperty(v, inside[k], name, value, depth, height);
      if found { return true; }
    }
    assert !exists c :: c in inside && Found(v, c, name, value, depth, height);
    if v.envCheck {
      var found := EnvironmentHas(v, what, name, value, depth, height);
      return found;
    }
    return false;
  }

  /** The property atom: the lock's own object first, then everything the player has. */
  method EvalProp(v: View, name: string, value: string, thing: Ref, ghost depth: Ref -> nat, ghost height: Ref -> nat)
    returns (ok: bool)
    requires Grounded(v, depth, height)
    ensures ok <==>
      || (v.valid(thing) && HasStrict(v, thing, name, value))
      || Found(v, v.player, name, value, depth, height)
  {
    if v.valid(thing) && HasStrict(v, thing, name, value) { return true; }
    ok := HasProperty(v, v.player, name, value, depth, height);
  }
}
