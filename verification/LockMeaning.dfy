/** What a lock means: its connectives in a world that answers as it likes, and the whole of it
    for one player and one object. */
module LockMeaning {
  import opened Text
  import opened Decimal
  import opened Refs
  import opened LockSyntax
  import opened LockRoundTrip
  import opened LockEval
  import opened Walks

  // ---------- The connectives ----------

  /** The operands that stand side by side under '&', in order. */
  function AndOperands(e: Expr): (es: seq<Expr>)
    ensures es != []
  {
    if e.And? then AndOperands(e.left) + AndOperands(e.right) else [e]
  }

  function OrOperands(e: Expr): (es: seq<Expr>)
    ensures es != []
  {
    if e.Or? then OrOperands(e.left) + OrOperands(e.right) else [e]
  }

  /** What has been asked once the first k operands have been evaluated in turn. */
  function After(world: Oracle, asked: seq<Atom>, es: seq<Expr>, k: nat): seq<Atom>
    requires k <= |es|
    decreases k
  {
    if k == 0 then asked else After(world, Eval(world, asked, es[0]).1, es[1..], k - 1)
  }

  /** Whether an operand passes in the state the earlier ones left. */
  predicate Passes(world: Oracle, asked: seq<Atom>, es: seq<Expr>, k: nat)
    requires k < |es|
  {
    Eval(world, After(world, asked, es, k), es[k]).0
  }

  /** The first k operands all answer the same. */
  ghost predicate Uniform(world: Oracle, asked: seq<Atom>, es: seq<Expr>, k: nat, pass: bool)
    requires k <= |es|
  {
    forall j :: 0 <= j < k ==> Passes(world, asked, es, j) == pass
  }

  /** Operands one after the other for as long as they answer goesOn. */
  function Row(world: Oracle, asked: seq<Atom>, es: seq<Expr>, goesOn: bool): (bool, seq<Atom>)
    decreases |es|
  {
    if es == [] then (goesOn, asked)
    else
      var (a, after) := Eval(world, asked, es[0]);
      if a == goesOn then Row(world, after, es[1..], goesOn) else (a, after)
  }

  lemma {:induction false} RowsJoin(world: Oracle, asked: seq<Atom>, l: seq<Expr>, r: seq<Expr>, goesOn: bool)
    ensures
      var (a, after) := Row(world, asked, l, goesOn);
      Row(world, asked, l + r, goesOn) == if a == goesOn then Row(world, after, r, goesOn) else (a, after)
    decreases |l|
  {
    hide Eval;
    if l == [] {
      assert l + r == r;
    } else {
      assert (l + r)[1..] == l[1..] + r;
      RowsJoin(world, Eval(world, asked, l[0]).1, l[1..], r, goesOn);
    }
  }

  lemma RowOfOne(world: Oracle, asked: seq<Atom>, e: Expr, goesOn: bool)
    ensures Row(world, asked, [e], goesOn) == Eval(world, asked, e)
  {
    hide Eval;
  }

  lemma {:induction false} AndIsRow(world: Oracle, asked: seq<Atom>, e: Expr)
    ensures Eval(world, asked, e) == Row(world, asked, AndOperands(e), true)
    decreases e
  {
    hide Row;
    if e.And? {
      AndIsRow(world, asked, e.left);
      AndIsRow(world, Eval(world, asked, e.left).1, e.right);
      RowsJoin(world, asked, AndOperands(e.left), AndOperands(e.right), true);
    } else {
      RowOfOne(world, asked, e, true);
    }
  }

  lemma {:induction false} OrIsRow(world: Oracle, asked: seq<Atom>, e: Expr)
    ensures Eval(world, asked, e) == Row(world, asked, OrOperands(e), false)
    decreases e
  {
    hide Row;
    if e.Or? {
      OrIsRow(world, asked, e.left);
      OrIsRow(world, Eval(world, asked, e.left).1, e.right);
      RowsJoin(world, asked, OrOperands(e.left), OrOperands(e.right), false);
    } else {
      RowOfOne(world, asked, e, false);
    }
  }

  /** A row ends at the first operand that does not go on, and asks nothing after it. */
  lemma {:induction false} RowStops(world: Oracle, asked: seq<Atom>, es: seq<Expr>, k: nat, goesOn: bool)
    requires k <= |es| && Uniform(world, asked, es, k, goesOn)
    ensures k == |es| ==> Row(world, asked, es, goesOn) == (goesOn, After(world, asked, es, k))
    ensures k < |es| && Passes(world, asked, es, k) != goesOn ==>
      Row(world, asked, es, goesOn) == (!goesOn, After(world, asked, es, k + 1))
    decreases |es|
  {
    hide Eval;
    if k > 0 {
      var after := Eval(world, asked, es[0]).1;
      assert Passes(world, asked, es, 0) == goesOn;
      forall j | 0 <= j < k - 1 ensures Passes(world, after, es[1..], j) == goesOn {
        assert Passes(world, asked, es, j + 1) == goesOn;
      }
      RowStops(world, after, es[1..], k - 1, goesOn);
    }
  }

  /** Operands joined by '&': the lock passes if and only if each passes in the state the
      earlier ones left, and nothing is asked after the first that fails. */
  lemma AndPassesIffAll(world: Oracle, asked: seq<Atom>, e: Expr)
    ensures
      var es := AndOperands(e);
      && (Uniform(world, asked, es, |es|, true) ==> Eval(world, asked, e) == (true, After(world, asked, es, |es|)))
      && (forall k :: 0 <= k < |es| && !Passes(world, asked, es, k) && Uniform(world, asked, es, k, true) ==>
            Eval(world, asked, e) == (false, After(world, asked, es, k + 1)))
      && (Eval(world, asked, e).0 <==> Uniform(world, asked, es, |es|, true))
  {
    hide Eval, Row, After, Passes;
    var es := AndOperands(e);
    AndIsRow(world, asked, e);
    RowsAnswer(world, asked, es, true);
  }

  /** Operands joined by '|': the lock fails if and only if each fails in the state the
      earlier ones left, and nothing is asked after the first that passes. */
  lemma OrFailsIffAll(world: Oracle, asked: seq<Atom>, e: Expr)
    ensures
      var es := OrOperands(e);
      && (Uniform(world, asked, es, |es|, false) ==> Eval(world, asked, e) == (false, After(world, asked, es, |es|)))
      && (forall k :: 0 <= k < |es| && Passes(world, asked, es, k) && Uniform(world, asked, es, k, false) ==>
            Eval(world, asked, e) == (true, After(world, asked, es, k + 1)))
      && (!Eval(world, asked, e).0 <==> Uniform(world, asked, es, |es|, false))
  {
    hide Eval, Row, After, Passes;
    var es := OrOperands(e);
    OrIsRow(world, asked, e);
    RowsAnswer(world, asked, es, false);
  }

  lemma RowsAnswer(world: Oracle, asked: seq<Atom>, es: seq<Expr>, goesOn: bool)
    ensures Uniform(world, asked, es, |es|, goesOn) ==>
      Row(world, asked, es, goesOn) == (goesOn, After(world, asked, es, |es|))
    ensures forall k :: 0 <= k < |es| && Passes(world, asked, es, k) != goesOn && Uniform(world, asked, es, k, goesOn) ==>
      Row(world, asked, es, goesOn) == (!goesOn, After(world, asked, es, k + 1))
    ensures Row(world, asked, es, goesOn).0 == goesOn <==> Uniform(world, asked, es, |es|, goesOn)
  {
    hide Eval, Row, After, Passes;
    forall k | 0 <= k <= |es| && Uniform(world, asked, es, k, goesOn)
      ensures k == |es| ==> Row(world, asked, es, goesOn) == (goesOn, After(world, asked, es, k))
      ensures k < |es| && Passes(world, asked, es, k) != goesOn ==>
        Row(world, asked, es, goesOn) == (!goesOn, After(world, asked, es, k + 1))
    {
      RowStops(world, asked, es, k, goesOn);
    }
    if !Uniform(world, asked, es, |es|, goesOn) {
      var k := FirstOther(world, asked, es, |es|, goesOn);
    }
  }

  lemma {:induction false} FirstOther(world: Oracle, asked: seq<Atom>, es: seq<Expr>, n: nat, goesOn: bool) returns (k: nat)
    requires n <= |es| && !Uniform(world, asked, es, n, goesOn)
    ensures k < n && Uniform(world, asked, es, k, goesOn) && Passes(world, asked, es, k) != goesOn
    decreases n
  {
    hide Passes;
    if Uniform(world, asked, es, n - 1, goesOn) {
      k := n - 1;
    } else {
      k := FirstOther(world, asked, es, n - 1, goesOn);
    }
  }

  /** '!' turns the verdict round and asks the same questions. */
  lemma NotFlips(world: Oracle, asked: seq<Atom>, e: Expr)
    ensures Eval(world, asked, Not(e)) == (!Eval(world, asked, e).0, Eval(world, asked, e).1)
  {}

  // ---------- A world that does not change while it is asked ----------

  /** The lock as a formula over what is true of each atom. */
  predicate Holds(e: Expr, truth: Atom -> bool) {
    match e
    case And(l, r) => Holds(l, truth) && Holds(r, truth)
    case Or(l, r) => Holds(l, truth) || Holds(r, truth)
    case Not(s) => !Holds(s, truth)
    case Const(n) => truth(IsThing(n))
    case Prop(name, value) => truth(HasValue(name, value))
  }

  /** The world that gives every question the same answer whenever it is asked. */
  function Steady(truth: Atom -> bool): Oracle {
    (asked: seq<Atom>) => asked != [] && truth(asked[|asked| - 1])
  }

  /** There a lock is that formula: stopping early changes no verdict. */
  lemma {:induction false} SteadyIsFormula(truth: Atom -> bool, asked: seq<Atom>, e: Expr)
    ensures Eval(Steady(truth), asked, e).0 <==> Holds(e, truth)
    decreases e
  {
    match e
    case And(l, r) =>
      SteadyIsFormula(truth, asked, l);
      SteadyIsFormula(truth, Eval(Steady(truth), asked, l).1, r);
    case Or(l, r) =>
      SteadyIsFormula(truth, asked, l);
      SteadyIsFormula(truth, Eval(Steady(truth), asked, l).1, r);
    case Not(s) => SteadyIsFormula(truth, asked, s);
    case Const(_) =>
    case Prop(_, _) =>
  }

  // ---------- One player and one object ----------

  /** What lets a player pass an object atom: a program that lets it pass, or being the player,
      its owner, where it is or what it carries. */
  predicate Related(v: View, target: Ref) {
    && target != NOTHING
    && if v.isProgram(target) then v.runLock(target)
       else target in {v.player, v.owner(v.player), v.location(v.player)} || target in v.contents(v.player)
  }

  ghost predicate Carries(v: View, thing: Ref, name: string, value: string, depth: Ref -> nat, height: Ref -> nat) {
    || (v.valid(thing) && HasStrict(v, thing, name, value))
    || Found(v, v.player, name, value, depth, height)
  }

  ghost function Truth(v: View, thing: Ref, depth: Ref -> nat, height: Ref -> nat): Atom -> bool {
    (a: Atom) =>
      match a
      case IsThing(target) => Related(v, target)
      case HasValue(name, value) => Carries(v, thing, name, value, depth, height)
  }

  /** The walk over the tree, each atom asked of the player and the object. */
  method EvalTree(v: View, e: Expr, thing: Ref, ghost depth: Ref -> nat, ghost height: Ref -> nat) returns (ok: bool)
    requires Grounded(v, depth, height)
    ensures ok == Eval(Steady(Truth(v, thing, depth, height)), [], e).0
    decreases e
  {
    ghost var truth := Truth(v, thing, depth, height);
    SteadyIsFormula(truth, [], e);
    match e {
      case And(l, r) =>
        ok := EvalTree(v, l, thing, depth, height);
        SteadyIsFormula(truth, [], l);
        SteadyIsFormula(truth, [], r);
        if ok { ok := EvalTree(v, r, thing, depth, height); }
      case Or(l, r) =>
        ok := EvalTree(v, l, thing, depth, height);
        SteadyIsFormula(truth, [], l);
        SteadyIsFormula(truth, [], r);
        if !ok { ok := EvalTree(v, r, thing, depth, height); }
      case Not(s) =>
        ok := EvalTree(v, s, thing, depth, height);
        SteadyIsFormula(truth, [], s);
        ok := !ok;
      case Const(n) => ok := EvalConst(v, n);
      case Prop(name, value) => ok := EvalProp(v, name, value, thing, depth, height);
    }
  }

  /** Eval: an object without a lock lets everyone through. */
  method EvalFor(v: View, lock: Option<Expr>, thing: Ref, ghost depth: Ref -> nat, ghost height: Ref -> nat)
    returns (ok: bool)
    requires Grounded(v, depth, height)
    ensures ok == EvalLock(Steady(Truth(v, thing, depth, height)), [], lock).0
  {
    match lock {
      case None => ok := true;
      case Some(e) => ok := EvalTree(v, e, thing, depth, height);
    }
  }

  // ---------- Lock text ----------

  function AndOf(es: seq<Expr>): Expr
    requires es != []
  {
    if |es| == 1 then es[0] else And(es[0], AndOf(es[1..]))
  }

  function OrOf(es: seq<Expr>): Expr
    requires es != []
  {
    if |es| == 1 then es[0] else Or(es[0], OrOf(es[1..]))
  }

  function Texts(es: seq<Expr>, outer: Outer): (ts: seq<string>)
    ensures |ts| == |es|
  {
    seq(|es|, k requires 0 <= k < |es| => Print(es[k], outer))
  }

  ghost predicate AllStorable(es: seq<Expr>) {
    forall k :: 0 <= k < |es| ==> Storable(es[k])
  }

  lemma TextsStep(es: seq<Expr>, outer: Outer, c: char)
    requires |es| > 1
    ensures Join(Texts(es, outer), c) == Print(es[0], outer) + [c] + Join(Texts(es[1..], outer), c)
  {
    hide Join, Print;
    assert Texts(es, outer) == [Print(es[0], outer)] + Texts(es[1..], outer);
    JoinStep(Print(es[0], outer), Texts(es[1..], outer), c);
  }

  lemma {:induction false} AndOfText(es: seq<Expr>, truth: Atom -> bool)
    requires es != [] && AllStorable(es)
    ensures Storable(AndOf(es)) && Print(AndOf(es), InAnd) == Join(Texts(es, InAnd), '&')
    ensures Holds(AndOf(es), truth) <==> forall k :: 0 <= k < |es| ==> Holds(es[k], truth)
    decreases |es|
  {
    hide Join;
    if |es| == 1 {
      JoinOne(Print(es[0], InAnd), '&');
      assert Texts(es, InAnd) == [Print(es[0], InAnd)];
    } else {
      AndOfText(es[1..], truth);
      TextsStep(es, InAnd, '&');
      assert forall k :: 1 <= k < |es| ==> es[k] == es[1..][k - 1];
    }
  }

  lemma {:induction false} OrOfText(es: seq<Expr>, truth: Atom -> bool)
    requires es != [] && AllStorable(es)
    ensures Storable(OrOf(es)) && Print(OrOf(es), InOr) == Join(Texts(es, InOr), '|')
    ensures Holds(OrOf(es), truth) <==> exists k :: 0 <= k < |es| && Holds(es[k], truth)
    decreases |es|
  {
    hide Join;
    if |es| == 1 {
      JoinOne(Print(es[0], InOr), '|');
      assert Texts(es, InOr) == [Print(es[0], InOr)];
    } else {
      OrOfText(es[1..], truth);
      TextsStep(es, InOr, '|');
      assert forall k :: 1 <= k < |es| ==> es[k] == es[1..][k - 1];
    }
  }

  /** Stored text is read as a lock that means what the tree it was printed from meant. */
  lemma TextHolds(e: Expr, truth: Atom -> bool)
    requires Storable(e)
    ensures
      var r := ParseE(DbLoad, Print(e, Top));
      r.Ok? && r.rest == "" && (Holds(r.expr, truth) <==> Holds(e, truth))
  {
    hide ParseE, Print, Eval, Canon;
    ExprReparses(e, "");
    assert Print(e, Top) + "" == Print(e, Top);
    EvalCanon(Steady(truth), [], e);
    SteadyIsFormula(truth, [], e);
    SteadyIsFormula(truth, [], Canon(e));
  }

  /** Text of locks joined by '&' is a lock that lets through exactly whom each of them does. */
  lemma AndTextMeans(es: seq<Expr>, truth: Atom -> bool)
    requires |es| > 1 && AllStorable(es)
    ensures
      var r := ParseE(DbLoad, Join(Texts(es, InAnd), '&'));
      r.Ok? && r.rest == "" && (Holds(r.expr, truth) <==> forall k :: 0 <= k < |es| ==> Holds(es[k], truth))
  {
    hide ParseE, Join;
    AndOfText(es, truth);
    PrintInside(AndOf(es), Top);
    PrintInside(AndOf(es), InAnd);
    TextHolds(AndOf(es), truth);
  }

  /** And text of locks joined by '|', whom any of them does. */
  lemma OrTextMeans(es: seq<Expr>, truth: Atom -> bool)
    requires |es| > 1 && AllStorable(es)
    ensures
      var r := ParseE(DbLoad, Join(Texts(es, InOr), '|'));
      r.Ok? && r.rest == "" && (Holds(r.expr, truth) <==> exists k :: 0 <= k < |es| && Holds(es[k], truth))
  {
    hide ParseE, Join;
    OrOfText(es, truth);
    PrintInside(OrOf(es), Top);
    PrintInside(OrOf(es), InOr);
    TextHolds(OrOf(es), truth);
  }

  function RefText(r: Ref): string {
    "#" + Itoa(r)
  }

  /** "#a&#b" lets through exactly whoever is related to both, and "#a|#b" to either. */
  lemma LockOfTwo(v: View, a: Ref, b: Ref, thing: Ref, depth: Ref -> nat, height: Ref -> nat)
    ensures
      var truth := Truth(v, thing, depth, height);
      var both, either := ParseE(DbLoad, RefText(a) + "&" + RefText(b)), ParseE(DbLoad, RefText(a) + "|" + RefText(b));
      && both.Ok? && (Holds(both.expr, truth) <==> Related(v, a) && Related(v, b))
      && either.Ok? && (Holds(either.expr, truth) <==> Related(v, a) || Related(v, b))
  {
    hide ParseE, Join, Related;
    var truth := Truth(v, thing, depth, height);
    var es := [Const(a), Const(b)];
    AndTextMeans(es, truth);
    OrTextMeans(es, truth);
    PairJoins(RefText(a), RefText(b), '&');
    PairJoins(RefText(a), RefText(b), '|');
    assert Texts(es, InAnd) == [RefText(a), RefText(b)] == Texts(es, InOr);
    assert Holds(es[0], truth) == Related(v, a) && Holds(es[1], truth) == Related(v, b);
  }

  lemma PairJoins(a: string, b: string, c: char)
    ensures Join([a, b], c) == a + [c] + b
  {}

  // ---------- Where a property is found ----------

  /** k is r without its fraction, as a conversion to an integer leaves it. */
  predicate Truncated(r: real, k: int) {
    if r >= 0.0 then k as real <= r < k as real + 1.0 else k as real - 1.0 < r <= k as real
  }

  /** What a property on one object says: text must match the lock's value, once it has been
      expanded; a number passes exactly when it is zero, a fraction dropped, whatever value the
      lock names; nothing else passes. */
  lemma StrictMeans(v: View, what: Ref, name: string, value: string)
    ensures HasStrict(v, what, name, value) <==>
      match v.prop(what, name)
      case Some(Str(text, blessed)) => v.wild(v.expand(what, text, blessed), value)
      case Some(Num(n)) => n == 0
      case Some(Real(r)) => Truncated(r, 0)
      case _ => false
  {}

  /** Each is directly inside the one before. */
  ghost predicate Nested(v: View, p: seq<Ref>) {
    forall i :: 0 <= i < |p| - 1 ==> p[i + 1] in v.contents(p[i])
  }

  /** a is k environment steps from o, with an object at each. */
  ghost predicate Ancestor(v: View, a: Ref, o: Ref, k: nat) {
    k >= 1 && Iter(v.parent, o, k) == a && forall j :: 1 <= j <= k ==> Iter(v.parent, o, j) != NOTHING
  }

  /** The object itself has the value, or with the environment check some ancestor has. */
  ghost predicate Shows(v: View, o: Ref, name: string, value: string) {
    || HasStrict(v, o, name, value)
    || (v.envCheck && exists a, k: nat :: Ancestor(v, a, o, k) && HasStrict(v, a, name, value))
  }

  lemma {:induction false} AboveIsAncestor(v: View, a: Ref, o: Ref, depth: Ref -> nat, height: Ref -> nat)
    requires Grounded(v, depth, height)
    ensures Above(v, a, o, height(o)) <==> exists k: nat :: Ancestor(v, a, o, k)
    decreases height(o)
  {
    var at := v.parent(o);
    if at != NOTHING {
      AboveIsAncestor(v, a, at, depth, height);
      AboveStable(v, a, at, height(o) - 1, depth, height);
      if k: nat :| Ancestor(v, a, at, k) {
        assert Iter(v.parent, o, k + 1) == a;
        forall j | 1 <= j <= k + 1 ensures Iter(v.parent, o, j) != NOTHING {
          assert Iter(v.parent, o, j) == Iter(v.parent, at, j - 1);
        }
        assert Ancestor(v, a, o, k + 1);
      }
      if k: nat :| Ancestor(v, a, o, k) && a != at {
        forall j | 1 <= j <= k - 1 ensures Iter(v.parent, at, j) != NOTHING {
          assert Iter(v.parent, o, j + 1) == Iter(v.parent, at, j);
        }
        assert Iter(v.parent, at, k - 1) == a;
        assert Iter(v.parent, at, 0) == at;
        assert Ancestor(v, a, at, k - 1);
      }
      assert Iter(v.parent, o, 1) == Iter(v.parent, at, 0) == at;
      assert Ancestor(v, at, o, 1);
    } else {
      forall k: nat | Ancestor(v, a, o, k) ensures false {
        assert Iter(v.parent, o, 1) == Iter(v.parent, at, 0);
      }
    }
  }

  lemma FoundAtIsShows(v: View, o: Ref, name: string, value: string, depth: Ref -> nat, height: Ref -> nat)
    requires Grounded(v, depth, height)
    ensures FoundAt(v, o, name, value, height) <==> Shows(v, o, name, value)
  {
    hide HasStrict;
    forall a ensures Above(v, a, o, height(o)) <==> exists k: nat :: Ancestor(v, a, o, k) {
      AboveIsAncestor(v, a, o, depth, height);
    }
  }

  lemma {:induction false} InsideHasPath(v: View, o: Ref, what: Ref, n: nat) returns (p: seq<Ref>)
    requires Inside(v, o, what, n)
    ensures p != [] && p[0] == what && p[|p| - 1] == o && Nested(v, p)
    decreases n
  {
    p := [what];
    if o != what {
      var c :| c in v.contents(what) && Inside(v, o, c, n - 1);
      var rest := InsideHasPath(v, o, c, n - 1);
      p := [what] + rest;
    }
  }

  lemma {:induction false} PathIsInside(v: View, p: seq<Ref>, depth: Ref -> nat, height: Ref -> nat)
    requires Grounded(v, depth, height) && p != [] && Nested(v, p)
    ensures Inside(v, p[|p| - 1], p[0], depth(p[0]))
    decreases |p|
  {
    if |p| > 1 {
      var o, c := p[|p| - 1], p[1];
      assert c in v.contents(p[0]);
      PathIsInside(v, p[1..], depth, height);
      InsideStable(v, o, c, depth(p[0]) - 1, depth, height);
    }
  }

  /** A property is found exactly when some object shows it that the player is, carries, or has
      inside anything it carries, at any depth. */
  lemma FoundIff(v: View, what: Ref, name: string, value: string, depth: Ref -> nat, height: Ref -> nat)
    requires Grounded(v, depth, height)
    ensures Found(v, what, name, value, depth, height) <==>
      exists p :: p != [] && p[0] == what && Nested(v, p) && Shows(v, p[|p| - 1], name, value)
  {
    hide Shows, FoundAt, Inside, Nested;
    if Found(v, what, name, value, depth, height) {
      var o :| Inside(v, o, what, depth(what)) && FoundAt(v, o, name, value, height);
      FoundAtIsShows(v, o, name, value, depth, height);
      var p := InsideHasPath(v, o, what, depth(what));
    }
    if p :| p != [] && p[0] == what && Nested(v, p) && Shows(v, p[|p| - 1], name, value) {
      FoundAtIsShows(v, p[|p| - 1], name, value, depth, height);
      PathIsInside(v, p, depth, height);
    }
  }
}
