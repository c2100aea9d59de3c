/** Moving objects without ever putting one inside itself: the two loop checks, the ladder
    of fallback destinations, and the store's own check behind them. */
module Moves {
  import opened Refs
  import opened Walks

  /** The part of an object that moving looks at. */
  datatype Object = Object(kind: Kind, location: Ref, home: Ref, owner: Ref)

  type Place = map<Ref, Object>

  /** Where an object is; something absent is nowhere. */
  function Up(w: Place): Step {
    (r: Ref) => if r in w then w[r].location else NOTHING
  }

  /** a is in b, directly or through other objects. */
  ghost predicate Inside(w: Place, a: Ref, b: Ref) {
    exists k :: k >= 1 && Iter(Up(w), a, k) == b
  }

  /** No object is inside itself. */
  ghost predicate Forest(w: Place) {
    forall r :: r in w ==> !Inside(w, r, r)
  }

  /** The special references name no objects, and everything is somewhere that exists or
      nowhere. */
  ghost predicate Grounded(w: Place) {
    && NOTHING !in w && HOME !in w
    && forall r :: r in w && w[r].location != NOTHING ==> w[r].location in w
  }

  /** And #0 is at the top. */
  ghost predicate Placed(w: Place) {
    Grounded(w) && GLOBAL in w && w[GLOBAL].location == NOTHING
  }

  function Relocate(w: Place, what: Ref, dest: Ref): Place
    requires what in w
  {
    w[what := w[what].(location := dest)]
  }

  // ---------- What relocating does to the chains ----------

  /** Until its first visit to the moved object, a new chain is an old one. */
  lemma {:induction false} OldUntilMoved(w: Place, what: Ref, dest: Ref, a: Ref, n: nat) returns (m: nat)
    requires what in w && Iter(Up(Relocate(w, what, dest)), a, n) == what
    ensures m <= n && Iter(Up(w), a, m) == what
    decreases n
  {
    m := 0;
    if a != what {
      var rest := OldUntilMoved(w, what, dest, Up(w)(a), n - 1);
      m := rest + 1;
    }
  }

  lemma {:induction false} SameAwayFromMoved(w: Place, what: Ref, dest: Ref, a: Ref, n: nat)
    requires what in w
    requires forall i :: 0 <= i < n ==> Iter(Up(Relocate(w, what, dest)), a, i) != what
    ensures Iter(Up(Relocate(w, what, dest)), a, n) == Iter(Up(w), a, n)
    decreases n
  {
    if n > 0 {
      var f := Up(Relocate(w, what, dest));
      assert Iter(f, a, 0) == a;
      forall i | 0 <= i < n - 1 ensures Iter(f, f(a), i) != what {
        assert Iter(f, a, i + 1) == Iter(f, f(a), i);
      }
      SameAwayFromMoved(w, what, dest, f(a), n - 1);
    }
  }

  /** A loop the move makes goes through the moved object. */
  lemma NewLoopMeetsMoved(w: Place, what: Ref, dest: Ref, r: Ref, k: nat)
    requires what in w && Forest(w) && r in w
    requires k >= 1 && Iter(Up(Relocate(w, what, dest)), r, k) == r
    ensures Iter(Up(Relocate(w, what, dest)), what, k) == what
  {
    var f := Up(Relocate(w, what, dest));
    if forall i :: 0 <= i < k ==> Iter(f, r, i) != what {
      SameAwayFromMoved(w, what, dest, r, k);
      assert Inside(w, r, r);
    } else {
      var i :| 0 <= i < k && Iter(f, r, i) == what;
      IterJoins(f, r, i, k);
      IterJoins(f, r, k, i);
    }
  }

  /** So the destination was the moved object, or inside it. */
  lemma NewLoopMeansInside(w: Place, what: Ref, dest: Ref, r: Ref)
    requires what in w && Forest(w) && r in w
    requires Inside(Relocate(w, what, dest), r, r)
    ensures dest == what || Inside(w, dest, what)
  {
    var f := Up(Relocate(w, what, dest));
    var k :| k >= 1 && Iter(f, r, k) == r;
    NewLoopMeetsMoved(w, what, dest, r, k);
    assert Iter(f, what, k) == Iter(f, dest, k - 1);
    var m := OldUntilMoved(w, what, dest, dest, k - 1);
    if m == 0 { assert dest == what; }
  }

  /** Moving an object somewhere that is not inside it keeps the forest, and moving it
      somewhere that is inside it breaks the forest. */
  lemma RelocateKeepsForest(w: Place, what: Ref, dest: Ref)
    requires Forest(w) && what in w
    ensures Forest(Relocate(w, what, dest)) <==> dest != what && !Inside(w, dest, what)
  {
    var w' := Relocate(w, what, dest);
    if dest == what || Inside(w, dest, what) {
      MovedIntoItself(w, what, dest);
    } else {
      forall r | r in w' ensures !Inside(w', r, r) {
        if Inside(w', r, r) { NewLoopMeansInside(w, what, dest, r); }
      }
    }
  }

  lemma MovedIntoItself(w: Place, what: Ref, dest: Ref)
    requires what in w && (dest == what || Inside(w, dest, what))
    ensures Inside(Relocate(w, what, dest), what, what)
  {
    var f := Up(Relocate(w, what, dest));
    var n := 0;
    if dest != what {
      n :| n >= 1 && Iter(Up(w), dest, n) == what;
    }
    var m := NewReaches(w, what, dest, dest, n);
    assert Iter(f, what, m + 1) == Iter(f, dest, m);
  }

  lemma {:induction false} NewReaches(w: Place, what: Ref, dest: Ref, a: Ref, n: nat) returns (m: nat)
    requires what in w && Iter(Up(w), a, n) == what
    ensures Iter(Up(Relocate(w, what, dest)), a, m) == what
    decreases n
  {
    m := 0;
    if a != what {
      var rest := NewReaches(w, what, dest, Up(w)(a), n - 1);
      m := rest + 1;
    }
  }

  // ---------- What the checks promise ----------

  /** Nothing is above NOTHING. */
  lemma {:induction false} NowhereStays(w: Place, k: nat)
    requires NOTHING !in w
    ensures Iter(Up(w), NOTHING, k) == NOTHING
    decreases k
  {
    if k > 0 { NowhereStays(w, k - 1); }
  }

  /** A walk that stopped at NOTHING or #0 saw everything above its start but #0. */
  lemma StoppedWalkSawAll(w: Place, dest: Ref, n: nat, k: nat)
    requires Placed(w) && 1 <= n && !GoesOn(Iter(Up(w), dest, n)) && k >= n
    ensures !GoesOn(Iter(Up(w), dest, k))
  {
    var f := Up(w);
    IterJoins(f, dest, n, k - n);
    if k > n {
      NowhereStays(w, k - n - 1);
      NowhereStays(w, k - n);
    }
  }

  /** Past the bound, or at the top within it. */
  lemma FirstStop(w: Place, dest: Ref) returns (n: nat)
    requires !LastsFor(Up(w), dest, MAX_PARENT_DEPTH)
    ensures 1 <= n <= MAX_PARENT_DEPTH && !GoesOn(Iter(Up(w), dest, n)) && LastsFor(Up(w), dest, n - 1)
  {
    n := 1;
    while GoesOn(Iter(Up(w), dest, n))
      invariant 1 <= n <= MAX_PARENT_DEPTH && LastsFor(Up(w), dest, n - 1)
      decreases MAX_PARENT_DEPTH - n
    {
      assert LastsFor(Up(w), dest, n);
      n := n + 1;
    }
  }

  /** For an object other than #0, the check notices whatever is inside it. */
  lemma InsideIsSeen(w: Place, source: Ref, dest: Ref)
    requires Placed(w) && source in w && source != GLOBAL
    requires Inside(w, dest, source)
    ensures Loops(Up(w), source, dest)
  {
    if !LastsFor(Up(w), dest, MAX_PARENT_DEPTH) {
      var k :| k >= 1 && Iter(Up(w), dest, k) == source;
      var n := FirstStop(w, dest);
      if k >= n { StoppedWalkSawAll(w, dest, n, k); }
      assert LastsFor(Up(w), dest, k);
    }
  }

  /** On a chain shorter than the bound the check is exact: for anything but #0 it finds a
      loop if and only if the destination is inside the object. */
  lemma CheckIsExact(w: Place, source: Ref, dest: Ref)
    requires Placed(w) && source in w && source != GLOBAL && dest in w
    requires !LastsFor(Up(w), dest, MAX_PARENT_DEPTH)
    ensures Loops(Up(w), source, dest) <==> Inside(w, dest, source)
  {
    if Loops(Up(w), source, dest) {
      NeverHome(w, dest);
    }
    if Inside(w, dest, source) {
      InsideIsSeen(w, source, dest);
    }
  }

  /** No chain of objects leads to HOME. */
  lemma NeverHome(w: Place, dest: Ref)
    requires Placed(w) && dest in w
    ensures !Meets(Up(w), dest, HOME, MAX_PARENT_DEPTH)
  {
    forall k | 1 <= k <= MAX_PARENT_DEPTH && LastsFor(Up(w), dest, k)
      ensures Iter(Up(w), dest, k) != HOME
    {
      StaysPlaced(w, dest, k);
    }
  }

  lemma {:induction false} StaysPlaced(w: Place, r: Ref, k: nat)
    requires Grounded(w) && (r in w || r == NOTHING)
    ensures Iter(Up(w), r, k) in w || Iter(Up(w), r, k) == NOTHING
    decreases k
  {
    if k > 0 { StaysPlaced(w, Up(w)(r), k - 1); }
  }

  /** The one object the walk cannot see is #0: for it, on any chain shorter than the bound,
      the check is clear even when the destination is inside it. */
  lemma TopIsNeverSeen(w: Place, dest: Ref)
    requires Placed(w) && dest in w && !LastsFor(Up(w), dest, MAX_PARENT_DEPTH)
    ensures !Loops(Up(w), GLOBAL, dest)
  {
    NeverHome(w, dest);
  }

  /** A room directly in #0 shows it: the check lets #0 be moved into that room. */
  lemma TopSlipsThrough()
    ensures
      var room := Object(Room, NOTHING, NOTHING, NOTHING);
      var w: Place := map[0 := room, 1 := room.(location := 0)];
      && Placed(w)
      && !Loops(Up(w), 0, 1)
      && Inside(w, 1, 0)
      && Inside(Relocate(w, 0, 1), 0, 0)
  {
    var room := Object(Room, NOTHING, NOTHING, NOTHING);
    var w: Place := map[0 := room, 1 := room.(location := 0)];
    var f := Up(w);
    assert f(1) == 0 && Iter(f, 1, 1) == Iter(f, 0, 0) == 0;
    assert Inside(w, 1, 0);
    StopsAt(f, 0, 1, 1);
    MovedIntoItself(w, 0, 1);
  }

  // ---------- The methods ----------

  /** predicates.c's two checks as one: by location, then by environment. HOME is resolved
      first, and a type with no home counts as a loop. */
  ghost predicate ParentLoops(w: Place, env: Step, source: Ref, dest: Ref) {
    if dest == HOME && (source !in w || w[source].kind.Exit? || w[source].kind.Garbage?) then true
    else
      var d := if dest == HOME then HomeOf(w, source) else dest;
      source == d || Loops(Up(w), source, d) || Loops(env, source, d)
  }

  function HomeOf(w: Place, r: Ref): Ref
    requires r in w
  {
    match w[r].kind
    case Player => w[r].home
    case Thing => w[r].home
    case Room => GLOBAL
    case Program => w[r].owner
    case Exit => NOTHING
    case Garbage => NOTHING
  }

  /** Where the ladder sends an object: its own home or, for a thing, the first of its home,
      its owner's home and the start room that makes no loop, the last one unchecked. */
  ghost function Fallback(w: Place, env: Step, start: Ref, what: Ref): Ref
    requires what in w
  {
    if w[what].kind.Thing? && ParentLoops(w, env, what, w[what].home) then
      var owner := w[what].owner;
      var theirs := if owner in w then w[owner].home else NOTHING;
      if ParentLoops(w, env, what, theirs) then start else theirs
    else HomeOf(w, what)
  }

  /** The store's own question: the destination exists and is not in the object. */
  ghost predicate Accepts(w: Place, what: Ref, dest: Ref) {
    what in w && (dest == NOTHING || (dest in w && dest != what && !Inside(w, dest, what)))
  }

  /** Where the store would put an object: nowhere, when its own check refuses. */
  ghost function Stored(w: Place, what: Ref, dest: Ref): Place
    requires what in w
  {
    Relocate(w, what, if Accepts(w, what, dest) then dest else NOTHING)
  }

  ghost function Moved(w: Place, env: Step, start: Ref, what: Ref, dest: Ref): Place {
    if what !in w || w[what].kind.Garbage? then w
    else if dest == NOTHING then Stored(w, what, NOTHING)
    else if dest == HOME || ParentLoops(w, env, what, dest) then Stored(w, what, Fallback(w, env, start, what))
    else Stored(w, what, dest)
  }

  /** The objects and where they are. */
  class Store {
    var objs: Place

    method LocationLoopCheck(source: Ref, dest: Ref) returns (loops: bool)
      ensures loops <==> source == dest || Loops(Up(objs), source, dest)
    {
      if source == dest { return true; }
      loops := WalkCheck(Up(objs), source, dest);
    }

    method ParentLoopCheck(env: Step, source: Ref, dest0: Ref) returns (loops: bool)
      ensures loops <==> ParentLoops(objs, env, source, dest0)
    {
      var dest := dest0;
      if dest == HOME {
        if source !in objs { return true; }
        match objs[source].kind {
          case Player => dest := objs[source].home;
          case Thing => dest := objs[source].home;
          case Room => dest := GLOBAL;
          case Program => dest := objs[source].owner;
          case Exit => return true;
          case Garbage => return true;
        }
      }
      loops := LocationLoopCheck(source, dest);
      if loops || source == dest { return true; }
      loops := WalkCheck(env, source, dest);
    }

    method FallbackHome(env: Step, start: Ref, what: Ref) returns (dest: Ref)
      ensures dest == if what in objs then Fallback(objs, env, start, what) else NOTHING
    {
      if what !in objs { return NOTHING; }
      var o := objs[what];
      match o.kind {
        case Player => dest := o.home;
        case Thing =>
          dest := o.home;
          var loops := ParentLoopCheck(env, what, dest);
          if loops {
            dest := if o.owner in objs then objs[o.owner].home else NOTHING;
            loops := ParentLoopCheck(env, what, dest);
            if loops { dest := start; }
          }
        case Room => dest := GLOBAL;
        case Program => dest := o.owner;
        case Exit => dest := NOTHING;
        case Garbage => dest := NOTHING;
      }
    }

    /** Whether outer holds inner at any depth, looking at most one step further than there
        are objects; that is enough in any world, even one with loops in it. */
    method Holds(outer: Ref, inner: Ref) returns (held: bool)
      requires NOTHING !in objs && outer in objs
      ensures held <==> inner == outer || Inside(objs, inner, outer)
    {
      var r, i := inner, 0;
      while r != NOTHING && i <= |objs|
        invariant 0 <= i <= |objs| + 1
        invariant r == Iter(Up(objs), inner, i)
        invariant forall j :: 0 <= j < i ==> Iter(Up(objs), inner, j) != outer
        decreases |objs| + 1 - i
      {
        if r == outer {
          assert i == 0 || Inside(objs, inner, outer);
          return true;
        }
        IterLast(Up(objs), inner, i);
        if r !in objs {
          ChainEnds(objs, inner, outer, i + 1);
          return false;
        }
        r, i := objs[r].location, i + 1;
      }
      if r == NOTHING {
        ChainEnds(objs, inner, outer, i);
      } else {
        NotWithinBound(objs, inner, outer);
      }
      return false;
    }

    /** MoveTo: the store's own check, which refuses what would put an object in itself. */
    method MoveTo(what: Ref, dest: Ref) returns (ok: bool)
      requires NOTHING !in objs
      modifies this
      ensures ok == Accepts(old(objs), what, dest)
      ensures objs == if ok then Relocate(old(objs), what, dest) else old(objs)
    {
      if what !in objs { return false; }
      if dest != NOTHING {
        if dest !in objs || what == dest { return false; }
        var held := Holds(what, dest);
        if held { return false; }
      }
      objs := objs[what := objs[what].(location := dest)];
      return true;
    }

    /** moveObject: never fails; what would make a loop goes down the ladder, and what the
        ladder cannot place leaves the world. */
    method MoveObject(env: Step, start: Ref, what: Ref, dest: Ref)
      requires NOTHING !in objs
      modifies this
      ensures objs == Moved(old(objs), env, start, what, dest)
    {
      if what !in objs || objs[what].kind.Garbage? { return; }
      var where := dest;
      if where == HOME {
        where := FallbackHome(env, start, what);
      } else if where != NOTHING {
        var loops := ParentLoopCheck(env, what, where);
        if loops { where := FallbackHome(env, start, what); }
      }
      var ok := MoveTo(what, where);
      if !ok { ok := MoveTo(what, NOTHING); }
    }
  }

  /** A chain that reached nowhere without meeting outer is not inside it. */
  lemma ChainEnds(w: Place, inner: Ref, outer: Ref, n: nat)
    requires NOTHING !in w && outer in w && Iter(Up(w), inner, n) == NOTHING
    requires forall j :: 0 <= j < n ==> Iter(Up(w), inner, j) != outer
    ensures inner != outer && !Inside(w, inner, outer)
  {
    forall k | k >= 1 ensures Iter(Up(w), inner, k) != outer {
      if k >= n {
        IterJoins(Up(w), inner, n, k - n);
        NowhereStays(w, k - n);
      }
    }
    assert Iter(Up(w), inner, 0) == inner;
  }

  /** Before a chain comes to an object it goes through objects. */
  lemma ChainOfObjects(w: Place, inner: Ref, outer: Ref, k: nat, j: nat)
    requires NOTHING !in w && outer in w && Iter(Up(w), inner, k) == outer && j < k
    ensures Iter(Up(w), inner, j) in w
  {
    if Iter(Up(w), inner, j) !in w {
      IterLast(Up(w), inner, j);
      IterJoins(Up(w), inner, j + 1, k - j - 1);
      NowhereStays(w, k - j - 1);
    }
  }

  /** A chain that comes to an object comes to it in no more steps than there are objects. */
  lemma {:induction false} WithinBound(w: Place, inner: Ref, outer: Ref, k: nat) returns (m: nat)
    requires NOTHING !in w && outer in w && Iter(Up(w), inner, k) == outer
    ensures m <= |w| && Iter(Up(w), inner, m) == outer
    decreases k
  {
    if i: nat, j: nat :| i < j < k && Iter(Up(w), inner, i) == Iter(Up(w), inner, j) {
      IterJoins(Up(w), inner, j, k - j);
      IterJoins(Up(w), inner, i, k - j);
      m := WithinBound(w, inner, outer, i + (k - j));
    } else {
      var p := seq(k, i requires 0 <= i < k => Iter(Up(w), inner, i));
      forall i | 0 <= i < k ensures p[i] in w.Keys { ChainOfObjects(w, inner, outer, k, i); }
      DistinctFit(p, w.Keys);
      m := k;
    }
  }

  lemma NotWithinBound(w: Place, inner: Ref, outer: Ref)
    requires NOTHING !in w && outer in w && forall j :: 0 <= j <= |w| ==> Iter(Up(w), inner, j) != outer
    ensures inner != outer && !Inside(w, inner, outer)
  {
    assert Iter(Up(w), inner, 0) == inner;
    if Inside(w, inner, outer) {
      var k :| k >= 1 && Iter(Up(w), inner, k) == outer;
      var m := WithinBound(w, inner, outer, k);
    }
  }

  // ---------- Whole runs ----------

  /** Where the store would put it, the forest stays. */
  lemma StoredKeepsForest(w: Place, what: Ref, dest: Ref)
    requires Forest(w) && Grounded(w) && what in w
    ensures Forest(Stored(w, what, dest)) && Grounded(Stored(w, what, dest))
  {
    RelocateKeepsForest(w, what, NOTHING);
    RelocateKeepsForest(w, what, dest);
    NothingInNowhere(w, what);
  }

  /** In any world, however damaged, an object that is moved does not end up in itself. */
  lemma MovedOutOfItself(w: Place, env: Step, start: Ref, what: Ref, dest: Ref)
    requires NOTHING !in w && what in w && !w[what].kind.Garbage?
    ensures !Inside(Moved(w, env, start, what, dest), what, what)
  {
    hide ParentLoops, Fallback;
    var to := if dest == NOTHING then NOTHING
      else if dest == HOME || ParentLoops(w, env, what, dest) then Fallback(w, env, start, what) else dest;
    StoredOutOfItself(w, what, to);
  }

  lemma StoredOutOfItself(w: Place, what: Ref, dest: Ref)
    requires NOTHING !in w && what in w
    ensures !Inside(Stored(w, what, dest), what, what)
  {
    var to := if Accepts(w, what, dest) then dest else NOTHING;
    var after := Relocate(w, what, to);
    if Inside(after, what, what) {
      var k :| k >= 1 && Iter(Up(after), what, k) == what;
      IterJoins(Up(after), what, 1, k - 1);
      var m := OldUntilMoved(w, what, to, to, k - 1);
      if to == NOTHING { NowhereStays(w, m); }
    }
  }

  lemma NothingInNowhere(w: Place, what: Ref)
    requires Grounded(w) && what in w
    ensures !Inside(w, NOTHING, what)
  {
    forall k: nat ensures Iter(Up(w), NOTHING, k) == NOTHING { NowhereStays(w, k); }
  }

  /** The direct branch is never refused: once the checks are clear, an object other than #0
      lands exactly where it was sent. */
  lemma ClearMoveLands(w: Place, env: Step, start: Ref, what: Ref, dest: Ref)
    requires Forest(w) && Placed(w) && what in w && !w[what].kind.Garbage?
    requires what != GLOBAL && dest in w && !ParentLoops(w, env, what, dest)
    ensures Moved(w, env, start, what, dest) == Relocate(w, what, dest)
  {
    if Inside(w, dest, what) { InsideIsSeen(w, what, dest); }
  }

  datatype Change = Move(env: Step, start: Ref, what: Ref, dest: Ref) | Create(made: Ref, body: Object)

  /** One change: a move, or a new object, which is nowhere yet. */
  ghost function Do(w: Place, c: Change): Place {
    match c
    case Move(env, start, what, dest) => Moved(w, env, start, what, dest)
    case Create(made, body) => if made in w || made < 0 then w else w[made := body.(location := NOTHING)]
  }

  ghost function DoAll(w: Place, cs: seq<Change>): Place {
    if cs == [] then w else Do(DoAll(w, cs[..|cs| - 1]), cs[|cs| - 1])
  }

  lemma CreateKeepsForest(w: Place, made: Ref, body: Object)
    requires Forest(w) && Grounded(w) && made !in w && made >= 0
    ensures Forest(w[made := body.(location := NOTHING)]) && Grounded(w[made := body.(location := NOTHING)])
  {
    var w' := w[made := body.(location := NOTHING)];
    forall r, k | r in w' && k >= 1 ensures Iter(Up(w'), r, k) != r {
      if r == made {
        NowhereStays(w', k - 1);
      } else {
        SameWithCreated(w, made, body, r, k);
        assert !Inside(w, r, r);
      }
    }
  }

  lemma {:induction false} SameWithCreated(w: Place, made: Ref, body: Object, r: Ref, k: nat)
    requires Grounded(w) && made !in w && made >= 0 && (r in w || r == NOTHING)
    ensures Iter(Up(w[made := body.(location := NOTHING)]), r, k) == Iter(Up(w), r, k)
    decreases k
  {
    if k > 0 { SameWithCreated(w, made, body, Up(w)(r), k - 1); }
  }

  lemma DoKeepsForest(w: Place, c: Change)
    requires Forest(w) && Grounded(w)
    ensures Forest(Do(w, c)) && Grounded(Do(w, c))
  {
    hide Forest, Grounded, Stored, ParentLoops, Fallback;
    match c
    case Move(env, start, what, dest) =>
      if what in w {
        StoredKeepsForest(w, what, NOTHING);
        StoredKeepsForest(w, what, dest);
        StoredKeepsForest(w, what, Fallback(w, env, start, what));
      }
    case Create(made, body) =>
      if made !in w && made >= 0 { CreateKeepsForest(w, made, body); }
  }

  /** No sequence of moves, to anywhere, under any environment, with any fallback, ever puts
      an object inside itself. */
  lemma {:induction false} RunsKeepForest(w: Place, cs: seq<Change>)
    requires Forest(w) && Grounded(w)
    ensures Forest(DoAll(w, cs)) && Grounded(DoAll(w, cs))
    decreases |cs|
  {
    hide Forest, Grounded, Do;
    if cs != [] {
      RunsKeepForest(w, cs[..|cs| - 1]);
      DoKeepsForest(DoAll(w, cs[..|cs| - 1]), cs[|cs| - 1]);
    }
  }

  predicate SparesTop(c: Change) {
    c.Move? ==> c.what != GLOBAL
  }

  /** While nothing moves #0 it stays at the top, so every move whose checks are clear lands
      where it was sent. */
  lemma {:induction false} RunsKeepTop(w: Place, cs: seq<Change>)
    requires Forest(w) && Placed(w) && forall i :: 0 <= i < |cs| ==> SparesTop(cs[i])
    ensures Placed(DoAll(w, cs))
    decreases |cs|
  {
    RunsKeepForest(w, cs);
    if cs != [] {
      RunsKeepTop(w, cs[..|cs| - 1]);
      TopStays(DoAll(w, cs[..|cs| - 1]), cs[|cs| - 1]);
    }
  }

  lemma TopStays(w: Place, c: Change)
    requires GLOBAL in w && SparesTop(c)
    ensures GLOBAL in Do(w, c) && Do(w, c)[GLOBAL].location == w[GLOBAL].location
  {
    hide ParentLoops, Fallback;
  }
}
