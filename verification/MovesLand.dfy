/** Where moves land: what a destination, a HOME and each rung of the ladder come to. */
module MovesLand {
  import opened Refs
  import opened Walks
  import opened Moves

  /** An object that exists and is neither another object nor inside it. */
  ghost predicate CanHold(w: Place, d: Ref, what: Ref) {
    d in w && d != what && forall k :: k >= 1 ==> Iter(Up(w), d, k) != what
  }

  /** The world with what in d, or in nothing when d cannot hold it. */
  ghost function PutIn(w: Place, what: Ref, d: Ref): Place
    requires what in w
  {
    w[what := w[what].(location := if CanHold(w, d, what) then d else NOTHING)]
  }

  /** Neither walk from d, by location or by environment, says that it would be a loop. */
  ghost predicate Clear(w: Place, env: Step, what: Ref, d: Ref) {
    d != what && !Loops(Up(w), what, d) && !Loops(env, what, d)
  }

  /** Before its n-th step a walk comes to an object. */
  ghost predicate Met(f: Step, source: Ref, dest: Ref, n: nat) {
    exists k: nat :: 1 <= k < n && Iter(f, dest, k) == source
  }

  /** A walk that comes to NOTHING or #0 in time, by no HOME, loops exactly when it meets the
      object on the way. */
  lemma LoopsIffMet(f: Step, source: Ref, dest: Ref, n: nat)
    requires 1 <= n <= MAX_PARENT_DEPTH && !GoesOn(Iter(f, dest, n))
    requires forall k :: 1 <= k < n ==> GoesOn(Iter(f, dest, k)) && Iter(f, dest, k) != HOME
    ensures Loops(f, source, dest) <==> Met(f, source, dest, n)
  {
    if Met(f, source, dest, n) {
      var k: nat :| 1 <= k < n && Iter(f, dest, k) == source;
      assert LastsFor(f, dest, k);
      assert Meets(f, dest, source, MAX_PARENT_DEPTH);
    } else {
      StopsAt(f, source, dest, n);
    }
  }

  lemma StoredIsPut(w: Place, what: Ref, d: Ref)
    requires NOTHING !in w && what in w
    ensures Stored(w, what, d) == PutIn(w, what, d)
  {}

  /** Sent HOME: a player goes to its home, a room to #0 and a program to its owner. A thing
      goes to its own home if that is clear, else to its owner's home if that is, else to the
      start room. An exit leaves the world, and garbage stays where it is. Nothing else is
      changed. */
  lemma SentHome(w: Place, env: Step, start: Ref, what: Ref)
    requires NOTHING !in w && what in w
    ensures
      var o, after := w[what], Moved(w, env, start, what, HOME);
      match o.kind
      case Player => after == PutIn(w, what, o.home)
      case Room => after == PutIn(w, what, 0)
      case Program => after == PutIn(w, what, o.owner)
      case Exit => after == PutIn(w, what, NOTHING)
      case Garbage => after == w
      case Thing =>
        var theirs := if o.owner in w then w[o.owner].home else NOTHING;
        after == PutIn(w, what,
          if Clear(w, env, what, o.home) then o.home
          else if theirs != HOME && Clear(w, env, what, theirs) then theirs
          else start)
  {
    hide Loops, CanHold, Stored;
    StoredIsPut(w, what, Fallback(w, env, start, what));
  }

  /** Sent anywhere else: there, if that is clear, and otherwise wherever HOME would send it. */
  lemma SentThere(w: Place, env: Step, start: Ref, what: Ref, dest: Ref)
    requires NOTHING !in w && what in w && !w[what].kind.Garbage? && dest != HOME
    ensures Moved(w, env, start, what, dest) ==
      if dest == NOTHING || Clear(w, env, what, dest) then PutIn(w, what, dest)
      else Moved(w, env, start, what, HOME)
  {
    hide Loops, CanHold, Stored, Fallback;
    StoredIsPut(w, what, dest);
  }

  /** Where #0 is on top, any place that is clear for another object can hold it: it lands
      there. */
  lemma ClearCanHold(w: Place, env: Step, what: Ref, d: Ref)
    requires Placed(w) && what in w && what != GLOBAL && d in w && Clear(w, env, what, d)
    ensures CanHold(w, d, what)
  {
    hide Loops;
    if Inside(w, d, what) { InsideIsSeen(w, what, d); }
  }

  /** A thing whose own home makes a loop is found at its owner's, whichever way it was sent
      there. */
  lemma ThingAtOwners(w: Place, env: Step, start: Ref, what: Ref, dest: Ref)
    requires Placed(w) && what in w && what != GLOBAL && w[what].kind.Thing?
    requires dest == HOME || (dest != NOTHING && !Clear(w, env, what, dest))
    requires !Clear(w, env, what, w[what].home)
    requires w[what].owner in w && w[w[what].owner].home in w
    requires Clear(w, env, what, w[w[what].owner].home)
    ensures Moved(w, env, start, what, dest)[what].location == w[w[what].owner].home
  {
    hide Loops, CanHold, Moved, Clear;
    SentHome(w, env, start, what);
    if dest != HOME { SentThere(w, env, start, what, dest); }
    ClearCanHold(w, env, what, w[w[what].owner].home);
  }

  /** A player whose home exists and is not inside it is found at home, whether it was sent
      there or redirected. */
  lemma PlayerAtHome(w: Place, env: Step, start: Ref, what: Ref, dest: Ref)
    requires NOTHING !in w && what in w && w[what].kind.Player?
    requires dest == HOME || (dest != NOTHING && !Clear(w, env, what, dest))
    requires w[what].home in w && w[what].home != what && !Inside(w, w[what].home, what)
    ensures Moved(w, env, start, what, dest)[what].location == w[what].home
  {
    hide Loops, Moved, Clear;
    SentHome(w, env, start, what);
    if dest != HOME { SentThere(w, env, start, what, dest); }
  }

  /** Asked about HOME, the check looks at the home itself; what has none always loops. */
  lemma HomeIsAsked(w: Place, env: Step, source: Ref)
    ensures ParentLoops(w, env, source, HOME) <==>
      || source !in w
      || (match w[source].kind
          case Player => !Clear(w, env, source, w[source].home)
          case Thing => !Clear(w, env, source, w[source].home)
          case Room => !Clear(w, env, source, 0)
          case Program => !Clear(w, env, source, w[source].owner)
          case _ => true)
  {
    hide Loops;
  }
}
