/** Locks through a dump: they are stored as text, and the text comes back as it was. */
module DumpLocks {
  import D = Dump
  import R = DumpRoundTrip
  import Y = LockSyntax
  import L = LockRoundTrip
  import E = LockEval
  import opened Decimal

  /** A lock property written to a dump and read from it parses back completely, to the
      right-associated form of the lock, which every world answers alike. */
  lemma LockSurvivesDump(io: D.Formats, p: R.PropEntry, lock: Y.Expr, world: E.Oracle, asked: seq<E.Atom>)
    requires L.Storable(lock) && p.value == D.LockV(Y.Unparse(Some(lock))) && R.WellFormedProp(io, p)
    ensures
      var read := D.ParseProp(io, R.PropLine(io, p));
      && read.Some? && read.value.0 == p.name && read.value.1.value.LockV?
      && Y.ParseE(Y.DbLoad, read.value.1.value.lock) == Y.Ok(L.Canon(lock), "")
      && E.Eval(world, asked, L.Canon(lock)) == E.Eval(world, asked, lock)
  {
    hide D.ParseProp, Y.ParseE, Y.Print, R.WellFormedProp, R.PropLine, E.Eval;
    R.PropBack(io, p);
    var text := Y.Unparse(Some(lock));
    assert text + "" == text;
    L.ExprReparses(lock, "");
    E.EvalCanon(world, asked, lock);
  }
}
