/** No deferred event is lost, repeated, early or late, over every run of the queue. */
module DeferredLaws {
  import opened Deferred

  /** The first tick begun after an event was filed at which its time had come. */
  predicate FirstDueAt<Job>(ticks: seq<int>, e: Event<Job>, t: nat) {
    && e.born <= t < |ticks| && ticks[t] >= e.fires
    && forall s :: e.born <= s < t ==> ticks[s] < e.fires
  }

  predicate NotDueYet<Job>(ticks: seq<int>, e: Event<Job>) {
    e.born <= |ticks| && forall s :: e.born <= s < |ticks| ==> ticks[s] < e.fires
  }

  /** Events as entries of the log of one tick. */
  function AsRan<Job>(es: seq<Event<Job>>, t: nat): seq<Ran<Job>> {
    seq(|es|, k requires 0 <= k < |es| => Ran(es[k], t))
  }

  /** How many of some events have a number. */
  function Numbered<Job>(es: seq<Event<Job>>, n: nat): nat {
    if es == [] then 0
    else Numbered(es[..|es| - 1], n) + if es[|es| - 1].serial == n then 1 else 0
  }

  function Events<Job>(log: seq<Ran<Job>>): seq<Event<Job>> {
    seq(|log|, k requires 0 <= k < |log| => log[k].event)
  }

  predicate Before<Job>(a: Ran<Job>, b: Ran<Job>) {
    a.tick < b.tick || (a.tick == b.tick && a.event.serial < b.event.serial)
  }

  predicate Ascending<Job>(es: seq<Event<Job>>) {
    forall i, j :: 0 <= i < j < |es| ==> es[i].serial < es[j].serial
  }

  predicate InOrder<Job>(log: seq<Ran<Job>>) {
    forall i, j :: 0 <= i < j < |log| ==> Before(log[i], log[j])
  }

  ghost predicate OnTime<Job>(st: State<Job>) {
    && (forall k :: 0 <= k < |st.queue| ==> NotDueYet(st.ticks, st.queue[k]))
    && (forall k :: 0 <= k < |st.log| ==> FirstDueAt(st.ticks, st.log[k].event, st.log[k].tick))
  }

  predicate Sorted<Job>(st: State<Job>) {
    && Ascending(st.queue) && InOrder(st.log)
    && forall k :: 0 <= k < |st.queue| ==> st.queue[k].serial < st.next
  }

  /** Every number handed out is on the queue or in the log, once in all, and no other is. */
  ghost predicate Conserved<Job>(st: State<Job>) {
    forall n: nat :: Numbered(st.queue, n) + Numbered(Events(st.log), n) == if n < st.next then 1 else 0
  }

  ghost predicate Inv<Job>(st: State<Job>) {
    OnTime(st) && Sorted(st) && Conserved(st)
  }

  // ---------- Filing ----------

  /** b has filed more than a, in order, and otherwise differs at most in its log. */
  ghost predicate Extends<Job>(a: State<Job>, b: State<Job>) {
    && |a.queue| <= |b.queue| && b.queue[..|a.queue|] == a.queue
    && b.next == a.next + |b.queue| - |a.queue| && b.ticks == a.ticks
    && forall k :: |a.queue| <= k < |b.queue| ==>
      b.queue[k].serial == a.next + k - |a.queue| && b.queue[k].born == |a.ticks|
  }

  lemma {:induction false} FileAllExtends<Job>(st: State<Job>, fs: seq<Filing<Job>>)
    ensures Extends(st, FileAll(st, fs)) && FileAll(st, fs).log == st.log
  {
    if fs != [] { FileAllExtends(st, fs[..|fs| - 1]); }
  }

  lemma {:induction false} RunAllExtends<Job>(st: State<Job>, es: seq<Event<Job>>, files: Event<Job> -> seq<Filing<Job>>)
    requires |st.ticks| > 0
    ensures Extends(st, RunAll(st, es, files))
    ensures RunAll(st, es, files).log == st.log + AsRan(es, |st.ticks| - 1)
  {
    hide FileAll;
    if es != [] {
      var init, last := es[..|es| - 1], es[|es| - 1];
      RunAllExtends(st, init, files);
      var before := RunAll(st, init, files);
      FileAllExtends(before.(log := before.log + [Ran(last, |before.ticks| - 1)]), files(last));
      assert AsRan(es, |st.ticks| - 1) == AsRan(init, |st.ticks| - 1) + [Ran(last, |st.ticks| - 1)];
    }
  }

  lemma {:induction false} NumberedAppend<Job>(a: seq<Event<Job>>, b: seq<Event<Job>>, n: nat)
    ensures Numbered(a + b, n) == Numbered(a, n) + Numbered(b, n)
  {
    if b == [] {
      assert a + b == a;
    } else {
      assert (a + b)[..|a + b| - 1] == a + b[..|b| - 1];
      NumberedAppend(a, b[..|b| - 1], n);
    }
  }

  /** A run of consecutive numbers holds each of them once. */
  lemma {:induction false} NumberedRun<Job>(es: seq<Event<Job>>, first: nat, n: nat)
    requires forall k :: 0 <= k < |es| ==> es[k].serial == first + k
    ensures Numbered(es, n) == if first <= n < first + |es| then 1 else 0
  {
    if es != [] { NumberedRun(es[..|es| - 1], first, n); }
  }

  lemma ExtendsKeeps<Job>(a: State<Job>, b: State<Job>)
    requires Inv(a) && Extends(a, b) && b.log == a.log
    ensures Inv(b)
  {
    hide Numbered;
    forall n: nat
      ensures Numbered(b.queue, n) + Numbered(Events(b.log), n) == if n < b.next then 1 else 0
    {
      var more := b.queue[|a.queue|..];
      assert b.queue == a.queue + more;
      NumberedAppend(a.queue, more, n);
      NumberedRun(more, a.next, n);
    }
    OnTimeExtends(a, b);
    SortedExtends(a, b);
  }

  lemma OnTimeExtends<Job>(a: State<Job>, b: State<Job>)
    requires OnTime(a) && Extends(a, b) && b.log == a.log
    ensures OnTime(b)
  {
    forall k | 0 <= k < |b.queue| ensures NotDueYet(b.ticks, b.queue[k]) {
      if k < |a.queue| { assert b.queue[k] == a.queue[k]; }
    }
  }

  lemma SortedExtends<Job>(a: State<Job>, b: State<Job>)
    requires Sorted(a) && Extends(a, b) && b.log == a.log
    ensures Sorted(b)
  {
    forall k | 0 <= k < |b.queue|
      ensures b.queue[k].serial < b.next
      ensures forall i :: 0 <= i < k ==> b.queue[i].serial < b.queue[k].serial
    {
      assert forall i :: 0 <= i < |a.queue| ==> b.queue[i] == a.queue[i];
    }
  }

  // ---------- A tick ----------

  lemma {:induction false} SplitNumbers<Job>(queue: seq<Event<Job>>, now: int, n: nat)
    ensures Numbered(Kept(queue, now), n) + Numbered(Due(queue, now), n) == Numbered(queue, n)
  {
    if queue != [] {
      var init, last := queue[..|queue| - 1], queue[|queue| - 1];
      SplitNumbers(init, now, n);
      NumberedAppend(Kept(init, now), if last.fires > now then [last] else [], n);
      NumberedAppend(Due(init, now), if last.fires > now then [] else [last], n);
    }
  }

  /** One more event at the end, later than all the others. */
  lemma AscendingSnoc<Job>(es: seq<Event<Job>>, last: Event<Job>)
    ensures Ascending(es + [last]) <==> Ascending(es) && forall e :: e in es ==> e.serial < last.serial
  {
    var all := es + [last];
    if Ascending(all) {
      forall i, j | 0 <= i < j < |es| ensures es[i].serial < es[j].serial { assert all[i] == es[i] && all[j] == es[j]; }
      forall e | e in es ensures e.serial < last.serial {
        var i :| 0 <= i < |es| && es[i] == e;
        assert all[i] == e && all[|es|] == last;
      }
    }
  }

  /** Both halves are in the order of the whole. */
  lemma {:induction false} SplitAscends<Job>(queue: seq<Event<Job>>, now: int)
    requires Ascending(queue)
    ensures Ascending(Kept(queue, now)) && Ascending(Due(queue, now))
    ensures forall e :: e in Kept(queue, now) ==> e in queue && e.fires > now
    ensures forall e :: e in Due(queue, now) ==> e in queue && e.fires <= now
  {
    hide Ascending;
    if queue == [] {
      NoneAscends<Job>();
    } else {
      var init, last := queue[..|queue| - 1], queue[|queue| - 1];
      assert queue == init + [last];
      AscendingSnoc(init, last);
      SplitAscends(init, now);
      AscendingSnoc(Kept(init, now), last);
      AscendingSnoc(Due(init, now), last);
      assert forall es: seq<Event<Job>> :: es + [] == es;
    }
  }

  lemma NoneAscends<Job>()
    ensures Ascending<Job>([])
  {}

  /** The state once everything due has been taken to have run, before anything is filed. */
  function Moved<Job>(st: State<Job>, now: int): State<Job> {
    State(Kept(st.queue, now), st.next, st.ticks + [now], st.log + AsRan(Due(st.queue, now), |st.ticks|))
  }

  lemma TickExtends<Job>(st: State<Job>, now: int, files: Event<Job> -> seq<Filing<Job>>)
    ensures Extends(Moved(st, now), Tick(st, now, files))
    ensures Tick(st, now, files).log == Moved(st, now).log
  {
    hide Kept, Due, RunAll;
    RunAllExtends(Begin(st, now), Due(st.queue, now), files);
  }

  lemma MovedOnTime<Job>(st: State<Job>, now: int)
    requires OnTime(st) && Ascending(st.queue)
    ensures OnTime(Moved(st, now))
  {
    hide Kept, Due;
    SplitAscends(st.queue, now);
    var after := Moved(st, now);
    forall k | 0 <= k < |after.queue| ensures NotDueYet(after.ticks, after.queue[k]) {
      assert after.queue[k] in st.queue;
    }
    forall k | 0 <= k < |after.log| ensures FirstDueAt(after.ticks, after.log[k].event, after.log[k].tick) {
      if k < |st.log| {
        assert after.log[k] == st.log[k];
      } else {
        var e := Due(st.queue, now)[k - |st.log|];
        assert after.log[k] == Ran(e, |st.ticks|) && e in st.queue;
      }
    }
  }

  lemma MovedSorted<Job>(st: State<Job>, now: int)
    requires Sorted(st) && OnTime(st)
    ensures Sorted(Moved(st, now))
  {
    hide Kept, Due;
    SplitAscends(st.queue, now);
    var after := Moved(st, now);
    forall k | 0 <= k < |after.queue| ensures after.queue[k].serial < after.next {
      assert after.queue[k] in st.queue;
    }
    forall i, j | 0 <= i < j < |after.log| ensures Before(after.log[i], after.log[j]) {
      if i < |st.log| { assert after.log[i] == st.log[i]; }
      if j < |st.log| { assert after.log[j] == st.log[j]; }
    }
  }

  lemma MovedConserved<Job>(st: State<Job>, now: int)
    requires Conserved(st)
    ensures Conserved(Moved(st, now))
  {
    hide Kept, Due, Numbered;
    var due := Due(st.queue, now);
    assert Events(Moved(st, now).log) == Events(st.log) + due;
    forall n: nat
      ensures Numbered(Kept(st.queue, now), n) + Numbered(Events(Moved(st, now).log), n) == if n < st.next then 1 else 0
    {
      SplitNumbers(st.queue, now, n);
      NumberedAppend(Events(st.log), due, n);
    }
  }

  lemma TickKeeps<Job>(st: State<Job>, now: int, files: Event<Job> -> seq<Filing<Job>>)
    requires Inv(st)
    ensures Inv(Tick(st, now, files))
  {
    hide OnTime, Sorted, Conserved, Moved, Tick;
    SortedQueue(st);
    MovedOnTime(st, now);
    MovedSorted(st, now);
    MovedConserved(st, now);
    TickExtends(st, now, files);
    ExtendsKeeps(Moved(st, now), Tick(st, now, files));
  }

  lemma SortedQueue<Job>(st: State<Job>)
    requires Sorted(st)
    ensures Ascending(st.queue)
  {}

  // ---------- Every run ----------

  datatype Op<Job> = FileOp(filing: Filing<Job>) | TickOp(now: int)

  function Do<Job>(st: State<Job>, op: Op<Job>, files: Event<Job> -> seq<Filing<Job>>): State<Job> {
    match op
    case FileOp(f) => File(st, f)
    case TickOp(now) => Tick(st, now, files)
  }

  function DoAll<Job>(ops: seq<Op<Job>>, files: Event<Job> -> seq<Filing<Job>>): State<Job> {
    if ops == [] then State([], 0, [], []) else Do(DoAll(ops[..|ops| - 1], files), ops[|ops| - 1], files)
  }

  lemma FileKeeps<Job>(st: State<Job>, f: Filing<Job>)
    requires Inv(st)
    ensures Inv(File(st, f))
  {
    ExtendsKeeps(st, File(st, f));
  }

  lemma {:induction false} EveryRunKeeps<Job>(ops: seq<Op<Job>>, files: Event<Job> -> seq<Filing<Job>>)
    ensures Inv(DoAll(ops, files))
  {
    hide Tick, File;
    if ops != [] {
      var before := DoAll(ops[..|ops| - 1], files);
      EveryRunKeeps(ops[..|ops| - 1], files);
      match ops[|ops| - 1]
      case FileOp(f) => FileKeeps(before, f);
      case TickOp(now) => TickKeeps(before, now, files);
    }
  }

  predicate Among<Job>(es: seq<Event<Job>>, n: nat) {
    exists k :: 0 <= k < |es| && es[k].serial == n
  }

  lemma {:induction false} CountedIsThere<Job>(es: seq<Event<Job>>, n: nat)
    ensures Numbered(es, n) > 0 <==> Among(es, n)
  {
    if es != [] {
      var init := es[..|es| - 1];
      CountedIsThere(init, n);
      assert forall k :: 0 <= k < |init| ==> init[k] == es[k];
    }
  }

  lemma {:induction false} TwiceIsTwo<Job>(es: seq<Event<Job>>, i: nat, j: nat)
    requires i < j < |es| && es[i].serial == es[j].serial
    ensures Numbered(es, es[i].serial) >= 2
  {
    var init := es[..|es| - 1];
    if j < |es| - 1 {
      TwiceIsTwo(init, i, j);
    } else {
      CountedIsThere(init, es[i].serial);
      assert init[i] == es[i];
    }
  }

  /** Whatever is filed and whatever the clock does: each event that ever ran did so at the
      first tick begun after its filing at which it was due, no event ran twice, within a tick
      they ran in the order they were filed, each event filed has run or is still queued, and
      none still queued has been due at any tick since. Events filed by a running event are
      among them, so they are not lost and do not run in that same tick. */
  lemma RunExactlyOnce<Job>(ops: seq<Op<Job>>, files: Event<Job> -> seq<Filing<Job>>)
    ensures
      var st := DoAll(ops, files);
      && OnTime(st) && InOrder(st.log)
      && (forall i, j :: 0 <= i < j < |st.log| ==> st.log[i].event.serial != st.log[j].event.serial)
      && (forall n: nat | n < st.next :: Among(st.queue, n) != Among(Events(st.log), n))
  {
    hide DoAll, OnTime, InOrder, Numbered, Among;
    EveryRunKeeps(ops, files);
    var st := DoAll(ops, files);
    var ran := Events(st.log);
    forall i, j | 0 <= i < j < |st.log| ensures st.log[i].event.serial != st.log[j].event.serial {
      if ran[i].serial == ran[j].serial { TwiceIsTwo(ran, i, j); }
    }
    forall n: nat | n < st.next ensures Among(st.queue, n) != Among(ran, n) {
      CountedIsThere(st.queue, n);
      CountedIsThere(ran, n);
    }
  }
}
