/** Work put off to a later tick: a small queue that the tick empties of what is due. */
module Deferred {

  /** What a queued event does when it runs is opaque but for the events it files itself. */
  datatype Filing<Job> = Filing(fires: int, job: Job)

  /** serial counts filings; born is how many ticks had begun when this was filed. */
  datatype Event<Job> = Event(serial: nat, born: nat, fires: int, job: Job)

  datatype Ran<Job> = Ran(event: Event<Job>, tick: nat)

  /** The queue, how many events were filed, when each tick began, and what has run. */
  datatype State<Job> = State(queue: seq<Event<Job>>, next: nat, ticks: seq<int>, log: seq<Ran<Job>>)

  function File<Job>(st: State<Job>, f: Filing<Job>): State<Job> {
    st.(queue := st.queue + [Event(st.next, |st.ticks|, f.fires, f.job)], next := st.next + 1)
  }

  function FileAll<Job>(st: State<Job>, fs: seq<Filing<Job>>): State<Job> {
    if fs == [] then st else File(FileAll(st, fs[..|fs| - 1]), fs[|fs| - 1])
  }

  function Kept<Job>(queue: seq<Event<Job>>, now: int): seq<Event<Job>> {
    if queue == [] then []
    else
      var last := queue[|queue| - 1];
      Kept(queue[..|queue| - 1], now) + if last.fires > now then [last] else []
  }

  function Due<Job>(queue: seq<Event<Job>>, now: int): seq<Event<Job>> {
    if queue == [] then []
    else
      var last := queue[|queue| - 1];
      Due(queue[..|queue| - 1], now) + if last.fires > now then [] else [last]
  }

  /** One event runs during the latest tick, and files what it files. */
  function RunOne<Job>(st: State<Job>, e: Event<Job>, files: Event<Job> -> seq<Filing<Job>>): State<Job>
    requires |st.ticks| > 0
  {
    FileAll(st.(log := st.log + [Ran(e, |st.ticks| - 1)]), files(e))
  }

  function RunAll<Job>(st: State<Job>, es: seq<Event<Job>>, files: Event<Job> -> seq<Filing<Job>>): (r: State<Job>)
    requires |st.ticks| > 0
    ensures r.ticks == st.ticks
  {
    if es == [] then st
    else
      var before := RunAll(st, es[..|es| - 1], files);
      FileAllTicks(before.(log := before.log + [Ran(es[|es| - 1], |before.ticks| - 1)]), files(es[|es| - 1]));
      RunOne(before, es[|es| - 1], files)
  }

  lemma {:induction false} FileAllTicks<Job>(st: State<Job>, fs: seq<Filing<Job>>)
    ensures FileAll(st, fs).ticks == st.ticks && FileAll(st, fs).log == st.log
  {
    if fs != [] { FileAllTicks(st, fs[..|fs| - 1]); }
  }

  function Begin<Job>(st: State<Job>, now: int): State<Job> {
    st.(queue := Kept(st.queue, now), ticks := st.ticks + [now])
  }

  /** fireDeferred: what is due leaves the queue before any of it runs. */
  function Tick<Job>(st: State<Job>, now: int, files: Event<Job> -> seq<Filing<Job>>): State<Job> {
    RunAll(Begin(st, now), Due(st.queue, now), files)
  }

  class Queue<Job> {
    var deferred: seq<Event<Job>>
    var filed: nat
    /** What happened so far, which the server does not keep. */
    var ticks: seq<int>
    var log: seq<Ran<Job>>

    function View(): State<Job>
      reads this
    {
      State(deferred, filed, ticks, log)
    }

    constructor ()
      ensures View() == State([], 0, [], [])
    {
      deferred, filed, ticks, log := [], 0, [], [];
    }

    /** deferTo; fires is the clock then plus the delay. */
    method DeferTo(f: Filing<Job>)
      modifies this
      ensures View() == File(old(View()), f)
    {
      deferred := deferred + [Event(filed, |ticks|, f.fires, f.job)];
      filed := filed + 1;
    }

    /** One event's run, as far as this queue can see it. */
    method Run(e: Event<Job>, files: Event<Job> -> seq<Filing<Job>>)
      requires |ticks| > 0
      modifies this
      ensures View() == RunOne(old(View()), e, files)
    {
      log := log + [Ran(e, |ticks| - 1)];
      var fs := files(e);
      ghost var start := View();
      for k := 0 to |fs|
        invariant View() == FileAll(start, fs[..k])
      {
        assert fs[..k + 1][..k] == fs[..k];
        DeferTo(fs[k]);
      }
      assert fs[..|fs|] == fs;
    }

    method FireDeferred(now: int, files: Event<Job> -> seq<Filing<Job>>)
      modifies this
      ensures View() == Tick(old(View()), now, files)
    {
      hide RunOne;
      ghost var before := View();
      var kept, due := Split(deferred, now);
      deferred := kept;
      ticks := ticks + [now];
      ghost var start := View();
      assert start == Begin(before, now);
      for k := 0 to |due|
        invariant View() == RunAll(start, due[..k], files)
      {
        assert due[..k + 1][..k] == due[..k];
        Run(due[k], files);
      }
      assert due[..|due|] == due;
    }
  }

  method Split<Job>(queue: seq<Event<Job>>, now: int) returns (kept: seq<Event<Job>>, due: seq<Event<Job>>)
    ensures kept == Kept(queue, now) && due == Due(queue, now)
  {
    kept, due := [], [];
    for k := 0 to |queue|
      invariant kept == Kept(queue[..k], now) && due == Due(queue[..k], now)
    {
      assert queue[..k + 1][..k] == queue[..k];
      if queue[k].fires > now {
        kept := kept + [queue[k]];
      } else {
        due := due + [queue[k]];
      }
    }
    assert queue[..|queue|] == queue;
  }
}
