/** Whole runs of the gate: no window of time holds more admissions than the rate, a refusal
    means exactly that one is full, and what is held is what was admitted and not released. */
module AdmitRuns {
  import opened Admit

  datatype Op = Arrive(host: Host, now: int) | Leave(host: Host, now: int)

  /** A run of the gate from empty. */
  datatype Run = Run(lim: Limits, ops: seq<Op>) {
    function At(n: nat): State
      requires n <= |ops|
    {
      if n == 0 then EMPTY
      else match ops[n - 1]
        case Arrive(host, now) => AdmitStep(lim, At(n - 1), host, now).0
        case Leave(host, now) => ReleaseStep(lim, At(n - 1), host, now)
    }

    /** What operation i was answered; a departure always succeeds. */
    function Answer(i: nat): Verdict
      requires i < |ops|
    {
      match ops[i]
      case Arrive(host, now) => AdmitStep(lim, At(i), host, now).1
      case Leave(_, _) => Allowed
    }

    predicate Admitted(i: nat)
      requires i < |ops|
    {
      ops[i].Arrive? && Answer(i) == Allowed
    }

    /** The clock never goes back. */
    predicate Timed() {
      forall i, j :: 0 <= i < j < |ops| ==> ops[i].now <= ops[j].now
    }

    /** When a host was admitted, among the first n operations. */
    function Times(host: Host, n: nat): seq<int>
      requires n <= |ops|
    {
      if n == 0 then []
      else Times(host, n - 1) + if Admitted(n - 1) && ops[n - 1].host == host then [ops[n - 1].now] else []
    }

    /** The connections open after n operations. */
    function Open(n: nat): multiset<Host>
      requires n <= |ops|
    {
      if n == 0 then multiset{}
      else
        var before := Open(n - 1);
        var host := ops[n - 1].host;
        if Admitted(n - 1) then before + multiset{host}
        else if ops[n - 1].Leave? then before - multiset{host}
        else before
    }

    /** Only open connections are released. */
    predicate Disciplined() {
      forall i :: 0 <= i < |ops| && ops[i].Leave? ==> ops[i].host in Open(i)
    }
  }

  // ---------- The sliding window ----------

  predicate Sorted(a: seq<int>) {
    forall i, j :: 0 <= i < j < |a| ==> a[i] <= a[j]
  }

  /** How many times lie in (lo, hi]. */
  function CountIn(a: seq<int>, lo: int, hi: int): nat {
    if a == [] then 0
    else CountIn(a[..|a| - 1], lo, hi) + if lo < a[|a| - 1] <= hi then 1 else 0
  }

  /** Any rate + 1 admissions in a row take longer than the window. */
  predicate Spaced(a: seq<int>, rate: int, window: int) {
    forall i, j :: 0 <= i <= j < |a| && i + rate <= j ==> a[i] <= a[j] - window
  }

  lemma {:induction false} CountSkips(a: seq<int>, lo: int, hi: int, m: nat)
    requires m <= |a| && forall i :: 0 <= i < m ==> a[i] <= lo
    ensures CountIn(a, lo, hi) <= |a| - m
    decreases |a|
  {
    if m < |a| {
      CountSkips(a[..|a| - 1], lo, hi, m);
    } else if a != [] {
      CountSkips(a[..|a| - 1], lo, hi, m - 1);
    }
  }

  lemma {:induction false} SpacedWindow(a: seq<int>, rate: int, window: int, x: int)
    requires rate > 0 && Sorted(a) && Spaced(a, rate, window)
    ensures CountIn(a, x - window, x) <= rate
    decreases |a|
  {
    if a != [] {
      var n := |a|;
      if a[n - 1] > x {
        SpacedWindow(a[..n - 1], rate, window, x);
      } else {
        CountSkips(a, x - window, x, if n >= rate then n - rate else 0);
      }
    }
  }

  lemma {:induction false} NoneAfter(times: seq<int>, cutoff: int)
    requires forall i :: 0 <= i < |times| ==> times[i] <= cutoff
    ensures After(times, cutoff) == []
  {
    if times != [] { NoneAfter(times[..|times| - 1], cutoff); }
  }

  /** kept is the end of all, and nothing before it is after the cutoff. */
  predicate EndAfter(all: seq<int>, kept: seq<int>, cutoff: int) {
    && |kept| <= |all|
    && kept == all[|all| - |kept|..]
    && forall i :: 0 <= i < |all| - |kept| ==> all[i] <= cutoff
  }

  lemma EndExtends(all: seq<int>, kept: seq<int>, cutoff: int, t: int)
    requires EndAfter(all, kept, cutoff)
    ensures EndAfter(all + [t], kept + [t], cutoff)
  {
    assert kept + [t] == (all + [t])[|all| - |kept|..];
  }

  lemma EndOfEnd(all: seq<int>, kept: seq<int>, live: seq<int>, cutoff: int)
    requires EndAfter(all, kept, cutoff) && EndAfter(kept, live, cutoff)
    ensures EndAfter(all, live, cutoff)
  {
    assert live == all[|all| - |live|..];
    forall i | |all| - |kept| <= i < |all| - |live| ensures all[i] <= cutoff {
      assert all[i] == kept[i - (|all| - |kept|)];
    }
  }

  /** On ordered times, those after a cutoff are an end, and the rest are not after it. */
  lemma {:induction false} AfterIsEnd(times: seq<int>, cutoff: int)
    requires Sorted(times)
    ensures EndAfter(times, After(times, cutoff), cutoff)
    ensures forall i :: 0 <= i < |After(times, cutoff)| ==> After(times, cutoff)[i] > cutoff
  {
    if times != [] {
      var n := |times|;
      var init, last := times[..n - 1], times[n - 1];
      assert init + [last] == times;
      AfterIsEnd(init, cutoff);
      if last > cutoff {
        EndExtends(init, After(init, cutoff), cutoff, last);
      } else {
        NoneAfter(init, cutoff);
      }
    }
  }

  /** What the gate remembers of a host: the latest admissions, all those that any later
      window could still reach, with the clock at now. */
  ghost predicate Remembers(all: seq<int>, kept: seq<int>, lim: Limits, now: int) {
    && Sorted(all)
    && Spaced(all, lim.rate, lim.window)
    && (forall i :: 0 <= i < |all| ==> all[i] <= now)
    && EndAfter(all, kept, now - lim.window)
  }

  lemma RemembersLater(all: seq<int>, kept: seq<int>, lim: Limits, now: int, later: int)
    requires Remembers(all, kept, lim, now) && now <= later
    ensures Remembers(all, kept, lim, later)
  {}

  lemma EndSorted(all: seq<int>, kept: seq<int>, cutoff: int)
    requires Sorted(all) && EndAfter(all, kept, cutoff)
    ensures Sorted(kept)
  {}

  /** Dropping what the window has passed forgets nothing that matters. */
  lemma Compacts(all: seq<int>, kept: seq<int>, lim: Limits, now: int)
    requires Remembers(all, kept, lim, now)
    ensures Remembers(all, After(kept, now - lim.window), lim, now)
  {
    hide Spaced, After;
    EndSorted(all, kept, now - lim.window);
    AfterIsEnd(kept, now - lim.window);
    EndOfEnd(all, kept, After(kept, now - lim.window), now - lim.window);
  }

  /** One more admission, when fewer than rate are remembered in the window. */
  lemma Records(all: seq<int>, kept: seq<int>, lim: Limits, now: int)
    requires Remembers(all, kept, lim, now) && |kept| < lim.rate
    ensures Remembers(all + [now], kept + [now], lim, now)
  {
    hide After;
    var more := all + [now];
    EndExtends(all, kept, now - lim.window, now);
    forall i, j | 0 <= i <= j < |more| && i + lim.rate <= j ensures more[i] <= more[j] - lim.window {
      if j == |all| { assert i < |all| - |kept|; }
    }
  }

  /** The remembered times in the window are all the admissions in it. */
  lemma {:induction false} CountIsKept(all: seq<int>, kept: seq<int>, lo: int, now: int)
    requires EndAfter(all, kept, lo)
    requires forall i :: 0 <= i < |all| ==> all[i] <= now
    requires forall i :: 0 <= i < |kept| ==> kept[i] > lo
    ensures CountIn(all, lo, now) == |kept|
    decreases |all|
  {
    if all != [] {
      var n := |all|;
      if kept != [] {
        assert all[n - 1] == kept[|kept| - 1];
        assert kept[..|kept| - 1] == all[..n - 1][n - |kept|..];
        CountIsKept(all[..n - 1], kept[..|kept| - 1], lo, now);
      } else {
        CountIsKept(all[..n - 1], [], lo, now);
      }
    }
  }

  function Clock(run: Run, n: nat): int
    requires 0 < n <= |run.ops|
  {
    run.ops[n - 1].now
  }

  lemma ForgetsNothingLive(all: seq<int>, kept: seq<int>, lim: Limits, now: int)
    requires Remembers(all, kept, lim, now) && !StillLive(kept, now - lim.window)
    ensures Remembers(all, [], lim, now)
  {
    forall i | 0 <= i < |all| ensures all[i] <= now - lim.window {
      if i >= |all| - |kept| { assert all[i] == kept[i - (|all| - |kept|)]; }
    }
  }

  lemma {:induction false} GateRemembers(run: Run, host: Host, n: nat, now: int)
    requires run.Timed() && RateLimited(run.lim) && n <= |run.ops|
    requires n > 0 ==> Clock(run, n) <= now
    ensures Remembers(run.Times(host, n), RecentOf(run.At(n), host), run.lim, now)
    decreases n
  {
    hide Remembers;
    if n == 0 {
      NothingYet(run.lim, now);
    } else {
      var op, before := run.ops[n - 1], run.At(n - 1);
      var all, kept := run.Times(host, n - 1), RecentOf(before, host);
      GateRemembers(run, host, n - 1, op.now);
      if op.host == host && op.Arrive? {
        StepRemembers(run, host, n);
      } else {
        OtherStep(run, host, n);
      }
      RemembersLater(run.Times(host, n), RecentOf(run.At(n), host), run.lim, op.now, now);
    }
  }

  lemma NothingYet(lim: Limits, now: int)
    ensures Remembers([], [], lim, now)
  {}

  /** An attempt by the host itself. */
  lemma StepRemembers(run: Run, host: Host, n: nat)
    requires 0 < n <= |run.ops| && RateLimited(run.lim)
    requires run.ops[n - 1].Arrive? && run.ops[n - 1].host == host
    requires Remembers(run.Times(host, n - 1), RecentOf(run.At(n - 1), host), run.lim, run.ops[n - 1].now)
    ensures Remembers(run.Times(host, n), RecentOf(run.At(n), host), run.lim, run.ops[n - 1].now)
  {
    hide Remembers, Run.At, Run.Times, AdmitStep, After;
    var now := run.ops[n - 1].now;
    var all, before := run.Times(host, n - 1), run.At(n - 1);
    var kept := After(RecentOf(before, host), now - run.lim.window);
    ArriveTimes(run, n);
    ArriveRecent(run.lim, before, host, now);
    Compacts(all, RecentOf(before, host), run.lim, now);
    if |kept| < run.lim.rate { Records(all, kept, run.lim, now); }
  }

  lemma ArriveTimes(run: Run, n: nat)
    requires 0 < n <= |run.ops| && run.ops[n - 1].Arrive?
    ensures
      var op, before := run.ops[n - 1], run.At(n - 1);
      var (next, v) := AdmitStep(run.lim, before, op.host, op.now);
      && run.At(n) == next
      && run.Times(op.host, n) ==
        if v == Allowed then run.Times(op.host, n - 1) + [op.now] else run.Times(op.host, n - 1)
  {
    hide AdmitStep;
    assert run.Times(run.ops[n - 1].host, n - 1) + [] == run.Times(run.ops[n - 1].host, n - 1);
  }

  /** What the gate remembers of a host after its own attempt. */
  lemma ArriveRecent(lim: Limits, st: State, host: Host, now: int)
    requires RateLimited(lim)
    ensures
      var (next, v) := AdmitStep(lim, st, host, now);
      var kept := After(RecentOf(st, host), now - lim.window);
      if v == Allowed then |kept| < lim.rate && RecentOf(next, host) == kept + [now]
      else if v == TooFast then RecentOf(next, host) == kept
      else next == st
  {
    hide After;
  }

  /** Anything else: other hosts' attempts, and departures with their sweep. */
  lemma OtherStep(run: Run, host: Host, n: nat)
    requires 0 < n <= |run.ops|
    requires run.ops[n - 1].Leave? || run.ops[n - 1].host != host
    requires Remembers(run.Times(host, n - 1), RecentOf(run.At(n - 1), host), run.lim, run.ops[n - 1].now)
    ensures Remembers(run.Times(host, n), RecentOf(run.At(n), host), run.lim, run.ops[n - 1].now)
  {
    hide Remembers;
    var now := run.ops[n - 1].now;
    var all, recent := run.Times(host, n - 1), RecentOf(run.At(n - 1), host);
    assert all + [] == all;
    if !StillLive(recent, now - run.lim.window) { ForgetsNothingLive(all, recent, run.lim, now); }
  }

  /** No host is admitted more than rate times in any half-open interval as long as the
      window, over any run, through refusals, compaction and sweeps. */
  lemma WindowHolds(run: Run, host: Host, x: int)
    requires run.Timed() && RateLimited(run.lim)
    ensures CountIn(run.Times(host, |run.ops|), x - run.lim.window, x) <= run.lim.rate
  {
    hide Remembers, Run.At, Run.Times;
    var n := |run.ops|;
    GateRemembers(run, host, n, if n > 0 then Clock(run, n) else 0);
    RememberedWindow(run.Times(host, n), RecentOf(run.At(n), host), run.lim, if n > 0 then Clock(run, n) else 0, x);
  }

  lemma RememberedWindow(all: seq<int>, kept: seq<int>, lim: Limits, now: int, x: int)
    requires RateLimited(lim) && Remembers(all, kept, lim, now)
    ensures CountIn(all, x - lim.window, x) <= lim.rate
  {
    SpacedWindow(all, lim.rate, lim.window, x);
  }

  /** Past the two ceilings, an attempt is refused exactly when the window that ends with it
      is full of admissions. Refused attempts never count. */
  lemma RefusedIffWindowFull(run: Run, i: nat)
    requires run.Timed() && RateLimited(run.lim) && i < |run.ops| && run.ops[i].Arrive?
    requires run.Answer(i) != TooManyTotal && run.Answer(i) != TooManyPerHost
    ensures
      var op := run.ops[i];
      run.Answer(i) == TooFast <==>
        CountIn(run.Times(op.host, i), op.now - run.lim.window, op.now) >= run.lim.rate
  {
    hide Remembers, Run.At, Run.Times, After, CountIn;
    var op := run.ops[i];
    var recent := RecentOf(run.At(i), op.host);
    GateRemembers(run, op.host, i, op.now);
    RememberedCount(run.Times(op.host, i), recent, run.lim, op.now);
  }

  lemma RememberedCount(all: seq<int>, kept: seq<int>, lim: Limits, now: int)
    requires Remembers(all, kept, lim, now)
    ensures CountIn(all, now - lim.window, now) == |After(kept, now - lim.window)|
  {
    hide After, CountIn, Spaced, Sorted, EndAfter;
    var live := After(kept, now - lim.window);
    Compacts(all, kept, lim, now);
    EndSorted(all, kept, now - lim.window);
    AfterIsEnd(kept, now - lim.window);
    CountIsKept(all, live, now - lim.window, now);
  }

  // ---------- What is held ----------

  /** The counters describe a collection of open connections. */
  ghost predicate Counts(st: State, open: multiset<Host>) {
    && st.total == |open|
    && forall h :: (h in st.held <==> h in open) && (h in open ==> st.held[h] == open[h])
  }

  lemma TakeCounts(st: State, open: multiset<Host>, host: Host)
    requires Counts(st, open)
    ensures Counts(Take(st, host), open + multiset{host})
  {}

  lemma ReleaseCounts(lim: Limits, st: State, open: multiset<Host>, host: Host, now: int)
    requires Counts(st, open) && host in open
    ensures Counts(ReleaseStep(lim, st, host, now), open - multiset{host})
    ensures |open - multiset{host}| < |open| && forall h :: (open - multiset{host})[h] <= open[h]
  {
    assert multiset{host} <= open;
    assert open == (open - multiset{host}) + multiset{host};
    assert |open| == |open - multiset{host}| + 1;
  }

  /** Releasing a host that holds nothing: the counters stay right only on an idle gate.
      Otherwise the total loses a connection that some other host still holds. */
  lemma StrayReleaseCounts(lim: Limits, st: State, open: multiset<Host>, host: Host, now: int)
    requires Counts(st, open) && host !in open
    ensures Counts(ReleaseStep(lim, st, host, now), open - multiset{host}) <==> open == multiset{}
  {
    assert open - multiset{host} == open;
    if |open| == 0 { assert open == multiset{}; }
  }

  /** Over a run in which each admission is released at most once, the total is the number
      of open connections, each host's count is its own, and neither ceiling is passed. */
  lemma {:induction false} HeldIsOpen(run: Run, n: nat)
    requires run.Disciplined() && n <= |run.ops|
    ensures Within(run.lim, run.At(n), run.Open(n))
    decreases n
  {
    hide Within, Run.At, Run.Open;
    if n == 0 {
      NothingHeld(run);
    } else {
      HeldIsOpen(run, n - 1);
      HeldStep(run, n);
    }
  }

  /** The counters are right and the ceilings hold. */
  ghost predicate Within(lim: Limits, st: State, open: multiset<Host>) {
    && Counts(st, open)
    && (lim.total > 0 ==> |open| <= lim.total)
    && (lim.perHost > 0 ==> forall h :: open[h] <= lim.perHost)
  }

  lemma HeldStep(run: Run, n: nat)
    requires run.Disciplined() && 0 < n <= |run.ops|
    requires Within(run.lim, run.At(n - 1), run.Open(n - 1))
    ensures Within(run.lim, run.At(n), run.Open(n))
  {
    hide Counts, ReleaseStep, AdmitStep;
    var before, open := run.At(n - 1), run.Open(n - 1);
    match run.ops[n - 1] {
      case Leave(host, now) => ReleaseCounts(run.lim, before, open, host, now);
      case Arrive(host, now) => AdmitCounts(run.lim, before, open, host, now);
    }
  }

  lemma NothingHeld(run: Run)
    ensures Within(run.lim, run.At(0), run.Open(0))
  {}

  /** An attempt, answered either way. */
  lemma AdmitCounts(lim: Limits, st: State, open: multiset<Host>, host: Host, now: int)
    requires Counts(st, open)
    requires lim.total > 0 ==> |open| <= lim.total
    requires lim.perHost > 0 ==> forall h :: open[h] <= lim.perHost
    ensures
      var (next, v) := AdmitStep(lim, st, host, now);
      var open' := if v == Allowed then open + multiset{host} else open;
      && Counts(next, open')
      && (lim.total > 0 ==> |open'| <= lim.total)
      && (lim.perHost > 0 ==> forall h :: open'[h] <= lim.perHost)
  {
    hide AdmitStep;
    if AdmitStep(lim, st, host, now).1 == Allowed {
      TakeCounts(st, open, host);
      AdmitTakes(lim, st, host, now);
    } else {
      RefusalKeeps(lim, st, host, now);
    }
  }

  lemma AdmitTakes(lim: Limits, st: State, host: Host, now: int)
    requires AdmitStep(lim, st, host, now).1 == Allowed
    ensures
      var next := AdmitStep(lim, st, host, now).0;
      next.total == Take(st, host).total && next.held == Take(st, host).held
    ensures lim.total > 0 ==> st.total < lim.total
    ensures lim.perHost > 0 ==> HeldBy(st, host) < lim.perHost
  {}

  lemma RefusalKeeps(lim: Limits, st: State, host: Host, now: int)
    requires AdmitStep(lim, st, host, now).1 != Allowed
    ensures
      var next := AdmitStep(lim, st, host, now).0;
      next.total == st.total && next.held == st.held
  {}

  // ---------- Who gets in ----------

  lemma AnswerCases(run: Run, i: nat, open: multiset<Host>)
    requires i < |run.ops| && run.ops[i].Arrive? && Counts(run.At(i), open)
    ensures
      var host, total, perHost := run.ops[i].host, run.lim.total, run.lim.perHost;
      && (run.Answer(i) == TooManyTotal <==> 0 < total <= |open|)
      && (run.Answer(i) == TooManyPerHost <==> !(0 < total <= |open|) && 0 < perHost <= open[host])
      && (run.Answer(i) == TooFast ==> RateLimited(run.lim))
  {
    hide Run.At;
  }

  /** A connection is let in if and only if no ceiling is set that is already reached, by all
      the open ones together or by the host's own, and, where the rate is limited, fewer than
      Rate of the host's admissions lie in the window that ends with it. */
  lemma AdmittedIff(run: Run, i: nat)
    requires run.Disciplined() && run.Timed() && i < |run.ops| && run.ops[i].Arrive?
    ensures
      var op, lim := run.ops[i], run.lim;
      run.Admitted(i) <==>
        && (lim.total > 0 ==> |run.Open(i)| < lim.total)
        && (lim.perHost > 0 ==> run.Open(i)[op.host] < lim.perHost)
        && (lim.rate > 0 && lim.window > 0 ==>
              CountIn(run.Times(op.host, i), op.now - lim.window, op.now) < lim.rate)
  {
    hide Run.At, Run.Open, Run.Answer, Run.Times, Counts, CountIn;
    HeldIsOpen(run, i);
    AnswerCases(run, i, run.Open(i));
    if RateLimited(run.lim) && run.Answer(i) != TooManyTotal && run.Answer(i) != TooManyPerHost {
      RefusedIffWindowFull(run, i);
    }
  }

  /** A host has been admitted after the cutoff, as far as the gate remembers. */
  ghost predicate Recent(st: State, host: Host, cutoff: int) {
    host in st.recent && exists k :: 0 <= k < |st.recent[host]| && st.recent[host][k] > cutoff
  }

  /** The release that leaves nothing held sweeps a table of more than 4096 hosts down to those
      admitted within the window; any other release leaves the table alone. */
  lemma SweptIff(lim: Limits, st: State, host: Host, now: int)
    ensures
      var after := ReleaseStep(lim, st, host, now);
      var idle := (forall h :: h in st.held ==> h == host) && (host in st.held ==> st.held[host] <= 1);
      if idle && |st.recent| > 4096 then
        && (forall h :: h in after.recent <==> Recent(st, h, now - lim.window))
        && forall h :: h in after.recent ==> after.recent[h] == st.recent[h]
      else after.recent == st.recent
  {
    hide Forgotten, Recent;
    HeldAfter(st, host);
    ForgottenAre(st, now - lim.window);
  }

  /** What a release leaves held is nothing exactly when nobody else held anything, and the host
      one at most. */
  lemma HeldAfter(st: State, host: Host)
    ensures
      var n := HeldBy(st, host);
      var held := if n <= 1 then st.held - {host} else st.held[host := n - 1];
      held == map[] <==> (forall h :: h in st.held ==> h == host) && (host in st.held ==> st.held[host] <= 1)
  {
    var n := HeldBy(st, host);
    if n <= 1 {
      var held := st.held - {host};
      assert held.Keys == st.held.Keys - {host};
      assert held == map[] <==> held.Keys == {};
      assert forall h :: h in held.Keys <==> h in st.held && h != host;
      if held.Keys == {} { assert forall h :: h in st.held ==> h !in held.Keys ==> h == host; }
    } else {
      assert host in st.held[host := n - 1];
    }
  }

  lemma ForgottenAre(st: State, cutoff: int)
    ensures
      var left := Forgotten(st.recent, cutoff);
      && (forall h :: h in left <==> Recent(st, h, cutoff))
      && forall h :: h in left ==> left[h] == st.recent[h]
  {}
}
