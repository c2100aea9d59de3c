/** What every sequence of operations on the process table keeps. */
module ProcessLaws {
  import opened Decimal
  import opened Processes

  predicate NoRepeats(s: seq<int>) {
    forall i, j :: 0 <= i < j < |s| ==> s[i] != s[j]
  }

  lemma {:induction false} RemoveFromUnique(s: seq<int>, x: int)
    requires NoRepeats(s)
    ensures NoRepeats(RemovePid(s, x))
    ensures forall y :: y in RemovePid(s, x) <==> y in s && y != x
  {
    if s != [] {
      var rest := s[1..];
      assert s == [s[0]] + rest && s[0] !in rest;
      if s[0] != x {
        RemoveFromUnique(rest, x);
        NoRepeatsCons(s[0], RemovePid(rest, x));
      }
    }
  }

  lemma NoRepeatsCons(x: int, s: seq<int>)
    requires NoRepeats(s) && x !in s
    ensures NoRepeats([x] + s)
  {}

  // ---------- Watches ----------

  /** c watches t. */
  predicate Watches(procs: map<int, Proc>, c: int, t: int) {
    c in procs && t in procs[c].waitees
  }

  predicate WatchedBy(procs: map<int, Proc>, t: int, c: int) {
    t in procs && c in procs[t].waiters
  }

  /** For every live watcher both ends of a watch agree, and no watch is kept twice. A pid
      that is not alive may stand among the waiters, with nothing at the other end. */
  ghost predicate Tied(procs: map<int, Proc>) {
    && (forall c, t :: c in procs ==> (Watches(procs, c, t) <==> WatchedBy(procs, t, c)))
    && (forall p :: p in procs ==> NoRepeats(procs[p].waiters) && NoRepeats(procs[p].waitees))
  }

  /** The same for every watcher there is: no watch names a dead process at either end. */
  ghost predicate Linked(procs: map<int, Proc>) {
    Tied(procs) && forall c, t :: Watches(procs, c, t) <==> WatchedBy(procs, t, c)
  }

  /** What is missing is only that the waiters live. */
  lemma LinkedIffWaitersLive(procs: map<int, Proc>)
    requires Tied(procs)
    ensures Linked(procs) <==> forall c, t :: WatchedBy(procs, t, c) ==> c in procs
  {
    if forall c, t :: WatchedBy(procs, t, c) ==> c in procs {
      forall c, t ensures Watches(procs, c, t) <==> WatchedBy(procs, t, c) {
        assert c in procs ==> (Watches(procs, c, t) <==> WatchedBy(procs, t, c));
      }
    }
    if Linked(procs) {
      forall c, t | WatchedBy(procs, t, c) ensures c in procs {
        assert Watches(procs, c, t);
      }
    }
  }

  /** Whoever is watched is alive and knows it. */
  lemma WatcheesAreLive(procs: map<int, Proc>, c: int, t: int)
    requires Tied(procs) && Watches(procs, c, t)
    ensures t in procs && WatchedBy(procs, t, c)
  {
    assert c in procs ==> (Watches(procs, c, t) <==> WatchedBy(procs, t, c));
  }

  /** The table after a process has ended, in one step: it is gone from every list, and each
      process that watched it has received its exit. */
  function Ended(procs: map<int, Proc>, pid: int): map<int, Proc>
    requires pid in procs
  {
    map q | q in procs && q != pid :: AfterEnd(procs[q], pid, q in procs[pid].waiters)
  }

  function AfterEnd(p: Proc, pid: int, watched: bool): Proc {
    var p' := p.(waiters := RemovePid(p.waiters, pid), waitees := RemovePid(p.waitees, pid));
    if watched then Deliver(p', ProcExit(pid)) else p'
  }

  lemma {:induction false} RemoveAbsent(s: seq<int>, x: int)
    requires x !in s
    ensures RemovePid(s, x) == s
  {
    if s != [] {
      assert s == [s[0]] + s[1..];
      RemoveAbsent(s[1..], x);
    }
  }

  lemma LastOfUnique(s: seq<int>)
    requires NoRepeats(s) && s != []
    ensures NoRepeats(s[..|s| - 1]) && s[|s| - 1] !in s[..|s| - 1]
    ensures forall x :: x in s <==> x in s[..|s| - 1] || x == s[|s| - 1]
  {
    assert s == s[..|s| - 1] + [s[|s| - 1]];
  }

  lemma {:induction false} UnwatchEach(procs: map<int, Proc>, targets: seq<int>, pid: int)
    requires NoRepeats(targets)
    ensures Unwatch(procs, targets, pid).Keys == procs.Keys
    ensures forall q | q in procs ::
      Unwatch(procs, targets, pid)[q] == if q in targets then procs[q].(waiters := RemovePid(procs[q].waiters, pid)) else procs[q]
  {
    if targets != [] {
      LastOfUnique(targets);
      UnwatchEach(procs, targets[..|targets| - 1], pid);
    }
  }

  lemma {:induction false} NotifyEach(procs: map<int, Proc>, watchers: seq<int>, pid: int)
    requires NoRepeats(watchers)
    ensures Notify(procs, watchers, pid).Keys == procs.Keys
    ensures forall q | q in procs ::
      Notify(procs, watchers, pid)[q] == if q in watchers then Told(procs[q], pid) else procs[q]
  {
    hide Told;
    if watchers != [] {
      LastOfUnique(watchers);
      NotifyEach(procs, watchers[..|watchers| - 1], pid);
    }
  }

  /** What the two loops of finishProcess come to, for one process that stays. */
  lemma FinishOne(st: State, pid: int, q: int)
    requires Tied(st.procs) && pid in st.procs && q in st.procs && q != pid
    ensures q in Finish(st, pid).procs
    ensures Finish(st, pid).procs[q] == AfterEnd(st.procs[q], pid, q in st.procs[pid].waiters)
  {
    hide Tied, Deliver;
    var p, unwatched := st.procs[pid], Unwatch(st.procs, st.procs[pid].waitees, pid);
    TiedAt(st.procs, pid, q);
    UnwatchEach(st.procs, p.waitees, pid);
    RemoveFromUnique(p.waiters, pid);
    NotifyEach(unwatched, unwatched[pid].waiters, pid);
    if q !in p.waitees { RemoveAbsent(st.procs[q].waiters, pid); }
    if q !in p.waiters { RemoveAbsent(st.procs[q].waitees, pid); }
  }

  lemma TiedAt(procs: map<int, Proc>, p: int, q: int)
    requires Tied(procs) && p in procs && q in procs
    ensures q in procs[p].waitees <==> p in procs[q].waiters
    ensures p in procs[q].waitees <==> q in procs[p].waiters
    ensures NoRepeats(procs[p].waiters) && NoRepeats(procs[p].waitees)
  {
    assert p in procs ==> (Watches(procs, p, q) <==> WatchedBy(procs, q, p));
    assert q in procs ==> (Watches(procs, q, p) <==> WatchedBy(procs, p, q));
  }

  /** The two loops come to that one step. */
  lemma FinishIsEnded(st: State, pid: int)
    requires Tied(st.procs) && pid in st.procs
    ensures Finish(st, pid).procs == Ended(st.procs, pid)
  {
    hide Tied, Finish, AfterEnd;
    FinishKeys(st, pid);
    forall q | q in st.procs && q != pid
      ensures q in Finish(st, pid).procs
      ensures Finish(st, pid).procs[q] == AfterEnd(st.procs[q], pid, q in st.procs[pid].waiters)
    {
      FinishOne(st, pid, q);
    }
  }

  lemma FinishKeys(st: State, pid: int)
    requires Tied(st.procs) && pid in st.procs
    ensures Finish(st, pid).procs.Keys == st.procs.Keys - {pid}
  {
    var p := st.procs[pid];
    UnwatchEach(st.procs, p.waitees, pid);
    RemoveFromUnique(p.waiters, pid);
    var unwatched := Unwatch(st.procs, p.waitees, pid);
    NotifyEach(unwatched, unwatched[pid].waiters, pid);
  }

  /** How many times a process has received an event. */
  function Count(received: seq<Event>, e: Event): nat {
    if received == [] then 0
    else Count(received[..|received| - 1], e) + if received[|received| - 1] == e then 1 else 0
  }

  /** Ending a process delivers its exit exactly once to each process that watched it, and to
      no other, and nothing else to anyone. */
  lemma ExitDeliveredOnce(st: State, pid: int, q: int)
    requires Tied(st.procs) && pid in st.procs && q in st.procs && q != pid
    ensures q in Finish(st, pid).procs
    ensures Finish(st, pid).procs[q].received ==
      st.procs[q].received + if Watches(st.procs, q, pid) then [ProcExit(pid)] else []
  {
    FinishIsEnded(st, pid);
    assert Watches(st.procs, q, pid) <==> WatchedBy(st.procs, pid, q);
    assert st.procs[q].received + [] == st.procs[q].received;
  }

  lemma EndedTied(procs: map<int, Proc>, pid: int)
    requires Tied(procs) && pid in procs
    ensures Tied(Ended(procs, pid))
  {
    var after := Ended(procs, pid);
    forall q | q in after
      ensures NoRepeats(after[q].waiters) && NoRepeats(after[q].waitees)
      ensures forall y :: y in after[q].waiters <==> y in procs[q].waiters && y != pid
      ensures forall y :: y in after[q].waitees <==> y in procs[q].waitees && y != pid
    {
      RemoveFromUnique(procs[q].waiters, pid);
      RemoveFromUnique(procs[q].waitees, pid);
    }
    forall c, t | c in after ensures Watches(after, c, t) <==> WatchedBy(after, t, c) {
      assert c in procs ==> (Watches(procs, c, t) <==> WatchedBy(procs, t, c));
    }
  }

  /** Operations that touch no watch keep them all. */
  lemma SameWatches(before: map<int, Proc>, after: map<int, Proc>)
    requires Tied(before) && after.Keys == before.Keys
    requires forall q :: q in before ==> after[q].waiters == before[q].waiters && after[q].waitees == before[q].waitees
    ensures Tied(after)
  {
    forall c, t | c in after ensures Watches(after, c, t) <==> WatchedBy(after, t, c) {
      assert c in before ==> (Watches(before, c, t) <==> WatchedBy(before, t, c));
    }
  }

  lemma {:induction false} DeliverAllKeeps(p: Proc, es: seq<Event>)
    ensures
      var d := DeliverAll(p, es);
      && d.waiters == p.waiters && d.waitees == p.waitees && d.descr == p.descr && d.timers == p.timers
      && d.received == p.received + es
      && (d.state.Reading? <==> p.state.Reading?)
  {
    hide Deliver;
    if es != [] {
      var init, last := es[..|es| - 1], es[|es| - 1];
      DeliverAllKeeps(p, init);
      DeliverOneKeeps(DeliverAll(p, init), last);
      assert p.received + es == (p.received + init) + [last];
    }
  }

  lemma DeliverOneKeeps(p: Proc, e: Event)
    ensures
      var d := Deliver(p, e);
      && d.waiters == p.waiters && d.waitees == p.waitees && d.descr == p.descr && d.timers == p.timers
      && d.received == p.received + [e]
      && (d.state.Reading? <==> p.state.Reading?)
  {
    hide NameOf;
  }

  /** Whoever asks, a watch keeps the ends in step for the live. */
  lemma WatchTied(st: State, caller: int, target: int)
    requires Tied(st.procs)
    ensures Tied(Watch(st, caller, target).procs)
  {
    var procs := st.procs;
    if target in procs && caller !in procs[target].waiters {
      AddedWatch(procs, Watch(st, caller, target).procs, caller, target);
    }
  }

  lemma AddedWatch(procs: map<int, Proc>, after: map<int, Proc>, caller: int, target: int)
    requires Tied(procs) && target in procs && !WatchedBy(procs, target, caller)
    requires after.Keys == procs.Keys
    requires forall q :: q in procs ==>
      && after[q].waiters == procs[q].waiters + (if q == target then [caller] else [])
      && after[q].waitees == procs[q].waitees + (if q == caller then [target] else [])
    ensures Tied(after)
  {
    assert caller in procs ==> (Watches(procs, caller, target) <==> WatchedBy(procs, target, caller));
    forall c, t | c in after ensures Watches(after, c, t) <==> WatchedBy(after, t, c) {
      assert c in procs ==> (Watches(procs, c, t) <==> WatchedBy(procs, t, c));
    }
  }

  /** A watch by a live process keeps both ends in step; one by anything else leaves its
      pid behind in the target's list, so it keeps them in step only if there is no target. */
  lemma WatchLinked(st: State, caller: int, target: int)
    requires Linked(st.procs)
    ensures Linked(Watch(st, caller, target).procs) <==> caller in st.procs || target !in st.procs
  {
    var procs, after := st.procs, Watch(st, caller, target).procs;
    LinkedIffWaitersLive(procs);
    WatchTied(st, caller, target);
    LinkedIffWaitersLive(after);
    if target in procs {
      assert WatchedBy(after, target, caller);
      forall c, t | WatchedBy(after, t, c) ensures c in procs || c == caller {
        assert WatchedBy(procs, t, c) ==> c in procs;
      }
    } else {
      assert after == procs;
    }
  }

  // ---------- The reading index ----------

  /** Every entry of the index is a live process blocked on READ at that descriptor. */
  ghost predicate Indexed(st: State) {
    forall d :: d in st.reading ==>
      && st.reading[d] in st.procs
      && st.procs[st.reading[d]].state.Reading?
      && st.procs[st.reading[d]].descr == d
  }

  /** Pids are handed out in order and never again, and no list of waiters is ahead of them. */
  predicate Numbered(st: State) {
    && st.next >= 0
    && (forall pid :: pid in st.procs ==> 0 < pid <= st.next)
    && (forall pid :: pid in st.procs ==> forall c :: c in st.procs[pid].waiters ==> 0 <= c <= st.next)
  }

  /** No process holds two timers that would deliver under one name. */
  predicate Distinct(timers: seq<Timer>) {
    forall i, j :: 0 <= i < j < |timers| ==> TimerEventName(timers[i].id) != TimerEventName(timers[j].id)
  }

  ghost predicate Inv(st: State) {
    && Tied(st.procs)
    && Indexed(st)
    && Numbered(st)
    && forall pid :: pid in st.procs ==> Distinct(st.procs[pid].timers)
  }

  /** A typed line resumes nothing but a program blocked on READ at the descriptor it was
      typed on. */
  lemma LineResumesReader(st: State, descr: int, blank: bool, wantsBlanks: bool, q: int)
    requires Inv(st) && q in st.procs
    ensures
      var (taken, after) := ReadInput(st, descr, blank, wantsBlanks);
      q in after.procs && (after.procs[q] != st.procs[q] ==>
        taken && st.procs[q].state.Reading? && st.procs[q].descr == descr && after.procs[q].state.Runnable?)
  {}

  // ---------- Timers ----------

  predicate NoneNamed(timers: seq<Timer>, id: string) {
    forall t :: t in timers ==> TimerEventName(t.id) != TimerEventName(id)
  }

  lemma DistinctSnoc(init: seq<Timer>, last: Timer)
    ensures Distinct(init + [last]) <==> Distinct(init) && NoneNamed(init, last.id)
  {
    hide TimerEventName;
    var all := init + [last];
    if Distinct(all) {
      assert forall i, j :: 0 <= i < j < |init| ==> all[i] == init[i] && all[j] == init[j];
      forall t | t in init ensures TimerEventName(t.id) != TimerEventName(last.id) {
        var k :| 0 <= k < |init| && init[k] == t;
        assert all[k] == t && all[|init|] == last;
      }
    }
    if Distinct(init) && NoneNamed(init, last.id) {
      forall i, j | 0 <= i < j < |all| ensures TimerEventName(all[i].id) != TimerEventName(all[j].id) {
        assert all[i] == init[i] && init[i] in init;
      }
    }
  }

  /** A list that loses some of its timers stays distinct, and none comes in. */
  lemma {:induction false} OtherTimersDistinct(timers: seq<Timer>, id: string)
    requires Distinct(timers)
    ensures Distinct(OtherTimers(timers, id)) && NoneNamed(OtherTimers(timers, id), id)
    ensures forall t :: t in OtherTimers(timers, id) ==> t in timers
  {
    hide TimerEventName, Distinct;
    if timers == [] {
      DistinctEmpty();
    } else {
      var init, last := timers[..|timers| - 1], timers[|timers| - 1];
      assert timers == init + [last];
      DistinctSnoc(init, last);
      OtherTimersDistinct(init, id);
      DistinctSnoc(OtherTimers(init, id), last);
      assert OtherTimers(init, id) + [] == OtherTimers(init, id);
    }
  }

  lemma DistinctEmpty()
    ensures Distinct([])
  {}

  lemma {:induction false} PendingDistinct(timers: seq<Timer>, now: int)
    requires Distinct(timers)
    ensures Distinct(Pending(timers, now))
    ensures forall t :: t in Pending(timers, now) ==> t in timers && t.fires > now
  {
    hide TimerEventName, Distinct;
    if timers == [] {
      DistinctEmpty();
    } else {
      var init, last := timers[..|timers| - 1], timers[|timers| - 1];
      assert timers == init + [last];
      DistinctSnoc(init, last);
      PendingDistinct(init, now);
      DistinctSnoc(Pending(init, now), last);
      assert Pending(init, now) + [] == Pending(init, now);
    }
  }

  /** Starting a timer replaces the one of its name. */
  lemma StartedDistinct(timers: seq<Timer>, id: string, fires: int)
    requires Distinct(timers)
    ensures Distinct(OtherTimers(timers, id) + [Timer(id, fires)])
  {
    hide TimerEventName, Distinct;
    OtherTimersDistinct(timers, id);
    DistinctSnoc(OtherTimers(timers, id), Timer(id, fires));
  }

  /** How many timers of a list are a given one. */
  function CountTimer(timers: seq<Timer>, t: Timer): nat {
    if timers == [] then 0
    else CountTimer(timers[..|timers| - 1], t) + if timers[|timers| - 1] == t then 1 else 0
  }

  lemma CountTimerSnoc(timers: seq<Timer>, last: Timer, t: Timer)
    ensures CountTimer(timers + [last], t) == CountTimer(timers, t) + if last == t then 1 else 0
  {
    assert (timers + [last])[..|timers|] == timers;
  }

  lemma CountSnoc(received: seq<Event>, last: Event, e: Event)
    ensures Count(received + [last], e) == Count(received, e) + if last == e then 1 else 0
  {
    assert (received + [last])[..|received|] == received;
  }

  /** Firing splits the timers: each one that is due delivers its event once and is dropped,
      each other one is kept and delivers nothing. */
  lemma FiringSplits(timers: seq<Timer>, now: int, t: Timer)
    ensures CountTimer(Pending(timers, now), t) == if t.fires > now then CountTimer(timers, t) else 0
    ensures Count(Due(timers, now), TimerFired(t.id, t.fires)) == if t.fires > now then 0 else CountTimer(timers, t)
  {
    KeptTimers(timers, now, t);
    FiredTimers(timers, now, t);
  }

  lemma {:induction false} KeptTimers(timers: seq<Timer>, now: int, t: Timer)
    ensures CountTimer(Pending(timers, now), t) == if t.fires > now then CountTimer(timers, t) else 0
  {
    if timers != [] {
      var init, last := timers[..|timers| - 1], timers[|timers| - 1];
      KeptTimers(init, now, t);
      CountTimerSnoc(Pending(init, now), last, t);
      assert Pending(init, now) + [] == Pending(init, now);
    }
  }

  lemma {:induction false} FiredTimers(timers: seq<Timer>, now: int, t: Timer)
    ensures Count(Due(timers, now), TimerFired(t.id, t.fires)) == if t.fires > now then 0 else CountTimer(timers, t)
  {
    if timers != [] {
      var init, last := timers[..|timers| - 1], timers[|timers| - 1];
      FiredTimers(init, now, t);
      CountSnoc(Due(init, now), TimerFired(last.id, last.fires), TimerFired(t.id, t.fires));
      assert Due(init, now) + [] == Due(init, now);
    }
  }

  // ---------- Every operation ----------

  datatype Op =
    | Spawn(state: ProcState, wake: int, descr: int)
    | Run(pid: int)
    | Stop(pid: int, outcome: Outcome, now: int)
    | Type(descr: int, blank: bool, wantsBlanks: bool)
    | WatchPid(caller: int, target: int)
    | KillPid(pid: int)
    | SendEvent(pid: int, event: Event)
    | StartTimer(pid: int, id: string, fires: int)
    | StopTimer(pid: int, id: string)
    | Fire(now: int)

  function NewProc(state: ProcState, wake: int, descr: int): Proc {
    Proc(state, wake, [], [], [], [], descr, [])
  }

  /** One operation. A program settles only while it runs. The caller of a watch is the pid
      its frame carries: one that was handed out, or 0, which every frame carries that was not
      given its process's pid, such as a lock program's or a listener's. */
  function Do(st: State, op: Op): State {
    match op
    case Spawn(state, wake, descr) => Add(st, NewProc(state, wake, descr))
    case Run(pid) => if pid in st.procs then Resume(st, pid) else st
    case Stop(pid, outcome, now) =>
      if pid in st.procs && st.procs[pid].state.Runnable? then Settle(st, pid, outcome, now) else st
    case Type(descr, blank, wantsBlanks) => ReadInput(st, descr, blank, wantsBlanks).1
    case WatchPid(caller, target) => if 0 <= caller <= st.next then Watch(st, caller, target) else st
    case KillPid(pid) => if pid in st.procs then Finish(st, pid) else st
    case SendEvent(pid, event) => Send(st, pid, event)
    case StartTimer(pid, id, fires) => TimerStart(st, pid, id, fires)
    case StopTimer(pid, id) => TimerStop(st, pid, id)
    case Fire(now) => FireAll(st, now)
  }

  function DoAll(ops: seq<Op>): State {
    if ops == [] then EMPTY else Do(DoAll(ops[..|ops| - 1]), ops[|ops| - 1])
  }

  lemma AddKeeps(st: State, p: Proc)
    requires Inv(st) && p.waiters == [] && p.waitees == [] && p.timers == []
    ensures Inv(Add(st, p))
  {
    var after, pid := Add(st, p).procs, st.next + 1;
    forall c, t | c in after ensures Watches(after, c, t) <==> WatchedBy(after, t, c) {
      assert c in st.procs ==> (Watches(st.procs, c, t) <==> WatchedBy(st.procs, t, c));
    }
  }

  lemma FinishKeeps(st: State, pid: int)
    requires Inv(st) && pid in st.procs
    ensures Inv(Finish(st, pid)) && Finish(st, pid).next == st.next
  {
    hide Tied, Finish, Distinct;
    FinishIsEnded(st, pid);
    EndedTied(st.procs, pid);
    FinishOthers(st, pid);
  }

  /** What ending leaves of the index and of the other processes. */
  lemma FinishOthers(st: State, pid: int)
    requires Inv(st) && pid in st.procs
    ensures
      var after := Finish(st, pid);
      && after.next == st.next
      && Indexed(after)
      && (forall q :: q in after.procs ==> q in st.procs && Distinct(after.procs[q].timers))
      && (forall q :: q in after.procs ==> forall c :: c in after.procs[q].waiters ==> c in st.procs[q].waiters)
  {
    hide Tied, Unwatch, Notify;
    FinishIsEnded(st, pid);
    var after := Finish(st, pid);
    forall d | d in after.reading
      ensures after.reading[d] in after.procs
      ensures after.procs[after.reading[d]].state.Reading? && after.procs[after.reading[d]].descr == d
    {
      assert after.procs[after.reading[d]] == Ended(st.procs, pid)[st.reading[d]];
    }
    forall q | q in after.procs ensures forall c :: c in after.procs[q].waiters ==> c in st.procs[q].waiters {
      FewerWaiters(st.procs[q].waiters, pid);
    }
  }

  lemma {:induction false} FewerWaiters(s: seq<int>, x: int)
    ensures forall y :: y in RemovePid(s, x) ==> y in s
  {
    if s != [] {
      assert s == [s[0]] + s[1..];
      FewerWaiters(s[1..], x);
    }
  }

  lemma UpdateKeeps(st: State, pid: int, p: Proc)
    requires Inv(st) && pid in st.procs
    requires p.waiters == st.procs[pid].waiters && p.waitees == st.procs[pid].waitees && Distinct(p.timers)
    requires p.descr == st.procs[pid].descr && (st.procs[pid].state.Reading? ==> p.state.Reading?)
    ensures Inv(st.(procs := st.procs[pid := p]))
  {
    SameWatches(st.procs, st.procs[pid := p]);
  }

  lemma ResumeKeeps(st: State, pid: int)
    requires Inv(st) && pid in st.procs
    ensures Inv(Resume(st, pid))
  {
    SameWatches(st.procs, Resume(st, pid).procs);
  }

  lemma SettleKeeps(st: State, pid: int, o: Outcome, now: int)
    requires Inv(st) && pid in st.procs && st.procs[pid].state.Runnable?
    ensures Inv(Settle(st, pid, o, now)) && Settle(st, pid, o, now).next == st.next
  {
    hide Inv, Finish;
    var p := st.procs[pid];
    InvTimers(st, pid);
    match o
    case Done => FinishKeeps(st, pid);
    case Failed => FinishKeeps(st, pid);
    case Yielded => UpdateKeeps(st, pid, p.(state := Runnable));
    case Blocked(OnNothing) => FinishKeeps(st, pid);
    case Blocked(OnRead) => ReadBlockKeeps(st, pid);
    case Blocked(OnSleep(seconds)) => UpdateKeeps(st, pid, p.(state := Sleeping, wake := now + seconds));
    case Blocked(OnEvent(events)) => UpdateKeeps(st, pid, p.(state := Waiting, events := events));
  }

  lemma InvTimers(st: State, pid: int)
    requires Inv(st) && pid in st.procs
    ensures Distinct(st.procs[pid].timers)
  {}

  /** A process that comes to wait for a line. */
  lemma ReadBlockKeeps(st: State, pid: int)
    requires Inv(st) && pid in st.procs && st.procs[pid].state.Runnable?
    ensures Inv(Settle(st, pid, Blocked(OnRead), 0))
  {
    hide Finish, Distinct;
    SameWatches(st.procs, Settle(st, pid, Blocked(OnRead), 0).procs);
  }

  lemma FireKeeps(st: State, now: int)
    requires Inv(st)
    ensures Inv(FireAll(st, now))
  {
    forall pid | pid in st.procs
      ensures
        var p, after := st.procs[pid], FireAll(st, now).procs[pid];
        && after.waiters == p.waiters && after.waitees == p.waitees && after.descr == p.descr
        && (p.state.Reading? ==> after.state.Reading?)
        && Distinct(after.timers)
    {
      var p := st.procs[pid];
      DeliverAllKeeps(p.(timers := Pending(p.timers, now)), Due(p.timers, now));
      PendingDistinct(p.timers, now);
    }
    SameWatches(st.procs, FireAll(st, now).procs);
  }

  lemma DoKeeps(st: State, op: Op)
    requires Inv(st)
    ensures Inv(Do(st, op)) && Do(st, op).next >= st.next
  {
    hide Tied, Indexed, Distinct, Finish, OtherTimers;
    match op
    case Spawn(state, wake, descr) => AddKeeps(st, NewProc(state, wake, descr));
    case Run(pid) => if pid in st.procs { ResumeKeeps(st, pid); }
    case Stop(pid, outcome, now) =>
      if pid in st.procs && st.procs[pid].state.Runnable? { SettleKeeps(st, pid, outcome, now); }
    case Type(descr, blank, wantsBlanks) =>
      if ReaderFor(st, descr).Some? { ResumeKeeps(st, ReaderFor(st, descr).value); }
    case WatchPid(caller, target) => if 0 <= caller <= st.next { WatchKeeps(st, caller, target); }
    case KillPid(pid) => if pid in st.procs { FinishKeeps(st, pid); }
    case SendEvent(pid, event) => if pid in st.procs { UpdateKeeps(st, pid, Deliver(st.procs[pid], event)); }
    case StartTimer(pid, id, fires) =>
      if pid in st.procs {
        var p := st.procs[pid];
        StartedDistinct(p.timers, id, fires);
        UpdateKeeps(st, pid, p.(timers := OtherTimers(p.timers, id) + [Timer(id, fires)]));
      }
    case StopTimer(pid, id) =>
      if pid in st.procs {
        var p := st.procs[pid];
        OtherTimersDistinct(p.timers, id);
        UpdateKeeps(st, pid, p.(timers := OtherTimers(p.timers, id)));
      }
    case Fire(now) => FireKeeps(st, now);
  }

  lemma WatchKeeps(st: State, caller: int, target: int)
    requires Inv(st) && 0 <= caller <= st.next
    ensures Inv(Watch(st, caller, target))
  {
    hide Tied, Distinct;
    WatchTied(st, caller, target);
  }

  /** In every state that any sequence of operations reaches: for every live watcher both ends
      of its watches agree, whoever is watched is alive, no watch is kept twice, the reading
      index names only programs blocked on READ there, pids are unused numbers up to the
      counter, and no process has two timers of one name. */
  lemma {:induction false} EveryRunKeeps(ops: seq<Op>)
    ensures Inv(DoAll(ops))
  {
    if ops != [] {
      EveryRunKeeps(ops[..|ops| - 1]);
      DoKeeps(DoAll(ops[..|ops| - 1]), ops[|ops| - 1]);
    }
  }

  /** No operation brings a process in under any number but the next one. */
  lemma DoAddsOnlyNext(st: State, op: Op, pid: int)
    requires Inv(st) && pid <= st.next && pid !in st.procs
    ensures pid !in Do(st, op).procs && pid <= Do(st, op).next
  {
    hide Tied, Indexed, Distinct, Deliver, OtherTimers, FireTimers;
    DoKeeps(st, op);
    match op
    case Stop(p, outcome, _) => if p in st.procs { FinishIsEnded(st, p); }
    case KillPid(p) => if p in st.procs { FinishIsEnded(st, p); }
    case _ =>
  }

  /** Pids are never reused: a number that has been given out and is no longer alive is never
      alive again, whatever happens. */
  lemma {:induction false} PidsNeverReused(ops: seq<Op>, n: nat, pid: int)
    requires n <= |ops| && pid <= DoAll(ops[..n]).next && pid !in DoAll(ops[..n]).procs
    ensures pid !in DoAll(ops).procs && pid <= DoAll(ops).next
    decreases |ops|
  {
    hide Inv, Do;
    if n == |ops| {
      assert ops[..n] == ops;
    } else {
      var init := ops[..|ops| - 1];
      assert init[..n] == ops[..n];
      PidsNeverReused(init, n, pid);
      EveryRunKeeps(init);
      DoAddsOnlyNext(DoAll(init), ops[|ops| - 1], pid);
    }
  }

  // ---------- Watchers that are no process ----------

  /** In every such state, watches name live processes at both ends exactly when no process
      lists a watcher that is not alive. */
  lemma LinkedIffNoneDangles(ops: seq<Op>)
    ensures Linked(DoAll(ops).procs) <==> forall c, t :: WatchedBy(DoAll(ops).procs, t, c) ==> c in DoAll(ops).procs
  {
    hide DoAll, Tied;
    EveryRunKeeps(ops);
    LinkedIffWaitersLive(DoAll(ops).procs);
  }

  /** Every watch of a run is asked for by a live process or by a frame without a pid. */
  ghost predicate LiveCallers(ops: seq<Op>) {
    forall i :: 0 <= i < |ops| && ops[i].WatchPid? ==> ops[i].caller == 0 || ops[i].caller in DoAll(ops[..i]).procs
  }

  /** No process lists a dead watcher other than 0. */
  ghost predicate ZeroOnly(procs: map<int, Proc>) {
    forall c, t :: WatchedBy(procs, t, c) ==> c == 0 || c in procs
  }

  lemma EndedZeroOnly(procs: map<int, Proc>, pid: int)
    requires Tied(procs) && ZeroOnly(procs) && pid in procs
    ensures ZeroOnly(Ended(procs, pid))
  {
    hide Tied;
    forall c, t | WatchedBy(Ended(procs, pid), t, c) ensures c == 0 || (c in procs && c != pid) {
      TiedAt(procs, t, t);
      RemoveFromUnique(procs[t].waiters, pid);
      assert WatchedBy(procs, t, c);
    }
  }

  lemma FinishZeroOnly(st: State, pid: int)
    requires Inv(st) && ZeroOnly(st.procs) && pid in st.procs
    ensures ZeroOnly(Finish(st, pid).procs)
  {
    hide Tied, Finish, Ended, ZeroOnly, Indexed, Distinct;
    FinishIsEnded(st, pid);
    EndedZeroOnly(st.procs, pid);
  }

  /** Operations that end nothing and touch no watch. */
  lemma SameZeroOnly(before: map<int, Proc>, after: map<int, Proc>)
    requires ZeroOnly(before) && before.Keys <= after.Keys
    requires forall q :: q in after ==> after[q].waiters == if q in before then before[q].waiters else []
    ensures ZeroOnly(after)
  {
    forall c, t | WatchedBy(after, t, c) ensures c == 0 || c in after {
      assert WatchedBy(before, t, c);
    }
  }

  lemma WatchZeroOnly(st: State, caller: int, target: int)
    requires ZeroOnly(st.procs) && (caller == 0 || caller in st.procs)
    ensures ZeroOnly(Watch(st, caller, target).procs)
  {
    var after := Watch(st, caller, target).procs;
    forall c, t | WatchedBy(after, t, c) ensures c == 0 || c in after {
      assert c == caller || WatchedBy(st.procs, t, c);
    }
  }

  lemma FireWaiters(st: State, now: int, q: int)
    requires q in st.procs
    ensures FireAll(st, now).procs[q].waiters == st.procs[q].waiters
  {
    var p := st.procs[q];
    DeliverAllKeeps(p.(timers := Pending(p.timers, now)), Due(p.timers, now));
  }

  lemma DoZeroOnly(st: State, op: Op)
    requires Inv(st) && ZeroOnly(st.procs) && (op.WatchPid? ==> op.caller == 0 || op.caller in st.procs)
    ensures ZeroOnly(Do(st, op).procs)
  {
    hide Inv, ZeroOnly, Finish, OtherTimers, Watch, FireAll;
    NextUnused(st);
    match op
    case Stop(pid, outcome, now) =>
      if pid in st.procs && st.procs[pid].state.Runnable? {
        if outcome.Done? || outcome.Failed? || outcome == Blocked(OnNothing) {
          FinishZeroOnly(st, pid);
        } else {
          SameZeroOnly(st.procs, Do(st, op).procs);
        }
      }
    case KillPid(pid) => if pid in st.procs { FinishZeroOnly(st, pid); }
    case WatchPid(caller, target) => if 0 <= caller <= st.next { WatchZeroOnly(st, caller, target); }
    case Fire(now) =>
      FireKeys(st, now);
      forall q | q in st.procs ensures FireAll(st, now).procs[q].waiters == st.procs[q].waiters { FireWaiters(st, now, q); }
      SameZeroOnly(st.procs, FireAll(st, now).procs);
    case _ => SameZeroOnly(st.procs, Do(st, op).procs);
  }

  lemma FireKeys(st: State, now: int)
    ensures FireAll(st, now).procs.Keys == st.procs.Keys
  {
    hide FireTimers;
  }

  lemma NextUnused(st: State)
    requires Inv(st)
    ensures st.next + 1 !in st.procs
  {}

  lemma {:induction false} RunsZeroOnly(ops: seq<Op>)
    requires LiveCallers(ops)
    ensures ZeroOnly(DoAll(ops).procs)
  {
    hide Do, ZeroOnly, Inv;
    if ops == [] {
      NoneAtStart();
    } else {
      var init := ops[..|ops| - 1];
      assert forall i :: 0 <= i < |init| ==> init[..i] == ops[..i];
      RunsZeroOnly(init);
      EveryRunKeeps(init);
      DoZeroOnly(DoAll(init), ops[|ops| - 1]);
    }
  }

  lemma NoneAtStart()
    ensures ZeroOnly(map[])
  {}

  /** Where every watch is asked for by a live process or by a frame without a pid, watches
      name live processes at both ends exactly when no live process lists 0. */
  lemma LinkedIffNoZero(ops: seq<Op>)
    requires LiveCallers(ops)
    ensures Linked(DoAll(ops).procs) <==> forall t :: t in DoAll(ops).procs ==> 0 !in DoAll(ops).procs[t].waiters
  {
    hide DoAll, Tied, LiveCallers;
    var procs := DoAll(ops).procs;
    EveryRunKeeps(ops);
    RunsZeroOnly(ops);
    LinkedIffWaitersLive(procs);
    ZeroUnused(DoAll(ops));
    if forall t :: t in procs ==> 0 !in procs[t].waiters {
      assert forall c, t :: WatchedBy(procs, t, c) ==> c in procs;
    } else {
      var t :| t in procs && 0 in procs[t].waiters;
      assert WatchedBy(procs, t, 0);
    }
  }

  lemma ZeroUnused(st: State)
    requires Inv(st)
    ensures 0 !in st.procs
  {}

  /** The input: a program that carries no pid, though it has a process, watches another. The
      other lists it with nothing at its own end, and when it ends the watcher is not told. */
  lemma UnownedWatcherIsNotTold()
    ensures
      var before := [Spawn(Runnable, 0, 0), Spawn(Runnable, 0, 0), WatchPid(0, 2)];
      && !Linked(DoAll(before).procs)
      && 1 in DoAll(before + [KillPid(2)]).procs
      && DoAll(before + [KillPid(2)]).procs[1].received == []
  {
    hide Tied, Finish, NameOf;
    var st := UnownedRun();
    var before: seq<Op> := [Spawn(Runnable, 0, 0), Spawn(Runnable, 0, 0), WatchPid(0, 2)];
    EveryRunKeeps(before);
    LinkedIffWaitersLive(st.procs);
    assert WatchedBy(st.procs, 2, 0);
    ExitDeliveredOnce(st, 2, 1);
    assert (before + [KillPid(2)])[..3] == before;
    assert DoAll(before + [KillPid(2)]) == Finish(st, 2);
  }

  function UnownedRun(): (st: State)
    ensures st == DoAll([Spawn(Runnable, 0, 0), Spawn(Runnable, 0, 0), WatchPid(0, 2)])
  {
    var p := NewProc(Runnable, 0, 0);
    var one: seq<Op> := [Spawn(Runnable, 0, 0)];
    var two: seq<Op> := [Spawn(Runnable, 0, 0), Spawn(Runnable, 0, 0)];
    var before: seq<Op> := [Spawn(Runnable, 0, 0), Spawn(Runnable, 0, 0), WatchPid(0, 2)];
    assert one[..0] == [] && two[..1] == one && before[..2] == two;
    assert DoAll(one) == State(1, map[1 := p], map[]);
    assert DoAll(two).procs == map[1 := p, 2 := p];
    assert p.waiters + [0] == [0];
    State(2, map[1 := p, 2 := p.(waiters := [0])], map[])
  }
}
