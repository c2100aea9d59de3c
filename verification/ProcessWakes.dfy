/** What wakes a suspended program: the line, the time, the timer, the event or the exit it
    waits for, and nothing else. */
module ProcessWakes {
  import opened Decimal
  import opened Processes
  import opened ProcessLaws

  /** A process that waits for an event of this name, or for any event at all. */
  predicate Heeds(p: Proc, name: string) {
    p.state == Waiting && (|p.events| == 0 || exists k :: 0 <= k < |p.events| && p.events[k] == name)
  }

  lemma DeliverWakes(p: Proc, e: Event)
    ensures Deliver(p, e) == p.(state := if Heeds(p, NameOf(e)) then Runnable else p.state, received := p.received + [e])
  {
    hide NameOf;
  }

  /** Delivered one after the other, events wake the process if it heeds any of them. */
  lemma {:induction false} DeliverAllWakes(p: Proc, es: seq<Event>)
    ensures
      var heeded := exists k :: 0 <= k < |es| && Heeds(p, NameOf(es[k]));
      DeliverAll(p, es) == p.(state := if heeded then Runnable else p.state, received := p.received + es)
  {
    hide Deliver, NameOf;
    if es == [] {
      assert p.received + [] == p.received;
    } else {
      var init, last := es[..|es| - 1], es[|es| - 1];
      DeliverAllWakes(p, init);
      DeliverWakes(DeliverAll(p, init), last);
      assert (p.received + init) + [last] == p.received + es;
      assert forall k :: 0 <= k < |init| ==> init[k] == es[k];
    }
  }

  // ---------- Exits ----------

  /** The end of a process wakes each process that watched it and waits for that, or for
      anything; the state of no other process changes. */
  lemma ExitWakes(st: State, pid: int, q: int)
    requires Tied(st.procs) && pid in st.procs && q in st.procs && q != pid
    ensures q in Finish(st, pid).procs
    ensures Finish(st, pid).procs[q].state ==
      if Watches(st.procs, q, pid) && Heeds(st.procs[q], "PROC.EXIT." + Itoa(pid)) then Runnable else st.procs[q].state
  {
    hide Tied, Finish, Itoa, Deliver;
    FinishOne(st, pid, q);
    TiedAt(st.procs, q, pid);
    var p := st.procs[q];
    DeliverWakes(p.(waiters := RemovePid(p.waiters, pid), waitees := RemovePid(p.waitees, pid)), ProcExit(pid));
  }

  /** A live process that asks to watch another is told, once, when that one ends. */
  lemma WatcherIsTold(st: State, caller: int, target: int)
    requires Tied(st.procs) && caller in st.procs && target in st.procs && caller != target
    ensures caller in Finish(Watch(st, caller, target), target).procs
    ensures Finish(Watch(st, caller, target), target).procs[caller].received ==
      st.procs[caller].received + [ProcExit(target)]
  {
    hide Tied, Finish;
    var after := Watch(st, caller, target);
    WatchTied(st, caller, target);
    TiedAt(st.procs, caller, target);
    ExitDeliveredOnce(after, target, caller);
  }

  // ---------- Lines ----------

  /** A program that blocks on READ at a descriptor takes the next line typed there: any that
      is not blank resumes it, and a blank one does if it asked for blanks. */
  lemma ReaderIsResumed(st: State, pid: int, now: int, blank: bool, wantsBlanks: bool)
    requires pid in st.procs && st.procs[pid].descr != 0
    ensures
      var blocked := Settle(st, pid, Blocked(OnRead), now);
      var (taken, after) := ReadInput(blocked, st.procs[pid].descr, blank, wantsBlanks);
      && taken && after.next == st.next
      && (blank && !wantsBlanks ==> after == blocked)
      && (!blank || wantsBlanks ==>
            && after.procs == st.procs[pid := st.procs[pid].(state := Runnable)]
            && after.reading == st.reading - {st.procs[pid].descr})
  {
    hide Finish;
  }

  // ---------- Time ----------

  /** When a program that stopped is to run next: one that yielded at once; one that sleeps
      when its seconds are over; one that reads or waits not until it is resumed; one that
      ended never, since it is gone. */
  lemma {:induction false} DueAfterStopping(st: State, pid: int, o: Outcome, now: int, t: int)
    requires Tied(st.procs) && pid in st.procs
    ensures
      var after := Settle(st, pid, o, now).procs;
      match o
      case Yielded => pid in after && IsDue(after[pid], t)
      case Blocked(OnSleep(seconds)) => pid in after && (IsDue(after[pid], t) <==> t >= now + seconds)
      case Blocked(OnRead) => pid in after && !IsDue(after[pid], t)
      case Blocked(OnEvent(_)) => pid in after && !IsDue(after[pid], t)
      case _ => after.Keys == st.procs.Keys - {pid}
  {
    hide Tied, Finish;
    FinishKeys(st, pid);
  }

  // ---------- Events and timers ----------

  /** A program that waits for some events, or for any, is woken by one of those alone. */
  lemma WaiterIsWoken(st: State, pid: int, events: seq<string>, now: int, e: Event)
    requires pid in st.procs
    ensures
      var after := Send(Settle(st, pid, Blocked(OnEvent(events)), now), pid, e).procs;
      && pid in after && after[pid].received == st.procs[pid].received + [e]
      && after[pid].state == (if events == [] || NameOf(e) in events then Runnable else Waiting)
  {
    hide Finish, NameOf;
  }

  lemma {:induction false} NoneNamedNoneCounted(timers: seq<Timer>, t: Timer)
    requires NoneNamed(timers, t.id)
    ensures CountTimer(timers, t) == 0
  {
    hide TimerEventName;
    if timers != [] {
      var init := timers[..|timers| - 1];
      assert forall x :: x in init ==> x in timers;
      assert timers[|timers| - 1] in timers;
      NoneNamedNoneCounted(init, t);
    }
  }

  /** Timers of other names are neither lost nor doubled when one is stopped. */
  lemma {:induction false} OthersCounted(timers: seq<Timer>, id: string, t: Timer)
    ensures CountTimer(OtherTimers(timers, id), t) ==
      if TimerEventName(t.id) == TimerEventName(id) then 0 else CountTimer(timers, t)
  {
    hide TimerEventName, OtherTimers, CountTimer;
    if timers == [] {
      NoTimers(id, t);
    } else {
      var init, last := timers[..|timers| - 1], timers[|timers| - 1];
      OthersCounted(init, id, t);
      OthersSnoc(timers, id);
      CountTimerSnoc(OtherTimers(init, id), last, t);
      CountTimerSnoc(init, last, t);
      assert timers == init + [last];
    }
  }

  lemma NoTimers(id: string, t: Timer)
    ensures OtherTimers([], id) == [] && CountTimer([], t) == 0
  {}

  lemma OthersSnoc(timers: seq<Timer>, id: string)
    requires timers != []
    ensures
      var init, last := OtherTimers(timers[..|timers| - 1], id), timers[|timers| - 1];
      OtherTimers(timers, id) == if TimerEventName(last.id) != TimerEventName(id) then init + [last] else init
  {
    hide TimerEventName;
  }

  lemma {:induction false} CountJoins(a: seq<Event>, b: seq<Event>, e: Event)
    ensures Count(a + b, e) == Count(a, e) + Count(b, e)
  {
    if b == [] {
      assert a + b == a;
    } else {
      assert (a + b)[..|a + b| - 1] == a + b[..|b| - 1];
      CountJoins(a, b[..|b| - 1], e);
    }
  }

  /** How often a process has been told that a timer fired. */
  function TimesTold(p: Proc, t: Timer): nat {
    Count(p.received, TimerFired(t.id, t.fires))
  }

  /** One tick, for one timer of one process: if its time has come it is told of once for each
      time it was set, and gone; otherwise nothing is said and it stays. */
  lemma TickTells(p: Proc, now: int, t: Timer)
    ensures
      var after := FireTimers(p, now);
      && TimesTold(after, t) == TimesTold(p, t) + (if t.fires > now then 0 else CountTimer(p.timers, t))
      && CountTimer(after.timers, t) == if t.fires > now then CountTimer(p.timers, t) else 0
  {
    hide NameOf;
    DeliverAllKeeps(p.(timers := Pending(p.timers, now)), ProcDue(p, now));
    FiringSplits(p.timers, now, t);
    CountJoins(p.received, ProcDue(p, now), TimerFired(t.id, t.fires));
  }

  function ProcDue(p: Proc, now: int): seq<Event> {
    Due(p.timers, now)
  }

  /** A timer that has been started is told of at a tick, once, if its time has come, and is
      kept if it has not. Whatever the process held under that name before is neither; timers
      of other names are as they were. */
  lemma StartedTimerFires(st: State, pid: int, id: string, fires: int, now: int, t: Timer)
    requires pid in st.procs
    ensures
      var p, after := st.procs[pid], FireAll(TimerStart(st, pid, id, fires), now).procs;
      && pid in after
      && var held :=
           if t == Timer(id, fires) then 1
           else if TimerEventName(t.id) == TimerEventName(id) then 0
           else CountTimer(p.timers, t);
         && TimesTold(after[pid], t) == TimesTold(p, t) + (if t.fires > now then 0 else held)
         && CountTimer(after[pid].timers, t) == if t.fires > now then held else 0
  {
    hide TimerEventName, FireTimers;
    var p := st.procs[pid];
    var started := p.(timers := OtherTimers(p.timers, id) + [Timer(id, fires)]);
    TickTells(started, now, t);
    OthersCounted(p.timers, id, t);
    CountTimerSnoc(OtherTimers(p.timers, id), Timer(id, fires), t);
  }

  /** A timer that has been stopped is never told of. */
  lemma StoppedTimerIsSilent(st: State, pid: int, id: string, now: int, t: Timer)
    requires pid in st.procs
    ensures
      var p, after := st.procs[pid], FireAll(TimerStop(st, pid, id), now).procs;
      && pid in after
      && var held := if TimerEventName(t.id) == TimerEventName(id) then 0 else CountTimer(p.timers, t);
         && TimesTold(after[pid], t) == TimesTold(p, t) + (if t.fires > now then 0 else held)
         && CountTimer(after[pid].timers, t) == if t.fires > now then held else 0
  {
    hide TimerEventName, FireTimers;
    var p := st.procs[pid];
    TickTells(p.(timers := OtherTimers(p.timers, id)), now, t);
    OthersCounted(p.timers, id, t);
  }

  /** At a tick a process is woken exactly when it heeds a timer whose time has come. */
  lemma TimerWakes(p: Proc, now: int)
    ensures
      var heeded := exists k :: 0 <= k < |p.timers| && p.timers[k].fires <= now && Heeds(p, TimerEventName(p.timers[k].id));
      FireTimers(p, now).state == if heeded then Runnable else p.state
  {
    hide TimerEventName, Heeds, NameOf;
    DeliverAllWakes(p.(timers := Pending(p.timers, now)), Due(p.timers, now));
    DueHeeded(p, p.timers, now);
    HeedsTimers(p, Pending(p.timers, now));
  }

  lemma HeedsTimers(p: Proc, timers: seq<Timer>)
    ensures forall name :: Heeds(p.(timers := timers), name) <==> Heeds(p, name)
  {}

  lemma {:induction false} DueHeeded(p: Proc, timers: seq<Timer>, now: int)
    ensures (exists k :: 0 <= k < |Due(timers, now)| && Heeds(p, NameOf(Due(timers, now)[k])))
      <==> exists k :: 0 <= k < |timers| && timers[k].fires <= now && Heeds(p, TimerEventName(timers[k].id))
  {
    hide TimerEventName, Heeds, Due;
    if timers == [] {
      NothingDue(now);
    } else {
      var init, last := timers[..|timers| - 1], timers[|timers| - 1];
      DueHeeded(p, init, now);
      DueSnoc(timers, now);
      SomeSnoc(p, Due(init, now), TimerFired(last.id, last.fires));
      assert timers == init + [last];
      assert forall k :: 0 <= k < |init| ==> timers[k] == init[k];
    }
  }

  lemma NothingDue(now: int)
    ensures Due([], now) == []
  {}

  lemma DueSnoc(timers: seq<Timer>, now: int)
    requires timers != []
    ensures
      var init, last := Due(timers[..|timers| - 1], now), timers[|timers| - 1];
      Due(timers, now) == if last.fires > now then init else init + [TimerFired(last.id, last.fires)]
  {}

  lemma SomeSnoc(p: Proc, es: seq<Event>, e: Event)
    ensures (exists k :: 0 <= k < |es + [e]| && Heeds(p, NameOf((es + [e])[k])))
      <==> (exists k :: 0 <= k < |es| && Heeds(p, NameOf(es[k]))) || Heeds(p, NameOf(e))
  {
    hide Heeds, NameOf;
    assert forall k :: 0 <= k < |es| ==> (es + [e])[k] == es[k];
    assert (es + [e])[|es|] == e;
  }
}
