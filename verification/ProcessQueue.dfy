/** The process table as the server keeps it: objects updated in place, found by pid. */
module ProcessQueue {
  import opened Decimal
  import opened Processes

  class Process {
    var pid: int
    var state: ProcState
    var wake: int
    var events: seq<string>
    var timers: seq<Timer>
    var waiters: seq<int>
    var waitees: seq<int>
    const descr: int
    var received: seq<Event>

    constructor (state: ProcState, wake: int, descr: int)
      ensures Value() == Proc(state, wake, [], [], [], [], descr, []) && pid == 0
    {
      pid := 0;
      this.state, this.wake, this.descr := state, wake, descr;
      events, timers, waiters, waitees, received := [], [], [], [], [];
    }

    function Value(): Proc
      reads this
    {
      Proc(state, wake, events, timers, waiters, waitees, descr, received)
    }

    /** deliverEvent: a process waiting for this event may run again; for any other the
        event waits on its frame. */
    method DeliverEvent(e: Event)
      modifies this`state, this`received
      ensures Value() == Deliver(old(Value()), e)
    {
      if state == Waiting && (|events| == 0 || NameOf(e) in events) { state := Runnable; }
      received := received + [e];
    }

    /** Take out the timers that have come due. */
    method TakeDue(now: int) returns (pending: seq<Event>)
      modifies this`timers
      ensures Value() == old(Value()).(timers := Pending(old(timers), now))
      ensures pending == Due(old(timers), now)
    {
      var kept := [];
      pending := [];
      for k := 0 to |timers|
        invariant timers == old(timers)
        invariant kept == Pending(timers[..k], now) && pending == Due(timers[..k], now)
      {
        assert timers[..k + 1][..k] == timers[..k];
        var t := timers[k];
        if t.fires > now {
          kept := kept + [t];
        } else {
          pending := pending + [TimerFired(t.id, t.fires)];
        }
      }
      assert timers[..|timers|] == timers;
      timers := kept;
    }

    /** The part of fireTimers that concerns one process. */
    method Fire(now: int)
      modifies this`timers, this`state, this`received
      ensures Value() == FireTimers(old(Value()), now)
    {
      hide Deliver, Due, Pending;
      var pending := TakeDue(now);
      ghost var base := Value();
      for k := 0 to |pending|
        invariant Value() == DeliverAll(base, pending[..k])
      {
        assert pending[..k + 1][..k] == pending[..k];
        DeliverEvent(pending[k]);
      }
      assert pending[..|pending|] == pending;
    }

    method StopTimer(id: string)
      modifies this`timers
      ensures Value() == old(Value()).(timers := OtherTimers(old(timers), id))
    {
      var want, kept := TimerEventName(id), [];
      for k := 0 to |timers|
        invariant timers == old(timers)
        invariant kept == OtherTimers(timers[..k], id)
      {
        assert timers[..k + 1][..k] == timers[..k];
        if TimerEventName(timers[k].id) != want { kept := kept + [timers[k]]; }
      }
      assert timers[..|timers|] == timers;
      timers := kept;
    }
  }

  /** removePID on a list of pids. */
  method WithoutPid(s: seq<int>, pid: int) returns (r: seq<int>)
    ensures r == RemovePid(s, pid)
  {
    for k := 0 to |s|
      invariant RemovePid(s, pid) == s[..k] + RemovePid(s[k..], pid)
    {
      if s[k] == pid {
        return s[..k] + s[k + 1..];
      }
      assert s[k..][1..] == s[k + 1..];
    }
    return s;
  }

  /** The table once the processes below a bound have had their timers fired. */
  function FiredBelow(procs: map<int, Proc>, now: int, bound: int): map<int, Proc> {
    map q | q in procs :: if q < bound then FireTimers(procs[q], now) else procs[q]
  }

  lemma FiredStep(procs: map<int, Proc>, now: int, bound: int)
    ensures FiredBelow(procs, now, bound + 1) ==
      if bound in procs then FiredBelow(procs, now, bound)[bound := FireTimers(procs[bound], now)]
      else FiredBelow(procs, now, bound)
  {
    hide FireTimers;
  }

  lemma FiredEnds(procs: map<int, Proc>, now: int, next: int)
    requires forall q :: q in procs ==> 0 < q <= next
    ensures FiredBelow(procs, now, 1) == procs
    ensures FiredBelow(procs, now, next + 1) == map q | q in procs :: FireTimers(procs[q], now)
  {
    hide FireTimers;
  }

  lemma FiredEntry(procs: map<int, Proc>, now: int, bound: int)
    ensures FiredBelow(procs, now, bound).Keys == procs.Keys
    ensures bound in procs ==> FiredBelow(procs, now, bound)[bound] == procs[bound]
  {
    hide FireTimers;
  }

  /** Nothing in the ending of a process starts or stops a READ. */
  lemma {:induction false} UnwatchKeepsReading(procs: map<int, Proc>, targets: seq<int>, pid: int, q: int)
    requires q in procs
    ensures q in Unwatch(procs, targets, pid) && Unwatch(procs, targets, pid)[q].state == procs[q].state
  {
    if targets != [] { UnwatchKeepsReading(procs, targets[..|targets| - 1], pid, q); }
  }

  lemma {:induction false} NotifyKeepsReading(procs: map<int, Proc>, watchers: seq<int>, pid: int, q: int)
    requires q in procs
    ensures q in Notify(procs, watchers, pid)
    ensures Notify(procs, watchers, pid)[q].state.Reading? == procs[q].state.Reading?
  {
    if watchers != [] { NotifyKeepsReading(procs, watchers[..|watchers| - 1], pid, q); }
  }

  ghost predicate Filed(procs: map<int, Process>)
    reads procs.Values
  {
    forall pid :: pid in procs ==> procs[pid].pid == pid
  }

  ghost function ValuesOf(procs: map<int, Process>): map<int, Proc>
    reads procs.Values
  {
    map pid | pid in procs :: procs[pid].Value()
  }

  lemma FiledOneMore(procs: map<int, Process>, pid: int, p: Process)
    requires Filed(procs) && p.pid == pid
    ensures Filed(procs[pid := p]) && ValuesOf(procs[pid := p]) == ValuesOf(procs)[pid := p.Value()]
  {
    forall q | q in procs && q != pid ensures procs[pid := p][q] == procs[q] {}
  }

  class Queue {
    var next: int
    var procs: map<int, Process>
    /** The process blocked on each descriptor's input. */
    var reading: map<int, int>

    constructor ()
      ensures Valid() && View() == EMPTY && procs == map[]
    {
      next, procs, reading := 0, map[], map[];
    }

    /** Every process is filed under its own pid, so no two entries are one object. */
    ghost predicate Valid()
      reads this, procs.Values
    {
      Filed(procs)
    }

    ghost function Procs(): map<int, Proc>
      reads this, procs.Values
    {
      ValuesOf(procs)
    }

    ghost function View(): State
      reads this, procs.Values
    {
      State(next, Procs(), reading)
    }

    /** Objects under other pids are other objects. */
    twostate lemma OneChanged(pid: int)
      requires old(Valid()) && procs == old(procs) && pid in procs && procs[pid].pid == pid
      requires unchanged(procs.Values - {procs[pid]})
      ensures Valid() && Procs() == old(Procs())[pid := procs[pid].Value()]
    {
      forall q | q in procs && q != pid ensures procs[q].pid == q && procs[q].Value() == old(procs[q].Value()) {
        assert old(procs[q].pid) == q;
        assert procs[q] in procs.Values;
      }
    }

    /** A process that is not in the table yet gets the next pid. */
    method AddProcess(p: Process) returns (pid: int)
      requires Valid() && p !in procs.Values
      modifies this, p`pid
      ensures Valid() && procs == old(procs)[pid := p]
      ensures View() == Add(old(View()), old(p.Value())) && pid == next
    {
      hide ValuesOf, Filed;
      next := next + 1;
      p.pid := next;
      FiledOneMore(procs, next, p);
      procs := procs[next := p];
      if p.state == Reading && p.descr != 0 { reading := reading[p.descr := next]; }
      pid := next;
    }

    method ResumeProcess(p: Process)
      requires Valid() && p.pid in procs && procs[p.pid] == p
      modifies this`reading, p`state
      ensures Valid() && View() == Resume(old(View()), p.pid)
    {
      if p.state == Reading { reading := reading - {p.descr}; }
      p.state := Runnable;
      OneChanged(p.pid);
    }

    method ReadLine(descr: int, blank: bool, wantsBlanks: bool) returns (taken: bool)
      requires Valid()
      modifies this`reading, procs.Values
      ensures Valid() && (taken, View()) == ReadInput(old(View()), descr, blank, wantsBlanks)
    {
      if descr !in reading || reading[descr] !in procs { return false; }
      var p := procs[reading[descr]];
      if blank && !wantsBlanks { return true; }
      assert p.pid == reading[descr];
      ResumeProcess(p);
      return true;
    }

    /** blockProcess and the other ways a running frame stops. */
    method SettleProcess(p: Process, o: Outcome, now: int)
      requires Valid() && p.pid in procs && procs[p.pid] == p
      modifies this, procs.Values
      ensures Valid() && View() == Settle(old(View()), old(p.pid), o, now)
    {
      match o {
        case Done => FinishProcess(p);
        case Failed => FinishProcess(p);
        case Yielded =>
          p.state := Runnable;
          OneChanged(p.pid);
        case Blocked(on) =>
          match on {
            case OnNothing => FinishProcess(p);
            case OnRead =>
              p.state := Reading;
              OneChanged(p.pid);
              if p.descr != 0 { reading := reading[p.descr := p.pid]; }
            case OnSleep(seconds) =>
              p.state := Sleeping;
              p.wake := now + seconds;
              OneChanged(p.pid);
            case OnEvent(events) =>
              p.state := Waiting;
              p.events := events;
              OneChanged(p.pid);
          }
      }
    }

    /** finishProcess: drop its watches, tell its watchers, and remove it. */
    method FinishProcess(p: Process)
      requires Valid() && p.pid in procs && procs[p.pid] == p
      modifies this, procs.Values
      ensures Valid() && View() == Finish(old(View()), old(p.pid))
    {
      hide Unwatch, Notify;
      var pid := p.pid;
      UnwatchKeepsReading(Procs(), p.waitees, pid, pid);
      DropWatches(p.waitees, pid);
      NotifyKeepsReading(Procs(), p.waiters, pid, pid);
      TellWatchers(p.waiters, pid);
      if p.state == Reading { reading := reading - {p.descr}; }
      procs := procs - {pid};
    }

    method DropWatch(t: int, pid: int)
      requires Valid()
      modifies procs.Values
      ensures Valid() && Procs() == UnwatchOne(old(Procs()), t, pid)
    {
      if t in procs {
        var target := procs[t];
        target.waiters := WithoutPid(target.waiters, pid);
        OneChanged(t);
      }
    }

    method DropWatches(targets: seq<int>, pid: int)
      requires Valid()
      modifies procs.Values
      ensures Valid() && Procs() == Unwatch(old(Procs()), targets, pid)
    {
      hide UnwatchOne;
      assert targets[..0] == [];
      for k := 0 to |targets|
        invariant Valid() && Procs() == Unwatch(old(Procs()), targets[..k], pid)
      {
        assert targets[..k + 1][..k] == targets[..k];
        DropWatch(targets[k], pid);
      }
      assert targets[..|targets|] == targets;
    }

    method TellWatcher(c: int, pid: int)
      requires Valid()
      modifies procs.Values
      ensures Valid() && Procs() == NotifyOne(old(Procs()), c, pid)
    {
      if c in procs {
        var watcher := procs[c];
        watcher.waitees := WithoutPid(watcher.waitees, pid);
        watcher.DeliverEvent(ProcExit(pid));
        OneChanged(c);
      }
    }

    method TellWatchers(watchers: seq<int>, pid: int)
      requires Valid()
      modifies procs.Values
      ensures Valid() && Procs() == Notify(old(Procs()), watchers, pid)
    {
      hide NotifyOne;
      assert watchers[..0] == [];
      for k := 0 to |watchers|
        invariant Valid() && Procs() == Notify(old(Procs()), watchers[..k], pid)
      {
        assert watchers[..k + 1][..k] == watchers[..k];
        TellWatcher(watchers[k], pid);
      }
      assert watchers[..|watchers|] == watchers;
    }

    method KillPid(pid: int) returns (ok: bool)
      requires Valid()
      modifies this, procs.Values
      ensures Valid() && ok == (pid in old(procs))
      ensures View() == if ok then Finish(old(View()), pid) else old(View())
    {
      if pid !in procs { return false; }
      FinishProcess(procs[pid]);
      return true;
    }

    method WatchPid(caller: int, target: int) returns (ok: bool)
      requires Valid()
      modifies procs.Values
      ensures Valid() && ok == (target in procs)
      ensures View() == Watch(old(View()), caller, target)
    {
      if target !in procs { return false; }
      var t := procs[target];
      for k := 0 to |t.waiters|
        invariant caller !in t.waiters[..k]
      {
        if t.waiters[k] == caller { return true; }
      }
      t.waiters := t.waiters + [caller];
      OneChanged(target);
      label Filed:
      if caller in procs {
        procs[caller].waitees := procs[caller].waitees + [target];
        OneChanged@Filed(caller);
      }
      return true;
    }

    method TimerStartFor(pid: int, id: string, fires: int)
      requires Valid()
      modifies procs.Values
      ensures Valid() && View() == TimerStart(old(View()), pid, id, fires)
    {
      if pid !in procs { return; }
      var p := procs[pid];
      p.StopTimer(id);
      p.timers := p.timers + [Timer(id, fires)];
      OneChanged(pid);
    }

    method TimerStopFor(pid: int, id: string)
      requires Valid()
      modifies procs.Values
      ensures Valid() && View() == TimerStop(old(View()), pid, id)
    {
      if pid !in procs { return; }
      procs[pid].StopTimer(id);
      OneChanged(pid);
    }

    method SendEvent(pid: int, e: Event) returns (ok: bool)
      requires Valid()
      modifies procs.Values
      ensures Valid() && ok == (pid in procs) && View() == Send(old(View()), pid, e)
    {
      if pid !in procs { return false; }
      procs[pid].DeliverEvent(e);
      OneChanged(pid);
      return true;
    }

    method FireOne(pid: int, now: int)
      requires Valid() && pid in procs
      modifies procs.Values
      ensures Valid() && Procs() == old(Procs())[pid := FireTimers(old(Procs())[pid], now)]
    {
      hide FireTimers;
      procs[pid].Fire(now);
      OneChanged(pid);
    }

    /** fireTimers, in pid order. */
    method FireAllTimers(now: int)
      requires Valid() && next >= 0 && forall pid :: pid in procs ==> 0 < pid <= next
      modifies procs.Values
      ensures Valid() && View() == FireAll(old(View()), now)
    {
      hide FireTimers, Valid, FiredBelow;
      FiredEnds(Procs(), now, next);
      for pid := 1 to next + 1
        invariant Valid() && Procs() == FiredBelow(old(Procs()), now, pid)
      {
        FiredEntry(old(Procs()), now, pid);
        FiredStep(old(Procs()), now, pid);
        if pid in procs { FireOne(pid, now); }
      }
    }

    /** The processes ready to run, in pid order. */
    method DueNow(now: int) returns (due: seq<int>)
      requires Valid() && next >= 0 && forall pid :: pid in procs ==> 0 < pid <= next
      ensures forall i, j :: 0 <= i < j < |due| ==> due[i] < due[j]
      ensures forall pid :: pid in due <==> pid in procs && IsDue(procs[pid].Value(), now)
    {
      due := [];
      for pid := 1 to next + 1
        invariant forall i :: 0 <= i < |due| ==> due[i] < pid
        invariant forall i, j :: 0 <= i < j < |due| ==> due[i] < due[j]
        invariant forall q :: q in due <==> q in procs && q < pid && IsDue(procs[q].Value(), now)
      {
        if pid in procs {
          var p := procs[pid];
          if p.state == Runnable || (p.state == Sleeping && p.wake <= now) { due := due + [pid]; }
        }
      }
    }
  }
}
