/** Suspended programs: what each one waits for, who watches whom, and what every operation
    of the process table does to them. */
module Processes {
  import opened Decimal

  datatype ProcState = Runnable | Sleeping | Reading | Waiting

  /** An event: the end of a watched process, a timer, or one sent by a program. */
  datatype Event = ProcExit(pid: int) | TimerFired(id: string, when: int) | User(name: string)

  const MAX_TIMER_ID: nat := 32

  /** The event a timer delivers; only the first 32 characters of its name tell it apart. */
  function TimerEventName(id: string): string {
    "TIMER." + if |id| > MAX_TIMER_ID then id[..MAX_TIMER_ID] else id
  }

  function NameOf(e: Event): string {
    match e
    case ProcExit(pid) => "PROC.EXIT." + Itoa(pid)
    case TimerFired(id, _) => TimerEventName(id)
    case User(name) => name
  }

  datatype Timer = Timer(id: string, fires: int)

  /** One process. received is every event delivered to it, oldest first: an event either
      waits on its frame or is what it was resumed with. */
  datatype Proc = Proc(
    state: ProcState,
    wake: int,
    events: seq<string>,
    timers: seq<Timer>,
    waiters: seq<int>,
    waitees: seq<int>,
    descr: int,
    received: seq<Event>)

  datatype State = State(next: int, procs: map<int, Proc>, reading: map<int, int>)

  const EMPTY := State(0, map[], map[])

  /** Why a program stopped running. */
  datatype Block = OnRead | OnSleep(seconds: int) | OnEvent(events: seq<string>) | OnNothing
  datatype Outcome = Done | Failed | Yielded | Blocked(on: Block)

  // ---------- Single processes ----------

  /** The first x taken out. */
  function RemovePid(s: seq<int>, x: int): seq<int> {
    if s == [] then [] else if s[0] == x then s[1..] else [s[0]] + RemovePid(s[1..], x)
  }

  /** Whether a process is waiting for an event of this name. */
  predicate Awaits(p: Proc, name: string) {
    p.state.Waiting? && (p.events == [] || name in p.events)
  }

  function Deliver(p: Proc, e: Event): Proc {
    p.(state := if Awaits(p, NameOf(e)) then Runnable else p.state, received := p.received + [e])
  }

  function DeliverAll(p: Proc, es: seq<Event>): Proc {
    if es == [] then p else Deliver(DeliverAll(p, es[..|es| - 1]), es[|es| - 1])
  }

  /** The timers of other names, in order. */
  function OtherTimers(timers: seq<Timer>, id: string): seq<Timer> {
    if timers == [] then []
    else
      var last := timers[|timers| - 1];
      OtherTimers(timers[..|timers| - 1], id) +
      if TimerEventName(last.id) != TimerEventName(id) then [last] else []
  }

  function Pending(timers: seq<Timer>, now: int): seq<Timer> {
    if timers == [] then []
    else
      var last := timers[|timers| - 1];
      Pending(timers[..|timers| - 1], now) + if last.fires > now then [last] else []
  }

  /** The events of the timers that have come due, in order. */
  function Due(timers: seq<Timer>, now: int): seq<Event> {
    if timers == [] then []
    else
      var last := timers[|timers| - 1];
      Due(timers[..|timers| - 1], now) + if last.fires > now then [] else [TimerFired(last.id, last.fires)]
  }

  function FireTimers(p: Proc, now: int): Proc {
    DeliverAll(p.(timers := Pending(p.timers, now)), Due(p.timers, now))
  }

  // ---------- The table ----------

  function Add(st: State, p: Proc): State {
    var pid := st.next + 1;
    State(pid, st.procs[pid := p], if p.state.Reading? && p.descr != 0 then st.reading[p.descr := pid] else st.reading)
  }

  /** resume: a process leaves the reading index and may run. */
  function Resume(st: State, pid: int): State
    requires pid in st.procs
  {
    var p := st.procs[pid];
    st.(procs := st.procs[pid := p.(state := Runnable)],
        reading := if p.state.Reading? then st.reading - {p.descr} else st.reading)
  }

  /** Take pid out of the waiters of each of some processes. */
  function Unwatch(procs: map<int, Proc>, targets: seq<int>, pid: int): map<int, Proc> {
    if targets == [] then procs
    else UnwatchOne(Unwatch(procs, targets[..|targets| - 1], pid), targets[|targets| - 1], pid)
  }

  function UnwatchOne(procs: map<int, Proc>, t: int, pid: int): map<int, Proc> {
    if t in procs then procs[t := procs[t].(waiters := RemovePid(procs[t].waiters, pid))] else procs
  }

  /** Tell each of some watchers that pid has ended. */
  function Notify(procs: map<int, Proc>, watchers: seq<int>, pid: int): map<int, Proc> {
    if watchers == [] then procs
    else NotifyOne(Notify(procs, watchers[..|watchers| - 1], pid), watchers[|watchers| - 1], pid)
  }

  function NotifyOne(procs: map<int, Proc>, c: int, pid: int): map<int, Proc> {
    if c in procs then procs[c := Told(procs[c], pid)] else procs
  }

  function Told(p: Proc, pid: int): Proc {
    Deliver(p.(waitees := RemovePid(p.waitees, pid)), ProcExit(pid))
  }

  /** finishProcess: its own watches are dropped, its watchers told, and it is gone. */
  function Finish(st: State, pid: int): State
    requires pid in st.procs
  {
    var unwatched := Unwatch(st.procs, st.procs[pid].waitees, pid);
    var told := if pid in unwatched then Notify(unwatched, unwatched[pid].waiters, pid) else unwatched;
    st.(procs := told - {pid},
        reading := if st.procs[pid].state.Reading? then st.reading - {st.procs[pid].descr} else st.reading)
  }

  /** What becomes of a running program when its frame stops. */
  function Settle(st: State, pid: int, o: Outcome, now: int): State
    requires pid in st.procs
  {
    var p := st.procs[pid];
    match o
    case Done => Finish(st, pid)
    case Failed => Finish(st, pid)
    case Yielded => st.(procs := st.procs[pid := p.(state := Runnable)])
    case Blocked(OnNothing) => Finish(st, pid)
    case Blocked(OnRead) =>
      st.(procs := st.procs[pid := p.(state := Reading)],
          reading := if p.descr != 0 then st.reading[p.descr := pid] else st.reading)
    case Blocked(OnSleep(seconds)) =>
      st.(procs := st.procs[pid := p.(state := Sleeping, wake := now + seconds)])
    case Blocked(OnEvent(events)) =>
      st.(procs := st.procs[pid := p.(state := Waiting, events := events)])
  }

  function Watch(st: State, caller: int, target: int): State {
    if target !in st.procs || caller in st.procs[target].waiters then st
    else
      var t := st.procs[target];
      var procs := st.procs[target := t.(waiters := t.waiters + [caller])];
      st.(procs := if caller in procs then procs[caller := procs[caller].(waitees := procs[caller].waitees + [target])]
                   else procs)
  }

  function Send(st: State, pid: int, e: Event): State {
    if pid in st.procs then st.(procs := st.procs[pid := Deliver(st.procs[pid], e)]) else st
  }

  function TimerStop(st: State, pid: int, id: string): State {
    if pid !in st.procs then st
    else
      var p := st.procs[pid];
      st.(procs := st.procs[pid := p.(timers := OtherTimers(p.timers, id))])
  }

  function TimerStart(st: State, pid: int, id: string, fires: int): State {
    if pid !in st.procs then st
    else
      var p := st.procs[pid];
      st.(procs := st.procs[pid := p.(timers := OtherTimers(p.timers, id) + [Timer(id, fires)])])
  }

  function FireAll(st: State, now: int): State {
    st.(procs := map pid | pid in st.procs :: FireTimers(st.procs[pid], now))
  }

  /** Whether a process is to run at a time. */
  predicate IsDue(p: Proc, now: int) {
    p.state.Runnable? || (p.state.Sleeping? && p.wake <= now)
  }

  /** The process a typed line belongs to, if any. */
  function ReaderFor(st: State, descr: int): Option<int> {
    if descr in st.reading && st.reading[descr] in st.procs then Some(st.reading[descr]) else None
  }

  /** A typed line: whether it was taken, and what it changed. A blank line is taken, but
      resumes only a program that asked for blanks. */
  function ReadInput(st: State, descr: int, blank: bool, wantsBlanks: bool): (bool, State) {
    match ReaderFor(st, descr)
    case None => (false, st)
    case Some(pid) => if blank && !wantsBlanks then (true, st) else (true, Resume(st, pid))
  }
}
