/** The command quota: the clock that grants slices of it, and what a connection may spend. */
module Quotas {
  import opened Decimal

  /** Division that truncates toward zero, as the machine's does. */
  function Truncated(n: int, d: int): int
    requires d > 0
  {
    if n >= 0 then n / d else -((-n) / d)
  }

  /** The clock of the last slice granted, if a tick has been seen. */
  type Clock = Option<int>

  function SlicesAt(c: Clock, period: int, now: int): (n: nat)
    requires period > 0
  {
    if c.None? || Truncated(now - c.value, period) <= 0 then 0 else Truncated(now - c.value, period)
  }

  /** Only whole slices move the clock, and only by what they come to. */
  function Advance(c: Clock, period: int, now: int): Clock
    requires period > 0
  {
    if c.None? then Some(now) else Some(c.value + SlicesAt(c, period, now) * period)
  }

  /** A connection: the commands in hand, and how many were spent. */
  datatype Account = Account(tokens: int, spent: nat)

  function Add(tokens: int, n: int, max: int): int {
    if tokens + n > max then max else tokens + n
  }

  const INTERACTIVE_FACTOR: int := 8

  /** A player in the editor or in a READ is granted more. */
  function Rate(perTime: int, interactive: bool): int {
    if interactive then perTime * INTERACTIVE_FACTOR else perTime
  }

  /** An allowance, spent one command at a time. */
  class Quota {
    var tokens: int

    constructor (initial: int)
      ensures tokens == initial
    {
      tokens := initial;
    }

    /** Take one if there is one; the original waits for the next allowance instead of failing. */
    method TryTake() returns (ok: bool)
      modifies this
      ensures ok == (old(tokens) > 0) && tokens == old(tokens) - if ok then 1 else 0
    {
      ok := tokens > 0;
      if ok { tokens := tokens - 1; }
    }

    method Grant(n: int, max: int)
      modifies this
      ensures tokens == Add(old(tokens), n, max)
    {
      tokens := tokens + n;
      if tokens > max { tokens := max; }
    }
  }

  class Refiller {
    var last: Clock

    constructor ()
      ensures last == None
    {
      last := None;
    }

    /** refillQuotas: every connection is granted the slices that have passed. */
    method Refill(period: int, now: int, perTime: int, burst: int, conns: seq<Quota>, interactive: seq<bool>)
      requires |conns| == |interactive|
      requires forall i, j :: 0 <= i < j < |conns| ==> conns[i] != conns[j]
      modifies this, set q | q in conns
      ensures period <= 0 ==> last == old(last) && forall k :: 0 <= k < |conns| ==> conns[k].tokens == old(conns[k].tokens)
      ensures period > 0 ==> last == Advance(old(last), period, now)
      ensures period > 0 ==> forall k :: 0 <= k < |conns| ==>
        conns[k].tokens == Granted(old(conns[k].tokens), SlicesAt(old(last), period, now), Rate(perTime, interactive[k]), burst)
    {
      if period <= 0 { return; }
      if last == None {
        last := Some(now);
        return;
      }
      var slices := Truncated(now - last.value, period);
      if slices <= 0 { return; }
      last := Some(last.value + slices * period);
      for k := 0 to |conns|
        invariant last == Advance(old(last), period, now)
        invariant forall i :: k <= i < |conns| ==> conns[i].tokens == old(conns[i].tokens)
        invariant forall i :: 0 <= i < k ==>
          conns[i].tokens == Granted(old(conns[i].tokens), slices, Rate(perTime, interactive[i]), burst)
      {
        conns[k].Grant(Rate(perTime, interactive[k]) * slices, burst);
      }
    }
  }

  function Granted(tokens: int, slices: nat, rate: int, burst: int): int {
    if slices == 0 then tokens else Add(tokens, rate * slices, burst)
  }

  // ---------- Every schedule of ticks ----------

  datatype Op = Tick(now: int, interactive: bool) | Take

  datatype State = State(clock: Clock, account: Account, slices: nat)

  datatype Limits = Limits(period: int, perTime: int, burst: int, initial: int)

  function Do(st: State, op: Op, l: Limits): State
    requires l.period > 0
  {
    match op
    case Tick(now, interactive) =>
      var n := SlicesAt(st.clock, l.period, now);
      var tokens := Granted(st.account.tokens, n, Rate(l.perTime, interactive), l.burst);
      State(Advance(st.clock, l.period, now), st.account.(tokens := tokens), st.slices + n)
    case Take =>
      if st.account.tokens > 0 then st.(account := Account(st.account.tokens - 1, st.account.spent + 1)) else st
  }

  function DoAll(ops: seq<Op>, l: Limits): State
    requires l.period > 0
  {
    if ops == [] then State(None, Account(l.initial, 0), 0) else Do(DoAll(ops[..|ops| - 1], l), ops[|ops| - 1], l)
  }

  /** The clocks the ticks of a run have read. */
  function Clocks(ops: seq<Op>): seq<int> {
    if ops == [] then []
    else Clocks(ops[..|ops| - 1]) + if ops[|ops| - 1].Tick? then [ops[|ops| - 1].now] else []
  }

  /** The latest clock read; a clock that has been set back grants nothing until it catches up. */
  function Latest(clocks: seq<int>): int
    requires clocks != []
  {
    var last := clocks[|clocks| - 1];
    if |clocks| == 1 then last
    else
      var before := Latest(clocks[..|clocks| - 1]);
      if last > before then last else before
  }

  /** One tick: the slices granted so far stay the whole periods since the first. */
  lemma SlicesStep(first: int, last: int, latest: int, slices: nat, period: int, now: int)
    requires period > 0 && last == first + slices * period && last <= latest < last + period
    ensures
      var n := SlicesAt(Some(last), period, now);
      var to := if now > latest then now else latest;
      && last + n * period <= to < last + n * period + period
      && last + n * period == first + (slices + n) * period
  {
    var n := SlicesAt(Some(last), period, now);
    Distribute(slices, n, period);
    if now >= last {
      DivMod(now - last, period);
    } else {
      NegativeGrantsNothing(last - now, period);
    }
  }

  lemma Distribute(a: int, b: int, c: int)
    ensures (a + b) * c == a * c + b * c
  {}

  lemma DivMod(n: nat, d: int)
    requires d > 0
    ensures n / d >= 0 && (n / d) * d <= n < (n / d) * d + d
  {
    assert n == n / d * d + n % d;
  }

  lemma NegativeGrantsNothing(n: nat, d: int)
    requires d > 0
    ensures n / d >= 0
  {}

  lemma FloorIs(n: int, slices: nat, period: int)
    requires period > 0 && slices * period <= n < slices * period + period
    ensures slices == n / period
  {
    DivMod(n, period);
    var q := n / period;
    if q < slices {
      assert (q + 1) * period <= slices * period by { Scale(q + 1, slices, period); }
      Distribute(q, 1, period);
    } else if q > slices {
      assert (slices + 1) * period <= q * period by { Scale(slices + 1, q, period); }
      Distribute(slices, 1, period);
    }
  }

  lemma Scale(a: int, b: int, c: int)
    requires a <= b && c >= 0
    ensures a * c <= b * c
  {}

  /** The clock stands at the last whole period since the first tick. */
  predicate InStep(c: Clock, slices: nat, clocks: seq<int>, period: int) {
    if clocks == [] then c == None && slices == 0
    else
      && c == Some(clocks[0] + slices * period)
      && c.value <= Latest(clocks) < c.value + period
  }

  lemma LatestOf(clocks: seq<int>, now: int)
    ensures Latest(clocks + [now]) == if clocks == [] || now > Latest(clocks) then now else Latest(clocks)
  {
    assert (clocks + [now])[..|clocks|] == clocks;
  }

  lemma TickKeepsStep(c: Clock, slices: nat, clocks: seq<int>, period: int, now: int)
    requires period > 0 && InStep(c, slices, clocks, period)
    ensures InStep(Advance(c, period, now), slices + SlicesAt(c, period, now), clocks + [now], period)
  {
    hide SlicesAt, Latest;
    LatestOf(clocks, now);
    if clocks == [] {
      FirstTick(period, now);
    } else {
      SlicesStep(clocks[0], c.value, Latest(clocks), slices, period, now);
    }
  }

  /** The clock and the slices after any schedule of ticks. */
  lemma {:induction false} ClockTelescopes(ops: seq<Op>, l: Limits)
    requires l.period > 0
    ensures InStep(DoAll(ops, l).clock, DoAll(ops, l).slices, Clocks(ops), l.period)
    decreases |ops|
  {
    hide Granted, Rate, SlicesAt, InStep, Advance;
    if ops == [] {
      StartsInStep(l.period);
    } else {
      var init, op := ops[..|ops| - 1], ops[|ops| - 1];
      ClockTelescopes(init, l);
      if op.Tick? {
        TickKeepsStep(DoAll(init, l).clock, DoAll(init, l).slices, Clocks(init), l.period, op.now);
      } else {
        assert Clocks(ops) == Clocks(init);
      }
    }
  }

  lemma StartsInStep(period: int)
    ensures InStep(None, 0, [], period)
  {}

  lemma FirstTick(period: int, now: int)
    requires period > 0
    ensures SlicesAt(None, period, now) == 0 && Advance(None, period, now) == Some(now)
  {}

  /** Whatever the schedule of ticks, the slices granted are the whole periods between the
      first clock read and the latest: late ticks forfeit nothing and early ones gain nothing. */
  lemma SlicesAreWholePeriods(ops: seq<Op>, l: Limits)
    requires l.period > 0
    ensures DoAll(ops, l).slices == if Clocks(ops) == [] then 0 else (Latest(Clocks(ops)) - Clocks(ops)[0]) / l.period
  {
    ClockTelescopes(ops, l);
    var clocks := Clocks(ops);
    if clocks != [] { FloorIs(Latest(clocks) - clocks[0], DoAll(ops, l).slices, l.period); }
  }

  lemma GrantBound(tokens: int, n: nat, perTime: nat, interactive: bool, burst: int)
    ensures Granted(tokens, n, Rate(perTime, interactive), burst) <= tokens + n * (perTime * INTERACTIVE_FACTOR)
  {
    Scale(perTime, perTime * INTERACTIVE_FACTOR, n);
    assert n * (perTime * INTERACTIVE_FACTOR) >= 0 by { Scale(0, n, perTime * INTERACTIVE_FACTOR); }
  }

  lemma {:induction false} SpentBySlices(ops: seq<Op>, l: Limits)
    requires l.period > 0 && l.perTime >= 0
    ensures
      var st := DoAll(ops, l);
      st.account.spent + st.account.tokens <= l.initial + st.slices * (l.perTime * INTERACTIVE_FACTOR)
    decreases |ops|
  {
    hide Granted, Rate, SlicesAt, Advance;
    if ops != [] {
      var init, op := ops[..|ops| - 1], ops[|ops| - 1];
      SpentBySlices(init, l);
      var st := DoAll(init, l);
      if op.Tick? {
        var n := SlicesAt(st.clock, l.period, op.now);
        GrantBound(st.account.tokens, n, l.perTime, op.interactive, l.burst);
        Distribute(st.slices, n, l.perTime * INTERACTIVE_FACTOR);
      }
    }
  }

  lemma {:induction false} TokensStay(ops: seq<Op>, l: Limits)
    requires l.period > 0 && l.perTime >= 0 && l.initial >= 0 && l.burst >= 0
    ensures 0 <= DoAll(ops, l).account.tokens <= if l.initial > l.burst then l.initial else l.burst
    decreases |ops|
  {
    hide SlicesAt, Advance;
    if ops != [] {
      var init, op := ops[..|ops| - 1], ops[|ops| - 1];
      TokensStay(init, l);
      if op.Tick? { Scale(0, Rate(l.perTime, op.interactive), SlicesAt(DoAll(init, l).clock, l.period, op.now)); }
    }
  }

  /** Over every run, whenever its ticks come and however its player takes: the commands a
      connection has spent are at most what it began with and the whole periods it has lived
      through have earned, and it never has more in hand than its burst or what it began with. */
  lemma RateIsLimited(ops: seq<Op>, l: Limits)
    requires l.period > 0 && l.perTime >= 0 && l.initial >= 0 && l.burst >= 0
    ensures
      var st := DoAll(ops, l);
      var periods := if Clocks(ops) == [] then 0 else (Latest(Clocks(ops)) - Clocks(ops)[0]) / l.period;
      && st.account.spent <= l.initial + periods * (l.perTime * INTERACTIVE_FACTOR)
      && 0 <= st.account.tokens <= if l.initial > l.burst then l.initial else l.burst
  {
    hide DoAll, Clocks, Latest;
    SlicesAreWholePeriods(ops, l);
    SpentBySlices(ops, l);
    TokensStay(ops, l);
  }

  // ---------- What is earned ----------

  function Least(a: int, b: int): int {
    if a < b then a else b
  }

  /** One tick of an account below its burst. */
  lemma GrantIs(tokens: int, n: nat, rate: nat, burst: int)
    requires tokens <= burst
    ensures Granted(tokens, n, rate, burst) == Least(burst, tokens + n * rate)
  {
    Scale(0, n, rate);
  }

  /** A connection that takes nothing has earned its rate for every whole period between the
      first clock read and the latest, eight times as much while its player is in the editor
      or in a READ, up to its burst. */
  lemma {:induction false} IdleEarns(ops: seq<Op>, l: Limits, interactive: bool)
    requires l.period > 0 && l.perTime >= 0 && l.initial <= l.burst
    requires forall k :: 0 <= k < |ops| ==> ops[k].Tick? && ops[k].interactive == interactive
    ensures
      var st, rate := DoAll(ops, l), if interactive then l.perTime * 8 else l.perTime;
      st.account == Account(Least(l.burst, l.initial + st.slices * rate), 0)
    decreases |ops|
  {
    hide SlicesAt, Advance, Granted;
    if ops != [] {
      var init, op := ops[..|ops| - 1], ops[|ops| - 1];
      var st, rate := DoAll(init, l), if interactive then l.perTime * 8 else l.perTime;
      IdleEarns(init, l, interactive);
      assert op.interactive == interactive;
      var n := SlicesAt(st.clock, l.period, op.now);
      GrantIs(st.account.tokens, n, rate, l.burst);
      Distribute(st.slices, n, rate);
      Scale(0, n, rate);
    }
  }

  /** Over every run: what a connection has spent and what it has in hand come to at least what
      it began with and its whole periods earned, as far as its burst. */
  lemma {:induction false} AtLeastEarned(ops: seq<Op>, l: Limits)
    requires l.period > 0 && l.perTime >= 0 && l.initial <= l.burst
    ensures
      var st := DoAll(ops, l);
      && st.account.tokens <= l.burst
      && st.account.spent + st.account.tokens >= Least(l.burst, l.initial + st.slices * l.perTime)
    decreases |ops|
  {
    hide SlicesAt, Advance, Granted;
    if ops != [] {
      var init, op := ops[..|ops| - 1], ops[|ops| - 1];
      AtLeastEarned(init, l);
      if op.Tick? {
        var st := DoAll(init, l);
        var n, rate := SlicesAt(st.clock, l.period, op.now), Rate(l.perTime, op.interactive);
        GrantIs(st.account.tokens, n, rate, l.burst);
        Distribute(st.slices, n, l.perTime);
        Scale(l.perTime, rate, n);
        Scale(0, n, l.perTime);
      }
    }
  }

  /** Commands in a row are taken for as long as there are any in hand, and no further. */
  lemma {:induction false} TakesInARow(ops: seq<Op>, l: Limits, n: nat)
    requires l.period > 0 && DoAll(ops, l).account.tokens >= 0
    ensures
      var before, after := DoAll(ops, l).account, DoAll(ops + seq(n, _ => Take), l).account;
      var taken := Least(n, before.tokens);
      after == Account(before.tokens - taken, before.spent + taken)
  {
    if n == 0 {
      assert ops + seq(0, _ => Take) == ops;
    } else {
      TakesInARow(ops, l, n - 1);
      var more := ops + seq(n, _ => Take);
      assert more[..|more| - 1] == ops + seq(n - 1, _ => Take);
    }
  }
}
