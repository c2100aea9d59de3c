/** The gate in front of the server: how many connections one address, and all of them
    together, may hold and open. */
module Admit {

  type Host = string

  /** A zero in any field means that limit is not enforced. */
  datatype Limits = Limits(total: int, perHost: int, rate: int, window: int)

  datatype Verdict = Allowed | TooManyTotal | TooManyPerHost | TooFast

  /** How many addresses the rate table may hold before a sweep. */
  const FORGET_ABOVE: nat := 4096

  predicate RateLimited(lim: Limits) {
    lim.rate > 0 && lim.window > 0
  }

  datatype State = State(total: int, held: map<Host, int>, recent: map<Host, seq<int>>)

  const EMPTY := State(0, map[], map[])

  function HeldBy(st: State, host: Host): int {
    if host in st.held then st.held[host] else 0
  }

  function RecentOf(st: State, host: Host): seq<int> {
    if host in st.recent then st.recent[host] else []
  }

  /** The times after a cutoff, in order. */
  function After(times: seq<int>, cutoff: int): seq<int> {
    if times == [] then []
    else
      var last := times[|times| - 1];
      After(times[..|times| - 1], cutoff) + if last > cutoff then [last] else []
  }

  function Take(st: State, host: Host): State {
    st.(total := st.total + 1, held := st.held[host := HeldBy(st, host) + 1])
  }

  function AdmitStep(lim: Limits, st: State, host: Host, now: int): (State, Verdict) {
    if lim.total > 0 && st.total >= lim.total then (st, TooManyTotal)
    else if lim.perHost > 0 && HeldBy(st, host) >= lim.perHost then (st, TooManyPerHost)
    else if !RateLimited(lim) then (Take(st, host), Allowed)
    else
      var kept := After(RecentOf(st, host), now - lim.window);
      if |kept| >= lim.rate then (st.(recent := st.recent[host := kept]), TooFast)
      else (Take(st.(recent := st.recent[host := kept + [now]]), host), Allowed)
  }

  /** Whether some time is still after the cutoff. */
  predicate StillLive(times: seq<int>, cutoff: int) {
    exists k :: 0 <= k < |times| && times[k] > cutoff
  }

  function Forgotten(recent: map<Host, seq<int>>, cutoff: int): map<Host, seq<int>> {
    map h | h in recent && StillLive(recent[h], cutoff) :: recent[h]
  }

  function ReleaseStep(lim: Limits, st: State, host: Host, now: int): State {
    var total := if st.total > 0 then st.total - 1 else st.total;
    var n := HeldBy(st, host);
    var held := if n <= 1 then st.held - {host} else st.held[host := n - 1];
    var recent :=
      if held == map[] && |st.recent| > FORGET_ABOVE then Forgotten(st.recent, now - lim.window) else st.recent;
    State(total, held, recent)
  }

  /** The gate itself; its clock is read at each call. */
  class Gate {
    const limits: Limits
    var total: int
    var held: map<Host, int>
    var recent: map<Host, seq<int>>

    constructor (limits: Limits)
      ensures this.limits == limits && View() == EMPTY
    {
      this.limits := limits;
      total, held, recent := 0, map[], map[];
    }

    function View(): State
      reads this
    {
      State(total, held, recent)
    }

    method Admit(host: Host, now: int) returns (v: Verdict)
      modifies this
      ensures (View(), v) == AdmitStep(limits, old(View()), host, now)
    {
      if limits.total > 0 && total >= limits.total { return TooManyTotal; }
      if limits.perHost > 0 && host in held && held[host] >= limits.perHost { return TooManyPerHost; }
      if limits.perHost > 0 && host !in held && 0 >= limits.perHost { return TooManyPerHost; }
      if limits.rate > 0 && limits.window > 0 {
        var cutoff := now - limits.window;
        var times := if host in recent then recent[host] else [];
        var kept := [];
        for k := 0 to |times|
          invariant kept == After(times[..k], cutoff)
        {
          assert times[..k + 1][..k] == times[..k];
          if times[k] > cutoff { kept := kept + [times[k]]; }
        }
        assert times[..|times|] == times;
        if |kept| >= limits.rate {
          recent := recent[host := kept];
          return TooFast;
        }
        recent := recent[host := kept + [now]];
      }
      total := total + 1;
      held := held[host := (if host in held then held[host] else 0) + 1];
      return Allowed;
    }

    method Release(host: Host, now: int)
      modifies this
      ensures View() == ReleaseStep(limits, old(View()), host, now)
    {
      if total > 0 { total := total - 1; }
      var n := if host in held then held[host] else 0;
      if n <= 1 {
        held := held - {host};
      } else {
        held := held[host := n - 1];
      }
      if |held| == 0 && |recent| > FORGET_ABOVE { Forget(now); }
    }

    method Forget(now: int)
      modifies this`recent
      ensures recent == Forgotten(old(recent), now - limits.window)
    {
      var cutoff := now - limits.window;
      var hosts := recent.Keys;
      while hosts != {}
        invariant hosts <= old(recent.Keys)
        invariant recent == map h | h in old(recent) && (h in hosts || StillLive(old(recent)[h], cutoff)) :: old(recent)[h]
        decreases |hosts|
      {
        var host :| host in hosts;
        hosts := hosts - {host};
        var live := IsLive(recent[host], cutoff);
        if !live { recent := recent - {host}; }
      }
    }

    static method IsLive(times: seq<int>, cutoff: int) returns (live: bool)
      ensures live == StillLive(times, cutoff)
    {
      for k := 0 to |times|
        invariant forall j :: 0 <= j < k ==> times[j] <= cutoff
      {
        if times[k] > cutoff { return true; }
      }
      return false;
    }
  }
}
