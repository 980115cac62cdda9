/** The per-source rate limiter: a one-slot token channel that a ticker refills. The class
    is the sequential object; runs interleave ticks, waits and the passing of time, and the
    theorems bound the grants in any window of a run. */
module RateLimiter {
  import opened Counting

  datatype Answer = Granted | WouldBlock | Stopped

  /** The token channel of capacity one and the stop flag. */
  datatype Slot = Slot(token: bool, stopped: bool)

  /** One tick of the refill loop: a send that is dropped when the channel is full. */
  function Refill(l: Slot): (Slot, bool) {
    if l.stopped then (l, false) else (l.(token := true), !l.token)
  }

  /** One attempt of Wait; WouldBlock means that the caller is still waiting. */
  function TryWait(l: Slot): (Slot, Answer) {
    if l.stopped then (l, Stopped)
    else if l.token then (l.(token := false), Granted)
    else (l, WouldBlock)
  }

  class ChannelRateLimiter {
    var token: bool
    var stopped: bool

    ghost function View(): Slot
      reads this
    {
      Slot(token, stopped)
    }

    constructor ()
      ensures View() == Slot(false, false)
    {
      token, stopped := false, false;
    }

    method OnTick() returns (added: bool)
      modifies this
      ensures (View(), added) == Refill(old(View()))
    {
      if stopped {
        return false;
      }
      added := !token;
      token := true;
    }

    method Wait() returns (a: Answer)
      modifies this
      ensures (View(), a) == TryWait(old(View()))
    {
      if stopped {
        return Stopped;
      }
      if !token {
        return WouldBlock;
      }
      token := false;
      return Granted;
    }

    /** Idempotent. */
    method Stop()
      modifies this
      ensures View() == old(View()).(stopped := true)
    {
      if !stopped {
        stopped := true;
      }
    }
  }

  // ---------------------------------------------------------------- runs

  datatype Event = Elapse(d: nat) | Tick | Wait | Stop

  /** `ticks` and `grants` hold the times at which they happened, `dropped` the number of
      ticks that found the slot full. */
  datatype Sys = Sys(now: int, slot: Slot, ticks: seq<int>, grants: seq<int>, dropped: nat)

  const START := Sys(0, Slot(false, false), [], [], 0)

  function Step(s: Sys, e: Event): Sys {
    match e
    case Elapse(d) => s.(now := s.now + d)
    case Tick =>
      var (slot, added) := Refill(s.slot);
      if s.slot.stopped then s
      else s.(slot := slot, ticks := s.ticks + [s.now],
              dropped := s.dropped + (if added then 0 else 1))
    case Wait =>
      var (slot, answer) := TryWait(s.slot);
      if answer == Granted then s.(slot := slot, grants := s.grants + [s.now]) else s
    case Stop => s.(slot := s.slot.(stopped := true))
  }

  function RunFrom(s: Sys, es: seq<Event>): Sys {
    if es == [] then s else Step(RunFrom(s, es[..|es| - 1]), es[|es| - 1])
  }

  function Run(es: seq<Event>): Sys { RunFrom(START, es) }

  lemma {:induction false} RunAppend(s: Sys, xs: seq<Event>, ys: seq<Event>)
    ensures RunFrom(s, xs + ys) == RunFrom(RunFrom(s, xs), ys)
  {
    if ys == [] {
      assert xs + ys == xs;
    } else {
      assert (xs + ys)[..|xs + ys| - 1] == xs + ys[..|ys| - 1];
      RunAppend(s, xs, ys[..|ys| - 1]);
    }
  }

  /** How many of the times lie in the closed window from lo to hi. */
  function InWindow(ts: seq<int>, lo: int, hi: int): nat {
    if ts == [] then 0
    else InWindow(ts[..|ts| - 1], lo, hi) + Bit(lo <= ts[|ts| - 1] <= hi)
  }

  ghost predicate Ordered(ts: seq<int>) {
    forall i, j :: 0 <= i <= j < |ts| ==> ts[i] <= ts[j]
  }

  /** The ticker's promise: consecutive ticks are at least `rate` apart. */
  ghost predicate Spaced(ts: seq<int>, rate: int) {
    forall i :: 0 < i < |ts| ==> ts[i] - ts[i - 1] >= rate
  }

  ghost predicate Inv(s: Sys) {
    && |s.grants| + Bit(s.slot.token) + s.dropped == |s.ticks|
    && Ordered(s.grants)
    && (s.grants != [] ==> s.grants[|s.grants| - 1] <= s.now)
  }

  lemma OrderedSnoc(ts: seq<int>, t: int)
    requires Ordered(ts) && (ts != [] ==> ts[|ts| - 1] <= t)
    ensures Ordered(ts + [t])
  {
  }

  lemma {:induction false} InvHolds(es: seq<Event>)
    ensures Inv(Run(es))
  {
    if es != [] {
      var s := Run(es[..|es| - 1]);
      InvHolds(es[..|es| - 1]);
      if es[|es| - 1].Wait? { OrderedSnoc(s.grants, s.now); }
    }
  }

  /** No token is lost or invented: every tick is granted, buffered or dropped. */
  lemma TicksConserved(es: seq<Event>)
    ensures var s := Run(es);
            |s.grants| + Bit(s.slot.token) + s.dropped == |s.ticks|
  {
    InvHolds(es);
  }

  // ---------------------------------------------------------------- windows

  /** A token granted in the window was buffered when the window began or produced in it. */
  ghost predicate WindowInv(s: Sys, lo: int, hi: int) {
    var g, t := InWindow(s.grants, lo, hi), InWindow(s.ticks, lo, hi);
    && (s.now < lo ==> g == 0)
    && (s.now <= hi ==> g + Bit(s.slot.token) <= t + 1)
    && g <= t + 1
  }

  lemma WindowSnoc(ts: seq<int>, t: int, lo: int, hi: int)
    ensures InWindow(ts + [t], lo, hi) == InWindow(ts, lo, hi) + Bit(lo <= t <= hi)
  {
    assert (ts + [t])[..|ts|] == ts;
  }

  /** With no assumption on the ticks: a closed window holds at most one grant more than it
      holds ticks. */
  lemma {:induction false} GrantsWithinTicks(es: seq<Event>, lo: int, hi: int)
    ensures InWindow(Run(es).grants, lo, hi) <= InWindow(Run(es).ticks, lo, hi) + 1
  {
    WindowInvHolds(es, lo, hi);
  }

  lemma WindowStep(s: Sys, e: Event, lo: int, hi: int)
    requires WindowInv(s, lo, hi)
    ensures WindowInv(Step(s, e), lo, hi)
  {
    WindowSnoc(s.ticks, s.now, lo, hi);
    WindowSnoc(s.grants, s.now, lo, hi);
  }

  lemma {:induction false} WindowInvHolds(es: seq<Event>, lo: int, hi: int)
    ensures WindowInv(Run(es), lo, hi)
  {
    if es != [] {
      WindowInvHolds(es[..|es| - 1], lo, hi);
      WindowStep(Run(es[..|es| - 1]), es[|es| - 1], lo, hi);
    }
  }

  lemma {:induction false} WindowClipped(ts: seq<int>, lo: int, hi: int, hi': int)
    requires hi <= hi' && forall i :: 0 <= i < |ts| ==> ts[i] <= hi
    ensures InWindow(ts, lo, hi) == InWindow(ts, lo, hi')
  {
    if ts != [] { WindowClipped(ts[..|ts| - 1], lo, hi, hi'); }
  }

  lemma {:induction false} SpacedBelowLast(ts: seq<int>, rate: int, i: nat)
    requires Spaced(ts, rate) && rate > 0 && i < |ts|
    ensures ts[i] <= ts[|ts| - 1] - (if i < |ts| - 1 then rate else 0)
  {
    if i < |ts| - 1 { SpacedBelowLast(ts[..|ts| - 1], rate, i); }
  }

  /** All but the last of spaced ticks are at least `rate` before it. */
  lemma SpacedInit(ts: seq<int>, rate: int, lo: int, hi: int)
    requires ts != [] && Spaced(ts, rate) && rate > 0 && ts[|ts| - 1] <= hi
    ensures var init, t := ts[..|ts| - 1], ts[|ts| - 1];
            Spaced(init, rate) && InWindow(init, lo, hi) == InWindow(init, lo, t - rate)
  {
    var init, t := ts[..|ts| - 1], ts[|ts| - 1];
    forall i | 0 <= i < |init| ensures init[i] <= t - rate { SpacedBelowLast(ts, rate, i); }
    WindowClipped(init, lo, t - rate, hi);
  }

  lemma OneMoreRate(n: int, rate: int)
    ensures n * rate == (n - 1) * rate + rate
  {
  }

  /** Spaced ticks: n of them in a closed window need a window of length (n - 1) * rate. */
  lemma {:induction false} SpacedWindow(ts: seq<int>, rate: int, lo: int, hi: int)
    requires Spaced(ts, rate) && rate > 0
    ensures InWindow(ts, lo, hi) > 0 ==> (InWindow(ts, lo, hi) - 1) * rate <= hi - lo
  {
    if ts != [] {
      var init, t := ts[..|ts| - 1], ts[|ts| - 1];
      if lo <= t <= hi {
        SpacedInit(ts, rate, lo, hi);
        SpacedWindow(init, rate, lo, t - rate);
        OneMoreRate(InWindow(init, lo, hi), rate);
      } else {
        SpacedWindow(init, rate, lo, hi);
      }
    }
  }

  /** With ticks at least `rate` apart, a closed window of length L holds at most
      floor(L / rate) + 2 grants. */
  lemma RateBound(es: seq<Event>, rate: int, lo: int, hi: int)
    requires rate > 0 && Spaced(Run(es).ticks, rate) && lo <= hi
    ensures InWindow(Run(es).grants, lo, hi) <= (hi - lo) / rate + 2
  {
    GrantsWithinTicks(es, lo, hi);
    SpacedWindow(Run(es).ticks, rate, lo, hi);
    var n := InWindow(Run(es).ticks, lo, hi);
    if n > 0 { QuotientAtLeast(n - 1, rate, hi - lo); }
  }

  lemma QuotientAtLeast(n: int, d: int, x: int)
    requires d > 0 && n * d <= x
    ensures n <= x / d
  {
    var q := x / d;
    assert x < q * d + d;
    if q + 1 <= n { Scaled(q + 1, n, d); }
  }

  lemma Scaled(a: int, b: int, d: int)
    requires a <= b && d > 0
    ensures a * d <= b * d
  {
  }

  lemma {:induction false} ConsecutiveInWindow(ts: seq<int>, i: nat, j: nat)
    requires Ordered(ts) && i <= j < |ts|
    ensures InWindow(ts, ts[i], ts[j]) >= j - i + 1
  {
    var init := ts[..|ts| - 1];
    if j < |ts| - 1 {
      ConsecutiveInWindow(init, i, j);
    } else if i < j {
      ConsecutiveInWindow(init, i, j - 1);
      WindowGrows(init, ts[i], ts[j - 1], ts[j]);
    }
  }

  lemma {:induction false} WindowGrows(ts: seq<int>, lo: int, hi: int, hi': int)
    requires hi <= hi'
    ensures InWindow(ts, lo, hi) <= InWindow(ts, lo, hi')
  {
    if ts != [] { WindowGrows(ts[..|ts| - 1], lo, hi, hi'); }
  }

  /** Any m + 1 consecutive granted waits span at least (m - 1) * rate. */
  lemma ConsecutiveGrantsSpan(es: seq<Event>, rate: int, i: nat, m: nat)
    requires rate > 0 && Spaced(Run(es).ticks, rate) && i + m < |Run(es).grants|
    ensures Run(es).grants[i + m] - Run(es).grants[i] >= (m - 1) * rate
  {
    var s := Run(es);
    InvHolds(es);
    ConsecutiveInWindow(s.grants, i, i + m);
    GrantsWithinTicks(es, s.grants[i], s.grants[i + m]);
    SpacedWindow(s.ticks, rate, s.grants[i], s.grants[i + m]);
    var n := InWindow(s.ticks, s.grants[i], s.grants[i + m]);
    if n > 0 { Scaled(m - 1, n - 1, rate); } else { Scaled(m - 1, 0, rate); }
  }

  // ---------------------------------------------------------------- the bound is tight

  /** A full slot at the start of the window, then a tick and a wait at each multiple. */
  function Burst(rate: nat, k: nat): seq<Event> {
    if k == 0 then [Elapse(rate), Tick, Elapse(rate), Wait, Tick, Wait]
    else Burst(rate, k - 1) + [Elapse(rate), Tick, Wait]
  }

  lemma Step3(s: Sys, a: Event, b: Event, c: Event)
    ensures RunFrom(s, [a, b, c]) == Step(Step(Step(s, a), b), c)
  {
    assert [a, b, c][..2] == [a, b] && [a, b][..1] == [a] && [a][..0] == [];
    assert RunFrom(s, [a]) == Step(s, a);
    assert RunFrom(s, [a, b]) == Step(Step(s, a), b);
  }

  /** Where the burst leaves the limiter. */
  ghost predicate AfterBurst(s: Sys, rate: nat, k: nat) {
    var hi := 2 * rate + k * rate;
    && s.slot == Slot(false, false) && s.now == hi
    && s.ticks != [] && s.ticks[|s.ticks| - 1] == hi && Spaced(s.ticks, rate)
    && (forall i :: 0 <= i < |s.grants| ==> s.grants[i] <= hi)
    && InWindow(s.grants, 2 * rate, hi) == k + 2
  }

  lemma BurstPrepares(rate: nat)
    ensures RunFrom(START, [Elapse(rate), Tick, Elapse(rate)])
            == Sys(2 * rate, Slot(true, false), [rate], [], 0)
  {
    Step3(START, Elapse(rate), Tick, Elapse(rate));
    assert [] + [rate] == [rate];
  }

  lemma BurstFirstRound(rate: nat)
    ensures RunFrom(Sys(2 * rate, Slot(true, false), [rate], [], 0), [Wait, Tick, Wait])
            == Sys(2 * rate, Slot(false, false), [rate] + [2 * rate], [] + [2 * rate] + [2 * rate], 0)
  {
    Step3(Sys(2 * rate, Slot(true, false), [rate], [], 0), Wait, Tick, Wait);
  }

  /** Where the first round ends. */
  lemma TwoGrants(s: Sys, rate: nat)
    requires s == Sys(2 * rate, Slot(false, false), [rate] + [2 * rate], [] + [2 * rate] + [2 * rate], 0)
    ensures AfterBurst(s, rate, 0)
  {
    WindowSnoc([], 2 * rate, 2 * rate, 2 * rate);
    WindowSnoc([] + [2 * rate], 2 * rate, 2 * rate, 2 * rate);
  }

  lemma BurstBegins(rate: nat)
    ensures AfterBurst(Run(Burst(rate, 0)), rate, 0)
  {
    var xs, ys := [Elapse(rate), Tick, Elapse(rate)], [Wait, Tick, Wait];
    BurstPrepares(rate);
    BurstFirstRound(rate);
    TwoRuns(START, xs, RunFrom(START, xs), ys);
    assert Burst(rate, 0) == xs + ys;
    TwoGrants(Run(Burst(rate, 0)), rate);
  }

  lemma TwoRuns(s: Sys, xs: seq<Event>, t: Sys, ys: seq<Event>)
    requires RunFrom(s, xs) == t
    ensures RunFrom(s, xs + ys) == RunFrom(t, ys)
  {
    RunAppend(s, xs, ys);
  }

  lemma BurstGoesOn(s: Sys, rate: nat, k: nat)
    requires rate > 0 && AfterBurst(s, rate, k)
    ensures AfterBurst(RunFrom(s, [Elapse(rate), Tick, Wait]), rate, k + 1)
  {
    Step3(s, Elapse(rate), Tick, Wait);
    var t := RunFrom(s, [Elapse(rate), Tick, Wait]);
    var hi := s.now + rate;
    assert 2 * rate + (k + 1) * rate == hi by { assert (k + 1) * rate == k * rate + rate; }
    assert t.grants == s.grants + [hi] && t.ticks == s.ticks + [hi];
    assert 2 * rate <= hi by { assert k * rate >= 0; }
    WindowSnoc(s.grants, hi, 2 * rate, hi);
    WindowClipped(s.grants, 2 * rate, s.now, hi);
  }

  lemma {:induction false} BurstReaches(rate: nat, k: nat)
    requires rate > 0
    ensures AfterBurst(Run(Burst(rate, k)), rate, k)
  {
    if k == 0 {
      BurstBegins(rate);
    } else {
      BurstReaches(rate, k - 1);
      var round := [Elapse(rate), Tick, Wait];
      RunAppend(START, Burst(rate, k - 1), round);
      BurstGoesOn(Run(Burst(rate, k - 1)), rate, k - 1);
      assert Burst(rate, k) == Burst(rate, k - 1) + round;
    }
  }

  /** For every rate and k, some run with spaced ticks grants k + 2 waits in a closed window
      of length k * rate: the bound of RateBound cannot be lowered. */
  lemma RateBoundTight(rate: nat, k: nat)
    requires rate > 0
    ensures var s := Run(Burst(rate, k));
            && Spaced(s.ticks, rate)
            && InWindow(s.grants, 2 * rate, 2 * rate + k * rate) == k + 2
  {
    BurstReaches(rate, k);
  }

  /** Once stopped, the limiter grants nothing more. */
  lemma {:induction false} StopIsFinal(s: Sys, later: seq<Event>)
    requires s.slot.stopped
    ensures RunFrom(s, later).slot.stopped && RunFrom(s, later).grants == s.grants
  {
    if later != [] { StopIsFinal(s, later[..|later| - 1]); }
  }
}
