/** The fixed-window rate limiter: each window allows a number of calls, and a full one blocks until it has elapsed. */
module RateLimits {
  import opened Options

  datatype State = Limited | Ready(until: nat, remaining: nat)

  /** Calls allowed per period. */
  datatype Rate = Rate(limit: nat, duration: nat)

  /** The limiter's state and the time its sleep ends. */
  datatype Limiter = Limiter(state: State, deadline: nat)

  function Fresh(rate: Rate, now: nat): Limiter {
    Limiter(Ready(now, rate.limit), now)
  }

  function IsReady(l: Limiter, now: nat): bool {
    l.state.Ready? || now >= l.deadline
  }

  function Polled(rate: Rate, l: Limiter, now: nat): Limiter {
    if l.state.Limited? && now >= l.deadline then l.(state := Ready(now + rate.duration, rate.limit)) else l
  }

  function Ticked(rate: Rate, l: Limiter, now: nat): Limiter
    requires l.state.Ready?
  {
    var until := if now >= l.state.until then now + rate.duration else l.state.until;
    var remaining := if now >= l.state.until then rate.limit else l.state.remaining;
    if remaining > 1 then l.(state := Ready(until, remaining - 1)) else Limiter(Limited, until)
  }

  class RateLimit {
    const rate: Rate
    var state: State
    var sleep: nat

    ghost function Value(): Limiter
      reads this
    {
      Limiter(state, sleep)
    }

    constructor (rate: Rate, now: nat)
      ensures this.rate == rate && Value() == Fresh(rate, now) && state == Ready(now, rate.limit) && sleep == now
    {
      this.rate := rate;
      state, sleep := Ready(now, rate.limit), now;
    }

    method PollReady(now: nat) returns (ready: bool)
      modifies this
      ensures ready == old(IsReady(Value(), now)) && Value() == Polled(rate, old(Value()), now)
      ensures ready <==> state.Ready?
      ensures !ready <==> old(state).Limited? && now < old(sleep)
    {
      if state.Ready? { return true; }
      if now < sleep { return false; }
      state := Ready(now + rate.duration, rate.limit);
      ready := true;
    }

    /** Must only be called when ready: the source panics otherwise. */
    method Tick(now: nat)
      requires state.Ready?
      modifies this
      ensures Value() == Ticked(rate, old(Value()), now)
    {
      var until, remaining := state.until, state.remaining;
      if now >= until { until, remaining := now + rate.duration, rate.limit; }
      if remaining > 1 {
        state := Ready(until, remaining - 1);
      } else {
        sleep := until;
        state := Limited;
      }
    }
  }

  // ----- runs -----

  datatype Event = Poll(at: nat) | Tick(at: nat)

  /** `None` stands for the panic of a tick while limited. */
  function Step(rate: Rate, l: Limiter, e: Event): Option<Limiter> {
    if e.Poll? then Some(Polled(rate, l, e.at)) else if l.state.Limited? then None else Some(Ticked(rate, l, e.at))
  }

  function Run(rate: Rate, l: Limiter, events: seq<Event>): Option<Limiter> {
    if events == [] then Some(l)
    else
      var before := Run(rate, l, events[..|events| - 1]);
      if before.None? then None else Step(rate, before.value, events[|events| - 1])
  }

  ghost predicate Monotone(start: nat, events: seq<Event>) {
    && (forall i :: 0 <= i < |events| ==> start <= events[i].at)
    && (forall i, j :: 0 <= i < j < |events| ==> events[i].at <= events[j].at)
  }

  function Counts(e: Event, from: nat, to: nat): nat {
    if e.Tick? && from <= e.at < to then 1 else 0
  }

  /** The ticks at times `from <= t < to`. */
  function Ticks(events: seq<Event>, from: nat, to: nat): nat {
    if events == [] then 0 else Ticks(events[..|events| - 1], from, to) + Counts(events[|events| - 1], from, to)
  }

  /** How many calls a window allows. */
  function Burst(rate: Rate): nat {
    if rate.limit > 1 then rate.limit else 1
  }

  /** Calls the current window still allows. */
  function Capacity(l: Limiter): nat {
    if l.state.Limited? then 0 else if l.state.remaining > 1 then l.state.remaining else 1
  }

  /** When the current window ends. */
  function WindowEnd(l: Limiter): nat {
    if l.state.Limited? then l.deadline else l.state.until
  }

  /** The sum of `n` times `m`. */
  function Times(n: nat, m: nat): nat {
    if n == 0 then 0 else Times(n - 1, m) + m
  }

  lemma {:induction false} TimesIs(n: nat, m: nat)
    ensures Times(n, m) == n * m
  {
    if n > 0 {
      TimesIs(n - 1, m);
      OneMore(n - 1, m);
    }
  }

  lemma OneMore(n: nat, m: nat)
    ensures (n + 1) * m == n * m + m
  {
  }

  lemma {:induction false} TimesRises(n: nat, m: nat, x: nat)
    requires n <= m
    ensures Times(n, x) <= Times(m, x)
    decreases m - n
  {
    if n < m { TimesRises(n, m - 1, x); }
  }

  lemma Scales(n: nat, m: nat, x: nat)
    requires n <= m
    ensures n * x <= m * x
  {
  }

  function LastTime(start: nat, events: seq<Event>): nat {
    if events == [] then start else events[|events| - 1].at
  }

  // ----- the most calls from a given state on -----

  /** Calls allowed at `now` without opening a window. */
  function Live(l: Limiter, now: nat): nat {
    if l.state.Ready? && now < l.state.until then Capacity(l) else 0
  }

  /** The earliest time from `now` on at which a window can open. */
  function First(l: Limiter, now: nat): nat {
    if now < WindowEnd(l) then WindowEnd(l) else now
  }

  /** How many windows can open in the next `k` periods. */
  function Openings(rate: Rate, l: Limiter, now: nat, k: nat): nat {
    if k == 0 then 0 else if WindowEnd(l) < now + rate.duration then k else k - 1
  }

  /** How many calls can be made in the next `k` periods. */
  function Most(rate: Rate, l: Limiter, now: nat, k: nat): nat {
    if k == 0 then 0 else Live(l, now) + Times(Openings(rate, l, now, k), Burst(rate))
  }

  /** Starting in `l0` at `now`, after `windows` openings, the last event being at `time`: the ticks so far and
      those still allowed fit into what was allowed at the start and the opened windows, and these opened a period
      apart. */
  ghost predicate Accounted(rate: Rate, l0: Limiter, now: nat, l: Limiter, ticks: nat, time: nat, windows: nat) {
    && ticks + Live(l, now) <= Live(l0, now) + Times(windows, Burst(rate))
    && (windows == 0 ==> WindowEnd(l) == WindowEnd(l0))
    && (windows > 0 ==> First(l0, now) + Times(windows, rate.duration) <= WindowEnd(l) <= time + rate.duration)
  }

  function Reopened(rate: Rate, l: Limiter, now: nat): Limiter {
    l.(state := Ready(now + rate.duration, rate.limit))
  }

  /** Opening a window after the last one has ended. */
  lemma OpensWindow(rate: Rate, l0: Limiter, now: nat, l: Limiter, ticks: nat, time: nat, windows: nat, at: nat)
    requires Accounted(rate, l0, now, l, ticks, time, windows) && now <= time <= at && WindowEnd(l) <= at
    ensures Accounted(rate, l0, now, Reopened(rate, l, at), ticks, at, windows + 1)
  {
  }

  lemma TickCounts(rate: Rate, l0: Limiter, now: nat, l: Limiter, ticks: nat, time: nat, windows: nat, at: nat, to: nat)
    requires l.state.Ready? && at < l.state.until && Accounted(rate, l0, now, l, ticks, time, windows)
    requires now <= time <= at
    ensures Accounted(rate, l0, now, Ticked(rate, l, at), ticks + Counts(Tick(at), now, to), at, windows)
  {
  }

  /** Every step keeps the account. */
  lemma StepAccounted(rate: Rate, l0: Limiter, now: nat, l: Limiter, ticks: nat, time: nat, windows: nat, e: Event,
                      to: nat)
    returns (windows': nat)
    requires rate.duration > 0 && Accounted(rate, l0, now, l, ticks, time, windows)
    requires now <= time <= e.at && Step(rate, l, e).Some?
    ensures Accounted(rate, l0, now, Step(rate, l, e).value, ticks + Counts(e, now, to), e.at, windows')
  {
    if e.Poll? {
      if l.state.Limited? && e.at >= l.deadline {
        OpensWindow(rate, l0, now, l, ticks, time, windows, e.at);
        windows' := windows + 1;
      } else {
        windows' := windows;
      }
    } else if e.at >= l.state.until {
      OpensWindow(rate, l0, now, l, ticks, time, windows, e.at);
      windows' := windows + 1;
      TickCounts(rate, l0, now, Reopened(rate, l, e.at), ticks, e.at, windows', e.at, to);
    } else {
      windows' := windows;
      TickCounts(rate, l0, now, l, ticks, time, windows, e.at, to);
    }
  }

  lemma {:induction false} RunAccounted(rate: Rate, l: Limiter, now: nat, events: seq<Event>, to: nat)
    returns (windows: nat)
    requires rate.duration > 0 && Monotone(now, events) && Run(rate, l, events).Some?
    ensures Accounted(rate, l, now, Run(rate, l, events).value, Ticks(events, now, to), LastTime(now, events), windows)
  {
    if events == [] {
      windows := 0;
    } else {
      var front, e := events[..|events| - 1], events[|events| - 1];
      var w := RunAccounted(rate, l, now, front, to);
      windows := StepAccounted(rate, l, now, Run(rate, l, front).value, Ticks(front, now, to), LastTime(now, front), w,
                               e, to);
    }
  }

  lemma FewWindows(windows: nat, k: nat, duration: nat)
    requires duration > 0 && windows * duration < k * duration + duration
    ensures windows <= k
  {
    if windows > k {
      OneMore(k, duration);
      Scales(k + 1, windows, duration);
    }
  }

  lemma WindowsFit(rate: Rate, l: Limiter, now: nat, k: nat, windows: nat)
    requires rate.duration > 0 && k > 0
    requires windows > 0 ==> First(l, now) + Times(windows, rate.duration) < now + k * rate.duration + rate.duration
    ensures windows <= Openings(rate, l, now, k)
  {
    TimesIs(windows, rate.duration);
    OneMore(k - 1, rate.duration);
    if windows > 0 {
      if WindowEnd(l) < now + rate.duration {
        FewWindows(windows, k, rate.duration);
      } else {
        FewWindows(windows, k - 1, rate.duration);
      }
    }
  }

  /** In every run with a monotone clock that goes on from `l`, the next `k` periods have at most that many calls. */
  lemma {:induction false} MostHolds(rate: Rate, l: Limiter, now: nat, events: seq<Event>, k: nat)
    requires rate.duration > 0 && Monotone(now, events) && Run(rate, l, events).Some?
    ensures Ticks(events, now, now + k * rate.duration) <= Most(rate, l, now, k)
  {
    var to := now + k * rate.duration;
    if events != [] {
      if LastTime(now, events) >= to {
        MostHolds(rate, l, now, events[..|events| - 1], k);
      } else {
        var windows := RunAccounted(rate, l, now, events, to);
        WindowsFit(rate, l, now, k, windows);
        TimesRises(windows, Openings(rate, l, now, k), Burst(rate));
      }
    }
  }

  // ----- a run that makes them -----

  lemma {:induction false} RunConcat(rate: Rate, l: Limiter, a: seq<Event>, b: seq<Event>)
    requires Run(rate, l, a).Some?
    ensures Run(rate, l, a + b) == Run(rate, Run(rate, l, a).value, b)
  {
    if b == [] {
      assert a + b == a;
    } else {
      assert (a + b)[..|a + b| - 1] == a + b[..|b| - 1];
      RunConcat(rate, l, a, b[..|b| - 1]);
    }
  }

  lemma RunThen(rate: Rate, l: Limiter, a: seq<Event>, mid: Limiter, b: seq<Event>, end: Limiter)
    requires Run(rate, l, a) == Some(mid) && Run(rate, mid, b) == Some(end)
    ensures Run(rate, l, a + b) == Some(end)
  {
    RunConcat(rate, l, a, b);
  }

  lemma {:induction false} TicksConcat(a: seq<Event>, b: seq<Event>, from: nat, to: nat)
    ensures Ticks(a + b, from, to) == Ticks(a, from, to) + Ticks(b, from, to)
  {
    if b == [] {
      assert a + b == a;
    } else {
      assert (a + b)[..|a + b| - 1] == a + b[..|b| - 1];
      TicksConcat(a, b[..|b| - 1], from, to);
    }
  }

  lemma MonotoneConcat(start: nat, a: seq<Event>, mid: nat, b: seq<Event>)
    requires Monotone(start, a) && LastTime(start, a) <= mid && Monotone(mid, b)
    ensures Monotone(start, a + b)
  {
  }

  function Repeat(t: nat, n: nat): (events: seq<Event>)
    ensures |events| == n && forall i :: 0 <= i < n ==> events[i] == Tick(t)
  {
    seq(n, i => Tick(t))
  }

  lemma {:induction false} RepeatTicks(t: nat, n: nat, from: nat, to: nat)
    ensures Ticks(Repeat(t, n), from, to) == if from <= t < to then n else 0
  {
    if n > 0 {
      assert Repeat(t, n)[..n - 1] == Repeat(t, n - 1);
      RepeatTicks(t, n - 1, from, to);
    }
  }

  lemma {:induction false} RepeatRun(rate: Rate, l: Limiter, t: nat, n: nat)
    requires l.state.Ready? && t < l.state.until && 0 < n <= Capacity(l)
    ensures Run(rate, l, Repeat(t, n)) == Some(if n == Capacity(l) then Limiter(Limited, l.state.until)
                                               else Limiter(Ready(l.state.until, l.state.remaining - n), l.deadline))
  {
    assert Repeat(t, n)[..n - 1] == Repeat(t, n - 1);
    if n > 1 { RepeatRun(rate, l, t, n - 1); } else { assert Repeat(t, 0) == []; }
  }

  /** A first tick at the end of a window opens the next. */
  lemma {:induction false} RepeatReopens(rate: Rate, l: Limiter, t: nat, n: nat)
    requires rate.duration > 0 && l.state.Ready? && t >= l.state.until && 0 < n
    ensures Run(rate, l, Repeat(t, n)) == Run(rate, Reopened(rate, l, t), Repeat(t, n))
  {
    assert Repeat(t, n)[..n - 1] == Repeat(t, n - 1);
    if n > 1 { RepeatReopens(rate, l, t, n - 1); } else { assert Repeat(t, 0) == []; }
  }

  /** Wake up at `t` and use the whole window at once. */
  function Round(rate: Rate, t: nat): seq<Event> {
    [Poll(t)] + Repeat(t, Burst(rate))
  }

  lemma RoundRuns(rate: Rate, l: Limiter, t: nat)
    requires rate.duration > 0 && WindowEnd(l) <= t
    ensures Run(rate, l, Round(rate, t)) == Some(Limiter(Limited, t + rate.duration))
  {
    var woken := Polled(rate, l, t);
    assert [Poll(t)][..0] == [];
    assert Run(rate, l, [Poll(t)]) == Some(woken);
    if l.state.Ready? { RepeatReopens(rate, l, t, Burst(rate)); }
    RepeatRun(rate, Reopened(rate, l, t), t, Burst(rate));
    RunThen(rate, l, [Poll(t)], woken, Repeat(t, Burst(rate)), Limiter(Limited, t + rate.duration));
  }

  lemma RoundTicks(rate: Rate, t: nat, from: nat, to: nat)
    requires from <= t < to
    ensures Ticks(Round(rate, t), from, to) == Burst(rate)
    ensures Monotone(t, Round(rate, t)) && LastTime(t, Round(rate, t)) == t
  {
    assert [Poll(t)][..0] == [];
    TicksConcat([Poll(t)], Repeat(t, Burst(rate)), from, to);
    RepeatTicks(t, Burst(rate), from, to);
  }

  /** `n` rounds a period apart. */
  function Rounds(rate: Rate, first: nat, n: nat): seq<Event> {
    if n == 0 then [] else Rounds(rate, first, n - 1) + Round(rate, first + Times(n - 1, rate.duration))
  }

  lemma TicksThen(a: seq<Event>, x: nat, b: seq<Event>, y: nat, from: nat, to: nat)
    requires Ticks(a, from, to) == x && Ticks(b, from, to) == y
    ensures Ticks(a + b, from, to) == x + y
  {
    TicksConcat(a, b, from, to);
  }

  lemma RoundsUnfold(rate: Rate, first: nat, n: nat, t: nat)
    requires n > 0 && t == first + Times(n - 1, rate.duration)
    ensures Rounds(rate, first, n) == Rounds(rate, first, n - 1) + Round(rate, t)
    ensures first + Times(n, rate.duration) == t + rate.duration
  {
  }

  lemma {:induction false} RoundsRun(rate: Rate, l: Limiter, first: nat, n: nat)
    requires rate.duration > 0 && WindowEnd(l) <= first
    ensures Run(rate, l, Rounds(rate, first, n))
         == Some(if n == 0 then l else Limiter(Limited, first + Times(n, rate.duration)))
  {
    if n > 0 {
      var t := first + Times(n - 1, rate.duration);
      var mid := if n == 1 then l else Limiter(Limited, t);
      RoundsRun(rate, l, first, n - 1);
      RoundRuns(rate, mid, t);
      RoundsUnfold(rate, first, n, t);
      RunThen(rate, l, Rounds(rate, first, n - 1), mid, Round(rate, t), Limiter(Limited, t + rate.duration));
    }
  }

  lemma {:induction false} RoundsTicks(rate: Rate, first: nat, n: nat, from: nat, to: nat)
    requires from <= first && (n > 0 ==> first + Times(n - 1, rate.duration) < to)
    ensures Ticks(Rounds(rate, first, n), from, to) == Times(n, Burst(rate))
  {
    if n > 0 {
      var t := first + Times(n - 1, rate.duration);
      if n > 1 { TimesRises(n - 2, n - 1, rate.duration); }
      RoundsTicks(rate, first, n - 1, from, to);
      RoundTicks(rate, t, from, to);
      RoundsUnfold(rate, first, n, t);
      TicksThen(Rounds(rate, first, n - 1), Times(n - 1, Burst(rate)), Round(rate, t), Burst(rate), from, to);
    }
  }

  lemma {:induction false} RoundsMonotone(rate: Rate, first: nat, n: nat)
    ensures Monotone(first, Rounds(rate, first, n))
    ensures LastTime(first, Rounds(rate, first, n)) <= first + Times(n, rate.duration)
  {
    if n > 0 {
      var t := first + Times(n - 1, rate.duration);
      RoundsMonotone(rate, first, n - 1);
      RoundTicks(rate, t, t, t + 1);
      RoundsUnfold(rate, first, n, t);
      MonotoneConcat(first, Rounds(rate, first, n - 1), t, Round(rate, t));
    }
  }

  /** Use up the current window, if any, then every window as soon as it can open. */
  function Greedy(rate: Rate, l: Limiter, now: nat, k: nat): seq<Event> {
    if k == 0 then [] else Repeat(now, Live(l, now)) + Rounds(rate, First(l, now), Openings(rate, l, now, k))
  }

  lemma SpendRuns(rate: Rate, l: Limiter, now: nat)
    ensures Run(rate, l, Repeat(now, Live(l, now)))
         == Some(if Live(l, now) == 0 then l else Limiter(Limited, l.state.until))
  {
    if Live(l, now) == 0 {
      assert Repeat(now, 0) == [];
    } else {
      RepeatRun(rate, l, now, Capacity(l));
    }
  }

  lemma GreedyRuns(rate: Rate, l: Limiter, now: nat, k: nat)
    requires rate.duration > 0
    ensures Monotone(now, Greedy(rate, l, now, k)) && Run(rate, l, Greedy(rate, l, now, k)).Some?
  {
    if k > 0 {
      var spend, first, n := Repeat(now, Live(l, now)), First(l, now), Openings(rate, l, now, k);
      SpendRuns(rate, l, now);
      var mid := Run(rate, l, spend).value;
      RoundsRun(rate, mid, first, n);
      RoundsMonotone(rate, first, n);
      RunConcat(rate, l, spend, Rounds(rate, first, n));
      MonotoneConcat(now, spend, first, Rounds(rate, first, n));
    }
  }

  /** What holds of every limiter at every time: no more than a window's worth left, in a window that ends within a
      period. */
  predicate Possible(rate: Rate, l: Limiter, now: nat) {
    Capacity(l) <= Burst(rate) && WindowEnd(l) <= now + rate.duration
  }

  lemma LastOpens(rate: Rate, l: Limiter, now: nat, k: nat)
    requires Possible(rate, l, now) && Openings(rate, l, now, k) > 0
    ensures First(l, now) + Times(Openings(rate, l, now, k) - 1, rate.duration) < now + k * rate.duration
         || rate.duration == 0
  {
    var n := Openings(rate, l, now, k);
    TimesIs(n - 1, rate.duration);
    OneMore(n - 1, rate.duration);
    OneMore(n, rate.duration);
  }

  /** The bound is exact: this run makes that many calls in the next `k` periods. */
  lemma MostReached(rate: Rate, l: Limiter, now: nat, k: nat)
    requires rate.duration > 0 && Possible(rate, l, now)
    ensures Monotone(now, Greedy(rate, l, now, k)) && Run(rate, l, Greedy(rate, l, now, k)).Some?
    ensures Ticks(Greedy(rate, l, now, k), now, now + k * rate.duration) == Most(rate, l, now, k)
  {
    GreedyRuns(rate, l, now, k);
    if k > 0 {
      var to, first, n := now + k * rate.duration, First(l, now), Openings(rate, l, now, k);
      Scales(1, k, rate.duration);
      if n > 0 { LastOpens(rate, l, now, k); }
      RepeatTicks(now, Live(l, now), now, to);
      RoundsTicks(rate, first, n, now, to);
      TicksConcat(Repeat(now, Live(l, now)), Rounds(rate, first, n), now, to);
    }
  }

  // ----- when the limit per period is kept -----

  /** Calls are left in a window that ends before a whole period is over. */
  predicate MidWindow(rate: Rate, l: Limiter, now: nat) {
    l.state.Ready? && now < l.state.until < now + rate.duration
  }

  /** However the run goes on, the next `k` periods have at most `k` times the limit, which counts as one if it is
      zero. */
  ghost predicate KeepsLimit(rate: Rate, l: Limiter, now: nat, k: nat) {
    forall events :: Monotone(now, events) && Run(rate, l, events).Some?
      ==> Ticks(events, now, now + k * rate.duration) <= k * Burst(rate)
  }

  lemma MostWithinLimit(rate: Rate, l: Limiter, now: nat, k: nat)
    requires Possible(rate, l, now)
    ensures Most(rate, l, now, k) <= k * Burst(rate) <==> k == 0 || !MidWindow(rate, l, now)
  {
    if k > 0 {
      TimesIs(k, Burst(rate));
      TimesIs(k - 1, Burst(rate));
    }
  }

  /** The limit is kept exactly when the periods do not begin in the middle of a window with calls left. */
  lemma LimitKept(rate: Rate, l: Limiter, now: nat, k: nat)
    requires rate.duration > 0 && Possible(rate, l, now)
    ensures KeepsLimit(rate, l, now, k) <==> k == 0 || !MidWindow(rate, l, now)
  {
    MostWithinLimit(rate, l, now, k);
    if k == 0 || !MidWindow(rate, l, now) {
      forall events | Monotone(now, events) && Run(rate, l, events).Some?
        ensures Ticks(events, now, now + k * rate.duration) <= k * Burst(rate)
      {
        MostHolds(rate, l, now, events, k);
      }
    } else {
      MostReached(rate, l, now, k);
    }
  }

  lemma {:induction false} RunPossible(rate: Rate, start: nat, events: seq<Event>)
    requires Monotone(start, events) && Run(rate, Fresh(rate, start), events).Some?
    ensures Possible(rate, Run(rate, Fresh(rate, start), events).value, LastTime(start, events))
  {
    if events != [] { RunPossible(rate, start, events[..|events| - 1]); }
  }

  /** In every run from a new limiter, at every moment: however it goes on, the limit per period is kept if and only
      if the moment is not in the middle of a window with calls left. */
  lemma EveryRunKeepsLimit(rate: Rate, start: nat, before: seq<Event>, now: nat, k: nat)
    requires rate.duration > 0 && Monotone(start, before) && Run(rate, Fresh(rate, start), before).Some?
    requires LastTime(start, before) <= now
    ensures var l := Run(rate, Fresh(rate, start), before).value;
            KeepsLimit(rate, l, now, k) <==> k == 0 || !MidWindow(rate, l, now)
  {
    RunPossible(rate, start, before);
    LimitKept(rate, Run(rate, Fresh(rate, start), before).value, now, k);
  }

  // ----- any interval of any run -----

  /** The most calls that `k` periods have in any run: one window more than periods, unless a period is one clock
      unit. */
  function Largest(rate: Rate, k: nat): nat {
    if k == 0 then 0 else if rate.duration == 1 then k * Burst(rate) else (k + 1) * Burst(rate)
  }

  lemma MostIsLargest(rate: Rate, l: Limiter, now: nat, k: nat)
    requires rate.duration > 0 && Possible(rate, l, now)
    ensures Most(rate, l, now, k) <= Largest(rate, k)
  {
    if k > 0 {
      TimesIs(k, Burst(rate));
      TimesIs(k - 1, Burst(rate));
      OneMore(k, Burst(rate));
      OneMore(k - 1, Burst(rate));
    }
  }

  lemma {:induction false} RunPrefix(rate: Rate, l: Limiter, a: seq<Event>, b: seq<Event>)
    requires Run(rate, l, a + b).Some?
    ensures Run(rate, l, a).Some?
  {
    if b == [] {
      assert a + b == a;
    } else {
      assert (a + b)[..|a + b| - 1] == a + b[..|b| - 1];
      RunPrefix(rate, l, a, b[..|b| - 1]);
    }
  }

  lemma {:induction false} NoTicksBefore(events: seq<Event>, from: nat, to: nat)
    requires forall i :: 0 <= i < |events| ==> events[i].at < from
    ensures Ticks(events, from, to) == 0
  {
    if events != [] { NoTicksBefore(events[..|events| - 1], from, to); }
  }

  lemma {:induction false} TicksWider(events: seq<Event>, from: nat, to: nat, from': nat, to': nat)
    requires to <= to' && forall i :: 0 <= i < |events| ==> from' <= events[i].at
    ensures Ticks(events, from, to) <= Ticks(events, from', to')
  {
    if events != [] { TicksWider(events[..|events| - 1], from, to, from', to'); }
  }

  /** The events before `from` come first. */
  lemma {:induction false} Divide(start: nat, events: seq<Event>, from: nat) returns (n: nat)
    requires Monotone(start, events)
    ensures n <= |events| && (forall i :: 0 <= i < n ==> events[i].at < from) && Monotone(from, events[n..])
  {
    if events == [] || events[0].at >= from {
      n := 0;
    } else {
      var m := Divide(start, events[1..], from);
      n := m + 1;
      assert events[1..][m..] == events[n..];
    }
  }

  lemma SuffixTicks(before: seq<Event>, after: seq<Event>, from: nat, to: nat)
    requires forall i :: 0 <= i < |before| ==> before[i].at < from
    ensures Ticks(before + after, from, to) == Ticks(after, from, to)
  {
    NoTicksBefore(before, from, to);
    TicksConcat(before, after, from, to);
  }

  /** What happens before `from` does not count. */
  lemma TicksSplit(events: seq<Event>, n: nat, from: nat, to: nat)
    requires n <= |events| && forall i :: 0 <= i < n ==> events[i].at < from
    ensures Ticks(events, from, to) == Ticks(events[n..], from, to)
  {
    SuffixTicks(events[..n], events[n..], from, to);
    assert events[..n] + events[n..] == events;
  }

  lemma RunSplit(rate: Rate, l: Limiter, events: seq<Event>, n: nat) returns (mid: Limiter)
    requires n <= |events| && Run(rate, l, events).Some?
    ensures Run(rate, l, events[..n]) == Some(mid) && Run(rate, mid, events[n..]).Some?
  {
    var before, after := events[..n], events[n..];
    assert before + after == events;
    RunPrefix(rate, l, before, after);
    RunConcat(rate, l, before, after);
    mid := Run(rate, l, before).value;
  }

  /** The state that a run is in at time `from`, after its first `n` events. */
  lemma StateAt(rate: Rate, start: nat, events: seq<Event>, n: nat, from: nat) returns (l: Limiter)
    requires start <= from && Monotone(start, events) && Run(rate, Fresh(rate, start), events).Some?
    requires n <= |events| && forall i :: 0 <= i < n ==> events[i].at < from
    ensures Possible(rate, l, from) && Run(rate, l, events[n..]).Some?
  {
    l := RunSplit(rate, Fresh(rate, start), events, n);
    RunPossible(rate, start, events[..n]);
  }

  lemma WithinLargest(rate: Rate, l: Limiter, now: nat, events: seq<Event>, k: nat)
    requires rate.duration > 0 && Possible(rate, l, now) && Monotone(now, events) && Run(rate, l, events).Some?
    ensures Ticks(events, now, now + k * rate.duration) <= Largest(rate, k)
  {
    MostHolds(rate, l, now, events, k);
    MostIsLargest(rate, l, now, k);
  }

  lemma EarlyInterval(rate: Rate, start: nat, events: seq<Event>, from: nat, k: nat)
    requires rate.duration > 0 && Monotone(start, events) && Run(rate, Fresh(rate, start), events).Some? && from < start
    ensures Ticks(events, from, from + k * rate.duration) <= Largest(rate, k)
  {
    WithinLargest(rate, Fresh(rate, start), start, events, k);
    TicksWider(events, from, from + k * rate.duration, start, start + k * rate.duration);
  }

  lemma LateInterval(rate: Rate, start: nat, events: seq<Event>, from: nat, k: nat)
    requires rate.duration > 0 && Monotone(start, events) && Run(rate, Fresh(rate, start), events).Some?
    requires start <= from
    ensures Ticks(events, from, from + k * rate.duration) <= Largest(rate, k)
  {
    var n := Divide(start, events, from);
    var l := StateAt(rate, start, events, n, from);
    WithinLargest(rate, l, from, events[n..], k);
    TicksSplit(events, n, from, from + k * rate.duration);
  }

  lemma LargestBound(rate: Rate, k: nat)
    ensures Largest(rate, k) <= (k + 1) * Burst(rate)
  {
    OneMore(k, Burst(rate));
  }

  /** In every run with a monotone clock, every interval of `k` periods has at most that many calls, so never more than
      `k + 1` windows' worth. */
  lemma RateHolds(rate: Rate, start: nat, events: seq<Event>, from: nat, k: nat)
    requires rate.duration > 0 && Monotone(start, events) && Run(rate, Fresh(rate, start), events).Some?
    ensures Ticks(events, from, from + k * rate.duration) <= Largest(rate, k) <= (k + 1) * Burst(rate)
  {
    LargestBound(rate, k);
    if start <= from {
      LateInterval(rate, start, events, from, k);
    } else {
      EarlyInterval(rate, start, events, from, k);
    }
  }

  /** Fill the first window at once and wait for the second to open. */
  function WarmUp(rate: Rate): seq<Event> {
    Repeat(0, Burst(rate)) + [Poll(rate.duration)]
  }

  lemma WarmUpRuns(rate: Rate)
    requires rate.duration > 0
    ensures Monotone(0, WarmUp(rate)) && LastTime(0, WarmUp(rate)) == rate.duration
    ensures Run(rate, Fresh(rate, 0), WarmUp(rate))
         == Some(Limiter(Ready(rate.duration + rate.duration, rate.limit), rate.duration))
  {
    var d := rate.duration;
    RepeatReopens(rate, Fresh(rate, 0), 0, Burst(rate));
    RepeatRun(rate, Reopened(rate, Fresh(rate, 0), 0), 0, Burst(rate));
    assert [Poll(d)][..0] == [];
    RunThen(rate, Fresh(rate, 0), Repeat(0, Burst(rate)), Limiter(Limited, d), [Poll(d)],
            Limiter(Ready(d + d, rate.limit), d));
  }

  /** Right after it, in the middle of the second window. */
  function WarmState(rate: Rate): Limiter {
    Limiter(Ready(rate.duration + rate.duration, rate.limit), rate.duration)
  }

  /** A run with the most calls, and where the interval begins. */
  function WorstRun(rate: Rate, k: nat): seq<Event> {
    if rate.duration <= 1 then Greedy(rate, Fresh(rate, 0), 0, k)
    else WarmUp(rate) + Greedy(rate, WarmState(rate), rate.duration + 1, k)
  }

  function WorstStart(rate: Rate): nat {
    if rate.duration <= 1 then 0 else rate.duration + 1
  }

  lemma WarmMost(rate: Rate, k: nat)
    requires rate.duration > 1
    ensures Most(rate, WarmState(rate), rate.duration + 1, k) == Largest(rate, k)
  {
    TimesIs(k, Burst(rate));
    OneMore(k, Burst(rate));
  }

  lemma LateStart(rate: Rate, k: nat)
    requires rate.duration > 1
    ensures Monotone(0, WorstRun(rate, k)) && Run(rate, Fresh(rate, 0), WorstRun(rate, k)).Some?
    ensures Ticks(WorstRun(rate, k), rate.duration + 1, rate.duration + 1 + k * rate.duration) == Largest(rate, k)
  {
    var from, warm := rate.duration + 1, WarmUp(rate);
    var rest := Greedy(rate, WarmState(rate), from, k);
    WarmUpRuns(rate);
    MostReached(rate, WarmState(rate), from, k);
    WarmMost(rate, k);
    RunConcat(rate, Fresh(rate, 0), warm, rest);
    MonotoneConcat(0, warm, from, rest);
    SuffixTicks(warm, rest, from, from + k * rate.duration);
  }

  /** The bound is exact for every rate and every `k`: some run from a new limiter makes that many calls in `k`
      periods. */
  lemma RateReached(rate: Rate, k: nat)
    requires rate.duration > 0
    ensures Monotone(0, WorstRun(rate, k)) && Run(rate, Fresh(rate, 0), WorstRun(rate, k)).Some?
    ensures Ticks(WorstRun(rate, k), WorstStart(rate), WorstStart(rate) + k * rate.duration) == Largest(rate, k)
  {
    if rate.duration == 1 {
      TimesIs(k, Burst(rate));
      MostReached(rate, Fresh(rate, 0), 0, k);
    } else {
      LateStart(rate, k);
    }
  }

  // ----- what a poll's answer means -----

  /** Poll `i` of the run is reached and answers ready. */
  ghost predicate AnswersReady(rate: Rate, l: Limiter, events: seq<Event>, i: nat)
    requires i < |events|
  {
    var before := Run(rate, l, events[..i]);
    events[i].Poll? && before.Some? && IsReady(before.value, events[i].at)
  }

  /** Tick `i` follows a poll that answered ready, with no tick in between. */
  ghost predicate Granted(rate: Rate, l: Limiter, events: seq<Event>, i: nat)
    requires i < |events|
  {
    exists j :: 0 <= j < i && AnswersReady(rate, l, events, j) && forall k :: j < k < i ==> events[k].Poll?
  }

  /** What the caller must do: poll before every tick, and tick only when the answer was ready. */
  ghost predicate Disciplined(rate: Rate, l: Limiter, events: seq<Event>) {
    forall i :: 0 <= i < |events| && events[i].Tick? ==> Granted(rate, l, events, i)
  }

  lemma RunNext(rate: Rate, l: Limiter, events: seq<Event>, i: nat)
    requires i < |events|
    ensures Run(rate, l, events[..i + 1])
         == var before := Run(rate, l, events[..i]); if before.None? then None else Step(rate, before.value, events[i])
  {
    assert events[..i + 1][..i] == events[..i];
  }

  /** A poll that answered ready leaves the limiter ready until the next tick. */
  lemma {:induction false} StaysReady(rate: Rate, l: Limiter, events: seq<Event>, j: nat, i: nat)
    requires j < i <= |events| && AnswersReady(rate, l, events, j) && forall k :: j < k < i ==> events[k].Poll?
    ensures Run(rate, l, events[..i]).Some? && Run(rate, l, events[..i]).value.state.Ready?
  {
    RunNext(rate, l, events, i - 1);
    if j < i - 1 { StaysReady(rate, l, events, j, i - 1); }
  }

  lemma {:induction false} NoPanicUpTo(rate: Rate, l: Limiter, events: seq<Event>, n: nat)
    requires Disciplined(rate, l, events) && n <= |events|
    ensures Run(rate, l, events[..n]).Some?
  {
    if n > 0 {
      NoPanicUpTo(rate, l, events, n - 1);
      RunNext(rate, l, events, n - 1);
      if events[n - 1].Tick? {
        var j :| 0 <= j < n - 1 && AnswersReady(rate, l, events, j) && forall k :: j < k < n - 1 ==> events[k].Poll?;
        StaysReady(rate, l, events, j, n - 1);
      }
    }
  }

  /** A caller who ticks only after a poll answered ready never runs into the panic. */
  lemma NoPanic(rate: Rate, l: Limiter, events: seq<Event>)
    requires Disciplined(rate, l, events)
    ensures Run(rate, l, events).Some?
  {
    NoPanicUpTo(rate, l, events, |events|);
    assert events[..|events|] == events;
  }

  lemma {:induction false} TicksFromLater(events: seq<Event>, from: nat, from': nat, to: nat)
    requires from <= from'
    ensures Ticks(events, from', to) <= Ticks(events, from, to)
  {
    if events != [] { TicksFromLater(events[..|events| - 1], from, from', to); }
  }

  /** The current window opened at `w`: every tick since then is accounted for, and none is past its end. */
  ghost predicate OpenedAt(rate: Rate, l: Limiter, events: seq<Event>, to: nat, w: nat) {
    && WindowEnd(l) == w + rate.duration
    && Ticks(events, w, to) + Capacity(l) == Burst(rate)
    && Ticks(events, WindowEnd(l), to) == 0
  }

  ghost predicate NeverOpened(rate: Rate, start: nat, l: Limiter, events: seq<Event>, to: nat) {
    l == Fresh(rate, start) && Ticks(events, start, to) == 0
  }

  lemma StepOpens(rate: Rate, l: Limiter, events: seq<Event>, e: Event, to: nat)
    requires rate.duration > 0 && Step(rate, l, e).Some? && e.at < to
    requires Ticks(events, WindowEnd(l), to) == 0 && WindowEnd(l) <= e.at
    requires e.Tick? || l.state.Limited?
    ensures OpenedAt(rate, Step(rate, l, e).value, events + [e], to, e.at)
  {
    assert (events + [e])[..|events|] == events;
    TicksFromLater(events, WindowEnd(l), e.at, to);
    TicksFromLater(events, WindowEnd(l), e.at + rate.duration, to);
  }

  lemma StepInWindow(rate: Rate, l: Limiter, events: seq<Event>, e: Event, to: nat, w: nat)
    requires OpenedAt(rate, l, events, to, w) && Step(rate, l, e).Some? && w <= e.at < to
    requires e.at < WindowEnd(l) || (e.Poll? && l.state.Ready?)
    ensures OpenedAt(rate, Step(rate, l, e).value, events + [e], to, w)
  {
    assert (events + [e])[..|events|] == events;
  }

  lemma {:induction false} WindowOf(rate: Rate, start: nat, events: seq<Event>, to: nat) returns (w: Option<nat>)
    requires rate.duration > 0 && Monotone(start, events) && Run(rate, Fresh(rate, start), events).Some?
    requires LastTime(start, events) < to
    ensures w.None? ==> NeverOpened(rate, start, Run(rate, Fresh(rate, start), events).value, events, to)
    ensures w.Some? ==> && start <= w.value <= LastTime(start, events)
                        && OpenedAt(rate, Run(rate, Fresh(rate, start), events).value, events, to, w.value)
  {
    if events == [] {
      w := None;
    } else {
      var front, e := events[..|events| - 1], events[|events| - 1];
      assert events == front + [e];
      w := WindowOf(rate, start, front, to);
      var l := Run(rate, Fresh(rate, start), front).value;
      if WindowEnd(l) <= e.at && (e.Tick? || l.state.Limited?) {
        StepOpens(rate, l, front, e, to);
        w := Some(e.at);
      } else if w.Some? {
        StepInWindow(rate, l, front, e, to, w.value);
      }
    }
  }

  /** A poll answers not ready only when all calls of a window have been made and the window has not ended. */
  lemma NotReadyMeans(rate: Rate, start: nat, events: seq<Event>, now: nat) returns (w: nat)
    requires Monotone(start, events) && Run(rate, Fresh(rate, start), events).Some? && LastTime(start, events) <= now
    requires !IsReady(Run(rate, Fresh(rate, start), events).value, now)
    ensures start <= w <= now < w + rate.duration && Ticks(events, w, now + 1) == Burst(rate)
  {
    RunPossible(rate, start, events);
    var window := WindowOf(rate, start, events, now + 1);
    w := window.value;
  }
}
