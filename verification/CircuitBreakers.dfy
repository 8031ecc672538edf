/** The two circuit breakers, with the timers they leave running. */
module CircuitBreakers {

  datatype Signal = OpenSignal | CloseSignal

  /** What the code using a breaker, or its timers, can do. */
  datatype Event = Error | MegaError | Success | TimerFires(timer: nat)
}

/** The breaker whose delay doubles with each failure. */
module ExponentialBackoff {
  import opened Wrappers
  import opened CircuitBreakers

  datatype Options = Options(initialBackoffMs: real, maxBackoffMs: real, backoffMultiplier: real)

  datatype State = State(
    isOpen: bool,
    errorCount: nat,
    timeoutId: Option<nat>,
    timers: set<nat>,           // the timers that are still going to fire
    armed: nat,                 // how many timers were ever started
    delays: seq<real>,          // the delays chosen since the last success
    signals: seq<Signal>        // the events emitted
  )

  const INITIAL := State(false, 0, None, {}, 0, [], [])

  function Power(base: real, exponent: nat): real {
    if exponent == 0 then 1.0 else base * Power(base, exponent - 1)
  }

  function Min(a: real, b: real): (r: real)
    ensures r <= a && r <= b && (r == a || r == b)
  {
    if a <= b then a else b
  }

  /** The delay before it is capped. */
  function Uncapped(options: Options, errorCount: nat): real
    requires errorCount > 0
  {
    options.initialBackoffMs * Power(options.backoffMultiplier, errorCount - 1)
  }

  function BackoffTime(options: Options, errorCount: nat): real
    requires errorCount > 0
  {
    Min(Uncapped(options, errorCount), options.maxBackoffMs)
  }

  function Opened(options: Options, s: State): State
    requires s.errorCount > 0
  {
    if s.isOpen then s else
    s.(isOpen := true, timeoutId := Some(s.armed), timers := s.timers + {s.armed}, armed := s.armed + 1,
       delays := s.delays + [BackoffTime(options, s.errorCount)], signals := s.signals + [OpenSignal])
  }

  function Closed(s: State): State {
    if !s.isOpen then s else
    s.(isOpen := false, timers := if s.timeoutId.Some? then s.timers - {s.timeoutId.value} else s.timers,
       signals := s.signals + [CloseSignal])
  }

  predicate Enabled(s: State, e: Event) {
    e.TimerFires? ==> e.timer in s.timers
  }

  function Next(options: Options, s: State, e: Event): State
    requires Enabled(s, e)
  {
    match e
    case Error => Opened(options, s.(errorCount := s.errorCount + 1))
    case MegaError => Opened(options, s.(errorCount := s.errorCount + 3))
    case Success => Closed(s.(errorCount := 0, delays := []))
    case TimerFires(timer) => Closed(s.(timers := s.timers - {timer}))
  }

  function Run(options: Options, events: seq<Event>): Outcome<State> {
    if events == [] then Reached(INITIAL) else
    var n := |events| - 1;
    var before := Run(options, events[..n]);
    if before.Reached? && Enabled(before.state, events[n])
    then Reached(Next(options, before.state, events[n])) else Impossible
  }

  /** Open and close signals alternate, beginning with open. */
  ghost predicate Alternating(signals: seq<Signal>) {
    forall i :: 0 <= i < |signals| ==> signals[i] == if i % 2 == 0 then OpenSignal else CloseSignal
  }

  /** The breaker is open exactly while one timer runs, the recorded one. */
  ghost predicate OneTimer(s: State) {
    && (s.isOpen ==> s.timeoutId.Some? && s.timers == {s.timeoutId.value} && s.timeoutId.value < s.armed)
    && (!s.isOpen ==> s.timers == {})
    && Alternating(s.signals)
    && (s.isOpen <==> |s.signals| % 2 == 1)
  }

  lemma {:induction false} OpenWhileOneTimerRuns(options: Options, events: seq<Event>)
    requires Run(options, events).Reached?
    ensures OneTimer(Run(options, events).state)
  {
    if events != [] {
      hide BackoffTime;
      OpenWhileOneTimerRuns(options, events[..|events| - 1]);
    }
  }

  ghost predicate Growing(options: Options) {
    options.initialBackoffMs >= 0.0 && options.backoffMultiplier >= 1.0
  }

  lemma {:induction false} PowerGrows(base: real, m: nat, n: nat)
    requires base >= 1.0 && m <= n
    ensures 1.0 <= Power(base, m) <= Power(base, n)
  {
    if n > 0 {
      if m == n {
        PowerGrows(base, m - 1, n - 1);
        Times(base, Power(base, n - 1));
      } else {
        PowerGrows(base, m, n - 1);
        Times(base, Power(base, n - 1));
      }
    }
  }

  lemma Times(base: real, x: real)
    requires base >= 1.0 && x >= 1.0
    ensures base * x >= x
  {
  }

  /** How many errors the run reported since its last success, a mega error counting as three. */
  function ErrorsSinceSuccess(events: seq<Event>): nat {
    if events == [] then 0 else
    var n := |events| - 1;
    match events[n]
    case Error => ErrorsSinceSuccess(events[..n]) + 1
    case MegaError => ErrorsSinceSuccess(events[..n]) + 3
    case Success => 0
    case TimerFires(_) => ErrorsSinceSuccess(events[..n])
  }

  lemma {:induction false} ErrorsCounted(options: Options, events: seq<Event>)
    requires Run(options, events).Reached?
    ensures Run(options, events).state.errorCount == ErrorsSinceSuccess(events)
  {
    if events != [] {
      ErrorsCounted(options, events[..|events| - 1]);
    }
  }

  /** An error opens a closed breaker with the delay for the errors since the last success, which for
      the first of them is the initial one; it does not prolong an open period. */
  lemma DelayOfOpening(options: Options, events: seq<Event>, e: Event)
    requires Run(options, events).Reached? && (e.Error? || e.MegaError?)
    ensures var s := Run(options, events).state; var t := Next(options, s, e);
      var errors := ErrorsSinceSuccess(events + [e]);
      && t.isOpen
      && (s.isOpen ==> t.delays == s.delays && t.timers == s.timers && t.timeoutId == s.timeoutId)
      && (!s.isOpen ==>
            t.delays == s.delays + [BackoffTime(options, errors)] && t.timers == s.timers + {s.armed}
            && t.timeoutId == Some(s.armed))
      && (errors == 1 ==> BackoffTime(options, errors) == Min(options.initialBackoffMs, options.maxBackoffMs))
  {
    ErrorsCounted(options, events);
    assert (events + [e])[..|events|] == events;
  }

  /** The breaker is open exactly if the last thing that happened to it was an error. */
  lemma OpenAfterErrorExactly(options: Options, events: seq<Event>)
    requires Run(options, events).Reached?
    ensures Run(options, events).state.isOpen <==>
      events != [] && (events[|events| - 1] == Error || events[|events| - 1] == MegaError)
  {
  }

  /** Each further error multiplies the delay, up to the maximum. */
  lemma BackoffMultiplies(options: Options, n: nat)
    requires Growing(options) && options.maxBackoffMs >= 0.0 && n > 0
    ensures BackoffTime(options, 1) == Min(options.initialBackoffMs, options.maxBackoffMs)
    ensures BackoffTime(options, n + 1)
            == Min(options.backoffMultiplier * BackoffTime(options, n), options.maxBackoffMs)
  {
    hide Min, Uncapped;
    UncappedMultiplies(options, n);
    var u := Uncapped(options, n);
    Multiply(options.backoffMultiplier, u);
    Multiply(options.backoffMultiplier, options.maxBackoffMs);
  }

  lemma UncappedMultiplies(options: Options, n: nat)
    requires Growing(options) && n > 0
    ensures Uncapped(options, 1) == options.initialBackoffMs
    ensures Uncapped(options, n + 1) == options.backoffMultiplier * Uncapped(options, n)
    ensures Uncapped(options, n) >= 0.0
  {
    var p := Power(options.backoffMultiplier, n - 1);
    PowerGrows(options.backoffMultiplier, n - 1, n - 1);
    var q := Power(options.backoffMultiplier, n);
    assert q == options.backoffMultiplier * p;
    hide Power;
    Product(options.initialBackoffMs, options.backoffMultiplier, p);
    Scale(options.initialBackoffMs, 0.0, p);
  }

  lemma Product(i: real, m: real, p: real)
    ensures i * (m * p) == m * (i * p)
  {
  }

  lemma Multiply(m: real, x: real)
    requires m >= 1.0 && x >= 0.0
    ensures m * x >= x
  {
  }

  lemma BackoffGrows(options: Options, m: nat, n: nat)
    requires Growing(options) && 0 < m <= n
    ensures BackoffTime(options, m) <= BackoffTime(options, n) <= options.maxBackoffMs
    ensures Min(options.initialBackoffMs, options.maxBackoffMs) <= BackoffTime(options, m)
  {
    hide Min, Uncapped;
    UncappedGrows(options, m, n);
    UncappedGrows(options, 1, m);
    UncappedMultiplies(options, 1);
  }

  lemma UncappedGrows(options: Options, m: nat, n: nat)
    requires Growing(options) && 0 < m <= n
    ensures Uncapped(options, m) <= Uncapped(options, n)
  {
    var p, q := Power(options.backoffMultiplier, m - 1), Power(options.backoffMultiplier, n - 1);
    PowerGrows(options.backoffMultiplier, m - 1, n - 1);
    hide Power;
    Scale(options.initialBackoffMs, p, q);
  }

  lemma Scale(i: real, p: real, q: real)
    requires i >= 0.0 && p <= q
    ensures i * p <= i * q
  {
  }

  /** The delays since the last success never decrease and stay between the bounds; the last of them
      is no longer than the delay the next failure would get. */
  ghost predicate DelaysGrow(options: Options, s: State) {
    && (forall i :: 0 <= i < |s.delays| ==>
          Min(options.initialBackoffMs, options.maxBackoffMs) <= s.delays[i] <= options.maxBackoffMs)
    && (forall i, j :: 0 <= i <= j < |s.delays| ==> s.delays[i] <= s.delays[j])
    && (s.delays != [] ==> s.errorCount > 0)
    && (forall i :: 0 <= i < |s.delays| ==> s.delays[i] <= BackoffTime(options, s.errorCount))
  }

  lemma DelaysGrowStep(options: Options, s: State, e: Event)
    requires Growing(options) && Enabled(s, e) && DelaysGrow(options, s)
    ensures DelaysGrow(options, Next(options, s, e))
  {
    hide BackoffTime;
    var more := match e case Error => 1 case MegaError => 3 case _ => 0;
    if more > 0 {
      if s.errorCount > 0 {
        BackoffGrows(options, s.errorCount, s.errorCount + more);
      }
      BackoffGrows(options, s.errorCount + more, s.errorCount + more);
    }
  }

  /** Between two successes the delays never decrease and lie within the configured bounds. */
  lemma {:induction false} DelaysNeverDecrease(options: Options, events: seq<Event>)
    requires Growing(options) && Run(options, events).Reached?
    ensures DelaysGrow(options, Run(options, events).state)
  {
    if events != [] {
      hide DelaysGrow, Next, Enabled;
      var n := |events| - 1;
      DelaysNeverDecrease(options, events[..n]);
      DelaysGrowStep(options, Run(options, events[..n]).state, events[n]);
    } else {
      assert DelaysGrow(options, INITIAL);
    }
  }

  class ExponentialBackoffCircuitBreaker {
    const options: Options
    var isOpen: bool
    var errorCount: nat
    var timeoutId: Option<nat>
    var timers: set<nat>
    var armed: nat
    var delays: seq<real>
    var signals: seq<Signal>

    ghost function View(): State reads this {
      State(isOpen, errorCount, timeoutId, timers, armed, delays, signals)
    }

    constructor (options: Options)
      ensures View() == INITIAL && this.options == options
    {
      this.options := options;
      isOpen, errorCount, timeoutId, timers, armed, delays, signals := false, 0, None, {}, 0, [], [];
    }

    method Error()
      modifies this
      ensures View() == Next(options, old(View()), Event.Error)
    {
      errorCount := errorCount + 1;
      Open();
    }

    method MegaError()
      modifies this
      ensures View() == Next(options, old(View()), Event.MegaError)
    {
      errorCount := errorCount + 3;
      Open();
    }

    method Success()
      modifies this
      ensures View() == Next(options, old(View()), Event.Success)
    {
      errorCount := 0;
      delays := [];
      Close();
    }

    method TimerFires(timer: nat)
      requires timer in timers
      modifies this
      ensures View() == Next(options, old(View()), Event.TimerFires(timer))
    {
      timers := timers - {timer};
      Close();
    }

    method Open()
      requires errorCount > 0
      modifies this
      ensures View() == Opened(options, old(View()))
    {
      if isOpen {
        return;
      }
      isOpen := true;
      SetTimeout(BackoffTime(options, errorCount));
      signals := signals + [OpenSignal];
    }

    method SetTimeout(delay: real)
      modifies this`timeoutId, this`timers, this`armed, this`delays
      ensures timeoutId == Some(old(armed)) && timers == old(timers) + {old(armed)} && armed == old(armed) + 1
      ensures delays == old(delays) + [delay]
    {
      timeoutId := Some(armed);
      timers := timers + {armed};
      armed := armed + 1;
      delays := delays + [delay];
    }

    method Close()
      modifies this
      ensures View() == Closed(old(View()))
    {
      if !isOpen {
        return;
      }
      if timeoutId.Some? {
        timers := timers - {timeoutId.value};
      }
      isOpen := false;
      signals := signals + [CloseSignal];
    }
  }
}

/** The breaker that stays open for a fixed time. */
module FixedTime {
  import opened Wrappers
  import opened CircuitBreakers

  datatype State = State(
    isOpen: bool,
    errorCount: nat,
    timeoutId: Option<nat>,
    timers: set<nat>,
    armed: nat,
    signals: seq<Signal>
  )

  const INITIAL := State(false, 0, None, {}, 0, [])

  function Opened(s: State): State {
    s.(isOpen := true, timeoutId := Some(s.armed), timers := s.timers + {s.armed}, armed := s.armed + 1,
       signals := s.signals + [OpenSignal])
  }

  function Closed(s: State): State {
    if !s.isOpen then s else
    s.(isOpen := false, timers := if s.timeoutId.Some? then s.timers - {s.timeoutId.value} else s.timers,
       signals := s.signals + [CloseSignal])
  }

  predicate Enabled(s: State, e: Event) {
    !e.MegaError? && (e.TimerFires? ==> e.timer in s.timers)
  }

  function Next(maxErrors: int, s: State, e: Event): State
    requires Enabled(s, e)
  {
    match e
    case Error =>
      var t := s.(errorCount := s.errorCount + 1);
      if t.errorCount >= maxErrors then Opened(t) else t
    case MegaError => s
    case Success => Closed(s.(errorCount := 0))
    case TimerFires(timer) => Closed(s.(timers := s.timers - {timer}))
  }

  function Run(maxErrors: int, events: seq<Event>): Outcome<State> {
    if events == [] then Reached(INITIAL) else
    var n := |events| - 1;
    var before := Run(maxErrors, events[..n]);
    if before.Reached? && Enabled(before.state, events[n])
    then Reached(Next(maxErrors, before.state, events[n])) else Impossible
  }

  /** How many errors the run reported since its last success. */
  function ErrorsSinceSuccess(events: seq<Event>): nat {
    if events == [] then 0 else
    var n := |events| - 1;
    match events[n]
    case Error => ErrorsSinceSuccess(events[..n]) + 1
    case Success => 0
    case _ => ErrorsSinceSuccess(events[..n])
  }

  /** While the breaker is open enough errors have been reported, and the timer that will close it is
      running; it can therefore not stay open for good. */
  lemma {:induction false} OpenIsTemporary(maxErrors: int, events: seq<Event>)
    requires Run(maxErrors, events).Reached?
    ensures var s := Run(maxErrors, events).state;
      && s.errorCount == ErrorsSinceSuccess(events)
      && (s.isOpen ==> s.errorCount >= maxErrors)
      && (s.isOpen ==> s.timeoutId.Some? && s.timeoutId.value in s.timers)
      && (forall timer :: timer in s.timers ==> timer < s.armed)
  {
    if events != [] {
      OpenIsTemporary(maxErrors, events[..|events| - 1]);
    }
  }

  /** The breaker is open exactly if the last thing that happened to it was an error that was not one of
      the first `maxErrors - 1` since the last success. */
  lemma OpenAfterErrorsExactly(maxErrors: int, events: seq<Event>)
    requires Run(maxErrors, events).Reached?
    ensures Run(maxErrors, events).state.isOpen <==>
      events != [] && events[|events| - 1] == Error && ErrorsSinceSuccess(events) >= maxErrors
  {
    OpenIsTemporary(maxErrors, events);
    if events != [] {
      OpenIsTemporary(maxErrors, events[..|events| - 1]);
    }
  }

  /** How often the breaker was opened, again or for the first time. */
  function Openings(maxErrors: int, events: seq<Event>): nat {
    if events == [] then 0 else
    var n := |events| - 1;
    Openings(maxErrors, events[..n])
    + if events[n] == Error && ErrorsSinceSuccess(events) >= maxErrors then 1 else 0
  }

  ghost predicate SignalsMatch(s: State, openings: nat) {
    && multiset(s.signals)[OpenSignal] == openings
    && (s.isOpen <==> s.signals != [] && s.signals[|s.signals| - 1] == OpenSignal)
    && forall i :: 0 <= i < |s.signals| && s.signals[i] == CloseSignal ==> i > 0 && s.signals[i - 1] == OpenSignal
  }

  lemma SignalsAppend(s: State, openings: nat)
    requires SignalsMatch(s, openings)
    ensures SignalsMatch(s.(isOpen := true, signals := s.signals + [OpenSignal]), openings + 1)
    ensures s.isOpen ==> SignalsMatch(s.(isOpen := false, signals := s.signals + [CloseSignal]), openings)
  {
  }

  lemma SignalsStep(maxErrors: int, s: State, e: Event, openings: nat)
    requires Enabled(s, e) && SignalsMatch(s, openings)
    ensures SignalsMatch(Next(maxErrors, s, e),
                         openings + if e == Error && s.errorCount + 1 >= maxErrors then 1 else 0)
  {
    SignalsAppend(s, openings);
    SignalsDepend(s, Next(maxErrors, s, e), openings);
    SignalsDepend(s.(isOpen := true, signals := s.signals + [OpenSignal]), Next(maxErrors, s, e), openings + 1);
    SignalsDepend(s.(isOpen := false, signals := s.signals + [CloseSignal]), Next(maxErrors, s, e), openings);
    hide SignalsMatch;
  }

  lemma SignalsDepend(s: State, t: State, openings: nat)
    requires s.isOpen == t.isOpen && s.signals == t.signals ==> SignalsMatch(s, openings)
    ensures s.isOpen == t.isOpen && s.signals == t.signals ==> SignalsMatch(t, openings)
  {
  }

  /** Every opening is signalled, again if the breaker was open, and every closing once. */
  lemma {:induction false} SignalsFollow(maxErrors: int, events: seq<Event>)
    requires Run(maxErrors, events).Reached?
    ensures SignalsMatch(Run(maxErrors, events).state, Openings(maxErrors, events))
  {
    hide SignalsMatch, Next, Enabled;
    if events == [] {
      assert SignalsMatch(INITIAL, 0) by { NoSignals(); }
    } else {
      var n := |events| - 1;
      SignalsFollow(maxErrors, events[..n]);
      OpenIsTemporary(maxErrors, events[..n]);
      SignalsStep(maxErrors, Run(maxErrors, events[..n]).state, events[n], Openings(maxErrors, events[..n]));
    }
  }

  lemma NoSignals()
    ensures SignalsMatch(INITIAL, 0)
  {
  }

  /** While the breaker is open only the timer of its last opening runs, and none while it is closed. */
  ghost predicate OnTime(s: State) {
    if s.isOpen then s.timeoutId.Some? && s.timers == {s.timeoutId.value} else s.timers == {}
  }

  ghost predicate AlwaysOnTime(maxErrors: int, events: seq<Event>) {
    forall k :: 0 <= k <= |events| && Run(maxErrors, events[..k]).Reached? ==>
      OnTime(Run(maxErrors, events[..k]).state)
  }

  /** Nobody reports an error to the breaker while it is open. */
  ghost predicate NoErrorWhileOpen(maxErrors: int, events: seq<Event>) {
    forall i :: 0 <= i < |events| && events[i] == Error && Run(maxErrors, events[..i]).Reached? ==>
      !Run(maxErrors, events[..i]).state.isOpen
  }

  lemma AlwaysOnTimePrefix(maxErrors: int, events: seq<Event>)
    requires events != [] && Run(maxErrors, events).Reached?
    ensures AlwaysOnTime(maxErrors, events) <==>
      AlwaysOnTime(maxErrors, events[..|events| - 1]) && OnTime(Run(maxErrors, events).state)
  {
    hide OnTime, Run;
    var n := |events| - 1;
    var most := events[..n];
    assert forall k :: 0 <= k <= n ==> most[..k] == events[..k];
    assert events[..n + 1] == events;
  }

  lemma NoErrorWhileOpenPrefix(maxErrors: int, events: seq<Event>)
    requires events != []
    ensures var n := |events| - 1; var before := Run(maxErrors, events[..n]);
      NoErrorWhileOpen(maxErrors, events) <==>
        NoErrorWhileOpen(maxErrors, events[..n])
        && (before.Reached? && events[n] == Error ==> !before.state.isOpen)
  {
    hide Run;
    var n := |events| - 1;
    var most := events[..n];
    assert forall i :: 0 <= i < n ==> most[..i] == events[..i] && most[i] == events[i];
  }

  /** A step from a breaker that is on time keeps it so exactly unless it is an error while open. */
  lemma OnTimeStep(maxErrors: int, s: State, e: Event)
    requires Enabled(s, e) && OnTime(s)
    requires s.isOpen ==> s.errorCount >= maxErrors && s.timeoutId.value < s.armed
    ensures OnTime(Next(maxErrors, s, e)) <==> !(e == Error && s.isOpen)
  {
    if e == Error && s.isOpen {
      assert s.timeoutId.value in Next(maxErrors, s, e).timers;
    }
  }

  /** Throughout a run, the breaker is closed by nothing but successes and the timer of its last
      opening, exactly if no error is reported while it is open. `Open` lacks that guard. */
  lemma {:induction false} ClosesOnTimeExactly(maxErrors: int, events: seq<Event>)
    requires Run(maxErrors, events).Reached?
    ensures AlwaysOnTime(maxErrors, events) <==> NoErrorWhileOpen(maxErrors, events)
  {
    hide AlwaysOnTime, NoErrorWhileOpen, OnTime, Next, Enabled;
    if events == [] {
      AtFirst(maxErrors);
    } else {
      var n := |events| - 1;
      var s := Run(maxErrors, events[..n]).state;
      ClosesOnTimeExactly(maxErrors, events[..n]);
      AlwaysOnTimePrefix(maxErrors, events);
      NoErrorWhileOpenPrefix(maxErrors, events);
      if AlwaysOnTime(maxErrors, events[..n]) {
        OnTimeNow(maxErrors, events[..n]);
        OpenIsTemporary(maxErrors, events[..n]);
        OnTimeStep(maxErrors, s, events[n]);
      }
    }
  }

  lemma AtFirst(maxErrors: int)
    ensures AlwaysOnTime(maxErrors, []) && NoErrorWhileOpen(maxErrors, [])
  {
  }

  lemma OnTimeNow(maxErrors: int, events: seq<Event>)
    requires AlwaysOnTime(maxErrors, events) && Run(maxErrors, events).Reached?
    ensures OnTime(Run(maxErrors, events).state)
  {
    assert events[..|events|] == events;
  }

  /** Two errors in a row leave two timers; the first of them closes the breaker early. */
  lemma StaleTimerClosesEarly()
    ensures var before := Run(1, [Error, Error]); var after := Run(1, [Error, Error, TimerFires(0)]);
      && before.Reached? && before.state.isOpen && before.state.timers == {0, 1} && before.state.timeoutId == Some(1)
      && after.Reached? && !after.state.isOpen && after.state.timers == {}
  {
  }

  class FixedTimeCircuitBreaker {
    const maxErrorsBeforeBreaking: int
    var isOpen: bool
    var errorCount: nat
    var timeoutId: Option<nat>
    var timers: set<nat>
    var armed: nat
    var signals: seq<Signal>

    ghost function View(): State reads this {
      State(isOpen, errorCount, timeoutId, timers, armed, signals)
    }

    constructor (maxErrorsBeforeBreaking: int)
      ensures View() == INITIAL && this.maxErrorsBeforeBreaking == maxErrorsBeforeBreaking
    {
      this.maxErrorsBeforeBreaking := maxErrorsBeforeBreaking;
      isOpen, errorCount, timeoutId, timers, armed, signals := false, 0, None, {}, 0, [];
    }

    method Error()
      modifies this
      ensures View() == Next(maxErrorsBeforeBreaking, old(View()), Event.Error)
    {
      errorCount := errorCount + 1;
      if errorCount >= maxErrorsBeforeBreaking {
        Open();
      }
    }

    method Success()
      modifies this
      ensures View() == Next(maxErrorsBeforeBreaking, old(View()), Event.Success)
    {
      errorCount := 0;
      Close();
    }

    method TimerFires(timer: nat)
      requires timer in timers
      modifies this
      ensures View() == Next(maxErrorsBeforeBreaking, old(View()), Event.TimerFires(timer))
    {
      timers := timers - {timer};
      Close();
    }

    method Open()
      modifies this
      ensures View() == Opened(old(View()))
    {
      isOpen := true;
      timeoutId := Some(armed);
      timers := timers + {armed};
      armed := armed + 1;
      signals := signals + [OpenSignal];
    }

    method Close()
      modifies this
      ensures View() == Closed(old(View()))
    {
      if !isOpen {
        return;
      }
      if timeoutId.Some? {
        timers := timers - {timeoutId.value};
      }
      isOpen := false;
      signals := signals + [CloseSignal];
    }
  }
}
