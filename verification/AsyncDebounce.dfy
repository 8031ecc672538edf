/** The asynchronous debounce: callers share one timer, and whichever call settles first settles
    every caller waiting at that moment. */
module AsyncDebounces {
  import opened Wrappers

  /** The arguments of one call of the wrapper. */
  datatype Args = Args(key: nat)

  /** The promise of one caller was settled by one call of the debounced function. */
  datatype Settlement = Settlement(promise: nat, call: nat, ok: bool)

  datatype State = State(
    resolvers: seq<nat>,        // the promises whose `resolve` is in the resolve set
    rejecters: seq<nat>,        // the promises whose `reject` is in the reject set
    timer: Option<Args>,        // the pending trailing call, with the latest arguments
    calls: seq<Args>,           // the calls made so far
    inFlight: set<nat>,         // those not settled yet
    settled: seq<Settlement>,
    promises: nat               // how many promises were handed out
  )

  datatype Event =
    | Call(args: Args)          // a caller invokes the wrapper
    | Fire                      // the timer fires and the function returns a promise
    | FireThrows                // the timer fires and the function throws instead
    | Fulfil(call: nat)
    | Reject(call: nat)

  const INITIAL := State([], [], None, [], {}, [], 0)

  function Settle(promises: seq<nat>, call: nat, ok: bool): (r: seq<Settlement>)
    ensures |r| == |promises|
    ensures forall i :: 0 <= i < |r| ==> r[i] == Settlement(promises[i], call, ok)
  {
    seq(|promises|, i requires 0 <= i < |promises| => Settlement(promises[i], call, ok))
  }

  predicate Enabled(s: State, e: Event) {
    match e
    case Call(_) => true
    case Fire => s.timer.Some?
    case FireThrows => s.timer.Some?
    case Fulfil(call) => call in s.inFlight
    case Reject(call) => call in s.inFlight
  }

  function Next(s: State, e: Event): State
    requires Enabled(s, e)
  {
    match e
    case Call(args) =>
      s.(resolvers := s.resolvers + [s.promises], rejecters := s.rejecters + [s.promises],
         timer := Some(args), promises := s.promises + 1)
    case Fire => s.(timer := None, calls := s.calls + [s.timer.value], inFlight := s.inFlight + {|s.calls|})
    case FireThrows => s.(timer := None)
    case Fulfil(call) =>
      s.(settled := s.settled + Settle(s.resolvers, call, true), resolvers := [], rejecters := [],
         inFlight := s.inFlight - {call})
    case Reject(call) =>
      s.(settled := s.settled + Settle(s.rejecters, call, false), resolvers := [], rejecters := [],
         inFlight := s.inFlight - {call})
  }

  function Run(start: State, events: seq<Event>): Outcome<State> {
    if events == [] then Reached(start) else
    var n := |events| - 1;
    var before := Run(start, events[..n]);
    if before.Reached? && Enabled(before.state, events[n]) then Reached(Next(before.state, events[n])) else Impossible
  }

  lemma RunAppend(events: seq<Event>, e: Event)
    requires Run(INITIAL, events).Reached? && Enabled(Run(INITIAL, events).state, e)
    ensures Run(INITIAL, events + [e]) == Reached(Next(Run(INITIAL, events).state, e))
  {
    assert (events + [e])[..|events|] == events;
  }

  function SettledPromises(settled: seq<Settlement>): seq<nat> {
    seq(|settled|, i requires 0 <= i < |settled| => settled[i].promise)
  }

  /** Both sets hold the same callers, and every promise handed out is either waiting or was settled,
      exactly once. */
  ghost predicate Accounted(s: State) {
    && s.resolvers == s.rejecters
    && (forall p: nat :: multiset(s.resolvers)[p] + multiset(SettledPromises(s.settled))[p]
                    == if p < s.promises then 1 else 0)
    && (forall call :: call in s.inFlight ==> call < |s.calls|)
  }

  /** Somebody will still settle the waiting callers. */
  ghost predicate Covered(s: State) {
    s.resolvers != [] ==> s.timer.Some? || s.inFlight != {}
  }

  lemma SettledAppend(settled: seq<Settlement>, promises: seq<nat>, call: nat, ok: bool)
    ensures SettledPromises(settled + Settle(promises, call, ok)) == SettledPromises(settled) + promises
  {
  }

  lemma AccountedStep(s: State, e: Event)
    requires Enabled(s, e) && Accounted(s)
    ensures Accounted(Next(s, e))
  {
    match e
    case Fulfil(call) => SettledAppend(s.settled, s.resolvers, call, true);
    case Reject(call) => SettledAppend(s.settled, s.rejecters, call, false);
    case _ =>
  }

  lemma {:induction false} RunIsAccounted(events: seq<Event>)
    requires Run(INITIAL, events).Reached?
    ensures Accounted(Run(INITIAL, events).state)
  {
    hide Accounted, Next, Enabled;
    if events == [] {
      assert Accounted(INITIAL) by { NobodyYet(); }
    } else {
      RunIsAccounted(events[..|events| - 1]);
      AccountedStep(Run(INITIAL, events[..|events| - 1]).state, events[|events| - 1]);
    }
  }

  lemma NobodyYet()
    ensures Accounted(INITIAL)
  {
  }

  lemma TwiceCounts(s: seq<nat>, i: nat, j: nat)
    requires i < j < |s|
    ensures s[i] == s[j] ==> multiset(s)[s[i]] >= 2
  {
    if s[i] == s[j] {
      assert s == s[..j] + s[j..];
      assert s[..j][i] in multiset(s[..j]) && s[j..][0] in multiset(s[j..]);
    }
  }

  // ----- synchronous throws

  /** Somebody called the wrapper since the last call of the function settled. */
  predicate CallersWait(events: seq<Event>) {
    if events == [] then false else
    var n := |events| - 1;
    match events[n]
    case Call(_) => true
    case Fulfil(_) => false
    case Reject(_) => false
    case _ => CallersWait(events[..n])
  }

  /** How many calls of the function have not settled yet. */
  function Unsettled(events: seq<Event>): int {
    if events == [] then 0 else
    var n := |events| - 1;
    match events[n]
    case Fire => Unsettled(events[..n]) + 1
    case Fulfil(_) => Unsettled(events[..n]) - 1
    case Reject(_) => Unsettled(events[..n]) - 1
    case _ => Unsettled(events[..n])
  }

  lemma {:induction false} EventsTellWaiting(events: seq<Event>)
    requires Run(INITIAL, events).Reached?
    ensures Run(INITIAL, events).state.resolvers != [] <==> CallersWait(events)
    ensures |Run(INITIAL, events).state.inFlight| == Unsettled(events)
  {
    if events != [] {
      var n := |events| - 1;
      EventsTellWaiting(events[..n]);
      RunIsAccounted(events[..n]);
    }
  }

  /** The run ends with a synchronous throw while callers wait and no other call is in flight. */
  predicate EndsStranded(events: seq<Event>) {
    && events != [] && events[|events| - 1] == FireThrows
    && CallersWait(events) && Unsettled(events) == 0
  }

  /** Callers are left with neither a timer nor a call in flight after exactly those runs. */
  lemma StrandedExactly(events: seq<Event>)
    requires Run(INITIAL, events).Reached?
    ensures !Covered(Run(INITIAL, events).state) <==> EndsStranded(events)
  {
    EventsTellWaiting(events);
  }

  /** The first call a run settles, and whether it was fulfilled. */
  function FirstSettled(events: seq<Event>): Option<(nat, bool)> {
    if events == [] then None else
    var n := |events| - 1;
    var earlier := FirstSettled(events[..n]);
    if earlier.Some? then earlier else
    match events[n]
    case Fulfil(call) => Some((call, true))
    case Reject(call) => Some((call, false))
    case _ => None
  }

  lemma SettlesEverybody(promises: seq<nat>, call: nat, ok: bool)
    ensures forall p :: p in promises ==> Settlement(p, call, ok) in Settle(promises, call, ok)
  {
    forall p | p in promises ensures Settlement(p, call, ok) in Settle(promises, call, ok) {
      var i :| 0 <= i < |promises| && promises[i] == p;
      assert Settle(promises, call, ok)[i] == Settlement(p, call, ok);
    }
  }

  /** Everybody who waits keeps waiting until the next settlement, which is one of theirs: by the first
      call that settles, and made after `calls` others if all calls in flight were. */
  lemma {:induction false} FirstSettledSettlesAll(before: seq<Event>, more: seq<Event>, calls: nat)
    requires Run(INITIAL, before).Reached? && Run(INITIAL, before + more).Reached?
    requires var s := Run(INITIAL, before).state;
      |s.calls| >= calls && forall call :: call in s.inFlight ==> call >= calls
    ensures var s, t := Run(INITIAL, before).state, Run(INITIAL, before + more).state; var first := FirstSettled(more);
      && (first.None? ==> forall p :: p in s.resolvers ==> p in t.resolvers)
      && (first.Some? ==> first.value.0 >= calls)
      && (first.Some? ==>
            forall p :: p in s.resolvers ==> Settlement(p, first.value.0, first.value.1) in t.settled)
      && |t.calls| >= calls && forall call :: call in t.inFlight ==> call >= calls
  {
    if more == [] {
      assert before + more == before;
    } else {
      var n := |more| - 1;
      var most, e := more[..n], more[n];
      assert (before + more)[..|before + more| - 1] == before + most && (before + more)[|before| + n] == e;
      FirstSettledSettlesAll(before, most, calls);
      RunIsAccounted(before + most);
      var u := Run(INITIAL, before + most).state;
      if e.Fulfil? || e.Reject? {
        SettlesEverybody(u.resolvers, e.call, e.Fulfil?);
      }
    }
  }

  /** They stay registered, so the next caller brings them a timer. However the run goes on after it,
      they wait until the first settlement, which settles all of them, fulfilled or rejected, and is by
      a call made for that caller or later if no call was in flight; and it can go on to one. */
  lemma NextCallerRescues(events: seq<Event>, args: Args, more: seq<Event>)
    requires Run(INITIAL, events).Reached? && Run(INITIAL, events + [Call(args)] + more).Reached?
    ensures Covered(Run(INITIAL, events + [Call(args)]).state)
    ensures var s, t := Run(INITIAL, events).state, Run(INITIAL, events + [Call(args)] + more).state;
      var first := FirstSettled(more);
      forall p :: p in s.resolvers || p == s.promises ==>
        if first.None? then p in t.resolvers
        else Settlement(p, first.value.0, first.value.1) in t.settled
             && (s.inFlight == {} ==> first.value.0 >= |s.calls|)
    ensures var s := Run(INITIAL, events).state;
      var after := Run(INITIAL, events + [Call(args)] + [Fire, Fulfil(|s.calls|)]);
      after.Reached? && after.state.resolvers == [] && after.state.calls == s.calls + [args]
  {
    hide FirstSettled;
    var s := Run(INITIAL, events).state;
    var called := events + [Call(args)];
    RunAppend(events, Call(args));
    StrandedExactly(called);
    FirstSettledSettlesAll(called, more, if s.inFlight == {} then |s.calls| else 0);
    RunAppend(called, Fire);
    RunAppend(called + [Fire], Fulfil(|s.calls|));
    assert called + [Fire, Fulfil(|s.calls|)] == called + [Fire] + [Fulfil(|s.calls|)];
  }

  /** A throw that strands the caller, and its rescue by a second one. */
  lemma ThrowStrandsCaller()
    ensures var s := Run(INITIAL, [Call(Args(0)), FireThrows]);
      s.Reached? && s.state.resolvers == [0] && !Covered(s.state)
    ensures var s := Run(INITIAL, [Call(Args(0)), FireThrows, Call(Args(1)), Fire, Fulfil(0)]);
      s.Reached? && s.state.settled == [Settlement(0, 0, true), Settlement(1, 0, true)]
  {
    var stranded := [Call(Args(0)), FireThrows];
    RunAppend([], Call(Args(0)));
    RunAppend([] + [Call(Args(0))], FireThrows);
    assert [] + [Call(Args(0))] + [FireThrows] == stranded;
    RunAppend(stranded, Call(Args(1)));
    RunAppend(stranded + [Call(Args(1))], Fire);
    RunAppend(stranded + [Call(Args(1))] + [Fire], Fulfil(0));
    assert stranded + [Call(Args(1))] + [Fire] + [Fulfil(0)]
           == [Call(Args(0)), FireThrows, Call(Args(1)), Fire, Fulfil(0)];
  }

  /** No caller is lost: on every run both sets hold the same callers, each promise is settled at most
      once, one that is not waiting has been settled, and the waiting ones have a timer or a call in
      flight, except right after a synchronous throw that strands them. */
  lemma {:induction false} NoCallerIsLost(events: seq<Event>)
    requires Run(INITIAL, events).Reached?
    ensures var s := Run(INITIAL, events).state;
      && s.resolvers == s.rejecters
      && (forall i, j :: 0 <= i < j < |s.settled| ==> s.settled[i].promise != s.settled[j].promise)
      && (forall p :: p in s.resolvers ==> forall i :: 0 <= i < |s.settled| ==> s.settled[i].promise != p)
      && (forall p: nat :: p < s.promises ==>
            p in s.resolvers || exists i :: 0 <= i < |s.settled| && s.settled[i].promise == p)
      && (Covered(s) <==> !EndsStranded(events))
  {
    RunIsAccounted(events);
    StrandedExactly(events);
    var s := Run(INITIAL, events).state;
    var done := SettledPromises(s.settled);
    forall i, j | 0 <= i < j < |s.settled| ensures s.settled[i].promise != s.settled[j].promise {
      TwiceCounts(done, i, j);
    }
    forall i | 0 <= i < |s.settled| ensures s.settled[i].promise !in s.resolvers {
      assert done[i] in multiset(done);
    }
    forall p: nat | p < s.promises && p !in s.resolvers
      ensures exists i :: 0 <= i < |s.settled| && s.settled[i].promise == p
    {
      assert p !in multiset(s.resolvers) && p in multiset(done);
      var i :| 0 <= i < |done| && done[i] == p;
      assert s.settled[i].promise == p;
    }
  }

  /** From any covered state at most two more steps settle everybody. */
  lemma EverybodyCanBeSettled(s: State) returns (events: seq<Event>)
    requires Covered(s)
    ensures |events| <= 2 && Run(s, events).Reached? && Run(s, events).state.resolvers == []
  {
    if s.resolvers == [] {
      events := [];
    } else if s.inFlight != {} {
      var call :| call in s.inFlight;
      events := [Fulfil(call)];
      assert events[..0] == [];
    } else {
      events := [Fire, Fulfil(|s.calls|)];
      assert events[..1] == [Fire] && events[..1][..0] == [];
      assert Run(s, [Fire]) == Reached(Next(s, Fire));
    }
  }

  // ----- whose result a caller gets

  function LastArgs(events: seq<Event>): Option<Args> {
    if events == [] then None else
    var n := |events| - 1;
    if events[n].Call? then Some(events[n].args) else LastArgs(events[..n])
  }

  /** A pending timer will call the function with the latest arguments. */
  lemma {:induction false} TimerHasLatestArgs(events: seq<Event>)
    requires Run(INITIAL, events).Reached? && Run(INITIAL, events).state.timer.Some?
    ensures Run(INITIAL, events).state.timer == LastArgs(events)
  {
    var n := |events| - 1;
    if !events[n].Call? {
      TimerHasLatestArgs(events[..n]);
    }
  }

  /** Every call the function got was made by the timer, with the latest arguments of that moment. */
  lemma {:induction false} CallsHaveLatestArgs(events: seq<Event>, call: nat)
    returns (i: nat)
    requires Run(INITIAL, events).Reached? && call < |Run(INITIAL, events).state.calls|
    ensures i < |events| && events[i] == Fire && Some(Run(INITIAL, events).state.calls[call]) == LastArgs(events[..i])
  {
    var n := |events| - 1;
    var before := Run(INITIAL, events[..n]).state;
    if call < |before.calls| {
      i := CallsHaveLatestArgs(events[..n], call);
      assert events[..n][..i] == events[..i];
    } else {
      i := n;
      TimerHasLatestArgs(events[..n]);
    }
  }

  /** A caller is fulfilled only by a fulfilled call and rejected only by a rejected one. */
  lemma {:induction false} SettledAsTheCallWas(events: seq<Event>)
    requires Run(INITIAL, events).Reached?
    ensures forall i :: 0 <= i < |Run(INITIAL, events).state.settled| ==>
      var x := Run(INITIAL, events).state.settled[i];
      if x.ok then Fulfil(x.call) in events else Reject(x.call) in events
  {
    if events != [] {
      var n := |events| - 1;
      SettledAsTheCallWas(events[..n]);
      assert events == events[..n] + [events[n]];
    }
  }

  /** However the run goes on, the caller that invokes the wrapper now is settled by a call of the
      function made after that. */
  ghost predicate SettledByLaterCall(s: State, args: Args) {
    forall events :: Run(Next(s, Call(args)), events).Reached? ==>
      LaterOnly(Run(Next(s, Call(args)), events).state, s.promises, |s.calls|)
  }

  ghost predicate LaterOnly(t: State, promise: nat, calls: nat) {
    forall i :: 0 <= i < |t.settled| && t.settled[i].promise == promise ==> t.settled[i].call >= calls
  }

  /** A caller is certain to get the result of a call made for it exactly when no call is in flight;
      otherwise the call in flight may settle it with a result for older arguments. */
  lemma SettledByLaterCallExactly(before: seq<Event>, args: Args)
    requires Run(INITIAL, before).Reached?
    ensures SettledByLaterCall(Run(INITIAL, before).state, args) <==> Run(INITIAL, before).state.inFlight == {}
  {
    var s := Run(INITIAL, before).state;
    RunIsAccounted(before);
    var t := Next(s, Call(args));
    if s.inFlight == {} {
      forall i | 0 <= i < |s.settled| ensures s.settled[i].promise != s.promises {
        assert SettledPromises(s.settled)[i] in multiset(SettledPromises(s.settled));
      }
      forall events | Run(t, events).Reached? ensures LaterOnly(Run(t, events).state, s.promises, |s.calls|) {
        OnlyLaterCalls(t, events, s.promises, |s.calls|);
      }
    } else {
      var call :| call in s.inFlight;
      var events := [Fulfil(call)];
      assert events[..0] == [];
      var u := Next(t, Fulfil(call));
      assert Run(t, events) == Reached(u);
      var k := |s.settled| + |s.resolvers|;
      assert u.settled[k] == Settlement(s.promises, call, true);
      assert !LaterOnly(u, s.promises, |s.calls|);
    }
  }

  /** The caller of `Args(1)` gets the result of the call made with `Args(0)`. */
  lemma ResultForOlderArgs()
    ensures var s := Run(INITIAL, [Call(Args(0)), Fire, Call(Args(1)), Fulfil(0)]);
      && s.Reached? && s.state.calls == [Args(0)] && s.state.timer == Some(Args(1))
      && s.state.settled == [Settlement(0, 0, true), Settlement(1, 0, true)]
  {
    RunAppend([], Call(Args(0)));
    RunAppend([] + [Call(Args(0))], Fire);
    RunAppend([] + [Call(Args(0))] + [Fire], Call(Args(1)));
    RunAppend([] + [Call(Args(0))] + [Fire] + [Call(Args(1))], Fulfil(0));
    assert [] + [Call(Args(0))] + [Fire] + [Call(Args(1))] + [Fulfil(0)]
           == [Call(Args(0)), Fire, Call(Args(1)), Fulfil(0)];
  }

  lemma {:induction false} OnlyLaterCalls(t: State, events: seq<Event>, promise: nat, calls: nat)
    requires Run(t, events).Reached? && LaterOnly(t, promise, calls)
    requires |t.calls| >= calls && forall call :: call in t.inFlight ==> call >= calls
    ensures var u := Run(t, events).state;
      && LaterOnly(u, promise, calls)
      && |u.calls| >= calls && forall call :: call in u.inFlight ==> call >= calls
  {
    if events != [] {
      var n := |events| - 1;
      OnlyLaterCalls(t, events[..n], promise, calls);
    }
  }

  /** The debounced function with its shared sets. `settled` records which promises were resolved or
      rejected, and by which call. */
  class AsyncDebounce {
    var resolveSet: seq<nat>
    var rejectSet: seq<nat>
    var timer: Option<Args>
    var calls: seq<Args>
    var inFlight: set<nat>
    var settled: seq<Settlement>
    var promises: nat

    ghost function View(): State reads this {
      State(resolveSet, rejectSet, timer, calls, inFlight, settled, promises)
    }

    constructor ()
      ensures View() == INITIAL
    {
      resolveSet, rejectSet, timer, calls, inFlight, settled, promises := [], [], None, [], {}, [], 0;
    }

    method DebouncedWrapper(args: Args) returns (promise: nat)
      modifies this
      ensures View() == Next(old(View()), Call(args)) && promise == old(promises)
    {
      promise := promises;
      promises := promises + 1;
      resolveSet := resolveSet + [promise];
      rejectSet := rejectSet + [promise];
      timer := Some(args);
    }

    method TimerFires() returns (call: nat)
      requires timer.Some?
      modifies this
      ensures View() == Next(old(View()), Fire) && call == old(|calls|)
    {
      call := |calls|;
      calls := calls + [timer.value];
      timer := None;
      inFlight := inFlight + {call};
    }

    /** The `then` callback. */
    method OnFulfilled(call: nat)
      requires call in inFlight
      modifies this
      ensures View() == Next(old(View()), Fulfil(call))
    {
      inFlight := inFlight - {call};
      for i := 0 to |resolveSet|
        invariant unchanged(`resolveSet) && unchanged(`rejectSet) && unchanged(`timer) && unchanged(`calls)
        invariant unchanged(`promises) && inFlight == old(inFlight) - {call}
        invariant settled == old(settled) + Settle(resolveSet[..i], call, true)
      {
        settled := settled + [Settlement(resolveSet[i], call, true)];
      }
      assert resolveSet[..|resolveSet|] == resolveSet;
      resolveSet := [];
      rejectSet := [];
    }

    /** The `catch` callback. */
    method OnRejected(call: nat)
      requires call in inFlight
      modifies this
      ensures View() == Next(old(View()), Reject(call))
    {
      inFlight := inFlight - {call};
      for i := 0 to |rejectSet|
        invariant unchanged(`resolveSet) && unchanged(`rejectSet) && unchanged(`timer) && unchanged(`calls)
        invariant unchanged(`promises) && inFlight == old(inFlight) - {call}
        invariant settled == old(settled) + Settle(rejectSet[..i], call, false)
      {
        settled := settled + [Settlement(rejectSet[i], call, false)];
      }
      assert rejectSet[..|rejectSet|] == rejectSet;
      resolveSet := [];
      rejectSet := [];
    }
  }
}
