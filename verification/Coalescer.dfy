/** internal/coalesce/coalesce.go: concurrent calls for one key share one in-flight operation.

    A `State` is what the mutex protects plus the program counters of the callers and of the
    flight goroutines; each `Action` is one critical section, one channel operation, or one call
    that other goroutines can observe. Flights are identified by their position in `flights`
    (pointer identity in the program), calls of `Do` by an arbitrary number. */
module Coalescers {
  import opened Runs

  type Key(==, !new)
  type Value(==, !new)  // what fn returns: the value together with the error

  type FlightId = nat
  type CallId = nat

  /** The goroutine of a flight: fn is executing; fn has returned; the registry section is over;
      the context has been released by the goroutine's own cancel(); done is closed. */
  datatype Phase = Running | Returned | Unregistered | Released | Closed

  datatype Flight = Flight(key: Key, numWaiters: int, cancelled: bool, phase: Phase, result: Option<Value>)
  {
    /** The goroutine has not yet passed its registry section. */
    predicate Live() { phase.Running? || phase.Returned? }
  }

  /** One call of Do: in the select; past ctx.Done() but not yet in leave; finished either way. */
  datatype Call =
    | Waiting(flight: FlightId)
    | Leaving(flight: FlightId)
    | Received(flight: FlightId, value: Value)
    | GaveUp

  datatype State = State(registry: map<Key, FlightId>, flights: seq<Flight>, calls: map<CallId, Call>)

  datatype Action =
    | Join(call: CallId, key: Key)
    | FnReturns(flight: FlightId, value: Value)
    | Unregister(flight: FlightId)
    | Release(flight: FlightId)
    | CloseDone(flight: FlightId)
    | Receive(call: CallId)
    | ContextDone(call: CallId)
    | Leave(call: CallId)

  ghost predicate Init(s: State) { s == State(map[], [], map[]) }

  predicate InPhase(s: State, f: FlightId, p: Phase) { f < |s.flights| && s.flights[f].phase == p }

  predicate Enabled(s: State, a: Action)
  {
    match a
    case Join(c, k) => c !in s.calls && (k in s.registry ==> s.registry[k] < |s.flights|)
    case FnReturns(f, _) => InPhase(s, f, Running)
    case Unregister(f) => InPhase(s, f, Returned)
    case Release(f) => InPhase(s, f, Unregistered)
    case CloseDone(f) => InPhase(s, f, Released)
    case Receive(c) =>
      && c in s.calls && s.calls[c].Waiting?
      && InPhase(s, s.calls[c].flight, Closed) && s.flights[s.calls[c].flight].result.Some?
    case ContextDone(c) => c in s.calls && s.calls[c].Waiting?
    case Leave(c) => c in s.calls && s.calls[c].Leaving? && s.calls[c].flight < |s.flights|
  }

  /** The registered flight of `k` can be joined: there is one and its context is not done. */
  predicate Joinable(s: State, k: Key)
  {
    k in s.registry && s.registry[k] < |s.flights| && !s.flights[s.registry[k]].cancelled
  }

  function Next(s: State, a: Action): State
    requires Enabled(s, a)
  {
    match a
    case Join(c, k) =>
      if Joinable(s, k) then
        var f := s.registry[k];
        s.(flights := s.flights[f := s.flights[f].(numWaiters := s.flights[f].numWaiters + 1)],
           calls := s.calls[c := Waiting(f)])
      else
        var f := |s.flights|;
        State(s.registry[k := f], s.flights + [Flight(k, 1, false, Running, None)], s.calls[c := Waiting(f)])
    case FnReturns(f, v) =>
      s.(flights := s.flights[f := s.flights[f].(phase := Returned, result := Some(v))])
    case Unregister(f) =>
      var k := s.flights[f].key;
      State(if k in s.registry && s.registry[k] == f then s.registry - {k} else s.registry,
            s.flights[f := s.flights[f].(phase := Unregistered)], s.calls)
    case Release(f) =>
      s.(flights := s.flights[f := s.flights[f].(phase := Released, cancelled := true)])
    case CloseDone(f) =>
      s.(flights := s.flights[f := s.flights[f].(phase := Closed)])
    case Receive(c) =>
      var f := s.calls[c].flight;
      s.(calls := s.calls[c := Received(f, s.flights[f].result.value)])
    case ContextDone(c) =>
      s.(calls := s.calls[c := Leaving(s.calls[c].flight)])
    case Leave(c) =>
      var f := s.calls[c].flight;
      var n := s.flights[f].numWaiters - 1;
      s.(flights := s.flights[f := s.flights[f].(numWaiters := n, cancelled := s.flights[f].cancelled || n == 0)],
         calls := s.calls[c := GaveUp])
  }

  ghost predicate Step(s: State, t: State) { exists a :: Enabled(s, a) && t == Next(s, a) }

  /** The calls that `numWaiters` of `f` counts. */
  ghost function Attached(s: State, f: FlightId): set<CallId>
  {
    set c | c in s.calls && !s.calls[c].GaveUp? && s.calls[c].flight == f
  }

  // ----- the invariant

  ghost predicate RegistryPointsToLive(s: State)
  {
    forall k :: k in s.registry ==>
      s.registry[k] < |s.flights| && s.flights[s.registry[k]].key == k && s.flights[s.registry[k]].Live()
  }

  ghost predicate UncancelledIsRegistered(s: State)
  {
    forall f :: 0 <= f < |s.flights| && s.flights[f].Live() && !s.flights[f].cancelled ==>
      s.flights[f].key in s.registry && s.registry[s.flights[f].key] == f
  }

  ghost predicate FlightInv(s: State, f: FlightId)
    requires f < |s.flights|
  {
    var fl := s.flights[f];
    && fl.numWaiters == |Attached(s, f)|
    && (fl.Live() || fl.phase.Unregistered? ==> (fl.cancelled <==> fl.numWaiters == 0))
    && (fl.phase.Released? || fl.phase.Closed? ==> fl.cancelled)
    && (fl.result.None? <==> fl.phase.Running?)
  }

  ghost predicate CallInv(s: State, c: CallId)
    requires c in s.calls
  {
    && (!s.calls[c].GaveUp? ==> s.calls[c].flight < |s.flights|)
    && (s.calls[c].Received? ==>
          InPhase(s, s.calls[c].flight, Closed) && s.flights[s.calls[c].flight].result == Some(s.calls[c].value))
  }

  ghost predicate Inv(s: State)
  {
    && RegistryPointsToLive(s)
    && UncancelledIsRegistered(s)
    && (forall f :: 0 <= f < |s.flights| ==> FlightInv(s, f))
    && (forall c :: c in s.calls ==> CallInv(s, c))
  }

  /** Which calls are attached after a step, flight by flight. */
  lemma AttachedAfter(s: State, a: Action, f: FlightId)
    requires Inv(s) && Enabled(s, a)
    ensures a.Join? && f == Next(s, a).calls[a.call].flight ==>
      Attached(Next(s, a), f) == Attached(s, f) + {a.call} && a.call !in Attached(s, f)
    ensures a.Leave? && f == s.calls[a.call].flight ==>
      Attached(Next(s, a), f) == Attached(s, f) - {a.call} && a.call in Attached(s, f)
    ensures !(a.Join? && f == Next(s, a).calls[a.call].flight) && !(a.Leave? && f == s.calls[a.call].flight) ==>
      Attached(Next(s, a), f) == Attached(s, f)
  {
  }

  lemma FlightInvPreserved(s: State, a: Action, f: FlightId)
    requires Inv(s) && Enabled(s, a) && f < |Next(s, a).flights|
    ensures FlightInv(Next(s, a), f)
  {
    AttachedAfter(s, a, f);
    if f == |s.flights| {
      assert Attached(s, f) == {};
    } else {
      assert FlightInv(s, f);
    }
  }

  lemma RegistryStaysLive(s: State, a: Action)
    requires Inv(s) && Enabled(s, a)
    ensures RegistryPointsToLive(Next(s, a))
  {
  }

  lemma UncancelledStaysRegistered(s: State, a: Action)
    requires Inv(s) && Enabled(s, a)
    ensures UncancelledIsRegistered(Next(s, a))
  {
  }

  lemma CallInvPreserved(s: State, a: Action, c: CallId)
    requires Inv(s) && Enabled(s, a) && c in Next(s, a).calls
    ensures CallInv(Next(s, a), c)
  {
    assert c in s.calls ==> CallInv(s, c);
  }

  lemma InvPreserved(s: State, a: Action)
    requires Inv(s) && Enabled(s, a)
    ensures Inv(Next(s, a))
  {
    var t := Next(s, a);
    RegistryStaysLive(s, a);
    UncancelledStaysRegistered(s, a);
    forall f | 0 <= f < |t.flights| ensures FlightInv(t, f) {
      FlightInvPreserved(s, a, f);
    }
    forall c | c in t.calls ensures CallInv(t, c) {
      CallInvPreserved(s, a, c);
    }
  }

  lemma ReachableInv(run: seq<State>, i: nat)
    requires IsRun(Init, Step, run) && i < |run|
    ensures Inv(run[i])
  {
    forall s, t | Inv(s) && Step(s, t) ensures Inv(t) {
      var a :| Enabled(s, a) && t == Next(s, a);
      InvPreserved(s, a);
    }
    Stable(Step, Inv, run, 0, i);
  }

  // ----- what every run guarantees

  /** Coalescing and registry discipline, in every reachable state. */
  lemma RegistryDiscipline(run: seq<State>, i: nat)
    requires IsRun(Init, Step, run) && i < |run|
    // at most one running, uncancelled flight per key, and it is the registered one
    ensures forall f, g ::
      0 <= f < |run[i].flights| && 0 <= g < |run[i].flights| && run[i].flights[f].key == run[i].flights[g].key
      && run[i].flights[f].phase.Running? && !run[i].flights[f].cancelled
      && run[i].flights[g].phase.Running? && !run[i].flights[g].cancelled
      ==> f == g && Joinable(run[i], run[i].flights[f].key) && run[i].registry[run[i].flights[f].key] == f
    // a running flight is cancelled exactly when nobody waits for it
    ensures forall f :: 0 <= f < |run[i].flights| && run[i].flights[f].phase.Running? ==>
      (run[i].flights[f].cancelled <==> Attached(run[i], f) == {})
    // numWaiters counts exactly the calls that have joined and not left
    ensures forall f :: 0 <= f < |run[i].flights| ==> run[i].flights[f].numWaiters == |Attached(run[i], f)|
    // a registered flight still has a goroutine that will unregister it
    ensures forall k :: k in run[i].registry ==>
      run[i].registry[k] < |run[i].flights| && run[i].flights[run[i].registry[k]].Live()
  {
    ReachableInv(run, i);
    forall f | 0 <= f < |run[i].flights| && run[i].flights[f].phase.Running?
      ensures run[i].flights[f].cancelled <==> Attached(run[i], f) == {}
    {
      assert FlightInv(run[i], f);
    }
    forall f | 0 <= f < |run[i].flights|
      ensures run[i].flights[f].numWaiters == |Attached(run[i], f)|
    {
      assert FlightInv(run[i], f);
    }
  }

  // ----- when fn executes twice at once for one key

  ghost predicate ExecutesFor(s: State, f: FlightId, k: Key) { InPhase(s, f, Running) && s.flights[f].key == k }

  ghost predicate Executing(s: State, k: Key) { exists f :: ExecutesFor(s, f, k) }

  ghost predicate Overlap(s: State, k: Key)
  {
    exists f, g :: f != g && ExecutesFor(s, f, k) && ExecutesFor(s, g, k)
  }

  /** When fn is executing twice for one key, one of the two executions is an abandoned one: its
      context is cancelled and nobody waits for it. */
  lemma OverlapOnlyWithAbandoned(run: seq<State>, i: nat, f: FlightId, g: FlightId, k: Key)
    requires IsRun(Init, Step, run) && i < |run| && f != g
    requires ExecutesFor(run[i], f, k) && ExecutesFor(run[i], g, k)
    ensures Abandoned(run[i], f) || Abandoned(run[i], g)
  {
    ReachableInv(run, i);
    RegistryDiscipline(run, i);
  }

  /** Which executions for `k` there are after a step: those before it, except one that returned,
      and a new one exactly when a call for `k` finds no flight to join. */
  lemma ExecutesAfter(s: State, a: Action, f: FlightId, k: Key)
    requires Inv(s) && Enabled(s, a)
    ensures ExecutesFor(Next(s, a), f, k) <==>
      || (ExecutesFor(s, f, k) && !(a.FnReturns? && a.flight == f))
      || (a.Join? && a.key == k && !Joinable(s, k) && f == |s.flights|)
  {
  }

  /** Exactly when a step makes fn execute twice at once for `k`: a call for `k` finds fn still
      executing in a flight that cannot be joined any more. */
  lemma OverlapBeginsIff(s: State, a: Action, k: Key)
    requires Inv(s) && Enabled(s, a) && !Overlap(s, k)
    ensures Overlap(Next(s, a), k) <==> a.Join? && a.key == k && !Joinable(s, k) && Executing(s, k)
  {
    var t := Next(s, a);
    if Overlap(t, k) {
      var f, g :| f != g && ExecutesFor(t, f, k) && ExecutesFor(t, g, k);
      ExecutesAfter(s, a, f, k);
      ExecutesAfter(s, a, g, k);
    }
    if a.Join? && a.key == k && !Joinable(s, k) && Executing(s, k) {
      var f :| ExecutesFor(s, f, k);
      ExecutesAfter(s, a, f, k);
      ExecutesAfter(s, a, |s.flights|, k);
    }
  }

  /** The step from `s` to `t` starts a flight for `k`. */
  ghost predicate Starts(s: State, t: State, k: Key)
  {
    |t.flights| == |s.flights| + 1 && t.flights[|s.flights|].key == k
  }

  lemma StartsIff(s: State, a: Action, k: Key)
    requires Inv(s) && Enabled(s, a)
    ensures Starts(s, Next(s, a), k) <==> a.Join? && a.key == k && !Joinable(s, k)
  {
  }

  /** Over a whole run: fn executes at most once per key at any given time if and only if no flight
      is started for a key while fn is still executing for it. */
  lemma AtMostOnceIff(run: seq<State>, k: Key)
    requires IsRun(Init, Step, run)
    ensures (forall i :: 0 <= i < |run| ==> !Overlap(run[i], k)) <==>
      (forall i, j :: 0 <= i && j == i + 1 < |run| && Starts(run[i], run[j], k) ==> !Executing(run[i], k))
  {
    if forall i :: 0 <= i < |run| ==> !Overlap(run[i], k) {
      forall i, j | 0 <= i && j == i + 1 < |run| && Starts(run[i], run[j], k) ensures !Executing(run[i], k) {
        OverlapStep(run, i, k);
      }
    }
    if forall i, j :: 0 <= i && j == i + 1 < |run| && Starts(run[i], run[j], k) ==> !Executing(run[i], k) {
      forall i | 0 <= i < |run| ensures !Overlap(run[i], k) {
        NoOverlapYet(run, i, k);
      }
    }
  }

  lemma OverlapStep(run: seq<State>, i: nat, k: Key)
    requires IsRun(Init, Step, run) && i + 1 < |run| && !Overlap(run[i], k)
    ensures Overlap(run[i + 1], k) <==> Starts(run[i], run[i + 1], k) && Executing(run[i], k)
  {
    ReachableInv(run, i);
    assert Step(run[i], run[i + 1]);
    var a :| Enabled(run[i], a) && run[i + 1] == Next(run[i], a);
    OverlapBeginsIff(run[i], a, k);
    StartsIff(run[i], a, k);
  }

  lemma {:induction false} NoOverlapYet(run: seq<State>, i: nat, k: Key)
    requires IsRun(Init, Step, run) && i < |run|
    requires forall i, j :: 0 <= i && j == i + 1 < |run| && Starts(run[i], run[j], k) ==> !Executing(run[i], k)
    ensures !Overlap(run[i], k)
  {
    if i > 0 {
      NoOverlapYet(run, i - 1, k);
      OverlapStep(run, i - 1, k);
    }
  }

  /** Such an overlap does happen, so fn does not run at most once per key at any given time: the
      only caller leaves, and the next one starts a flight before fn has noticed. */
  lemma OverlapHappens(k: Key) returns (run: seq<State>)
    ensures IsRun(Init, Step, run)
    ensures Overlap(run[|run| - 1], k)
  {
    var s0 := State(map[], [], map[]);
    var s1 := Next(s0, Join(0, k));
    var s2 := Next(s1, ContextDone(0));
    var s3 := Next(s2, Leave(0));
    var s4 := Next(s3, Join(1, k));
    assert Step(s0, s1) && Step(s1, s2) && Step(s2, s3) && Step(s3, s4);
    assert ExecutesFor(s4, 0, k) && ExecutesFor(s4, 1, k);
    run := [s0, s1, s2, s3, s4];
  }

  /** Unregistering a flight removes that flight and no other: a replacement registered in the
      meantime survives and stays joinable, and the finished flight is gone from every key. */
  lemma UnregisterKeepsReplacement(run: seq<State>, i: nat, f: FlightId, k: Key)
    requires IsRun(Init, Step, run) && i < |run| && Enabled(run[i], Unregister(f))
    ensures var t := Next(run[i], Unregister(f));
      if k in run[i].registry && run[i].registry[k] != f
      then k in t.registry && t.registry[k] == run[i].registry[k] && Joinable(t, k) == Joinable(run[i], k)
      else k !in t.registry
  {
    ReachableInv(run, i);
  }

  /** `f` was cancelled and nobody is attached: nobody will ever be attached again. */
  ghost predicate Abandoned(s: State, f: FlightId)
  {
    Inv(s) && f < |s.flights| && s.flights[f].cancelled && Attached(s, f) == {}
  }

  lemma AbandonedForever(s: State, t: State, f: FlightId)
    requires Abandoned(s, f) && Step(s, t)
    ensures Abandoned(t, f)
  {
    var a :| Enabled(s, a) && t == Next(s, a);
    InvPreserved(s, a);
    AttachedAfter(s, a, f);
  }

  /** The central promise: whatever other callers do, a result received through done was
      produced by an execution of fn whose context was never cancelled while fn was running. */
  lemma ResultsAreUninterrupted(run: seq<State>, i: nat, j: nat, c: CallId)
    requires IsRun(Init, Step, run) && i < |run| && j < |run|
    requires c in run[j].calls && run[j].calls[c].Received?
    ensures var f := run[j].calls[c].flight;
      && InPhase(run[j], f, Closed) && run[j].flights[f].result == Some(run[j].calls[c].value)
      && (InPhase(run[i], f, Running) ==> !run[i].flights[f].cancelled)
  {
    var f := run[j].calls[c].flight;
    ReachableInv(run, i);
    ReachableInv(run, j);
    assert CallInv(run[j], c) && c in Attached(run[j], f);
    if InPhase(run[i], f, Running) && run[i].flights[f].cancelled {
      assert FlightInv(run[i], f);
      if i <= j {
        forall s, t | Abandoned(s, f) && Step(s, t) ensures Abandoned(t, f) {
          AbandonedForever(s, t, f);
        }
        Stable(Step, s => Abandoned(s, f), run, i, j);
      } else {
        ClosedForever(run, j, i, f);
      }
    }
  }

  lemma ClosedForever(run: seq<State>, i: nat, j: nat, f: FlightId)
    requires IsRun(Init, Step, run) && i <= j < |run| && InPhase(run[i], f, Closed)
    ensures InPhase(run[j], f, Closed)
  {
    forall s, t | InPhase(s, f, Closed) && Step(s, t) ensures InPhase(t, f, Closed) {
    }
    Stable(Step, s => InPhase(s, f, Closed), run, i, j);
  }

  /** `f` has left the registry and `c`, if it has been called at all, is not attached to it. */
  ghost predicate OutOfReach(s: State, f: FlightId, c: CallId)
  {
    Inv(s) && f < |s.flights| && !s.flights[f].Live() && c !in Attached(s, f)
  }

  /** Freshness: a call that begins after a flight has unregistered never receives that
      flight's result, nor waits for it. */
  lemma NoStaleResults(run: seq<State>, i: nat, j: nat, f: FlightId, c: CallId)
    requires IsRun(Init, Step, run) && i <= j < |run|
    requires c !in run[i].calls && f < |run[i].flights| && !run[i].flights[f].Live()
    ensures c !in Attached(run[j], f)
  {
    ReachableInv(run, i);
    forall s, t | OutOfReach(s, f, c) && Step(s, t) ensures OutOfReach(t, f, c) {
      var a :| Enabled(s, a) && t == Next(s, a);
      InvPreserved(s, a);
      AttachedAfter(s, a, f);
    }
    Stable(Step, s => OutOfReach(s, f, c), run, i, j);
  }

  /** The goroutine actions still ahead of a flight, in order, if fn returns `v`. */
  function RemainingActions(p: Phase, f: FlightId, v: Value): seq<Action>
  {
    match p
    case Running => [FnReturns(f, v), Unregister(f), Release(f), CloseDone(f)]
    case Returned => [Unregister(f), Release(f), CloseDone(f)]
    case Unregistered => [Release(f), CloseDone(f)]
    case Released => [CloseDone(f)]
    case Closed => []
  }

  ghost predicate Runnable(s: State, actions: seq<Action>)
    decreases |actions|
  {
    actions == [] || (Enabled(s, actions[0]) && Runnable(Next(s, actions[0]), actions[1..]))
  }

  ghost function After(s: State, actions: seq<Action>): State
    requires Runnable(s, actions)
    decreases |actions|
  {
    if actions == [] then s else After(Next(s, actions[0]), actions[1..])
  }

  /** No waiter is stranded: from every reachable state the flight's own goroutine, once fn
      returns, runs to the end unaided and the waiter then receives a result. */
  lemma WaiterCanFinish(run: seq<State>, i: nat, c: CallId, v: Value)
    requires IsRun(Init, Step, run) && i < |run|
    requires c in run[i].calls && run[i].calls[c].Waiting?
    ensures var f := run[i].calls[c].flight;
      && f < |run[i].flights|
      && var todo := RemainingActions(run[i].flights[f].phase, f, v) + [Receive(c)];
      && Runnable(run[i], todo)
      && c in After(run[i], todo).calls && After(run[i], todo).calls[c].Received?
      && (run[i].flights[f].phase.Running? ==> After(run[i], todo).calls[c].value == v)
  {
    ReachableInv(run, i);
    assert CallInv(run[i], c);
    var f := run[i].calls[c].flight;
    assert FlightInv(run[i], f);
    GoroutineFinishes(run[i], f, c, v);
  }

  lemma {:induction false} GoroutineFinishes(s: State, f: FlightId, c: CallId, v: Value)
    requires f < |s.flights| && c in s.calls && s.calls[c] == Waiting(f)
    requires s.flights[f].result.None? <==> s.flights[f].phase.Running?
    ensures var todo := RemainingActions(s.flights[f].phase, f, v) + [Receive(c)];
      && Runnable(s, todo)
      && c in After(s, todo).calls && After(s, todo).calls[c].Received?
      && After(s, todo).calls[c].value == (if s.flights[f].phase.Running? then v else s.flights[f].result.value)
    decreases |RemainingActions(s.flights[f].phase, f, v)|
  {
    var rest := RemainingActions(s.flights[f].phase, f, v);
    if rest == [] {
      assert Next(s, Receive(c)).calls[c].Received?;
      assert Runnable(Next(s, Receive(c)), ([] + [Receive(c)])[1..]);
    } else {
      var t := Next(s, rest[0]);
      GoroutineFinishes(t, f, c, v);
      assert rest[1..] == RemainingActions(t.flights[f].phase, f, v);
      assert (rest + [Receive(c)])[1..] == rest[1..] + [Receive(c)];
    }
  }

  /** Anybody can call Do at any time. The call shares the flight of its key that is live and not
      cancelled, if there is one; if there is none it starts one, for its key, with itself as the
      only waiter, and nothing else changes. */
  lemma AnyoneCanJoin(run: seq<State>, i: nat, c: CallId, k: Key)
    requires IsRun(Init, Step, run) && i < |run| && c !in run[i].calls
    ensures Enabled(run[i], Join(c, k))
    ensures var s, t := run[i], Next(run[i], Join(c, k));
      c in t.calls && t.calls[c].Waiting? && t.calls == s.calls[c := Waiting(t.calls[c].flight)] &&
      var f := t.calls[c].flight;
      if exists g :: 0 <= g < |s.flights| && s.flights[g].key == k && s.flights[g].Live() && !s.flights[g].cancelled
      then
        && f < |s.flights| && s.flights[f].key == k && s.flights[f].Live() && !s.flights[f].cancelled
        && t.registry == s.registry
        && t.flights == s.flights[f := s.flights[f].(numWaiters := s.flights[f].numWaiters + 1)]
      else
        && f == |s.flights| && t.registry == s.registry[k := f]
        && t.flights == s.flights + [Flight(k, 1, false, Running, None)]
  {
    ReachableInv(run, i);
  }

  /** Leaving is always possible: a waiting call whose context is done gets out by its own two steps,
      however many others wait. It gives up, its flight counts one waiter less and is cancelled if
      that was the last, and nothing else changes. */
  lemma CallerCanLeave(run: seq<State>, i: nat, c: CallId)
    requires IsRun(Init, Step, run) && i < |run|
    requires c in run[i].calls && run[i].calls[c].Waiting?
    ensures Enabled(run[i], ContextDone(c)) && Enabled(Next(run[i], ContextDone(c)), Leave(c))
    ensures var s, t := run[i], Next(Next(run[i], ContextDone(c)), Leave(c));
      var f := s.calls[c].flight;
      && f < |s.flights| && s.flights[f].numWaiters == |Attached(s, f)|
      && t.calls == s.calls[c := GaveUp] && t.registry == s.registry
      && |t.flights| == |s.flights| && (forall g :: 0 <= g < |s.flights| && g != f ==> t.flights[g] == s.flights[g])
      && t.flights[f] ==
           s.flights[f].(numWaiters := s.flights[f].numWaiters - 1, cancelled := t.flights[f].cancelled)
      && t.flights[f].cancelled == (s.flights[f].cancelled || s.flights[f].numWaiters == 1)
  {
    ReachableInv(run, i);
    assert CallInv(run[i], c);
    assert FlightInv(run[i], run[i].calls[c].flight);
  }

  /** What a call ends with: a result only through a closed flight, and nothing only after its
      context was done. */
  lemma CallEndsOneOfTwoWays(s: State, a: Action, c: CallId)
    requires Enabled(s, a) && c in s.calls
    ensures var t := Next(s, a);
      && c in t.calls
      && (t.calls[c] == s.calls[c]
          || (s.calls[c].Waiting? && t.calls[c] == Leaving(s.calls[c].flight))
          || (s.calls[c].Leaving? && t.calls[c].GaveUp?)
          || (s.calls[c].Waiting? && t.calls[c].Received? && t.calls[c].flight == s.calls[c].flight
              && InPhase(s, s.calls[c].flight, Closed)
              && s.flights[s.calls[c].flight].result == Some(t.calls[c].value)))
  {
  }

  // ----- the critical sections as code

  /** The Coalescer object. Each method is one critical section or channel operation of
      coalesce.go; the calls in flight are tracked as ghost state. */
  class Coalescer {
    var registry: map<Key, FlightId>
    var flights: seq<Flight>
    ghost var calls: map<CallId, Call>

    ghost function View(): State
      reads this
    {
      State(registry, flights, calls)
    }

    constructor ()
      ensures Init(View())
    {
      registry, flights, calls := map[], [], map[];
    }

    /** The locked section at the top of Do, including start. */
    method JoinOrStart(ghost c: CallId, key: Key) returns (f: FlightId, startNew: bool)
      requires Inv(View()) && c !in calls
      modifies this
      ensures View() == Next(old(View()), Join(c, key)) && Inv(View())
      ensures calls == old(calls)[c := Waiting(f)] && f < |flights| && flights[f].key == key && !flights[f].cancelled
      ensures if startNew then f == |old(flights)| && registry == old(registry)[key := f] && flights[f].numWaiters == 1
        else f < |old(flights)| && registry == old(registry) && flights[f].numWaiters == old(flights)[f].numWaiters + 1
      ensures startNew <==> !Joinable(old(View()), key)
    {
      ghost var before := View();
      startNew := true;
      if key in registry {
        f := registry[key];
        startNew := flights[f].cancelled;
      }
      if startNew {
        f := |flights|;
        flights := flights + [Flight(key, 0, false, Running, None)];
        registry := registry[key := f];
      }
      flights := flights[f := flights[f].(numWaiters := flights[f].numWaiters + 1)];
      calls := calls[c := Waiting(f)];
      assert View() == Next(before, Join(c, key));
      InvPreserved(before, Join(c, key));
      assert UncancelledIsRegistered(before) && RegistryPointsToLive(before);
    }

    /** leave: the last one out cancels the flight's context. */
    method LeaveFlight(ghost c: CallId, f: FlightId)
      requires Inv(View()) && c in calls && calls[c] == Leaving(f)
      modifies this
      ensures View() == Next(old(View()), Leave(c)) && Inv(View())
      ensures registry == old(registry) && calls == old(calls)[c := GaveUp]
      ensures f < |flights| == |old(flights)|
      ensures flights[f].numWaiters == old(flights)[f].numWaiters - 1
      ensures flights[f].cancelled == (old(flights)[f].cancelled || flights[f].numWaiters == 0)
    {
      ghost var before := View();
      assert CallInv(before, c);
      flights := flights[f := flights[f].(numWaiters := flights[f].numWaiters - 1)];
      if flights[f].numWaiters == 0 {
        flights := flights[f := flights[f].(cancelled := true)];
      }
      calls := calls[c := GaveUp];
      assert View() == Next(before, Leave(c));
      InvPreserved(before, Leave(c));
    }

    /** The locked section at the end of the flight goroutine. */
    method UnregisterFlight(f: FlightId)
      requires Inv(View()) && Enabled(View(), Unregister(f))
      modifies this
      ensures View() == Next(old(View()), Unregister(f)) && Inv(View())
    {
      ghost var before := View();
      var key := flights[f].key;
      if key in registry && registry[key] == f {
        registry := registry - {key};
      }
      flights := flights[f := flights[f].(phase := Unregistered)];
      InvPreserved(before, Unregister(f));
    }
  }
}
