/** services/gateway/timedwaitgroup.go: the wait group the gateway drains its sessions with.

    The counter is decremented outside the mutex, so Done is two steps: the atomic decrement and,
    when it reached zero, the locked section. Wait is four: closing the group under the mutex,
    loading the counter, and then either signalling or blocking in the select. Deadlines and
    context cancellation are the `Expire` step, which may happen at any time. */
module TimedWaitGroups {
  import opened Runs

  type ThreadId = nat

  /** The sign of drainingTimeout, which is all that Wait looks at. */
  datatype Timeout = Zero | Limited | Unlimited

  /** Where a Done or a Wait call is. */
  datatype Pc =
    | DonePending      // decremented to zero, not yet in the locked section
    | DoneFinished
    | WaitClosed       // group closed, counter not yet loaded
    | WaitSignalling   // saw zero (or has no timeout), about to signal and return nil
    | WaitBlocked
    | WaitNil
    | WaitError

  datatype State = State(timeout: Timeout, closed: bool, count: int, complete: bool, threads: map<ThreadId, Pc>)

  datatype Action =
    | Add(delta: nat)
    | Decrement(thread: ThreadId)
    | DoneLocked(thread: ThreadId)
    | CloseGroup(thread: ThreadId)
    | LoadCount(thread: ThreadId)
    | Signal(thread: ThreadId)
    | Wake(thread: ThreadId)
    | Expire(thread: ThreadId)

  ghost predicate Init(s: State) { !s.closed && s.count == 0 && !s.complete && s.threads == map[] }

  predicate At(s: State, t: ThreadId, pc: Pc) { t in s.threads && s.threads[t] == pc }

  predicate Enabled(s: State, a: Action)
  {
    match a
    case Add(_) => true
    case Decrement(t) => t !in s.threads
    case DoneLocked(t) => At(s, t, DonePending)
    case CloseGroup(t) => t !in s.threads
    case LoadCount(t) => At(s, t, WaitClosed)
    case Signal(t) => At(s, t, WaitSignalling)
    case Wake(t) => At(s, t, WaitBlocked) && s.complete
    case Expire(t) => At(s, t, WaitBlocked)
  }

  function Next(s: State, a: Action): State
    requires Enabled(s, a)
  {
    match a
    case Add(delta) => if s.closed then s else s.(count := s.count + delta)
    case Decrement(t) =>
      s.(count := s.count - 1, threads := s.threads[t := if s.count == 1 then DonePending else DoneFinished])
    case DoneLocked(t) => s.(complete := s.complete || s.closed, threads := s.threads[t := DoneFinished])
    case CloseGroup(t) => s.(closed := true, threads := s.threads[t := WaitClosed])
    case LoadCount(t) =>
      s.(threads := s.threads[t := if s.count == 0 || s.timeout.Zero? then WaitSignalling else WaitBlocked])
    case Signal(t) => s.(complete := true, threads := s.threads[t := WaitNil])
    case Wake(t) => s.(threads := s.threads[t := WaitNil])
    case Expire(t) => s.(threads := s.threads[t := WaitError])
  }

  ghost predicate Step(s: State, t: State) { exists a :: Enabled(s, a) && t == Next(s, a) }

  lemma Steps(s: State, a: Action)
    requires Enabled(s, a)
    ensures Step(s, Next(s, a))
  {
  }

  ghost predicate Present(s: State, pc: Pc) { exists t :: At(s, t, pc) }

  // ----- no lost wake-up

  ghost predicate Inv(s: State)
  {
    && (Present(s, WaitClosed) || Present(s, WaitSignalling) || Present(s, WaitBlocked) ==> s.closed)
    && (Present(s, WaitNil) || Present(s, WaitError) || s.complete ==> s.closed)
    && (Present(s, WaitBlocked) && s.count == 0 ==> s.complete || Present(s, DonePending))
  }

  lemma InvPreserved(s: State, a: Action)
    requires Inv(s) && Enabled(s, a)
    ensures Inv(Next(s, a))
  {
    var n := Next(s, a);
    if !n.closed {
      forall t, pc ensures At(n, t, pc) ==> pc.DonePending? || pc.DoneFinished? {
        assert At(s, t, pc) ==> Present(s, pc);
      }
    }
    if Present(n, WaitBlocked) && n.count == 0 && !n.complete {
      var w :| At(n, w, WaitBlocked);
      if a.Decrement? {
        assert At(n, a.thread, DonePending);
      } else {
        assert At(s, w, WaitBlocked) && Present(s, WaitBlocked);
        var d :| At(s, d, DonePending);
        assert At(n, d, DonePending);
      }
    }
  }

  lemma ReachableInv(run: seq<State>, i: nat)
    requires IsRun(Init, Step, run) && i < |run|
    ensures Inv(run[i])
  {
    forall s, t | Inv(s) && Step(s, t) ensures Inv(t) {
      var a :| Enabled(s, a) && t == Next(s, a);
      InvPreserved(s, a);
    }
    Stable(Step, Inv, run, 0, i);
  }

  /** No lost wake-up, under every interleaving: a Wait that is blocked while the count is zero
      can return now, or some Done is about to enter the section that lets it return. */
  lemma NoLostWakeup(run: seq<State>, i: nat, w: ThreadId)
    requires IsRun(Init, Step, run) && i < |run|
    requires At(run[i], w, WaitBlocked) && run[i].count == 0
    ensures Enabled(run[i], Wake(w)) ||
      exists d :: Enabled(run[i], DoneLocked(d)) && Enabled(Next(run[i], DoneLocked(d)), Wake(w))
  {
    ReachableInv(run, i);
    assert Present(run[i], WaitBlocked);
    if !run[i].complete {
      var d :| At(run[i], d, DonePending);
      assert Enabled(run[i], DoneLocked(d)) && Enabled(Next(run[i], DoneLocked(d)), Wake(w));
    }
  }

  /** Once the group is closed the count never rises. */
  lemma CountNeverRisesAfterClose(path: seq<State>, i: nat, j: nat)
    requires IsPath(Step, path) && i <= j < |path| && path[i].closed
    ensures path[j].closed && path[j].count <= path[i].count
  {
    var limit := path[i].count;
    forall s: State, t: State | s.closed && s.count <= limit && Step(s, t) ensures t.closed && t.count <= limit {
    }
    Stable(Step, (s: State) => s.closed && s.count <= limit, path, i, j);
  }

  // ----- what Wait returns

  /** A Wait on a group without open sessions, or without a timeout, returns nil by its own three
      steps, which close the group and signal completion; any other Wait blocks. */
  lemma WaitReturnsOrBlocks(s: State, w: ThreadId)
    requires w !in s.threads
    ensures Enabled(s, CloseGroup(w)) && Enabled(Next(s, CloseGroup(w)), LoadCount(w))
    ensures var loaded := Next(Next(s, CloseGroup(w)), LoadCount(w));
      if s.count == 0 || s.timeout.Zero?
      then Enabled(loaded, Signal(w)) &&
           Next(loaded, Signal(w)) == State(s.timeout, true, s.count, true, s.threads[w := WaitNil])
      else loaded == State(s.timeout, true, s.count, s.complete, s.threads[w := WaitBlocked])
  {
  }

  /** A blocked Wait returns nil as soon as completion is signalled, and an error when it expires;
      neither changes anything else. */
  lemma BlockedWaitReturns(s: State, w: ThreadId)
    requires At(s, w, WaitBlocked)
    ensures s.complete ==> Enabled(s, Wake(w)) && Next(s, Wake(w)) == s.(threads := s.threads[w := WaitNil])
    ensures Enabled(s, Expire(w)) && Next(s, Expire(w)) == s.(threads := s.threads[w := WaitError])
  {
  }

  /** A Wait is at most where its steps have taken it: nil comes from a signalled completion or from
      the Wait's own signal, an error only from a blocked Wait, and what has returned stays so. */
  lemma WaitOutcome(s: State, a: Action, w: ThreadId)
    requires Enabled(s, a)
    ensures var n := Next(s, a);
      && (At(n, w, WaitNil) && !At(s, w, WaitNil) ==>
            n.complete && (At(s, w, WaitSignalling) || (At(s, w, WaitBlocked) && s.complete)))
      && (At(n, w, WaitError) && !At(s, w, WaitError) ==> At(s, w, WaitBlocked))
      && (At(s, w, WaitNil) ==> At(n, w, WaitNil)) && (At(s, w, WaitError) ==> At(n, w, WaitError))
      && (At(n, w, WaitSignalling) && !At(s, w, WaitSignalling) ==>
            At(s, w, WaitClosed) && (s.count == 0 || s.timeout.Zero?))
  {
  }

  /** Over every run: a Wait that returned an error was blocked before, so it had found sessions open
      and a timeout that is not zero. */
  lemma {:induction false} ErrorMeansItBlocked(run: seq<State>, j: nat, w: ThreadId)
    requires IsRun(Init, Step, run) && j < |run| && At(run[j], w, WaitError)
    ensures exists i :: 0 <= i < j && At(run[i], w, WaitBlocked)
  {
    assert j > 0 ==> Step(run[j - 1], run[j]);
    ErrorStep(run[j - 1], run[j], w);
    if At(run[j - 1], w, WaitError) {
      ErrorMeansItBlocked(run, j - 1, w);
    }
  }

  lemma ErrorStep(s: State, t: State, w: ThreadId)
    requires Step(s, t) && At(t, w, WaitError)
    ensures At(s, w, WaitError) || At(s, w, WaitBlocked)
  {
    var a :| Enabled(s, a) && t == Next(s, a);
    WaitOutcome(s, a, w);
  }

  // ----- when Wait may return nil although sessions are still open

  /** Some Wait has returned nil although the counter is still positive. */
  ghost predicate ReturnedEarly(s: State) { Present(s, WaitNil) && s.count > 0 }

  /** `path` continues `s` by some Wait closing the group and ends with an early return. */
  ghost predicate EarlyContinuation(s: State, w: ThreadId, path: seq<State>)
  {
    && Enabled(s, CloseGroup(w))
    && 0 < |path| && path[0] == Next(s, CloseGroup(w))
    && IsPath(Step, path)
    && ReturnedEarly(path[|path| - 1])
  }

  /** The state of an open group in which a Done that reached zero has not yet taken the lock
      although new sessions have been added since. */
  ghost predicate StaleDone(s: State) { s.count > 0 && Present(s, DonePending) }

  ghost predicate ClosedClean(s: State)
  {
    && s.closed && !s.timeout.Zero?
    && (s.count > 0 ==>
          !s.complete && !Present(s, DonePending) && !Present(s, WaitSignalling) && !Present(s, WaitNil))
  }

  lemma ClosedCleanPreserved(s: State, a: Action)
    requires ClosedClean(s) && Enabled(s, a)
    ensures ClosedClean(Next(s, a))
  {
    var n := Next(s, a);
    if n.count > 0 {
      forall t, pc | At(n, t, pc) ensures !pc.DonePending? && !pc.WaitSignalling? && !pc.WaitNil? {
        if a.Add? || a.thread != t {
          assert At(s, t, pc) && Present(s, pc);
        } else {
          assert At(s, t, DonePending) ==> Present(s, DonePending);
          assert At(s, t, WaitSignalling) ==> Present(s, WaitSignalling);
        }
      }
    }
  }

  /** Exactly when draining can end early. For any reachable open group with a non-zero timeout,
      a Wait that closes it now can lead to a nil return with sessions still open if and only if
      the group is being closed over a stale Done. */
  lemma EarlyReturnIffStaleDone(run: seq<State>, i: nat)
    requires IsRun(Init, Step, run) && i < |run|
    requires !run[i].closed && !run[i].timeout.Zero?
    ensures (exists w, path :: EarlyContinuation(run[i], w, path)) <==> StaleDone(run[i])
  {
    var s := run[i];
    ReachableInv(run, i);
    if StaleDone(s) {
      var d :| At(s, d, DonePending);
      var w := FreshThread(s);
      var s1 := Next(s, CloseGroup(w));
      var s2 := Next(s1, LoadCount(w));
      assert At(s2, w, WaitBlocked) && At(s2, d, DonePending);
      var s3 := Next(s2, DoneLocked(d));
      var s4 := Next(s3, Wake(w));
      Steps(s1, LoadCount(w));
      Steps(s2, DoneLocked(d));
      Steps(s3, Wake(w));
      assert At(s4, w, WaitNil);
      assert EarlyContinuation(s, w, [s1, s2, s3, s4]);
    } else {
      forall w, path | EarlyContinuation(s, w, path) ensures false {
        assert !Present(s, WaitSignalling) && !Present(s, WaitNil);
        assert forall t, pc :: At(path[0], t, pc) ==> At(s, t, pc) || pc.WaitClosed?;
        assert ClosedClean(path[0]);
        forall x, y | ClosedClean(x) && Step(x, y) ensures ClosedClean(y) {
          var a :| Enabled(x, a) && y == Next(x, a);
          ClosedCleanPreserved(x, a);
        }
        Stable(Step, ClosedClean, path, 0, |path| - 1);
      }
    }
  }

  /** Such states are reachable: one session ends, and before its Done has taken the lock a new
      session begins. */
  lemma StaleDoneIsReachable() returns (run: seq<State>)
    ensures IsRun(Init, Step, run) && run[0].timeout.Unlimited?
    ensures !run[|run| - 1].closed && run[|run| - 1].timeout.Unlimited? && StaleDone(run[|run| - 1])
  {
    var s0 := State(Unlimited, false, 0, false, map[]);
    var s1 := Next(s0, Add(1));
    var s2 := Next(s1, Decrement(0));
    var s3 := Next(s2, Add(1));
    Steps(s0, Add(1));
    Steps(s1, Decrement(0));
    Steps(s2, Add(1));
    assert At(s3, 0, DonePending);
    run := [s0, s1, s2, s3];
  }

  lemma FreshThread(s: State) returns (t: ThreadId)
    ensures t !in s.threads
  {
    t := FreshNat(s.threads.Keys);
  }

  lemma {:induction false} FreshNat(used: set<nat>) returns (n: nat)
    ensures forall x :: x in used ==> x < n
    decreases |used|
  {
    if used == {} {
      n := 0;
    } else {
      var x :| x in used;
      var m := FreshNat(used - {x});
      n := if m <= x then x + 1 else m;
      assert forall y :: y in used ==> y == x || y in used - {x};
    }
  }

  // ----- draining is exact under the wait-group discipline

  /** The discipline of a client that matches every Done with an Add and lets no Add land between
      a Done that reached zero and its locked section. */
  ghost predicate Disciplined(s: State, a: Action)
  {
    && (a.Decrement? ==> s.count > 0)
    && (a.Add? && a.delta > 0 ==> !Present(s, DonePending))
  }

  ghost predicate DisciplinedStep(s: State, t: State)
  {
    exists a :: Enabled(s, a) && Disciplined(s, a) && t == Next(s, a)
  }

  ghost predicate Drained(s: State)
  {
    && s.count >= 0
    && (Present(s, DonePending) ==> s.count == 0)
    && (!s.timeout.Zero? && (s.complete || Present(s, WaitSignalling) || Present(s, WaitNil)) ==>
      s.closed && s.count == 0)
    && (Present(s, WaitClosed) || Present(s, WaitSignalling) || Present(s, WaitBlocked) ==> s.closed)
  }

  lemma DrainedPreserved(s: State, a: Action)
    requires Drained(s) && Enabled(s, a) && Disciplined(s, a)
    ensures Drained(Next(s, a))
  {
    var n := Next(s, a);
    forall t, pc | At(n, t, pc)
      ensures At(s, t, pc) || (!a.Add? && a.thread == t)
      ensures At(s, t, pc) ==> Present(s, pc)
    {
    }
    if a.LoadCount? { assert Present(s, WaitClosed); }
    if a.Signal? { assert Present(s, WaitSignalling); }
    if a.DoneLocked? { assert Present(s, DonePending); }
    if a.Wake? || a.Expire? { assert Present(s, WaitBlocked); }
  }

  /** With a non-zero timeout, in every disciplined run a Wait that returned nil has drained the
      group: the count is zero when it returns and ever after. */
  lemma NilMeansDrained(run: seq<State>, i: nat, w: ThreadId)
    requires IsRun(Init, DisciplinedStep, run) && i < |run|
    requires !run[i].timeout.Zero? && At(run[i], w, WaitNil)
    ensures run[i].closed && run[i].count == 0
  {
    forall s, t | Drained(s) && DisciplinedStep(s, t) ensures Drained(t) {
      var a :| Enabled(s, a) && Disciplined(s, a) && t == Next(s, a);
      DrainedPreserved(s, a);
    }
    Stable(DisciplinedStep, Drained, run, 0, i);
    assert Present(run[i], WaitNil);
  }

  // ----- the methods as code

  datatype AddResult = Added | DrainerClosed | Panicked

  /** The wait group itself; each method is one atomic section of timedwaitgroup.go. */
  class TimedWaitGroup {
    const timeout: Timeout
    var closed: bool
    var count: int
    var complete: bool
    ghost var threads: map<ThreadId, Pc>

    ghost function View(): State
      reads this
    {
      State(timeout, closed, count, complete, threads)
    }

    constructor (timeout: Timeout)
      ensures Init(View()) && this.timeout == timeout
    {
      this.timeout := timeout;
      closed, count, complete, threads := false, 0, false, map[];
    }

    method AddSessions(delta: int) returns (r: AddResult)
      modifies this
      ensures r == if delta < 0 then Panicked else if old(closed) then DrainerClosed else Added
      ensures View() == if delta < 0 then old(View()) else Next(old(View()), Add(delta))
      ensures count == old(count) + (if r.Added? then delta else 0)
      ensures closed == old(closed) && complete == old(complete) && threads == old(threads)
    {
      if delta < 0 {
        return Panicked;
      }
      if closed {
        return DrainerClosed;
      }
      count := count + delta;
      return Added;
    }

    /** The atomic decrement of Done; `last` says whether the locked section follows. */
    method DecrementCount(ghost t: ThreadId) returns (last: bool)
      requires t !in threads
      modifies this
      ensures View() == Next(old(View()), Decrement(t))
      ensures count == old(count) - 1 && last == (count == 0)
      ensures threads == old(threads)[t := if last then DonePending else DoneFinished]
    {
      count := count - 1;
      last := count == 0;
      threads := threads[t := if last then DonePending else DoneFinished];
    }

    /** The locked section of Done. */
    method CompleteIfClosed(ghost t: ThreadId)
      requires At(View(), t, DonePending)
      modifies this
      ensures View() == Next(old(View()), DoneLocked(t))
      ensures complete == (old(complete) || closed) && closed == old(closed) && count == old(count)
    {
      if closed {
        complete := true;
      }
      threads := threads[t := DoneFinished];
    }

    /** The locked section of Wait. */
    method Close(ghost t: ThreadId)
      requires t !in threads
      modifies this
      ensures View() == Next(old(View()), CloseGroup(t))
      ensures closed && count == old(count) && complete == old(complete)
    {
      closed := true;
      threads := threads[t := WaitClosed];
    }

    /** Wait after closing: decide whether to return nil at once or to block. */
    method Load(ghost t: ThreadId) returns (now: bool)
      requires At(View(), t, WaitClosed)
      modifies this
      ensures View() == Next(old(View()), LoadCount(t))
      ensures now == (count == 0 || timeout.Zero?)
      ensures threads == old(threads)[t := if now then WaitSignalling else WaitBlocked]
    {
      now := count == 0 || timeout.Zero?;
      threads := threads[t := if now then WaitSignalling else WaitBlocked];
    }

    /** signalCompletion as Wait calls it, followed by the return of nil. */
    method SignalCompletion(ghost t: ThreadId)
      requires At(View(), t, WaitSignalling)
      modifies this
      ensures View() == Next(old(View()), Signal(t))
      ensures complete && threads == old(threads)[t := WaitNil] && closed == old(closed) && count == old(count)
    {
      complete := true;
      threads := threads[t := WaitNil];
    }
  }
}
