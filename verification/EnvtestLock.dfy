/** internal/envtestutil/envtestutil.go: test processes share one directory of downloaded binaries.

    startControlPlane double-checks a ready marker around a file lock that is taken exclusively
    for the first start, which downloads, and shared for every later one. Any number of processes
    run it, and any of them may crash between any two steps, which releases its locks and leaves
    half-written binaries behind. */
module EnvtestLock {
  import opened Runs

  type Pid = nat

  datatype Binaries = Absent | Partial | Complete

  /** Where a process is in startControlPlane. */
  datatype Pc =
    | Entered
    | WantExclusive    // saw no marker
    | HoldsExclusive   // marker not yet checked again
    | Starting         // in testEnv.Start under the exclusive lock
    | Writing          // downloading
    | Executing        // executing the binaries
    | Started          // start succeeded, marker not yet written
    | MustRelease(ok: bool)  // about to unlock and return what the start returned
    | MustReacquire    // the marker appeared meanwhile: about to unlock and go shared
    | WantShared
    | HoldsShared
    | SharedWriting    // what testEnv.Start would do with incomplete binaries
    | SharedExecuting
    | MustReleaseShared(ok: bool)
    | Finished(ok: bool)     // whether the start succeeded
    | Crashed
  {
    predicate Exclusive() {
      HoldsExclusive? || Starting? || Writing? || Executing? || Started? || MustRelease? || MustReacquire?
    }
    predicate Shared() { HoldsShared? || SharedWriting? || SharedExecuting? || MustReleaseShared? }
    predicate Writes() { Writing? || SharedWriting? }
    predicate Executes() { Executing? || SharedExecuting? }
  }

  datatype State = State(
    marker: bool,
    binaries: Binaries,
    exclusive: Option<Pid>,
    shared: set<Pid>,
    procs: map<Pid, Pc>)

  datatype Action =
    | Enter(p: Pid)
    | FirstCheck(p: Pid)
    | LockExclusive(p: Pid)
    | SecondCheck(p: Pid)
    | BeginDownload(p: Pid)
    | EndDownload(p: Pid)
    | UseComplete(p: Pid)      // complete binaries without a marker: a predecessor crashed late
    | StartFails(p: Pid)
    | StartSucceeds(p: Pid)
    | WriteMarker(p: Pid)
    | UnlockExclusive(p: Pid)
    | LockShared(p: Pid)
    | StartShared(p: Pid)
    | EndShared(p: Pid, ok: bool)
    | UnlockShared(p: Pid)
    | Crash(p: Pid)

  ghost predicate Init(s: State)
  {
    (s.marker ==> s.binaries.Complete?) && s.exclusive.None? && s.shared == {} && s.procs == map[]
  }

  predicate At(s: State, p: Pid, pc: Pc) { p in s.procs && s.procs[p] == pc }

  predicate Enabled(s: State, a: Action)
  {
    match a
    case Enter(p) => p !in s.procs
    case FirstCheck(p) => At(s, p, Entered)
    case LockExclusive(p) => At(s, p, WantExclusive) && s.exclusive.None? && s.shared == {}
    case SecondCheck(p) => At(s, p, HoldsExclusive)
    case BeginDownload(p) => At(s, p, Starting) && !s.binaries.Complete?
    case EndDownload(p) => At(s, p, Writing)
    case UseComplete(p) => At(s, p, Starting) && s.binaries.Complete?
    case StartFails(p) => At(s, p, Starting) || At(s, p, Writing) || At(s, p, Executing)
    case StartSucceeds(p) => At(s, p, Executing)
    case WriteMarker(p) => At(s, p, Started)
    case UnlockExclusive(p) => p in s.procs && (s.procs[p].MustRelease? || s.procs[p].MustReacquire?)
    case LockShared(p) => At(s, p, WantShared) && s.exclusive.None?
    case StartShared(p) => At(s, p, HoldsShared)
    case EndShared(p, _) => At(s, p, SharedWriting) || At(s, p, SharedExecuting)
    case UnlockShared(p) => p in s.procs && s.procs[p].MustReleaseShared?
    case Crash(p) => p in s.procs
  }

  function Goto(s: State, p: Pid, pc: Pc): State { s.(procs := s.procs[p := pc]) }

  function Next(s: State, a: Action): State
    requires Enabled(s, a)
  {
    match a
    case Enter(p) => Goto(s, p, Entered)
    case FirstCheck(p) => Goto(s, p, if s.marker then WantShared else WantExclusive)
    case LockExclusive(p) => Goto(s.(exclusive := Some(p)), p, HoldsExclusive)
    case SecondCheck(p) => Goto(s, p, if s.marker then MustReacquire else Starting)
    case BeginDownload(p) => Goto(s.(binaries := Partial), p, Writing)
    case EndDownload(p) => Goto(s.(binaries := Complete), p, Executing)
    case UseComplete(p) => Goto(s, p, Executing)
    case StartFails(p) => Goto(s, p, MustRelease(false))
    case StartSucceeds(p) => Goto(s, p, Started)
    case WriteMarker(p) => Goto(s.(marker := true), p, MustRelease(true))
    case UnlockExclusive(p) =>
      Goto(s.(exclusive := None), p, if s.procs[p].MustRelease? then Finished(s.procs[p].ok) else WantShared)
    case LockShared(p) => Goto(s.(shared := s.shared + {p}), p, HoldsShared)
    case StartShared(p) =>
      if s.binaries.Complete? then Goto(s, p, SharedExecuting) else Goto(s.(binaries := Partial), p, SharedWriting)
    case EndShared(p, ok) => Goto(s, p, MustReleaseShared(ok))
    case UnlockShared(p) => Goto(s.(shared := s.shared - {p}), p, Finished(s.procs[p].ok))
    case Crash(p) =>
      Goto(s.(exclusive := if s.exclusive == Some(p) then None else s.exclusive, shared := s.shared - {p}), p, Crashed)
  }

  ghost predicate Step(s: State, t: State) { exists a :: Enabled(s, a) && t == Next(s, a) }

  // ----- the invariant

  ghost predicate ProcInv(s: State, p: Pid)
    requires p in s.procs
  {
    var pc := s.procs[p];
    && (pc.Exclusive() <==> s.exclusive == Some(p))
    && (pc.Shared() <==> p in s.shared)
    && (pc.Starting? || pc.Writing? || pc.Executing? || pc.Started? ==> !s.marker)
    && (pc.Executing? || pc.Started? ==> s.binaries.Complete?)
    && (pc.MustReacquire? || pc.WantShared? || pc.Shared() ==> s.marker)
    && !pc.SharedWriting?
    && ((pc.MustRelease? || pc.Finished?) && pc.ok ==> s.marker)
  }

  ghost predicate Inv(s: State)
  {
    && (forall p :: p in s.procs ==> ProcInv(s, p))
    && (s.exclusive.Some? ==> s.exclusive.value in s.procs && s.shared == {})
    && s.shared <= s.procs.Keys
    && (s.marker ==> s.binaries.Complete?)
  }

  lemma ProcInvPreserved(s: State, a: Action, q: Pid)
    requires Inv(s) && Enabled(s, a) && q in Next(s, a).procs
    ensures ProcInv(Next(s, a), q)
  {
    assert a.p in s.procs ==> ProcInv(s, a.p);
    assert q in s.procs ==> ProcInv(s, q);
  }

  lemma InvPreserved(s: State, a: Action)
    requires Inv(s) && Enabled(s, a)
    ensures Inv(Next(s, a))
  {
    var t := Next(s, a);
    assert a.p in s.procs ==> ProcInv(s, a.p);
    forall q | q in t.procs ensures ProcInv(t, q) {
      ProcInvPreserved(s, a, q);
    }
  }

  lemma ReachableInv(run: seq<State>, i: nat)
    requires IsRun(Init, Step, run) && i < |run|
    ensures Inv(run[i])
  {
    forall s, t | Inv(s) && Step(s, t) ensures Inv(t) {
      var a :| Enabled(s, a) && t == Next(s, a);
      InvPreserved(s, a);
    }
    Stable(Step, Inv, run, 0, i);
  }

  // ----- what every run guarantees

  /** No process executes the binaries while another is writing them, and at most one writes. */
  lemma NoExecWhileWriting(run: seq<State>, i: nat, p: Pid, q: Pid)
    requires IsRun(Init, Step, run) && i < |run|
    requires p in run[i].procs && q in run[i].procs && p != q && run[i].procs[p].Writes()
    ensures !run[i].procs[q].Executes() && !run[i].procs[q].Writes()
  {
    ReachableInv(run, i);
    assert ProcInv(run[i], p) && ProcInv(run[i], q);
  }

  /** The marker, once there, means complete binaries for good, whoever crashes. */
  lemma MarkerMeansComplete(run: seq<State>, i: nat, j: nat)
    requires IsRun(Init, Step, run) && i <= j < |run| && run[i].marker
    ensures run[j].marker && run[j].binaries.Complete?
  {
    forall s: State, t: State | s.marker && Step(s, t) ensures t.marker {
    }
    Stable(Step, (s: State) => s.marker, run, i, j);
    ReachableInv(run, j);
  }

  /** Every start under the shared lock happens with the marker present and complete binaries, so
      it never downloads; and a download is never begun once the marker is there. */
  lemma SharedStartsNeverDownload(run: seq<State>, i: nat, p: Pid)
    requires IsRun(Init, Step, run) && i < |run|
    ensures Enabled(run[i], StartShared(p)) ==> run[i].marker && At(Next(run[i], StartShared(p)), p, SharedExecuting)
    ensures Enabled(run[i], BeginDownload(p)) ==> !run[i].marker
  {
    ReachableInv(run, i);
    assert p in run[i].procs ==> ProcInv(run[i], p);
  }

  /** The lock never wedges: when a process waits for it, it is free for that process, or some
      other process is inside and has a next step that is not a crash. */
  lemma LockNeverWedges(run: seq<State>, i: nat, p: Pid)
    requires IsRun(Init, Step, run) && i < |run|
    requires At(run[i], p, WantExclusive) || At(run[i], p, WantShared)
    ensures Enabled(run[i], LockExclusive(p)) || Enabled(run[i], LockShared(p)) ||
      exists a :: Enabled(run[i], a) && a.p != p && !a.Crash? && !a.Enter? &&
        (run[i].exclusive == Option.Some(a.p) || a.p in run[i].shared)
  {
    ReachableInv(run, i);
    var s := run[i];
    assert ProcInv(s, p);
    if s.exclusive.Some? {
      var q := s.exclusive.value;
      assert ProcInv(s, q);
      var a := NextInside(s, q);
    } else if s.shared != {} {
      var q :| q in s.shared;
      assert ProcInv(s, q);
      var a := NextInside(s, q);
    }
  }

  /** The next action of a process that holds the lock. */
  lemma NextInside(s: State, q: Pid) returns (a: Action)
    requires q in s.procs && (s.procs[q].Exclusive() || s.procs[q].Shared())
    ensures a.p == q && Enabled(s, a) && !a.Crash? && !a.Enter?
  {
    a := match s.procs[q]
      case HoldsExclusive => SecondCheck(q)
      case Starting => StartFails(q)
      case Writing => EndDownload(q)
      case Executing => StartSucceeds(q)
      case Started => WriteMarker(q)
      case HoldsShared => StartShared(q)
      case SharedWriting => EndShared(q, false)
      case SharedExecuting => EndShared(q, true)
      case MustReleaseShared(_) => UnlockShared(q)
      case _ => UnlockExclusive(q);
  }

  /** Whoever has started successfully, first or later, leaves the marker and complete binaries for
      all who come after. */
  lemma SuccessLeavesMarker(run: seq<State>, i: nat, j: nat, p: Pid)
    requires IsRun(Init, Step, run) && i <= j < |run| && At(run[i], p, Finished(true))
    ensures run[j].marker && run[j].binaries.Complete?
  {
    ReachableInv(run, i);
    assert ProcInv(run[i], p);
    MarkerMeansComplete(run, i, j);
  }

  ghost predicate Runnable(s: State, actions: seq<Action>)
    decreases |actions|
  {
    actions == [] || (Enabled(s, actions[0]) && Runnable(Next(s, actions[0]), actions[1..]))
  }

  ghost function After(s: State, actions: seq<Action>): State
    requires Runnable(s, actions)
    decreases |actions|
  {
    if actions == [] then s else After(Next(s, actions[0]), actions[1..])
  }

  /** What a process does that is alone: it downloads unless the binaries are complete, starts, and
      leaves the marker; or it finds the marker and starts at once. */
  function AloneActions(s: State, p: Pid): seq<Action>
  {
    if s.marker then [Enter(p), FirstCheck(p), LockShared(p), StartShared(p), EndShared(p, true), UnlockShared(p)]
    else
      [Enter(p), FirstCheck(p), LockExclusive(p), SecondCheck(p)] +
      (if s.binaries.Complete? then [UseComplete(p)] else [BeginDownload(p), EndDownload(p)]) +
      [StartSucceeds(p), WriteMarker(p), UnlockExclusive(p)]
  }

  lemma RunsAlong(s: State, a: Action, rest: seq<Action>)
    requires Enabled(s, a) && Runnable(Next(s, a), rest)
    ensures Runnable(s, [a] + rest) && After(s, [a] + rest) == After(Next(s, a), rest)
  {
    assert ([a] + rest)[1..] == rest;
  }

  /** A process that comes when the lock is free can always start: its own steps lead to a successful
      end, with the marker and complete binaries in place, the lock free again and every other
      process where it was, whatever crashes came before. */
  lemma CanAlwaysStart(run: seq<State>, i: nat, p: Pid)
    requires IsRun(Init, Step, run) && i < |run|
    requires p !in run[i].procs && run[i].exclusive.None? && run[i].shared == {}
    ensures Runnable(run[i], AloneActions(run[i], p))
    ensures After(run[i], AloneActions(run[i], p)) ==
      State(true, Complete, None, {}, run[i].procs[p := Finished(true)])
  {
    ReachableInv(run, i);
    if run[i].marker {
      StartsShared(run[i], p);
    } else {
      StartsFirst(run[i], p);
    }
  }

  lemma StartsShared(s: State, p: Pid)
    requires p !in s.procs && s.exclusive.None? && s.shared == {} && s.marker && s.binaries.Complete?
    ensures Runnable(s, AloneActions(s, p))
    ensures After(s, AloneActions(s, p)) == State(true, Complete, None, {}, s.procs[p := Finished(true)])
  {
    var s1 := Next(s, Enter(p));
    var s2 := Next(s1, FirstCheck(p));
    var rest := [LockShared(p), StartShared(p), EndShared(p, true), UnlockShared(p)];
    StartsWithLock(s2, p);
    RunsAlong(s1, FirstCheck(p), rest);
    RunsAlong(s, Enter(p), [FirstCheck(p)] + rest);
    assert AloneActions(s, p) == [Enter(p)] + ([FirstCheck(p)] + rest);
    assert s2.procs[p := Finished(true)] == s.procs[p := Finished(true)];
  }

  lemma StartsWithLock(s: State, p: Pid)
    requires At(s, p, WantShared) && s.exclusive.None? && s.shared == {} && s.binaries.Complete?
    ensures var todo := [LockShared(p), StartShared(p), EndShared(p, true), UnlockShared(p)];
      Runnable(s, todo) && After(s, todo) == s.(procs := s.procs[p := Finished(true)])
  {
    var held := Next(s, LockShared(p));
    var rest := [StartShared(p), EndShared(p, true), UnlockShared(p)];
    FinishShared(held, p);
    RunsAlong(s, LockShared(p), rest);
    assert [LockShared(p)] + rest == [LockShared(p), StartShared(p), EndShared(p, true), UnlockShared(p)];
    assert held.shared - {p} == s.shared;
    assert held.procs[p := Finished(true)] == s.procs[p := Finished(true)];
  }

  lemma FinishShared(s: State, p: Pid)
    requires At(s, p, HoldsShared) && s.binaries.Complete?
    ensures var todo := [StartShared(p), EndShared(p, true), UnlockShared(p)];
      Runnable(s, todo) && After(s, todo) == s.(shared := s.shared - {p}, procs := s.procs[p := Finished(true)])
  {
    var s1 := Next(s, StartShared(p));
    var s2 := Next(s1, EndShared(p, true));
    RunsAlong(s2, UnlockShared(p), []);
    RunsAlong(s1, EndShared(p, true), [UnlockShared(p)]);
    RunsAlong(s, StartShared(p), [EndShared(p, true), UnlockShared(p)]);
    assert Next(s2, UnlockShared(p)).procs == s.procs[p := Finished(true)];
  }

  lemma StartsFirst(s: State, p: Pid)
    requires p !in s.procs && s.exclusive.None? && s.shared == {} && !s.marker
    ensures Runnable(s, AloneActions(s, p))
    ensures After(s, AloneActions(s, p)) == State(true, Complete, None, {}, s.procs[p := Finished(true)])
  {
    var s1 := Next(s, Enter(p));
    var s2 := Next(s1, FirstCheck(p));
    var s3 := Next(s2, LockExclusive(p));
    var s4 := Next(s3, SecondCheck(p));
    var fetch := if s.binaries.Complete? then [UseComplete(p)] else [BeginDownload(p), EndDownload(p)];
    var finish := [StartSucceeds(p), WriteMarker(p), UnlockExclusive(p)];
    FetchAndFinish(s4, p);
    RunsAlong(s3, SecondCheck(p), fetch + finish);
    RunsAlong(s2, LockExclusive(p), [SecondCheck(p)] + (fetch + finish));
    RunsAlong(s1, FirstCheck(p), [LockExclusive(p)] + ([SecondCheck(p)] + (fetch + finish)));
    RunsAlong(s, Enter(p), [FirstCheck(p)] + ([LockExclusive(p)] + ([SecondCheck(p)] + (fetch + finish))));
    assert AloneActions(s, p) ==
      [Enter(p)] + ([FirstCheck(p)] + ([LockExclusive(p)] + ([SecondCheck(p)] + (fetch + finish))));
    assert s4.procs[p := Finished(true)] == s.procs[p := Finished(true)];
  }

  lemma FetchAndFinish(s: State, p: Pid)
    requires At(s, p, Starting)
    ensures var todo := (if s.binaries.Complete? then [UseComplete(p)] else [BeginDownload(p), EndDownload(p)]) +
        [StartSucceeds(p), WriteMarker(p), UnlockExclusive(p)];
      Runnable(s, todo) && After(s, todo) == State(true, Complete, None, s.shared, s.procs[p := Finished(true)])
  {
    var finish := [StartSucceeds(p), WriteMarker(p), UnlockExclusive(p)];
    var ready := Goto(s.(binaries := Complete), p, Executing);
    FinishExecuting(ready, p);
    assert ready.procs[p := Finished(true)] == s.procs[p := Finished(true)];
    if s.binaries.Complete? {
      RunsAlong(s, UseComplete(p), finish);
    } else {
      var half := Next(s, BeginDownload(p));
      assert Next(half, EndDownload(p)) == ready;
      RunsAlong(half, EndDownload(p), finish);
      RunsAlong(s, BeginDownload(p), [EndDownload(p)] + finish);
      assert [BeginDownload(p), EndDownload(p)] + finish == [BeginDownload(p)] + ([EndDownload(p)] + finish);
    }
  }

  lemma FinishExecuting(s: State, p: Pid)
    requires At(s, p, Executing)
    ensures var todo := [StartSucceeds(p), WriteMarker(p), UnlockExclusive(p)];
      Runnable(s, todo) && After(s, todo) == State(true, s.binaries, None, s.shared, s.procs[p := Finished(true)])
  {
    var s1 := Next(s, StartSucceeds(p));
    var s2 := Next(s1, WriteMarker(p));
    RunsAlong(s2, UnlockExclusive(p), []);
    RunsAlong(s1, WriteMarker(p), [UnlockExclusive(p)]);
    RunsAlong(s, StartSucceeds(p), [WriteMarker(p), UnlockExclusive(p)]);
    assert Next(s2, UnlockExclusive(p)).procs == s.procs[p := Finished(true)];
  }
}
