/** internal/pgroll/pgroll.go: applying pending schema migrations, interrupted at any point.

    The pgroll library is abstracted to the sequence of migrations started so far, of which the
    last one may still be active. A start is possible only when none is active, a complete only
    when one is. A run stops at its first failing library call, whose effect may or may not have
    reached the database (a crash is a failure that nobody sees). */
module Migrations {
  import opened Runs

  type Name(==, !new)

  datatype Db = Db(started: seq<Name>, active: bool)

  /** What ends a run early: one of the queries before the first migration, or the `at`-th start or
      complete, which may have taken effect nevertheless. */
  datatype Stop = QueryFails | Stop(at: nat, effective: bool)

  datatype Result = Result(db: Db, ok: bool)

  predicate NoDuplicates(m: seq<Name>) { forall i, j :: 0 <= i < j < |m| ==> m[i] != m[j] }

  // ----- one run

  /** The position after the last occurrence of `latest`, or none. */
  function ResumeAfter(m: seq<Name>, latest: Name): Option<nat>
  {
    if m == [] then None
    else if m[|m| - 1] == latest then Some(|m|)
    else ResumeAfter(m[..|m| - 1], latest)
  }

  /** The migrations a run has to start; None when the database is ahead of the list. */
  function Pending(m: seq<Name>, db: Db): Option<seq<Name>>
  {
    if db.started == [] then Some(m)
    else
      var r := ResumeAfter(m, db.started[|db.started| - 1]);
      if r.None? then None else if r.value <= |m| then Some(m[r.value..]) else None
  }

  /** Complete the active migration, start the next, and so on, until done or stopped. */
  function Execute(pending: seq<Name>, db: Db, stop: Stop): Result
    requires stop.Stop?
    decreases |pending|, db.active
  {
    if pending == [] then Result(db, true)
    else if db.active then
      if stop.at == 0 then Result(if stop.effective then db.(active := false) else db, false)
      else Execute(pending, db.(active := false), stop.(at := stop.at - 1))
    else
      var next := Db(db.started + [pending[0]], true);
      if stop.at == 0 then Result(if stop.effective then next else db, false)
      else Execute(pending[1..], next, stop.(at := stop.at - 1))
  }

  /** One library call of a run: what it leaves when it is the one that fails, and how the run
      goes on when it is not. */
  lemma ExecuteUnfolds(pending: seq<Name>, db: Db, stop: Stop)
    requires stop.Stop? && pending != []
    ensures db.active && stop.at == 0 ==>
      Execute(pending, db, stop) == Result(if stop.effective then db.(active := false) else db, false)
    ensures db.active && stop.at > 0 ==>
      Execute(pending, db, stop) == Execute(pending, db.(active := false), stop.(at := stop.at - 1))
    ensures !db.active && stop.at == 0 ==>
      Execute(pending, db, stop) == Result(if stop.effective then Db(db.started + [pending[0]], true) else db, false)
    ensures !db.active && stop.at > 0 ==>
      Execute(pending, db, stop) ==
        Execute(pending[1..], Db(db.started + [pending[0]], true), stop.(at := stop.at - 1))
  {
  }

  function Run(m: seq<Name>, db: Db, stop: Stop): Result
  {
    var pending := Pending(m, db);
    if pending.None? || stop.QueryFails? then Result(db, false) else Execute(pending.value, db, stop)
  }

  /** The database and the library calls on it. */
  class Database {
    var started: seq<Name>
    var active: bool

    function View(): Db
      reads this
    {
      Db(started, active)
    }

    constructor ()
      ensures View() == Db([], false)
    {
      started, active := [], false;
    }

    method Complete(fails: bool, effective: bool) returns (ok: bool)
      requires active
      modifies this
      ensures ok == !fails
      ensures started == old(started) && active == (fails && !effective)
    {
      ok := !fails;
      if ok || effective {
        active := false;
      }
    }

    method Start(name: Name, fails: bool, effective: bool) returns (ok: bool)
      requires !active
      modifies this
      ensures ok == !fails
      ensures View() == if fails && !effective then old(View()) else Db(old(started) + [name], true)
    {
      ok := !fails;
      if ok || effective {
        started, active := started + [name], true;
      }
    }
  }

  /** The search for the latest migration, which does not stop at the first match. */
  method FindLatest(m: seq<Name>, latest: Name) returns (found: bool, from: nat)
    ensures found == ResumeAfter(m, latest).Some?
    ensures from <= |m| && (found ==> ResumeAfter(m, latest) == Some(from))
  {
    found, from := false, 0;
    for i := 0 to |m|
      invariant from <= i && found == ResumeAfter(m[..i], latest).Some?
      invariant found ==> ResumeAfter(m[..i], latest) == Some(from)
    {
      assert m[..i + 1][..i] == m[..i];
      if m[i] == latest {
        found, from := true, i + 1;
      }
    }
    assert m[..|m|] == m;
  }

  /** ApplyMigrations. That its starts and completes are always possible is checked by the
      preconditions of the library calls. */
  method ApplyMigrations(db: Database, m: seq<Name>, stop: Stop) returns (ok: bool)
    modifies db
    ensures Result(db.View(), ok) == Run(m, old(db.View()), stop)
  {
    if stop.QueryFails? {
      return false;
    }
    var toRun := m;
    if db.started != [] {
      var found, from := FindLatest(m, db.started[|db.started| - 1]);
      if !found {
        return false;
      }
      toRun := m[from..];
    }
    assert Pending(m, db.View()) == Some(toRun);
    var completePrev := db.active;
    var calls := 0;
    for i := 0 to |toRun|
      invariant completePrev == db.active && calls <= stop.at
      invariant Execute(toRun, old(db.View()), stop) == Execute(toRun[i..], db.View(), stop.(at := stop.at - calls))
    {
      assert toRun[i..][1..] == toRun[i + 1..] && toRun[i..][0] == toRun[i];
      ExecuteUnfolds(toRun[i..], db.View(), stop.(at := stop.at - calls));
      if completePrev {
        ok := db.Complete(calls == stop.at, stop.effective);
        if !ok {
          return;
        }
        calls := calls + 1;
      }
      ExecuteUnfolds(toRun[i..], db.View(), stop.(at := stop.at - calls));
      ok := db.Start(toRun[i], calls == stop.at, stop.effective);
      if !ok {
        return;
      }
      calls := calls + 1;
      completePrev := true;
    }
    ok := true;
  }

  // ----- any number of runs

  lemma {:induction false} ResumeAfterLast(m: seq<Name>, latest: Name)
    ensures var r := ResumeAfter(m, latest);
      && (r.None? <==> latest !in m)
      && (r.Some? ==> 0 < r.value <= |m| && m[r.value - 1] == latest)
      && (r.Some? ==> forall i :: r.value <= i < |m| ==> m[i] != latest)
  {
    if m != [] && m[|m| - 1] != latest {
      ResumeAfterLast(m[..|m| - 1], latest);
    }
  }

  /** A run starts a prefix of what is pending, all of it if it succeeds, in order. The last one that a
      successful run starts is left active, to be completed by the next run that starts one; a run
      with nothing pending leaves everything as it is. */
  lemma {:induction false} ExecuteStartsPrefix(pending: seq<Name>, db: Db, stop: Stop)
    requires stop.Stop?
    ensures var r := Execute(pending, db, stop);
      && db.started <= r.db.started <= db.started + pending
      && (r.ok ==> r.db.started == db.started + pending)
      && (r.ok && pending != [] ==> r.db.active)
      && (pending == [] ==> r == Result(db, true))
    decreases |pending|, db.active
  {
    if pending == [] {
      assert db.started + pending == db.started;
    } else if stop.at > 0 {
      if db.active {
        ExecuteStartsPrefix(pending, db.(active := false), stop.(at := stop.at - 1));
      } else {
        var next := Db(db.started + [pending[0]], true);
        ExecuteStartsPrefix(pending[1..], next, stop.(at := stop.at - 1));
        assert next.started + pending[1..] == db.started + pending;
      }
    }
  }

  /** One run: the list that the running release ships, and where the run stops. */
  datatype Attempt = Attempt(list: seq<Name>, stop: Stop)

  /** The database after a sequence of runs on a fresh one. */
  function AfterRuns(runs: seq<Attempt>): Result
  {
    if runs == [] then Result(Db([], false), false)
    else Run(runs[|runs| - 1].list, AfterRuns(runs[..|runs| - 1]).db, runs[|runs| - 1].stop)
  }

  /** Every run ships the migrations of `all` up to some point. */
  ghost predicate OnPrefixes(runs: seq<Attempt>, all: seq<Name>)
  {
    forall i :: 0 <= i < |runs| ==> runs[i].list <= all
  }

  /** With distinct names, and whatever releases run: newer ones append migrations, older ones may
      come back. After any number of interrupted runs the migrations started are exactly a prefix of
      all of them, each once and in order; a run that reports success leaves exactly its own list;
      and a run can resume unless the database is ahead of its list. */
  lemma {:induction false} RunsStartEachOnceInOrder(all: seq<Name>, runs: seq<Attempt>)
    requires NoDuplicates(all) && OnPrefixes(runs, all)
    ensures var r := AfterRuns(runs);
      && r.db.started <= all
      && (r.ok ==> runs != [] && r.db.started == runs[|runs| - 1].list)
      && (forall list :: list <= all ==>
            Pending(list, r.db) == if |r.db.started| <= |list| then Some(list[|r.db.started|..]) else None)
  {
    if runs != [] {
      RunsStartEachOnceInOrder(all, runs[..|runs| - 1]);
      OneMoreRun(all, AfterRuns(runs[..|runs| - 1]).db, runs[|runs| - 1]);
    }
    forall list | list <= all
      ensures Pending(list, AfterRuns(runs).db) ==
        if |AfterRuns(runs).db.started| <= |list| then Some(list[|AfterRuns(runs).db.started|..]) else None
    {
      ResumeFromPrefix(all, list, AfterRuns(runs).db);
    }
  }

  lemma OneMoreRun(all: seq<Name>, db: Db, run: Attempt)
    requires NoDuplicates(all) && db.started <= all && run.list <= all
    ensures var r := Run(run.list, db, run.stop);
      && r.db.started <= all
      && (r.ok ==> r.db.started == run.list)
  {
    ResumeFromPrefix(all, run.list, db);
    if |db.started| <= |run.list| && run.stop.Stop? {
      ExecuteStartsPrefix(run.list[|db.started|..], db, run.stop);
      assert db.started + run.list[|db.started|..] == run.list;
    }
  }

  lemma ResumeFromPrefix(all: seq<Name>, list: seq<Name>, db: Db)
    requires NoDuplicates(all) && list <= all && db.started <= all
    ensures Pending(list, db) == if |db.started| <= |list| then Some(list[|db.started|..]) else None
  {
    if db.started != [] {
      ResumeAfterLast(list, db.started[|db.started| - 1]);
    } else {
      assert list[0..] == list;
    }
  }

  /** Left alone, a run that can resume at all succeeds. */
  lemma {:induction false} ExecuteSucceeds(pending: seq<Name>, db: Db, stop: Stop)
    requires stop.Stop? && stop.at >= 2 * |pending| + (if db.active then 1 else 0)
    ensures Execute(pending, db, stop).ok
    decreases |pending|, db.active
  {
    if pending != [] {
      if db.active {
        ExecuteSucceeds(pending, db.(active := false), stop.(at := stop.at - 1));
      } else {
        ExecuteSucceeds(pending[1..], Db(db.started + [pending[0]], true), stop.(at := stop.at - 1));
      }
    }
  }

  /** Some run can be stopped right after its n-th start. */
  lemma {:induction false} ExecuteStopsAfter(pending: seq<Name>, db: Db, n: nat)
    requires n < |pending| && db.active
    ensures Execute(pending, db, Stop(2 * n, false)) == Result(Db(db.started + pending[..n], true), false)
  {
    if n > 0 {
      var next := Db(db.started + [pending[0]], true);
      assert Execute(pending, db, Stop(2 * n, false)) == Execute(pending[1..], next, Stop(2 * (n - 1), false));
      ExecuteStopsAfter(pending[1..], next, n - 1);
      assert next.started + pending[1..][..n - 1] == db.started + pending[..n];
    } else {
      assert db.started + pending[..0] == db.started;
    }
  }

  /** Distinct names are exactly what it takes: whichever releases run, success always means that
      exactly the list of that run has been started if and only if no name occurs twice. */
  lemma SuccessIsCompleteIffDistinct(all: seq<Name>)
    ensures NoDuplicates(all) <==>
      forall runs: seq<Attempt> :: OnPrefixes(runs, all) && AfterRuns(runs).ok ==>
        runs != [] && AfterRuns(runs).db.started == runs[|runs| - 1].list
  {
    if NoDuplicates(all) {
      forall runs: seq<Attempt> | OnPrefixes(runs, all) && AfterRuns(runs).ok
        ensures runs != [] && AfterRuns(runs).db.started == runs[|runs| - 1].list
      {
        RunsStartEachOnceInOrder(all, runs);
      }
    } else {
      var i, j :| 0 <= i < j < |all| && all[i] == all[j];
      var first, second := SkippingRuns(all, i, j);
      var runs := [Attempt(all, first), Attempt(all, second)];
      assert OnPrefixes(runs, all);
    }
  }

  /** Two runs that report success although migrations between two equal names were skipped. */
  lemma SkippingRuns(m: seq<Name>, i: nat, j: nat) returns (first: Stop, second: Stop)
    requires i < j < |m| && m[i] == m[j]
    ensures var r := AfterRuns([Attempt(m, first), Attempt(m, second)]); r.ok && |r.db.started| < |m|
  {
    first := Stop(2 * i + 1, false);
    var empty := Db([], false);
    var one := Db([m[0]], true);
    assert empty.started + [m[0]] == [m[0]];
    assert Execute(m, empty, first) == Execute(m[1..], one, Stop(2 * i, false));
    ExecuteStopsAfter(m[1..], one, i);
    var mid := Db(one.started + m[1..][..i], true);
    assert mid.started == m[..i + 1];
    ResumeAfterLast(m, m[i]);
    var from := ResumeAfter(m, m[i]).value;
    assert from > j;
    second := Stop(2 * |m| + 1, false);
    ExecuteSucceeds(m[from..], mid, second);
    ExecuteStartsPrefix(m[from..], mid, second);
    TwoRuns(Attempt(m, first), Attempt(m, second));
  }

  lemma TwoRuns(a: Attempt, b: Attempt)
    ensures AfterRuns([a, b]) == Run(b.list, Run(a.list, Db([], false), a.stop).db, b.stop)
  {
    assert [a, b][..1] == [a] && [a][..0] == [];
    assert AfterRuns([a]) == Run(a.list, AfterRuns([]).db, a.stop);
  }
}
