/** services/clusters/wur.go: many callers race to make sure a branch has a WakeupRequest.

    The API server is a map from branch name to the request of that name. Every read, delete and
    create is one step; between any two of them other callers, the wakeup reconciler (which moves
    a request to its final condition and deletes it later) and garbage collection may act. */
module WakeupRequests {
  import opened Runs

  type CallId = nat
  type Name(==, !new)  // branch and volume names

  /** The Succeeded condition of a request. */
  datatype Condition = NoCondition | Unknown | Succeeded | Failed

  datatype Request = Request(uid: nat, condition: Condition, xvol: Name)
  {
    predicate InProgress() { condition.NoCondition? || condition.Unknown? }
  }

  datatype Pc =
    | Called
    | ToDelete(seen: nat)  // read a finished request with this uid
    | ToCreate
    | ReturnedNil
    | ReturnedError

  datatype Call = Call(branch: Name, xvol: Name, pc: Pc)

  datatype State = State(requests: map<Name, Request>, nextUid: nat, calls: map<CallId, Call>)

  datatype Action =
    | Enter(call: CallId, branch: Name, xvol: Name)
    | Get(call: CallId)
    | Delete(call: CallId)
    | Create(call: CallId)
    | Fail(call: CallId, tookEffect: bool)  // a call to the server reports an error, effective or not
    | Reconcile(name: Name, condition: Condition)
    | Collect(name: Name)                 // TTL expiry or garbage collection

  ghost predicate Init(s: State) { s.calls == map[] && forall b :: b in s.requests ==> s.requests[b].uid < s.nextUid }

  predicate InProgress(s: State, branch: Name) { branch in s.requests && s.requests[branch].InProgress() }

  predicate Enabled(s: State, a: Action)
  {
    match a
    case Enter(c, _, _) => c !in s.calls
    case Get(c) => c in s.calls && s.calls[c].pc.Called?
    case Delete(c) => c in s.calls && s.calls[c].pc.ToDelete?
    case Create(c) => c in s.calls && s.calls[c].pc.ToCreate?
    case Fail(c, _) => c in s.calls && !s.calls[c].pc.ReturnedNil? && !s.calls[c].pc.ReturnedError?
    case Reconcile(b, _) => InProgress(s, b)
    case Collect(b) => b in s.requests
  }

  function Goto(s: State, c: CallId, pc: Pc): State
    requires c in s.calls
  {
    s.(calls := s.calls[c := s.calls[c].(pc := pc)])
  }

  /** The create call: a new request without conditions, unless one of that name exists. */
  function CreateRequest(s: State, c: CallId): State
    requires c in s.calls
  {
    var b := s.calls[c].branch;
    if b in s.requests then s
    else s.(requests := s.requests[b := Request(s.nextUid, NoCondition, s.calls[c].xvol)], nextUid := s.nextUid + 1)
  }

  function Next(s: State, a: Action): State
    requires Enabled(s, a)
  {
    match a
    case Enter(c, b, x) => s.(calls := s.calls[c := Call(b, x, Called)])
    case Get(c) =>
      var b := s.calls[c].branch;
      Goto(s, c,
           if b !in s.requests then ToCreate
           else if s.requests[b].InProgress() then ReturnedNil
           else ToDelete(s.requests[b].uid))
    case Delete(c) =>  // by name: NotFound counts as deleted
      Goto(s.(requests := s.requests - {s.calls[c].branch}), c, ToCreate)
    case Create(c) =>  // AlreadyExists counts as created
      Goto(CreateRequest(s, c), c, ReturnedNil)
    case Fail(c, effect) =>
      var t := if !effect then s
               else if s.calls[c].pc.ToDelete? then s.(requests := s.requests - {s.calls[c].branch})
               else if s.calls[c].pc.ToCreate? then CreateRequest(s, c)
               else s;
      Goto(t, c, ReturnedError)
    case Reconcile(b, condition) => s.(requests := s.requests[b := s.requests[b].(condition := condition)])
    case Collect(b) => s.(requests := s.requests - {b})
  }

  ghost predicate Step(s: State, t: State) { exists a :: Enabled(s, a) && t == Next(s, a) }

  // ----- what a nil return means

  /** At some state of the run up to `j`, while call `c` was under way, its branch had a request
      in progress. */
  ghost predicate WasInProgress(run: seq<State>, j: nat, c: CallId)
    requires j < |run| && c in run[j].calls
  {
    exists k :: 0 <= k <= j && c in run[k].calls && InProgress(run[k], run[j].calls[c].branch)
  }

  /** One step, seen from call `c`: it returns nil only after seeing or creating a request in
      progress or finding one where it had left none, and a name that it left free is taken
      only by a request in progress. */
  lemma StepForCall(s: State, a: Action, c: CallId)
    requires Enabled(s, a) && c in s.calls
    ensures var t := Next(s, a); c in t.calls && t.calls[c].branch == s.calls[c].branch
    ensures var t, b := Next(s, a), s.calls[c].branch;
      t.calls[c].pc.ReturnedNil? && !InProgress(s, b) && !InProgress(t, b) ==>
        s.calls[c].pc.ReturnedNil? || (s.calls[c].pc.ToCreate? && b in s.requests)
    ensures var t, b := Next(s, a), s.calls[c].branch;
      t.calls[c].pc.ToCreate? && b in t.requests && !InProgress(t, b) ==>
        InProgress(s, b) || (s.calls[c].pc.ToCreate? && b in s.requests)
  {
  }

  lemma {:induction false} CallProgress(run: seq<State>, j: nat, c: CallId)
    requires IsRun(Init, Step, run) && j < |run| && c in run[j].calls
    ensures run[j].calls[c].pc.ReturnedNil? ==> WasInProgress(run, j, c)
    ensures run[j].calls[c].pc.ToCreate? ==> WasInProgress(run, j, c) || run[j].calls[c].branch !in run[j].requests
  {
    if j > 0 {
      var s, t := run[j - 1], run[j];
      assert Step(run[j - 1], run[j]);
      var a :| Enabled(s, a) && t == Next(s, a);
      if c in s.calls {
        CallProgress(run, j - 1, c);
        StepForCall(s, a, c);
        Remember(run, j, c);
      } else {
        EntersAsCalled(s, a, c);
      }
    }
  }

  lemma EntersAsCalled(s: State, a: Action, c: CallId)
    requires Enabled(s, a) && c !in s.calls && c in Next(s, a).calls
    ensures Next(s, a).calls[c].pc.Called?
  {
  }

  lemma Remember(run: seq<State>, j: nat, c: CallId)
    requires 0 < j < |run| && c in run[j - 1].calls && c in run[j].calls
    requires run[j].calls[c].branch == run[j - 1].calls[c].branch
    ensures WasInProgress(run, j - 1, c) ==> WasInProgress(run, j, c)
    ensures InProgress(run[j - 1], run[j].calls[c].branch) || InProgress(run[j], run[j].calls[c].branch) ==>
      WasInProgress(run, j, c)
  {
  }

  /** If ensureWakeupRequest returns nil then, at some moment after it was called, a
      WakeupRequest for the branch existed and was in progress, under every interleaving. */
  lemma NilMeansWakeupWasInProgress(run: seq<State>, i: nat, j: nat, c: CallId)
    requires IsRun(Init, Step, run) && i <= j < |run|
    requires c !in run[i].calls
    requires c in run[j].calls && run[j].calls[c].pc.ReturnedNil?
    ensures exists k :: i < k <= j && InProgress(run[k], run[j].calls[c].branch)
  {
    CallProgress(run, j, c);
    var k :| 0 <= k <= j && c in run[k].calls && InProgress(run[k], run[j].calls[c].branch);
    if k <= i {
      CallsStay(run, k, i, c);
    }
  }

  lemma CallsStay(run: seq<State>, k: nat, i: nat, c: CallId)
    requires IsRun(Init, Step, run) && k <= i < |run| && c in run[k].calls
    ensures c in run[i].calls
  {
    forall s: State, t: State | c in s.calls && Step(s, t) ensures c in t.calls {
    }
    Stable(Step, (s: State) => c in s.calls, run, k, i);
  }

  // ----- what the requests ask for

  /** The request of `branch` asks for the volume that some call made for that branch gave. */
  ghost predicate AskedFor(s: State, branch: Name)
    requires branch in s.requests
  {
    exists c :: c in s.calls && s.calls[c].branch == branch && s.calls[c].xvol == s.requests[branch].xvol
  }

  /** Every request created since uids stood at `base` is one that was asked for. */
  ghost predicate OnlyAskedFor(s: State, base: nat)
  {
    base <= s.nextUid && forall b :: b in s.requests && s.requests[b].uid >= base ==> AskedFor(s, b)
  }

  lemma OnlyAskedForPreserved(s: State, a: Action, base: nat)
    requires OnlyAskedFor(s, base) && Enabled(s, a)
    ensures OnlyAskedFor(Next(s, a), base)
  {
    var t := Next(s, a);
    forall b | b in t.requests && t.requests[b].uid >= base ensures AskedFor(t, b) {
      if b in s.requests && s.requests[b].xvol == t.requests[b].xvol && s.requests[b].uid == t.requests[b].uid {
        var c :| c in s.calls && s.calls[c].branch == b && s.calls[c].xvol == s.requests[b].xvol;
        assert t.calls[c].branch == b && t.calls[c].xvol == s.calls[c].xvol;
      } else {
        assert t.calls[a.call].branch == b && t.calls[a.call].xvol == t.requests[b].xvol;
      }
    }
  }

  /** In every run, a request that was not there at the start is for the volume that a call made for
      its branch gave, and was in progress when it came. */
  lemma RequestsAreAskedFor(run: seq<State>, j: nat, b: Name)
    requires IsRun(Init, Step, run) && j < |run| && b in run[j].requests && run[j].requests[b].uid >= run[0].nextUid
    ensures AskedFor(run[j], b)
  {
    var base := run[0].nextUid;
    forall s, t | OnlyAskedFor(s, base) && Step(s, t) ensures OnlyAskedFor(t, base) {
      var a :| Enabled(s, a) && t == Next(s, a);
      OnlyAskedForPreserved(s, a, base);
    }
    Stable(Step, s => OnlyAskedFor(s, base), run, 0, j);
  }

  /** What the get decides: to return if the request has no verdict yet, to delete it if it has one, to
      create one if there is none. */
  lemma GetDecides(s: State, c: CallId)
    requires Enabled(s, Get(c))
    ensures var b, t := s.calls[c].branch, Next(s, Get(c));
      && t.requests == s.requests && c in t.calls
      && (b !in s.requests ==> t.calls[c].pc == ToCreate)
      && (b in s.requests ==> match s.requests[b].condition
            case NoCondition => t.calls[c].pc == ReturnedNil
            case Unknown => t.calls[c].pc == ReturnedNil
            case Succeeded => t.calls[c].pc == ToDelete(s.requests[b].uid)
            case Failed => t.calls[c].pc == ToDelete(s.requests[b].uid))
  {
  }

  /** What a call does to the requests: it leaves those of other branches alone, and that of its own
      it only removes when it was about to delete it, or creates, fresh and for its own volume. */
  lemma CallTouchesOwnRequest(s: State, a: Action, b: Name)
    requires Enabled(s, a) && !a.Reconcile? && !a.Collect? && !a.Enter?
    ensures var t, call := Next(s, a), s.calls[a.call];
      && (b != call.branch ==> (b in t.requests <==> b in s.requests))
      && (b in s.requests && b in t.requests ==> t.requests[b] == s.requests[b])
      && (b in s.requests && b !in t.requests ==> call.pc.ToDelete?)
      && (b !in s.requests && b in t.requests ==>
            && call.pc.ToCreate? && t.nextUid == s.nextUid + 1
            && t.requests[b] == Request(s.nextUid, NoCondition, call.xvol))
  {
  }

  // ----- what it does not mean

  ghost predicate UidInv(s: State)
  {
    && (forall b :: b in s.requests ==> s.requests[b].uid < s.nextUid)
    && (forall c :: c in s.calls && s.calls[c].pc.ToDelete? ==>
          && s.calls[c].pc.seen < s.nextUid
          && (s.calls[c].branch in s.requests && s.requests[s.calls[c].branch].uid == s.calls[c].pc.seen
              ==> !s.requests[s.calls[c].branch].InProgress()))
  }

  lemma UidInvPreserved(s: State, a: Action)
    requires UidInv(s) && Enabled(s, a)
    ensures UidInv(Next(s, a))
  {
  }

  /** The delete goes by name, so it can take away a request that is still in progress. In every
      reachable state that request is then a replacement, never the one the caller had read. */
  lemma DeleteDropsOnlyReplacements(run: seq<State>, i: nat, c: CallId)
    requires IsRun(Init, Step, run) && i < |run| && Enabled(run[i], Delete(c))
    requires InProgress(run[i], run[i].calls[c].branch)
    ensures run[i].requests[run[i].calls[c].branch].uid != run[i].calls[c].pc.seen
  {
    forall s, t | UidInv(s) && Step(s, t) ensures UidInv(t) {
      var a :| Enabled(s, a) && t == Next(s, a);
      UidInvPreserved(s, a);
    }
    Stable(Step, UidInv, run, 0, i);
  }

  /** A nil return does not mean the request stays until the reconciler has finished it: a slower
      caller that read the previous, finished request deletes the new one by name. */
  lemma NilDoesNotKeepTheRequest(b: Name, x: Name) returns (run: seq<State>)
    ensures IsRun(Init, Step, run) && |run| == 8
    ensures 1 in run[6].calls && run[6].calls[1].pc.ReturnedNil? && InProgress(run[6], b)  // call 1 has returned nil
    ensures b !in run[7].requests                                                        // and its request is gone
  {
    var s0 := State(map[b := Request(0, Succeeded, x)], 1, map[]);
    var s1 := Next(s0, Enter(0, b, x));
    var s2 := Next(s1, Get(0));
    var s3 := Next(s2, Enter(1, b, x));
    var s4 := Next(s3, Get(1));
    var s5 := Next(s4, Delete(1));
    var s6 := Next(s5, Create(1));
    var s7 := Next(s6, Delete(0));
    assert Step(s0, s1) && Step(s1, s2) && Step(s2, s3) && Step(s3, s4);
    assert Step(s4, s5) && Step(s5, s6) && Step(s6, s7);
    run := [s0, s1, s2, s3, s4, s5, s6, s7];
  }

  /** A step of some call, as opposed to one of the reconciler or of garbage collection. */
  ghost predicate CallerStep(s: State, t: State)
  {
    exists a :: Enabled(s, a) && !a.Reconcile? && !a.Collect? && t == Next(s, a)
  }

  ghost predicate Keeps(s: State, branch: Name, uid: nat)
  {
    InProgress(s, branch) && s.requests[branch].uid == uid
  }

  /** Some call for `branch` has read a finished request and is about to delete by name. */
  ghost predicate DeleteAhead(s: State, branch: Name)
  {
    exists c :: c in s.calls && s.calls[c].branch == branch && s.calls[c].pc.ToDelete?
  }

  lemma CallersKeep(s: State, t: State, branch: Name, uid: nat)
    requires Keeps(s, branch, uid) && !DeleteAhead(s, branch) && CallerStep(s, t)
    ensures Keeps(t, branch, uid) && !DeleteAhead(t, branch)
  {
    var a :| Enabled(s, a) && !a.Reconcile? && !a.Collect? && t == Next(s, a);
  }

  /** `path` continues `s` by steps of calls, old and new. */
  ghost predicate Continues(s: State, path: seq<State>)
  {
    0 < |path| && path[0] == s && IsPath(CallerStep, path)
  }

  /** Exactly when a request in progress is safe from the callers, whatever they do from now on: it
      survives every continuation until the reconciler acts if and only if no call for its branch
      is about to delete. */
  lemma RequestSurvivesIff(s: State, branch: Name)
    requires InProgress(s, branch)
    ensures (forall path :: Continues(s, path) ==> Keeps(path[|path| - 1], branch, s.requests[branch].uid))
      <==> !DeleteAhead(s, branch)
  {
    var uid := s.requests[branch].uid;
    if DeleteAhead(s, branch) {
      var c :| c in s.calls && s.calls[c].branch == branch && s.calls[c].pc.ToDelete?;
      var t := Next(s, Delete(c));
      assert Enabled(s, Delete(c)) && CallerStep(s, t);
      assert Continues(s, [s, t]) && [s, t][|[s, t]| - 1] == t;
    } else {
      forall path | Continues(s, path) ensures Keeps(path[|path| - 1], branch, uid) {
        forall x, y | Keeps(x, branch, uid) && !DeleteAhead(x, branch) && CallerStep(x, y)
          ensures Keeps(y, branch, uid) && !DeleteAhead(y, branch)
        {
          CallersKeep(x, y, branch, uid);
        }
        Stable(CallerStep, x => Keeps(x, branch, uid) && !DeleteAhead(x, branch), path, 0, |path| - 1);
      }
    }
  }

  // ----- ensureWakeupRequest as code

  predicate ActsFor(a: Action, c: CallId) { !a.Reconcile? && !a.Collect? && a.call == c }

  /** The API server together with the history of its states. */
  class Server {
    var st: State
    ghost var history: seq<State>

    ghost predicate Valid()
      reads this
    {
      IsRun(Init, Step, history) && history[|history| - 1] == st
    }

    constructor (initial: State)
      requires Init(initial)
      ensures Valid() && st == initial
    {
      st, history := initial, [initial];
    }

    method Perform(a: Action)
      requires Valid() && Enabled(st, a)
      modifies this
      ensures Valid() && st == Next(old(st), a) && history == old(history) + [st]
    {
      ghost var before := history;
      assert Step(st, Next(st, a));
      st := Next(st, a);
      history := history + [st];
      forall i, j | 0 <= i && j == i + 1 < |history| ensures Step(history[i], history[j]) {
        if j < |before| {
          assert Step(before[i], before[j]);
        }
      }
    }

    /** Everyone else acts as `schedule` says; entries that are not possible are skipped. */
    method Others(schedule: seq<Action>, c: CallId)
      requires Valid() && c in st.calls
      modifies this
      ensures Valid() && old(history) <= history
      ensures c in st.calls && st.calls[c] == old(st.calls[c])
      ensures schedule == [] ==> st == old(st)
    {
      for i := 0 to |schedule|
        invariant i == 0 ==> st == old(st)
        invariant Valid() && old(history) <= history
        invariant c in st.calls && st.calls[c] == old(st.calls[c])
      {
        if Enabled(st, schedule[i]) && !ActsFor(schedule[i], c) {
          Perform(schedule[i]);
        }
      }
    }
  }

  /** What the server answers to the requests of one call: an error from the get, from the delete
      and from the create, and for the latter two whether they took effect nevertheless. */
  datatype Faults = Faults(getFails: bool, deleteFails: bool, createFails: bool, effective: bool)

  const NO_FAULTS := Faults(false, false, false, false)

  /** Call `c` is under way on `server` at `pc`; it was entered after state `entered` of the history. */
  ghost predicate UnderWay(server: Server, entered: nat, c: CallId, branch: Name)
    reads server
  {
    && server.Valid() && entered < |server.history| - 1 && c !in server.history[entered].calls
    && c in server.st.calls && server.st.calls[c].branch == branch
  }

  /** ensureWakeupRequest, with what everyone else does in between given by three schedules. */
  method EnsureWakeupRequest(server: Server, c: CallId, branch: Name, xvol: Name, faults: Faults,
                             beforeGet: seq<Action>, beforeDelete: seq<Action>, beforeCreate: seq<Action>)
    returns (ok: bool)
    requires server.Valid() && c !in server.st.calls
    modifies server
    ensures server.Valid() && old(|server.history|) < |server.history|
    ensures ok ==> exists k :: old(|server.history|) <= k < |server.history| && InProgress(server.history[k], branch)
    ensures !ok ==> faults.getFails || faults.deleteFails || faults.createFails
    // left to itself and without errors, it leaves one request in progress, for this volume unless it was there
    ensures faults == NO_FAULTS && beforeGet == beforeDelete == beforeCreate == [] ==>
      ok && server.st.requests == if InProgress(old(server.st), branch) then old(server.st.requests)
        else old(server.st.requests)[branch := Request(old(server.st.nextUid), NoCondition, xvol)]
  {
    ghost var entered := |server.history| - 1;
    server.Perform(Enter(c, branch, xvol));
    server.Others(beforeGet, c);
    if faults.getFails {
      server.Perform(Fail(c, false));
      return false;
    }
    server.Perform(Get(c));
    if server.st.calls[c].pc.ReturnedNil? {
      ReturnedNilHolds(server, entered, c, branch);
      return true;
    }
    if server.st.calls[c].pc.ToDelete? {
      ok := DeleteFinished(server, entered, c, branch, faults, beforeDelete);
      if !ok {
        return;
      }
    }
    ok := CreateFresh(server, entered, c, branch, faults, beforeCreate);
  }

  method DeleteFinished(server: Server, ghost entered: nat, c: CallId, ghost branch: Name, faults: Faults,
                        others: seq<Action>)
    returns (ok: bool)
    requires UnderWay(server, entered, c, branch) && server.st.calls[c].pc.ToDelete?
    modifies server
    ensures UnderWay(server, entered, c, branch)
    ensures ok == !faults.deleteFails
    ensures ok ==> server.st.calls[c].pc.ToCreate? && server.st.calls[c].xvol == old(server.st.calls[c].xvol)
    ensures ok && others == [] ==>
      server.st.requests == old(server.st.requests) - {branch} && server.st.nextUid == old(server.st.nextUid)
  {
    server.Others(others, c);
    ok := !faults.deleteFails;
    if ok {
      server.Perform(Delete(c));
    } else {
      server.Perform(Fail(c, faults.effective));
    }
  }

  method CreateFresh(server: Server, ghost entered: nat, c: CallId, ghost branch: Name, faults: Faults,
                     others: seq<Action>)
    returns (ok: bool)
    requires UnderWay(server, entered, c, branch) && server.st.calls[c].pc.ToCreate?
    modifies server
    ensures UnderWay(server, entered, c, branch)
    ensures ok == !faults.createFails
    ensures ok ==> exists k :: entered < k < |server.history| && InProgress(server.history[k], branch)
    ensures ok && others == [] ==>
      var created := Request(old(server.st.nextUid), NoCondition, old(server.st.calls[c].xvol));
      server.st.requests == if branch in old(server.st.requests) then old(server.st.requests)
        else old(server.st.requests)[branch := created]
  {
    server.Others(others, c);
    ok := !faults.createFails;
    if ok {
      server.Perform(Create(c));
      ReturnedNilHolds(server, entered, c, branch);
    } else {
      server.Perform(Fail(c, faults.effective));
    }
  }

  lemma ReturnedNilHolds(server: Server, entered: nat, c: CallId, branch: Name)
    requires UnderWay(server, entered, c, branch) && server.st.calls[c].pc.ReturnedNil?
    ensures exists k :: entered < k < |server.history| && InProgress(server.history[k], branch)
  {
    NilMeansWakeupWasInProgress(server.history, entered, |server.history| - 1, c);
  }
}
