/** services/clusters/pool.go: callers race to claim pre-provisioned clusters from pools.

    The API server holds versioned objects. Callers read pools and clusters from lists that may be
    arbitrarily stale (the cluster list comes from a cache), and claim a cluster by a patch that
    clears its owner and carries the version they read. In between, other callers, the pool
    operator and the wakeup reconciler change, take and delete clusters at will; nobody puts an
    orphaned cluster back into a pool. */
module PoolClaims {
  import opened Runs

  type CallId = nat
  type Uid = nat
  type Version = nat
  type Name(==, !new)   // pool names, storage classes and short image names

  /** A storage size string: empty, a quantity, or something that does not parse. */
  datatype Size = Unset | Bytes(quantity: int) | Malformed

  datatype Pool = Pool(name: Name, storageClass: Name, image: Name, cpu: int, memory: int, size: Size)

  datatype Request = Request(storageClass: Name, image: Name, cpu: int, memory: int, storage: int)

  /** One version of a cluster object. `owner` is the ClusterPool controlling it, if one does. */
  datatype Cluster = Cluster(uid: Uid, version: Version, owner: Option<Name>, deleting: bool, ready: int, size: Size)

  datatype Verdict = Skip | ParseError | Take

  /** storageLargerThan: an unset size is never larger. */
  function LargerThan(size: Size, requested: int): Option<bool>
  {
    match size
    case Unset => Some(false)
    case Bytes(q) => Some(q > requested)
    case Malformed => None
  }

  /** The checks of findPoolCluster on one pool, in order. */
  function ConsiderPool(pool: Pool, req: Request): Verdict
  {
    if pool.storageClass != req.storageClass || pool.image != req.image || pool.cpu != req.cpu
      || pool.memory != req.memory then Skip
    else match LargerThan(pool.size, req.storage)
      case None => ParseError
      case Some(larger) => if larger then Skip else Take
  }

  /** The checks of findHealthyClusterInPool on one cluster, in order. */
  function ConsiderCluster(c: Cluster, storage: int): Verdict
  {
    if c.deleting then Skip
    else match LargerThan(c.size, storage)
      case None => ParseError
      case Some(larger) => if larger || c.ready <= 0 then Skip else Take
  }

  // ----- what the checks mean for pools and clusters

  predicate TooLarge(size: Size, requested: int) { size.Bytes? && size.quantity > requested }

  /** A size that is understood and no larger than requested. */
  predicate Fits(size: Size, requested: int) { size.Unset? || (size.Bytes? && size.quantity <= requested) }

  predicate Matches(pool: Pool, req: Request)
  {
    pool.storageClass == req.storageClass && pool.image == req.image && pool.cpu == req.cpu && pool.memory == req.memory
  }

  /** A cluster that a search may claim. */
  predicate Eligible(c: Cluster, storage: int) { !c.deleting && c.ready > 0 && Fits(c.size, storage) }

  /** A pool is searched exactly if it matches and fits; one that matches with a malformed size is an
      error; any other is skipped. */
  lemma PoolVerdict(pool: Pool, req: Request)
    ensures ConsiderPool(pool, req).Take? <==> Matches(pool, req) && Fits(pool.size, req.storage)
    ensures ConsiderPool(pool, req).ParseError? <==> Matches(pool, req) && pool.size.Malformed?
    ensures ConsiderPool(pool, req).Skip? <==> !Matches(pool, req) || TooLarge(pool.size, req.storage)
  {
  }

  /** A cluster is claimed exactly if it is eligible; one with a malformed size is an error unless it
      is being deleted; any other is skipped. */
  lemma ClusterVerdict(c: Cluster, storage: int)
    ensures ConsiderCluster(c, storage).Take? <==> Eligible(c, storage)
    ensures ConsiderCluster(c, storage).ParseError? <==> !c.deleting && c.size.Malformed?
    ensures ConsiderCluster(c, storage).Skip? <==>
      c.deleting || (Fits(c.size, storage) && c.ready <= 0) || TooLarge(c.size, storage)
  {
  }

  datatype Pc =
    | Searching(req: Request, pools: seq<Pool>)
    | Scanning(req: Request, pool: Pool, rest: seq<Pool>, items: seq<Cluster>)
    | Found(req: Request, pool: Pool, cluster: Uid)
    | NoneFound
    | Error

  /** A successful swap: who got the cluster, for what, and the version that was swapped. */
  datatype Claim = Claim(taker: Option<CallId>, req: Request, pool: Pool, swapped: Cluster)

  datatype State = State(
    store: map<Uid, Cluster>,
    history: set<Cluster>,     // every version that was ever in the store
    nextUid: Uid,
    nextVersion: Version,
    calls: map<CallId, Pc>,
    claims: seq<Claim>)

  datatype Action =
    | Call(call: CallId, req: Request, pools: seq<Pool>)
    | NextPool(call: CallId, items: seq<Cluster>)
    | NextCluster(call: CallId, nameReused: bool)
    | Relist(call: CallId, items: seq<Cluster>)
    | Deadline(call: CallId)
    | Fail(call: CallId, patched: bool)   // cancelled, or a request reports an error; a patch may have been applied
    | Provision(created: Cluster)         // the pool operator creates a cluster
    | Modify(changed: Cluster)            // anyone changes a cluster, without putting an orphan into a pool
    | Remove(uid: Uid)
    | WakeupTakes(uid: Uid, pool: Pool, req: Request)  // the wakeup reconciler claims a ready cluster

  ghost predicate Init(s: State)
  {
    s.store == map[] && s.history == {} && s.calls == map[] && s.claims == []
  }

  predicate StaleList(s: State, items: seq<Cluster>, pool: Pool)
  {
    forall i :: 0 <= i < |items| ==> items[i] in s.history && items[i].owner == Some(pool.name)
  }

  predicate Enabled(s: State, a: Action)
  {
    match a
    case Call(c, _, _) => c !in s.calls
    case NextPool(c, items) =>
      && c in s.calls && s.calls[c].Searching?
      && (s.calls[c].pools != [] ==> StaleList(s, items, s.calls[c].pools[0]))
    case NextCluster(c, _) => c in s.calls && s.calls[c].Scanning? && s.calls[c].items != []
    case Relist(c, items) => c in s.calls && s.calls[c].Scanning? && s.calls[c].items == []
      && StaleList(s, items, s.calls[c].pool)
    case Deadline(c) => c in s.calls && s.calls[c].Scanning? && s.calls[c].items == []
    case Fail(c, _) => c in s.calls && (s.calls[c].Searching? || s.calls[c].Scanning?)
    case Provision(x) => x.uid == s.nextUid && x.version == s.nextVersion
    case Modify(x) => x.uid in s.store && x.version == s.nextVersion && (s.store[x.uid].owner.None? ==> x.owner.None?)
    case Remove(u) => u in s.store
    case WakeupTakes(u, pool, _) => u in s.store && s.store[u].owner == Some(pool.name) && s.store[u].ready > 0
  }

  /** Store a new version of an object. */
  function Put(s: State, x: Cluster): State
  {
    s.(store := s.store[x.uid := x], history := s.history + {x}, nextVersion := s.nextVersion + 1)
  }

  /** The effect of the claiming patch on the object it names. */
  function Orphan(s: State, u: Uid): State
    requires u in s.store
  {
    Put(s, s.store[u].(owner := None, version := s.nextVersion))
  }

  predicate PatchApplies(s: State, item: Cluster)
  {
    item.uid in s.store && s.store[item.uid].version == item.version
  }

  function Goto(s: State, c: CallId, pc: Pc): State { s.(calls := s.calls[c := pc]) }

  function Next(s: State, a: Action): State
    requires Enabled(s, a)
  {
    match a
    case Call(c, req, pools) => Goto(s, c, Searching(req, pools))
    case NextPool(c, items) =>
      var pc := s.calls[c];
      if pc.pools == [] then Goto(s, c, NoneFound)
      else (match ConsiderPool(pc.pools[0], pc.req)
            case Skip => Goto(s, c, Searching(pc.req, pc.pools[1..]))
            case ParseError => Goto(s, c, Error)
            case Take => Goto(s, c, Scanning(pc.req, pc.pools[0], pc.pools[1..], items)))
    case NextCluster(c, nameReused) =>
      var pc, item := s.calls[c], s.calls[c].items[0];
      var skipped := Goto(s, c, pc.(items := pc.items[1..]));
      (match ConsiderCluster(item, pc.req.storage)
       case Skip => skipped
       case ParseError => Goto(s, c, Error)
       case Take =>
         if PatchApplies(s, item) then
           var t := Goto(Orphan(s, item.uid), c, Found(pc.req, pc.pool, item.uid));
           t.(claims := s.claims + [Claim(Some(c), pc.req, pc.pool, item)])
         else if item.uid in s.store || nameReused then skipped  // conflict
         else Goto(s, c, Error))                                 // the object is gone
    case Relist(c, items) => Goto(s, c, s.calls[c].(items := items))
    case Deadline(c) => Goto(s, c, Searching(s.calls[c].req, s.calls[c].rest))
    case Fail(c, patched) =>
      var pc := s.calls[c];
      var applied := patched && pc.Scanning? && pc.items != [] && PatchApplies(s, pc.items[0]);
      Goto(if applied then Orphan(s, pc.items[0].uid) else s, c, Error)
    case Provision(x) => Put(s, x).(nextUid := s.nextUid + 1)
    case Modify(x) => Put(s, x)
    case Remove(u) => s.(store := s.store - {u})
    case WakeupTakes(u, pool, req) => Orphan(s, u).(claims := s.claims + [Claim(None, req, pool, s.store[u])])
  }

  ghost predicate Step(s: State, t: State) { exists a :: Enabled(s, a) && t == Next(s, a) }

  // ----- the invariant

  /** A version number identifies one state of one object, and the store holds current ones. */
  ghost predicate VersionsIdentify(s: State)
  {
    && (forall h :: h in s.history ==> h.version < s.nextVersion && h.uid < s.nextUid)
    && (forall h, g :: h in s.history && g in s.history && h.version == g.version ==> h == g)
    && (forall u :: u in s.store ==> s.store[u].uid == u && s.store[u] in s.history)
  }

  /** `claim` is how call `c`, now at `pc`, came by its cluster. */
  ghost predicate ClaimFor(claim: Claim, c: CallId, pc: Pc)
    requires pc.Found?
  {
    claim.taker == Some(c) && claim.req == pc.req && claim.pool == pc.pool && claim.swapped.uid == pc.cluster
  }

  ghost predicate CallInv(s: State, c: CallId)
    requires c in s.calls
  {
    var pc := s.calls[c];
    && (pc.Scanning? ==> StaleList(s, pc.items, pc.pool) && ConsiderPool(pc.pool, pc.req).Take?)
    && (pc.Found? ==> exists k :: 0 <= k < |s.claims| && ClaimFor(s.claims[k], c, pc))
  }

  ghost predicate GoodClaim(s: State, claim: Claim)
  {
    && claim.swapped in s.history
    && claim.swapped.owner == Some(claim.pool.name)
    && claim.swapped.ready > 0
    && (claim.taker.Some? ==>
          && ConsiderPool(claim.pool, claim.req).Take?
          && ConsiderCluster(claim.swapped, claim.req.storage).Take?)
    && (claim.swapped.uid in s.store ==> s.store[claim.swapped.uid].owner.None?)
  }

  ghost predicate ClaimsDistinct(s: State)
  {
    forall i, j :: 0 <= i < j < |s.claims| ==> s.claims[i].swapped.uid != s.claims[j].swapped.uid
  }

  ghost predicate Inv(s: State)
  {
    && VersionsIdentify(s)
    && (forall c :: c in s.calls ==> CallInv(s, c))
    && (forall k :: 0 <= k < |s.claims| ==> GoodClaim(s, s.claims[k]))
    && ClaimsDistinct(s)
  }

  lemma PutKeepsInv(s: State, x: Cluster)
    requires Inv(s) && x.version == s.nextVersion && x.uid < s.nextUid
    requires x.uid in s.store && (s.store[x.uid].owner.None? ==> x.owner.None?)
    ensures Inv(Put(s, x))
  {
    var t := Put(s, x);
    forall c | c in t.calls ensures CallInv(t, c) { assert CallInv(s, c); }
    forall k | 0 <= k < |t.claims| ensures GoodClaim(t, t.claims[k]) { assert GoodClaim(s, s.claims[k]); }
  }

  lemma ProvisionKeepsInv(s: State, x: Cluster)
    requires Inv(s) && x.version == s.nextVersion && x.uid == s.nextUid
    ensures Inv(Put(s, x).(nextUid := s.nextUid + 1))
  {
    var t := Put(s, x).(nextUid := s.nextUid + 1);
    forall c | c in t.calls ensures CallInv(t, c) { assert CallInv(s, c); }
    forall k | 0 <= k < |t.claims| ensures GoodClaim(t, t.claims[k]) { assert GoodClaim(s, s.claims[k]); }
  }

  lemma GotoKeepsInv(s: State, c: CallId, pc: Pc)
    requires Inv(s) && CallInv(Goto(s, c, pc), c)
    ensures Inv(Goto(s, c, pc))
  {
    var t := Goto(s, c, pc);
    forall d | d in t.calls ensures CallInv(t, d) { assert d in s.calls ==> CallInv(s, d); }
    forall k | 0 <= k < |t.claims| ensures GoodClaim(t, t.claims[k]) { assert GoodClaim(s, s.claims[k]); }
  }

  /** The swap succeeds only against the very version that was read, so the cluster still had its
      owner and was in nobody's hands. */
  lemma ClaimKeepsInv(s: State, u: Uid, claim: Claim)
    requires Inv(s) && u in s.store && claim.swapped == s.store[u]
    requires claim.swapped.owner == Some(claim.pool.name) && claim.swapped.ready > 0
    requires claim.taker.Some? ==>
      && ConsiderPool(claim.pool, claim.req).Take?
      && ConsiderCluster(claim.swapped, claim.req.storage).Take?
    ensures Inv(Orphan(s, u).(claims := s.claims + [claim]))
  {
    var o := Orphan(s, u);
    PutKeepsInv(s, s.store[u].(owner := None, version := s.nextVersion));
    var t := o.(claims := s.claims + [claim]);
    forall k | 0 <= k < |s.claims| ensures s.claims[k].swapped.uid != u { assert GoodClaim(s, s.claims[k]); }
    forall k | 0 <= k < |t.claims| ensures GoodClaim(t, t.claims[k]) {
      assert k < |s.claims| ==> t.claims[k] == s.claims[k] && GoodClaim(o, s.claims[k]);
    }
    forall c | c in t.calls ensures CallInv(t, c) {
      assert CallInv(o, c);
      if t.calls[c].Found? {
        var k :| 0 <= k < |o.claims| && ClaimFor(o.claims[k], c, t.calls[c]);
        assert t.claims[k] == o.claims[k];
      }
    }
  }

  lemma NextClusterKeepsInv(s: State, c: CallId, nameReused: bool)
    requires Inv(s) && Enabled(s, NextCluster(c, nameReused))
    ensures Inv(Next(s, NextCluster(c, nameReused)))
  {
    var pc, item := s.calls[c], s.calls[c].items[0];
    assert CallInv(s, c);
    if ConsiderCluster(item, pc.req.storage).Take? && PatchApplies(s, item) {
      assert item == s.store[item.uid];
      var claim := Claim(Some(c), pc.req, pc.pool, item);
      ClaimKeepsInv(s, item.uid, claim);
      var t := Orphan(s, item.uid).(claims := s.claims + [claim]);
      assert t.claims[|s.claims|] == claim;
      GotoKeepsInv(t, c, Found(pc.req, pc.pool, item.uid));
    } else {
      GotoKeepsInv(s, c, Error);
      GotoKeepsInv(s, c, pc.(items := pc.items[1..]));
    }
  }

  lemma InvPreserved(s: State, a: Action)
    requires Inv(s) && Enabled(s, a)
    ensures Inv(Next(s, a))
  {
    match a
    case NextCluster(c, reused) => NextClusterKeepsInv(s, c, reused);
    case Fail(c, patched) =>
      var pc := s.calls[c];
      if patched && pc.Scanning? && pc.items != [] && PatchApplies(s, pc.items[0]) {
        PutKeepsInv(s, s.store[pc.items[0].uid].(owner := None, version := s.nextVersion));
        GotoKeepsInv(Orphan(s, pc.items[0].uid), c, Error);
      } else {
        GotoKeepsInv(s, c, Error);
      }
    case Provision(x) => ProvisionKeepsInv(s, x);
    case Modify(x) => PutKeepsInv(s, x);
    case Remove(u) =>
      var t := Next(s, a);
      forall c | c in t.calls ensures CallInv(t, c) { assert CallInv(s, c); }
      forall k | 0 <= k < |t.claims| ensures GoodClaim(t, t.claims[k]) { assert GoodClaim(s, s.claims[k]); }
    case WakeupTakes(u, pool, req) => ClaimKeepsInv(s, u, Claim(None, req, pool, s.store[u]));
    case Call(c, req, pools) => GotoKeepsInv(s, c, Searching(req, pools));
    case NextPool(c, _) => GotoKeepsInv(s, c, Next(s, a).calls[c]);
    case Relist(c, _) => assert CallInv(s, c); GotoKeepsInv(s, c, Next(s, a).calls[c]);
    case Deadline(c) => GotoKeepsInv(s, c, Next(s, a).calls[c]);
  }

  lemma ReachableInv(run: seq<State>, i: nat)
    requires IsRun(Init, Step, run) && i < |run|
    ensures Inv(run[i])
  {
    forall s, t | Inv(s) && Step(s, t) ensures Inv(t) {
      var a :| Enabled(s, a) && t == Next(s, a);
      InvPreserved(s, a);
    }
    Stable(Step, Inv, run, 0, i);
  }

  // ----- what every run guarantees

  /** No cluster is ever handed out twice: not to two callers, and not to a caller and the wakeup
      reconciler. */
  lemma NoClusterClaimedTwice(run: seq<State>, i: nat, c: CallId, d: CallId)
    requires IsRun(Init, Step, run) && i < |run|
    ensures ClaimsDistinct(run[i])
    ensures c in run[i].calls && d in run[i].calls && c != d && run[i].calls[c].Found? && run[i].calls[d].Found?
      ==> run[i].calls[c].cluster != run[i].calls[d].cluster
  {
    ReachableInv(run, i);
    var s := run[i];
    if c in s.calls && d in s.calls && c != d && s.calls[c].Found? && s.calls[d].Found? {
      assert CallInv(s, c) && CallInv(s, d);
      var k :| 0 <= k < |s.claims| && ClaimFor(s.claims[k], c, s.calls[c]);
      var l :| 0 <= l < |s.claims| && ClaimFor(s.claims[l], d, s.calls[d]);
    }
  }

  /** Every cluster returned to a caller was claimed by that caller, for its own request and from the
      pool returned with it, in a version that was in the store, was owned by that pool, which matches
      the request, was not being deleted and had a ready instance; pool and cluster are of a size
      that is understood and no larger than requested; and no pool owns the cluster again. */
  lemma ReturnedClustersAreEligible(run: seq<State>, i: nat, c: CallId) returns (claim: Claim)
    requires IsRun(Init, Step, run) && i < |run|
    requires c in run[i].calls && run[i].calls[c].Found?
    ensures claim in run[i].claims && ClaimFor(claim, c, run[i].calls[c])
    ensures claim.swapped in run[i].history && claim.swapped.owner == Some(claim.pool.name)
    ensures claim.pool.storageClass == claim.req.storageClass && claim.pool.image == claim.req.image
    ensures claim.pool.cpu == claim.req.cpu && claim.pool.memory == claim.req.memory
    ensures !claim.pool.size.Malformed? && (claim.pool.size.Bytes? ==> claim.pool.size.quantity <= claim.req.storage)
    ensures !claim.swapped.deleting && claim.swapped.ready > 0
    ensures !claim.swapped.size.Malformed?
    ensures claim.swapped.size.Bytes? ==> claim.swapped.size.quantity <= claim.req.storage
    ensures forall j :: i <= j < |run| && claim.swapped.uid in run[j].store ==>
      run[j].store[claim.swapped.uid].owner.None?
  {
    ReachableInv(run, i);
    assert CallInv(run[i], c);
    var k :| 0 <= k < |run[i].claims| && ClaimFor(run[i].claims[k], c, run[i].calls[c]);
    claim := run[i].claims[k];
    assert GoodClaim(run[i], claim);
    forall j | i <= j < |run| ensures claim in run[j].claims {
      forall s: State, t: State | claim in s.claims && Step(s, t) ensures claim in t.claims {
        ClaimsStay(s, t);
      }
      var held := claim;
      Stable(Step, (s: State) => held in s.claims, run, i, j);
    }
    forall j | i <= j < |run| && claim.swapped.uid in run[j].store ensures run[j].store[claim.swapped.uid].owner.None? {
      ReachableInv(run, j);
      var l :| 0 <= l < |run[j].claims| && run[j].claims[l] == claim;
      assert GoodClaim(run[j], run[j].claims[l]);
    }
  }

  lemma ClaimsStay(s: State, t: State)
    requires Step(s, t)
    ensures s.claims <= t.claims
  {
  }

  /** The request of a call, while it has not given up. */
  ghost predicate Asks(s: State, c: CallId, req: Request)
  {
    c in s.calls && (s.calls[c].NoneFound? || s.calls[c].Error? || s.calls[c].req == req)
  }

  /** A call that finds a cluster finds it for the request it was made with. */
  lemma RequestStays(run: seq<State>, i: nat, j: nat, c: CallId, req: Request)
    requires IsRun(Init, Step, run) && i <= j < |run| && Asks(run[i], c, req)
    ensures Asks(run[j], c, req)
  {
    forall s: State, t: State | Asks(s, c, req) && Step(s, t) ensures Asks(t, c, req) {
    }
    Stable(Step, (s: State) => Asks(s, c, req), run, i, j);
  }

  // ----- the search as code

  /** Being deleted, too large, without a ready instance, or no longer in the store as it was when it
      was listed. */
  ghost predicate PassedOver(s: State, item: Cluster, storage: int)
  {
    || item.deleting
    || TooLarge(item.size, storage)
    || (item.ready <= 0 && Fits(item.size, storage))
    || (Eligible(item, storage) && item.version < s.nextVersion && !PatchApplies(s, item))
  }

  /** Nothing that a search could see has changed. */
  ghost predicate SameClusters(s: State, t: State)
  {
    t.store == s.store && t.history == s.history && t.nextVersion == s.nextVersion && t.claims == s.claims
  }

  /** A version that is gone never comes back. */
  ghost predicate StillPassedOver(s: State, t: State)
  {
    forall item, storage :: PassedOver(s, item, storage) ==> PassedOver(t, item, storage)
  }

  lemma PassedOverStays(s: State, a: Action)
    requires Enabled(s, a)
    ensures StillPassedOver(s, Next(s, a))
  {
    forall item, storage | PassedOver(s, item, storage) ensures PassedOver(Next(s, a), item, storage) {
    }
  }

  /** `a` is a step of call `c`. */
  predicate ActsFor(a: Action, c: CallId)
  {
    (a.Call? || a.NextPool? || a.NextCluster? || a.Relist? || a.Deadline? || a.Fail?) && a.call == c
  }

  /** The API server together with the history of its states. */
  class Server {
    var st: State
    ghost var history: seq<State>

    ghost predicate Valid()
      reads this
    {
      IsRun(Init, Step, history) && history[|history| - 1] == st
    }

    constructor (initial: State)
      requires Init(initial)
      ensures Valid() && st == initial
    {
      st, history := initial, [initial];
    }

    method Perform(a: Action)
      requires Valid() && Enabled(st, a)
      modifies this
      ensures Valid() && st == Next(old(st), a) && history == old(history) + [st]
      ensures StillPassedOver(old(st), st)
    {
      ghost var before := history;
      PassedOverStays(st, a);
      assert Step(st, Next(st, a));
      st := Next(st, a);
      history := history + [st];
      forall i, j | 0 <= i && j == i + 1 < |history| ensures Step(history[i], history[j]) {
        if j < |before| {
          assert Step(before[i], before[j]);
        }
      }
    }

    /** Everyone else acts as `schedule` says; entries that are not possible are skipped. */
    method Others(schedule: seq<Action>, c: CallId)
      requires Valid() && c in st.calls
      modifies this
      ensures Valid() && old(history) <= history
      ensures c in st.calls && st.calls[c] == old(st.calls[c])
      ensures StillPassedOver(old(st), st)
      ensures schedule == [] ==> st == old(st)
    {
      for i := 0 to |schedule|
        invariant i == 0 ==> st == old(st)
        invariant Valid() && old(history) <= history
        invariant c in st.calls && st.calls[c] == old(st.calls[c])
        invariant StillPassedOver(old(st), st)
      {
        if Enabled(st, schedule[i]) && !ActsFor(schedule[i], c) {
          Perform(schedule[i]);
        }
      }
    }
  }

  /** What the world does around one request of a search: the steps of others before it, the clusters
      it would list, whether it fails, and if so whether a patch was applied nevertheless. */
  datatype Choice = Choice(others: seq<Action>, listing: seq<Cluster>, nameReused: bool, failing: bool, patched: bool)

  /** The choice for the n-th pool, its p-th poll and, counting from one, the i-th cluster of that
      poll; zero is the listing itself. */
  type World = (nat, nat, nat) -> Choice

  /** Nobody else acts. */
  ghost predicate Quiet(world: World) { forall n, p, i :: world(n, p, i).others == [] }

  /** The part of a proposed listing that the cache may return: past versions owned by the pool. */
  function Visible(history: set<Cluster>, proposed: seq<Cluster>, pool: Pool): (items: seq<Cluster>)
    ensures forall x :: x in items <==> x in proposed && x in history && x.owner == Some(pool.name)
    ensures (forall x :: x in proposed ==> x in history && x.owner == Some(pool.name)) ==> items == proposed
  {
    if proposed == [] then []
    else
      var front, x := Visible(history, proposed[..|proposed| - 1], pool), proposed[|proposed| - 1];
      assert proposed == proposed[..|proposed| - 1] + [x];
      if x in history && x.owner == Some(pool.name) then front + [x] else front
  }

  /** Everything that the p-th poll of the n-th pool listed has been passed over. */
  ghost predicate PollPassedOver(s: State, history: set<Cluster>, world: World, n: nat, p: nat, pool: Pool,
                                 storage: int)
  {
    AllPassedOver(s, Visible(history, world(n, p, 0).listing, pool), storage)
  }

  ghost predicate AllPassedOver(s: State, items: seq<Cluster>, storage: int)
  {
    forall x :: x in items ==> PassedOver(s, x, storage)
  }

  /** The same for the polls before the p-th, beginning with the first after the initial listing. */
  ghost predicate PollsPassedOver(s: State, history: set<Cluster>, world: World, n: nat, p: nat, pool: Pool,
                                  storage: int)
  {
    forall q :: 1 <= q < p ==> PollPassedOver(s, history, world, n, q, pool, storage)
  }

  lemma SameKeepsPolls(s: State, t: State, history: set<Cluster>, world: World, n: nat, p: nat, pool: Pool,
                       storage: int)
    requires PollsPassedOver(s, history, world, n, p, pool, storage) && SameClusters(s, t)
    ensures PollsPassedOver(t, history, world, n, p, pool, storage)
  {
    forall q | 1 <= q < p ensures PollPassedOver(t, history, world, n, q, pool, storage) {
      assert PollPassedOver(s, history, world, n, q, pool, storage);
    }
  }

  datatype Outcome = Claimed(cluster: Uid) | Exhausted | Failed

  /** What can make the search in a pool fail: a request fails, or a cluster that was listed has a
      malformed size or is gone. */
  ghost predicate Excuse(s: State, world: World)
  {
    || (exists n, p, i :: world(n, p, i).failing)
    || (exists x :: x in s.history && (x.size.Malformed? || x.uid !in s.store))
  }

  /** findHealthyClusterInPool, on the clusters it has listed: the first eligible one whose version is
      still current is claimed, and all before it were passed over. */
  method FindHealthyCluster(server: Server, c: CallId, world: World, n: nat, p: nat) returns (r: Outcome, at: nat)
    requires server.Valid() && c in server.st.calls && server.st.calls[c].Scanning?
    modifies server
    ensures server.Valid() && old(server.history) <= server.history && c in server.st.calls
    ensures var pc := old(server.st.calls[c]);
      && at <= |pc.items| && (forall i :: 0 <= i < at ==> PassedOver(server.st, pc.items[i], pc.req.storage))
      && (r.Exhausted? ==> at == |pc.items| && server.st.calls[c] == pc.(items := []))
      && (r.Claimed? ==> at < |pc.items| && Eligible(pc.items[at], pc.req.storage))
      && (r.Claimed? ==> server.st.calls[c] == Found(pc.req, pc.pool, r.cluster) && r.cluster == pc.items[at].uid)
      && (r.Failed? ==> at < |pc.items| && server.st.calls[c].Error? && Excuse(server.st, world))
    ensures StillPassedOver(old(server.st), server.st)
    ensures Quiet(world) && r.Exhausted? ==> SameClusters(old(server.st), server.st)
  {
    var pc := server.st.calls[c];
    var items := pc.items;
    for i := 0 to |items|
      invariant StillPassedOver(old(server.st), server.st)
      invariant Quiet(world) ==> SameClusters(old(server.st), server.st)
      invariant server.Valid() && old(server.history) <= server.history
      invariant c in server.st.calls && server.st.calls[c] == pc.(items := items[i..])
      invariant forall j :: 0 <= j < i ==> PassedOver(server.st, items[j], pc.req.storage)
    {
      assert items[i..][0] == items[i] && items[i..][1..] == items[i + 1..];
      var choice := world(n, p, i + 1);
      server.Others(choice.others, c);
      var verdict := TryCluster(server, c, choice);
      if verdict.Failed? {
        return Failed, i;
      }
      if verdict.Claimed? {
        return verdict, i;
      }
    }
    return Exhausted, |items|;
  }

  /** The cluster `u` has lost its owner in a new version, and is otherwise as it was, like all others. */
  ghost predicate Released(s: State, t: State, u: Uid)
  {
    u in s.store && t.store == s.store[u := s.store[u].(owner := None, version := s.nextVersion)]
  }

  /** The body of its loop. */
  method TryCluster(server: Server, c: CallId, choice: Choice) returns (r: Outcome)
    requires server.Valid() && c in server.st.calls && server.st.calls[c].Scanning? && server.st.calls[c].items != []
    modifies server
    ensures server.Valid() && old(server.history) <= server.history && c in server.st.calls
    ensures StillPassedOver(old(server.st), server.st)
    ensures var pc := old(server.st.calls[c]);
      && (r.Exhausted? ==> server.st.calls[c] == pc.(items := pc.items[1..]))
      && (r.Exhausted? ==> PassedOver(server.st, pc.items[0], pc.req.storage))
      && (r.Exhausted? ==> SameClusters(old(server.st), server.st))
      && (r.Claimed? ==> Eligible(pc.items[0], pc.req.storage) && PatchApplies(old(server.st), pc.items[0]))
      && (r.Claimed? ==> server.st.calls[c] == Found(pc.req, pc.pool, r.cluster) && r.cluster == pc.items[0].uid)
      && (r.Claimed? ==> server.st.claims == old(server.st.claims) + [Claim(Some(c), pc.req, pc.pool, pc.items[0])])
      && (r.Claimed? ==> Released(old(server.st), server.st, r.cluster))
      && (Eligible(pc.items[0], pc.req.storage) && PatchApplies(old(server.st), pc.items[0]) && !choice.failing ==>
            r.Claimed?)
      && (r.Failed? ==> server.st.calls[c].Error? && pc.items[0] in server.st.history)
      && (r.Failed? ==> choice.failing || pc.items[0].size.Malformed? || pc.items[0].uid !in server.st.store)
  {
    var pc := server.st.calls[c];
    var cluster := pc.items[0];
    ListedBefore(server, c);
    if cluster.deleting {
      server.Perform(NextCluster(c, false));
      return Exhausted;
    }
    var larger := LargerThan(cluster.size, pc.req.storage);
    if larger.None? {
      server.Perform(NextCluster(c, false));
      return Failed;
    }
    if larger.value || cluster.ready <= 0 {
      server.Perform(NextCluster(c, false));
      return Exhausted;
    }
    if choice.failing {
      server.Perform(Fail(c, choice.patched));
      return Failed;
    }
    server.Perform(NextCluster(c, choice.nameReused));
    if server.st.calls[c].Found? {
      return Claimed(cluster.uid);
    }
    return if server.st.calls[c].Error? then Failed else Exhausted;
  }

  lemma ListedBefore(server: Server, c: CallId)
    requires server.Valid() && c in server.st.calls && server.st.calls[c].Scanning? && server.st.calls[c].items != []
    ensures server.st.calls[c].items[0] in server.st.history
    ensures server.st.calls[c].items[0].version < server.st.nextVersion
    ensures forall u :: u in server.st.store ==> server.st.store[u].uid == u
  {
    ReachableInv(server.history, |server.history| - 1);
    assert CallInv(server.st, c);
  }

  lemma OneMorePoll(s: State, t: State, history: set<Cluster>, world: World, n: nat, p: nat, pool: Pool, storage: int)
    requires PollsPassedOver(s, history, world, n, p, pool, storage) && SameClusters(s, t)
    requires p > 0 ==> PollPassedOver(t, history, world, n, p, pool, storage)
    ensures PollsPassedOver(t, history, world, n, p + 1, pool, storage)
  {
    SameKeepsPolls(s, t, history, world, n, p, pool, storage);
  }

  /** The wait between two polls and the listing of the next. */
  method NextListing(server: Server, c: CallId, choice: Choice) returns (ok: bool)
    requires server.Valid() && c in server.st.calls && server.st.calls[c].Scanning? && server.st.calls[c].items == []
    modifies server
    ensures server.Valid() && old(server.history) <= server.history && c in server.st.calls
    ensures ok == !choice.failing && StillPassedOver(old(server.st), server.st)
    ensures ok ==> server.st.calls[c].Scanning?
    ensures ok ==> server.st.calls[c] == old(server.st.calls[c]).(items := server.st.calls[c].items)
    ensures ok && choice.others == [] ==>
      && SameClusters(old(server.st), server.st)
      && server.st.calls[c].items == Visible(old(server.st.history), choice.listing, old(server.st.calls[c].pool))
    ensures !ok ==> server.st.calls[c].Error?
  {
    var pool := server.st.calls[c].pool;
    server.Others(choice.others, c);
    ok := !choice.failing;
    server.Perform(if ok then Relist(c, Visible(server.st.history, choice.listing, pool)) else Fail(c, false));
  }

  /** How a round of the search ends that began with call `c` at `pc` in state `s`: with a cluster, an
      error, the end of the search if it is `late`, or the next listing. */
  ghost predicate PolledOnce(s: State, t: State, c: CallId, world: World, n: nat, p: nat, late: bool, r: Outcome)
    requires c in s.calls && s.calls[c].Scanning?
  {
    var pc := s.calls[c];
    && c in t.calls
    && match r
       case Claimed(cluster) => t.calls[c] == Found(pc.req, pc.pool, cluster)
       case Failed => t.calls[c].Error? && Excuse(t, world)
       case Exhausted =>
         && AllPassedOver(t, pc.items, pc.req.storage) && (Quiet(world) ==> SameClusters(s, t))
         && (late ==> t.calls[c] == Searching(pc.req, pc.rest))
         && (!late ==> t.calls[c].Scanning? && t.calls[c] == pc.(items := t.calls[c].items))
         && (!late && Quiet(world) ==> t.calls[c].items == Visible(s.history, world(n, p + 1, 0).listing, pc.pool))
  }

  /** One round of findAvailableClusterInPool: the p-th scan and, if it comes up empty, the end of the
      search at the deadline or the next listing. */
  method PollOnce(server: Server, c: CallId, world: World, n: nat, p: nat, late: bool) returns (r: Outcome)
    requires server.Valid() && c in server.st.calls && server.st.calls[c].Scanning?
    modifies server
    ensures server.Valid() && old(server.history) <= server.history
    ensures PolledOnce(old(server.st), server.st, c, world, n, p, late, r)
  {
    var at;
    r, at := FindHealthyCluster(server, c, world, n, p);
    if r.Exhausted? {
      if late {
        server.Perform(Deadline(c));
      } else {
        var ok := NextListing(server, c, world(n, p + 1, 0));
        if !ok {
          r := Failed;
        }
      }
    }
  }

  /** The search has come to its p-th listing in state `t`, from state `s` with call `c` at `pc`. */
  ghost predicate Polling(s: State, t: State, c: CallId, pc: Pc, world: World, n: nat, p: nat)
    requires pc.Scanning?
  {
    && c in t.calls && t.calls[c].Scanning? && t.calls[c] == pc.(items := t.calls[c].items)
    && (p == 0 ==> t.calls[c].items == pc.items)
    && (Quiet(world) ==>
          && SameClusters(s, t) && (p > 0 ==> AllPassedOver(t, pc.items, pc.req.storage))
          && PollsPassedOver(t, s.history, world, n, p, pc.pool, pc.req.storage)
          && (p > 0 ==> t.calls[c].items == Visible(s.history, world(n, p, 0).listing, pc.pool)))
  }

  /** How the search in a pool ends: with a cluster of the pool, with an error, or with the next pool;
      then, as far as nobody interfered, everything that was listed has been passed over. */
  ghost predicate Polled(s: State, t: State, c: CallId, pc: Pc, world: World, n: nat, polls: nat, r: Outcome)
    requires pc.Scanning?
  {
    && c in t.calls
    && match r
       case Claimed(cluster) => t.calls[c] == Found(pc.req, pc.pool, cluster)
       case Failed => t.calls[c].Error? && Excuse(t, world)
       case Exhausted =>
         && t.calls[c] == Searching(pc.req, pc.rest)
         && (Quiet(world) ==>
               && SameClusters(s, t) && AllPassedOver(t, pc.items, pc.req.storage)
               && PollsPassedOver(t, s.history, world, n, polls + 1, pc.pool, pc.req.storage))
  }

  lemma PollingGoesOn(s: State, t: State, u: State, c: CallId, pc: Pc, world: World, n: nat, p: nat, late: bool,
                      r: Outcome)
    requires pc.Scanning? && Polling(s, t, c, pc, world, n, p) && PolledOnce(t, u, c, world, n, p, late, r)
    ensures late || !r.Exhausted? ==> Polled(s, u, c, pc, world, n, p, r)
    ensures !late && r.Exhausted? ==> Polling(s, u, c, pc, world, n, p + 1)
  {
    if Quiet(world) && r.Exhausted? {
      assert p > 0 ==> PollPassedOver(u, s.history, world, n, p, pc.pool, pc.req.storage);
      OneMorePoll(t, u, s.history, world, n, p, pc.pool, pc.req.storage);
    }
  }

  /** The states in which a search that began in `s` may be at its p-th listing. */
  ghost function PollingStates(s: State, c: CallId, pc: Pc, world: World, n: nat, p: nat): iset<State>
    requires pc.Scanning?
  {
    iset t | Polling(s, t, c, pc, world, n, p)
  }

  /** The states in which it may have ended with `r`. */
  ghost function PolledStates(s: State, c: CallId, pc: Pc, world: World, n: nat, polls: nat, r: Outcome): iset<State>
    requires pc.Scanning?
  {
    iset t | Polled(s, t, c, pc, world, n, polls, r)
  }

  method PollOn(server: Server, ghost s: State, c: CallId, ghost pc: Pc, world: World, n: nat, p: nat, polls: nat)
    returns (r: Outcome, done: bool)
    requires server.Valid() && pc.Scanning? && server.st in PollingStates(s, c, pc, world, n, p)
    modifies server
    ensures server.Valid() && old(server.history) <= server.history && (p == polls ==> done)
    ensures done ==> server.st in PolledStates(s, c, pc, world, n, polls, r)
    ensures !done ==> server.st in PollingStates(s, c, pc, world, n, p + 1)
  {
    r := PollOnce(server, c, world, n, p, p == polls);
    PollingGoesOn(s, old(server.st), server.st, c, pc, world, n, p, p == polls, r);
    done := p == polls || !r.Exhausted?;
  }

  /** findAvailableClusterInPool, from the first listing on; the deadline is up after `polls` more. */
  method FindAvailableCluster(server: Server, c: CallId, world: World, n: nat, polls: nat) returns (r: Outcome)
    requires server.Valid() && c in server.st.calls && server.st.calls[c].Scanning?
    modifies server
    ensures server.Valid() && old(server.history) <= server.history
    ensures server.st in PolledStates(old(server.st), c, old(server.st.calls[c]), world, n, polls, r)
  {
    ghost var s, pc := server.st, server.st.calls[c];
    var p := 0;
    while true
      invariant p <= polls && server.Valid() && old(server.history) <= server.history
      invariant server.st in PollingStates(s, c, pc, world, n, p)
      decreases polls - p
    {
      var done;
      r, done := PollOn(server, s, c, pc, world, n, p, polls);
      if done {
        return;
      }
      p := p + 1;
    }
  }

  /** `claim` gave call `c` the cluster `u` of `pool` for `req`, in an eligible version, and nobody
      else has ever been given that cluster. */
  ghost predicate ClaimedFor(s: State, claim: Claim, c: CallId, req: Request, pool: Pool, u: Uid)
  {
    && claim in s.claims && claim.taker == Some(c) && claim.req == req && claim.pool == pool && claim.swapped.uid == u
    && claim.swapped in s.history && claim.swapped.owner == Some(pool.name)
    && Matches(pool, req) && Fits(pool.size, req.storage) && Eligible(claim.swapped, req.storage)
    && ClaimsDistinct(s)
  }

  /** The n-th pool does not match, is too large, or came up empty: whatever its polls listed has been
      passed over, as far as nobody else interfered. */
  ghost predicate PoolPassedOver(s: State, history: set<Cluster>, world: World, n: nat, polls: nat, pool: Pool,
                                 req: Request)
  {
    || !Matches(pool, req)
    || TooLarge(pool.size, req.storage)
    || (Fits(pool.size, req.storage) &&
        (Quiet(world) ==>
           && PollPassedOver(s, history, world, n, 0, pool, req.storage)
           && PollsPassedOver(s, history, world, n, polls + 1, pool, req.storage)))
  }

  lemma SameKeepsPassedOver(s: State, t: State, history: set<Cluster>, world: World, n: nat, polls: nat, pool: Pool,
                            req: Request)
    requires PoolPassedOver(s, history, world, n, polls, pool, req) && (Quiet(world) ==> SameClusters(s, t))
    ensures PoolPassedOver(t, history, world, n, polls, pool, req)
  {
    if Quiet(world) && Matches(pool, req) && !TooLarge(pool.size, req.storage) {
      SameKeepsPolls(s, t, history, world, n, polls + 1, pool, req.storage);
    }
  }

  /** findPoolCluster. A cluster that it returns was claimed from a matching pool for this request, and
      the pools before were passed over; it comes back empty only after every pool was. */
  method FindPoolCluster(server: Server, c: CallId, req: Request, pools: seq<Pool>, listFails: bool,
                         world: World, polls: nat)
    returns (r: Outcome, at: nat)
    requires server.Valid() && c !in server.st.calls
    modifies server
    ensures server.Valid() && old(server.history) <= server.history && c in server.st.calls
    ensures at <= |pools|
    ensures forall i :: 0 <= i < at ==> !Matches(pools[i], req) || !pools[i].size.Malformed?
    ensures r.Exhausted? ==> forall i :: 0 <= i < at ==>
      PoolPassedOver(server.st, old(server.st.history), world, i, polls, pools[i], req)
    ensures Quiet(world) && r.Exhausted? ==> SameClusters(old(server.st), server.st)
    ensures r.Exhausted? ==> at == |pools| && server.st.calls[c].NoneFound?
    ensures r.Claimed? ==> at < |pools| && exists claim :: ClaimedFor(server.st, claim, c, req, pools[at], r.cluster)
    ensures r.Failed? ==> server.st.calls[c].Error?
    ensures r.Failed? ==>
      listFails || Excuse(server.st, world) || (at < |pools| && Matches(pools[at], req) && pools[at].size.Malformed?)
  {
    server.Perform(Call(c, req, pools));
    if listFails {
      server.Perform(Fail(c, false));
      return Failed, 0;
    }
    assert pools[0..] == pools;
    for i := 0 to |pools|
      invariant server.Valid() && old(server.history) <= server.history
      invariant c in server.st.calls && server.st.calls[c] == Searching(req, pools[i..])
      invariant Quiet(world) ==> SameClusters(old(server.st), server.st)
      invariant forall j :: 0 <= j < i ==>
        PoolPassedOver(server.st, old(server.st.history), world, j, polls, pools[j], req)
    {
      assert pools[i..][0] == pools[i] && pools[i..][1..] == pools[i + 1..];
      ghost var before := server.st;
      r := TryPool(server, c, world, i, polls);
      if r.Claimed? {
        ghost var claim := FoundMeansClaimed(server, c);
        return r, i;
      }
      if r.Failed? {
        return Failed, i;
      }
      forall j | 0 <= j < i
        ensures PoolPassedOver(server.st, old(server.st.history), world, j, polls, pools[j], req)
      {
        SameKeepsPassedOver(before, server.st, old(server.st.history), world, j, polls, pools[j], req);
      }
    }
    ghost var before := server.st;
    server.Perform(NextPool(c, []));
    forall j | 0 <= j < |pools|
      ensures PoolPassedOver(server.st, old(server.st.history), world, j, polls, pools[j], req)
    {
      SameKeepsPassedOver(before, server.st, old(server.st.history), world, j, polls, pools[j], req);
    }
    return Exhausted, |pools|;
  }

  /** The body of its loop. */
  method TryPool(server: Server, c: CallId, world: World, n: nat, polls: nat) returns (r: Outcome)
    requires server.Valid() && c in server.st.calls && server.st.calls[c].Searching? && server.st.calls[c].pools != []
    modifies server
    ensures server.Valid() && old(server.history) <= server.history && c in server.st.calls
    ensures var pc := old(server.st.calls[c]);
      && (r.Exhausted? ==> server.st.calls[c] == pc.(pools := pc.pools[1..]))
      && (r.Exhausted? ==>
            PoolPassedOver(server.st, old(server.st.history), world, n, polls, pc.pools[0], pc.req))
      && (!Matches(pc.pools[0], pc.req) || TooLarge(pc.pools[0].size, pc.req.storage) ==> r.Exhausted?)
      && (Quiet(world) && r.Exhausted? ==> SameClusters(old(server.st), server.st))
      && (r.Claimed? ==> server.st.calls[c] == Found(pc.req, pc.pools[0], r.cluster))
      && (r.Failed? ==> server.st.calls[c].Error?)
      && (r.Failed? ==> (Matches(pc.pools[0], pc.req) && pc.pools[0].size.Malformed?) || Excuse(server.st, world))
  {
    var pc := server.st.calls[c];
    var pool, req := pc.pools[0], pc.req;
    var choice := world(n, 0, 0);
    server.Others(choice.others, c);
    if pool.storageClass != req.storageClass || pool.image != req.image || pool.cpu != req.cpu
      || pool.memory != req.memory
    {
      server.Perform(NextPool(c, []));
      return Exhausted;
    }
    var larger := LargerThan(pool.size, req.storage);
    if larger.None? {
      server.Perform(NextPool(c, []));
      return Failed;
    }
    if larger.value {
      server.Perform(NextPool(c, []));
      return Exhausted;
    }
    if choice.failing {
      server.Perform(Fail(c, false));
      return Failed;
    }
    r := SearchPool(server, c, world, n, polls);
  }

  /** The search in a pool that matches and fits. */
  method SearchPool(server: Server, c: CallId, world: World, n: nat, polls: nat) returns (r: Outcome)
    requires server.Valid() && c in server.st.calls && server.st.calls[c].Searching? && server.st.calls[c].pools != []
    requires var pc := server.st.calls[c]; Matches(pc.pools[0], pc.req) && Fits(pc.pools[0].size, pc.req.storage)
    modifies server
    ensures server.Valid() && old(server.history) <= server.history && c in server.st.calls
    ensures var pc := old(server.st.calls[c]);
      && (r.Exhausted? ==> server.st.calls[c] == pc.(pools := pc.pools[1..]))
      && (Quiet(world) && r.Exhausted? ==>
            && SameClusters(old(server.st), server.st)
            && PoolPassedOver(server.st, old(server.st.history), world, n, polls, pc.pools[0], pc.req))
      && (r.Claimed? ==> server.st.calls[c] == Found(pc.req, pc.pools[0], r.cluster))
      && (r.Failed? ==> server.st.calls[c].Error? && Excuse(server.st, world))
  {
    var pool := server.st.calls[c].pools[0];
    server.Perform(NextPool(c, Visible(server.st.history, world(n, 0, 0).listing, pool)));
    r := FindAvailableCluster(server, c, world, n, polls);
  }

  lemma FoundMeansClaimed(server: Server, c: CallId) returns (claim: Claim)
    requires server.Valid() && c in server.st.calls && server.st.calls[c].Found?
    ensures var pc := server.st.calls[c]; ClaimedFor(server.st, claim, c, pc.req, pc.pool, pc.cluster)
  {
    var run, i := server.history, |server.history| - 1;
    NoClusterClaimedTwice(run, i, c, c);
    claim := ReturnedClustersAreEligible(run, i, c);
  }
}
