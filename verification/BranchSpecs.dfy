/** services/clusters/branchbuilder.go, driven from clusters.go: how a Branch object is built when
    it is created and rebuilt by every update.

    The builder keeps the Postgres parameters as a list; the functions below describe the same
    pipeline with a map, and the builder's methods are proved to follow them while keeping the
    list sorted. Between updates the wakeup reconciler assigns clusters and the scale-to-zero
    sidecar puts branches to sleep. */
module BranchSpecs {
  import opened Runs
  import Images

  const XATAUTILS := "xatautils"

  datatype Hibernation = Enabled | Disabled
  datatype Restore = VolumeSnapshot | XVolClone | ObjectStore | FromBaseBackup
  datatype DataSource = NoSource | ClusterSnapshot | ContinuousBackup | BaseBackup
  datatype Backups = NoBackups | Barman | PgBackRest

  datatype Param = Param(name: string, value: string)

  /** The Postgres section, with the parameters in representation `P`. */
  datatype Postgres<P> = Postgres(params: P, libraries: seq<string>)

  /** The part of a Branch that the pipeline decides. `wakeupPool` and `awaiting` are the two
      wakeup annotations; `postgres` may be a nil pointer. */
  datatype Branch<P> = Branch(
    clusterName: Option<string>,
    image: string,
    instances: int,
    postgres: Option<Postgres<P>>,
    hibernation: Option<Hibernation>,
    wakeupPool: Option<string>,
    awaiting: Option<bool>,
    restore: Option<Restore>,
    backups: Backups)

  type Params = map<string, string>
  type Spec = Branch<Params>
  type Object = Branch<seq<Param>>

  datatype Request = Request(id: string, image: string, instances: int, params: Params, libraries: seq<string>,
                             source: DataSource, backups: Backups)

  datatype Update = Update(hibernate: Option<bool>, image: Option<string>, instances: Option<int>,
                           params: Params, libraries: seq<string>, configuresBackups: bool)

  const NO_CHANGE := Update(None, None, None, map[], [], false)

  /** MandatoryPostgresParameters, by image. */
  type Mandates = string -> Params

  // ----- the pipeline

  function RestoreSpec(source: DataSource): Option<Restore>
  {
    match source
    case NoSource => None
    case ClusterSnapshot => Some(VolumeSnapshot)
    case ContinuousBackup => Some(ObjectStore)
    case BaseBackup => Some(FromBaseBackup)
  }

  function FromRequest(r: Request): Spec
  {
    Branch(Some(r.id), r.image, r.instances, Some(Postgres(r.params, r.libraries)), None, None, None,
      RestoreSpec(r.source), r.backups)
  }

  /** WithOverridesFromParent. */
  function Override<P>(b: Branch<P>, parent: Option<Branch<P>>): Branch<P>
  {
    if parent.None? then b
    else
      var p := parent.value;
      var c := b.(image := p.image, postgres := p.postgres, instances := 1,
                  backups := if p.backups.NoBackups? then NoBackups else b.backups);
      if p.wakeupPool.Some? && b.restore == Some(VolumeSnapshot) then
        c.(wakeupPool := p.wakeupPool, awaiting := Some(true), restore := Some(XVolClone), clusterName := None)
      else c
  }

  /** The hibernation part of WithUpdatesFrom. */
  function Hibernate<P>(b: Branch<P>, hibernate: Option<bool>): Branch<P>
  {
    match (hibernate, b.wakeupPool)
    case (None, _) => b
    case (Some(true), Some(_)) => b.(hibernation := None, clusterName := None, awaiting := Some(false))
    case (Some(true), None) => b.(hibernation := Some(Enabled))
    case (Some(false), Some(_)) => b.(hibernation := None, awaiting := Some(true))
    case (Some(false), None) => b.(hibernation := Some(Disabled))
  }

  /** The program dereferences the Postgres section only when there is something to write to it. */
  predicate Updatable<P>(b: Branch<P>, u: Update) { b.postgres.Some? || (u.params == map[] && u.libraries == []) }

  /** The Postgres part of WithUpdatesFrom: parameters are merged, libraries replaced. */
  function Merge(postgres: Option<Postgres<Params>>, u: Update): Option<Postgres<Params>>
  {
    if postgres.None? then None
    else
      var pg := postgres.value;
      Some(Postgres(pg.params + u.params, if u.libraries == [] then pg.libraries else u.libraries))
  }

  /** WithUpdatesFrom. */
  function ApplyUpdate(b: Spec, u: Update): Spec
    requires Updatable(b, u)
  {
    Hibernate(b, u.hibernate).(image := u.image.GetOr(b.image), instances := u.instances.GetOr(b.instances),
                               postgres := Merge(b.postgres, u))
  }

  /** WithClusterFromPool: only pgbackrest backups are supported there. */
  function FromPool<P>(b: Branch<P>, pool: Option<(string, string)>): Branch<P>
  {
    if pool.None? || pool.value.0 == "" then b
    else b.(clusterName := Some(pool.value.0), wakeupPool := Some(pool.value.1),
            backups := if b.backups.PgBackRest? then PgBackRest else NoBackups)
  }

  /** The libraries other than xatautils, in order. */
  function Others(libraries: seq<string>): (others: seq<string>)
    ensures |others| <= |libraries|
  {
    if libraries == [] then []
    else
      var front, last := libraries[..|libraries| - 1], libraries[|libraries| - 1];
      Others(front) + (if last == XATAUTILS then [] else [last])
  }

  function Blanks(n: nat): seq<string> { seq(n, _ => "") }

  /** What slices.DeleteFunc leaves in the list it is given: the other libraries moved to the front,
      and empty names in the places that became free. */
  function Compacted(libraries: seq<string>): (compacted: seq<string>)
    ensures |compacted| == |libraries|
  {
    Others(libraries) + Blanks(|libraries| - |Others(libraries)|)
  }

  /** WithXataUtilsPreloadLibrary followed by WithMandatoryPostgresParameters. */
  function Finish(b: Spec, mandates: Mandates): Spec
  {
    var pg := if b.postgres.None? then Postgres(map[], []) else b.postgres.value;
    b.(postgres := Some(Postgres(pg.params + mandates(b.image), [XATAUTILS] + Others(pg.libraries))))
  }

  /** CreatePostgresCluster. */
  function Create(r: Request, parent: Option<Spec>, pool: Option<(string, string)>, mandates: Mandates): Spec
  {
    // clusters are taken from a pool for root branches only
    FromPool(Finish(Override(FromRequest(r), parent), mandates), if parent.None? then pool else None)
  }

  /** What an attempt to update needs: the Postgres section where it is written to. */
  predicate CanAttempt<P>(b: Branch<P>, u: Update) { Accepted(b, u) ==> Updatable(b, u) }

  predicate Accepted<P>(b: Branch<P>, u: Update) { !(u.configuresBackups && b.backups.NoBackups?) }

  /** One attempt of UpdatePostgresCluster on the version it read. */
  function Rebuild(b: Spec, u: Update, mandates: Mandates): Spec
    requires CanAttempt(b, u)
  {
    if Accepted(b, u) then Finish(ApplyUpdate(b, u), mandates) else b
  }

  /** The request as an attempt finds it after `conflicts` earlier ones: the builder works on the
      request's own list of libraries, and the first attempt has compacted it. */
  function Retried(u: Update, conflicts: nat): (r: Update)
    ensures r.libraries == [] <==> u.libraries == []
  {
    if conflicts == 0 then u else u.(libraries := Compacted(u.libraries))
  }

  /** UpdatePostgresCluster as it is committed, after that many conflicts. */
  function Committed(b: Spec, u: Update, conflicts: nat, mandates: Mandates): Spec
    requires CanAttempt(b, u)
  {
    Rebuild(b, Retried(u, conflicts), mandates)
  }

  /** assignClusterToBranch. */
  function Apply<P>(b: Branch<P>, cluster: string, image: string): Branch<P>
  {
    b.(clusterName := Some(cluster), awaiting := Some(false), image := if image == "" then b.image else image)
  }

  /** The image that a woken branch gets: the pool cluster's if it can be adopted, else its own. */
  function WokenImage(image: string, poolImage: string): string
  {
    if Images.AdoptableImage(image, poolImage) == "" then image else Images.AdoptableImage(image, poolImage)
  }

  /** The wakeup reconciler, which has read the branch as `seen` and writes to it as it is now: a
      branch that has a cluster is re-assigned its own, a branch without a pool is refused, and any
      other gets a cluster from its pool. */
  function Assign<P>(b: Branch<P>, seen: Branch<P>, cluster: string, poolImage: string): Branch<P>
  {
    if seen.clusterName.Some? then Apply(b, seen.clusterName.value, seen.image)
    else if seen.wakeupPool.None? then b
    else Apply(b, cluster, WokenImage(seen.image, poolImage))
  }

  /** The scale-to-zero sidecar. */
  function Sleep<P>(b: Branch<P>): Branch<P>
  {
    if b.wakeupPool.Some? then b.(clusterName := None) else b.(hibernation := Some(Enabled))
  }

  // ----- histories

  /** What happens to a branch after it has been created: an update is committed, after a number of
      attempts that met a conflict; the wakeup reconciler assigns a cluster to the branch it read when
      `read` events had happened; the scale-to-zero sidecar puts it to sleep. */
  datatype Event =
    | Updated(update: Update, conflicts: nat)
    | Assigned(read: nat, cluster: string, poolImage: string)
    | Slept

  function Happen(b: Spec, seen: Spec, e: Event, mandates: Mandates): (after: Spec)
    requires b.postgres.Some?
    ensures after.postgres.Some?
  {
    match e
    case Updated(u, conflicts) => Committed(b, u, conflicts, mandates)
    case Assigned(_, cluster, poolImage) => Assign(b, seen, cluster, poolImage)
    case Slept => Sleep(b)
  }

  datatype Origin = Origin(request: Request, parent: Option<Spec>, pool: Option<(string, string)>)

  function After(o: Origin, events: seq<Event>, mandates: Mandates): (b: Spec)
    ensures b.postgres.Some?
    decreases |events|, 0
  {
    if events == [] then Create(o.request, o.parent, o.pool, mandates)
    else
      var before, e := events[..|events| - 1], events[|events| - 1];
      Happen(After(o, before, mandates), Seen(o, before, e, mandates), e, mandates)
  }

  /** How many of the `n` events before it the event `e` has seen; only an assignment may be late. */
  function ReadAt(e: Event, n: nat): (read: nat)
    ensures read <= n
  {
    if e.Assigned? && e.read < n then e.read else n
  }

  /** The branch as the event `e` after `events` has read it. */
  function Seen(o: Origin, events: seq<Event>, e: Event, mandates: Mandates): Spec
    decreases |events|, 1
  {
    After(o, events[..ReadAt(e, |events|)], mandates)
  }

  lemma AfterOneMore(o: Origin, events: seq<Event>, e: Event, mandates: Mandates)
    ensures After(o, events + [e], mandates) ==
      Happen(After(o, events, mandates), Seen(o, events, e, mandates), e, mandates)
  {
    assert (events + [e])[..|events|] == events;
  }

  /** The branch after each number of events. */
  ghost function HistoryOf(o: Origin, events: seq<Event>, mandates: Mandates): nat -> Spec
  {
    (n: nat) => After(o, if n <= |events| then events[..n] else events, mandates)
  }

  /** `h` is a history: each branch follows from those before it by the next event. */
  ghost predicate IsHistory(h: nat -> Spec, events: seq<Event>, mandates: Mandates)
  {
    && (forall i: nat :: h(i).postgres.Some?)
    && (forall i {:trigger events[i]} :: 0 <= i < |events| ==>
          h(i + 1) == Happen(h(i), h(ReadAt(events[i], i)), events[i], mandates))
  }

  lemma AfterNext(o: Origin, events: seq<Event>, mandates: Mandates, i: nat)
    requires i < |events|
    ensures After(o, events[..i + 1], mandates) ==
      Happen(After(o, events[..i], mandates), After(o, events[..ReadAt(events[i], i)], mandates), events[i], mandates)
  {
    PrefixesOfPrefixes(events, i, ReadAt(events[i], i));
    AfterOneMore(o, events[..i], events[i], mandates);
  }

  lemma PrefixesOfPrefixes(events: seq<Event>, i: nat, read: nat)
    requires read <= i < |events|
    ensures events[..i + 1] == events[..i] + [events[i]] && events[..i][..read] == events[..read]
  {
  }

  /** A create and any events after it make a history. */
  lemma HistoryOfEvents(o: Origin, events: seq<Event>, mandates: Mandates)
    ensures var h := HistoryOf(o, events, mandates);
      IsHistory(h, events, mandates) && h(0) == After(o, [], mandates) && h(|events|) == After(o, events, mandates)
  {
    assert events[..0] == [] && events[..|events|] == events;
    forall i | 0 <= i < |events|
      ensures var h := HistoryOf(o, events, mandates);
        h(i + 1) == Happen(h(i), h(ReadAt(events[i], i)), events[i], mandates)
    {
      AfterNext(o, events, mandates, i);
    }
  }

  /** The parameter writes of a history, in order: each create or update writes what was asked for
      and then what is mandatory for the image it leaves behind. */
  ghost function Writes(o: Origin, events: seq<Event>, mandates: Mandates): seq<Params>
  {
    if events == [] then
      [if o.parent.None? then o.request.params
       else if o.parent.value.postgres.None? then map[]
       else o.parent.value.postgres.value.params,
       mandates(After(o, [], mandates).image)]
    else
      var before := events[..|events| - 1];
      var e := events[|events| - 1];
      Writes(o, before, mandates) +
      if e.Updated? && Accepted(After(o, before, mandates), e.update)
      then [e.update.params, mandates(After(o, events, mandates).image)]
      else []
  }

  /** The value of the last write to `name`, if there was one. */
  ghost function LastWrite(writes: seq<Params>, name: string): Option<string>
  {
    if writes == [] then None
    else if name in writes[|writes| - 1] then Some(writes[|writes| - 1][name])
    else LastWrite(writes[..|writes| - 1], name)
  }

  /** A list of libraries that was asked for, and whether the call that did met a conflict. */
  datatype Asked = Asked(libraries: seq<string>, retried: bool)

  /** The preload libraries last asked for. */
  ghost function LastAsked(o: Origin, events: seq<Event>, mandates: Mandates): Asked
  {
    if events == [] then
      Asked(if o.parent.None? then o.request.libraries
            else if o.parent.value.postgres.None? then []
            else o.parent.value.postgres.value.libraries, false)
    else
      var before := events[..|events| - 1];
      var e := events[|events| - 1];
      if e.Updated? && Accepted(After(o, before, mandates), e.update) && e.update.libraries != [] then
        Asked(e.update.libraries, e.conflicts > 0)
      else LastAsked(o, before, mandates)
  }

  lemma LastWriteAppend(writes: seq<Params>, a: Params, b: Params, name: string)
    ensures LastWrite(writes + [a, b], name) ==
      if name in b then Some(b[name]) else if name in a then Some(a[name]) else LastWrite(writes, name)
  {
    var w := writes + [a, b];
    assert w[..|w| - 1] == writes + [a];
    assert (writes + [a])[..|writes|] == writes;
  }

  function Lookup(params: Params, name: string): Option<string>
  {
    if name in params then Some(params[name]) else None
  }

  lemma RebuiltParameter(b: Spec, u: Update, mandates: Mandates, name: string)
    requires b.postgres.Some? && Accepted(b, u)
    ensures var after := Rebuild(b, u, mandates);
      Lookup(after.postgres.value.params, name) ==
        if name in mandates(after.image) then Some(mandates(after.image)[name])
        else if name in u.params then Some(u.params[name])
        else Lookup(b.postgres.value.params, name)
  {
  }

  /** After a create and any history, every parameter holds exactly its last written value. */
  lemma {:induction false} ParametersHoldLastWrite(o: Origin, events: seq<Event>, mandates: Mandates, name: string)
    ensures Lookup(After(o, events, mandates).postgres.value.params, name) ==
      LastWrite(Writes(o, events, mandates), name)
  {
    if events == [] {
      var w := Writes(o, events, mandates);
      LastWriteAppend([], w[0], w[1], name);
      assert [] + [w[0], w[1]] == w;
    } else {
      var before := events[..|events| - 1];
      ParametersHoldLastWrite(o, before, mandates, name);
      var e := events[|events| - 1];
      if e.Updated? && Accepted(After(o, before, mandates), e.update) {
        LastWriteAppend(Writes(o, before, mandates), e.update.params, mandates(After(o, events, mandates).image), name);
        RebuiltParameter(After(o, before, mandates), Retried(e.update, e.conflicts), mandates, name);
      } else {
        assert Writes(o, events, mandates) == Writes(o, before, mandates);
      }
    }
  }

  // ----- libraries

  lemma {:induction false} OthersOfOthers(s: seq<string>)
    requires forall i :: 0 <= i < |s| ==> s[i] != XATAUTILS
    ensures Others(s) == s
  {
    if s != [] {
      OthersOfOthers(s[..|s| - 1]);
    }
  }

  lemma {:induction false} OthersKeepsOrder(s: seq<string>)
    ensures XATAUTILS !in Others(s) && Others(Others(s)) == Others(s)
  {
    if s != [] {
      OthersKeepsOrder(s[..|s| - 1]);
    }
    OthersOfOthers(Others(s));
  }

  /** Others drops xatautils and keeps the other libraries where they are. */
  lemma {:induction false} OthersOfConcatenation(a: seq<string>, b: seq<string>)
    ensures Others(a + b) == Others(a) + Others(b)
  {
    if b == [] {
      assert a + b == a;
    } else {
      var front, last := b[..|b| - 1], b[|b| - 1];
      OthersOfConcatenation(a, front);
      OthersAppend(a + front, last);
      OthersAppend(front, last);
      ConcatAssociates(a, front, [last]);
      assert b == front + [last];
      ConcatAssociates(Others(a), Others(front), if last == "xatautils" then [] else [last]);
    }
  }

  lemma ConcatAssociates(a: seq<string>, b: seq<string>, c: seq<string>)
    ensures (a + b) + c == a + (b + c)
  {
  }

  lemma OthersAppend(s: seq<string>, x: string)
    ensures Others(s + [x]) == Others(s) + (if x == "xatautils" then [] else [x])
  {
    assert (s + [x])[..|s|] == s;
  }

  /** No other library is lost or repeated, and xatautils is what is missing. */
  lemma {:induction false} OthersKeepsCounts(s: seq<string>, x: string)
    ensures x != XATAUTILS ==> multiset(Others(s))[x] == multiset(s)[x]
    ensures |s| == |Others(s)| + multiset(s)[XATAUTILS]
  {
    if s != [] {
      assert s == s[..|s| - 1] + [s[|s| - 1]];
      OthersKeepsCounts(s[..|s| - 1], x);
    }
  }

  /** Building the list again from itself changes nothing. */
  lemma {:induction false} OthersOfPrefixed(s: seq<string>)
    ensures Others([XATAUTILS] + s) == Others(s)
  {
    var w := [XATAUTILS] + s;
    if s == [] {
      assert w[..0] == [];
    } else {
      assert w[..|w| - 1] == [XATAUTILS] + s[..|s| - 1];
      OthersOfPrefixed(s[..|s| - 1]);
    }
  }

  /** What follows xatautils in the branch: the other libraries asked for and, after a conflict, an
      empty name for every xatautils among them. */
  ghost function Followers(asked: Asked): seq<string>
  {
    if asked.retried then Compacted(asked.libraries) else Others(asked.libraries)
  }

  lemma FollowersLackXataUtils(asked: Asked)
    ensures XATAUTILS !in Followers(asked) && Others(Followers(asked)) == Followers(asked)
  {
    OthersKeepsOrder(asked.libraries);
    OthersOfOthers(Followers(asked));
  }

  /** A list that has been compacted stays as it is. */
  lemma CompactedOnce(libraries: seq<string>)
    ensures Compacted(Compacted(libraries)) == Compacted(libraries)
  {
    FollowersLackXataUtils(Asked(libraries, true));
    assert Blanks(0) == [];
  }

  lemma RebuildKeepsLibraries(b: Spec, u: Update, conflicts: nat, asked: Asked, mandates: Mandates)
    requires b.postgres.Some? && b.postgres.value.libraries == [XATAUTILS] + Followers(asked)
    ensures Committed(b, u, conflicts, mandates).postgres.value.libraries ==
      [XATAUTILS] + Followers(if Accepted(b, u) && u.libraries != [] then Asked(u.libraries, conflicts > 0) else asked)
  {
    OthersOfPrefixed(Followers(asked));
    FollowersLackXataUtils(asked);
    FollowersLackXataUtils(Asked(u.libraries, true));
    if u.libraries == [] {
      assert Compacted(u.libraries) == [];
    }
  }

  lemma {:induction false} LibrariesAreLastAskedFor(o: Origin, events: seq<Event>, mandates: Mandates)
    ensures After(o, events, mandates).postgres.value.libraries ==
      [XATAUTILS] + Followers(LastAsked(o, events, mandates))
  {
    if events != [] {
      var before, e := events[..|events| - 1], events[|events| - 1];
      var b, asked := After(o, before, mandates), LastAsked(o, before, mandates);
      LibrariesAreLastAskedFor(o, before, mandates);
      match e
      case Updated(u, conflicts) => RebuildKeepsLibraries(b, u, conflicts, asked, mandates);
      case Assigned(_, _, _) =>
      case Slept =>
    }
  }

  /** After any history xatautils is the first library and occurs only there. It is followed by the
      libraries last asked for, in their order, and, if that call met a conflict, by as many empty
      names as it named xatautils. */
  lemma XataUtilsFirst(o: Origin, events: seq<Event>, mandates: Mandates)
    ensures var libraries, asked := After(o, events, mandates).postgres.value.libraries, LastAsked(o, events, mandates);
      && libraries != [] && libraries[0] == XATAUTILS && XATAUTILS !in libraries[1..]
      && libraries[1..] ==
           Others(asked.libraries) + Blanks(if asked.retried then multiset(asked.libraries)[XATAUTILS] else 0)
  {
    var asked := LastAsked(o, events, mandates);
    LibrariesAreLastAskedFor(o, events, mandates);
    FollowersLackXataUtils(asked);
    OthersKeepsCounts(asked.libraries, "");
    assert Others(asked.libraries) + Blanks(0) == Others(asked.libraries);
  }

  /** Exactly when they are the libraries last asked for and nothing else: the first attempt of that
      call was committed, or it did not name xatautils. */
  lemma LibrariesAsAskedIff(o: Origin, events: seq<Event>, mandates: Mandates)
    ensures var libraries, asked := After(o, events, mandates).postgres.value.libraries, LastAsked(o, events, mandates);
      libraries != [] &&
      (libraries[1..] == Others(asked.libraries) <==> !asked.retried || XATAUTILS !in asked.libraries)
  {
    var asked := LastAsked(o, events, mandates);
    XataUtilsFirst(o, events, mandates);
    var rest := After(o, events, mandates).postgres.value.libraries[1..];
    assert |rest| == |Others(asked.libraries)| + if asked.retried then multiset(asked.libraries)[XATAUTILS] else 0;
    assert XATAUTILS in asked.libraries <==> multiset(asked.libraries)[XATAUTILS] > 0;
    assert Others(asked.libraries) + Blanks(0) == Others(asked.libraries);
  }

  /** It can fail: an update that names xatautils, as those of the projects service do, and meets one
      conflict stores an empty library name. */
  lemma ConflictLeavesBlank(o: Origin, events: seq<Event>, mandates: Mandates)
    ensures var u := NO_CHANGE.(libraries := [XATAUTILS, "pg_cron"]);
      After(o, events + [Updated(u, 1)], mandates).postgres.value.libraries == [XATAUTILS, "pg_cron", ""]
  {
    var libraries := [XATAUTILS, "pg_cron"];
    var e := Updated(NO_CHANGE.(libraries := libraries), 1);
    var all := events + [e];
    assert all[..|all| - 1] == events;
    assert LastAsked(o, all, mandates) == Asked(libraries, true);
    LibrariesAreLastAskedFor(o, all, mandates);
    CompactedExample("pg_cron");
  }

  lemma CompactedExample(other: string)
    requires other != XATAUTILS
    ensures Compacted([XATAUTILS, other]) == [other, ""]
  {
    assert [XATAUTILS, other][..1] == [XATAUTILS] && [XATAUTILS][..0] == [];
    assert Others([XATAUTILS]) == [] && Others([XATAUTILS, other]) == [other];
  }

  // ----- what the other fields of a branch are

  /** The branch is created on a clone of the volume of a parent in a wakeup pool. */
  predicate Clones(o: Origin)
  {
    o.parent.Some? && o.parent.value.wakeupPool.Some? && o.request.source.ClusterSnapshot?
  }

  /** What a branch restores from when it is created for a source. */
  ghost predicate RestoresFrom(restore: Option<Restore>, source: DataSource)
  {
    && (source.NoSource? <==> restore.None?)
    && (source.ClusterSnapshot? <==> restore == Some(VolumeSnapshot))
    && (source.ContinuousBackup? <==> restore == Some(ObjectStore))
    && (source.BaseBackup? <==> restore == Some(FromBaseBackup))
  }

  /** A root branch is as requested. One that is created from a pool has the cluster found there and
      the pool that goes with it, and no backups other than pgbackrest; any other has its own cluster. */
  lemma CreatedRoot(o: Origin, mandates: Mandates)
    requires o.parent.None?
    ensures var b, r := After(o, [], mandates), o.request;
      && b.image == r.image && b.instances == r.instances && RestoresFrom(b.restore, r.source)
      && b.hibernation.None? && b.awaiting.None?
      && (o.pool.Some? && o.pool.value.0 != "" ==>
            && b.clusterName == Some(o.pool.value.0) && b.wakeupPool == Some(o.pool.value.1)
            && b.backups == if r.backups.PgBackRest? then PgBackRest else NoBackups)
      && (o.pool.None? || o.pool.value.0 == "" ==>
            b.clusterName == Some(r.id) && b.wakeupPool.None? && b.backups == r.backups)
  {
  }

  /** A child takes image and Postgres section from its parent, runs one instance, and has backups only
      if its parent has. When it clones the parent's volume it awaits a cluster of the parent's pool;
      otherwise it has its own cluster and no pool, whatever its parent has. */
  lemma CreatedChild(o: Origin, mandates: Mandates)
    requires o.parent.Some?
    ensures var b, r, parent := After(o, [], mandates), o.request, o.parent.value;
      && b.image == parent.image && b.instances == 1 && b.hibernation.None?
      && b.backups == (if parent.backups.NoBackups? then NoBackups else r.backups)
      && (Clones(o) ==>
            && b.clusterName.None? && b.wakeupPool == parent.wakeupPool && b.awaiting == Some(true)
            && b.restore == Some(XVolClone))
      && (!Clones(o) ==>
            b.clusterName == Some(r.id) && b.wakeupPool.None? && b.awaiting.None? && RestoresFrom(b.restore, r.source))
  {
  }

  /** What an update does to the other fields. It is refused exactly when it configures backups of a
      branch that has none, and then nothing changes. */
  lemma UpdatedFields(b: Spec, u: Update, conflicts: nat, mandates: Mandates)
    requires CanAttempt(b, u)
    ensures var after := Committed(b, u, conflicts, mandates);
      if u.configuresBackups && b.backups.NoBackups? then after == b
      else
        && after.image == (if u.image.Some? then u.image.value else b.image)
        && after.instances == (if u.instances.Some? then u.instances.value else b.instances)
        && after.wakeupPool == b.wakeupPool && after.restore == b.restore && after.backups == b.backups
        && (u.hibernate.None? ==>
              after.clusterName == b.clusterName && after.hibernation == b.hibernation && after.awaiting == b.awaiting)
        && (u.hibernate.Some? && b.wakeupPool.None? ==>
              && after.clusterName == b.clusterName && after.awaiting == b.awaiting
              && after.hibernation == Some(if u.hibernate.value then Enabled else Disabled))
        && (u.hibernate.Some? && b.wakeupPool.Some? ==>
              && after.hibernation.None? && after.awaiting == Some(!u.hibernate.value)
              && after.clusterName == if u.hibernate.value then None else b.clusterName)
  {
  }

  /** What the wakeup reconciler and the sidecar do: they leave the Postgres section, the pool, the
      restore spec and the backups alone. A branch read without a cluster gets the one taken from the
      pool, one read with a cluster keeps that one, and neither awaits any longer; a sleeping branch of
      a pool has no cluster, any other is hibernated. */
  lemma AssignedAndSlept(b: Spec, seen: Spec, cluster: string, poolImage: string)
    ensures var after := Assign(b, seen, cluster, poolImage);
      && after == b.(clusterName := after.clusterName, awaiting := after.awaiting, image := after.image)
      && (seen.clusterName.Some? ==> after.clusterName == seen.clusterName && after.awaiting == Some(false))
      && (seen.clusterName.None? && seen.wakeupPool.Some? ==>
            after.clusterName == Some(cluster) && after.awaiting == Some(false))
      && (seen.clusterName.None? && seen.wakeupPool.None? ==> after == b)
    ensures var after := Sleep(b);
      && after == b.(clusterName := after.clusterName, hibernation := after.hibernation)
      && (b.wakeupPool.Some? ==> after.clusterName.None? && after.hibernation == b.hibernation)
      && (b.wakeupPool.None? ==> after.clusterName == b.clusterName && after.hibernation == Some(Enabled))
  {
  }

  // ----- wakeup pools

  ghost predicate WakeupInv(b: Spec)
  {
    && (b.clusterName.None? ==> b.wakeupPool.Some?)
    && (b.wakeupPool.Some? ==> b.hibernation.None?)
  }

  /** After any history a branch without a cluster belongs to a wakeup pool, a branch of a wakeup
      pool has no hibernation mode, and the pool is the one it was created with. */
  lemma {:induction false} WakeupPoolInvariant(o: Origin, events: seq<Event>, mandates: Mandates)
    ensures WakeupInv(After(o, events, mandates))
    ensures After(o, events, mandates).wakeupPool == After(o, [], mandates).wakeupPool
  {
    if events != [] {
      WakeupPoolInvariant(o, events[..|events| - 1], mandates);
    }
  }

  /** createWakeupRequestForNewBranch calls ensureWakeupRequest. */
  predicate EnsuresOnCreate<P>(b: Branch<P>, parent: Option<Branch<P>>) { b.restore == Some(XVolClone) && parent.Some? }

  /** createWakeupRequestFromUpdateClusterRequest calls ensureWakeupRequest. */
  predicate EnsuresOnUpdate<P>(b: Branch<P>, u: Update) { u.hibernate == Some(false) && b.wakeupPool.Some? }

  /** A create that makes the branch asks for a WakeupRequest exactly when it leaves the branch
      awaiting one, which is when it clones a volume; the branch then joins the pool of its parent. */
  lemma CreateEnsuresIffAwaiting(o: Origin, mandates: Mandates)
    ensures var b := After(o, [], mandates);
      && (EnsuresOnCreate(b, o.parent) <==> b.awaiting == Some(true))
      && (b.awaiting == Some(true) <==> Clones(o))
      && (b.awaiting == Some(true) ==> b.wakeupPool == o.parent.value.wakeupPool && b.clusterName.None?)
  {
  }

  /** A branch in the store, with the idempotency key of the call that created it. */
  datatype StoredBranch = StoredBranch(branch: Spec, key: string)

  /** What a create call ends with: a branch, made by it or found, and whether it then asked for a
      WakeupRequest. */
  datatype CreateResult = AlreadyExists | Got(branch: Spec, made: bool, ensured: bool)

  /** CreatePostgresCluster from the create request on: a call repeated with the same idempotency
      key takes the existing branch for its result, and asks for a WakeupRequest as the first did. */
  function CreateCall(o: Origin, key: string, existing: Option<StoredBranch>, mandates: Mandates): CreateResult
  {
    if existing.None? then
      var b := Create(o.request, o.parent, o.pool, mandates);
      Got(b, true, EnsuresOnCreate(b, o.parent))
    else if key != "" && existing.value.key == key then
      Got(existing.value.branch, false, EnsuresOnCreate(existing.value.branch, o.parent))
    else AlreadyExists
  }

  lemma {:induction false} RestoreNeverChanges(o: Origin, events: seq<Event>, mandates: Mandates)
    ensures After(o, events, mandates).restore == Some(XVolClone) <==> Clones(o)
  {
    if events != [] {
      RestoreNeverChanges(o, events[..|events| - 1], mandates);
    }
  }

  /** Every create call, the first or a repeated one, and whatever has happened to the branch since:
      one that makes the branch await a wakeup asks for a request, and a call that gets a branch
      asks for one exactly when that branch was created as a clone and the call names a parent,
      whether or not the branch is awaiting. */
  lemma CreateCallEnsuresIff(o: Origin, key: string, existing: Option<StoredBranch>, mandates: Mandates,
                             first: Origin, events: seq<Event>)
    requires existing.Some? ==> existing.value.branch == After(first, events, mandates)
    ensures var r := CreateCall(o, key, existing, mandates);
      && (r.AlreadyExists? <==> existing.Some? && (key == "" || existing.value.key != key))
      && (r.Got? && r.made ==> (r.ensured <==> r.branch.awaiting == Some(true)) && (r.ensured <==> Clones(o)))
      && (r.Got? && !r.made ==> (r.ensured <==> Clones(first) && o.parent.Some?))
  {
    CreateEnsuresIffAwaiting(o, mandates);
    RestoreNeverChanges(first, events, mandates);
  }

  /** So a call repeated after the wakeup has finished asks for another WakeupRequest although the
      branch has its cluster and is not awaiting. */
  lemma RepeatedCreateEnsuresAgain(o: Origin, key: string, cluster: string, mandates: Mandates)
    requires Clones(o) && key != ""
    ensures var b := After(o, [Assigned(0, cluster, "")], mandates);
      && b.awaiting == Some(false) && b.clusterName == Some(cluster)
      && CreateCall(o, key, Some(StoredBranch(b, key)), mandates) == Got(b, false, true)
  {
    AfterOneMore(o, [], Assigned(0, cluster, ""), mandates);
    assert [] + [Assigned(0, cluster, "")] == [Assigned(0, cluster, "")];
    CreateEnsuresIffAwaiting(o, mandates);
  }

  /** An accepted update asks for a WakeupRequest exactly when it is the update that makes the
      branch await one; one that merely finds it awaiting leaves that alone. */
  lemma UpdateEnsuresIffItWakes(o: Origin, events: seq<Event>, u: Update, conflicts: nat, mandates: Mandates)
    requires Accepted(After(o, events, mandates), u)
    ensures var before, after := After(o, events, mandates), After(o, events + [Updated(u, conflicts)], mandates);
      && (EnsuresOnUpdate(after, u) ==> after.awaiting == Some(true))
      && (after.awaiting == Some(true) && !EnsuresOnUpdate(after, u) ==>
        before.awaiting == Some(true) && u.hibernate.None?)
  {
    AfterOneMore(o, events, Updated(u, conflicts), mandates);
    WakeupPoolInvariant(o, events, mandates);
    AwaitingNeedsPool(o, events, mandates);
  }

  lemma {:induction false} AwaitingNeedsPool(o: Origin, events: seq<Event>, mandates: Mandates)
    ensures After(o, events, mandates).awaiting == Some(true) ==> After(o, events, mandates).wakeupPool.Some?
  {
    if events != [] {
      AwaitingNeedsPool(o, events[..|events| - 1], mandates);
    }
  }

  // ----- sleeping and waking

  /** Finishing a finished branch changes nothing. */
  lemma FinishIsIdempotent(b: Spec, mandates: Mandates)
    ensures Finish(Finish(b, mandates), mandates) == Finish(b, mandates)
  {
    var f := Finish(b, mandates).postgres.value;
    assert f.params + mandates(b.image) == f.params;
    var libraries := if b.postgres.None? then [] else b.postgres.value.libraries;
    OthersOfPrefixed(Others(libraries));
    OthersKeepsOrder(libraries);
  }

  lemma FinishIgnoresTheRest(b: Spec, c: Spec, mandates: Mandates)
    requires c == b.(clusterName := c.clusterName, hibernation := c.hibernation, awaiting := c.awaiting)
    ensures Finish(c, mandates) ==
      Finish(b, mandates).(clusterName := c.clusterName, hibernation := c.hibernation, awaiting := c.awaiting)
  {
  }

  /** On a finished branch an update that only hibernates or wakes does nothing else. */
  lemma OnlyHibernates(b: Spec, h: bool, mandates: Mandates)
    requires b.postgres.Some? && Finish(b, mandates) == b
    ensures Rebuild(b, NO_CHANGE.(hibernate := Some(h)), mandates) == Hibernate(b, Some(h))
    ensures Finish(Hibernate(b, Some(h)), mandates) == Hibernate(b, Some(h))
  {
    var u := NO_CHANGE.(hibernate := Some(h));
    var pg := b.postgres.value;
    assert pg.params + u.params == pg.params;
    assert ApplyUpdate(b, u) == Hibernate(b, Some(h));
    FinishIgnoresTheRest(b, Hibernate(b, Some(h)), mandates);
  }

  /** Sleeping and waking a branch restores it. A branch of a wakeup pool loses its cluster and,
      once the reconciler has assigned another, differs in nothing but that; any other branch
      keeps its cluster and differs only in its hibernation mode. */
  lemma SleepAndWakeRestores(o: Origin, events: seq<Event>, mandates: Mandates, cluster: string)
    requires Finish(After(o, events, mandates), mandates) == After(o, events, mandates)
    ensures var b := After(o, events, mandates);
      var asleep := Rebuild(b, NO_CHANGE.(hibernate := Some(true)), mandates);
      asleep.postgres.Some? &&
      var awake := Rebuild(asleep, NO_CHANGE.(hibernate := Some(false)), mandates);
      if b.wakeupPool.Some?
      then asleep.clusterName.None? && awake.awaiting == Some(true)
           && awake.(clusterName := Some(cluster), awaiting := Some(false)) ==
             b.(clusterName := Some(cluster), awaiting := Some(false))
      else asleep.hibernation == Some(Enabled) && awake == b.(hibernation := Some(Disabled))
  {
    var b := After(o, events, mandates);
    WakeupPoolInvariant(o, events, mandates);
    OnlyHibernates(b, true, mandates);
    OnlyHibernates(Hibernate(b, Some(true)), false, mandates);
  }

  /** Every created branch and every branch just updated is finished, as that lemma asks. */
  lemma BuiltBranchesAreFinished(o: Origin, events: seq<Event>, mandates: Mandates)
    requires events != [] ==> events[|events| - 1].Updated?
    requires events != [] ==> Accepted(After(o, events[..|events| - 1], mandates), events[|events| - 1].update)
    ensures Finish(After(o, events, mandates), mandates) == After(o, events, mandates)
  {
    if events == [] {
      var built := Override(FromRequest(o.request), o.parent);
      FinishIsIdempotent(built, mandates);
      FinishOfPooled(Finish(built, mandates), if o.parent.None? then o.pool else None, mandates);
    } else {
      var before, e := After(o, events[..|events| - 1], mandates), events[|events| - 1];
      FinishIsIdempotent(ApplyUpdate(before, Retried(e.update, e.conflicts)), mandates);
    }
  }

  lemma FinishOfPooled(b: Spec, pool: Option<(string, string)>, mandates: Mandates)
    requires Finish(b, mandates) == b
    ensures Finish(FromPool(b, pool), mandates) == FromPool(b, pool)
  {
  }
}
