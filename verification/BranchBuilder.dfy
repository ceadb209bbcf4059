/** services/clusters/branchbuilder.go: the builder itself, with the parameters as a sorted list. */
module BranchBuilders {
  import opened Runs
  import opened BranchSpecs

  // ----- sorted parameter lists

  /** The order of slices.Sorted on strings. */
  predicate Less(a: string, b: string)
  {
    if b == [] then false
    else if a == [] then true
    else if a[0] != b[0] then a[0] < b[0]
    else Less(a[1..], b[1..])
  }

  lemma {:induction false} LessIsTotal(a: string, b: string)
    ensures (Less(a, b) || Less(b, a)) <==> a != b
    ensures !(Less(a, b) && Less(b, a))
  {
    if a != [] && b != [] && a[0] == b[0] {
      LessIsTotal(a[1..], b[1..]);
      assert a == [a[0]] + a[1..] && b == [b[0]] + b[1..];
    }
  }

  lemma {:induction false} LessIsTransitive(a: string, b: string, c: string)
    requires Less(a, b) && Less(b, c)
    ensures Less(a, c)
  {
    if a != [] && a[0] == b[0] == c[0] {
      LessIsTransitive(a[1..], b[1..], c[1..]);
    }
  }

  /** Sorted by name, and hence without duplicates. */
  ghost predicate Sorted(list: seq<Param>)
  {
    forall i, j :: 0 <= i < j < |list| ==> Less(list[i].name, list[j].name)
  }

  /** The parameters of a list as a map; the last of equal names wins. */
  function AsMap(list: seq<Param>): Params
  {
    if list == [] then map[] else AsMap(list[..|list| - 1])[list[|list| - 1].name := list[|list| - 1].value]
  }

  lemma {:induction false} SmallestExists(names: set<string>) returns (m: string)
    requires names != {}
    ensures m in names && forall n :: n in names && n != m ==> Less(m, n)
    decreases |names|
  {
    var x :| x in names;
    var rest := names - {x};
    assert forall n :: n in names ==> n == x || n in rest;
    if rest == {} {
      m := x;
    } else {
      var r := SmallestExists(rest);
      LessIsTotal(x, r);
      m := if Less(x, r) then x else r;
      forall n | n in names && n != m ensures Less(m, n) {
        assert n == x || n == r || Less(r, n);
        if m == x && n != r {
          LessIsTransitive(x, r, n);
        }
      }
    }
  }

  lemma {:induction false} AsMapKeys(list: seq<Param>, name: string)
    ensures name in AsMap(list) <==> exists i :: 0 <= i < |list| && list[i].name == name
  {
    if list != [] {
      AsMapKeys(list[..|list| - 1], name);
      assert list[|list| - 1].name == name || (name in AsMap(list) <==> name in AsMap(list[..|list| - 1]));
    }
  }

  method Smallest(names: set<string>) returns (name: string)
    requires names != {}
    ensures name in names && forall n :: n in names && n != name ==> Less(name, n)
  {
    ghost var m := SmallestExists(names);
    name :| name in names && forall n :: n in names && n != name ==> Less(name, n);
  }

  /** postgresParametersFromMap. */
  method ParametersFromMap(params: Params) returns (list: seq<Param>)
    ensures Sorted(list) && AsMap(list) == params
  {
    var rest := params.Keys;
    list := [];
    while rest != {}
      invariant rest <= params.Keys && Sorted(list) && AsMap(list) == params - rest && AllBefore(list, rest)
      decreases |rest|
    {
      var name := Smallest(rest);
      AppendSmallest(list, rest, name, params[name]);
      assert (params - rest)[name := params[name]] == params - (rest - {name});
      list, rest := list + [Param(name, params[name])], rest - {name};
    }
  }

  ghost predicate AllBefore(list: seq<Param>, names: set<string>)
  {
    forall i, n :: 0 <= i < |list| && n in names ==> Less(list[i].name, n)
  }

  lemma AppendSmallest(list: seq<Param>, rest: set<string>, name: string, value: string)
    requires Sorted(list) && AllBefore(list, rest) && name in rest
    requires forall n :: n in rest && n != name ==> Less(name, n)
    ensures var longer := list + [Param(name, value)];
      Sorted(longer) && AllBefore(longer, rest - {name}) && AsMap(longer) == AsMap(list)[name := value]
  {
    assert (list + [Param(name, value)])[..|list|] == list;
  }

  /** The loop that reads a list back into a map. */
  method MapFromParameters(list: seq<Param>) returns (params: Params)
    ensures params == AsMap(list)
  {
    params := map[];
    for i := 0 to |list|
      invariant params == AsMap(list[..i])
    {
      assert list[..i + 1][..i] == list[..i];
      params := params[list[i].name := list[i].value];
    }
    assert list[..|list|] == list;
  }

  /** A sorted list is determined by its map: two lists with the same parameters are equal. */
  lemma {:induction false} SortedListIsUnique(a: seq<Param>, b: seq<Param>)
    requires Sorted(a) && Sorted(b) && AsMap(a) == AsMap(b)
    ensures a == b
  {
    if a == [] || b == [] {
      assert AsMap([]) == map[];
      if b != [] { AsMapKeys(b, b[0].name); }
      if a != [] { AsMapKeys(a, a[0].name); }
    } else {
      var x, y := a[|a| - 1], b[|b| - 1];
      LastIsLargest(a, b);
      LastIsLargest(b, a);
      LessIsTotal(x.name, y.name);
      assert AsMap(a)[x.name] == x.value && AsMap(b)[y.name] == y.value;
      AsMapWithoutLast(a);
      AsMapWithoutLast(b);
      SortedListIsUnique(a[..|a| - 1], b[..|b| - 1]);
      assert a == a[..|a| - 1] + [x];
      assert b == b[..|b| - 1] + [y];
    }
  }

  lemma LastIsLargest(a: seq<Param>, b: seq<Param>)
    requires Sorted(a) && a != [] && b != [] && AsMap(a) == AsMap(b)
    ensures !Less(a[|a| - 1].name, b[|b| - 1].name)
  {
    var y := b[|b| - 1].name;
    AsMapKeys(b, y);
    AsMapKeys(a, y);
    var i :| 0 <= i < |a| && a[i].name == y;
    LessIsTotal(a[|a| - 1].name, y);
  }

  lemma AsMapWithoutLast(a: seq<Param>)
    requires Sorted(a) && a != []
    ensures AsMap(a[..|a| - 1]) == AsMap(a) - {a[|a| - 1].name}
  {
    var front, x := a[..|a| - 1], a[|a| - 1].name;
    AsMapKeys(front, x);
    if i :| 0 <= i < |front| && front[i].name == x {
      assert Less(a[i].name, a[|a| - 1].name);
      LessIsTotal(x, x);
    }
    assert AsMap(front)[x := a[|a| - 1].value] - {x} == AsMap(front);
  }

  // ----- the builder

  /** The branch object with its list read as a map. */
  function Abs(o: Object): Spec
  {
    Branch(o.clusterName, o.image, o.instances,
           if o.postgres.None? then None
           else Some(Postgres(AsMap(o.postgres.value.params), o.postgres.value.libraries)),
           o.hibernation, o.wakeupPool, o.awaiting, o.restore, o.backups)
  }

  function AbsParent(parent: Option<Object>): Option<Spec> { if parent.None? then None else Some(Abs(parent.value)) }

  ghost predicate Tidy(o: Object) { o.postgres.Some? && Sorted(o.postgres.value.params) }

  /** The object is determined by what it says: two sorted objects for one spec are equal, in
      whatever order the maps they were built from were walked. */
  lemma SameSpecSameObject(a: Object, b: Object)
    requires Tidy(a) && Tidy(b) && Abs(a) == Abs(b)
    ensures a == b
  {
    SortedListIsUnique(a.postgres.value.params, b.postgres.value.params);
  }

  /** An update request: its list of libraries is a Go slice that the builder gets to work on. */
  class UpdateRequest {
    const update: Update
    const libraries: array<string>

    /** The request as it reads now. */
    function Current(): Update
      reads libraries
    {
      update.(libraries := libraries[..])
    }

    constructor (u: Update)
      ensures Current() == u && fresh(libraries)
    {
      update := u;
      libraries := new string[|u.libraries|](i requires 0 <= i < |u.libraries| => u.libraries[i]);
      new;
      assert libraries[..] == u.libraries;
    }
  }

  /** slices.DeleteFunc on the names equal to xatautils: the others move to the front, in place, and
      the rest is cleared. */
  method DeleteXataUtils(libraries: array<string>) returns (n: nat)
    modifies libraries
    ensures libraries[..] == Compacted(old(libraries[..]))
    ensures n <= libraries.Length && libraries[..n] == Others(old(libraries[..]))
  {
    ghost var was := libraries[..];
    n := 0;
    for i := 0 to libraries.Length
      invariant n <= i && libraries[..n] == Others(was[..i]) && libraries[i..] == was[i..]
    {
      assert was[..i + 1][..i] == was[..i];
      assert libraries[i] == was[i] && libraries[i + 1..] == was[i + 1..];
      if libraries[i] != XATAUTILS {
        libraries[n] := libraries[i];
        n := n + 1;
      }
    }
    assert was[..|was|] == was;
    for k := n to libraries.Length
      invariant libraries[..n] == Others(was)
      invariant forall j :: n <= j < k ==> libraries[j] == ""
    {
      libraries[k] := "";
    }
    assert libraries[..] == libraries[..n] + libraries[n..];
    assert libraries[n..] == Blanks(libraries.Length - n);
  }

  class BranchBuilder {
    var branch: Object
    var borrowed: array?<string>  // the slice of a request that the branch holds as its libraries

    ghost predicate Valid()
      reads this, borrowed
    {
      borrowed != null ==> branch.postgres.Some? && branch.postgres.value.libraries == borrowed[..]
    }

    constructor FromCreateClusterRequest(r: Request)
      ensures Abs(branch) == FromRequest(r) && Tidy(branch) && borrowed == null
    {
      borrowed := null;
      var list := ParametersFromMap(r.params);
      branch := Branch(Some(r.id), r.image, r.instances, Some(Postgres(list, r.libraries)), None, None, None,
        RestoreSpec(r.source), r.backups);
    }

    constructor FromExistingBranch(existing: Object)
      ensures branch == existing && borrowed == null
    {
      branch, borrowed := existing, null;
    }

    method WithOverridesFromParent(parent: Option<Object>)
      requires borrowed == null
      modifies this
      ensures borrowed == null && Abs(branch) == Override(Abs(old(branch)), AbsParent(parent))
    {
      if parent.None? {
        return;
      }
      var p := parent.value;
      branch := branch.(image := p.image, postgres := p.postgres);
      if p.wakeupPool.Some? && branch.restore == Some(VolumeSnapshot) {
        branch := branch.(wakeupPool := p.wakeupPool, awaiting := Some(true));
        branch := branch.(restore := Some(XVolClone), clusterName := None);
      }
      branch := branch.(instances := 1);
      if p.backups.NoBackups? {
        branch := branch.(backups := NoBackups);
      }
    }

    /** The hibernation part of WithUpdatesFrom. */
    method HibernateOrWake(hibernate: Option<bool>)
      modifies this`branch
      ensures branch == Hibernate(old(branch), hibernate)
    {
      if hibernate.Some? {
        if hibernate.value {
          if branch.wakeupPool.Some? {
            branch := branch.(hibernation := None, clusterName := None, awaiting := Some(false));
          } else {
            branch := branch.(hibernation := Some(Enabled));
          }
        } else {
          if branch.wakeupPool.Some? {
            branch := branch.(hibernation := None, awaiting := Some(true));
          } else {
            branch := branch.(hibernation := Some(Disabled));
          }
        }
      }
    }

    /** The parameters of WithUpdatesFrom: merged into a new list. */
    method MergeParameters(params: Params)
      requires params != map[] ==> branch.postgres.Some?
      modifies this`branch
      ensures branch == old(branch).(postgres := branch.postgres) && branch.postgres.Some? == old(branch).postgres.Some?
      ensures branch.postgres.Some? ==>
        && AsMap(branch.postgres.value.params) == AsMap(old(branch).postgres.value.params) + params
        && branch.postgres.value.libraries == old(branch).postgres.value.libraries
    {
      if |params| > 0 {
        var pg := branch.postgres.value;
        var existing := MapFromParameters(pg.params);
        var merged := ParametersFromMap(existing + params);
        branch := branch.(postgres := Some(pg.(params := merged)));
      } else if branch.postgres.Some? {
        assert AsMap(branch.postgres.value.params) + params == AsMap(branch.postgres.value.params);
      }
    }

    /** The libraries of WithUpdatesFrom: the branch takes over the request's slice. */
    method BorrowLibraries(libraries: array<string>)
      requires borrowed == null && (libraries.Length > 0 ==> branch.postgres.Some?)
      modifies this
      ensures Valid() && borrowed == if libraries.Length > 0 then libraries else null
      ensures branch == if libraries.Length == 0 then old(branch)
        else old(branch).(postgres := Some(old(branch).postgres.value.(libraries := libraries[..])))
    {
      if libraries.Length > 0 {
        borrowed := libraries;
        branch := branch.(postgres := Some(branch.postgres.value.(libraries := borrowed[..])));
      }
    }

    /** The plain replacements of WithUpdatesFrom. */
    method ReplaceScalars(image: Option<string>, instances: Option<int>)
      modifies this`branch
      ensures branch ==
        old(branch).(image := image.GetOr(old(branch).image), instances := instances.GetOr(old(branch).instances))
    {
      if image.Some? {
        branch := branch.(image := image.value);
      }
      if instances.Some? {
        branch := branch.(instances := instances.value);
      }
    }

    method WithUpdatesFrom(request: UpdateRequest)
      requires borrowed == null && Updatable(branch, request.Current())
      modifies this
      ensures Valid() && borrowed == if request.libraries.Length > 0 then request.libraries else null
      ensures Abs(branch) == ApplyUpdate(Abs(old(branch)), request.Current())
    {
      HibernateOrWake(request.update.hibernate);
      assert Abs(branch) == Hibernate(Abs(old(branch)), request.update.hibernate);
      ReplaceScalars(request.update.image, request.update.instances);
      assert branch.postgres == old(branch).postgres;
      MergeParameters(request.update.params);
      BorrowLibraries(request.libraries);
    }

    method WithClusterFromPool(clusterName: string, wakeupPool: string)
      modifies this
      ensures Abs(branch) == FromPool(Abs(old(branch)), Some((clusterName, wakeupPool)))
      ensures branch.postgres == old(branch).postgres
    {
      if clusterName != "" {
        branch := branch.(clusterName := Some(clusterName));
        if !branch.backups.PgBackRest? {
          branch := branch.(backups := NoBackups);
        }
        branch := branch.(wakeupPool := Some(wakeupPool));
      }
    }

    /** The first library becomes xatautils. The others are moved within the slice that the branch
        holds, which may be the request's, before they are copied. */
    method WithXataUtilsPreloadLibrary()
      requires Valid()
      modifies this, borrowed
      ensures borrowed == null && branch.postgres.Some?
      ensures old(borrowed) != null ==> old(borrowed)[..] == Compacted(old(borrowed[..]))
      ensures var pg := if old(branch).postgres.None? then Postgres([], []) else old(branch).postgres.value;
        branch == old(branch).(postgres := Some(pg.(libraries := [XATAUTILS] + Others(pg.libraries))))
    {
      if branch.postgres.None? {
        branch := branch.(postgres := Some(Postgres([], [])));
      }
      var held := branch.postgres.value.libraries;
      var slice := borrowed;
      if slice == null {
        slice := new string[|held|](i requires 0 <= i < |held| => held[i]);
        assert slice[..] == held;
      }
      var n := DeleteXataUtils(slice);
      branch := branch.(postgres := Some(branch.postgres.value.(libraries := [XATAUTILS] + slice[..n])));
      borrowed := null;
    }

    method WithMandatoryPostgresParameters(mandates: Mandates)
      modifies this
      ensures Tidy(branch)
      ensures var pg := if old(branch).postgres.None? then Postgres([], []) else old(branch).postgres.value;
        && branch == old(branch).(postgres := branch.postgres)
        && branch.postgres.value.libraries == pg.libraries
        && AsMap(branch.postgres.value.params) == AsMap(pg.params) + mandates(branch.image)
    {
      if branch.postgres.None? {
        branch := branch.(postgres := Some(Postgres([], [])));
      }
      var params := MapFromParameters(branch.postgres.value.params);
      var list := ParametersFromMap(params + mandates(branch.image));
      branch := branch.(postgres := Some(branch.postgres.value.(params := list)));
    }

    /** The two closing steps of every pipeline. */
    method Close(mandates: Mandates)
      requires Valid()
      modifies this, borrowed
      ensures old(borrowed) != null ==> old(borrowed)[..] == Compacted(old(borrowed[..]))
      ensures Tidy(branch) && Abs(branch) == Finish(Abs(old(branch)), mandates)
    {
      WithXataUtilsPreloadLibrary();
      WithMandatoryPostgresParameters(mandates);
    }
  }

  /** The builder calls of CreatePostgresCluster. */
  method CreateBranch(r: Request, parent: Option<Object>, pool: Option<(string, string)>, mandates: Mandates)
    returns (b: Object)
    ensures Tidy(b) && Abs(b) == Create(r, AbsParent(parent), pool, mandates)
  {
    var builder := new BranchBuilder.FromCreateClusterRequest(r);
    builder.WithOverridesFromParent(parent);
    builder.Close(mandates);
    if parent.None? && pool.Some? {
      builder.WithClusterFromPool(pool.value.0, pool.value.1);
    }
    b := builder.branch;
  }

  /** One attempt of UpdatePostgresCluster, on the version it has read. It leaves the request's list of
      libraries compacted. */
  method UpdateBranch(existing: Object, request: UpdateRequest, mandates: Mandates) returns (b: Object, ok: bool)
    requires CanAttempt(existing, request.Current())
    modifies request.libraries
    ensures ok == Accepted(existing, old(request.Current()))
    ensures Abs(b) == Rebuild(Abs(existing), old(request.Current()), mandates)
    ensures if ok then Tidy(b) else b == existing
    ensures request.libraries[..] == if ok then Compacted(old(request.libraries[..])) else old(request.libraries[..])
  {
    if request.update.configuresBackups && existing.backups.NoBackups? {
      return existing, false;
    }
    var builder := new BranchBuilder.FromExistingBranch(existing);
    builder.WithUpdatesFrom(request);
    assert request.libraries.Length == 0 ==> request.libraries[..] == Compacted(request.libraries[..]) == [];
    builder.Close(mandates);
    return builder.branch, true;
  }

  /** UpdatePostgresCluster: an attempt on each of the `stale` versions meets a conflict, and the one on
      the current version is committed. The request is one and the same, so that a repeated attempt
      does not see it as it was sent. */
  method UpdatePostgresCluster(stale: seq<Object>, current: Object, u: Update, mandates: Mandates)
    returns (b: Object, ok: bool)
    requires CanAttempt(current, u)
    requires forall i :: 0 <= i < |stale| ==> stale[i].backups == current.backups && CanAttempt(stale[i], u)
    ensures ok == Accepted(current, u)
    ensures Abs(b) == Committed(Abs(current), u, |stale|, mandates)
    ensures if ok then Tidy(b) else b == current
  {
    var request := new UpdateRequest(u);
    CompactedOnce(u.libraries);
    for i := 0 to |stale|
      invariant fresh(request.libraries) && request.Current() == Retried(u, i)
    {
      b, ok := UpdateBranch(stale[i], request, mandates);
      if !ok {
        return current, false;
      }
    }
    b, ok := UpdateBranch(current, request, mandates);
  }

  /** One event of a history, on the object, of which the reconciler may have seen an older version. */
  method Advance(b: Object, seen: Object, e: Event, mandates: Mandates) returns (after: Object)
    requires Tidy(b)
    ensures Tidy(after) && Abs(after) == Happen(Abs(b), Abs(seen), e, mandates)
  {
    match e {
      case Updated(u, conflicts) =>
        var ok;
        after, ok := UpdatePostgresCluster(seq(conflicts, _ => b), b, u, mandates);
      case Assigned(_, cluster, poolImage) =>
        after := Assign(b, seen, cluster, poolImage);
      case Slept =>
        after := Sleep(b);
    }
  }

  /** `versions` stand for the first branches of a history. */
  ghost predicate Stand(versions: seq<Object>, history: nat -> Spec)
  {
    forall j :: 0 <= j < |versions| ==> Tidy(versions[j]) && Abs(versions[j]) == history(j)
  }

  /** The next event of a history. */
  method NextVersion(versions: seq<Object>, ghost history: nat -> Spec, e: Event, mandates: Mandates)
    returns (b: Object)
    requires versions != [] && Stand(versions, history)
    requires var i := |versions| - 1;
      history(i).postgres.Some? && history(i + 1) == Happen(history(i), history(ReadAt(e, i)), e, mandates)
    ensures Stand(versions + [b], history)
  {
    var i := |versions| - 1;
    b := Advance(versions[i], versions[ReadAt(e, i)], e, mandates);
    StandOneMore(versions, b, history);
  }

  lemma StandOneMore(versions: seq<Object>, b: Object, history: nat -> Spec)
    requires Stand(versions, history) && Tidy(b) && Abs(b) == history(|versions|)
    ensures Stand(versions + [b], history)
  {
  }

  /** A create and any history after it: the object stays sorted and stands for what the history
      theorems speak about. */
  method BranchAfter(r: Request, parent: Option<Object>, pool: Option<(string, string)>, events: seq<Event>,
                     mandates: Mandates)
    returns (b: Object)
    ensures Tidy(b) && Abs(b) == After(Origin(r, AbsParent(parent), pool), events, mandates)
  {
    ghost var o := Origin(r, AbsParent(parent), pool);
    ghost var history := HistoryOf(o, events, mandates);
    HistoryOfEvents(o, events, mandates);
    b := CreateBranch(r, parent, pool, mandates);
    var versions := [b];
    for i := 0 to |events|
      invariant |versions| == i + 1 && b == versions[i] && Stand(versions, history)
    {
      b := NextVersion(versions, history, events[i], mandates);
      versions := versions + [b];
    }
  }

  /** A sorted list holds exactly the entries of its map. */
  lemma {:induction false} SortedEntries(list: seq<Param>, name: string, value: string)
    requires Sorted(list)
    ensures Param(name, value) in list <==> name in AsMap(list) && AsMap(list)[name] == value
  {
    if list != [] {
      var front, last := list[..|list| - 1], list[|list| - 1];
      assert list == front + [last];
      SortedEntries(front, name, value);
      AsMapWithoutLast(list);
    }
  }

  /** After a create and any history, the parameter list of the object is sorted by name and holds an
      entry exactly for every last written value. */
  lemma ListHoldsLastWrites(b: Object, o: Origin, events: seq<Event>, mandates: Mandates, name: string, value: string)
    requires Tidy(b) && Abs(b) == After(o, events, mandates)
    ensures Param(name, value) in b.postgres.value.params <==>
      LastWrite(Writes(o, events, mandates), name) == Some(value)
  {
    SortedEntries(b.postgres.value.params, name, value);
    ParametersHoldLastWrite(o, events, mandates, name);
  }
}
