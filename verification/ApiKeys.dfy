/** services/auth/api/handler.go: creating an API key, possibly with another API key.

    The handler's helpers that loop are methods proved against functions; `CreateKey` is the whole
    decision, including the defaults the store applies. Clock readings, the hierarchy check of the
    projects service and store failures are inputs. */
module ApiKeys {
  import opened Runs

  const WILDCARD := "*"
  const MAX_NAME_LENGTH := 256
  const MAX_ENTRIES := 50

  type Permissions = seq<string>

  /** len of a Go string: the number of bytes of its UTF-8 form. */
  function ByteLength(s: string): nat
  {
    if s == [] then 0
    else
      var c := s[|s| - 1];
      var width := if c < '\U{80}' then 1 else if c < '\U{800}' then 2 else if c < '\U{10000}' then 3 else 4;
      ByteLength(s[..|s| - 1]) + width
  }

  datatype Key = Key(scopes: Permissions, projects: Permissions, branches: Permissions, expiry: Option<int>)

  /** The fields a caller provides; None is an omitted field. */
  datatype Request = Request(name: string, expiry: Option<int>,
                             scopes: Option<Permissions>, projects: Option<Permissions>, branches: Option<Permissions>)

  /** Who asks: nobody, a user with the permissions of the token, or an API key, whose record is
      looked up in the store and may not be there. */
  datatype Caller =
    | Anonymous
    | User(scopes: Permissions, projects: Permissions, branches: Permissions)
    | WithKey(parent: Option<Key>)

  /** What the handler asks of the world. */
  datatype World = World(now: int, storeNow: int, knownScopes: set<string>,
                         hierarchyOk: (Permissions, Permissions) -> bool, storeFails: bool)

  datatype Error = InvalidName | InvalidExpiry | InvalidRestrictions | Unauthorized | StoreError

  datatype Result = Created(key: Key) | Rejected(error: Error)

  // ----- permission lists

  predicate NoDuplicates(s: Permissions) { forall i, j :: 0 <= i < j < |s| ==> s[i] != s[j] }

  /** The non-empty entries of `s`, each once, in order of first occurrence. */
  function Distinct(s: Permissions): Permissions
  {
    if s == [] then []
    else
      var d, x := Distinct(s[..|s| - 1]), s[|s| - 1];
      if x == "" || x in d then d else d + [x]
  }

  function Clean(s: Option<Permissions>): Permissions
  {
    if s.None? then [] else if WILDCARD in s.value then [WILDCARD] else Distinct(s.value)
  }

  predicate MixesWildcard(s: Option<Permissions>)
  {
    s.Some? && WILDCARD in s.value && exists i :: 0 <= i < |s.value| && s.value[i] != WILDCARD && s.value[i] != ""
  }

  lemma {:induction false} DistinctKeepsEntries(s: Permissions)
    ensures NoDuplicates(Distinct(s))
    ensures forall x :: x in Distinct(s) <==> x in s && x != ""
  {
    if s != [] {
      var front, x := s[..|s| - 1], s[|s| - 1];
      DistinctKeepsEntries(front);
      assert s == front + [x];
    }
  }

  /** Entries are taken in the order in which they first occur: what comes later never changes what is
      already there. */
  lemma DistinctGrows(s: Permissions, x: string)
    ensures Distinct(s) <= Distinct(s + [x]) && |Distinct(s + [x])| <= |Distinct(s)| + 1
  {
    assert (s + [x])[..|s|] == s;
  }

  /** A field counts as omitted exactly when it holds nothing but empty entries. */
  lemma CleanIsEmptyIff(s: Option<Permissions>)
    ensures Clean(s) == [] <==> s.None? || forall i :: 0 <= i < |s.value| ==> s.value[i] == ""
  {
    if s.Some? {
      DistinctKeepsEntries(s.value);
      assert forall i :: 0 <= i < |s.value| ==> s.value[i] in s.value;
      if Distinct(s.value) != [] {
        assert Distinct(s.value)[0] in Distinct(s.value);
      }
    }
  }

  /** Cleaning changes a permission list only in form: unless it mixes the wildcard with other
      values, the cleaned list grants exactly what the given one does, without repetition. */
  lemma CleanGrantsTheSame(s: Permissions, x: string)
    requires !MixesWildcard(Some(s)) && x != ""
    ensures NoDuplicates(Clean(Some(s)))
    ensures Granted(x, Clean(Some(s))) <==> Granted(x, s)
  {
    DistinctKeepsEntries(s);
  }

  /** A list is refused exactly when it names the wildcard and something else; empty entries do not
      count. */
  lemma MixesWildcardIff(s: Option<Permissions>)
    ensures MixesWildcard(s) <==> s.Some? && "*" in s.value && exists x :: x in s.value && x != "*" && x != ""
  {
    if MixesWildcard(s) {
      var i :| 0 <= i < |s.value| && s.value[i] != WILDCARD && s.value[i] != "";
      assert s.value[i] in s.value;
    }
  }

  /** rejectMixedWildcard. */
  method RejectMixedWildcard(s: Option<Permissions>) returns (rejected: bool)
    ensures rejected == MixesWildcard(s)
  {
    if s.None? || WILDCARD !in s.value {
      return false;
    }
    for i := 0 to |s.value|
      invariant forall j :: 0 <= j < i ==> s.value[j] == WILDCARD || s.value[j] == ""
    {
      if s.value[i] != WILDCARD && s.value[i] != "" {
        return true;
      }
    }
    return false;
  }

  /** cleanPermissionArray. */
  method CleanPermissionArray(s: Option<Permissions>) returns (result: Permissions)
    ensures result == Clean(s)
  {
    if s.None? {
      return [];
    }
    if WILDCARD in s.value {
      return [WILDCARD];
    }
    var seen: set<string> := {};
    result := [];
    for i := 0 to |s.value|
      invariant result == Distinct(s.value[..i])
      invariant forall x :: x in seen <==> x in result
    {
      assert s.value[..i + 1][..i] == s.value[..i];
      if s.value[i] == "" {
        continue;
      }
      if s.value[i] !in seen {
        seen := seen + {s.value[i]};
        result := result + [s.value[i]];
      }
    }
    assert s.value[..|s.value|] == s.value;
  }

  // ----- what a key allows

  /** strings.CutSuffix. */
  function CutSuffix(s: string, suffix: string): Option<string>
  {
    if |suffix| <= |s| && s[|s| - |suffix|..] == suffix then Some(s[..|s| - |suffix|]) else None
  }

  /** scopeAllowed: write implies read. */
  predicate ScopeAllowed(scope: string, allowed: Permissions)
  {
    || WILDCARD in allowed
    || scope in allowed
    || (var base := CutSuffix(scope, ":read"); base.Some? && base.value + ":write" in allowed)
  }

  /** Write implies read, and nothing else is implied: a scope is allowed by the wildcard, by its name,
      or, if it reads something, by the scope that writes the same. */
  lemma ScopeAllowedIff(scope: string, allowed: Permissions)
    ensures ScopeAllowed(scope, allowed) <==>
      WILDCARD in allowed || scope in allowed || exists base :: scope == base + ":read" && base + ":write" in allowed
  {
    var cut := CutSuffix(scope, ":read");
    if cut.Some? {
      assert scope == cut.value + ":read";
    }
    forall base | scope == base + ":read" ensures cut == Some(base) {
      assert scope[|scope| - 5..] == ":read" && scope[..|scope| - 5] == base;
    }
  }

  /** A project or branch is granted by name or by the wildcard. */
  predicate Granted(resource: string, allowed: Permissions)
  {
    WILDCARD in allowed || resource in allowed
  }

  /** Everything the permission lists of `child` allow, those of `parent` allow too. */
  ghost predicate NoMoreThan(child: Key, parent: Key)
  {
    && (forall x :: ScopeAllowed(x, child.scopes) ==> ScopeAllowed(x, parent.scopes))
    && (forall x :: Granted(x, child.projects) ==> Granted(x, parent.projects))
    && (forall x :: Granted(x, child.branches) ==> Granted(x, parent.branches))
  }

  ghost predicate Outlives(child: Key, parent: Key)
  {
    parent.expiry.Some? && (child.expiry.None? || child.expiry.value > parent.expiry.value)
  }

  predicate Complete(k: Key) { k.scopes != [] && k.projects != [] && k.branches != [] }

  predicate AllScopesAllowed(requested: Permissions, allowed: Permissions)
  {
    forall i :: 0 <= i < |requested| ==> ScopeAllowed(requested[i], allowed)
  }

  predicate AllGranted(requested: Permissions, allowed: Permissions)
  {
    WILDCARD in allowed || forall i :: 0 <= i < |requested| ==> requested[i] in allowed
  }

  /** Only known scopes and the wildcard. */
  predicate AllKnown(scopes: Permissions, known: set<string>)
  {
    forall i :: 0 <= i < |scopes| ==> scopes[i] == WILDCARD || scopes[i] in known
  }

  /** The loop of createAPIKey over the scopes given. */
  method CheckKnown(scopes: Permissions, known: set<string>) returns (ok: bool)
    ensures ok == AllKnown(scopes, known)
  {
    for i := 0 to |scopes|
      invariant AllKnown(scopes[..i], known)
    {
      if scopes[i] != WILDCARD && scopes[i] !in known {
        return false;
      }
    }
    return true;
  }

  /** The loop of createAPIKey over the scopes the key would hold. */
  method CheckScopes(scopes: Permissions, allowed: Permissions) returns (ok: bool)
    ensures ok == AllScopesAllowed(scopes, allowed)
  {
    for i := 0 to |scopes|
      invariant forall j :: 0 <= j < i ==> ScopeAllowed(scopes[j], allowed)
    {
      if !ScopeAllowed(scopes[i], allowed) {
        return false;
      }
    }
    return true;
  }

  /** validateResourceList. */
  method ValidateResourceList(requested: Permissions, access: Permissions) returns (ok: bool)
    ensures ok == AllGranted(requested, access)
  {
    if |requested| == 0 {
      return true;
    }
    if WILDCARD in access {
      return true;
    }
    var table: map<string, bool> := map[];
    for i := 0 to |access|
      invariant forall x :: x in table <==> x in access[..i]
    {
      assert access[..i + 1] == access[..i] + [access[i]];
      table := table[access[i] := true];
    }
    assert access[..|access|] == access;
    for i := 0 to |requested|
      invariant forall j :: 0 <= j < i ==> requested[j] in access
    {
      if requested[i] !in table {
        return false;
      }
    }
    return true;
  }

  // ----- creating a key

  function OrElse(given: Permissions, inherited: Permissions): Permissions { if given == [] then inherited else given }

  /** Wildcard lists are not checked against the hierarchy. */
  function Concrete(s: Permissions): Permissions { if WILDCARD in s then [] else s }

  /** The permissions requested, once inheritance has filled in what was omitted. */
  function Effective(req: Request, caller: Caller): Key
    requires caller.User? || (caller.WithKey? && caller.parent.Some?)
  {
    var s, p, b := Clean(req.scopes), Clean(req.projects), Clean(req.branches);
    if caller.User? then Key(s, p, b, req.expiry)
    else
      var parent := caller.parent.value;
      Key(OrElse(s, parent.scopes), OrElse(p, parent.projects), OrElse(b, parent.branches), req.expiry)
  }

  /** The upper bound on what the new key may hold. */
  function Bound(caller: Caller): Key
    requires caller.User? || (caller.WithKey? && caller.parent.Some?)
  {
    if caller.User? then Key(caller.scopes, caller.projects, caller.branches, None) else caller.parent.value
  }

  /** The store replaces empty lists by the wildcard. */
  function Stored(k: Key): Key
  {
    Key(OrElse(k.scopes, [WILDCARD]), OrElse(k.projects, [WILDCARD]), OrElse(k.branches, [WILDCARD]), k.expiry)
  }

  function CreateInStore(k: Key, w: World): Result
  {
    if k.expiry.Some? && k.expiry.value < w.storeNow then Rejected(StoreError)
    else if |k.scopes| > MAX_ENTRIES || |k.projects| > MAX_ENTRIES || |k.branches| > MAX_ENTRIES then
      Rejected(StoreError)
    else if w.storeFails then Rejected(StoreError)
    else Created(Stored(k))
  }

  /** createAPIKey: the checks in the order of the handler. */
  function CreateKey(req: Request, caller: Caller, w: World): Result
  {
    if req.name == "" || ByteLength(req.name) > MAX_NAME_LENGTH then Rejected(InvalidName)
    else if req.expiry.Some? && req.expiry.value <= w.now then Rejected(InvalidExpiry)
    else if MixesWildcard(req.scopes) || MixesWildcard(req.projects) || MixesWildcard(req.branches) then
      Rejected(InvalidRestrictions)
    else if caller.Anonymous? then Rejected(Unauthorized)
    else if !AllKnown(Clean(req.scopes), w.knownScopes) then
      Rejected(InvalidRestrictions)
    else if caller.WithKey? && caller.parent.None? then Rejected(StoreError)
    else if caller.WithKey? && !Complete(caller.parent.value) then Rejected(InvalidRestrictions)
    else if caller.WithKey? && caller.parent.value.expiry.Some?
      && (req.expiry.None? || req.expiry.value > caller.parent.value.expiry.value) then Rejected(InvalidExpiry)
    else
      var k, bound := Effective(req, caller), Bound(caller);
      if (Concrete(k.projects) != [] || Concrete(k.branches) != [])
        && !w.hierarchyOk(Concrete(k.projects), Concrete(k.branches)) then
        Rejected(InvalidRestrictions)
      else if !AllScopesAllowed(k.scopes, bound.scopes) then Rejected(InvalidRestrictions)
      else if !AllGranted(k.projects, bound.projects) then Rejected(InvalidRestrictions)
      else if !AllGranted(k.branches, bound.branches) then Rejected(InvalidRestrictions)
      else CreateInStore(k, w)
  }

  /** createAPIKey as the handler runs it, with the looping helpers. */
  method CreateAPIKey(req: Request, caller: Caller, w: World) returns (r: Result)
    ensures r == CreateKey(req, caller, w)
  {
    if req.name == "" || ByteLength(req.name) > MAX_NAME_LENGTH {
      return Rejected(InvalidName);
    }
    if req.expiry.Some? && req.expiry.value <= w.now {
      return Rejected(InvalidExpiry);
    }
    var mixedScopes := RejectMixedWildcard(req.scopes);
    var mixedProjects := RejectMixedWildcard(req.projects);
    var mixedBranches := RejectMixedWildcard(req.branches);
    if mixedScopes || mixedProjects || mixedBranches {
      return Rejected(InvalidRestrictions);
    }
    var scopes := CleanPermissionArray(req.scopes);
    var projects := CleanPermissionArray(req.projects);
    var branches := CleanPermissionArray(req.branches);
    if caller.Anonymous? {
      return Rejected(Unauthorized);
    }
    var known := CheckKnown(scopes, w.knownScopes);
    if !known {
      return Rejected(InvalidRestrictions);
    }
    if caller.WithKey? {
      if caller.parent.None? {
        return Rejected(StoreError);
      }
      var parent := caller.parent.value;
      if |parent.scopes| == 0 || |parent.projects| == 0 || |parent.branches| == 0 {
        return Rejected(InvalidRestrictions);
      }
      scopes := OrElse(scopes, parent.scopes);
      projects := OrElse(projects, parent.projects);
      branches := OrElse(branches, parent.branches);
      if parent.expiry.Some? && (req.expiry.None? || req.expiry.value > parent.expiry.value) {
        return Rejected(InvalidExpiry);
      }
    }
    var allowed := Bound(caller);
    if (Concrete(projects) != [] || Concrete(branches) != [])
      && !w.hierarchyOk(Concrete(projects), Concrete(branches))
    {
      return Rejected(InvalidRestrictions);
    }
    var scopesOk := CheckScopes(scopes, allowed.scopes);
    if !scopesOk {
      return Rejected(InvalidRestrictions);
    }
    var projectsOk := ValidateResourceList(projects, allowed.projects);
    if !projectsOk {
      return Rejected(InvalidRestrictions);
    }
    var branchesOk := ValidateResourceList(branches, allowed.branches);
    if !branchesOk {
      return Rejected(InvalidRestrictions);
    }
    return CreateInStore(Key(scopes, projects, branches, req.expiry), w);
  }

  // ----- derivation chains

  /** If every listed scope is allowed, then everything the list allows is allowed. */
  lemma ScopeClosure(requested: Permissions, allowed: Permissions, x: string)
    requires AllScopesAllowed(requested, allowed) && ScopeAllowed(x, requested)
    ensures ScopeAllowed(x, allowed)
  {
    if WILDCARD in requested {
      var i :| 0 <= i < |requested| && requested[i] == WILDCARD;
      assert CutSuffix(WILDCARD, ":read").None?;
    } else if x in requested {
      var i :| 0 <= i < |requested| && requested[i] == x;
    } else {
      var base := CutSuffix(x, ":read").value;
      var i :| 0 <= i < |requested| && requested[i] == base + ":write";
      var wr := requested[i];
      assert wr[|wr| - 1] == 'e' && ":read"[4] == 'd';
      assert CutSuffix(wr, ":read").None? by {
        if |wr| >= 5 {
          assert wr[|wr| - 5..][4] == 'e';
        }
      }
    }
  }

  lemma GrantClosure(requested: Permissions, allowed: Permissions, x: string)
    requires AllGranted(requested, allowed) && Granted(x, requested)
    ensures Granted(x, allowed)
  {
  }

  /** `child` was created with the key `parent`, by some request at some time. */
  ghost predicate Creates(parent: Key, child: Key)
  {
    exists req, w :: CreateKey(req, WithKey(Some(parent)), w) == Created(child)
  }

  /** `child` allows no more than `parent` and does not outlive it, and neither has an empty list. */
  ghost predicate Within(parent: Key, child: Key)
  {
    NoMoreThan(child, parent) && !Outlives(child, parent) && Complete(child) && Complete(parent)
  }

  lemma ChildIsBounded(parent: Key, child: Key)
    requires Creates(parent, child)
    ensures Within(parent, child)
  {
    var req, w :| CreateKey(req, WithKey(Some(parent)), w) == Created(child);
    var k := Effective(req, WithKey(Some(parent)));
    assert child == k;
    forall x | ScopeAllowed(x, child.scopes) ensures ScopeAllowed(x, parent.scopes) {
      ScopeClosure(k.scopes, parent.scopes, x);
    }
    forall x | Granted(x, child.projects) ensures Granted(x, parent.projects) {
      GrantClosure(k.projects, parent.projects, x);
    }
    forall x | Granted(x, child.branches) ensures Granted(x, parent.branches) {
      GrantClosure(k.branches, parent.branches, x);
    }
  }

  lemma WithinIsTransitive(a: Key, b: Key, c: Key)
    requires Within(a, b) && Within(b, c)
    ensures Within(a, c)
  {
  }

  lemma {:induction false} BoundedChain(creates: (Key, Key) -> bool, chain: seq<Key>, i: nat, j: nat)
    requires IsPath(creates, chain) && i < j < |chain|
    requires forall a, b :: creates(a, b) ==> Within(a, b)
    ensures Within(chain[i], chain[j])
    decreases j - i
  {
    assert creates(chain[j - 1], chain[j]);
    if i < j - 1 {
      BoundedChain(creates, chain, i, j - 1);
      WithinIsTransitive(chain[i], chain[j - 1], chain[j]);
    }
  }

  /** Along any chain of keys, each created with the one before, no key allows more than an
      earlier one, none outlives an earlier one that expires, and no permission list is empty. */
  lemma ChainsNeverEscalate(chain: seq<Key>, i: nat, j: nat)
    requires IsPath(Creates, chain) && i < j < |chain|
    ensures Within(chain[i], chain[j])
  {
    forall a, b | Creates(a, b) ensures Within(a, b) {
      ChildIsBounded(a, b);
    }
    BoundedChain(Creates, chain, i, j);
  }

  /** The list of a new key: what was given, else the parent's, else everything. */
  ghost function ListFor(given: Option<Permissions>, parent: Option<Permissions>): Permissions
  {
    if Clean(given) != [] then Clean(given) else if parent.Some? then parent.value else ["*"]
  }

  /** The parent of a key made with another key. */
  ghost function ParentOf(caller: Caller): Option<Key> { if caller.WithKey? then caller.parent else None }

  ghost function ScopesFor(req: Request, parent: Option<Key>): Permissions
  {
    ListFor(req.scopes, if parent.Some? then Some(parent.value.scopes) else None)
  }

  ghost function ProjectsFor(req: Request, parent: Option<Key>): Permissions
  {
    ListFor(req.projects, if parent.Some? then Some(parent.value.projects) else None)
  }

  ghost function BranchesFor(req: Request, parent: Option<Key>): Permissions
  {
    ListFor(req.branches, if parent.Some? then Some(parent.value.branches) else None)
  }

  /** What a created key holds: the expiry asked for, which lies in the future; each list as asked for,
      or else inherited, or else the wildcard; no scope that is neither known nor inherited; and no
      project or branch outside the caller's hierarchy. */
  lemma CreatedKeysAreAsAsked(req: Request, caller: Caller, w: World, key: Key)
    requires CreateKey(req, caller, w) == Created(key)
    ensures key.expiry == req.expiry && (key.expiry.Some? ==> key.expiry.value > w.now)
    ensures key.scopes == ScopesFor(req, ParentOf(caller))
    ensures key.projects == ProjectsFor(req, ParentOf(caller))
    ensures key.branches == BranchesFor(req, ParentOf(caller))
    ensures forall s :: s in key.scopes ==>
      s == WILDCARD || s in w.knownScopes || (caller.WithKey? && s in caller.parent.value.scopes)
    ensures (Concrete(key.projects) == [] && Concrete(key.branches) == [])
      || w.hierarchyOk(Concrete(key.projects), Concrete(key.branches))
    ensures Complete(key)
  {
    var given := Clean(req.scopes);
    forall s | s in given ensures s == WILDCARD || s in w.knownScopes {
      var i :| 0 <= i < |given| && given[i] == s;
    }
  }

  /** The request is well formed, whoever makes it. */
  ghost predicate WellFormed(req: Request, w: World)
  {
    && 1 <= ByteLength(req.name) <= 256
    && (req.expiry.Some? ==> req.expiry.value > w.now && req.expiry.value >= w.storeNow)
    && !MixesWildcard(req.scopes) && !MixesWildcard(req.projects) && !MixesWildcard(req.branches)
    && (forall s :: s in Clean(req.scopes) ==> s == "*" || s in w.knownScopes)
  }

  /** A list of a new key names nothing that `allowed` does not grant, and is not too long. */
  ghost predicate WithinList(list: Permissions, allowed: Permissions)
  {
    |list| <= 50 && ("*" in allowed || forall x :: x in list ==> x in allowed)
  }

  ghost predicate WithinScopes(list: Permissions, allowed: Permissions)
  {
    |list| <= 50 && forall x :: x in list ==> ScopeAllowed(x, allowed)
  }

  /** The hierarchy check passes, or there is nothing to check. */
  ghost predicate InHierarchy(projects: Permissions, branches: Permissions, w: World)
  {
    var p, b := (if "*" in projects then [] else projects), if "*" in branches then [] else branches;
    (p == [] && b == []) || w.hierarchyOk(p, b)
  }

  lemma ByteLengthIsZeroIff(s: string)
    ensures ByteLength(s) == 0 <==> s == ""
  {
  }

  /** Bytes add up, and a character takes between one and four, by the ranges of RFC 3629, section 3. */
  lemma {:induction false} ByteLengthAdds(a: string, b: string)
    ensures ByteLength(a + b) == ByteLength(a) + ByteLength(b)
    ensures |b| == 1 ==>
      && (ByteLength(b) == 1 <==> b[0] <= '\U{7F}') && (ByteLength(b) == 2 <==> '\U{80}' <= b[0] <= '\U{7FF}')
      && (ByteLength(b) == 3 <==> '\U{800}' <= b[0] <= '\U{FFFF}') && (ByteLength(b) == 4 <==> '\U{10000}' <= b[0])
  {
    if b == [] {
      assert a + b == a;
    } else {
      assert (a + b)[..|a + b| - 1] == a + b[..|b| - 1];
      ByteLengthAdds(a, b[..|b| - 1]);
    }
  }

  /** Exactly which requests of an API key are granted: well-formed ones, within the lists and the
      expiry of the key, whose projects and branches exist, if the store does not fail. */
  lemma KeyCreatedIff(req: Request, parent: Key, w: World)
    ensures CreateKey(req, WithKey(Some(parent)), w).Created? <==>
      && WellFormed(req, w) && !w.storeFails
      && parent.scopes != [] && parent.projects != [] && parent.branches != []
      && (parent.expiry.Some? ==> req.expiry.Some? && req.expiry.value <= parent.expiry.value)
      && WithinScopes(ScopesFor(req, Some(parent)), parent.scopes)
      && WithinList(ProjectsFor(req, Some(parent)), parent.projects)
      && WithinList(BranchesFor(req, Some(parent)), parent.branches)
      && InHierarchy(ProjectsFor(req, Some(parent)), BranchesFor(req, Some(parent)), w)
  {
    var k := Effective(req, WithKey(Some(parent)));
    assert k.scopes == ScopesFor(req, Some(parent)) && k.projects == ProjectsFor(req, Some(parent));
    assert k.branches == BranchesFor(req, Some(parent));
    FormIsChecked(req, w);
    KeyIsChecked(k, parent, w);
  }

  /** The checks of the request alone. */
  predicate FormChecks(req: Request, w: World)
  {
    && req.name != "" && ByteLength(req.name) <= MAX_NAME_LENGTH
    && (req.expiry.Some? ==> req.expiry.value > w.now && req.expiry.value >= w.storeNow)
    && !MixesWildcard(req.scopes) && !MixesWildcard(req.projects) && !MixesWildcard(req.branches)
    && AllKnown(Clean(req.scopes), w.knownScopes)
  }

  lemma FormIsChecked(req: Request, w: World)
    ensures FormChecks(req, w) <==> WellFormed(req, w)
  {
    ByteLengthIsZeroIff(req.name);
    var given := Clean(req.scopes);
    assert forall i :: 0 <= i < |given| ==> given[i] in given;
  }

  /** The checks of the lists that the key would hold. */
  predicate KeyChecks(k: Key, bound: Key, w: World)
  {
    && ((Concrete(k.projects) == [] && Concrete(k.branches) == [])
        || w.hierarchyOk(Concrete(k.projects), Concrete(k.branches)))
    && AllScopesAllowed(k.scopes, bound.scopes) && AllGranted(k.projects, bound.projects)
    && AllGranted(k.branches, bound.branches)
    && |k.scopes| <= MAX_ENTRIES && |k.projects| <= MAX_ENTRIES && |k.branches| <= MAX_ENTRIES
  }

  lemma KeyIsChecked(k: Key, bound: Key, w: World)
    ensures KeyChecks(k, bound, w) <==>
      && WithinScopes(k.scopes, bound.scopes) && WithinList(k.projects, bound.projects)
      && WithinList(k.branches, bound.branches) && InHierarchy(k.projects, k.branches, w)
  {
    assert forall i :: 0 <= i < |k.scopes| ==> k.scopes[i] in k.scopes;
    assert forall i :: 0 <= i < |k.projects| ==> k.projects[i] in k.projects;
    assert forall i :: 0 <= i < |k.branches| ==> k.branches[i] in k.branches;
  }

  /** Exactly which requests of a user are granted; the token's lists bound what is given. */
  lemma UserKeyCreatedIff(req: Request, user: Caller, w: World)
    requires user.User?
    ensures CreateKey(req, user, w).Created? <==>
      && WellFormed(req, w) && !w.storeFails
      && WithinScopes(Clean(req.scopes), user.scopes)
      && WithinList(Clean(req.projects), user.projects)
      && WithinList(Clean(req.branches), user.branches)
      && InHierarchy(Clean(req.projects), Clean(req.branches), w)
  {
    FormIsChecked(req, w);
    KeyIsChecked(Effective(req, user), Bound(user), w);
  }

  /** Why a request is refused: the name first, then the expiry, then the caller. */
  lemma RefusalReasons(req: Request, caller: Caller, w: World)
    ensures CreateKey(req, caller, w) == Rejected(InvalidName) <==> !(1 <= ByteLength(req.name) <= 256)
    ensures CreateKey(req, caller, w) == Rejected(Unauthorized) ==> caller.Anonymous?
    ensures caller.Anonymous? ==> CreateKey(req, caller, w).Rejected?
    ensures CreateKey(req, caller, w) == Rejected(InvalidExpiry) ==>
      || (req.expiry.Some? && req.expiry.value <= w.now)
      || (ParentOf(caller).Some? && Outlives(Key([], [], [], req.expiry), ParentOf(caller).value))
  {
    ByteLengthIsZeroIff(req.name);
  }

  /** The bound is tight: a key can always be rotated. A request that omits every permission field
      and asks for the parent's own expiry yields an equal key. */
  lemma RotationInheritsEverything(parent: Key, name: string, w: World)
    requires Complete(parent) && name != "" && ByteLength(name) <= MAX_NAME_LENGTH && !w.storeFails
    requires |parent.scopes| <= MAX_ENTRIES && |parent.projects| <= MAX_ENTRIES && |parent.branches| <= MAX_ENTRIES
    requires parent.expiry.Some? ==> w.now < parent.expiry.value && w.storeNow <= parent.expiry.value
    requires w.hierarchyOk(Concrete(parent.projects), Concrete(parent.branches))
    ensures CreateKey(Request(name, parent.expiry, None, None, None), WithKey(Some(parent)), w) == Created(parent)
  {
  }

  lemma DefaultedScopes(given: Permissions, allowed: Permissions)
    requires AllScopesAllowed(given, allowed)
    ensures (forall x :: ScopeAllowed(x, OrElse(given, [WILDCARD])) ==> ScopeAllowed(x, allowed)) <==>
      (WILDCARD in allowed || given != [])
  {
    if given != [] {
      forall x | ScopeAllowed(x, given) ensures ScopeAllowed(x, allowed) { ScopeClosure(given, allowed, x); }
    } else if WILDCARD !in allowed {
      assert ScopeAllowed(WILDCARD, [WILDCARD]);
      assert CutSuffix(WILDCARD, ":read").None?;
      assert !ScopeAllowed(WILDCARD, allowed);
    }
  }

  lemma DefaultedResources(given: Permissions, allowed: Permissions)
    requires AllGranted(given, allowed)
    ensures (forall x :: Granted(x, OrElse(given, [WILDCARD])) ==> Granted(x, allowed)) <==>
      (WILDCARD in allowed || given != [])
  {
    if given == [] && WILDCARD !in allowed {
      assert Granted(WILDCARD, [WILDCARD]);
      assert !Granted(WILDCARD, allowed);
    }
  }

  /** What a key created by a user rests on: the store turns an omitted field into the wildcard, so
      the new key stays within a list of the token exactly when the token has the wildcard there or
      the field is given. */
  lemma UserKeysAreBoundedIff(req: Request, user: Caller, w: World, key: Key)
    requires user.User? && CreateKey(req, user, w) == Created(key)
    ensures (forall x :: ScopeAllowed(x, key.scopes) ==> ScopeAllowed(x, user.scopes))
      <==> (WILDCARD in user.scopes || Clean(req.scopes) != [])
    ensures (forall x :: Granted(x, key.projects) ==> Granted(x, user.projects))
      <==> (WILDCARD in user.projects || Clean(req.projects) != [])
    ensures (forall x :: Granted(x, key.branches) ==> Granted(x, user.branches))
      <==> (WILDCARD in user.branches || Clean(req.branches) != [])
  {
    DefaultedScopes(Clean(req.scopes), user.scopes);
    DefaultedResources(Clean(req.projects), user.projects);
    DefaultedResources(Clean(req.branches), user.branches);
  }

  /** Every user token carries the wildcard in all three lists, so the new key stays within it
      whatever is given or omitted, and none of its lists is empty. */
  lemma UserKeysAreBounded(req: Request, user: Caller, w: World, key: Key)
    requires user.User? && CreateKey(req, user, w) == Created(key)
    requires WILDCARD in user.scopes && WILDCARD in user.projects && WILDCARD in user.branches
    ensures Within(Bound(user), key)
  {
    UserKeysAreBoundedIff(req, user, w, key);
  }
}
