/** services/auth/keycloak/keycloak_rest.go: the two loops that read every page of a listing.

    The server is a function from the request number to its answer, so it may change between
    requests in any way. */
module KeycloakPaging {
  import opened Runs

  const ORGANIZATION_PAGE := 200
  const MEMBER_PAGE := 100
  const MAX_MEMBER_PAGES := 100

  type Key(==, !new)
  type Data(==, !new)

  /** An organization (by alias, with its deleted-at attribute) or a member (by id). */
  datatype Record = Record(id: Key, deleted: bool, data: Data)

  datatype Response = Page(records: seq<Record>) | RequestFailed

  type Server = nat -> Response

  function Ids(s: seq<Record>): set<Key> { if s == [] then {} else Ids(s[..|s| - 1]) + {s[|s| - 1].id} }

  /** The first record of every id, in order. */
  function Distinct(s: seq<Record>): seq<Record>
  {
    if s == [] then []
    else
      var d, x := Distinct(s[..|s| - 1]), s[|s| - 1];
      if x.id in Ids(s[..|s| - 1]) then d else d + [x]
  }

  /** The records not marked deleted, in order. */
  function Live(s: seq<Record>): seq<Record>
  {
    if s == [] then []
    else if s[|s| - 1].deleted then Live(s[..|s| - 1]) else Live(s[..|s| - 1]) + [s[|s| - 1]]
  }

  /** The records of the first `n` answers. */
  function ReadSoFar(server: Server, n: nat): seq<Record>
  {
    if n == 0 then [] else ReadSoFar(server, n - 1) + (if server(n - 1).Page? then server(n - 1).records else [])
  }

  ghost predicate FullPages(server: Server, n: nat, size: nat)
  {
    forall i: nat :: i < n ==> server(i).Page? && |server(i).records| >= size
  }

  lemma {:induction false} IdsAreTheIds(s: seq<Record>, id: Key)
    ensures id in Ids(s) <==> exists i :: 0 <= i < |s| && s[i].id == id
  {
    if s != [] {
      IdsAreTheIds(s[..|s| - 1], id);
      assert s[|s| - 1].id == id || (id in Ids(s) <==> id in Ids(s[..|s| - 1]));
    }
  }

  lemma IdsAppend(s: seq<Record>, x: Record)
    ensures Ids(s + [x]) == Ids(s) + {x.id}
  {
    assert (s + [x])[..|s|] == s;
  }

  lemma LiveAppend(s: seq<Record>, x: Record)
    ensures Live(s + [x]) == if x.deleted then Live(s) else Live(s) + [x]
  {
    assert (s + [x])[..|s|] == s;
  }

  lemma DistinctAppend(s: seq<Record>, x: Record)
    ensures Distinct(s + [x]) == if x.id in Ids(s) then Distinct(s) else Distinct(s) + [x]
  {
    assert (s + [x])[..|s|] == s;
  }

  /** Live drops the deleted records and keeps the others where they are. */
  lemma {:induction false} LiveOfConcatenation(a: seq<Record>, b: seq<Record>)
    ensures Live(a + b) == Live(a) + Live(b)
  {
    if b == [] {
      assert a + b == a;
    } else {
      var front, last := b[..|b| - 1], b[|b| - 1];
      LiveOfConcatenation(a, front);
      LiveAppend(a + front, last);
      LiveAppend(front, last);
      ConcatAssociates(a, front, [last]);
      assert b == front + [last];
      ConcatAssociates(Live(a), Live(front), [last]);
    }
  }

  lemma ConcatAssociates(a: seq<Record>, b: seq<Record>, c: seq<Record>)
    ensures (a + b) + c == a + (b + c)
  {
  }

  /** The first record of an id is the one that is kept: what comes later changes nothing before. */
  lemma DistinctGrows(s: seq<Record>, x: Record)
    ensures Distinct(s) <= Distinct(s + [x]) && |Distinct(s + [x])| <= |Distinct(s)| + 1
  {
    DistinctAppend(s, x);
  }

  /** What either listing keeps of the records read so far. */
  function Selected(all: seq<Record>, skipDeleted: bool): seq<Record>
  {
    if skipDeleted then Live(Distinct(all)) else Distinct(all)
  }

  lemma SelectedAppend(all: seq<Record>, x: Record, skipDeleted: bool)
    ensures Ids(all + [x]) == Ids(all) + {x.id}
    ensures Selected(all + [x], skipDeleted) ==
      if x.id in Ids(all) || (skipDeleted && x.deleted) then Selected(all, skipDeleted)
      else Selected(all, skipDeleted) + [x]
  {
    IdsAppend(all, x);
    DistinctAppend(all, x);
    LiveAppend(Distinct(all), x);
  }

  lemma ExtendPrefix(before: seq<Record>, page: seq<Record>, k: nat)
    requires k < |page|
    ensures before + page[..k + 1] == before + page[..k] + [page[k]]
  {
  }

  /** One page of either listing: skip what was seen, keep the rest. */
  method ReadPage(ghost before: seq<Record>, page: seq<Record>, seenBefore: set<Key>, resultBefore: seq<Record>,
                  skipDeleted: bool)
    returns (seen: set<Key>, result: seq<Record>, added: nat)
    requires seenBefore == Ids(before) && resultBefore == Selected(before, skipDeleted)
    ensures seen == Ids(before + page) && result == Selected(before + page, skipDeleted)
    ensures added == 0 <==> seen == seenBefore
  {
    seen, result, added := seenBefore, resultBefore, 0;
    ghost var all := before;
    for k := 0 to |page|
      invariant all == before + page[..k]
      invariant seen == Ids(all) && result == Selected(all, skipDeleted)
      invariant seenBefore <= seen && (added == 0 <==> seen == seenBefore)
    {
      var x := page[k];
      SelectedAppend(all, x, skipDeleted);
      ExtendPrefix(before, page, k);
      all := all + [x];
      if x.id in seen {
        assert seen + {x.id} == seen;
        continue;
      }
      seen := seen + {x.id};
      added := added + 1;
      if skipDeleted && x.deleted {
        continue;
      }
      result := result + [x];
    }
    assert page[..|page|] == page;
  }

  /** Each of the first `n` pages brought an alias not seen before. */
  ghost predicate FreshPages(server: Server, n: nat)
  {
    forall i: nat :: i < n ==> Ids(ReadSoFar(server, i + 1)) != Ids(ReadSoFar(server, i))
  }

  /** How the organization listing ends after `n` full pages, each with something new. */
  ghost predicate EndsAfter(server: Server, n: nat, r: Option<seq<Record>>)
  {
    && FullPages(server, n, ORGANIZATION_PAGE) && FreshPages(server, n)
    && match r
       case Some(result) =>
         && server(n).Page? && |server(n).records| < ORGANIZATION_PAGE
         && result == Live(Distinct(ReadSoFar(server, n + 1)))
       case None =>
         server(n).Page? ==>
           |server(n).records| >= ORGANIZATION_PAGE && Ids(ReadSoFar(server, n + 1)) == Ids(ReadSoFar(server, n))
  }

  /** ListAllOrganizations. It terminates whatever the server answers, as long as the aliases come
      from some finite set; that set is the termination measure. */
  method ListAllOrganizations(server: Server, ghost universe: set<Key>) returns (r: Option<seq<Record>>)
    requires forall i: nat :: server(i).Page? ==> Ids(server(i).records) <= universe
    ensures exists pages: nat :: EndsAfter(server, pages, r)
  {
    var result: seq<Record> := [];
    var seen: set<Key> := {};
    var i: nat := 0;
    while true
      invariant FullPages(server, i, ORGANIZATION_PAGE) && FreshPages(server, i)
      invariant Progress(server, i, seen, result, true)
      invariant seen <= universe
      decreases |universe - seen|
    {
      if server(i).RequestFailed? {
        assert EndsAfter(server, i, None);
        return None;
      }
      ghost var seenBefore := seen;
      var added;
      seen, result, added := ReadRound(server, i, seen, result, true);
      if |server(i).records| < ORGANIZATION_PAGE {
        assert EndsAfter(server, i, Some(result));
        return Some(result);
      }
      if added == 0 {
        assert EndsAfter(server, i, None);
        return None;
      }
      SmallerRest(universe, seenBefore, Ids(server(i).records), seen);
      i := i + 1;
    }
  }

  /** The state of a listing after `i` pages. */
  ghost predicate Progress(server: Server, i: nat, seen: set<Key>, result: seq<Record>, skipDeleted: bool)
  {
    seen == Ids(ReadSoFar(server, i)) && result == Selected(ReadSoFar(server, i), skipDeleted)
  }

  /** One round of either loop. */
  method ReadRound(server: Server, i: nat, seen: set<Key>, result: seq<Record>, skipDeleted: bool)
    returns (newSeen: set<Key>, newResult: seq<Record>, added: nat)
    requires Progress(server, i, seen, result, skipDeleted) && server(i).Page?
    ensures Progress(server, i + 1, newSeen, newResult, skipDeleted)
    ensures newSeen == seen + Ids(server(i).records) && (added == 0 <==> newSeen == seen)
  {
    newSeen, newResult, added := ReadPage(ReadSoFar(server, i), server(i).records, seen, result, skipDeleted);
    IdsOfConcatenation(ReadSoFar(server, i), server(i).records);
  }

  lemma SmallerRest(universe: set<Key>, seen: set<Key>, page: set<Key>, more: set<Key>)
    requires seen <= universe && page <= universe && more == seen + page && more != seen
    ensures more <= universe && |universe - more| < |universe - seen|
  {
    assert universe - more < universe - seen;
    SmallerSet(universe - more, universe - seen);
  }

  lemma {:induction false} IdsOfConcatenation(a: seq<Record>, b: seq<Record>)
    ensures Ids(a + b) == Ids(a) + Ids(b)
  {
    if b == [] {
      assert a + b == a;
    } else {
      assert (a + b)[..|a + b| - 1] == a + b[..|b| - 1];
      IdsOfConcatenation(a, b[..|b| - 1]);
    }
  }

  lemma SmallerSet(a: set<Key>, b: set<Key>)
    requires a < b
    ensures |a| < |b|
  {
    assert b == a + (b - a);
  }

  /** How the member listing ends after `n` full pages. */
  ghost predicate MembersEndAfter(server: Server, n: nat, r: Option<seq<Record>>)
  {
    && n <= MAX_MEMBER_PAGES && FullPages(server, n, MEMBER_PAGE)
    && match r
       case Some(members) =>
         && n < MAX_MEMBER_PAGES && server(n).Page? && |server(n).records| < MEMBER_PAGE
         && members == Distinct(ReadSoFar(server, n + 1))
       case None => n == MAX_MEMBER_PAGES || server(n).RequestFailed?
  }

  /** listAllMembers. */
  method ListAllMembers(server: Server) returns (r: Option<seq<Record>>)
    ensures exists pages: nat :: MembersEndAfter(server, pages, r)
  {
    var members: seq<Record> := [];
    var seen: set<Key> := {};
    for page := 0 to MAX_MEMBER_PAGES
      invariant FullPages(server, page, MEMBER_PAGE) && Progress(server, page, seen, members, false)
    {
      if server(page).RequestFailed? {
        assert MembersEndAfter(server, page, None);
        return None;
      }
      var added;
      seen, members, added := ReadRound(server, page, seen, members, false);
      if |server(page).records| < MEMBER_PAGE {
        assert MembersEndAfter(server, page, Some(members));
        return Some(members);
      }
    }
    assert MembersEndAfter(server, MAX_MEMBER_PAGES, None);
    return None;
  }

  // ----- no id twice

  predicate NoDuplicates(s: seq<Record>) { forall i, j :: 0 <= i < j < |s| ==> s[i].id != s[j].id }

  lemma {:induction false} DistinctHasNoDuplicates(s: seq<Record>)
    ensures NoDuplicates(Distinct(s)) && Ids(Distinct(s)) == Ids(s)
  {
    if s != [] {
      var front, x := s[..|s| - 1], s[|s| - 1];
      assert s == front + [x];
      DistinctHasNoDuplicates(front);
      IdsAppend(front, x);
      IdsAppend(Distinct(front), x);
      forall i | 0 <= i < |Distinct(front)| ensures Distinct(front)[i].id in Ids(front) {
        IdsAreTheIds(Distinct(front), Distinct(front)[i].id);
      }
    }
  }

  lemma {:induction false} LiveKeepsDistinct(s: seq<Record>)
    requires NoDuplicates(s)
    ensures NoDuplicates(Live(s))
    ensures forall x :: x in Live(s) <==> x in s && !x.deleted
  {
    if s != [] {
      var front, x := s[..|s| - 1], s[|s| - 1];
      LiveKeepsDistinct(front);
      assert s == front + [x];
      forall i | 0 <= i < |Live(front)| ensures Live(front)[i].id != x.id {
        assert Live(front)[i] in front;
      }
    }
  }

  /** There is one way to end: the number of pages and the outcome are determined by the answers. */
  lemma EndIsUnique(server: Server, n: nat, r: Option<seq<Record>>, m: nat, q: Option<seq<Record>>)
    requires EndsAfter(server, n, r) && EndsAfter(server, m, q)
    ensures n == m && r == q
  {
    if n < m {
      NotBeyondTheEnd(server, n, r, m);
    }
    if m < n {
      NotBeyondTheEnd(server, m, q, n);
    }
  }

  lemma NotBeyondTheEnd(server: Server, n: nat, r: Option<seq<Record>>, m: nat)
    requires EndsAfter(server, n, r) && n < m
    ensures !(FullPages(server, m, ORGANIZATION_PAGE) && FreshPages(server, m))
  {
  }

  /** No alias is ever returned twice, whatever the server answers. */
  lemma OrganizationsAreDistinct(server: Server, pages: nat, r: Option<seq<Record>>)
    requires EndsAfter(server, pages, r) && r.Some?
    ensures NoDuplicates(r.value) && forall x :: x in r.value ==> !x.deleted
  {
    var all := ReadSoFar(server, pages + 1);
    DistinctHasNoDuplicates(all);
    LiveKeepsDistinct(Distinct(all));
  }

  // ----- stable listings

  function Min(a: int, b: int): int { if a < b then a else b }

  /** The offset of page `i`. */
  function Offset(i: nat, size: nat): nat { if i == 0 then 0 else Offset(i - 1, size) + size }

  lemma {:induction false} OffsetIsProduct(i: nat, size: nat)
    ensures Offset(i, size) == i * size
  {
    if i > 0 {
      OffsetIsProduct(i - 1, size);
      assert i * size == (i - 1) * size + size;
    }
  }

  /** The server answers from one unchanging list. */
  ghost predicate Stable(server: Server, list: seq<Record>, size: nat)
  {
    forall i: nat :: server(i) == Page(list[Min(Offset(i, size), |list|)..Min(Offset(i, size) + size, |list|)])
  }

  lemma {:induction false} ReadSoFarIsPrefix(server: Server, list: seq<Record>, size: nat, n: nat)
    requires Stable(server, list, size)
    ensures ReadSoFar(server, n) == list[..Min(Offset(n, size), |list|)]
  {
    if n > 0 {
      ReadSoFarIsPrefix(server, list, size, n - 1);
      ReadSoFarStep(server, list, n, Min(Offset(n - 1, size), |list|), Min(Offset(n, size), |list|));
    }
  }

  lemma ReadSoFarStep(server: Server, list: seq<Record>, n: nat, from: nat, to: nat)
    requires n > 0 && from <= to <= |list|
    requires ReadSoFar(server, n - 1) == list[..from] && server(n - 1) == Page(list[from..to])
    ensures ReadSoFar(server, n) == list[..to]
  {
    JoinSlices(list, from, to);
  }

  lemma JoinSlices(list: seq<Record>, a: nat, b: nat)
    requires a <= b <= |list|
    ensures list[..a] + list[a..b] == list[..b]
  {
  }

  lemma {:induction false} DistinctOfDistinct(s: seq<Record>)
    requires NoDuplicates(s)
    ensures Distinct(s) == s
  {
    if s != [] {
      var front, x := s[..|s| - 1], s[|s| - 1];
      DistinctOfDistinct(front);
      IdsAreTheIds(front, x.id);
      assert s == front + [x];
    }
  }

  lemma NextPageIsNew(list: seq<Record>, at: nat, size: nat)
    requires NoDuplicates(list) && at + size <= |list| && size > 0
    ensures Ids(list[..at + size]) != Ids(list[..at])
  {
    assert list[..at + size][at] == list[at];
    IdsAreTheIds(list[..at + size], list[at].id);
    IdsAreTheIds(list[..at], list[at].id);
  }

  /** Page `n` of a stable list is short exactly when it reaches the end of the list, and then
      everything has been read. */
  lemma StablePage(server: Server, list: seq<Record>, size: nat, n: nat)
    requires Stable(server, list, size) && size > 0
    ensures server(n).Page?
    ensures |server(n).records| < size ==> |list| < Offset(n, size) + size && ReadSoFar(server, n + 1) == list
    ensures |server(n).records| >= size ==>
      var at := Offset(n, size);
      at + size <= |list| && ReadSoFar(server, n) == list[..at] && ReadSoFar(server, n + 1) == list[..at + size]
  {
    ReadSoFarIsPrefix(server, list, size, n);
    ReadSoFarIsPrefix(server, list, size, n + 1);
    assert list[..|list|] == list;
  }

  /** On a stable list, read in pages of 200, the organization listing returns exactly the organizations not deleted, in
      order. */
  lemma StableOrganizations(server: Server, list: seq<Record>, pages: nat, r: Option<seq<Record>>)
    requires Stable(server, list, 200) && NoDuplicates(list) && EndsAfter(server, pages, r)
    ensures r == Some(Live(list))
  {
    StablePage(server, list, ORGANIZATION_PAGE, pages);
    if r.Some? {
      DistinctOfDistinct(list);
    } else {
      StableFullPage(server, list, pages);
    }
  }

  /** A full page of a stable list brings something new. */
  lemma StableFullPage(server: Server, list: seq<Record>, n: nat)
    requires Stable(server, list, ORGANIZATION_PAGE) && NoDuplicates(list)
    requires server(n).Page? && |server(n).records| >= ORGANIZATION_PAGE
    ensures Ids(ReadSoFar(server, n + 1)) != Ids(ReadSoFar(server, n))
  {
    StablePage(server, list, ORGANIZATION_PAGE, n);
    NextPageIsNew(list, Offset(n, ORGANIZATION_PAGE), ORGANIZATION_PAGE);
  }

  /** On a stable list, read in pages of 100, the member listing returns every member if there are fewer than 10000, and
      an error otherwise. */
  lemma StableMembers(server: Server, list: seq<Record>, pages: nat, r: Option<seq<Record>>)
    requires Stable(server, list, 100) && NoDuplicates(list) && MembersEndAfter(server, pages, r)
    ensures r == if |list| < 10000 then Some(list) else None
  {
    if r.Some? {
      StablePage(server, list, MEMBER_PAGE, pages);
      OffsetIsProduct(pages, MEMBER_PAGE);
      DistinctOfDistinct(list);
    } else {
      StablePage(server, list, MEMBER_PAGE, MAX_MEMBER_PAGES - 1);
      OffsetIsProduct(MAX_MEMBER_PAGES - 1, MEMBER_PAGE);
      StablePage(server, list, MEMBER_PAGE, pages);
    }
  }
}
