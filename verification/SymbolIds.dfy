/** internal/idgen/shortid.go: the sequence a, b, ..., z, aa, ab, ... of short ids. */
module SymbolIds {
  import opened GoText

  const LOWER_A: byte := 97
  const LOWER_Z: byte := 122

  type Id = seq<byte>

  /** string(c) for a byte c: the UTF-8 form of that code point. */
  function RuneBytes(c: byte): Id
  {
    if c < 128 then [c] else if c < 192 then [0xC2, c] else [0xC3, c - 64]
  }

  /** getNextID, on any string. */
  function NextId(last: Id): Id
  {
    if last == [] then [LOWER_A]
    else
      var front, c := last[..|last| - 1], last[|last| - 1];
      if c == LOWER_Z then NextId(front) + [LOWER_A]
      else front + RuneBytes(if c == 255 then 0 else c + 1)
  }

  /** The generator. */
  class SymbolIDGenerator {
    var value: Id

    constructor From(seed: Id)
      ensures value == seed
    {
      value := seed;
    }

    method Status() returns (id: Id)
      ensures id == value
    {
      return value;
    }

    method Next() returns (id: Id)
      modifies this
      ensures id == value == NextId(old(value))
    {
      value := NextId(value);
      return value;
    }
  }

  // ----- ids as numerals

  predicate Lowercase(s: Id) { forall i :: 0 <= i < |s| ==> LOWER_A <= s[i] <= LOWER_Z }

  /** A lowercase id read as a bijective base-26 numeral: a is 1 and z is 26. */
  function Value(s: Id): nat
    requires Lowercase(s)
  {
    if s == [] then 0 else 26 * Value(s[..|s| - 1]) + (s[|s| - 1] as int - 96)
  }

  lemma ValueAppend(front: Id, c: byte)
    requires Lowercase(front) && LOWER_A <= c <= LOWER_Z
    ensures Lowercase(front + [c]) && Value(front + [c]) == 26 * Value(front) + (c as int - 96)
  {
    assert (front + [c])[..|front|] == front;
  }

  /** getNextID adds exactly one. */
  lemma {:induction false} NextAddsOne(s: Id)
    requires Lowercase(s)
    ensures NextId(s) != [] && Lowercase(NextId(s)) && Value(NextId(s)) == Value(s) + 1
  {
    if s == [] {
      ValueAppend([], LOWER_A);
      assert [] + [LOWER_A] == [LOWER_A];
    } else {
      var front, c := s[..|s| - 1], s[|s| - 1];
      if c == LOWER_Z {
        NextAddsOne(front);
        ValueAppend(NextId(front), LOWER_A);
      } else {
        ValueAppend(front, c + 1);
      }
    }
  }

  lemma SplitLast(s: Id) returns (front: Id, c: byte)
    requires Lowercase(s) && s != []
    ensures |front| < |s| && s == front + [c] && Lowercase(front) && LOWER_A <= c <= LOWER_Z
    ensures Value(s) == 26 * Value(front) + (c as int - 96)
  {
    front, c := s[..|s| - 1], s[|s| - 1];
  }

  lemma SameDigits(m: nat, a: int, n: nat, b: int)
    requires 1 <= a <= 26 && 1 <= b <= 26 && 26 * m + a == 26 * n + b
    ensures m == n && a == b
  {
  }

  /** Different ids denote different numbers. */
  lemma {:induction false} ValueIsInjective(s: Id, t: Id)
    requires Lowercase(s) && Lowercase(t) && Value(s) == Value(t)
    ensures s == t
    decreases |s|
  {
    if s != [] && t != [] {
      var front, c := SplitLast(s);
      var other, d := SplitLast(t);
      SameDigits(Value(front), c as int - 96, Value(other), d as int - 96);
      ValueIsInjective(front, other);
    }
  }

  function Iterate<T>(f: T -> T, x: T, n: nat): T { if n == 0 then x else f(Iterate(f, x, n - 1)) }

  lemma {:induction false} IterateAdds<T>(f: T -> T, x: T, m: nat, n: nat)
    ensures Iterate(f, Iterate(f, x, m), n) == Iterate(f, x, m + n)
  {
    if n > 0 {
      IterateAdds(f, x, m, n - 1);
    }
  }

  /** Iterating a function that moves up a transitive order moves up it. */
  lemma {:induction false} IterateClimbs<T(!new)>(f: T -> T, x: T, before: (T, T) -> bool, i: nat, j: nat)
    requires i < j
    requires forall n: nat :: before(Iterate(f, x, n), f(Iterate(f, x, n)))
    requires forall a, b, c :: before(a, b) && before(b, c) ==> before(a, c)
    ensures before(Iterate(f, x, i), Iterate(f, x, j))
  {
    assert before(Iterate(f, x, j - 1), f(Iterate(f, x, j - 1)));
    if i < j - 1 {
      IterateClimbs(f, x, before, i, j - 1);
    }
  }

  /** The status of a generator after `n` calls of Next. */
  function Nth(seed: Id, n: nat): Id { Iterate(NextId, seed, n) }

  ghost predicate Denotes(s: Id, n: int) { Lowercase(s) && Value(s) == n }

  lemma NextCounts(s: Id, n: int)
    requires Denotes(s, n)
    ensures Denotes(NextId(s), n + 1)
  {
    NextAddsOne(s);
  }

  lemma {:induction false} NthValue(seed: Id, n: nat)
    requires Lowercase(seed)
    ensures Denotes(Nth(seed, n), Value(seed) + n)
  {
    if n > 0 {
      NthValue(seed, n - 1);
      NextCounts(Nth(seed, n - 1), Value(seed) + n - 1);
    }
  }

  /** A generator started empty produces every non-empty lowercase id, each exactly once: `s` is
      its n-th id if and only if n is the number that `s` denotes. */
  lemma EnumeratesEveryIdOnce(s: Id, n: nat)
    requires Lowercase(s)
    ensures Nth([], n) == s <==> n == Value(s)
  {
    NthValue([], n);
    NthValue([], Value(s));
    ValueIsInjective(Nth([], Value(s)), s);
  }

  /** A generator resumed from the status of another continues its sequence. */
  lemma ResumeContinues(seed: Id, m: nat, n: nat)
    ensures Nth(Nth(seed, m), n) == Nth(seed, m + n)
  {
    IterateAdds(NextId, seed, m, n);
  }

  // ----- the order of the ids

  ghost predicate DiffersAt(a: Id, b: Id, k: nat)
  {
    k < |a| && k < |b| && a[..k] == b[..k] && a[k] < b[k]
  }

  /** Shorter ids come first; ids of equal length are ordered alphabetically. */
  ghost predicate Before(a: Id, b: Id)
  {
    |a| < |b| || (|a| == |b| && exists k :: DiffersAt(a, b, k))
  }

  lemma {:induction false} NextComesAfter(s: Id)
    requires Lowercase(s)
    ensures Before(s, NextId(s)) && |NextId(s)| <= |s| + 1
  {
    if s != [] {
      var front := s[..|s| - 1];
      NextAddsOne(front);
      if s[|s| - 1] == LOWER_Z {
        NextComesAfter(front);
        if |NextId(front)| == |front| {
          var k: nat :| DiffersAt(front, NextId(front), k);
          assert s[..k] == front[..k] && NextId(s)[..k] == NextId(front)[..k];
          assert DiffersAt(s, NextId(s), k);
        }
      } else {
        assert DiffersAt(s, NextId(s), |s| - 1);
      }
    }
  }

  lemma BeforeIsTransitive(a: Id, b: Id, c: Id)
    requires Before(a, b) && Before(b, c)
    ensures Before(a, c)
  {
    if |a| == |b| == |c| {
      var k: nat :| DiffersAt(a, b, k);
      var l: nat :| DiffersAt(b, c, l);
      var m := if k < l then k else l;
      assert a[..m] == b[..m] by { assert a[..m] == a[..k][..m] && b[..m] == b[..k][..m]; }
      assert b[..m] == c[..m] by { assert b[..m] == b[..l][..m] && c[..m] == c[..l][..m]; }
      assert k < l ==> b[k] == b[..l][k] && c[k] == c[..l][k];
      assert l < k ==> a[l] == a[..k][l] && b[l] == b[..k][l];
      assert DiffersAt(a, c, m);
    }
  }

  /** Ids come out in strictly increasing length-then-alphabetical order. */
  lemma IdsAreIncreasing(seed: Id, i: nat, j: nat)
    requires Lowercase(seed) && i < j
    ensures Before(Nth(seed, i), Nth(seed, j))
  {
    forall n: nat ensures Before(Iterate(NextId, seed, n), NextId(Iterate(NextId, seed, n))) {
      NthValue(seed, n);
      NextComesAfter(Nth(seed, n));
    }
    forall a, b, c | Before(a, b) && Before(b, c) ensures Before(a, c) {
      BeforeIsTransitive(a, b, c);
    }
    IterateClimbs(NextId, seed, Before, i, j);
  }
}
