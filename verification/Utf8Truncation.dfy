/** internal/grpc/pagination/pagination.go: clipping a string to a number of bytes. */
module Utf8Truncation {
  import opened GoText

  type Bytes = seq<byte>

  // ----- UTF-8, section 4 of RFC 3629

  predicate Tail(b: byte) { 0x80 <= b <= 0xBF }

  /** The length of the well-formed character at the front of `s`, or 0 if there is none. */
  function HeadLength(s: Bytes): nat
  {
    if s == [] then 0
    else if s[0] <= 0x7F then 1
    else if 0xC2 <= s[0] <= 0xDF then (if |s| >= 2 && Tail(s[1]) then 2 else 0)
    else if 0xE0 <= s[0] <= 0xEF then
      (if |s| >= 3 && Tail(s[1]) && Tail(s[2]) && (s[0] == 0xE0 ==> s[1] >= 0xA0)
        && (s[0] == 0xED ==> s[1] <= 0x9F) then 3 else 0)
    else if 0xF0 <= s[0] <= 0xF4 then
      (if |s| >= 4 && Tail(s[1]) && Tail(s[2]) && Tail(s[3]) && (s[0] == 0xF0 ==> s[1] >= 0x90)
        && (s[0] == 0xF4 ==> s[1] <= 0x8F) then 4 else 0)
    else 0
  }

  predicate ValidUtf8(s: Bytes)
  {
    s == [] || (0 < HeadLength(s) <= |s| && ValidUtf8(s[HeadLength(s)..]))
  }

  /** utf8.RuneStart. */
  predicate RuneStart(b: byte) { !Tail(b) }

  // ----- the operation

  /** The last position at most `limit` at which a rune starts, or 0. */
  function LastStart(s: Bytes, limit: nat): (cut: nat)
    requires limit < |s| || limit == 0
    ensures cut <= limit
  {
    if limit > 0 && !RuneStart(s[limit]) then LastStart(s, limit - 1) else limit
  }

  function Room(marker: Bytes, n: int): nat { if n - |marker| > 0 then n - |marker| else 0 }

  function Truncated(s: Bytes, marker: Bytes, n: int): Bytes
  {
    if |s| <= n then s else s[..LastStart(s, Room(marker, n))] + marker
  }

  /** Truncate. */
  method Truncate(s: Bytes, marker: Bytes, n: int) returns (r: Bytes)
    ensures r == Truncated(s, marker, n)
  {
    if |s| <= n {
      return s;
    }
    var cut := if n - |marker| > 0 then n - |marker| else 0;
    while cut > 0 && !RuneStart(s[cut])
      invariant 0 <= cut < |s| || cut == 0
      invariant LastStart(s, cut) == LastStart(s, Room(marker, n))
    {
      cut := cut - 1;
    }
    return s[..cut] + marker;
  }

  // ----- what it guarantees

  /** In valid text the positions at which a rune starts are exactly those that cut it into a
      valid prefix. */
  lemma {:induction false} RuneStartsAreBoundaries(s: Bytes, k: nat)
    requires ValidUtf8(s) && k < |s|
    ensures ValidUtf8(s[..k]) <==> RuneStart(s[k])
  {
    var l := HeadLength(s);
    if k >= l {
      var t := s[..k];
      assert HeadLength(t) == l || k == 0;
      assert t[l..] == s[l..][..k - l];
      RuneStartsAreBoundaries(s[l..], k - l);
    } else if k > 0 {
      assert HeadLength(s[..k]) == 0;
    }
  }

  lemma HeadOfConcatenation(a: Bytes, b: Bytes)
    requires HeadLength(a) > 0
    ensures HeadLength(a + b) == HeadLength(a)
  {
  }

  lemma {:induction false} ValidConcatenation(a: Bytes, b: Bytes)
    requires ValidUtf8(a) && ValidUtf8(b)
    ensures ValidUtf8(a + b)
  {
    if a == [] {
      assert a + b == b;
    } else {
      var l := HeadLength(a);
      HeadOfConcatenation(a, b);
      assert (a + b)[l..] == a[l..] + b;
      ValidConcatenation(a[l..], b);
    }
  }

  lemma {:induction false} LastStartIsLast(s: Bytes, limit: nat)
    requires limit < |s|
    ensures var cut := LastStart(s, limit);
      (cut == 0 || RuneStart(s[cut])) && forall k :: cut < k <= limit ==> !RuneStart(s[k])
  {
    if limit > 0 && !RuneStart(s[limit]) {
      LastStartIsLast(s, limit - 1);
    }
  }

  /** On valid text with a valid marker the result is valid text. If the text does not fit, the
      result is a valid prefix of it followed by the marker, and no longer prefix that leaves
      room for the marker would be valid. */
  lemma TruncationKeepsLongestPrefix(s: Bytes, marker: Bytes, n: int)
    requires ValidUtf8(s) && ValidUtf8(marker)
    ensures ValidUtf8(Truncated(s, marker, n))
    ensures |s| <= n ==> Truncated(s, marker, n) == s
    ensures |s| > n ==> exists cut: nat ::
      && cut <= |s| && cut <= Room(marker, n)
      && Truncated(s, marker, n) == s[..cut] + marker && ValidUtf8(s[..cut])
      && forall k: nat :: cut < k <= Room(marker, n) ==> k <= |s| && !ValidUtf8(s[..k])
  {
    if |s| > n {
      var cut := LastStart(s, Room(marker, n));
      if Room(marker, n) > 0 {
        LastStartIsLast(s, Room(marker, n));
        forall k: nat | cut < k <= Room(marker, n) ensures !ValidUtf8(s[..k]) {
          RuneStartsAreBoundaries(s, k);
        }
      }
      if cut > 0 {
        RuneStartsAreBoundaries(s, cut);
      } else {
        assert s[..0] == [];
      }
      ValidConcatenation(s[..cut], marker);
      assert ValidUtf8(s[..cut]);
    }
  }

  /** The result fits n bytes exactly when the text fits or the marker alone does. */
  lemma TruncationFitsIff(s: Bytes, marker: Bytes, n: int)
    ensures |Truncated(s, marker, n)| <= n <==> |s| <= n || |marker| <= n
  {
  }
}
