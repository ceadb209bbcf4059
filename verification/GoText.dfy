/** The parts of Go's strings, unicode and strconv packages that the modelled code relies on. */
module GoText {
  import opened Runs

  newtype byte = x: int | 0 <= x < 256

  const MIN_INT64 := -0x8000_0000_0000_0000
  const MAX_INT64 := 0x7fff_ffff_ffff_ffff

  /** unicode.IsSpace. */
  predicate IsSpace(c: char)
  {
    || '\t' <= c <= '\r' || c == ' ' || c == '\U{0085}' || c == '\U{00A0}' || c == '\U{1680}'
    || '\U{2000}' <= c <= '\U{200A}' || c == '\U{2028}' || c == '\U{2029}' || c == '\U{202F}' || c == '\U{205F}'
    || c == '\U{3000}'
  }

  function TrimLeft(s: string): string { if s != [] && IsSpace(s[0]) then TrimLeft(s[1..]) else s }

  function TrimRight(s: string): string { if s != [] && IsSpace(s[|s| - 1]) then TrimRight(s[..|s| - 1]) else s }

  function TrimSpace(s: string): string { TrimRight(TrimLeft(s)) }

  /** strings.Cut with a one-character separator: what is before it and, if it occurs, what is after. */
  function Cut(s: string, c: char): (string, Option<string>)
  {
    if s == [] then ([], None)
    else if s[0] == c then ([], Some(s[1..]))
    else var (before, after) := Cut(s[1..], c); ([s[0]] + before, after)
  }

  lemma {:induction false} CutAt(before: string, c: char, after: Option<string>)
    requires forall i :: 0 <= i < |before| ==> before[i] != c
    ensures Cut(before + (if after.None? then [] else [c] + after.value), c) == (before, after)
  {
    var tail := if after.None? then [] else [c] + after.value;
    if before == [] {
      assert before + tail == tail;
      if after.Some? { assert tail[1..] == after.value; }
    } else {
      CutAt(before[1..], c, after);
      assert (before + tail)[1..] == before[1..] + tail;
      assert before == [before[0]] + before[1..];
    }
  }

  /** Cut takes a text apart at the first separator. */
  lemma {:induction false} CutSplits(s: string, c: char)
    ensures var (before, after) := Cut(s, c);
      && (forall i :: 0 <= i < |before| ==> before[i] != c)
      && s == before + (if after.None? then [] else [c] + after.value)
  {
    if s != [] && s[0] != c {
      CutSplits(s[1..], c);
    }
  }

  predicate IsDigit(c: char) { '0' <= c <= '9' }

  predicate AllDigits(s: string) { forall i :: 0 <= i < |s| ==> IsDigit(s[i]) }

  /** The number a digit string denotes. */
  function Digits(s: string): nat
    requires AllDigits(s)
  {
    if s == [] then 0 else 10 * Digits(s[..|s| - 1]) + (s[|s| - 1] as int - '0' as int)
  }

  predicate IsInt64(n: int) { MIN_INT64 <= n <= MAX_INT64 }

  /** strconv.ParseInt(s, 10, 64). */
  function ParseInt(s: string): Option<int>
  {
    var signed := s != [] && (s[0] == '-' || s[0] == '+');
    var digits := if signed then s[1..] else s;
    if digits == [] || !AllDigits(digits) then None
    else
      var n: int := if s[0] == '-' then 0 - Digits(digits) else Digits(digits);
      if IsInt64(n) then Some(n) else None
  }

  lemma ParseUnsigned(digits: string)
    requires AllDigits(digits)
    ensures ParseInt(digits) == if digits == [] || !IsInt64(Digits(digits)) then None else Some(Digits(digits))
  {
    assert digits != [] ==> IsDigit(digits[0]);
  }

  lemma ParseSigned(sign: char, digits: string)
    requires AllDigits(digits) && (sign == '-' || sign == '+')
    ensures var n := if sign == '-' then 0 - Digits(digits) else Digits(digits);
      ParseInt([sign] + digits) == if digits == [] || !IsInt64(n) then None else Some(n)
  {
    assert ([sign] + digits)[1..] == digits;
  }

  /** unicode.IsControl. */
  predicate IsControl(c: char) { c < ' ' || '\U{007F}' <= c <= '\U{009F}' }

  predicate HasControl(s: string) { exists i :: 0 <= i < |s| && IsControl(s[i]) }

  ghost predicate Spaces(s: string) { forall i :: 0 <= i < |s| ==> IsSpace(s[i]) }

  lemma {:induction false} TrimRemovesPadding(left: string, text: string, right: string)
    requires Spaces(left) && Spaces(right)
    requires text != [] && !IsSpace(text[0]) && !IsSpace(text[|text| - 1])
    ensures TrimSpace(left + text + right) == text
    decreases |left|, |right|
  {
    var s := left + text + right;
    if left != [] {
      assert s[1..] == left[1..] + text + right;
      TrimRemovesPadding(left[1..], text, right);
    } else {
      assert s == text + right && s[0] == text[0];
      if right == [] {
        assert s == text;
      } else {
        assert s[..|s| - 1] == text + right[..|right| - 1];
        assert [] + text + right[..|right| - 1] == text + right[..|right| - 1];
        TrimRemovesPadding([], text, right[..|right| - 1]);
      }
    }
  }

  /** Trimming removes something from the ends and nothing more the second time. */
  lemma {:induction false} TrimLeftSuffix(s: string) returns (k: nat)
    ensures k <= |s| && TrimLeft(s) == s[k..] && (TrimLeft(s) == [] || !IsSpace(TrimLeft(s)[0]))
  {
    if s != [] && IsSpace(s[0]) {
      var j := TrimLeftSuffix(s[1..]);
      k := j + 1;
    } else {
      k := 0;
    }
  }

  lemma {:induction false} TrimRightPrefix(s: string) returns (k: nat)
    ensures k <= |s| && TrimRight(s) == s[..k] && (k == 0 || !IsSpace(s[k - 1]))
  {
    if s != [] && IsSpace(s[|s| - 1]) {
      k := TrimRightPrefix(s[..|s| - 1]);
      assert s[..|s| - 1][..k] == s[..k];
    } else {
      k := |s|;
    }
  }

  /** Trimming yields a part of the string that trimming leaves alone. */
  lemma TrimIsIdempotent(s: string)
    ensures TrimSpace(TrimSpace(s)) == TrimSpace(s)
    ensures forall c :: c in TrimSpace(s) ==> c in s
  {
    var i := TrimLeftSuffix(s);
    var l := TrimLeft(s);
    var j := TrimRightPrefix(l);
    var t := TrimSpace(s);
    if t != [] {
      assert t[0] == l[0] && t[|t| - 1] == l[j - 1];
    }
  }

  /** What ParseInt accepts holds no white space, so trimming leaves it alone. */
  lemma ParseIntHasNoSpace(s: string)
    requires ParseInt(s).Some?
    ensures TrimSpace(s) == s
  {
    forall i | 0 <= i < |s| ensures !IsSpace(s[i]) {
      var signed := s[0] == '-' || s[0] == '+';
      if signed && i > 0 {
        assert s[1..][i - 1] == s[i];
      }
    }
    TrimOfUnspaced(s);
  }

  lemma TrimOfUnspaced(s: string)
    requires forall i :: 0 <= i < |s| ==> !IsSpace(s[i])
    ensures TrimSpace(s) == s
  {
  }
}
