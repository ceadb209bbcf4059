/** internal/billing/orbamount/orbamount.go: decimal amounts of the billing provider as integers. */
module OrbAmounts {
  import opened Runs
  import opened GoText

  const DOLLAR_SCALE := 0
  const CENT_SCALE := 2
  const MICRO_SCALE := 6

  // ----- the library functions used

  /** What is before the first dot and, if there is one, what is after it. */
  function CutDot(s: string): (string, Option<string>) { Cut(s, '.') }

  function Zeros(n: nat): string { seq(n, _ => '0') }

  // ----- the parsers

  /** The fraction padded or cut to `scale` characters. */
  function Kept(fraction: string, scale: nat): string { (fraction + Zeros(scale))[..scale] }

  /** orbDecimalToInt64Truncated. */
  function ParseTruncated(amount: string, scale: nat): Option<int>
  {
    var v := TrimSpace(amount);
    if v == "" then None
    else
      var (whole, after) := CutDot(v);
      ParseInt(whole + Kept(after.GetOr(""), scale))
  }

  function ParseMicrosTruncated(amount: string): Option<int> { ParseTruncated(amount, MICRO_SCALE) }
  function ParseCentsTruncated(amount: string): Option<int> { ParseTruncated(amount, CENT_SCALE) }
  function ParseDollarsTruncated(amount: string): Option<int> { ParseTruncated(amount, DOLLAR_SCALE) }

  function ParseMicros(amount: string): Option<int>
  {
    if |CutDot(TrimSpace(amount)).1.GetOr("")| > MICRO_SCALE then None else ParseMicrosTruncated(amount)
  }

  // ----- well-formed amounts

  datatype Sign = NoSign | Plus | Minus

  /** A decimal: a sign, digits, and perhaps a dot and more digits; at least one digit in all. */
  datatype Decimal = Decimal(sign: Sign, whole: string, fraction: Option<string>)
  {
    predicate Valid()
    {
      AllDigits(whole) && AllDigits(fraction.GetOr("")) && |whole| + |fraction.GetOr("")| > 0
    }

    function SignText(): string
    {
      match sign case NoSign => "" case Plus => "+" case Minus => "-"
    }

    function Text(): string
    {
      SignText() + whole + (if fraction.None? then "" else "." + fraction.value)
    }

    function Signed(magnitude: nat): int { if sign.Minus? then 0 - magnitude else magnitude }

    /** The magnitude is `Numerator() / Pow10(Places())`. */
    function Numerator(): nat
      requires Valid()
    {
      Digits(whole + fraction.GetOr(""))
    }

    function Places(): nat { |fraction.GetOr("")| }

    /** The magnitude times 10^scale, rounded down. */
    function Magnitude(scale: nat): nat
      requires Valid()
    {
      ScaleBy(Numerator(), Pow10(scale), Pow10(Places()))
    }

    /** The value times 10^scale, truncated toward zero. */
    function Scaled(scale: nat): int
      requires Valid()
    {
      Signed(Magnitude(scale))
    }
  }

  /** n times s divided by p, rounded down. */
  function ScaleBy(n: nat, s: nat, p: nat): nat
    requires p > 0
  {
    assert n * s >= 0;
    n * s / p
  }

  function Pow10(n: nat): (p: nat)
    ensures p > 0
  {
    if n == 0 then 1 else 10 * Pow10(n - 1)
  }

  // ----- arithmetic

  lemma {:induction false} Pow10Adds(a: nat, b: nat)
    ensures Pow10(a + b) == Pow10(a) * Pow10(b)
  {
    if a > 0 {
      Pow10Adds(a - 1, b);
      assert Pow10(a + b) == 10 * (Pow10(a - 1) * Pow10(b)) == (10 * Pow10(a - 1)) * Pow10(b);
    }
  }

  lemma MulMonotone(a: nat, b: nat, c: nat)
    requires a <= b
    ensures a * c <= b * c
  {
  }

  /** q is the quotient when q * d <= n < (q + 1) * d. */
  lemma QuotientIs(n: nat, d: nat, q: nat)
    requires d > 0 && q * d <= n < q * d + d
    ensures n / d == q
  {
    var r := n / d;
    assert r * d <= n < r * d + d;
    if r < q { MulMonotone(r + 1, q, d); }
    if r > q { MulMonotone(q + 1, r, d); }
  }

  lemma MulAssoc(a: nat, b: nat, c: nat)
    ensures a * b * c == a * (b * c)
  {
  }

  lemma MulDistributes(a: nat, b: nat, c: nat)
    ensures (a + b) * c == a * c + b * c
  {
  }

  /** Padding is multiplication: the factor b of c = a * b cancels. */
  lemma MulCancel(n: nat, a: nat, b: nat, c: nat)
    requires b > 0 && c == a * b
    ensures (n * a) * b == n * c && n * c / b == n * a
  {
    MulAssoc(n, a, b);
    QuotientIs(n * c, b, n * a);
  }

  /** Cutting is division: the remainder r < q of n disappears, for c = p * q. */
  lemma CutQuotient(n: nat, m: nat, q: nat, r: nat, p: nat, c: nat)
    requires n == m * q + r && r < q && p > 0 && c == p * q
    ensures c > 0 && n * p / c == m
  {
    MulDistributes(m * q, r, p);
    MulAssoc(m, q, p);
    MulMonotone(r + 1, q, p);
    MulDistributes(r, 1, p);
    MulMonotone(1, q, p);
    QuotientIs(n * p, c, m);
  }

  lemma QuotientBounds(n: nat, d: nat)
    requires d > 0
    ensures (n / d) * d <= n < (n / d) * d + d
  {
  }

  lemma ScaleBounds(x: nat, p: nat, e: nat, q: nat, qp: nat, pe: nat)
    requires qp <= x < qp + p && e > 0 && qp == q * p && pe == p * e
    ensures q * pe <= x * e < q * pe + pe
  {
    MulAssoc(q, p, e);
    MulMonotone(qp, x, e);
    MulMonotone(x + 1, qp + p, e);
    MulDistributes(x, 1, e);
    MulDistributes(qp, p, e);
  }

  lemma NestBounds(n: nat, p: nat, e: nat, a: nat, b: nat, ap: nat, be: nat, pe: nat)
    requires ap <= n < ap + p && be <= a < be + e
    requires ap == a * p && be == b * e && pe == e * p
    ensures b * pe <= n < b * pe + pe
  {
    MulAssoc(b, e, p);
    MulMonotone(be, a, p);
    MulMonotone(a + 1, be + e, p);
    MulDistributes(a, 1, p);
    MulDistributes(be, e, p);
  }

  /** A common factor of dividend and later divisor cancels. */
  lemma NestedQuotient(x: nat, p: nat, e: nat)
    requires p > 0 && e > 0
    ensures (x * e / p) / e == x / p
  {
    var n, q := x * e, x / p;
    var a := n / p;
    var b := a / e;
    QuotientBounds(x, p);
    QuotientBounds(n, p);
    QuotientBounds(a, e);
    NestedBounds(x, p, e, n, q, a, b);
  }

  lemma NestedBounds(x: nat, p: nat, e: nat, n: nat, q: nat, a: nat, b: nat)
    requires p > 0 && e > 0 && n == x * e
    requires q * p <= x < q * p + p && a * p <= n < a * p + p && b * e <= a < b * e + e
    ensures b == q
  {
    var pe := p * e;
    ScaleBounds(x, p, e, q, q * p, pe);
    NestBounds(n, p, e, a, b, a * p, b * e, pe);
    SameQuotient(n, pe, q, b, q * pe, b * pe);
  }

  lemma SameQuotient(n: nat, d: nat, q: nat, r: nat, qd: nat, rd: nat)
    requires qd == q * d && rd == r * d && qd <= n < qd + d && rd <= n < rd + d
    ensures q == r
  {
    if q < r { NextMultiple(q, r, d); }
    if r < q { NextMultiple(r, q, d); }
  }

  lemma NextMultiple(q: nat, r: nat, d: nat)
    requires q < r
    ensures q * d + d <= r * d
  {
    MulMonotone(q + 1, r, d);
    MulDistributes(q, 1, d);
  }

  /** One more digit on either side of n = m * p + k. */
  lemma OneMoreDigit(n: nat, m: nat, p: nat, k: nat, digit: nat)
    requires n == m * p + k
    ensures 10 * n + digit == m * (10 * p) + (10 * k + digit)
  {
    assert 10 * (m * p) == m * (10 * p);
  }

  lemma {:induction false} DigitsAppend(a: string, b: string)
    requires AllDigits(a) && AllDigits(b)
    ensures Digits(a + b) == Digits(a) * Pow10(|b|) + Digits(b)
    ensures Digits(b) < Pow10(|b|)
  {
    if b == [] {
      assert a + b == a;
    } else {
      var front, last := b[..|b| - 1], b[|b| - 1];
      DigitsAppend(a, front);
      assert (a + b)[..|a + b| - 1] == a + front;
      OneMoreDigit(Digits(a + front), Digits(a), Pow10(|front|), Digits(front), last as int - '0' as int);
    }
  }

  lemma {:induction false} ZerosAreZero(n: nat)
    ensures AllDigits(Zeros(n)) && Digits(Zeros(n)) == 0
  {
    if n > 0 {
      assert Zeros(n)[..n - 1] == Zeros(n - 1);
      ZerosAreZero(n - 1);
    }
  }

  lemma PadDigits(text: string, zeros: nat)
    requires AllDigits(text)
    ensures AllDigits(text + Zeros(zeros)) && Digits(text + Zeros(zeros)) == Digits(text) * Pow10(zeros)
  {
    ZerosAreZero(zeros);
    DigitsAppend(text, Zeros(zeros));
  }

  /** Padding or cutting the fraction to `scale` digits computes the truncated quotient. */
  lemma PadOrCutTruncates(whole: string, fraction: string, scale: nat)
    requires AllDigits(whole) && AllDigits(fraction)
    ensures var text := whole + Kept(fraction, scale);
      AllDigits(text) && Digits(text) == ScaleBy(Digits(whole + fraction), Pow10(scale), Pow10(|fraction|))
  {
    var k, n := |fraction|, Digits(whole + fraction);
    var kept := Kept(fraction, scale);
    if scale >= k {
      var d := scale - k;
      assert kept == fraction + Zeros(d);
      assert whole + kept == (whole + fraction) + Zeros(d);
      PadDigits(whole + fraction, d);
      Pow10Adds(d, k);
      MulCancel(n, Pow10(d), Pow10(k), Pow10(scale));
    } else {
      var rest := fraction[scale..];
      assert kept == fraction[..scale];
      assert whole + fraction == (whole + kept) + rest;
      DigitsAppend(whole + kept, rest);
      Pow10Adds(scale, |rest|);
      CutQuotient(n, Digits(whole + kept), Pow10(|rest|), Digits(rest), Pow10(scale), Pow10(k));
    }
  }

  // ----- text

  lemma CutDotAt(before: string, after: Option<string>)
    requires forall i :: 0 <= i < |before| ==> before[i] != '.'
    ensures CutDot(before + (if after.None? then "" else "." + after.value)) == (before, after)
  {
    CutAt(before, '.', after);
  }

  lemma TextHasNoSpaces(d: Decimal)
    requires d.Valid()
    ensures d.Text() != [] && forall i :: 0 <= i < |d.Text()| ==> !IsSpace(d.Text()[i])
  {
  }

  /** How a parser sees a well-formed amount: the sign and the digits on either side of the dot. */
  lemma ParserSeesDigits(d: Decimal, left: string, right: string)
    requires d.Valid() && Spaces(left) && Spaces(right)
    ensures TrimSpace(left + d.Text() + right) == d.Text() != []
    ensures CutDot(d.Text()) == (d.SignText() + d.whole, d.fraction)
  {
    TextHasNoSpaces(d);
    TrimRemovesPadding(left, d.Text(), right);
    CutDotAt(d.SignText() + d.whole, d.fraction);
  }

  lemma ParseIntOfSigned(d: Decimal, digits: string)
    requires AllDigits(digits)
    ensures ParseInt(d.SignText() + digits) ==
      if digits == [] then None else if IsInt64(d.Signed(Digits(digits))) then Some(d.Signed(Digits(digits))) else None
  {
    match d.sign
    case NoSign =>
      assert "" + digits == digits;
      ParseUnsigned(digits);
    case Plus => ParseSigned('+', digits);
    case Minus => ParseSigned('-', digits);
  }

  /** What a parser returns on a well-formed amount with any surrounding white space: the value
      times 10^scale truncated toward zero if that fits 64 bits, and an error otherwise. The one
      exception is an amount without a digit before the dot at scale zero, which is an error. */
  lemma ParsesWellFormedAmounts(d: Decimal, left: string, right: string, scale: nat)
    requires d.Valid() && Spaces(left) && Spaces(right)
    ensures ParseTruncated(left + d.Text() + right, scale) ==
      if d.whole == [] && scale == 0 then None
      else if IsInt64(d.Scaled(scale)) then Some(d.Scaled(scale))
      else None
  {
    ParserSeesDigits(d, left, right);
    ParsesDigits(d, scale);
  }

  lemma ParsesDigits(d: Decimal, scale: nat)
    requires d.Valid()
    ensures ParseInt((d.SignText() + d.whole) + Kept(d.fraction.GetOr(""), scale)) ==
      if d.whole == [] && scale == 0 then None
      else if IsInt64(d.Scaled(scale)) then Some(d.Scaled(scale))
      else None
  {
    PadOrCutTruncates(d.whole, d.fraction.GetOr(""), scale);
    ParsesKept(d, scale, d.Magnitude(scale));
  }

  lemma ParsesKept(d: Decimal, scale: nat, magnitude: nat)
    requires var text := d.whole + Kept(d.fraction.GetOr(""), scale); AllDigits(text) && Digits(text) == magnitude
    ensures ParseInt((d.SignText() + d.whole) + Kept(d.fraction.GetOr(""), scale)) ==
      if d.whole == [] && scale == 0 then None
      else if IsInt64(d.Signed(magnitude)) then Some(d.Signed(magnitude))
      else None
  {
    var kept := Kept(d.fraction.GetOr(""), scale);
    ConcatAssociates(d.SignText(), d.whole, kept);
    ParseIntOfSigned(d, d.whole + kept);
  }

  lemma ConcatAssociates(a: string, b: string, c: string)
    ensures (a + b) + c == a + (b + c)
  {
  }

  /** Hence the exact condition under which whole dollars are parsed correctly: ".5" is half a
      dollar in cents and micros, but no number of dollars. */
  lemma DollarsParseIffWholeDigits(d: Decimal, left: string, right: string)
    requires d.Valid() && Spaces(left) && Spaces(right) && IsInt64(d.Scaled(DOLLAR_SCALE))
    ensures ParseDollarsTruncated(left + d.Text() + right) == Some(d.Scaled(DOLLAR_SCALE)) <==> d.whole != []
  {
    ParsesWellFormedAmounts(d, left, right, DOLLAR_SCALE);
  }

  /** Truncating division, as in Go. */
  function TruncDiv(n: int, d: nat): int
    requires d > 0
  {
    if n < 0 then -(-n / d) else n / d
  }

  // ----- which strings are accepted

  /** A text without its leading sign, if it has one. */
  function SplitSign(text: string): (Sign, string)
  {
    if text != [] && text[0] == '-' then (Minus, text[1..])
    else if text != [] && text[0] == '+' then (Plus, text[1..])
    else (NoSign, text)
  }

  function WithSign(sign: Sign, magnitude: nat): int { if sign.Minus? then 0 - magnitude else magnitude }

  /** The characters of the fraction that are looked at. */
  function Counted(fraction: string, scale: nat): string { if |fraction| < scale then fraction else fraction[..scale] }

  /** What precedes and what follows the dot is something a parser reads: a sign, digits, and after
      the dot digits as far as they count, with at least one digit once the fraction is padded.
      Nothing beyond is looked at. When nothing precedes the dot, the sign may follow it. */
  predicate AcceptableParts(before: string, fraction: string, scale: nat)
  {
    var whole := SplitSign(before).1;
    var (late, rest) := SplitSign(fraction);
    if before != [] || late.NoSign? then AllDigits(whole) && AllDigits(Counted(fraction, scale)) && |whole| + scale > 0
    else scale >= 2 && AllDigits(Counted(rest, scale - 1))
  }

  /** The number that it reads. */
  function ReadingParts(before: string, fraction: string, scale: nat): int
    requires AcceptableParts(before, fraction, scale)
  {
    var (sign, whole) := SplitSign(before);
    var (late, rest) := SplitSign(fraction);
    KeptDigits(fraction, scale);
    if before != [] || late.NoSign? then WithSign(sign, Digits(whole + Kept(fraction, scale)))
    else (KeptDigits(rest, scale - 1); WithSign(late, Digits(Kept(rest, scale - 1))))
  }

  predicate Acceptable(text: string, scale: nat)
  {
    text != [] && AcceptableParts(CutDot(text).0, CutDot(text).1.GetOr(""), scale)
  }

  function Reading(text: string, scale: nat): int
    requires Acceptable(text, scale)
  {
    ReadingParts(CutDot(text).0, CutDot(text).1.GetOr(""), scale)
  }

  lemma KeptDigits(fraction: string, scale: nat)
    ensures |Kept(fraction, scale)| == scale
    ensures AllDigits(Kept(fraction, scale)) <==> AllDigits(Counted(fraction, scale))
  {
    var kept, counted := Kept(fraction, scale), Counted(fraction, scale);
    assert forall i :: 0 <= i < |counted| ==> kept[i] == counted[i];
    assert forall i :: |counted| <= i < scale ==> kept[i] == '0';
  }

  lemma ParseIntSplits(text: string)
    ensures var (sign, digits) := SplitSign(text);
      ParseInt(text) ==
        if digits == [] || !AllDigits(digits) then None
        else if IsInt64(WithSign(sign, Digits(digits))) then Some(WithSign(sign, Digits(digits)))
        else None
  {
  }

  /** The sign of a text is that of its first part, unless that part is empty. */
  lemma SplitSignAppend(before: string, kept: string)
    ensures before != [] ==> SplitSign(before + kept) == (SplitSign(before).0, SplitSign(before).1 + kept)
    ensures before == [] ==> before + kept == kept
  {
    if before != [] {
      assert (before + kept)[0] == before[0] && (before + kept)[1..] == before[1..] + kept;
    }
  }

  lemma KeptOfSigned(fraction: string, scale: nat)
    requires !SplitSign(fraction).0.NoSign?
    ensures scale > 0 ==> SplitSign(Kept(fraction, scale)) == (SplitSign(fraction).0, Kept(fraction[1..], scale - 1))
    ensures scale == 0 ==> Kept(fraction, scale) == []
  {
    if scale > 0 {
      var kept := Kept(fraction, scale);
      assert kept[0] == fraction[0];
      assert kept[1..] == Kept(fraction[1..], scale - 1);
    }
  }

  lemma KeptOfUnsigned(fraction: string, scale: nat)
    requires SplitSign(fraction).0.NoSign?
    ensures SplitSign(Kept(fraction, scale)) == (NoSign, Kept(fraction, scale))
  {
    if scale > 0 && fraction != [] {
      assert Kept(fraction, scale)[0] == fraction[0];
    }
  }

  lemma AcceptsWithWhole(before: string, fraction: string, scale: nat)
    requires before != []
    ensures ParseInt(before + Kept(fraction, scale)) ==
      if AcceptableParts(before, fraction, scale) && IsInt64(ReadingParts(before, fraction, scale))
      then Some(ReadingParts(before, fraction, scale)) else None
  {
    var kept := Kept(fraction, scale);
    KeptDigits(fraction, scale);
    SplitSignAppend(before, kept);
    ParseIntSplits(before + kept);
    AllDigitsAppend(SplitSign(before).1, kept);
  }

  lemma AcceptsFraction(fraction: string, scale: nat)
    ensures ParseInt(Kept(fraction, scale)) ==
      if AcceptableParts([], fraction, scale) && IsInt64(ReadingParts([], fraction, scale))
      then Some(ReadingParts([], fraction, scale)) else None
  {
    var kept := Kept(fraction, scale);
    ParseIntSplits(kept);
    KeptDigits(fraction, scale);
    if SplitSign(fraction).0.NoSign? {
      KeptOfUnsigned(fraction, scale);
      assert [] + kept == kept;
    } else {
      KeptOfSigned(fraction, scale);
      if scale > 0 {
        KeptDigits(fraction[1..], scale - 1);
      }
    }
  }

  /** What a parser does with any string whatever: it accepts exactly the acceptable texts whose
      number fits 64 bits, and returns that number. */
  lemma AcceptsExactly(amount: string, scale: nat)
    ensures var text := TrimSpace(amount);
      ParseTruncated(amount, scale) ==
        if Acceptable(text, scale) && IsInt64(Reading(text, scale)) then Some(Reading(text, scale)) else None
  {
    var text := TrimSpace(amount);
    var before, fraction := CutDot(text).0, CutDot(text).1.GetOr("");
    if before != [] {
      AcceptsWithWhole(before, fraction, scale);
    } else {
      AcceptsFraction(fraction, scale);
      assert [] + Kept(fraction, scale) == Kept(fraction, scale);
    }
  }

  lemma AllDigitsAppend(a: string, b: string)
    ensures AllDigits(a + b) <==> AllDigits(a) && AllDigits(b)
  {
    assert forall i :: 0 <= i < |b| ==> (a + b)[|a| + i] == b[i];
    assert forall i :: 0 <= i < |a| ==> (a + b)[i] == a[i];
  }

  /** CutDot takes a text apart at its first dot. */
  lemma CutDotSplits(text: string)
    ensures var (before, after) := CutDot(text);
      && (forall i :: 0 <= i < |before| ==> before[i] != '.')
      && text == before + (if after.None? then "" else "." + after.value)
  {
    CutSplits(text, '.');
  }

  ghost predicate WellFormed(text: string) { exists d: Decimal :: d.Valid() && d.Text() == text }

  lemma WellFormedIff(text: string)
    ensures var (before, after) := CutDot(text);
      var whole, fraction := SplitSign(before).1, after.GetOr("");
      WellFormed(text) <==> AllDigits(whole) && AllDigits(fraction) && |whole| + |fraction| > 0
  {
    var d := Parts(text);
    PartsMakeText(text);
    if WellFormed(text) {
      var e: Decimal :| e.Valid() && e.Text() == text;
      PartsOfText(e);
    }
  }

  /** The text taken apart at its sign and its first dot. */
  function Parts(text: string): Decimal
  {
    var (before, after) := CutDot(text);
    Decimal(SplitSign(before).0, SplitSign(before).1, after)
  }

  lemma PartsMakeText(text: string)
    ensures Parts(text).Text() == text
  {
    CutDotSplits(text);
    var d, before := Parts(text), CutDot(text).0;
    assert d.SignText() + d.whole == before;
  }

  lemma PartsOfText(d: Decimal)
    requires AllDigits(d.whole)
    ensures Parts(d.Text()) == d
  {
    CutDotAt(d.SignText() + d.whole, d.fraction);
    SplitSignOfText(d);
  }

  lemma SplitSignOfText(d: Decimal)
    requires AllDigits(d.whole)
    ensures SplitSign(d.SignText() + d.whole) == (d.sign, d.whole)
  {
    match d.sign
    case NoSign => assert "" + d.whole == d.whole;
    case Plus => assert ("+" + d.whole)[1..] == d.whole;
    case Minus => assert ("-" + d.whole)[1..] == d.whole;
  }

  /** Exactly when an accepted amount is well formed: every character after the dot is a digit, also
      those that do not count, and there is a digit before padding. */
  lemma AcceptedIsWellFormedIff(amount: string, scale: nat)
    requires ParseTruncated(amount, scale).Some?
    ensures var (before, after) := CutDot(TrimSpace(amount));
      var whole, fraction := SplitSign(before).1, after.GetOr("");
      WellFormed(TrimSpace(amount)) <==> AllDigits(fraction) && |whole| + |fraction| > 0
  {
    AcceptsExactly(amount, scale);
    WellFormedIff(TrimSpace(amount));
  }

  /** The three ways in which it is not: characters beyond the scale, no digit at all, and a sign
      after the dot. */
  lemma MalformedAmounts()
    ensures ParseCentsTruncated("1.23abc") == Some(123) && !WellFormed("1.23abc")
    ensures ParseCentsTruncated(".") == Some(0) && !WellFormed(".")
    ensures ParseMicrosTruncated("-") == Some(0) && !WellFormed("-")
    ensures ParseCentsTruncated(".-5") == Some(-5) && !WellFormed(".-5")
  {
    TailIsIgnored();
    DotIsZero();
    SignIsZero();
    SignAfterDot();
  }

  lemma TailIsIgnored()
    ensures ParseCentsTruncated("1.23abc") == Some(123) && !WellFormed("1.23abc")
  {
    assert "23abc"[2] == 'a';
    MalformedAmount("1.23abc", "1", Some("23abc"), "23", CENT_SCALE);
    assert "1" + "23" == "123";
    assert "123"[..2] == "12" && "12"[..1] == "1" && "1"[..0] == "";
    assert Digits("1") == 1 && Digits("12") == 12 && Digits("123") == 123;
  }

  lemma DotIsZero()
    ensures ParseCentsTruncated(".") == Some(0) && !WellFormed(".")
  {
    MalformedAmount(".", "", Some(""), "00", CENT_SCALE);
    ZerosAreZero(2);
    assert "" + "00" == Zeros(2);
  }

  lemma SignIsZero()
    ensures ParseMicrosTruncated("-") == Some(0) && !WellFormed("-")
  {
    MalformedAmount("-", "-", None, "000000", MICRO_SCALE);
    ZerosAreZero(6);
    assert "000000" == Zeros(6);
    ParseSigned('-', "000000");
    assert ['-'] + "000000" == "-" + "000000";
  }

  lemma SignAfterDot()
    ensures ParseCentsTruncated(".-5") == Some(-5) && !WellFormed(".-5")
  {
    assert "-5"[0] == '-';
    MalformedAmount(".-5", "", Some("-5"), "-5", CENT_SCALE);
    ParseSigned('-', "5");
    assert "5"[..0] == "" && Digits("5") == 5;
    assert ['-'] + "5" == "" + "-5";
  }

  lemma MalformedAmount(text: string, before: string, after: Option<string>, kept: string, scale: nat)
    requires text == before + (if after.None? then "" else "." + after.value) && text != []
    requires forall i :: 0 <= i < |before| ==> before[i] != '.'
    requires forall i :: 0 <= i < |text| ==> !IsSpace(text[i])
    requires |kept| == scale
    requires forall i :: 0 <= i < scale ==> kept[i] == if i < |after.GetOr("")| then after.GetOr("")[i] else '0'
    requires !AllDigits(after.GetOr("")) || |SplitSign(before).1| + |after.GetOr("")| == 0
    ensures ParseTruncated(text, scale) == ParseInt(before + kept) && !WellFormed(text)
  {
    TrimOfUnspaced(text);
    CutDotAt(before, after);
    assert Kept(after.GetOr(""), scale) == kept;
    WellFormedIff(text);
  }

  /** In particular nothing after the digits that count is looked at. */
  lemma IgnoresBeyondScale(whole: string, kept: string, tail: string, scale: nat)
    requires (forall i :: 0 <= i < |whole| ==> whole[i] != '.') && |kept| == scale
    requires TrimSpace(whole + ("." + (kept + tail))) == whole + ("." + (kept + tail))
    ensures ParseTruncated(whole + ("." + (kept + tail)), scale) == ParseInt(whole + kept)
  {
    CutDotAt(whole, Some(kept + tail));
    assert (kept + tail + Zeros(scale))[..scale] == kept;
  }

  lemma RescaleMagnitude(n: nat, p: nat, s: nat, e: nat, se: nat)
    requires p > 0 && e > 0 && se == s * e
    ensures ScaleBy(n, se, p) / e == ScaleBy(n, s, p)
  {
    MulAssoc(n, s, e);
    NestedQuotient(n * s, p, e);
  }

  lemma MagnitudeRescales(d: Decimal, scale: nat, extra: nat)
    requires d.Valid()
    ensures d.Magnitude(scale + extra) / Pow10(extra) == d.Magnitude(scale)
  {
    Pow10Adds(scale, extra);
    RescaleMagnitude(d.Numerator(), Pow10(d.Places()), Pow10(scale), Pow10(extra), Pow10(scale + extra));
  }

  lemma SignedTruncates(d: Decimal, fine: nat, coarse: nat, e: nat)
    requires e > 0 && coarse == fine / e
    ensures d.Signed(coarse) == TruncDiv(d.Signed(fine), e)
    ensures IsInt64(d.Signed(fine)) ==> IsInt64(d.Signed(coarse))
  {
    QuotientBounds(fine, e);
    MulMonotone(1, e, coarse);
  }

  lemma ScaledRescales(d: Decimal, scale: nat, extra: nat)
    requires d.Valid()
    ensures d.Scaled(scale) == TruncDiv(d.Scaled(scale + extra), Pow10(extra))
    ensures IsInt64(d.Scaled(scale + extra)) ==> IsInt64(d.Scaled(scale))
  {
    MagnitudeRescales(d, scale, extra);
    SignedTruncates(d, d.Magnitude(scale + extra), d.Magnitude(scale), Pow10(extra));
  }

  lemma ParsesPadded(d: Decimal, left: string, right: string, scale: nat)
    requires d.Valid() && Spaces(left) && Spaces(right) && (d.whole != [] || scale > 0)
    ensures ParseTruncated(left + d.Text() + right, scale) ==
      if IsInt64(d.Scaled(scale)) then Some(d.Scaled(scale)) else None
  {
    ParsesWellFormedAmounts(d, left, right, scale);
  }

  /** The parsers agree with each other: when an amount parses at a finer scale, it parses at every
      coarser one, and the result is the finer one truncated. Only whole dollars need a digit
      before the dot. */
  lemma CoarserParsersTruncateFiner(d: Decimal, left: string, right: string, scale: nat, extra: nat, fine: int)
    requires d.Valid() && Spaces(left) && Spaces(right) && (d.whole != [] || scale > 0)
    requires ParseTruncated(left + d.Text() + right, scale + extra) == Some(fine)
    ensures ParseTruncated(left + d.Text() + right, scale) == Some(TruncDiv(fine, Pow10(extra)))
  {
    assert d.Scaled(scale + extra) == fine && IsInt64(fine) by {
      ParsesPadded(d, left, right, scale + extra);
    }
    ScaledRescales(d, scale, extra);
    ParsesPadded(d, left, right, scale);
  }

  /** In particular cents are micros truncated by 10^4 and dollars are cents truncated by 100. */
  lemma CentsAndDollarsFromMicros(d: Decimal, left: string, right: string, micros: int)
    requires d.Valid() && Spaces(left) && Spaces(right)
    requires ParseMicrosTruncated(left + d.Text() + right) == Some(micros)
    ensures ParseCentsTruncated(left + d.Text() + right) == Some(TruncDiv(micros, 10000))
    ensures ParseDollarsTruncated(left + d.Text() + right) ==
      if d.whole == [] then None else Some(TruncDiv(TruncDiv(micros, 10000), 100))
  {
    assert Pow10(2) == 100 && Pow10(4) == 100 * Pow10(2);
    CoarserParsersTruncateFiner(d, left, right, CENT_SCALE, 4, micros);
    if d.whole != [] {
      CoarserParsersTruncateFiner(d, left, right, DOLLAR_SCALE, 2, TruncDiv(micros, 10000));
    } else {
      ParsesWellFormedAmounts(d, left, right, DOLLAR_SCALE);
    }
  }

  /** ParseMicros never rounds: it succeeds only with the exact number of micros. */
  lemma ParseMicrosIsExact(d: Decimal, left: string, right: string)
    requires d.Valid() && Spaces(left) && Spaces(right)
    requires ParseMicros(left + d.Text() + right).Some?
    ensures exists micros: nat ::
      && ParseMicros(left + d.Text() + right) == Some(d.Signed(micros))
      && micros * Pow10(d.Places()) == d.Numerator() * Pow10(MICRO_SCALE)
  {
    ParserSeesDigits(d, left, right);
    ParsesWellFormedAmounts(d, left, right, MICRO_SCALE);
    ScaledExactly(d.Numerator(), d.Places(), MICRO_SCALE);
  }

  /** What ParseMicros does with every well-formed amount: at most six places are accepted, and then the
      number of micros, which is exact, if it fits 64 bits. */
  lemma ParseMicrosIff(d: Decimal, left: string, right: string)
    requires d.Valid() && Spaces(left) && Spaces(right)
    ensures ParseMicros(left + d.Text() + right) ==
      if d.Places() <= 6 && IsInt64(d.Scaled(6)) then Some(d.Scaled(6)) else None
  {
    ParserSeesDigits(d, left, right);
    ParsesWellFormedAmounts(d, left, right, MICRO_SCALE);
  }

  lemma ScaledExactly(n: nat, places: nat, scale: nat)
    requires places <= scale
    ensures ScaleBy(n, Pow10(scale), Pow10(places)) * Pow10(places) == n * Pow10(scale)
  {
    Pow10Adds(scale - places, places);
    MulCancel(n, Pow10(scale - places), Pow10(places), Pow10(scale));
  }
}
