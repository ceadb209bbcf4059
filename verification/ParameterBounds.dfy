/** internal/postgrescfg/parameters.go: moving a Postgres parameter value into its bounds, and
    validating one.

    Numbers that Go parses as floats are reals here; strconv.ParseFloat, time.ParseDuration and
    strings.ToLower are inputs. */
module ParameterBounds {
  import opened Runs
  import opened GoText

  datatype Kind = Text | Int | Float | Bytes | Enum | Duration | Boolean

  datatype Spec = Spec(kind: Kind, minValue: string, maxValue: string, values: seq<string>, allowEmpty: bool)

  datatype Library = Library(
    parseFloat: string -> Option<real>,
    parseGoDuration: string -> Option<int>,
    toLower: string -> string)

  // ----- parsing

  /** int64(x) for a float in range. */
  function Truncate(x: real): int { if x >= 0.0 then x.Floor else -((-x).Floor) }

  predicate Numeric(c: char) { IsDigit(c) || c == '.' || c == '-' }

  /** The length of the part of `s` up to and including its last numeric character. */
  function NumberLength(s: string): (n: nat)
    ensures n <= |s|
  {
    if s == [] then 0 else if Numeric(s[|s| - 1]) then |s| else NumberLength(s[..|s| - 1])
  }

  function ByteUnit(unit: string): Option<int>
  {
    if unit == "B" || unit == "" then Some(1)
    else if unit == "kB" then Some(1024)
    else if unit == "MB" then Some(1024 * 1024)
    else if unit == "GB" then Some(1024 * 1024 * 1024)
    else if unit == "TB" then Some(1024 * 1024 * 1024 * 1024)
    else None
  }

  function ParseTrimmedBytes(s: string, lib: Library): Option<int>
  {
    if s == "0B" then Some(0)
    else
      var n := NumberLength(s);
      if n == 0 || lib.parseFloat(s[..n]).None? || ByteUnit(s[n..]).None? then None
      else Some(Truncate(lib.parseFloat(s[..n]).value * (ByteUnit(s[n..]).value as real)))
  }

  /** parseBytes. */
  function ParseBytes(text: string, lib: Library): Option<int> { ParseTrimmedBytes(TrimSpace(text), lib) }

  /** The scan from the right for the last numeric character. */
  method SplitNumber(s: string) returns (number: string, unit: string)
    ensures number == s[..NumberLength(s)]
    ensures number != "" ==> unit == s[NumberLength(s)..]
  {
    number, unit := "", "";
    var i := |s| - 1;
    assert s[..|s|] == s;
    while i >= 0
      invariant -1 <= i < |s| && NumberLength(s) == NumberLength(s[..i + 1])
    {
      assert s[..i + 1][..i] == s[..i];
      if IsDigit(s[i]) || s[i] == '.' || s[i] == '-' {
        return s[..i + 1], s[i + 1..];
      }
      i := i - 1;
    }
  }

  /** parseBytes as it runs. */
  method ParseBytesScan(text: string, lib: Library) returns (r: Option<int>)
    ensures r == ParseBytes(text, lib)
  {
    var s := TrimSpace(text);
    if s == "0B" {
      return Some(0);
    }
    var number, unit := SplitNumber(s);
    if number == "" {
      return None;
    }
    var value := lib.parseFloat(number);
    if value.None? {
      return None;
    }
    var multiplier := ByteUnit(unit);
    if multiplier.None? {
      return None;
    }
    return Some(Truncate(value.value * (multiplier.value as real)));
  }

  const SECOND := 1_000_000_000

  function DurationUnit(unit: string): Option<int>
  {
    if unit == "s" then Some(SECOND)
    else if unit == "min" then Some(60 * SECOND)
    else if unit == "h" then Some(3600 * SECOND)
    else if unit == "d" then Some(24 * 3600 * SECOND)
    else if unit == "" then Some(0)  // the multiplier keeps its zero value
    else None
  }

  function ParseTrimmedDuration(s: string, lib: Library): Option<int>
  {
    if s == "0" then Some(0)
    else if lib.parseGoDuration(s).Some? then lib.parseGoDuration(s)
    else
      var n := NumberLength(s);
      if n == 0 || DurationUnit(s[n..]).None? || lib.parseFloat(s[..n]).None? then None
      else Some(Truncate(lib.parseFloat(s[..n]).value * (DurationUnit(s[n..]).value as real)))
  }

  /** parseDuration, in nanoseconds. */
  function ParseDuration(text: string, lib: Library): Option<int>
  {
    ParseTrimmedDuration(lib.toLower(TrimSpace(text)), lib)
  }

  function AsReal(n: Option<int>): Option<real> { if n.None? then None else Some(n.value as real) }

  predicate IsNumber(kind: Kind) { kind.Int? || kind.Float? || kind.Bytes? || kind.Duration? }

  /** The number that a value of a numeric kind denotes. */
  function Parse(kind: Kind, value: string, lib: Library): Option<real>
    requires IsNumber(kind)
  {
    match kind
    case Int => AsReal(ParseInt(value))
    case Float => lib.parseFloat(value)
    case Bytes => AsReal(ParseBytes(value, lib))
    case Duration => AsReal(ParseDuration(value, lib))
  }

  /** Conversion to an integer truncates toward zero. */
  lemma TruncatesTowardZero(x: real)
    ensures x >= 0.0 ==> 0.0 <= Truncate(x) as real <= x < Truncate(x) as real + 1.0
    ensures x <= 0.0 ==> Truncate(x) as real - 1.0 < x <= Truncate(x) as real <= 0.0
  {
  }

  /** A number followed by a unit: it ends with a numeric character, and the unit has none. */
  ghost predicate NumberAndUnit(number: string, unit: string)
  {
    && number != [] && (number[|number| - 1] in ".-" || '0' <= number[|number| - 1] <= '9')
    && (forall i :: 0 <= i < |unit| ==> unit[i] !in ".-" && !('0' <= unit[i] <= '9'))
    && (forall i :: 0 <= i < |number + unit| ==> !IsSpace((number + unit)[i]))
  }

  lemma {:induction false} NumberLengthAt(number: string, unit: string)
    requires number != [] && Numeric(number[|number| - 1]) && forall i :: 0 <= i < |unit| ==> !Numeric(unit[i])
    ensures NumberLength(number + unit) == |number|
  {
    if unit == [] {
      assert number + unit == number;
    } else {
      var s := number + unit;
      assert s[..|s| - 1] == number + unit[..|unit| - 1];
      assert s[|s| - 1] == unit[|unit| - 1];
      NumberLengthAt(number, unit[..|unit| - 1]);
    }
  }

  /** The bytes that a unit of sizes stands for, or zero if it is none. */
  ghost function BytesIn(unit: string): int
  {
    if unit == "" || unit == "B" then 1
    else if unit == "kB" then 1_024
    else if unit == "MB" then 1_048_576
    else if unit == "GB" then 1_073_741_824
    else if unit == "TB" then 1_099_511_627_776
    else 0
  }

  /** What a size denotes: the number times the bytes of its unit, truncated; a unit that is none, or a
      number that does not parse, is an error. */
  lemma SizeOf(number: string, unit: string, lib: Library)
    requires NumberAndUnit(number, unit) && number + unit != "0B"
    ensures ParseBytes(number + unit, lib) ==
      if BytesIn(unit) == 0 || lib.parseFloat(number).None? then None
      else Some(Truncate(lib.parseFloat(number).value * (BytesIn(unit) as real)))
  {
    SplitsAtUnit(number, unit);
    UnitBytes(unit);
  }

  lemma UnitBytes(unit: string)
    ensures ByteUnit(unit) == if BytesIn(unit) == 0 then None else Some(BytesIn(unit))
  {
  }

  lemma SplitsAtUnit(number: string, unit: string)
    requires NumberAndUnit(number, unit)
    ensures var s := number + unit;
      TrimSpace(s) == s && NumberLength(s) == |number| && s[..|number|] == number && s[|number|..] == unit
  {
    TrimOfUnspaced(number + unit);
    NumberLengthAt(number, unit);
  }

  /** The nanoseconds that a unit of durations stands for. */
  ghost function NanosecondsIn(unit: string): Option<int>
  {
    if unit == "s" then Some(1_000_000_000)
    else if unit == "min" then Some(60_000_000_000)
    else if unit == "h" then Some(3_600_000_000_000)
    else if unit == "d" then Some(86_400_000_000_000)
    else if unit == "" then Some(0)
    else None
  }

  /** What a duration denotes, by its text in lower case without surrounding blanks: what Go takes it
      for, if it does; otherwise the number times the nanoseconds of its unit, truncated. A bare number
      other than those denotes no time at all. */
  lemma DurationOf(text: string, number: string, unit: string, lib: Library)
    requires lib.toLower(TrimSpace(text)) == number + unit && NumberAndUnit(number, unit) && number + unit != "0"
    ensures ParseDuration(text, lib) ==
      if lib.parseGoDuration(number + unit).Some? then lib.parseGoDuration(number + unit)
      else if NanosecondsIn(unit).None? || lib.parseFloat(number).None? then None
      else Some(Truncate(lib.parseFloat(number).value * (NanosecondsIn(unit).value as real)))
  {
    SplitsAtUnit(number, unit);
    UnitNanoseconds(unit);
  }

  /** So a duration of thirty without a unit is read as none at all. */
  lemma BareNumberIsNoTime(lib: Library)
    requires lib.toLower("30") == "30" && lib.parseGoDuration("30").None? && lib.parseFloat("30") == Some(30.0)
    ensures ParseDuration("30", lib) == Some(0)
  {
    assert "30" + "" == "30" && "30"[1] == '0';
    TrimOfUnspaced("30");
    DurationOf("30", "30", "", lib);
  }

  lemma UnitNanoseconds(unit: string)
    ensures DurationUnit(unit) == NanosecondsIn(unit)
  {
  }

  /** Zero bytes and no time are recognized before anything is parsed. */
  lemma ZeroSizeAndDuration(left: string, right: string, text: string, lib: Library)
    requires Spaces(left) && Spaces(right)
    ensures ParseBytes(left + "0B" + right, lib) == Some(0)
    ensures lib.toLower(TrimSpace(text)) == "0" ==> ParseDuration(text, lib) == Some(0)
  {
    TrimRemovesPadding(left, "0B", right);
  }

  // ----- validating

  /** The range check of the four numeric validators. */
  predicate InRange(spec: Spec, value: string, lib: Library)
    requires IsNumber(spec.kind)
  {
    var x := Parse(spec.kind, value, lib);
    && x.Some?
    && (spec.minValue != "" ==>
          && Parse(spec.kind, spec.minValue, lib).Some?
          && x.value >= Parse(spec.kind, spec.minValue, lib).value)
    && (spec.maxValue != "" ==>
          && Parse(spec.kind, spec.maxValue, lib).Some?
          && x.value <= Parse(spec.kind, spec.maxValue, lib).value)
  }

  /** ValidateParameterValue returns nil. */
  predicate Validates(spec: Spec, value: string, lib: Library)
  {
    !HasControl(value) &&
    var v := TrimSpace(value);
    match spec.kind
    case Text => v != "" || spec.allowEmpty
    case Enum => v in spec.values
    case Boolean => v in ["true", "on", "yes", "1", "false", "off", "no", "0"]
    case _ => InRange(spec, v, lib)
  }

  /** A blank value is accepted as text if that may be empty, and as an enum value if the empty one is
      listed; it is no boolean and no number. */
  lemma BlankValidates(spec: Spec, n: nat, lib: Library)
    requires lib.parseFloat("").None? && lib.parseGoDuration("").None? && lib.toLower("") == ""
    ensures var blank := seq(n, _ => ' ');
      Validates(spec, blank, lib) <==> (spec.kind.Text? && spec.allowEmpty) || (spec.kind.Enum? && "" in spec.values)
  {
    var blank := seq(n, _ => ' ');
    BlankTrims(n);
    assert "" + "" == "";
    assert NumberLength("") == 0;
  }

  lemma {:induction false} BlankTrims(n: nat)
    ensures TrimSpace(seq(n, _ => ' ')) == ""
    ensures TrimLeft(seq(n, _ => ' ')) == ""
  {
    if n > 0 {
      assert seq(n, _ => ' ')[1..] == seq(n - 1, _ => ' ');
      BlankTrims(n - 1);
    }
  }

  /** Integers and floats are parsed by the functions of those names. */
  lemma NumbersParse(value: string, lib: Library)
    ensures Parse(Float, value, lib) == lib.parseFloat(value)
    ensures Parse(Int, value, lib).Some? == ParseInt(value).Some?
    ensures ParseInt(value).Some? ==> Parse(Int, value, lib).value == ParseInt(value).value as real
  {
  }

  /** A value of one of the other kinds is judged without the blanks around it: text must not be empty
      unless that is allowed, an enum value must be listed, a boolean must be spelled in one of eight
      ways. */
  lemma ValidatesTrimmed(spec: Spec, left: string, v: string, right: string, lib: Library)
    requires !IsNumber(spec.kind) && v != [] && !IsSpace(v[0]) && !IsSpace(v[|v| - 1]) && !HasControl(v)
    requires (forall i :: 0 <= i < |left| ==> left[i] == ' ') && (forall i :: 0 <= i < |right| ==> right[i] == ' ')
    ensures Validates(spec, left + v + right, lib) <==>
      match spec.kind
      case Enum => v in spec.values
      case Boolean =>
        v == "true" || v == "on" || v == "yes" || v == "1" || v == "false" || v == "off" || v == "no" || v == "0"
      case _ => true
  {
    TrimRemovesPadding(left, v, right);
    NoControlAround(left, v, right);
  }

  lemma NoControlAround(left: string, v: string, right: string)
    requires !HasControl(v)
    requires (forall i :: 0 <= i < |left| ==> left[i] == ' ') && (forall i :: 0 <= i < |right| ==> right[i] == ' ')
    ensures !HasControl(left + v + right)
  {
    var s := left + v + right;
    forall i | 0 <= i < |s| ensures !IsControl(s[i]) {
      if |left| <= i < |left| + |v| {
        assert s[i] == v[i - |left|];
      }
    }
  }

  // ----- adjusting

  /** The four adjust helpers: the bound that is violated, or the value itself. */
  function AdjustNumber(value: string, spec: Spec, lib: Library): string
    requires IsNumber(spec.kind)
  {
    var x := Parse(spec.kind, value, lib);
    if x.None? then value
    else
      var lo := if spec.minValue == "" then None else Parse(spec.kind, spec.minValue, lib);
      var hi := if spec.maxValue == "" then None else Parse(spec.kind, spec.maxValue, lib);
      if hi.Some? && x.value > hi.value then spec.maxValue
      else if lo.Some? && x.value < lo.value then spec.minValue
      else value
  }

  /** AdjustValueToBounds. */
  function Adjust(value: string, spec: Spec, lib: Library): string
  {
    if spec.minValue == "" && spec.maxValue == "" then value
    else if IsNumber(spec.kind) then AdjustNumber(value, spec, lib)
    else value
  }

  // ----- agreement

  /** The bounds of the spec, where given, denote numbers in order. */
  ghost predicate WellBounded(spec: Spec, lib: Library)
    requires IsNumber(spec.kind)
  {
    && (spec.minValue != "" ==> Parse(spec.kind, spec.minValue, lib).Some?)
    && (spec.maxValue != "" ==> Parse(spec.kind, spec.maxValue, lib).Some?)
    && (spec.minValue != "" && spec.maxValue != "" ==>
          Parse(spec.kind, spec.minValue, lib).value <= Parse(spec.kind, spec.maxValue, lib).value)
  }

  /** The nearest number within the bounds. */
  ghost function Clamp(x: real, spec: Spec, lib: Library): real
    requires IsNumber(spec.kind) && WellBounded(spec, lib)
  {
    if spec.minValue != "" && x < Parse(spec.kind, spec.minValue, lib).value then
      Parse(spec.kind, spec.minValue, lib).value
    else if spec.maxValue != "" && x > Parse(spec.kind, spec.maxValue, lib).value then
      Parse(spec.kind, spec.maxValue, lib).value
    else x
  }

  /** strconv.ParseFloat accepts no white space. */
  ghost predicate FloatsHaveNoSpace(lib: Library)
  {
    forall s :: lib.parseFloat(s).Some? ==> TrimSpace(s) == s
  }

  /** Validation trims before it parses, adjusting does not; whatever parses, parses the same way
      trimmed. */
  lemma ParseIgnoresPadding(kind: Kind, value: string, lib: Library)
    requires IsNumber(kind) && FloatsHaveNoSpace(lib) && Parse(kind, value, lib).Some?
    ensures Parse(kind, TrimSpace(value), lib) == Parse(kind, value, lib)
  {
    TrimIsIdempotent(value);
    match kind
    case Int => ParseIntHasNoSpace(value);
    case Float => assert TrimSpace(value) == value;
    case Bytes => assert ParseBytes(TrimSpace(value), lib) == ParseBytes(value, lib);
    case Duration => assert ParseDuration(TrimSpace(value), lib) == ParseDuration(value, lib);
  }

  /** Adjusting is clamping: for a value that denotes a number and bounds in order, the adjusted
      value denotes the nearest number within the bounds. */
  lemma AdjustClamps(value: string, spec: Spec, lib: Library)
    requires IsNumber(spec.kind) && WellBounded(spec, lib) && Parse(spec.kind, value, lib).Some?
    ensures Parse(spec.kind, Adjust(value, spec, lib), lib) ==
      Some(Clamp(Parse(spec.kind, value, lib).value, spec, lib))
  {
  }

  /** Adjusting once is enough, and it never reorders values. */
  lemma AdjustIsIdempotentAndMonotone(value: string, other: string, spec: Spec, lib: Library)
    requires IsNumber(spec.kind) && WellBounded(spec, lib)
    requires Parse(spec.kind, value, lib).Some? && Parse(spec.kind, other, lib).Some?
    ensures Adjust(Adjust(value, spec, lib), spec, lib) == Adjust(value, spec, lib)
    ensures Parse(spec.kind, value, lib).value <= Parse(spec.kind, other, lib).value ==>
      Parse(spec.kind, Adjust(value, spec, lib), lib).value <= Parse(spec.kind, Adjust(other, spec, lib), lib).value
  {
    AdjustClamps(value, spec, lib);
    AdjustClamps(other, spec, lib);
  }

  /** For a value without control characters the adjusted value passes validation, whatever the
      number, exactly when the bound that replaces it, if one does, has none either. */
  lemma AdjustedValuesValidate(value: string, spec: Spec, lib: Library)
    requires IsNumber(spec.kind) && WellBounded(spec, lib) && FloatsHaveNoSpace(lib)
    requires Parse(spec.kind, value, lib).Some? && !HasControl(value)
    ensures var x := Parse(spec.kind, value, lib).value;
      Validates(spec, Adjust(value, spec, lib), lib) <==>
        && (spec.minValue != "" && x < Parse(spec.kind, spec.minValue, lib).value ==> !HasControl(spec.minValue))
        && (spec.maxValue != "" && x > Parse(spec.kind, spec.maxValue, lib).value ==> !HasControl(spec.maxValue))
  {
    var a, x := Adjust(value, spec, lib), Parse(spec.kind, value, lib).value;
    AdjustClamps(value, spec, lib);
    ParseIgnoresPadding(spec.kind, a, lib);
    ClampIsInRange(spec, TrimSpace(a), x, lib);
    AdjustChooses(value, spec, lib);
  }

  lemma ClampIsInRange(spec: Spec, v: string, x: real, lib: Library)
    requires IsNumber(spec.kind) && WellBounded(spec, lib) && Parse(spec.kind, v, lib) == Some(Clamp(x, spec, lib))
    ensures InRange(spec, v, lib)
  {
  }

  lemma AdjustChooses(value: string, spec: Spec, lib: Library)
    requires IsNumber(spec.kind) && WellBounded(spec, lib) && Parse(spec.kind, value, lib).Some?
    ensures var x := Parse(spec.kind, value, lib).value;
      Adjust(value, spec, lib) ==
        if spec.minValue != "" && x < Parse(spec.kind, spec.minValue, lib).value then spec.minValue
        else if spec.maxValue != "" && x > Parse(spec.kind, spec.maxValue, lib).value then spec.maxValue
        else value
  {
  }

  /** Such a bound is possible, since sizes are trimmed before they are parsed: with a lower bound
      of one byte written with a leading tab, zero is moved to that bound and then rejected. */
  lemma TabbedBoundIsRejected(lib: Library)
    requires FloatsHaveNoSpace(lib) && lib.parseFloat("0") == Some(0.0) && lib.parseFloat("1") == Some(1.0)
    ensures var spec := Spec(Bytes, "\t1", "", [], false);
      WellBounded(spec, lib) && Parse(Bytes, "0", lib).Some? && !HasControl("0")
        && !Validates(spec, Adjust("0", spec, lib), lib)
  {
    var spec := Spec(Bytes, "\t1", "", [], false);
    OneDigit("0", lib);
    OneDigit("1", lib);
    TrimRemovesPadding("\t", "1", "");
    assert "\t" + "1" + "" == "\t1";
    assert "\t1"[0] == '\t' && HasControl("\t1");
  }

  lemma OneDigit(s: string, lib: Library)
    requires |s| == 1 && IsDigit(s[0]) && lib.parseFloat(s).Some?
    ensures TrimSpace(s) == s && ParseTrimmedBytes(s, lib) == Some(Truncate(lib.parseFloat(s).value * 1.0))
  {
    TrimOfUnspaced(s);
    assert s[..1] == s && s[1..] == "";
  }

  /** Conversely a valid value is left as it is: adjusting changes exactly what validation would
      reject for being out of bounds. */
  lemma ValidValuesAreKept(value: string, spec: Spec, lib: Library)
    requires IsNumber(spec.kind) && WellBounded(spec, lib) && FloatsHaveNoSpace(lib)
    requires Parse(spec.kind, value, lib).Some? && !HasControl(value)
    ensures Validates(spec, value, lib) ==> Adjust(value, spec, lib) == value
    ensures !Validates(spec, value, lib) ==>
      Adjust(value, spec, lib) == spec.minValue || Adjust(value, spec, lib) == spec.maxValue
  {
    ParseIgnoresPadding(spec.kind, value, lib);
  }
}
