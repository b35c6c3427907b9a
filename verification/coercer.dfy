/**
 * The value coercer of `config.go`: one raw string becomes one typed field
 * value, or a failure that leaves the field unwritten. Each `setX` helper of
 * the source is a function returning a `Result`; the single write through the
 * reflected field is the `Success` value, which the populator stores.
 */
module Coercer {
  import opened Wrappers
  import opened StrConv

  newtype byte = b: int | 0 <= b < 0x100

  /**
   * The field kinds `applyValue` tells apart. `Int64` is the plain `int64`
   * type; `Duration` is `time.Duration`; `OtherInt64` is any other named type
   * whose kind is int64. `Bytes` is `[]byte`; `OtherSlice` any other slice.
   * `Unexpected` carries the name of any remaining kind (uint, struct, map, ...).
   */
  datatype Kind =
    | Int | Int8 | Int16 | Int32 | Int64
    | Duration | OtherInt64
    | Float32 | Float64
    | String
    | Bool
    | Bytes | OtherSlice
    | Unexpected(kindName: string)
  {
    /** The kinds handled by `setInt`. */
    predicate IsInteger() {
      Int? || Int8? || Int16? || Int32? || Int64?
    }

    /** How many bits `reflect.Value.SetInt` keeps for this kind (`int` is taken as 64 bits). */
    function Width(): Width
      requires IsInteger() || Duration?
    {
      match this
      case Int8 => W8
      case Int16 => W16
      case Int32 => W32
      case _ => W64
    }
  }

  /** What a field holds after a successful write. A duration is its nanosecond count. */
  datatype Value =
    | IntValue(i: int)
    | FloatValue(f: real)
    | BoolValue(b: bool)
    | StringValue(s: string)
    | BytesValue(bytes: seq<byte>)

  /** Why a raw string could not be written into a field. */
  datatype ParseFailure =
    | NotAnInteger(text: string)            // strconv.ParseInt rejected `text`
    | NotAFloat(text: string)               // strconv.ParseFloat rejected `text`
    | UnknownDurationUnit(unit: string)
    | NotABool
    | NotBase64
    | UnknownInt64Type
    | UnknownSliceType
    | UnexpectedFieldType(kindName: string)

  /**
   * The two library decoders the coercer calls but whose code is not part of
   * this model: `strconv.ParseFloat(s, 64)` and
   * `base64.StdEncoding.DecodeString`. `None` is a decode error.
   */
  datatype Library = Library(parseFloat: string -> Option<real>, decodeBase64: string -> Option<seq<byte>>)

  /** A value of the right shape (and, for integers, of the right width) for a field of kind `k`. */
  predicate Fits(k: Kind, v: Value) {
    match k
    case Int | Int8 | Int16 | Int32 | Int64 | Duration => v.IntValue? && k.Width().Holds(v.i)
    case Float32 | Float64 => v.FloatValue?
    case String => v.StringValue?
    case Bool => v.BoolValue?
    case Bytes => v.BytesValue?
    case OtherInt64 | OtherSlice | Unexpected(_) => false
  }

  // ---------------------------------------------------------------- durations

  const Nanosecond: int := 1
  const Microsecond: int := 1000 * Nanosecond
  const Millisecond: int := 1000 * Microsecond
  const Second: int := 1000 * Millisecond
  const Minute: int := 60 * Second
  const Hour: int := 60 * Minute
  const Day: int := Hour * 24
  const Week: int := Hour * 24 * 7

  /** The eight unit tokens `setDuration` accepts, case-sensitively. */
  const DurationUnits: set<string> := {"h", "m", "s", "ms", "us", "ns", "d", "w"}

  /** The length of one `unit` in nanoseconds. */
  function UnitNanos(unit: string): (r: Option<int>)
    ensures r.Some? <==> unit in DurationUnits
    ensures r.Some? ==> r.value > 0
  {
    if unit == "h" then Some(Hour)
    else if unit == "m" then Some(Minute)
    else if unit == "s" then Some(Second)
    else if unit == "ms" then Some(Millisecond)
    else if unit == "us" then Some(Microsecond)
    else if unit == "ns" then Some(Nanosecond)
    else if unit == "d" then Some(Day)
    else if unit == "w" then Some(Week)
    else None
  }

  /** The index of the first byte of `s` at or after `from` outside `'0'..'9'`, or `|s|` if there is none. */
  function FirstNonDigit(s: string, from: nat): (i: nat)
    requires from <= |s|
    ensures from <= i <= |s|
    ensures forall k :: from <= k < i ==> IsDigit(s[k])
    ensures i < |s| ==> !IsDigit(s[i])
    decreases |s| - from
  {
    if from == |s| || !IsDigit(s[from]) then from else FirstNonDigit(s, from + 1)
  }

  /**
   * The split `setDuration` makes: the digits before the first non-digit
   * and the rest. When `s` holds no non-digit, both parts stay empty.
   */
  function SplitDuration(s: string): (parts: (string, string))
    ensures AllDigits(parts.0)
    ensures parts.1 == [] || !IsDigit(parts.1[0])
    ensures parts.1 != [] ==> parts.0 + parts.1 == s
    ensures parts.1 == [] ==> parts.0 == [] && AllDigits(s)
  {
    var i := FirstNonDigit(s, 0);
    if i < |s| then
      assert s[..i] + s[i..] == s;
      (s[..i], s[i..])
    else
      ("", "")
  }

  /** `setDuration`: a magnitude times a unit, wrapped to int64 as Go's multiplication does. */
  function ParseDuration(s: string): (r: Result<int, ParseFailure>)
    ensures r.Success? ==> MinInt64 <= r.value <= MaxInt64
  {
    var (scalar, unit) := SplitDuration(s);
    match ParseInt64(scalar)
    case None => Failure(NotAnInteger(scalar))
    case Some(n) =>
      match UnitNanos(unit)
      case None => Failure(UnknownDurationUnit(unit))
      case Some(u) => Success(Wrap64(u * n))
  }

  /** `s` is a non-empty int64-sized digit run followed by exactly one unit token, split at `i`. */
  predicate IsDurationAt(s: string, i: nat) {
    0 < i < |s| && AllDigits(s[..i]) && s[i..] in DurationUnits && DigitsValue(s[..i]) <= MaxInt64
  }

  lemma {:induction false} DurationSplitIsUnique(s: string, i: nat)
    requires IsDurationAt(s, i)
    ensures SplitDuration(s) == (s[..i], s[i..])
  {
    var j := FirstNonDigit(s, 0);
    assert !IsDigit(s[i]) by { assert s[i..][0] == s[i]; }
  }

  /** Exactly the strings of the form digits-then-unit, with the magnitude in int64 range, are accepted. */
  lemma {:induction false} DurationAccepted(s: string)
    ensures ParseDuration(s).Success? <==> exists i: nat :: IsDurationAt(s, i)
  {
    var (scalar, unit) := SplitDuration(s);
    if ParseDuration(s).Success? {
      var i := |scalar|;
      assert s[..i] == scalar && s[i..] == unit;
      assert IsDurationAt(s, i);
    }
    if exists i: nat :: IsDurationAt(s, i) {
      var i: nat :| IsDurationAt(s, i);
      DurationSplitIsUnique(s, i);
      assert s[..i][0] != '+' && s[..i][0] != '-';
    }
  }

  /** A digit magnitude `n` followed by a unit yields exactly `n` units in nanoseconds (wrapped to int64). */
  lemma {:induction false} DurationValue(digits: string, unit: string)
    requires |digits| > 0 && AllDigits(digits) && DigitsValue(digits) <= MaxInt64
    requires unit in DurationUnits
    ensures ParseDuration(digits + unit) == Success(Wrap64(DigitsValue(digits) * UnitNanos(unit).value))
  {
    var s := digits + unit;
    assert s[..|digits|] == digits && s[|digits|..] == unit;
    DurationSplitIsUnique(s, |digits|);
    assert digits[0] != '+' && digits[0] != '-';
  }

  /** No sign is accepted: an input that does not start with a digit fails in the integer parse of an empty magnitude. */
  lemma DurationNeedsLeadingDigit(s: string)
    requires s == [] || !IsDigit(s[0])
    ensures ParseDuration(s) == Failure(NotAnInteger(""))
  {
    assert s != [] ==> FirstNonDigit(s, 0) == 0;
  }

  /** A string of digits alone has no unit: it also fails in the integer parse of an empty magnitude. */
  lemma DurationNeedsUnit(s: string)
    requires AllDigits(s)
    ensures ParseDuration(s) == Failure(NotAnInteger(""))
  {
  }

  /** After a valid magnitude, any token other than the eight units is reported as an unknown unit. */
  lemma {:induction false} DurationUnknownUnit(digits: string, unit: string)
    requires |digits| > 0 && AllDigits(digits) && DigitsValue(digits) <= MaxInt64
    requires unit != [] && !IsDigit(unit[0]) && unit !in DurationUnits
    ensures ParseDuration(digits + unit) == Failure(UnknownDurationUnit(unit))
  {
    var s := digits + unit;
    var j := FirstNonDigit(s, 0);
    assert s[|digits|] == unit[0];
    assert s[..j] == digits && s[j..] == unit;
    assert digits[0] != '+' && digits[0] != '-';
  }

  /** A magnitude beyond int64 fails before the unit is looked at. */
  lemma {:induction false} DurationMagnitudeOverflow(digits: string, unit: string)
    requires |digits| > 0 && AllDigits(digits) && DigitsValue(digits) > MaxInt64
    requires unit != [] && !IsDigit(unit[0])
    ensures ParseDuration(digits + unit) == Failure(NotAnInteger(digits))
  {
    var s := digits + unit;
    var j := FirstNonDigit(s, 0);
    assert s[|digits|] == unit[0];
    assert s[..j] == digits && s[j..] == unit;
    assert digits[0] != '+' && digits[0] != '-';
  }

  // ---------------------------------------------------------------- booleans

  function LowerChar(c: char): char {
    if 'A' <= c <= 'Z' then (c as int + 32) as char else c
  }

  /** `strings.ToLower` restricted to ASCII, the only letters the boolean vocabulary uses. */
  function AsciiLower(s: string): (r: string)
    ensures |r| == |s|
    ensures forall i :: 0 <= i < |s| ==> r[i] == LowerChar(s[i])
  {
    if s == [] then [] else [LowerChar(s[0])] + AsciiLower(s[1..])
  }

  const TrueWords: set<string> := {"t", "true", "1"}
  const FalseWords: set<string> := {"f", "false", "0"}

  /** `setBool`: a closed, case-insensitive vocabulary. */
  function ParseBool(s: string): (r: Result<bool, ParseFailure>)
    ensures r.Success? <==> AsciiLower(s) in TrueWords + FalseWords
    ensures r.Success? ==> (r.value <==> AsciiLower(s) in TrueWords)
    ensures r.Failure? ==> r.error == NotABool
  {
    var lv := AsciiLower(s);
    if lv == "t" || lv == "true" || lv == "1" then Success(true)
    else if lv == "f" || lv == "false" || lv == "0" then Success(false)
    else Failure(NotABool)
  }

  /** Two spellings that differ only in the case of ASCII letters parse alike. */
  lemma {:induction false} BoolIgnoresCase(s: string, t: string)
    requires |s| == |t| && forall i :: 0 <= i < |s| ==> LowerChar(s[i]) == LowerChar(t[i])
    ensures ParseBool(s) == ParseBool(t)
  {
    assert AsciiLower(s) == AsciiLower(t);
  }

  // ---------------------------------------------------------------- dispatch

  /** `setInt`: the base-10 int64 parse shared by every integer kind. */
  function ParseInt(s: string): (r: Result<int, ParseFailure>)
    ensures r.Success? <==> IsDecimalLiteral(s) && MinInt64 <= LiteralValue(s) <= MaxInt64
    ensures r.Success? ==> r.value == LiteralValue(s)
    ensures r.Failure? ==> r.error == NotAnInteger(s)
  {
    match ParseInt64(s)
    case Some(v) => Success(v)
    case None => Failure(NotAnInteger(s))
  }

  /**
   * `applyValue`: the value a field of kind `kind` receives for the non-empty
   * raw string `raw`, or why it receives none. An integer is stored the way
   * `reflect.Value.SetInt` stores it, truncated to the field's width.
   */
  function ApplyValue(kind: Kind, raw: string, lib: Library): (r: Result<Value, ParseFailure>)
    ensures r.Success? ==> Fits(kind, r.value)
    ensures kind.String? ==> r == Success(StringValue(raw))
    ensures kind.IsInteger() ==> (r.Success? <==> ParseInt(raw).Success?)
    ensures kind.IsInteger() && r.Success? ==> r.value == IntValue(Wrap(ParseInt(raw).value, kind.Width()))
    ensures kind.Duration? ==> (r.Success? <==> ParseDuration(raw).Success?)
    ensures kind.Duration? && r.Success? ==> r.value == IntValue(ParseDuration(raw).value)
    ensures kind.Bool? ==> (r.Success? <==> ParseBool(raw).Success?)
    ensures kind.Bool? && r.Success? ==> r.value == BoolValue(ParseBool(raw).value)
    ensures (kind.Float32? || kind.Float64?) ==> (r.Success? <==> lib.parseFloat(raw).Some?)
    ensures (kind.Float32? || kind.Float64?) && r.Success? ==> r.value == FloatValue(lib.parseFloat(raw).value)
    ensures kind.IsInteger() && r.Failure? ==> r.error == ParseInt(raw).error
    ensures kind.Duration? && r.Failure? ==> r.error == ParseDuration(raw).error
    ensures kind.Bool? && r.Failure? ==> r.error == NotABool
    ensures (kind.Float32? || kind.Float64?) && r.Failure? ==> r.error == NotAFloat(raw)
    ensures kind.Bytes? && r.Failure? ==> r.error == NotBase64
    ensures kind.OtherInt64? ==> r == Failure(UnknownInt64Type)
    ensures kind.OtherSlice? ==> r == Failure(UnknownSliceType)
    ensures kind.Unexpected? ==> r == Failure(UnexpectedFieldType(kind.kindName))
  {
    match kind
    case Int | Int8 | Int16 | Int32 | Int64 =>
      (match ParseInt(raw)
       case Success(v) => Success(IntValue(Wrap(v, kind.Width())))
       case Failure(e) => Failure(e))
    case Duration =>
      (match ParseDuration(raw)
       case Success(ns) => Success(IntValue(ns))
       case Failure(e) => Failure(e))
    case OtherInt64 => Failure(UnknownInt64Type)
    case Float32 | Float64 =>
      (match lib.parseFloat(raw)
       case Some(f) => Success(FloatValue(f))
       case None => Failure(NotAFloat(raw)))
    case String => Success(StringValue(raw))
    case Bool =>
      (match ParseBool(raw)
       case Success(b) => Success(BoolValue(b))
       case Failure(e) => Failure(e))
    case Bytes =>
      (match lib.decodeBase64(raw)
       case Some(bytes) => Success(BytesValue(bytes))
       case None => Failure(NotBase64))
    case OtherSlice => Failure(UnknownSliceType)
    case Unexpected(name) => Failure(UnexpectedFieldType(name))
  }

  /** A kind the coercer has no handler for never receives a value. */
  lemma UnsupportedKindsFail(kind: Kind, raw: string, lib: Library)
    requires kind.OtherInt64? || kind.OtherSlice? || kind.Unexpected?
    ensures ApplyValue(kind, raw, lib).Failure?
  {
  }

  /** Every integer kind accepts and rejects the same strings, with the same failure. */
  lemma IntegerKindsShareParse(k1: Kind, k2: Kind, raw: string, lib: Library)
    requires k1.IsInteger() && k2.IsInteger()
    ensures ApplyValue(k1, raw, lib).Success? <==> ApplyValue(k2, raw, lib).Success?
    ensures ApplyValue(k1, raw, lib).Failure? ==> ApplyValue(k1, raw, lib) == ApplyValue(k2, raw, lib)
  {
  }

  /**
   * An accepted integer string is stored congruent to its value modulo the
   * field's width, and exactly when the value fits the width; there is no
   * range check narrower than int64.
   */
  lemma IntegerStored(kind: Kind, raw: string, lib: Library)
    requires kind.IsInteger() && ApplyValue(kind, raw, lib).Success?
    ensures IsDecimalLiteral(raw) && MinInt64 <= LiteralValue(raw) <= MaxInt64
    ensures ApplyValue(kind, raw, lib).value.i == Wrap(LiteralValue(raw), kind.Width())
    ensures kind.Width().Holds(LiteralValue(raw)) ==> ApplyValue(kind, raw, lib).value == IntValue(LiteralValue(raw))
  {
  }

  /** The canonical decimal form of any value that fits the field is stored unchanged, for every integer kind. */
  lemma IntegerRoundTrip(kind: Kind, n: int, lib: Library)
    requires kind.IsInteger() && kind.Width().Holds(n)
    ensures ApplyValue(kind, FormatInt(n), lib) == Success(IntValue(n))
  {
    ParseFormatRoundTrip(n);
  }

  /** A `[]byte` field receives the base64 decoding, and a decode failure is an error. */
  lemma BytesDecoded(raw: string, lib: Library)
    ensures lib.decodeBase64(raw).Some? ==> ApplyValue(Bytes, raw, lib) == Success(BytesValue(lib.decodeBase64(raw).value))
    ensures lib.decodeBase64(raw).None? ==> ApplyValue(Bytes, raw, lib) == Failure(NotBase64)
  {
  }
}
