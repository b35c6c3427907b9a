/**
 * The slice of Go's `strconv` and integer semantics the binder relies on:
 * `strconv.ParseInt(s, 10, 64)` (an optional sign followed by decimal digits,
 * the value within the signed 64-bit range) and two's-complement wrap-around,
 * which Go applies silently to int64 multiplication and to narrowing
 * conversions such as `int8(x)`.
 */
module StrConv {
  import opened Wrappers

  const MinInt64: int := -0x8000_0000_0000_0000
  const MaxInt64: int := 0x7fff_ffff_ffff_ffff
  const Two64: int := 0x1_0000_0000_0000_0000

  predicate IsDigit(c: char) {
    '0' <= c <= '9'
  }

  predicate AllDigits(s: string) {
    forall i :: 0 <= i < |s| ==> IsDigit(s[i])
  }

  function DigitValue(c: char): nat
    requires IsDigit(c)
  {
    c as int - '0' as int
  }

  /** The number a string of decimal digits denotes (leading zeros allowed). */
  function DigitsValue(s: string): nat
    requires AllDigits(s)
  {
    if s == [] then 0 else DigitsValue(s[..|s| - 1]) * 10 + DigitValue(s[|s| - 1])
  }

  /** The grammar `strconv.ParseInt` accepts in base 10: an optional `+` or `-`, then at least one digit. */
  predicate IsDecimalLiteral(s: string) {
    |s| > 0 && var body := Unsigned(s); |body| > 0 && AllDigits(body)
  }

  function Unsigned(s: string): string {
    if |s| > 0 && (s[0] == '+' || s[0] == '-') then s[1..] else s
  }

  /** The mathematical value of a decimal literal, before any range check. */
  function LiteralValue(s: string): int
    requires IsDecimalLiteral(s)
  {
    if s[0] == '-' then -(DigitsValue(s[1..]) as int) else DigitsValue(Unsigned(s))
  }

  lemma {:induction false} DigitsValuePrefix(s: string, k: nat)
    requires k <= |s| && AllDigits(s)
    ensures AllDigits(s[..k]) && DigitsValue(s[..k]) <= DigitsValue(s)
    decreases |s| - k
  {
    if k < |s| {
      DigitsValuePrefix(s, k + 1);
      assert s[..k + 1][..k] == s[..k];
    } else {
      assert s[..k] == s;
    }
  }

  /**
   * Left-to-right digit accumulation as `strconv` does it: `acc` is the value
   * of the digits already read, and the scan stops with no value at the first
   * non-digit or as soon as the value passes `limit`.
   */
  function ScanDigits(s: string, i: nat, acc: nat, limit: nat): (r: Option<nat>)
    requires i <= |s| && AllDigits(s[..i]) && acc == DigitsValue(s[..i])
    ensures r.Some? <==> AllDigits(s) && DigitsValue(s) <= limit
    ensures r.Some? ==> r.value == DigitsValue(s)
    decreases |s| - i
  {
    if i == |s| then
      assert s[..i] == s;
      if acc <= limit then Some(acc) else None
    else if !IsDigit(s[i]) then
      None
    else
      var next := acc * 10 + DigitValue(s[i]);
      assert s[..i + 1][..i] == s[..i];
      if next > limit then
        assert AllDigits(s) ==> DigitsValue(s) >= next by {
          if AllDigits(s) { DigitsValuePrefix(s, i + 1); }
        }
        None
      else
        ScanDigits(s, i + 1, next, limit)
  }

  /** `strconv.ParseInt(s, 10, 64)`; the syntax and range errors are not told apart. */
  function ParseInt64(s: string): (r: Option<int>)
    ensures r.Some? <==> IsDecimalLiteral(s) && MinInt64 <= LiteralValue(s) <= MaxInt64
    ensures r.Some? ==> r.value == LiteralValue(s)
  {
    var body := Unsigned(s);
    if body == [] then None
    else if s[0] == '-' then
      match ScanDigits(body, 0, 0, -MinInt64)
      case Some(m) => Some(-(m as int))
      case None => None
    else
      ScanDigits(body, 0, 0, MaxInt64)
  }

  /** The canonical decimal digits of a natural number. */
  function NatDigits(n: nat): (r: string)
    ensures |r| > 0 && AllDigits(r) && DigitsValue(r) == n
  {
    var last := ('0' as int + n % 10) as char;
    if n < 10 then [last]
    else
      var r := NatDigits(n / 10) + [last];
      assert r[..|r| - 1] == NatDigits(n / 10);
      r
  }

  /** `strconv.FormatInt(n, 10)`: the canonical decimal form, with `-` for negatives. */
  function FormatInt(n: int): string {
    if n < 0 then "-" + NatDigits(-n) else NatDigits(n)
  }

  /** Every int64 survives a trip through its canonical decimal form. */
  lemma {:induction false} ParseFormatRoundTrip(n: int)
    requires MinInt64 <= n <= MaxInt64
    ensures ParseInt64(FormatInt(n)) == Some(n)
  {
    var s := FormatInt(n);
    if n < 0 {
      assert s[1..] == NatDigits(-n);
    } else {
      assert s[0] != '-' && s[0] != '+';
    }
    assert IsDecimalLiteral(s) && LiteralValue(s) == n;
  }

  /** The widths of Go's signed integer types. */
  datatype Width = W8 | W16 | W32 | W64 {
    function Modulus(): nat {
      match this
      case W8 => 0x100
      case W16 => 0x1_0000
      case W32 => 0x1_0000_0000
      case W64 => Two64
    }

    predicate Holds(x: int) {
      -(Modulus() / 2) <= x < Modulus() / 2
    }
  }

  /**
   * The value a Go signed integer of width `w` holds for the mathematical
   * result `x`: the representative of `x` modulo 2^w in the signed range.
   * This is what an overflowing int64 operation or a narrowing conversion
   * such as `int8(x)` leaves behind.
   */
  function Wrap(x: int, w: Width): (r: int)
    ensures w.Holds(r)
    ensures (x - r) % w.Modulus() == 0
    ensures w.Holds(x) ==> r == x
  {
    match w
    case W8 => (x + 0x80) % 0x100 - 0x80
    case W16 => (x + 0x8000) % 0x1_0000 - 0x8000
    case W32 => (x + 0x8000_0000) % 0x1_0000_0000 - 0x8000_0000
    case W64 => (x + 0x8000_0000_0000_0000) % Two64 - 0x8000_0000_0000_0000
  }

  /** Go's int64 arithmetic result: the exact result wrapped modulo 2^64. */
  function Wrap64(x: int): (r: int)
    ensures MinInt64 <= r <= MaxInt64
    ensures (x - r) % Two64 == 0
    ensures MinInt64 <= x <= MaxInt64 ==> r == x
  {
    Wrap(x, W64)
  }
}
