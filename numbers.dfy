/**
 * Decimal text and 32-bit integers as the JVM handles them: `Integer.parseInt`
 * and Kotlin's `String.toIntOrNull` (the same grammar, one throwing and one
 * returning null), and `Int.toString`.
 */
module Numbers {
  import opened Wrappers

  const MaxInt: int := 0x7fff_ffff
  const MinInt: int := -0x8000_0000

  predicate IsDigit(c: char) {
    '0' <= c <= '9'
  }

  predicate AllDigits(s: string) {
    forall i :: 0 <= i < |s| ==> IsDigit(s[i])
  }

  function DigitValue(c: char): nat
    requires IsDigit(c)
  {
    c as int - '0' as int
  }

  function DigitChar(d: nat): (c: char)
    requires d < 10
    ensures IsDigit(c) && DigitValue(c) == d
  {
    ('0' as int + d) as char
  }

  /** The value of a run of decimal digits, most significant first. */
  function DigitsValue(s: string): nat
    requires AllDigits(s)
  {
    if s == [] then 0 else DigitsValue(s[..|s| - 1]) * 10 + DigitValue(s[|s| - 1])
  }

  /** The shortest decimal digits of `n`, as `Int.toString` writes a non-negative value. */
  function DecimalNat(n: nat): (s: string)
    ensures |s| > 0 && AllDigits(s)
  {
    if n < 10 then [DigitChar(n)] else DecimalNat(n / 10) + [DigitChar(n % 10)]
  }

  /** `Int.toString`: a minus sign for negative values, then the digits. */
  function DecimalString(n: int): string {
    if n < 0 then "-" + DecimalNat(-n) else DecimalNat(n)
  }

  /** The factor a leading sign applies: -1 for `-`, 1 for `+`. */
  function SignOf(c: char): int {
    if c == '-' then -1 else 1
  }

  /**
   * `Integer.parseInt(s)` with `None` for a NumberFormatException: an optional
   * sign, at least one digit, nothing else, and a value in the 32-bit range.
   */
  function ParseInt(s: string): (r: Option<int>)
    ensures r.Some? ==> MinInt <= r.value <= MaxInt
    ensures AllDigits(s) && s != [] ==> (r.Some? <==> DigitsValue(s) <= MaxInt)
    ensures AllDigits(s) && s != [] && r.Some? ==> r.value == DigitsValue(s)
    ensures s == [] || (!AllDigits(s) && s[0] != '-' && s[0] != '+') ==> r.None?
    ensures |s| >= 2 && (s[0] == '-' || s[0] == '+') && AllDigits(s[1..]) ==>
      var v := SignOf(s[0]) * DigitsValue(s[1..]);
      (r.Some? <==> MinInt <= v <= MaxInt) && (r.Some? ==> r.value == v)
    ensures s != [] && (s[0] == '-' || s[0] == '+') && (|s| == 1 || !AllDigits(s[1..])) ==> r.None?
  {
    if |s| == 0 then None
    else if s[0] == '-' || s[0] == '+' then
      if |s| == 1 || !AllDigits(s[1..]) then None
      else
        var m: int := DigitsValue(s[1..]);
        var v: int := if s[0] == '-' then -m else m;
        if MinInt <= v <= MaxInt then Some(v) else None
    else if AllDigits(s) then
      var v := DigitsValue(s);
      if v <= MaxInt then Some(v) else None
    else None
  }

  lemma {:induction false} DigitsValueOfDecimal(n: nat)
    ensures DigitsValue(DecimalNat(n)) == n
  {
    if n >= 10 {
      var s := DecimalNat(n);
      DigitsValueOfDecimal(n / 10);
      assert s[..|s| - 1] == DecimalNat(n / 10);
    }
  }

  /** Printing a 32-bit value and parsing it back gives the value again. */
  lemma {:induction false} ParseDecimalRoundTrip(n: int)
    requires MinInt <= n <= MaxInt
    ensures ParseInt(DecimalString(n)) == Some(n)
  {
    if n < 0 {
      var s := DecimalString(n);
      DigitsValueOfDecimal(-n);
      assert s[1..] == DecimalNat(-n);
    } else {
      DigitsValueOfDecimal(n);
    }
  }
}
