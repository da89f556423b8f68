/** Decimal text of integers: Rust's `Display` for `u64`/`i64` (used to turn a numeric
    market id into a string) and `FromStr` for unsigned integers (used for `--port`
    and `--scrape-interval`). */
module Decimal {
  import opened Wrappers

  const U64_LIMIT: int := 0x1_0000_0000_0000_0000   // 2^64: u64 holds 0 .. U64_LIMIT - 1
  const I64_MIN: int := -0x8000_0000_0000_0000      // -2^63
  const I64_LIMIT: int := 0x8000_0000_0000_0000     // 2^63: i64 holds I64_MIN .. I64_LIMIT - 1
  const U16_MAX: nat := 0xFFFF
  const U64_MAX: nat := 0xFFFF_FFFF_FFFF_FFFF

  predicate IsDigit(c: char) {
    '0' <= c <= '9'
  }

  predicate AllDigits(s: string) {
    forall i :: 0 <= i < |s| ==> IsDigit(s[i])
  }

  function DigitChar(d: nat): (c: char)
    requires d < 10
    ensures IsDigit(c) && c as int - '0' as int == d
  {
    (d + '0' as int) as char
  }

  function DigitValue(c: char): (d: nat)
    requires IsDigit(c)
    ensures d < 10
  {
    c as int - '0' as int
  }

  /** The number a string of decimal digits denotes (most significant digit first). */
  function DigitsValue(s: string): nat
    requires AllDigits(s)
  {
    if s == [] then 0 else DigitsValue(s[..|s| - 1]) * 10 + DigitValue(s[|s| - 1])
  }

  /** `n.to_string()` for an unsigned integer: digits only, no leading zero. */
  function NatToDecimal(n: nat): (s: string)
    ensures |s| >= 1 && AllDigits(s)
    ensures s[0] == '0' ==> n == 0 && s == "0"
    decreases n
  {
    if n < 10 then [DigitChar(n)] else NatToDecimal(n / 10) + [DigitChar(n % 10)]
  }

  lemma {:induction false} NatToDecimalValue(n: nat)
    ensures DigitsValue(NatToDecimal(n)) == n
    decreases n
  {
    var s := NatToDecimal(n);
    if n >= 10 {
      NatToDecimalValue(n / 10);
      assert s[..|s| - 1] == NatToDecimal(n / 10);
    }
  }

  /** `n.to_string()` for a signed integer: a leading '-' for negatives, then the magnitude. */
  function IntToDecimal(i: int): (s: string)
    ensures i >= 0 ==> AllDigits(s) && DigitsValue(s) == i
    ensures i < 0 ==> |s| >= 2 && s[0] == '-' && AllDigits(s[1..]) && DigitsValue(s[1..]) == -i
    ensures i >= 0 ==> |s| >= 1 && (s[0] == '0' ==> s == "0")
    ensures i < 0 ==> s[1] != '0'
  {
    if i >= 0 then
      NatToDecimalValue(i);
      NatToDecimal(i)
    else
      NatToDecimalValue(-i);
      assert ("-" + NatToDecimal(-i))[1..] == NatToDecimal(-i);
      "-" + NatToDecimal(-i)
  }

  lemma IntToDecimalInjective(i: int, j: int)
    requires IntToDecimal(i) == IntToDecimal(j)
    ensures i == j
  {
  }

  /** `s.parse::<uN>()` where `max` is uN::MAX: an optional leading '+', then at least one
      ASCII digit and nothing else; a value above `max` is an overflow error. A leading
      '-' is not accepted for an unsigned type. */
  function ParseUnsigned(s: string, max: nat): (r: Option<nat>)
    ensures r.Some? ==> r.value <= max
    ensures r.Some? ==> exists digits :: (s == digits || s == "+" + digits) && |digits| >= 1 && AllDigits(digits) && DigitsValue(digits) == r.value
  {
    if s == [] then None
    else
      var digits := if s[0] == '+' then s[1..] else s;
      assert s == digits || s == "+" + digits;
      if digits == [] || !AllDigits(digits) then None
      else if DigitsValue(digits) > max then None
      else Some(DigitsValue(digits))
  }

  lemma ParseUnsignedRoundTrip(n: nat, max: nat)
    requires n <= max
    ensures ParseUnsigned(NatToDecimal(n), max) == Some(n)
    ensures ParseUnsigned("+" + NatToDecimal(n), max) == Some(n)
  {
    NatToDecimalValue(n);
    assert ("+" + NatToDecimal(n))[1..] == NatToDecimal(n);
  }

  /** Every digit string within the bound is accepted with its value, whatever its
      leading zeros, and so is the same string after a '+'. */
  lemma ParseUnsignedAccepts(digits: string, max: nat)
    requires |digits| >= 1 && AllDigits(digits) && DigitsValue(digits) <= max
    ensures ParseUnsigned(digits, max) == Some(DigitsValue(digits))
    ensures ParseUnsigned("+" + digits, max) == Some(DigitsValue(digits))
  {
    assert ("+" + digits)[1..] == digits;
  }

  lemma LeadingZeroPortExample()
    ensures ParseUnsigned("080", U16_MAX) == Some(80)
    ensures ParseUnsigned("+080", U16_MAX) == Some(80)
    ensures ParseUnsigned("00", U16_MAX) == Some(0)
  {
    assert "080"[..2] == "08" && "08"[..1] == "0";
    ParseUnsignedAccepts("080", U16_MAX);
    assert "+080" == "+" + "080";
    ParseUnsignedAccepts("00", U16_MAX);
  }

  lemma ParseUnsignedOverflow(n: nat, max: nat)
    requires n > max
    ensures ParseUnsigned(NatToDecimal(n), max) == None
  {
    NatToDecimalValue(n);
  }

  lemma ParseUnsignedRejectsSign(s: string, max: nat)
    requires |s| >= 1 && s[0] == '-'
    ensures ParseUnsigned(s, max) == None
  {
    assert !IsDigit(s[0]);
  }
}
