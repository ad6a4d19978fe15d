/** Decimal text of numbers, as Rust's `to_string` writes it and `str::parse::<u16>` reads it. */
module Numerals {
  import opened Wrappers

  predicate IsDigit(c: char) { '0' <= c <= '9' }

  predicate AllDigits(s: string) { forall k :: 0 <= k < |s| ==> IsDigit(s[k]) }

  function DigitValue(c: char): (d: nat)
    requires IsDigit(c)
    ensures d <= 9
  {
    (c as int - '0' as int) as nat
  }

  function DigitChar(d: nat): (c: char)
    requires d <= 9
    ensures IsDigit(c) && DigitValue(c) == d
  {
    ('0' as int + d) as char
  }

  /** The number a string of decimal digits denotes; leading zeros are allowed and add nothing. */
  function DigitsValue(s: string): nat
    requires AllDigits(s)
  {
    if |s| == 0 then 0 else DigitsValue(s[..|s| - 1]) * 10 + DigitValue(s[|s| - 1])
  }

  /** The decimal form of `n` with no leading zero, as `Display` for an unsigned integer writes it. */
  function NatToDecimal(n: nat): (s: string)
    ensures |s| >= 1 && AllDigits(s)
    ensures DigitsValue(s) == n
    ensures |s| > 1 ==> s[0] != '0'
    decreases n
  {
    if n < 10 then [DigitChar(n)]
    else
      var init := NatToDecimal(n / 10);
      var s := init + [DigitChar(n % 10)];
      assert s[..|s| - 1] == init;
      s
  }

  const U16Max: nat := 65535

  /**
   * `str::parse::<u16>`: an optional leading `+`, then at least one decimal digit, and a value that fits 16 bits.
   * A `-` sign, an empty string, a lone `+`, white space or any other character is an error.
   */
  function ParseU16(s: string): (r: Option<nat>)
    ensures r.Some? ==> r.value <= U16Max
    ensures |s| == 0 || s == "+" ==> r.None?
    ensures |s| > 0 && !IsDigit(s[0]) && s[0] != '+' ==> r.None?
    ensures |s| > 0 && s[0] != '+' ==>
      (r.Some? <==> AllDigits(s) && DigitsValue(s) <= U16Max) && (r.Some? ==> r.value == DigitsValue(s))
    ensures |s| > 1 && s[0] == '+' ==>
      (r.Some? <==> AllDigits(s[1..]) && DigitsValue(s[1..]) <= U16Max) &&
      (r.Some? ==> r.value == DigitsValue(s[1..]))
  {
    var digits := if |s| > 0 && s[0] == '+' then s[1..] else s;
    if |digits| > 0 && AllDigits(digits) && DigitsValue(digits) <= U16Max then Some(DigitsValue(digits)) else None
  }

  /** What `to_string` writes for a 16-bit value, `parse` reads back. */
  lemma ParseU16OfDecimal(n: nat)
    requires n <= U16Max
    ensures ParseU16(NatToDecimal(n)) == Some(n)
  {
    var s := NatToDecimal(n);
    assert s[0] != '+' by { assert IsDigit(s[0]); }
  }
}
