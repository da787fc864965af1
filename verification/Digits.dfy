/** Digits of numbers in text. */
module Digits {
  import opened Wrappers

  function HexDigit(n: nat): (c: char)
    requires n < 16
    ensures HexValue(c) == Some(n)
  {
    if n < 10 then '0' + n as char else 'A' + (n - 10) as char
  }

  function HexValue(c: char): (r: Option<nat>)
    ensures r.Some? ==> r.value < 16
  {
    if '0' <= c <= '9' then Some(c as nat - '0' as nat)
    else if 'A' <= c <= 'F' then Some(c as nat - 'A' as nat + 10)
    else if 'a' <= c <= 'f' then Some(c as nat - 'a' as nat + 10)
    else None
  }

  predicate Digit(c: char, base: nat) { HexValue(c).Some? && HexValue(c).value < base }

  function Value(digits: string, base: nat): nat
    requires forall c :: c in digits ==> Digit(c, base)
  {
    if digits == [] then 0
    else
      var last := digits[|digits| - 1];
      assert Digit(last, base);
      Value(digits[..|digits| - 1], base) * base + HexValue(last).value
  }
}
