/** Decimal numerals as text. */
module Decimals {

  predicate IsDigit(c: char) { '0' <= c <= '9' }

  function DecimalDigit(d: nat): (c: char)
    requires d < 10
    ensures IsDigit(c) && c as int - '0' as int == d
  {
    (d + '0' as int) as char
  }

  function Decimal(k: nat): (s: string)
    ensures |s| > 0
    ensures forall i :: 0 <= i < |s| ==> IsDigit(s[i])
  {
    if k < 10 then [DecimalDigit(k)] else Decimal(k / 10) + [DecimalDigit(k % 10)]
  }
}
