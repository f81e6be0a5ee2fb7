/** Numbers written in decimal. */
module Decimal {
  import opened Wrappers

  predicate IsDigit(c: char) { '0' <= c <= '9' }

  predicate AllDigits(s: string) { forall k :: 0 <= k < |s| ==> IsDigit(s[k]) }

  function DigitValue(c: char): (d: nat)
    requires IsDigit(c)
    ensures d < 10
  {
    c as int - '0' as int
  }

  function Digit(d: nat): (c: char)
    requires d < 10
    ensures IsDigit(c) && DigitValue(c) == d
  {
    '0' + d as char
  }

  /** The number a string of digits denotes. */
  function Value(s: string): nat
    requires AllDigits(s)
  {
    if s == "" then 0 else 10 * Value(s[..|s| - 1]) + DigitValue(s[|s| - 1])
  }

  /** A number without leading zeros. */
  function Written(n: nat): (s: string)
    ensures s != "" && AllDigits(s)
  {
    if n < 10 then [Digit(n)] else Written(n / 10) + [Digit(n % 10)]
  }

  lemma {:induction false} ValueOfWritten(n: nat)
    ensures Value(Written(n)) == n
  {
    if n >= 10 {
      var s := Written(n);
      assert s[..|s| - 1] == Written(n / 10);
      ValueOfWritten(n / 10);
    } else {
      assert Written(n)[..0] == "";
    }
  }

  lemma WrittenDetermines(m: nat, n: nat)
    requires Written(m) == Written(n)
    ensures m == n
  {
    ValueOfWritten(m);
    ValueOfWritten(n);
  }

  /** strconv.Atoi on a 64-bit int: an optional sign, then digits, in range. */
  function Atoi(s: string): Option<int> {
    var signed := s != "" && (s[0] == '-' || s[0] == '+');
    var digits := if signed then s[1..] else s;
    if digits == "" || !AllDigits(digits) then None
    else
      var n: int := if signed && s[0] == '-' then 0 - Value(digits) else Value(digits);
      if -0x8000_0000_0000_0000 <= n <= 0x7FFF_FFFF_FFFF_FFFF then Some(n) else None
  }

  lemma AtoiOfWritten(n: nat)
    requires n <= 0x7FFF_FFFF_FFFF_FFFF
    ensures Atoi(Written(n)) == Some(n)
  {
    ValueOfWritten(n);
    assert IsDigit(Written(n)[0]);
  }
}
