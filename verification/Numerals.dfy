/** Decimal numerals as strconv writes and reads them. */
module Numerals {
  import opened Prelude

  function Digit(n: nat): (c: char)
    requires n < 10
    ensures IsDigit(c) && DigitValue(c) == n
  {
    '0' + n as char
  }

  predicate IsDigit(c: char) { '0' <= c <= '9' }

  function DigitValue(c: char): (n: nat)
    requires IsDigit(c)
    ensures n < 10
  {
    (c - '0') as nat
  }

  predicate Digits(s: string) { forall i :: 0 <= i < |s| ==> IsDigit(s[i]) }

  /** strconv.Itoa of a natural. */
  function Itoa(n: nat): (s: string)
    ensures s != "" && Digits(s)
  {
    if n < 10 then [Digit(n)] else Itoa(n / 10) + [Digit(n % 10)]
  }

  function Value(s: string): nat
    requires Digits(s)
  {
    if s == "" then 0 else Value(s[..|s| - 1]) * 10 + DigitValue(s[|s| - 1])
  }

  const MAX_INT: nat := 0x7fff_ffff_ffff_ffff

  /** strconv.Atoi of digits: a numeral past the integer range is an error. */
  function Atoi(s: string): Option<nat>
    requires Digits(s)
  {
    if Value(s) > MAX_INT then None else Some(Value(s))
  }

  lemma {:induction false} ValueOfItoa(n: nat)
    ensures Value(Itoa(n)) == n
  {
    var s := Itoa(n);
    if n >= 10 {
      ValueOfItoa(n / 10);
      assert s[..|s| - 1] == Itoa(n / 10) && s[|s| - 1] == Digit(n % 10);
    } else {
      assert s[..0] == "" && s[0] == Digit(n);
    }
  }

  lemma ItoaInjective(a: nat, b: nat)
    requires Itoa(a) == Itoa(b)
    ensures a == b
  {
    ValueOfItoa(a);
    ValueOfItoa(b);
  }
}
