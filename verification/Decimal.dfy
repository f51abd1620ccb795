/** Decimal numerals as strconv.Itoa and strconv.Atoi read and write them. */
module Decimal {
  import opened Wrappers

  const MAX_INT64 := 0x7FFF_FFFF_FFFF_FFFF
  const MIN_INT64 := -0x8000_0000_0000_0000

  function Digit(d: nat): (c: char)
    requires d < 10
    ensures IsDigit(c) && DigitValue(c) == d
  {
    '0' + d as char
  }

  predicate IsDigit(c: char) { '0' <= c <= '9' }

  function DigitValue(c: char): nat
    requires IsDigit(c)
  {
    c as int - '0' as int
  }

  predicate AllDigits(s: string) { forall c | c in s :: IsDigit(c) }

  /** strconv.Itoa on the non-negative numbers. */
  function Itoa(n: nat): (s: string)
    ensures |s| >= 1 && AllDigits(s)
  {
    if n < 10 then [Digit(n)] else Itoa(n / 10) + [Digit(n % 10)]
  }

  /** The number a string of digits denotes. */
  function Value(s: string): nat
    requires AllDigits(s)
  {
    if s == "" then 0 else 10 * Value(s[..|s| - 1]) + DigitValue(s[|s| - 1])
  }

  lemma {:induction false} ValueOfItoa(n: nat)
    ensures Value(Itoa(n)) == n
    ensures n > 0 ==> Itoa(n)[0] != '0'
  {
    var s := Itoa(n);
    if n < 10 {
      assert s[..|s| - 1] == "";
    } else {
      ValueOfItoa(n / 10);
      assert s[..|s| - 1] == Itoa(n / 10);
    }
  }

  lemma ItoaInjective(m: nat, n: nat)
    requires Itoa(m) == Itoa(n)
    ensures m == n
  {
    ValueOfItoa(m);
    ValueOfItoa(n);
  }

  /** strconv.FormatInt(n, 10). */
  function FormatInt(n: int): string {
    if n < 0 then "-" + Itoa(-n) else Itoa(n)
  }

  /** strconv.Atoi on a 64-bit platform: optional sign, digits, range check. */
  function Atoi(s: string): Option<int> {
    var negative := s != "" && s[0] == '-';
    var digits := if s != "" && (s[0] == '-' || s[0] == '+') then s[1..] else s;
    if digits == "" || !AllDigits(digits) then None
    else
      var n: int := if negative then 0 - Value(digits) else Value(digits);
      if MIN_INT64 <= n <= MAX_INT64 then Some(n) else None
  }

  /** Atoi undoes FormatInt on the whole 64-bit range. */
  lemma AtoiOfFormatInt(n: int)
    requires MIN_INT64 <= n <= MAX_INT64
    ensures Atoi(FormatInt(n)) == Some(n)
  {
    if n < 0 {
      ValueOfItoa(-n);
      assert FormatInt(n)[1..] == Itoa(-n);
    } else {
      ValueOfItoa(n);
      assert IsDigit(Itoa(n)[0]);
    }
  }

  /** Which texts parse: at most one sign, then one digit or more and nothing else, if the number fits. */
  lemma AtoiMeans(s: string, digits: string)
    requires digits == if s != "" && (s[0] == '-' || s[0] == '+') then s[1..] else s
    ensures Atoi(s).Some? ==> digits != "" && forall i | 0 <= i < |digits| :: '0' <= digits[i] <= '9'
    ensures digits != "" && AllDigits(digits) ==>
              Atoi(s) == if s[0] == '-' then (if Value(digits) <= 0x8000_0000_0000_0000 then Some(0 - Value(digits)) else None)
                         else (if Value(digits) <= 0x7FFF_FFFF_FFFF_FFFF then Some(Value(digits)) else None)
  {
    if Atoi(s).Some? {
      forall i | 0 <= i < |digits|
        ensures '0' <= digits[i] <= '9'
      {
        assert digits[i] in digits;
      }
    }
  }

  /** Positional value: one more digit. */
  lemma ValueMore(s: string, d: nat)
    requires AllDigits(s) && d < 10
    ensures Value(s + ['0' + d as char]) == 10 * Value(s) + d
  {
    assert (s + ['0' + d as char])[..|s|] == s;
  }
}
