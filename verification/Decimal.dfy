/** Decimal notation of integers, and its inverse. */
module Decimal {
  import opened JsMap

  predicate IsDigit(c: char) {
    '0' <= c <= '9'
  }

  predicate AllDigits(s: string) {
    forall i | 0 <= i < |s| :: IsDigit(s[i])
  }

  function DigitChar(d: nat): char
    requires d < 10
  {
    ('0' as int + d) as char
  }

  function DigitValue(c: char): nat
    requires IsDigit(c)
  {
    c as int - '0' as int
  }

  function Digits(n: nat): string {
    if n < 10 then [DigitChar(n)] else Digits(n / 10) + [DigitChar(n % 10)]
  }

  /** The decimal string of an integer. */
  function ToString(n: int): string {
    if n < 0 then "-" + Digits(-n) else Digits(n)
  }

  function Value(s: string): nat
    requires AllDigits(s)
  {
    if s == "" then 0 else Value(s[..|s| - 1]) * 10 + DigitValue(s[|s| - 1])
  }

  /** Reads an optionally signed run of digits. */
  function Parse(s: string): Option<int> {
    if s != "" && AllDigits(s) then Some(Value(s))
    else if |s| > 1 && s[0] == '-' && AllDigits(s[1..]) then Some(0 - Value(s[1..]))
    else None
  }

  lemma {:induction false} DigitsValue(n: nat)
    ensures Digits(n) != "" && AllDigits(Digits(n)) && Value(Digits(n)) == n
    ensures |Digits(n)| == 1 || Digits(n)[0] != '0'
  {
    if n < 10 {
      assert [DigitChar(n)][..0] == "";
    } else {
      DigitsValue(n / 10);
      assert Digits(n)[..|Digits(n)| - 1] == Digits(n / 10);
      if |Digits(n / 10)| == 1 {
        assert n / 10 < 10;
      }
    }
  }

  lemma {:induction false} ParseToString(n: int)
    ensures Parse(ToString(n)) == Some(n)
  {
    if n < 0 {
      DigitsValue(-n);
      assert ToString(n)[0] == '-' && ToString(n)[1..] == Digits(-n);
    } else {
      DigitsValue(n);
    }
  }

  lemma {:induction false} ToStringInjective(m: int, n: int)
    requires ToString(m) == ToString(n)
    ensures m == n
  {
    ParseToString(m);
    ParseToString(n);
  }

  /** Digits come in order of their place, the largest first, with a sign only for negative numbers. */
  lemma {:induction false} DigitsInOrder()
    ensures ToString(0) == "0" && ToString(1234567890) == "1234567890" && ToString(-70) == "-70"
  {
    assert Digits(7) == "7" && Digits(70) == "70";
    assert Digits(1) == "1" && Digits(12) == "12" && Digits(123) == "123" && Digits(1234) == "1234";
    assert Digits(12345) == "12345" && Digits(123456) == "123456" && Digits(1234567) == "1234567";
    assert Digits(12345678) == "12345678" && Digits(123456789) == "123456789";
  }
}
