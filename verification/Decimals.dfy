/** Decimal numerals. */
module Decimals {

  predicate IsDigit(c: char) {
    '0' <= c <= '9'
  }

  predicate AllDigits(s: string) {
    forall i | 0 <= i < |s| :: IsDigit(s[i])
  }

  function DigitOf(n: nat): (c: char)
    requires n < 10
    ensures IsDigit(c) && c as int - '0' as int == n
  {
    ('0' as int + n) as char
  }

  /** The usual way to write a number: no leading zero, `0` for zero. */
  function Decimal(n: nat): (r: string)
    ensures r != "" && AllDigits(r)
  {
    if n < 10 then [DigitOf(n)] else Decimal(n / 10) + [DigitOf(n % 10)]
  }

  /** What a string of digits stands for. */
  function Value(s: string): nat
    requires AllDigits(s)
  {
    if s == "" then 0 else 10 * Value(s[..|s| - 1]) + (s[|s| - 1] as int - '0' as int)
  }

  lemma {:induction false} ValueOfDecimal(n: nat)
    ensures Value(Decimal(n)) == n
  {
    if n >= 10 {
      ValueOfDecimal(n / 10);
      assert Decimal(n)[..|Decimal(n)| - 1] == Decimal(n / 10);
    } else {
      assert Decimal(n)[..0] == "";
    }
  }

  /** No leading zero, unless it is the only digit. */
  predicate Proper(s: string) {
    s != "" && AllDigits(s) && (s[0] == '0' ==> |s| == 1)
  }

  lemma {:induction false} ProperIsPositive(s: string)
    requires Proper(s) && |s| > 1
    ensures Value(s) >= 10
    decreases |s|
  {
    var init := s[..|s| - 1];
    if |init| > 1 {
      ProperIsPositive(init);
    } else {
      assert init[..0] == "";
    }
  }

  /** Writing what a proper numeral stands for gives the numeral back. */
  lemma {:induction false} DecimalOfValue(s: string)
    requires Proper(s)
    ensures Decimal(Value(s)) == s
    decreases |s|
  {
    var init, last := s[..|s| - 1], s[|s| - 1];
    if |s| == 1 {
      assert init == "";
    } else {
      ProperIsPositive(s);
      DecimalOfValue(init);
      assert Value(s) / 10 == Value(init);
      assert s == init + [last];
    }
  }

  lemma {:induction false} DecimalIsProper(n: nat)
    ensures Proper(Decimal(n)) && (n > 0 ==> Decimal(n)[0] != '0')
  {
    if n >= 10 { DecimalIsProper(n / 10); }
  }

  /** Four digits or fewer write exactly the numbers up to 9999. */
  lemma LengthBounds(n: nat)
    ensures |Decimal(n)| <= 4 <==> n <= 9999
  {
    Shorter(n);
    Shorter(n / 10);
    Shorter(n / 100);
    assert n / 10 / 10 == n / 100 && n / 100 / 10 == n / 1000;
  }

  lemma Shorter(n: nat)
    ensures |Decimal(n)| == if n < 10 then 1 else |Decimal(n / 10)| + 1
  {
  }
}
