/** Decimal numerals. */
module Decimal {
  predicate IsDigit(c: char) {
    '0' <= c <= '9'
  }

  function DigitChar(d: int): (c: char)
    requires 0 <= d < 10
    ensures IsDigit(c)
  {
    ('0' as int + d) as char
  }

  function Numeral(n: nat): (text: string)
    ensures text != "" && forall c :: c in text ==> IsDigit(c)
  {
    if n < 10 then [DigitChar(n)] else Numeral(n / 10) + [DigitChar(n % 10)]
  }

  /** The number a text of digits stands for. */
  function Value(text: string): int {
    if text == "" then 0 else 10 * Value(text[..|text| - 1]) + (text[|text| - 1] as int - '0' as int)
  }

  lemma {:induction false} NumeralMeans(n: nat)
    ensures Value(Numeral(n)) == n
    ensures n > 0 ==> Numeral(n)[0] != '0'
  {
    var last := |Numeral(n)| - 1;
    if n < 10 {
      assert Numeral(n)[..0] == "";
    } else {
      NumeralMeans(n / 10);
      assert Numeral(n)[..last] == Numeral(n / 10);
    }
  }

  lemma NumeralInjective(a: nat, b: nat)
    requires Numeral(a) == Numeral(b)
    ensures a == b
  {
    NumeralMeans(a);
    NumeralMeans(b);
  }

  function Power10(k: nat): nat {
    if k == 0 then 1 else 10 * Power10(k - 1)
  }

  lemma {:induction false} NumeralLength(n: nat, k: nat)
    requires n < Power10(k) && k > 0
    ensures |Numeral(n)| <= k
  {
    if n >= 10 {
      assert k > 1 by {
        assert Power10(1) == 10;
      }
      NumeralLength(n / 10, k - 1);
    }
  }
}
