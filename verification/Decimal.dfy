/** Decimal text of integers, as Rust's formatter writes them. */
module Decimal {
  const DIGITS := "0123456789"

  function Natural(n: nat): (text: string)
    ensures |text| > 0
  {
    if n < 10 then [DIGITS[n]] else Natural(n / 10) + [DIGITS[n % 10]]
  }

  function Integer(n: int): string {
    if n < 0 then "-" + Natural(-n) else Natural(n)
  }

  function DigitValue(c: char): nat {
    if '0' <= c <= '9' then (c - '0') as nat else 0
  }

  function Value(text: string): nat {
    if text == "" then 0 else 10 * Value(text[..|text| - 1]) + DigitValue(text[|text| - 1])
  }

  lemma DigitReads(d: nat)
    requires d < 10
    ensures DigitValue(DIGITS[d]) == d
  {
  }

  /** The text determines the number. */
  lemma {:induction false} NaturalReads(n: nat)
    ensures Value(Natural(n)) == n
  {
    var last := n % 10;
    DigitReads(last);
    if n >= 10 {
      NaturalReads(n / 10);
      assert Natural(n)[..|Natural(n)| - 1] == Natural(n / 10);
    } else {
      assert Natural(n)[..0] == "";
    }
  }

  lemma NaturalIsInjective(m: nat, n: nat)
    requires Natural(m) == Natural(n)
    ensures m == n
  {
    NaturalReads(m);
    NaturalReads(n);
  }

  predicate IsDigit(c: char) {
    '0' <= c <= '9'
  }

  /** Digits only, and no leading zero but in "0". */
  predicate IsNumeral(text: string) {
    && text != "" && (forall i :: 0 <= i < |text| ==> IsDigit(text[i]))
    && (text[0] == '0' ==> |text| == 1)
  }

  lemma {:induction false} NaturalIsNumeral(n: nat)
    ensures IsNumeral(Natural(n)) && (Natural(n)[0] == '0' ==> n == 0)
  {
    if n >= 10 {
      NaturalIsNumeral(n / 10);
    }
  }

  /** The text of a natural number starts with a digit. */
  lemma {:induction false} NaturalStartsWithDigit(n: nat)
    ensures IsDigit(Natural(n)[0])
  {
    if n >= 10 {
      NaturalStartsWithDigit(n / 10);
    }
  }

  lemma IntegerIsInjective(m: int, n: int)
    requires Integer(m) == Integer(n)
    ensures m == n
  {
    if m < 0 && n < 0 {
      assert Natural(-m) == Integer(m)[1..] == Integer(n)[1..] == Natural(-n);
      NaturalIsInjective(-m, -n);
    } else if m >= 0 && n >= 0 {
      NaturalIsInjective(m, n);
    } else {
      NaturalStartsWithDigit(if m >= 0 then m else n);
    }
  }

  /** The text of a number starts with a digit or a minus sign. */
  lemma IntegerStart(n: int)
    ensures |Integer(n)| > 0 && (IsDigit(Integer(n)[0]) || Integer(n)[0] == '-')
  {
    if n >= 0 {
      NaturalStartsWithDigit(n);
    }
  }
}
