/** Decimal notation of natural numbers. */
module Decimals {

  predicate IsDigit(c: char) {
    '0' <= c <= '9'
  }

  function DigitValue(c: char): nat
    requires IsDigit(c)
  {
    c as int - '0' as int
  }

  function Digit(d: nat): char
    requires d < 10
  {
    '0' + d as char
  }

  predicate Digits(s: string) {
    s != "" && forall i :: 0 <= i < |s| ==> IsDigit(s[i])
  }

  // Digits without a superfluous leading zero.
  predicate Plain(s: string) {
    Digits(s) && (|s| > 1 ==> s[0] != '0')
  }

  function Value(s: string): nat
    requires Digits(s)
  {
    var last := DigitValue(s[|s| - 1]);
    if |s| == 1 then last else 10 * Value(s[..|s| - 1]) + last
  }

  function Decimal(n: nat): string {
    if n < 10 then [Digit(n)] else Decimal(n / 10) + [Digit(n % 10)]
  }

  function Power10(k: nat): nat {
    if k == 0 then 1 else 10 * Power10(k - 1)
  }

  lemma {:induction false} DecimalIsPlain(n: nat)
    ensures Plain(Decimal(n)) && Value(Decimal(n)) == n && (Decimal(n)[0] == '0' <==> n == 0)
  {
    if n >= 10 {
      DecimalIsPlain(n / 10);
      var s := Decimal(n);
      assert s[..|s| - 1] == Decimal(n / 10);
    }
  }

  lemma {:induction false} PlainIsDecimal(s: string)
    requires Plain(s)
    ensures Decimal(Value(s)) == s
  {
    if |s| > 1 {
      var front := s[..|s| - 1];
      PlainIsDecimal(front);
      PositiveValue(front);
      assert Value(s) / 10 == Value(front) && Value(s) % 10 == DigitValue(s[|s| - 1]);
      assert s == front + [s[|s| - 1]];
    }
  }

  lemma {:induction false} PositiveValue(s: string)
    requires Plain(s) && s[0] != '0'
    ensures Value(s) > 0
  {
    if |s| > 1 {
      PositiveValue(s[..|s| - 1]);
    }
  }

  lemma DecimalIsInjective(m: nat, n: nat)
    requires Decimal(m) == Decimal(n)
    ensures m == n
  {
    DecimalIsPlain(m);
    DecimalIsPlain(n);
  }

  // At most k digits exactly when the value is below 10 to the k.
  lemma {:induction false} DigitCountIsMagnitude(s: string, k: nat)
    requires Plain(s) && k > 0
    ensures |s| <= k <==> Value(s) < Power10(k)
  {
    if |s| == 1 {
      PowerGrows(k);
    } else {
      var front := s[..|s| - 1];
      if k == 1 {
        PositiveValue(front);
      } else {
        DigitCountIsMagnitude(front, k - 1);
      }
    }
  }

  lemma {:induction false} PowerGrows(k: nat)
    requires k > 0
    ensures Power10(k) >= 10
  {
    if k > 1 {
      PowerGrows(k - 1);
    }
  }
}
