/** Decimal numerals as strconv prints and reads them. */
module Decimal {
  import opened Basics

  function Digit(d: nat): char
    requires d < 10
  {
    '0' + d as char
  }

  predicate IsDigit(c: char) {
    '0' <= c <= '9'
  }

  function DigitValue(c: char): (d: nat)
    requires IsDigit(c)
    ensures d < 10 && Digit(d) == c
  {
    c as int - '0' as int
  }

  /** strconv.Itoa for numbers that are not negative. */
  function Itoa(n: nat): (s: string)
    ensures |s| > 0 && forall i :: 0 <= i < |s| ==> IsDigit(s[i])
  {
    if n < 10 then [Digit(n)] else Itoa(n / 10) + [Digit(n % 10)]
  }

  /** The digits are the usual ones, most significant first. */
  lemma ItoaText(n: nat)
    ensures n < 10 ==> Itoa(n) == ["0123456789"[n]]
    ensures n >= 10 ==> Itoa(n) == Itoa(n / 10) + ["0123456789"[n % 10]]
  {
    assert forall d :: 0 <= d < 10 ==> "0123456789"[d] as int == '0' as int + d;
  }

  function DigitsValue(s: string): nat
    requires forall i :: 0 <= i < |s| ==> IsDigit(s[i])
  {
    if s == "" then 0
    else DigitsValue(s[..|s| - 1]) * 10 + DigitValue(s[|s| - 1])
  }

  /** strconv.Atoi for texts without a sign. */
  function Atoi(s: string): Option<nat> {
    if s != "" && forall i :: 0 <= i < |s| ==> IsDigit(s[i]) then Some(DigitsValue(s)) else None
  }

  lemma {:induction false} AtoiItoa(n: nat)
    ensures Atoi(Itoa(n)) == Some(n)
  {
    if n < 10 {
      var s := Itoa(n);
      assert s[..|s| - 1] == "" && DigitsValue("") == 0;
      assert DigitsValue(s) == DigitValue(s[0]);
    } else {
      AtoiItoa(n / 10);
      assert Itoa(n)[..|Itoa(n)| - 1] == Itoa(n / 10);
    }
  }

  lemma ItoaInjective(m: nat, n: nat)
    requires Itoa(m) == Itoa(n)
    ensures m == n
  {
    AtoiItoa(m);
    AtoiItoa(n);
  }

  lemma ItoaLength(n: nat)
    ensures n < 10 <==> |Itoa(n)| == 1
    ensures n < 100 <==> |Itoa(n)| <= 2
    ensures n < 1000 <==> |Itoa(n)| <= 3
  {
    if n >= 10 {
      assert |Itoa(n)| == |Itoa(n / 10)| + 1;
      if n >= 100 {
        assert |Itoa(n / 10)| == |Itoa(n / 10 / 10)| + 1;
        if n >= 1000 {
          assert |Itoa(n / 10 / 10)| == |Itoa(n / 10 / 10 / 10)| + 1;
        }
      }
    }
  }
}
