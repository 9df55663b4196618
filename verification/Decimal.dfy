/** Decimal numbers, and numbers padded to three digits. */
module Decimal {

  predicate IsDigit(c: char) { '0' <= c <= '9' }

  function Value(c: char): nat
    requires IsDigit(c)
  {
    (c as int) - ('0' as int)
  }

  function Digits(n: nat): (s: string)
    ensures s != "" && forall k :: 0 <= k < |s| ==> IsDigit(s[k])
  {
    if n < 10 then ['0' + n as char] else Digits(n / 10) + ['0' + (n % 10) as char]
  }

  /** `{n:03d}`. */
  function Pad3(n: nat): (s: string)
    ensures |s| >= 3 && forall k :: 0 <= k < |s| ==> IsDigit(s[k])
  {
    var d := Digits(n);
    if |d| == 1 then "00" + d else if |d| == 2 then "0" + d else d
  }

  lemma {:induction false} DigitsInjective(a: nat, b: nat)
    requires Digits(a) == Digits(b)
    ensures a == b
  {
    var s := Digits(a);
    if a < 10 && b < 10 {
      assert s[0] == '0' + a as char && s[0] == '0' + b as char;
    } else if a >= 10 && b >= 10 {
      assert Digits(a)[..|s| - 1] == Digits(a / 10) && Digits(b)[..|s| - 1] == Digits(b / 10);
      assert s[|s| - 1] == '0' + (a % 10) as char && s[|s| - 1] == '0' + (b % 10) as char;
      DigitsInjective(a / 10, b / 10);
    }
  }

  lemma {:induction false} NoLeadingZero(n: nat)
    requires n > 0
    ensures Digits(n)[0] != '0'
  {
    if n >= 10 { NoLeadingZero(n / 10); }
  }

  lemma PadInjective(a: nat, b: nat)
    requires a > 0 && b > 0 && Pad3(a) == Pad3(b)
    ensures a == b
  {
    NoLeadingZero(a);
    NoLeadingZero(b);
    var da, db := Digits(a), Digits(b);
    var pa, pb := |Pad3(a)| - |da|, |Pad3(b)| - |db|;
    assert Pad3(a)[pa] == da[0] && Pad3(b)[pb] == db[0];
    assert forall k :: 0 <= k < pa ==> Pad3(a)[k] == '0';
    assert forall k :: 0 <= k < pb ==> Pad3(b)[k] == '0';
    assert pa == pb;
    assert Pad3(a)[pa..] == da && Pad3(b)[pb..] == db;
    DigitsInjective(a, b);
  }

  lemma PadDigits(n: nat)
    ensures n <= 999 ==> |Pad3(n)| == 3 && n == 100 * Value(Pad3(n)[0]) + 10 * Value(Pad3(n)[1]) + Value(Pad3(n)[2])
    ensures n > 999 ==> |Pad3(n)| > 3
  {
    var d := Digits(n);
    if n < 10 {
      assert d == ['0' + n as char];
    } else if n < 100 {
      assert Digits(n / 10) == ['0' + (n / 10) as char];
      assert d == ['0' + (n / 10) as char, '0' + (n % 10) as char];
    } else if n < 1000 {
      assert Digits(n / 100) == ['0' + (n / 100) as char];
      assert n / 10 / 10 == n / 100;
      assert Digits(n / 10) == ['0' + (n / 100) as char, '0' + (n / 10 % 10) as char];
      assert d == ['0' + (n / 100) as char, '0' + (n / 10 % 10) as char, '0' + (n % 10) as char];
    } else {
      ManyDigits(n);
    }
  }

  lemma ManyDigits(n: nat)
    requires n > 999
    ensures |Digits(n)| > 3
  {
    assert |Digits(n)| == |Digits(n / 10)| + 1;
    assert |Digits(n / 10)| == |Digits(n / 10 / 10)| + 1;
    assert |Digits(n / 10 / 10)| == |Digits(n / 10 / 10 / 10)| + 1;
  }
}
