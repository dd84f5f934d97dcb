/** Decimal numerals as `format!` writes them. */
module Decimal {

  predicate IsDigit(c: char) { '0' <= c <= '9' }

  function Digit(n: nat): char
    requires n < 10
  {
    (n as char) + '0'
  }

  function Digits(n: nat): string {
    if n < 10 then [Digit(n)] else Digits(n / 10) + [Digit(n % 10)]
  }

  /** The number a digit string denotes. */
  function Value(s: string): nat
    requires forall i :: 0 <= i < |s| ==> IsDigit(s[i])
  {
    if s == [] then 0
    else
      assert IsDigit(s[|s| - 1]);
      10 * Value(s[..|s| - 1]) + (s[|s| - 1] as int - '0' as int)
  }

  lemma {:induction false} DigitsValue(n: nat)
    ensures Digits(n) != [] && forall i :: 0 <= i < |Digits(n)| ==> IsDigit(Digits(n)[i])
    ensures Value(Digits(n)) == n
  {
    if n < 10 {
      assert Digits(n)[..0] == [];
    } else {
      DigitsValue(n / 10);
      assert Digits(n)[..|Digits(n)| - 1] == Digits(n / 10);
    }
  }

  function Pow10(k: nat): nat { if k == 0 then 1 else 10 * Pow10(k - 1) }

  lemma {:induction false} DigitsLength(n: nat, width: nat)
    requires width > 0
    ensures |Digits(n)| <= width <==> n < Pow10(width)
  {
    if n >= 10 && width > 1 {
      DigitsLength(n / 10, width - 1);
      assert n / 10 < Pow10(width - 1) <==> n < 10 * Pow10(width - 1);
    } else if n >= 10 {
      DigitsValue(n / 10);
      assert Pow10(0) == 1;
    } else if width > 1 {
      PowAtLeast(width);
    } else {
      assert Pow10(0) == 1;
    }
  }

  lemma {:induction false} PowAtLeast(k: nat)
    requires k > 0
    ensures Pow10(k) >= 10
  {
    if k == 1 {
      assert Pow10(0) == 1;
    } else {
      PowAtLeast(k - 1);
    }
  }

  /** `{n:0width}`. */
  function Padded(n: nat, width: nat): string {
    Zeros(if |Digits(n)| < width then width - |Digits(n)| else 0) + Digits(n)
  }

  function Zeros(k: nat): string { if k == 0 then "" else "0" + Zeros(k - 1) }

  lemma {:induction false} ZerosValue(k: nat, s: string)
    requires forall i :: 0 <= i < |s| ==> IsDigit(s[i])
    ensures |Zeros(k)| == k && (forall i :: 0 <= i < |Zeros(k) + s| ==> IsDigit((Zeros(k) + s)[i]))
    ensures Value(Zeros(k) + s) == Value(s)
    decreases k, |s|
  {
    if s == [] {
      if k == 0 {
        assert Zeros(k) + s == [];
      } else {
        ZerosValue(k - 1, s);
        assert Zeros(k) + s == ['0'] + (Zeros(k - 1) + s);
        LeadingZero(Zeros(k - 1) + s);
      }
    } else {
      var t := s[..|s| - 1];
      ZerosValue(k, t);
      assert (Zeros(k) + s)[..|Zeros(k) + s| - 1] == Zeros(k) + t;
      forall i | 0 <= i < |Zeros(k) + s| ensures IsDigit((Zeros(k) + s)[i]) {
        if i < |Zeros(k) + t| {
          assert (Zeros(k) + s)[i] == (Zeros(k) + t)[i];
        }
      }
    }
  }

  lemma {:induction false} LeadingZero(s: string)
    requires forall i :: 0 <= i < |s| ==> IsDigit(s[i])
    ensures Value(['0'] + s) == Value(s)
  {
    if s == [] {
      assert ['0'] + s == ['0'] && ['0'][..0] == [];
    } else {
      assert (['0'] + s)[..|s|] == ['0'] + s[..|s| - 1];
      LeadingZero(s[..|s| - 1]);
    }
  }

  /** A padded numeral has exactly the width asked for when the number fits, and reads back. */
  lemma PaddedReads(n: nat, width: nat)
    requires width > 0
    ensures |Padded(n, width)| == width <==> n < Pow10(width)
    ensures |Padded(n, width)| >= width
    ensures forall i :: 0 <= i < |Padded(n, width)| ==> IsDigit(Padded(n, width)[i])
    ensures Value(Padded(n, width)) == n
  {
    DigitsValue(n);
    DigitsLength(n, width);
    ZerosValue(if |Digits(n)| < width then width - |Digits(n)| else 0, Digits(n));
  }
}
