/** Decimal numerals and powers of ten. */
module Numerals {

  predicate IsDigit(c: char) { '0' <= c <= '9' }

  predicate AllDigits(s: string) { forall i :: 0 <= i < |s| ==> IsDigit(s[i]) }

  function DigitChar(d: nat): char
    requires d < 10
  {
    '0' + d as char
  }

  /** The integer a digit string denotes. */
  function IntOf(t: string): nat
    requires AllDigits(t)
  {
    if t == "" then 0 else 10 * IntOf(t[..|t| - 1]) + (t[|t| - 1] as int - '0' as int)
  }

  /** The shortest numeral of n. */
  function Digits(n: nat): (t: string)
    ensures AllDigits(t) && t != ""
  {
    if n < 10 then [DigitChar(n)] else Digits(n / 10) + [DigitChar(n % 10)]
  }

  function Zeros(k: nat): (t: string)
    ensures AllDigits(t) && |t| == k
  {
    if k == 0 then "" else Zeros(k - 1) + "0"
  }

  /** n times ten to the k. */
  function Shift(n: nat, k: nat): nat { if k == 0 then n else 10 * Shift(n, k - 1) }

  lemma {:induction false} IntOfAppend(t: string, c: char)
    requires AllDigits(t) && IsDigit(c)
    ensures AllDigits(t + [c]) && IntOf(t + [c]) == 10 * IntOf(t) + (c as int - '0' as int)
  {
    assert (t + [c])[..|t|] == t;
  }

  lemma {:induction false} DigitsDenote(n: nat)
    ensures IntOf(Digits(n)) == n
  {
    if n < 10 {
      IntOfAppend("", DigitChar(n));
      assert "" + [DigitChar(n)] == Digits(n);
    } else {
      DigitsDenote(n / 10);
      IntOfAppend(Digits(n / 10), DigitChar(n % 10));
    }
  }

  lemma {:induction false} ShiftAdds(n: nat, a: nat, b: nat)
    ensures Shift(Shift(n, a), b) == Shift(n, a + b)
  {
    if b > 0 {
      ShiftAdds(n, a, b - 1);
    }
  }

  lemma {:induction false} ShiftMonotone(m: nat, n: nat, a: nat, b: nat)
    requires m <= n && a <= b
    ensures Shift(m, a) <= Shift(n, b)
  {
    if a < b {
      ShiftMonotone(m, n, a, b - 1);
    } else if b > 0 {
      ShiftMonotone(m, n, a - 1, b - 1);
    }
  }

  /** A numeral with k digits denotes at least ten to the k - 1 and less than ten to the k. */
  lemma {:induction false} DigitsLength(n: nat)
    ensures n < Shift(1, |Digits(n)|)
    ensures n >= 1 ==> Shift(1, |Digits(n)| - 1) <= n
  {
    if n >= 10 {
      DigitsLength(n / 10);
    }
  }

  /** Appending zeros multiplies by a power of ten. */
  lemma {:induction false} IntOfZeros(t: string, k: nat)
    requires AllDigits(t)
    ensures IntOf(t + Zeros(k)) == Shift(IntOf(t), k)
  {
    if k == 0 {
      assert t + Zeros(0) == t;
    } else {
      IntOfZeros(t, k - 1);
      IntOfAppend(t + Zeros(k - 1), '0');
      assert t + Zeros(k) == (t + Zeros(k - 1)) + "0";
    }
  }

  lemma {:induction false} ShiftPositive(n: nat, k: nat)
    requires n >= 1
    ensures Shift(n, k) >= 1
  {
    if k > 0 {
      ShiftPositive(n, k - 1);
    }
  }

  lemma {:induction false} DigitsOfTenfold(m: nat)
    requires m >= 1
    ensures Digits(10 * m) == Digits(m) + "0"
  {
    assert (10 * m) / 10 == m && (10 * m) % 10 == 0;
  }

  lemma {:induction false} DigitsOfShift(n: nat, k: nat)
    requires n >= 1
    ensures Digits(Shift(n, k)) == Digits(n) + Zeros(k)
  {
    if k == 0 {
      assert Digits(n) + Zeros(0) == Digits(n);
    } else {
      DigitsOfShift(n, k - 1);
      ShiftPositive(n, k - 1);
      DigitsOfTenfold(Shift(n, k - 1));
      assert Digits(n) + Zeros(k) == (Digits(n) + Zeros(k - 1)) + "0";
    }
  }

  lemma {:induction false} ZerosDenoteZero(k: nat)
    ensures IntOf(Zeros(k)) == 0
  {
    if k > 0 {
      ZerosDenoteZero(k - 1);
      IntOfAppend(Zeros(k - 1), '0');
    }
  }

  /** Leading zeros do not count. */
  lemma {:induction false} IntOfLeadingZeros(k: nat, t: string)
    requires AllDigits(t)
    ensures IntOf(Zeros(k) + t) == IntOf(t)
  {
    if t == "" {
      assert Zeros(k) + "" == Zeros(k);
      ZerosDenoteZero(k);
    } else {
      var front, c := t[..|t| - 1], t[|t| - 1];
      IntOfLeadingZeros(k, front);
      IntOfAppend(Zeros(k) + front, c);
      assert Zeros(k) + t == (Zeros(k) + front) + [c];
    }
  }
}
