/** The LEI test of the ASIC report checks: an LEI is twenty characters whose
    decimal expansion (A=10 ... Z=35) leaves remainder 1 modulo 97, as ISO 17442
    and ISO/IEC 7064 MOD 97-10 prescribe. */
module Lei {
  import opened Numerals

  const LEI_LENGTH := 20
  const CHECK_DIGIT_START := 18

  predicate IsUpper(c: char) { 'A' <= c <= 'Z' }

  /** The upper-case alphanumeric alphabet. */
  predicate InAlphabet(c: char) { IsDigit(c) || IsUpper(c) }

  predicate AllInAlphabet(s: string) { forall i :: 0 <= i < |s| ==> InAlphabet(s[i]) }

  /** Base-36 value of a character. */
  function CharValue(c: char): nat
    requires InAlphabet(c)
  {
    if IsDigit(c) then c as int - '0' as int else c as int - 'A' as int + 10
  }

  /** Decimal text of a base-36 value: one digit, or two for a letter. */
  function DecimalText(v: nat): string
    requires v < 36
  {
    if v < 10 then [DigitChar(v)] else [DigitChar(v / 10), DigitChar(v % 10)]
  }

  /** The decimal texts of all characters, joined. */
  function NumericText(s: string): (t: string)
    requires AllInAlphabet(s)
    ensures AllDigits(t)
  {
    if s == "" then "" else NumericText(s[..|s| - 1]) + DecimalText(CharValue(s[|s| - 1]))
  }

  predicate ChecksumValid(s: string)
    requires AllInAlphabet(s)
  {
    IntOf(NumericText(s)) % 97 == 1
  }

  predicate IsValidLei(s: string)
  {
    |s| == LEI_LENGTH && AllInAlphabet(s) && AllDigits(s[CHECK_DIGIT_START..]) && ChecksumValid(s)
  }

  // ---------------------------------------------------------------- the running fold

  /** A number followed by one more character: a digit shifts by 10, a letter by 100. */
  function Append(n: nat, c: char): nat
    requires InAlphabet(c)
  {
    if IsDigit(c) then 10 * n + CharValue(c) else 100 * n + CharValue(c)
  }

  /** The value of a string read character by character, without building decimal text. */
  function Weighted(s: string): nat
    requires AllInAlphabet(s)
  {
    if s == "" then 0 else Append(Weighted(s[..|s| - 1]), s[|s| - 1])
  }

  /** Remainder kept below 97 after every character. */
  function RunningRemainder(s: string): nat
    requires AllInAlphabet(s)
  {
    if s == "" then 0 else Append(RunningRemainder(s[..|s| - 1]), s[|s| - 1]) % 97
  }

  lemma {:induction false} TwoDigitsAppend(t: string, v: nat)
    requires AllDigits(t) && 10 <= v < 36
    ensures IntOf(t + DecimalText(v)) == 100 * IntOf(t) + v
  {
    hide IntOf;
    var tens, units := DigitChar(v / 10), DigitChar(v % 10);
    IntOfAppend(t, tens);
    IntOfAppend(t + [tens], units);
    assert t + DecimalText(v) == t + [tens] + [units];
  }

  /** A joined decimal text shifts what precedes it like one appended character. */
  lemma {:induction false} DecimalTextAppends(t: string, c: char)
    requires AllDigits(t) && InAlphabet(c)
    ensures IntOf(t + DecimalText(CharValue(c))) == Append(IntOf(t), c)
  {
    hide IntOf;
    if IsDigit(c) {
      IntOfAppend(t, c);
      assert DecimalText(CharValue(c)) == [c];
    } else {
      TwoDigitsAppend(t, CharValue(c));
    }
  }

  lemma {:induction false} NumericTextIsWeighted(s: string)
    requires AllInAlphabet(s)
    ensures IntOf(NumericText(s)) == Weighted(s)
  {
    if s != "" {
      NumericTextIsWeighted(s[..|s| - 1]);
      DecimalTextAppends(NumericText(s[..|s| - 1]), s[|s| - 1]);
    }
  }

  lemma ModShift(x: int, q: int)
    ensures (x + 97 * q) % 97 == x % 97
  {
  }

  lemma {:induction false} AppendMod(n: nat, c: char)
    requires InAlphabet(c)
    ensures Append(n % 97, c) % 97 == Append(n, c) % 97
  {
    var k := if IsDigit(c) then 10 else 100;
    assert Append(n, c) == Append(n % 97, c) + 97 * (k * (n / 97));
    ModShift(Append(n % 97, c), k * (n / 97));
  }

  lemma {:induction false} RunningRemainderIsMod(s: string)
    requires AllInAlphabet(s)
    ensures RunningRemainder(s) == Weighted(s) % 97
  {
    if s != "" {
      RunningRemainderIsMod(s[..|s| - 1]);
      AppendMod(Weighted(s[..|s| - 1]), s[|s| - 1]);
    }
  }

  /** The big-integer test equals a fold whose state never exceeds 96. */
  lemma {:induction false} ConcatenatedTestIsRunningFold(s: string)
    requires AllInAlphabet(s)
    ensures IntOf(NumericText(s)) % 97 == RunningRemainder(s)
    ensures ChecksumValid(s) <==> RunningRemainder(s) == 1
  {
    NumericTextIsWeighted(s);
    RunningRemainderIsMod(s);
  }

  // ---------------------------------------------------------------- error detection

  /** 10 is invertible modulo 97 (68 * 10 = 7 * 97 + 1), so no shift hides a difference. */
  lemma {:induction false} TenIsInvertible(x: int)
    ensures (10 * x) % 97 == 0 <==> x % 97 == 0
  {
    if (10 * x) % 97 == 0 {
      var q := (10 * x) / 97;
      assert x == 97 * (68 * q - 7 * x);
    }
  }

  lemma {:induction false} SameRemainder(a: int, b: int)
    ensures a % 97 == b % 97 <==> (a - b) % 97 == 0
  {
    if (a - b) % 97 == 0 {
      ModShift(b, (a - b) / 97);
    }
  }

  lemma {:induction false} AppendKeepsDifference(a: nat, b: nat, c: char)
    requires InAlphabet(c)
    ensures Append(a, c) % 97 == Append(b, c) % 97 <==> a % 97 == b % 97
  {
    SameRemainder(a, b);
    SameRemainder(Append(a, c), Append(b, c));
    TenIsInvertible(a - b);
    TenIsInvertible(10 * (a - b));
  }

  /** A common tail neither hides nor creates a difference. */
  lemma {:induction false} CommonTail(x: string, y: string, t: string)
    requires AllInAlphabet(x) && AllInAlphabet(y) && AllInAlphabet(t)
    ensures AllInAlphabet(x + t) && AllInAlphabet(y + t)
    ensures Weighted(x + t) % 97 == Weighted(y + t) % 97 <==> Weighted(x) % 97 == Weighted(y) % 97
  {
    if t == "" {
      assert x + t == x && y + t == y;
    } else {
      var front, c := t[..|t| - 1], t[|t| - 1];
      CommonTail(x, y, front);
      assert (x + t)[..|x + t| - 1] == x + front && (y + t)[..|y + t| - 1] == y + front;
      AppendKeepsDifference(Weighted(x + front), Weighted(y + front), c);
    }
  }

  lemma {:induction false} WeightedOne(p: string, c: char)
    requires AllInAlphabet(p) && InAlphabet(c)
    ensures AllInAlphabet(p + [c]) && Weighted(p + [c]) == Append(Weighted(p), c)
  {
    assert (p + [c])[..|p|] == p;
  }

  lemma {:induction false} WeightedTwo(p: string, c: char, d: char)
    requires AllInAlphabet(p) && InAlphabet(c) && InAlphabet(d)
    ensures AllInAlphabet(p + [c, d])
    ensures Weighted(p + [c, d]) == Append(Append(Weighted(p), c), d)
  {
    assert (p + [c, d])[..|p| + 1] == p + [c];
    WeightedOne(p, c);
  }

  predicate SameClass(a: char, b: char) { (IsDigit(a) && IsDigit(b)) || (IsUpper(a) && IsUpper(b)) }

  lemma SmallMultiple(z: int)
    requires -97 < z < 97
    ensures z % 97 == 0 <==> z == 0
  {
  }

  lemma {:induction false} AppendSeparates(n: nat, a: char, b: char)
    requires a != b && SameClass(a, b)
    ensures Append(n, a) % 97 != Append(n, b) % 97
  {
    var u: int, v: int := Append(n, a), Append(n, b);
    SameRemainder(u, v);
    SmallMultiple(u - v);
  }

  lemma {:induction false} SubstitutionRemainder(s: string, i: nat, c: char)
    requires AllInAlphabet(s) && i < |s| && c != s[i] && SameClass(c, s[i])
    ensures AllInAlphabet(s[i := c])
    ensures Weighted(s[i := c]) % 97 != Weighted(s) % 97
  {
    var p, t := s[..i], s[i + 1..];
    assert s == p + [s[i]] + t && s[i := c] == p + [c] + t;
    WeightedOne(p, c);
    WeightedOne(p, s[i]);
    CommonTail(p + [s[i]], p + [c], t);
    AppendSeparates(Weighted(p), s[i], c);
  }

  /** Replacing one character of a valid LEI by another of its class is always caught. */
  lemma {:induction false} SubstitutionIsDetected(lei: string, i: nat, c: char)
    requires IsValidLei(lei)
    requires i < LEI_LENGTH && c != lei[i] && SameClass(c, lei[i])
    ensures !IsValidLei(lei[i := c])
  {
    SubstitutionRemainder(lei, i, c);
    NumericTextIsWeighted(lei);
    NumericTextIsWeighted(lei[i := c]);
  }

  /** A digit and a letter behind the value n that leave the same remainder: a letter shifts
      n by 100 where a digit shifts it by 10. */
  predicate Interchangeable(n: nat, digit: char, letter: char)
  {
    IsDigit(digit) && IsUpper(letter) && (90 * n + CharValue(letter) - CharValue(digit)) % 97 == 0
  }

  lemma {:induction false} MixedRemainder(n: nat, digit: char, letter: char)
    requires IsDigit(digit) && IsUpper(letter)
    ensures Append(n, digit) % 97 == Append(n, letter) % 97 <==> Interchangeable(n, digit, letter)
  {
    var u: int, v: int := Append(n, letter), Append(n, digit);
    SameRemainder(u, v);
    assert u - v == 90 * n + CharValue(letter) - CharValue(digit);
  }

  /** Every single-character error: replacing a character of a valid LEI goes unnoticed
      exactly when, among the first eighteen, a digit and a letter interchangeable behind
      what precedes them take each other's place. */
  lemma {:induction false} SubstitutionExact(lei: string, i: nat, c: char)
    requires IsValidLei(lei) && i < LEI_LENGTH && c != lei[i]
    ensures IsValidLei(lei[i := c]) <==>
      && i < CHECK_DIGIT_START
      && (Interchangeable(Weighted(lei[..i]), lei[i], c) || Interchangeable(Weighted(lei[..i]), c, lei[i]))
  {
    hide ChecksumValid, Weighted;
    var other := lei[i := c];
    assert other[i] == c;
    if !InAlphabet(c) {
      assert !AllInAlphabet(other);
    } else if SameClass(c, lei[i]) {
      SubstitutionIsDetected(lei, i, c);
    } else {
      assert AllInAlphabet(other);
      MixedSubstitution(lei, i, c);
      if i >= CHECK_DIGIT_START {
        assert other[CHECK_DIGIT_START..][i - CHECK_DIGIT_START] == c;
        assert lei[CHECK_DIGIT_START..][i - CHECK_DIGIT_START] == lei[i];
      } else {
        assert other[CHECK_DIGIT_START..] == lei[CHECK_DIGIT_START..];
      }
    }
  }

  lemma OneWay(n: nat, letter: char, digit: char)
    requires IsUpper(letter)
    ensures !Interchangeable(n, letter, digit)
  {
  }

  lemma {:induction false} MixedSubstitution(lei: string, i: nat, c: char)
    requires AllInAlphabet(lei) && ChecksumValid(lei) && i < |lei| && InAlphabet(c) && !SameClass(c, lei[i])
    ensures AllInAlphabet(lei[i := c])
    ensures ChecksumValid(lei[i := c]) <==>
      Interchangeable(Weighted(lei[..i]), lei[i], c) || Interchangeable(Weighted(lei[..i]), c, lei[i])
  {
    hide Weighted, NumericText, IntOf, Interchangeable;
    var p, t, other := lei[..i], lei[i + 1..], lei[i := c];
    assert lei == p + [lei[i]] + t && other == p + [c] + t;
    WeightedOne(p, c);
    WeightedOne(p, lei[i]);
    CommonTail(p + [lei[i]], p + [c], t);
    NumericTextIsWeighted(lei);
    NumericTextIsWeighted(other);
    var n := Weighted(p);
    if IsDigit(c) {
      MixedRemainder(n, c, lei[i]);
      OneWay(n, lei[i], c);
    } else {
      MixedRemainder(n, lei[i], c);
      OneWay(n, c, lei[i]);
    }
  }

  /** The only pairs of characters whose exchange MOD 97-10 cannot see. */
  predicate Blind(a: char, b: char)
  {
    (a == '1' && b == 'B') || (a == 'B' && b == '1') ||
    (a == '2' && b == 'M') || (a == 'M' && b == '2') ||
    (a == '3' && b == 'X') || (a == 'X' && b == '3')
  }

  /** Nine times a small difference is a multiple of 97 only when the difference is zero. */
  lemma {:induction false} NineTimesSmall(z: int)
    requires -97 < z < 97
    ensures (9 * z) % 97 == 0 <==> z == 0
  {
    if (9 * z) % 97 == 0 {
      var q := (9 * z) / 97;
      assert 9 * z == 97 * q;
      assert z == 97 * (54 * q - 5 * z);  // 9 * 54 = 5 * 97 + 1
    }
  }

  lemma {:induction false} ExchangeDifference(n: nat, a: char, b: char)
    requires InAlphabet(a) && InAlphabet(b) && a != b
    ensures Append(Append(n, a), b) % 97 == Append(Append(n, b), a) % 97 <==> Blind(a, b)
  {
    var u: int, v: int := Append(Append(n, a), b), Append(Append(n, b), a);
    var x: int, y: int := CharValue(a), CharValue(b);
    SameRemainder(u, v);
    if IsDigit(a) && IsDigit(b) {
      assert u - v == 9 * (x - y);
      NineTimesSmall(x - y);
    } else if IsDigit(a) {
      assert u - v == 9 * (11 * x - y);
      NineTimesSmall(11 * x - y);
    } else if IsDigit(b) {
      assert u - v == 9 * (x - 11 * y);
      NineTimesSmall(x - 11 * y);
    } else {
      assert u - v == 2 * (x - y) + 97 * (x - y);
      ModShift(2 * (x - y), x - y);
      SmallMultiple(2 * (x - y));
    }
  }

  function Exchange(s: string, i: nat): string
    requires i + 1 < |s|
  {
    s[i := s[i + 1]][i + 1 := s[i]]
  }

  lemma ExchangeSplit(s: string, i: nat)
    requires i + 1 < |s|
    ensures s == s[..i] + [s[i], s[i + 1]] + s[i + 2..]
    ensures Exchange(s, i) == s[..i] + [s[i + 1], s[i]] + s[i + 2..]
  {
  }

  lemma {:induction false} ExchangeRemainder(s: string, i: nat)
    requires AllInAlphabet(s) && i + 1 < |s| && s[i] != s[i + 1]
    ensures AllInAlphabet(Exchange(s, i))
    ensures Weighted(Exchange(s, i)) % 97 == Weighted(s) % 97 <==> Blind(s[i], s[i + 1])
  {
    var a, b := s[i], s[i + 1];
    ExchangeSplit(s, i);
    WeightedTwo(s[..i], a, b);
    WeightedTwo(s[..i], b, a);
    CommonTail(s[..i] + [a, b], s[..i] + [b, a], s[i + 2..]);
    ExchangeDifference(Weighted(s[..i]), a, b);
  }

  lemma {:induction false} ExchangedChecksum(s: string, i: nat)
    requires AllInAlphabet(s) && ChecksumValid(s) && i + 1 < |s| && s[i] != s[i + 1]
    ensures AllInAlphabet(Exchange(s, i))
    ensures ChecksumValid(Exchange(s, i)) <==> Blind(s[i], s[i + 1])
  {
    hide Weighted, NumericText, IntOf, Blind, Exchange;
    ExchangeRemainder(s, i);
    NumericTextIsWeighted(s);
    NumericTextIsWeighted(Exchange(s, i));
  }

  /** Exchanging two different neighbours of a valid LEI goes unnoticed exactly for the
      pairs 1/B, 2/M and 3/X among the first eighteen characters. */
  lemma {:induction false} TranspositionExact(lei: string, i: nat)
    requires IsValidLei(lei)
    requires i + 1 < LEI_LENGTH && lei[i] != lei[i + 1]
    ensures IsValidLei(Exchange(lei, i)) <==> (Blind(lei[i], lei[i + 1]) && i + 1 < CHECK_DIGIT_START)
  {
    hide ChecksumValid;
    var exchanged := Exchange(lei, i);
    ExchangedChecksum(lei, i);
    var before, after := lei[CHECK_DIGIT_START..], exchanged[CHECK_DIGIT_START..];
    assert before[0] == lei[18] && before[1] == lei[19];
    if i + 1 < CHECK_DIGIT_START {
      assert before == after;
    } else {
      assert after[0] == exchanged[18];
      assert IsDigit(lei[i + 1]);
    }
  }

  lemma {:induction false} CheckPairWeight(base: string, c: nat, d: nat)
    requires AllInAlphabet(base) && c < 10 && d < 10
    ensures AllInAlphabet(base + [DigitChar(c), DigitChar(d)])
    ensures Weighted(base + [DigitChar(c), DigitChar(d)]) == 100 * Weighted(base) + (10 * c + d)
  {
    WeightedTwo(base, DigitChar(c), DigitChar(d));
  }

  /** The remainder a base asks of its two check digits. */
  function CheckTarget(base: string): nat
    requires AllInAlphabet(base)
  {
    (98 - (100 * Weighted(base)) % 97) % 97
  }

  lemma TargetArithmetic(w: nat, k: nat)
    ensures (w + k) % 97 == 1 <==> k % 97 == (98 - w % 97) % 97
  {
  }

  function WithPair(base: string, k: nat): string
    requires k < 100
  {
    base + [DigitChar(k / 10), DigitChar(k % 10)]
  }

  /** Of the hundred pairs of digits the code accepts those with the remainder asked for. */
  lemma {:induction false} CheckPairExactly(base: string, k: nat)
    requires |base| == CHECK_DIGIT_START && AllInAlphabet(base) && k < 100
    ensures IsValidLei(WithPair(base, k)) <==> k % 97 == CheckTarget(base)
  {
    var lei := WithPair(base, k);
    assert lei[CHECK_DIGIT_START..] == [DigitChar(k / 10), DigitChar(k % 10)];
    CheckPairWeight(base, k / 10, k % 10);
    NumericTextIsWeighted(lei);
    TargetArithmetic(100 * Weighted(base), k);
  }

  /** Every eighteen-character base has exactly one check pair among 02..98. */
  lemma {:induction false} CheckPairExistsUniquely(base: string, k: nat)
    requires |base| == CHECK_DIGIT_START && AllInAlphabet(base) && 2 <= k <= 98
    ensures IsValidLei(WithPair(base, k)) <==> k == 98 - (100 * Weighted(base)) % 97
  {
    hide IsValidLei, WithPair, Weighted;
    CheckPairExactly(base, k);
    IssuedPair((100 * Weighted(base)) % 97, k);
  }

  lemma IssuedPair(r: int, k: int)
    requires 0 <= r < 97 && 2 <= k <= 98
    ensures k % 97 == (98 - r) % 97 <==> k == 98 - r
  {
  }

  /** The code accepts two pairs for one base, 97 apart, exactly when the remainder asked for
      is 0, 1 or 2: of 00 and 97, 01 and 98, 02 and 99 ISO/IEC 7064 issues only 97, 98 and
      02. */
  lemma {:induction false} TwoPairsExactly(base: string)
    requires |base| == CHECK_DIGIT_START && AllInAlphabet(base)
    ensures (exists k, m :: 0 <= k < m < 100 && IsValidLei(WithPair(base, k)) && IsValidLei(WithPair(base, m)))
      <==> CheckTarget(base) <= 2
  {
    hide IsValidLei, CheckTarget, WithPair;
    forall k | 0 <= k < 100 ensures IsValidLei(WithPair(base, k)) <==> k % 97 == CheckTarget(base) {
      CheckPairExactly(base, k);
    }
    var t: int := CheckTarget(base);
    if t <= 2 {
      assert IsValidLei(WithPair(base, t)) && IsValidLei(WithPair(base, t + 97));
    }
  }
}
