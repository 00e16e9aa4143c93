/** Transfer amounts: decimal text, its exact value in wei, and the canonical fixed-point
    form that is signed. */
module Amounts {
  import opened Options
  import opened Numerals
  import Text

  /** A finite decimal: coefficient times ten to the exponent. */
  datatype Decimal = Decimal(negative: bool, coefficient: nat, exponent: int)

  datatype Error = NotDecimal | NotPositive | TooPrecise | TooLarge

  datatype Result = Ok(text: string) | Err(error: Error)

  const WEI_DECIMALS := 18
  const MAX_WEI: nat := 115792089237316195423570985008687907853269984665640564039457584007913129639935
  const MAX_WEI_DIGITS := 78

  // ---------------------------------------------------------------- decimal text

  /** Index of the first character of `cs` in s, or the length of s. */
  function Find(s: string, cs: string): (k: nat)
    ensures k <= |s|
    ensures k < |s| ==> s[k] in cs
  {
    if s == "" || s[0] in cs then 0 else 1 + Find(s[1..], cs)
  }

  function WithoutUnderscores(s: string): string
  {
    if s == "" then ""
    else (if s[0] == '_' then "" else [s[0]]) + WithoutUnderscores(s[1..])
  }

  predicate HasSign(s: string) { s != "" && (s[0] == '-' || s[0] == '+') }

  function Unsigned(s: string): string { if HasSign(s) then s[1..] else s }

  predicate IsNegative(s: string) { s != "" && s[0] == '-' }

  function ParseInteger(s: string): Option<int>
  {
    var u := Unsigned(s);
    if u == "" || !AllDigits(u) then None
    else Some(if IsNegative(s) then -(IntOf(u) as int) else IntOf(u))
  }

  /** Digits with at most one point, scaled by ten to the e. */
  function ParseMantissa(m: string, e: int): Option<(nat, int)>
  {
    var p := Find(m, ".");
    var whole := m[..p];
    var fraction := if p == |m| then "" else m[p + 1..];
    if !AllDigits(whole) || !AllDigits(fraction) || whole + fraction == "" then None
    else Some((IntOf(whole + fraction), e - |fraction|))
  }

  /** A mantissa, then an optional exponent. */
  function ParseUnsigned(s: string): Option<(nat, int)>
  {
    var k := Find(s, "eE");
    var e := if k == |s| then Some(0) else ParseInteger(s[k + 1..]);
    if e.None? then None else ParseMantissa(s[..k], e.value)
  }

  /** The finite decimals of Python's Decimal constructor, in ASCII. */
  function ParseDecimal(raw: string): Option<Decimal>
  {
    var s := WithoutUnderscores(Text.Strip(raw));
    var u := ParseUnsigned(Unsigned(s));
    if u.None? then None else Some(Decimal(IsNegative(s), u.value.0, u.value.1))
  }

  /** Fixed-point text without an exponent. */
  function Format(d: Decimal): string
  {
    var t := Digits(d.coefficient);
    if d.exponent >= 0 then t + Zeros(d.exponent)
    else if |t| > -d.exponent then t[..|t| + d.exponent] + "." + t[|t| + d.exponent..]
    else "0." + Zeros(-d.exponent - |t|) + t
  }

  // ---------------------------------------------------------------- validation

  function Wei(d: Decimal): nat
    requires d.exponent >= -WEI_DECIMALS
  {
    Shift(d.coefficient, d.exponent + WEI_DECIMALS)
  }

  /** Position of the most significant digit. */
  function Adjusted(d: Decimal): int { |Digits(d.coefficient)| - 1 + d.exponent }

  /** The canonical text of an amount, or why it is refused. */
  function Canonical(raw: string): Result
  {
    var parsed := ParseDecimal(raw);
    if parsed.None? then Err(NotDecimal)
    else
      var d := parsed.value;
      if d.negative || d.coefficient == 0 then Err(NotPositive)
      else if d.exponent < -WEI_DECIMALS then Err(TooPrecise)
      else if Adjusted(d) + WEI_DECIMALS > MAX_WEI_DIGITS - 1 then Err(TooLarge)
      else if Wei(d) > MAX_WEI then Err(TooLarge)
      else Ok(Format(d))
  }

  /** An amount an EVM transfer can carry. */
  predicate Representable(d: Decimal)
  {
    !d.negative && d.exponent >= -WEI_DECIMALS && 0 < Wei(d) <= MAX_WEI
  }

  /** The largest amount is the largest 256-bit number. */
  lemma MaxWeiIsUint256()
    ensures MAX_WEI == 0xFFFFFFFF_FFFFFFFF_FFFFFFFF_FFFFFFFF_FFFFFFFF_FFFFFFFF_FFFFFFFF_FFFFFFFF
  {
  }

  lemma {:induction false} MaxWeiHas78Digits()
    ensures MAX_WEI < Shift(1, 78)
  {
    assert Shift(1, 6) == 1000000;
    assert Shift(1000000, 6) == 1000000000000;
    ShiftAdds(1, 6, 6);
    assert Shift(1000000000000, 6) == 1000000000000000000;
    ShiftAdds(1, 12, 6);
    assert Shift(1000000000000000000, 6) == 1000000000000000000000000;
    ShiftAdds(1, 18, 6);
    assert Shift(1000000000000000000000000, 6) == 1000000000000000000000000000000;
    ShiftAdds(1, 24, 6);
    assert Shift(1000000000000000000000000000000, 6) == 1000000000000000000000000000000000000;
    ShiftAdds(1, 30, 6);
    assert Shift(1000000000000000000000000000000000000, 3) == 1000000000000000000000000000000000000000;
    ShiftAdds(1, 36, 3);
    ShiftTwice(39);
  }

  lemma {:induction false} ShiftTwice(k: nat)
    requires Shift(1, k) == 1000000000000000000000000000000000000000
    ensures Shift(1, k + k) == 1000000000000000000000000000000000000000 * 1000000000000000000000000000000000000000
  {
    ShiftIsProduct(Shift(1, k), k);
    ShiftAdds(1, k, k);
  }

  lemma {:induction false} ShiftIsProduct(n: nat, k: nat)
    ensures Shift(n, k) == n * Shift(1, k)
  {
    if k > 0 {
      ShiftIsProduct(n, k - 1);
    }
  }

  /** The cheap test on the leading digit never rejects an amount that fits. */
  lemma {:induction false} MagnitudeTestIsSafe(d: Decimal)
    requires d.coefficient >= 1 && d.exponent >= -WEI_DECIMALS
    requires Adjusted(d) + WEI_DECIMALS > MAX_WEI_DIGITS - 1
    ensures Wei(d) > MAX_WEI
  {
    var n := |Digits(d.coefficient)| - 1;
    var e := d.exponent + WEI_DECIMALS;
    DigitsLength(d.coefficient);
    ShiftMonotone(Shift(1, n), d.coefficient, e, e);
    ShiftAdds(1, n, e);
    ShiftMonotone(1, 1, 78, n + e);
    MaxWeiHas78Digits();
  }

  lemma {:induction false} ShiftOfZero(k: nat)
    ensures Shift(0, k) == 0
  {
    if k > 0 {
      ShiftOfZero(k - 1);
    }
  }

  /** An amount is accepted exactly when it is a decimal representable in wei. */
  lemma {:induction false} AcceptedExactly(raw: string)
    ensures Canonical(raw).Ok? <==> ParseDecimal(raw).Some? && Representable(ParseDecimal(raw).value)
  {
    hide ParseDecimal, Shift;
    if ParseDecimal(raw).Some? {
      var d := ParseDecimal(raw).value;
      if d.exponent >= -WEI_DECIMALS {
        if d.coefficient == 0 {
          ShiftOfZero(d.exponent + WEI_DECIMALS);
        } else {
          ShiftPositive(d.coefficient, d.exponent + WEI_DECIMALS);
          if Adjusted(d) + WEI_DECIMALS > MAX_WEI_DIGITS - 1 {
            MagnitudeTestIsSafe(d);
          }
        }
      }
    }
  }

  // ---------------------------------------------------------------- the canonical form

  lemma {:induction false} FindNothing(s: string, cs: string)
    requires forall i :: 0 <= i < |s| ==> s[i] !in cs
    ensures Find(s, cs) == |s|
  {
    if s != "" {
      FindNothing(s[1..], cs);
    }
  }

  lemma {:induction false} FindAfter(s: string, c: char, t: string, cs: string)
    requires c in cs && forall i :: 0 <= i < |s| ==> s[i] !in cs
    ensures Find(s + [c] + t, cs) == |s|
  {
    if s != "" {
      FindAfter(s[1..], c, t, cs);
      assert (s + [c] + t)[1..] == s[1..] + [c] + t;
    }
  }

  /** Digits and at most one point: nothing the parser strips, skips or splits on. */
  predicate Plain(s: string)
  {
    s != "" && IsDigit(s[0]) && IsDigit(s[|s| - 1]) && forall i :: 0 <= i < |s| ==> IsDigit(s[i]) || s[i] == '.'
  }

  lemma {:induction false} NoUnderscores(s: string)
    requires forall i :: 0 <= i < |s| ==> s[i] != '_'
    ensures WithoutUnderscores(s) == s
  {
    if s != "" {
      NoUnderscores(s[1..]);
    }
  }

  lemma {:induction false} PlainIsUntouched(s: string)
    requires Plain(s)
    ensures WithoutUnderscores(Text.Strip(s)) == s && Unsigned(s) == s && !IsNegative(s)
    ensures Find(s, "eE") == |s|
  {
    assert Text.StripLeft(s) == s && Text.StripRight(s) == s;
    NoUnderscores(s);
    FindNothing(s, "eE");
  }

  lemma {:induction false} PlainParses(s: string)
    requires Plain(s)
    ensures var m := ParseMantissa(s, 0);
      ParseDecimal(s) == if m.None? then None else Some(Decimal(false, m.value.0, m.value.1))
  {
    hide ParseMantissa, Find, WithoutUnderscores, Text.Strip, Unsigned, IsNegative;
    PlainIsUntouched(s);
    assert s[..|s|] == s;
  }

  lemma {:induction false} WholeMantissa(t: string, e: int)
    requires AllDigits(t) && t != ""
    ensures ParseMantissa(t, e) == Some((IntOf(t), e))
  {
    hide Find, IntOf;
    FindNothing(t, ".");
    assert t[..|t|] == t && t + "" == t;
  }

  lemma {:induction false} PointedMantissa(whole: string, fraction: string, e: int)
    requires AllDigits(whole) && AllDigits(fraction) && whole + fraction != ""
    ensures ParseMantissa(whole + "." + fraction, e) == Some((IntOf(whole + fraction), e - |fraction|))
  {
    hide Find, IntOf;
    var s := whole + "." + fraction;
    FindAfter(whole, '.', fraction, ".");
    assert s[..|whole|] == whole && s[|whole| + 1..] == fraction;
  }

  lemma {:induction false} ParseWhole(t: string)
    requires AllDigits(t) && t != ""
    ensures ParseDecimal(t) == Some(Decimal(false, IntOf(t), 0))
  {
    hide ParseDecimal, ParseMantissa, IntOf;
    PlainParses(t);
    WholeMantissa(t, 0);
  }

  lemma {:induction false} ParsePointed(whole: string, fraction: string)
    requires AllDigits(whole) && AllDigits(fraction) && whole != "" && fraction != ""
    ensures ParseDecimal(whole + "." + fraction) == Some(Decimal(false, IntOf(whole + fraction), -|fraction|))
  {
    hide ParseDecimal, ParseMantissa, IntOf;
    PlainParses(whole + "." + fraction);
    PointedMantissa(whole, fraction, 0);
  }

  function Sign(negative: bool): string { if negative then "-" else "+" }

  lemma {:induction false} SignedIntegerParses(negative: bool, t: string)
    requires AllDigits(t) && t != ""
    ensures var n: int := IntOf(t);
      ParseInteger(Sign(negative) + t) == Some(if negative then -n else n)
  {
    assert (Sign(negative) + t)[1..] == t;
  }

  lemma {:induction false} MarkedMantissa(m: string, mark: char, e: string)
    requires (mark == 'e' || mark == 'E') && forall i :: 0 <= i < |m| ==> m[i] != 'e' && m[i] != 'E'
    ensures var x := ParseInteger(e);
      ParseUnsigned(m + [mark] + e) == if x.None? then None else ParseMantissa(m, x.value)
  {
    hide ParseInteger, ParseMantissa, Find;
    FindAfter(m, mark, e, "eE");
    var s := m + [mark] + e;
    assert s[..|m|] == m && s[|m| + 1..] == e;
  }

  /** Scientific notation: sign, digits, point, digits, exponent mark, sign, digits. */
  lemma {:induction false} ScientificParses(
      negative: bool, whole: string, fraction: string, mark: char, below: bool, e: string)
    requires AllDigits(whole) && AllDigits(fraction) && whole + fraction != "" && AllDigits(e) && e != ""
    requires mark == 'e' || mark == 'E'
    ensures var n: int := IntOf(e);
      ParseDecimal(Sign(negative) + (whole + "." + fraction + [mark] + (Sign(below) + e)))
      == Some(Decimal(negative, IntOf(whole + fraction), (if below then -n else n) - |fraction|))
  {
    hide IntOf, ParseUnsigned, ParseInteger, ParseMantissa, WithoutUnderscores, AllDigits;
    var n: int := IntOf(e);
    var m, rest := whole + "." + fraction, Sign(below) + e;
    var u := m + [mark] + rest;
    var s := Sign(negative) + u;
    assert forall i :: 0 <= i < |m| ==> m[i] != 'e' && m[i] != 'E' && m[i] != '_' by {
      DigitsOnly(whole);
      DigitsOnly(fraction);
    }
    SignedIntegerParses(below, e);
    MarkedMantissa(m, mark, rest);
    PointedMantissa(whole, fraction, if below then -n else n);
    assert s[|s| - 1] == e[|e| - 1] && IsDigit(e[|e| - 1]) by { DigitsOnly(e); }
    assert Text.StripLeft(s) == s && Text.StripRight(s) == s;
    assert forall i :: 0 <= i < |s| ==> s[i] != '_' by { DigitsOnly(e); }
    NoUnderscores(s);
    assert s[1..] == u;
  }

  lemma DigitsOnly(t: string)
    requires AllDigits(t)
    ensures forall i :: 0 <= i < |t| ==> IsDigit(t[i])
  {
  }

  /** Reading the canonical text back: the same decimal, or, for a positive exponent, the
      integer it stands for. */
  function Reread(d: Decimal): Decimal
  {
    if d.exponent >= 0 then Decimal(d.negative, Shift(d.coefficient, d.exponent), 0) else d
  }

  lemma {:induction false} FormatRoundTrip(d: Decimal)
    requires !d.negative && d.coefficient >= 1
    ensures ParseDecimal(Format(d)) == Some(Reread(d))
  {
    hide ParseDecimal, Digits, IntOf, Shift, Zeros;
    var t := Digits(d.coefficient);
    DigitsDenote(d.coefficient);
    if d.exponent >= 0 {
      IntOfZeros(t, d.exponent);
      ParseWhole(t + Zeros(d.exponent));
    } else if |t| > -d.exponent {
      var whole, fraction := t[..|t| + d.exponent], t[|t| + d.exponent..];
      assert whole + fraction == t;
      ParsePointed(whole, fraction);
    } else {
      var k := -d.exponent - |t|;
      var fraction := Zeros(k) + t;
      IntOfLeadingZeros(k, t);
      LeadingZero(fraction);
      ParsePointed("0", fraction);
      assert Format(d) == "0" + "." + fraction;
    }
  }

  lemma {:induction false} LeadingZero(t: string)
    requires AllDigits(t)
    ensures IntOf("0" + t) == IntOf(t)
  {
    assert Zeros(1) == "0";
    IntOfLeadingZeros(1, t);
  }

  lemma {:induction false} RereadKeepsValue(d: Decimal)
    requires d.exponent >= -WEI_DECIMALS
    ensures Wei(Reread(d)) == Wei(d)
  {
    if d.exponent >= 0 {
      ShiftAdds(d.coefficient, d.exponent, WEI_DECIMALS);
    }
  }

  lemma {:induction false} RereadKeepsFormat(d: Decimal)
    requires d.coefficient >= 1
    ensures Format(Reread(d)) == Format(d) && Reread(d).coefficient >= 1
  {
    if d.exponent >= 0 {
      DigitsOfShift(d.coefficient, d.exponent);
      ShiftPositive(d.coefficient, d.exponent);
      var t := Digits(d.coefficient) + Zeros(d.exponent);
      assert t + Zeros(0) == t;
    }
  }

  /** The canonical text denotes the same amount of wei as the text it came from. */
  lemma {:induction false} CanonicalKeepsValue(raw: string)
    requires Canonical(raw).Ok?
    ensures ParseDecimal(raw).Some? && ParseDecimal(raw).value.exponent >= -WEI_DECIMALS
    ensures var text := Canonical(raw).text;
      ParseDecimal(text).Some? && ParseDecimal(text).value.exponent >= -WEI_DECIMALS
      && Wei(ParseDecimal(text).value) == Wei(ParseDecimal(raw).value)
  {
    hide ParseDecimal, Format, Wei, Adjusted;
    var d := ParseDecimal(raw).value;
    FormatRoundTrip(d);
    RereadKeepsValue(d);
  }

  /** Canonicalising twice is canonicalising once. */
  lemma {:induction false} CanonicalIsIdempotent(raw: string)
    requires Canonical(raw).Ok?
    ensures Canonical(Canonical(raw).text) == Canonical(raw)
  {
    hide ParseDecimal, Format, Shift;
    var d := ParseDecimal(raw).value;
    FormatRoundTrip(d);
    RereadKeepsFormat(d);
    RereadKeepsValue(d);
    AcceptedExactly(raw);
    AcceptedExactly(Canonical(raw).text);
  }
}
