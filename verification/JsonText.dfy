/** JSON text: the reader for any document, and the compact ASCII writer for flat objects.
    A float is the decimal its literal denotes; literals and arrays are read but their values
    do not matter here. */
module JsonText {
  import opened Options
  import opened Numerals

  /** A float denotes mantissa times ten to the exponent, before rounding. */
  datatype Value =
    | Text(text: string)
    | Number(n: int)
    | Float(mantissa: int, exponent: int)
    | Object(fields: map<string, Value>)
    | Other

  /** What was read, and the text after it. */
  datatype Parsed<T> = Parsed(value: T, rest: string) | Bad

  predicate IsSpace(c: char) { c == ' ' || c == '\t' || c == '\n' || c == '\r' }

  function SkipSpace(s: string): (r: string)
    ensures |r| <= |s|
  {
    if s != "" && IsSpace(s[0]) then SkipSpace(s[1..]) else s
  }

  predicate StartsWith(s: string, c: char) { s != "" && s[0] == c }

  // ---------------------------------------------------------------- strings

  predicate IsHexDigit(c: char) { IsDigit(c) || 'a' <= c <= 'f' || 'A' <= c <= 'F' }

  function HexValue(c: char): (d: int)
    requires IsHexDigit(c)
    ensures 0 <= d < 16
  {
    if IsDigit(c) then c as int - '0' as int
    else if 'a' <= c <= 'f' then c as int - 'a' as int + 10
    else c as int - 'A' as int + 10
  }

  function HexChar(d: int): (c: char)
    requires 0 <= d < 16
    ensures IsHexDigit(c) && HexValue(c) == d
  {
    if d < 10 then '0' + d as char else 'a' + (d - 10) as char
  }

  /** Four hexadecimal digits at place i. */
  predicate HasHex4(s: string, i: nat)
  {
    i + 4 <= |s| && IsHexDigit(s[i]) && IsHexDigit(s[i + 1]) && IsHexDigit(s[i + 2]) && IsHexDigit(s[i + 3])
  }

  function Hex4(s: string, i: nat): (n: int)
    requires HasHex4(s, i)
    ensures 0 <= n < 0x1_0000
  {
    0x1000 * HexValue(s[i]) + 0x100 * HexValue(s[i + 1]) + 0x10 * HexValue(s[i + 2]) + HexValue(s[i + 3])
  }

  predicate IsHigh(n: int) { 0xD800 <= n < 0xDC00 }

  predicate IsLow(n: int) { 0xDC00 <= n < 0xE000 }

  /** The character of a code unit; a lone surrogate, which is no character, is replaced. */
  function CharOf(n: int): char
    requires 0 <= n < 0x1_0000
  {
    if IsHigh(n) || IsLow(n) then '\U{FFFD}' else n as char
  }

  function PairOf(high: int, low: int): char
    requires IsHigh(high) && IsLow(low)
  {
    (0x1_0000 + 0x400 * (high - 0xD800) + (low - 0xDC00)) as char
  }

  function Simple(c: char): Option<char>
  {
    if c == '"' || c == '\\' || c == '/' then Some(c)
    else if c == 'b' then Some('\U{0008}')
    else if c == 'f' then Some('\U{000C}')
    else if c == 'n' then Some('\n')
    else if c == 'r' then Some('\r')
    else if c == 't' then Some('\t')
    else None
  }

  function Before(c: char, p: Parsed<string>): Parsed<string>
  {
    if p.Bad? then Bad else Parsed([c] + p.value, p.rest)
  }

  /** A low surrogate escape at the start. */
  predicate LowFollows(s: string)
  {
    |s| >= 6 && s[0] == '\\' && s[1] == 'u' && HasHex4(s, 2) && IsLow(Hex4(s, 2))
  }

  /** The string after an opening quote: control characters and unknown escapes are
      refused, a surrogate pair is joined. */
  function ParseText(s: string): (r: Parsed<string>)
    ensures r.Parsed? ==> |r.rest| < |s|
  {
    if s == "" then Bad
    else if s[0] == '"' then Parsed("", s[1..])
    else if s[0] < ' ' then Bad
    else if s[0] != '\\' then Before(s[0], ParseText(s[1..]))
    else if |s| < 2 then Bad
    else if s[1] == 'u' then
      if !HasHex4(s, 2) then Bad
      else if IsHigh(Hex4(s, 2)) && LowFollows(s[6..]) then
        Before(PairOf(Hex4(s, 2), Hex4(s[6..], 2)), ParseText(s[12..]))
      else Before(CharOf(Hex4(s, 2)), ParseText(s[6..]))
    else if Simple(s[1]).None? then Bad
    else Before(Simple(s[1]).value, ParseText(s[2..]))
  }

  function Unit(n: int): (s: string)
    requires 0 <= n < 0x1_0000
    ensures |s| == 6 && s[0] == '\\' && s[1] == 'u' && HasHex4(s, 2) && Hex4(s, 2) == n
  {
    var upper: int, low: int := n / 0x100, n % 0x100;
    ['\\', 'u', HexChar(upper / 0x10), HexChar(upper % 0x10), HexChar(low / 0x10), HexChar(low % 0x10)]
  }

  /** A character as the writer puts it: printable ASCII as it is, the rest escaped. */
  function Escape(c: char): string
  {
    if c == '"' then "\\\""
    else if c == '\\' then "\\\\"
    else if c == '\n' then "\\n"
    else if c == '\r' then "\\r"
    else if c == '\t' then "\\t"
    else if c == '\U{000C}' then "\\f"
    else if c == '\U{0008}' then "\\b"
    else if ' ' <= c <= '~' then [c]
    else if c as int < 0x1_0000 then Unit(c as int)
    else
      var v := c as int - 0x1_0000;
      Unit(0xD800 + v / 0x400) + Unit(0xDC00 + v % 0x400)
  }

  function EscapeAll(s: string): string
  {
    if s == "" then "" else Escape(s[0]) + EscapeAll(s[1..])
  }

  function Quote(s: string): string { "\"" + EscapeAll(s) + "\"" }

  lemma {:induction false} UnitParses(n: int, tail: string)
    requires 0 <= n < 0x1_0000 && !IsHigh(n)
    ensures ParseText(Unit(n) + tail) == Before(CharOf(n), ParseText(tail))
  {
    hide Unit;
    var s := Unit(n) + tail;
    assert s[..6] == Unit(n) && s[6..] == tail;
    assert Hex4(s, 2) == Hex4(Unit(n), 2);
  }

  lemma {:induction false} PairParses(high: int, low: int, tail: string)
    requires IsHigh(high) && IsLow(low)
    ensures ParseText(Unit(high) + Unit(low) + tail) == Before(PairOf(high, low), ParseText(tail))
  {
    hide Unit;
    var s := Unit(high) + Unit(low) + tail;
    var next := Unit(low) + tail;
    assert s[6..] == next && s[12..] == tail;
    assert Hex4(s, 2) == Hex4(Unit(high), 2) && Hex4(next, 2) == Hex4(Unit(low), 2);
    assert LowFollows(next);
  }

  predicate IsPlain(c: char) { ' ' <= c <= '~' && c != '"' && c != '\\' }

  lemma {:induction false} PlainParses(c: char, tail: string)
    requires IsPlain(c)
    ensures Escape(c) == [c] && ParseText([c] + tail) == Before(c, ParseText(tail))
  {
    assert ([c] + tail)[1..] == tail;
  }

  lemma {:induction false} SimpleParses(e: char, tail: string)
    requires Simple(e).Some?
    ensures ParseText(['\\', e] + tail) == Before(Simple(e).value, ParseText(tail))
  {
    assert (['\\', e] + tail)[2..] == tail;
  }

  lemma {:induction false} EscapeParses(c: char, tail: string)
    ensures ParseText(Escape(c) + tail) == Before(c, ParseText(tail))
  {
    hide Unit, ParseText;
    if IsPlain(c) {
      PlainParses(c, tail);
    } else if c as int >= 0x1_0000 {
      var v := c as int - 0x1_0000;
      PairParses(0xD800 + v / 0x400, 0xDC00 + v % 0x400, tail);
    } else if |Escape(c)| == 2 {
      SimpleParses(Escape(c)[1], tail);
    } else {
      UnitParses(c as int, tail);
    }
  }

  /** A written string reads back as itself. */
  lemma {:induction false} TextRoundTrip(s: string, rest: string)
    ensures ParseText(EscapeAll(s) + "\"" + rest) == Parsed(s, rest)
  {
    hide Escape;
    if s == "" {
      assert EscapeAll(s) + "\"" + rest == ['"'] + rest;
    } else {
      hide ParseText;
      var tail := EscapeAll(s[1..]) + "\"" + rest;
      TextRoundTrip(s[1..], rest);
      assert EscapeAll(s) + "\"" + rest == Escape(s[0]) + tail;
      EscapeParses(s[0], tail);
      assert [s[0]] + s[1..] == s;
    }
  }

  // ---------------------------------------------------------------- numbers

  function DigitRun(s: string): (n: nat)
    ensures n <= |s| && AllDigits(s[..n])
    ensures n < |s| ==> !IsDigit(s[n])
  {
    if s != "" && IsDigit(s[0]) then
      var n := DigitRun(s[1..]);
      assert s[..1 + n] == [s[0]] + s[1..][..n];
      1 + n
    else 0
  }

  function FractionLength(s: string): (n: nat)
    ensures n <= |s|
  {
    if StartsWith(s, '.') && DigitRun(s[1..]) > 0 then 1 + DigitRun(s[1..]) else 0
  }

  function ExponentLength(s: string): (n: nat)
    ensures n <= |s|
  {
    if !StartsWith(s, 'e') && !StartsWith(s, 'E') then 0
    else
      var sign := if StartsWith(s[1..], '+') || StartsWith(s[1..], '-') then 1 else 0;
      var digits := DigitRun(s[1 + sign..]);
      if digits > 0 then 1 + sign + digits else 0
  }

  /** The value of an exponent part, 0 if there is none. */
  function ExponentValue(s: string): int
  {
    if ExponentLength(s) == 0 then 0
    else
      var sign := if StartsWith(s[1..], '+') || StartsWith(s[1..], '-') then 1 else 0;
      var digits := s[1 + sign..];
      var magnitude: int := IntOf(digits[..DigitRun(digits)]);
      if StartsWith(s[1..], '-') then -magnitude else magnitude
  }

  function FractionDigits(s: string): (t: string)
    ensures AllDigits(t)
  {
    if FractionLength(s) == 0 then "" else s[1..][..DigitRun(s[1..])]
  }

  /** Digits before a point: a zero stands alone. */
  function IntegerLength(t: string): (n: nat)
    requires t != "" && IsDigit(t[0])
    ensures 1 <= n <= |t| && AllDigits(t[..n])
  {
    if t[0] == '0' then 1 else DigitRun(t)
  }

  /** An integer, or a float if a fraction or an exponent follows. */
  function ParseNumber(s: string): (r: Parsed<Value>)
    ensures r.Parsed? ==> |r.rest| < |s|
  {
    var t := if StartsWith(s, '-') then s[1..] else s;
    if t == "" || !IsDigit(t[0]) then Bad
    else
      var n := IntegerLength(t);
      var rest := t[n..];
      var tail := rest[FractionLength(rest)..];
      var more := FractionLength(rest) + ExponentLength(tail);
      var magnitude: int := IntOf(t[..n] + FractionDigits(rest));
      var signed := if StartsWith(s, '-') then -magnitude else magnitude;
      if more > 0 then Parsed(Float(signed, ExponentValue(tail) - |FractionDigits(rest)|), rest[more..])
      else Parsed(Number(signed), rest)
  }

  function Numeral(n: int): string { if n < 0 then "-" + Digits(-n) else Digits(n) }

  /** Where a number ends: at anything that cannot continue it. */
  predicate EndsNumber(s: string)
  {
    s == "" || (!IsDigit(s[0]) && s[0] != '.' && s[0] != 'e' && s[0] != 'E')
  }

  /** Nothing that ends a number adds to it. */
  lemma NoFraction(rest: string)
    requires EndsNumber(rest)
    ensures FractionLength(rest) == 0 && ExponentLength(rest) == 0 && FractionDigits(rest) == ""
  {
  }

  lemma {:induction false} DigitRunStops(t: string, rest: string)
    requires AllDigits(t) && (rest == "" || !IsDigit(rest[0]))
    ensures DigitRun(t + rest) == |t|
  {
    if t == "" {
      assert t + rest == rest;
    } else {
      DigitRunStops(t[1..], rest);
      assert (t + rest)[1..] == t[1..] + rest;
    }
  }

  lemma {:induction false} NumeralShape(n: nat)
    ensures Digits(n)[0] == '0' ==> Digits(n) == "0"
  {
    if n >= 10 {
      NumeralShape(n / 10);
      if n / 10 < 10 {
        assert Digits(n / 10) == [DigitChar(n / 10)];
      }
    }
  }

  lemma {:induction false} DigitsParse(n: nat, rest: string)
    requires EndsNumber(rest)
    ensures ParseNumber(Digits(n) + rest) == Parsed(Number(n), rest)
  {
    hide Digits, FractionLength, ExponentLength, FractionDigits, ExponentValue;
    NoFraction(rest);
    var t := Digits(n);
    var s := t + rest;
    assert t + "" == t && rest[0..] == rest;
    assert s[0] == t[0] && s[..|t|] == t && s[|t|..] == rest;
    DigitRunStops(t, rest);
    NumeralShape(n);
    DigitsDenote(n);
  }

  lemma {:induction false} NegativeParses(n: nat, rest: string)
    requires EndsNumber(rest)
    ensures ParseNumber("-" + Digits(n) + rest) == Parsed(Number(-(n as int)), rest)
  {
    hide Digits, FractionLength, ExponentLength, FractionDigits, ExponentValue;
    NoFraction(rest);
    var t := Digits(n);
    var s := t + rest;
    assert ("-" + t + rest)[1..] == s;
    assert t + "" == t && rest[0..] == rest;
    assert s[0] == t[0] && s[..|t|] == t && s[|t|..] == rest;
    DigitRunStops(t, rest);
    NumeralShape(n);
    DigitsDenote(n);
  }

  /** The float 2.0, the only one that is written here. */
  const TWO := Float(20, -1)

  lemma {:induction false} TwoParses(rest: string)
    requires EndsNumber(rest)
    ensures ParseNumber("2.0" + rest) == Parsed(TWO, rest)
  {
    hide DigitRun, FractionLength, FractionDigits, ExponentLength, ExponentValue, IntOf, EndsNumber;
    var s, f := "2.0" + rest, ".0" + rest;
    assert s[0] == '2' && s[1..] == f && f[2..] == rest && s == "2" + f;
    DigitRunStops("2", f);
    NoFraction(rest);
    NoExponent(rest);
    ZeroFraction(rest);
    assert s[..1] + "0" == "20";
    TwentyIs();
  }

  lemma TwentyIs()
    ensures IntOf("20") == 20
  {
    assert "20"[..1] == "2" && "2"[..0] == "";
  }

  lemma NoExponent(rest: string)
    requires EndsNumber(rest)
    ensures ExponentValue(rest) == 0
  {
  }

  lemma {:induction false} ZeroFraction(rest: string)
    requires EndsNumber(rest)
    ensures var f := ".0" + rest;
      FractionLength(f) == 2 && FractionDigits(f) == "0"
  {
    hide DigitRun;
    var f := ".0" + rest;
    assert f[1..] == "0" + rest;
    DigitRunStops("0", rest);
  }

  /** A decimal that Python reads as the float 2.0: floats are spaced 2^-52 below 2 and 2^-51
      above, and a tie goes to 2. */
  predicate RoundsToTwo(mantissa: int, exponent: int)
  {
    && mantissa > 0
    && if exponent >= 0 then
         0x3F_FFFF_FFFF_FFFF <= 0x20_0000_0000_0000 * Shift(mantissa, exponent) <= 0x40_0000_0000_0002
       else
         && Shift(0x3F_FFFF_FFFF_FFFF, -exponent) <= 0x20_0000_0000_0000 * mantissa
         && 0x20_0000_0000_0000 * mantissa <= Shift(0x40_0000_0000_0002, -exponent)
  }

  // ---------------------------------------------------------------- documents

  const LITERALS := ["null", "true", "false", "NaN", "Infinity", "-Infinity"]

  function Literal(s: string, k: nat): (r: Parsed<Value>)
    requires k <= |LITERALS|
    ensures r.Parsed? ==> |r.rest| < |s|
    decreases |LITERALS| - k
  {
    if k == |LITERALS| then Bad
    else if LITERALS[k] <= s then Parsed(Other, s[|LITERALS[k]|..])
    else Literal(s, k + 1)
  }

  function ParseValue(s: string): (r: Parsed<Value>)
    ensures r.Parsed? ==> |r.rest| < |s|
    decreases |s|, 0
  {
    if StartsWith(s, '"') then
      var p := ParseText(s[1..]);
      if p.Bad? then Bad else Parsed(Text(p.value), p.rest)
    else if StartsWith(s, '{') then
      var t := SkipSpace(s[1..]);
      if StartsWith(t, '}') then Parsed(Object(map[]), t[1..]) else ParseMembers(t, map[])
    else if StartsWith(s, '[') then
      var t := SkipSpace(s[1..]);
      if StartsWith(t, ']') then Parsed(Other, t[1..]) else ParseElements(t)
    else
      var n := ParseNumber(s);
      if n.Parsed? then n else Literal(s, 0)
  }

  /** Members up to the closing brace; of a repeated key the last stands. */
  function ParseMembers(s: string, fields: map<string, Value>): (r: Parsed<Value>)
    ensures r.Parsed? ==> |r.rest| < |s|
    decreases |s|, 1
  {
    if !StartsWith(s, '"') then Bad
    else
      var key := ParseText(s[1..]);
      if key.Bad? then Bad
      else
        var colon := SkipSpace(key.rest);
        if !StartsWith(colon, ':') then Bad
        else
          var v := ParseValue(SkipSpace(colon[1..]));
          if v.Bad? then Bad
          else
            var more, after := fields[key.value := v.value], SkipSpace(v.rest);
            if StartsWith(after, '}') then Parsed(Object(more), after[1..])
            else if StartsWith(after, ',') then ParseMembers(SkipSpace(after[1..]), more)
            else Bad
  }

  function ParseElements(s: string): (r: Parsed<Value>)
    ensures r.Parsed? ==> |r.rest| < |s|
    decreases |s|, 1
  {
    var v := ParseValue(s);
    if v.Bad? then Bad
    else
      var after := SkipSpace(v.rest);
      if StartsWith(after, ']') then Parsed(Other, after[1..])
      else if StartsWith(after, ',') then ParseElements(SkipSpace(after[1..]))
      else Bad
  }

  /** A whole document, or nothing if the text is none. */
  function Loads(s: string): Option<Value>
  {
    var p := ParseValue(SkipSpace(s));
    if p.Parsed? && SkipSpace(p.rest) == "" then Some(p.value) else None
  }

  // ---------------------------------------------------------------- flat objects

  predicate IsAtom(v: Value) { v.Text? || v.Number? || v == TWO }

  function Render(v: Value): string
    requires IsAtom(v)
  {
    if v.Text? then Quote(v.text) else if v.Number? then Numeral(v.n) else "2.0"
  }

  type Member = m: (string, Value) | IsAtom(m.1) witness ("", Number(0))

  function RenderMember(m: Member): string { Quote(m.0) + ":" + Render(m.1) }

  /** Members separated by commas, without spaces. */
  function RenderMembers(ms: seq<Member>): string
    requires ms != []
  {
    if |ms| == 1 then RenderMember(ms[0]) else RenderMember(ms[0]) + "," + RenderMembers(ms[1..])
  }

  function RenderObject(ms: seq<Member>): string
    requires ms != []
  {
    "{" + RenderMembers(ms) + "}"
  }

  function FieldsOf(ms: seq<Member>, fields: map<string, Value>): map<string, Value>
  {
    if ms == [] then fields else FieldsOf(ms[1..], fields[ms[0].0 := ms[0].1])
  }

  lemma {:induction false} AtomRoundTrip(v: Value, rest: string)
    requires IsAtom(v) && EndsNumber(rest)
    ensures ParseValue(Render(v) + rest) == Parsed(v, rest)
    ensures !IsSpace((Render(v) + rest)[0])
  {
    hide ParseText, ParseNumber, EscapeAll, Digits;
    var s := Render(v) + rest;
    if v.Text? {
      TextRoundTrip(v.text, rest);
      assert s[1..] == EscapeAll(v.text) + "\"" + rest;
    } else if v.Float? {
      TwoParses(rest);
    } else {
      var n: nat := if v.n < 0 then -v.n else v.n;
      DigitsParse(n, rest);
      NegativeParses(n, rest);
      assert IsDigit(Digits(n)[0]);
      assert s == if v.n < 0 then "-" + Digits(n) + rest else Digits(n) + rest;
    }
  }

  lemma SkipNothing(s: string)
    requires s == "" || !IsSpace(s[0])
    ensures SkipSpace(s) == s
  {
  }

  /** Reading one member leaves what follows it. */
  lemma {:induction false} MemberParses(m: Member, rest: string, fields: map<string, Value>)
    requires StartsWith(rest, ',') || StartsWith(rest, '}')
    ensures ParseMembers(RenderMember(m) + rest, fields)
      == if StartsWith(rest, '}') then Parsed(Object(fields[m.0 := m.1]), rest[1..])
         else ParseMembers(SkipSpace(rest[1..]), fields[m.0 := m.1])
  {
    hide ParseText, ParseValue, Render, EscapeAll, SkipSpace;
    var s := RenderMember(m) + rest;
    var value := Render(m.1) + rest;
    var colon := ":" + value;
    TextRoundTrip(m.0, colon);
    assert s[1..] == EscapeAll(m.0) + "\"" + colon;
    SkipNothing(colon);
    assert colon[1..] == value;
    AtomRoundTrip(m.1, rest);
    SkipNothing(value);
    SkipNothing(rest);
  }

  lemma MemberStarts(m: Member, rest: string)
    ensures (RenderMember(m) + rest)[0] == '"'
  {
  }

  lemma {:induction false} MembersParse(ms: seq<Member>, rest: string, fields: map<string, Value>)
    requires ms != []
    ensures ParseMembers(RenderMembers(ms) + "}" + rest, fields) == Parsed(Object(FieldsOf(ms, fields)), rest)
    ensures (RenderMembers(ms) + "}" + rest)[0] == '"'
  {
    hide ParseMembers, RenderMember, SkipSpace;
    var m := ms[0];
    if |ms| == 1 {
      MemberParses(m, "}" + rest, fields);
      MemberStarts(m, "}" + rest);
      assert RenderMembers(ms) + "}" + rest == RenderMember(m) + ("}" + rest);
      assert FieldsOf(ms, fields) == fields[m.0 := m.1];
    } else {
      var tail := RenderMembers(ms[1..]) + "}" + rest;
      MembersParse(ms[1..], rest, fields[m.0 := m.1]);
      assert RenderMembers(ms) + "}" + rest == RenderMember(m) + ("," + tail);
      MemberParses(m, "," + tail, fields);
      MemberStarts(m, "," + tail);
      assert ("," + tail)[1..] == tail;
      SkipNothing(tail);
    }
  }

  /** A written object reads back as its fields. */
  lemma {:induction false} ObjectRoundTrip(ms: seq<Member>)
    requires ms != []
    ensures Loads(RenderObject(ms)) == Some(Object(FieldsOf(ms, map[])))
  {
    hide ParseMembers, RenderMembers, SkipSpace, FieldsOf;
    var s := RenderObject(ms);
    var inner := RenderMembers(ms) + "}" + "";
    MembersParse(ms, "", map[]);
    assert s == "{" + inner && s[1..] == inner;
    SkipNothing(s);
    SkipNothing(inner);
    SkipNothing("");
  }
}
