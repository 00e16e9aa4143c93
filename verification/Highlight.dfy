/** Marking the words of a query in a text: collecting ranges, merging them, splitting the
    text. Text is ASCII, so lower-casing keeps every position. */
module Highlight {
  import T = Text

  datatype Range = Range(start: nat, end: nat)

  datatype Part = Part(text: string, hit: bool)

  type Word = s: string | s != "" witness "a"

  const SHORT := 3

  const SUFFIXES: seq<Word> := ["ing", "ed", "es", "s"]

  predicate IsAlnum(c: char) { 'a' <= c <= 'z' || '0' <= c <= '9' }

  predicate IsTokenChar(c: char) { IsAlnum(c) || c == '+' || c == '.' }

  // ---------------------------------------------------------------- tokens

  function RunLength(s: string): (n: nat)
    ensures n <= |s|
  {
    if s != "" && IsTokenChar(s[0]) then 1 + RunLength(s[1..]) else 0
  }

  /** The maximal runs of token characters, in order. */
  function Tokenize(s: string): seq<Word>
    decreases |s|
  {
    if s == "" then []
    else if !IsTokenChar(s[0]) then Tokenize(s[1..])
    else [s[..RunLength(s)]] + Tokenize(s[RunLength(s)..])
  }

  predicate AllTokenChars(s: string) { forall i :: 0 <= i < |s| ==> IsTokenChar(s[i]) }

  predicate NoTokenChars(s: string) { forall i :: 0 <= i < |s| ==> !IsTokenChar(s[i]) }

  /** A gap, then each token with the gap after it. */
  function Woven(gaps: seq<string>, tokens: seq<Word>): string
    requires |gaps| == |tokens| + 1
  {
    if tokens == [] then gaps[0] else gaps[0] + tokens[0] + Woven(gaps[1..], tokens[1..])
  }

  lemma {:induction false} RunIsMaximal(s: string)
    ensures AllTokenChars(s[..RunLength(s)])
    ensures RunLength(s) < |s| ==> !IsTokenChar(s[RunLength(s)])
  {
    if s != "" && IsTokenChar(s[0]) {
      RunIsMaximal(s[1..]);
      assert s[..RunLength(s)] == [s[0]] + s[1..][..RunLength(s[1..])];
    }
  }

  /** The text is woven of these tokens and of gaps that hold no token character and,
      between two tokens, are not empty. */
  ghost predicate Weaves(s: string, tokens: seq<Word>, gaps: seq<string>)
  {
    && |gaps| == |tokens| + 1 && Woven(gaps, tokens) == s
    && (forall t :: t in tokens ==> AllTokenChars(t))
    && (forall g :: g in gaps ==> NoTokenChars(g))
    && (forall i :: 0 < i < |tokens| ==> gaps[i] != "")
  }

  lemma {:induction false} WidenGap(c: char, s: string, tokens: seq<Word>, gaps: seq<string>)
    requires Weaves(s, tokens, gaps) && !IsTokenChar(c)
    ensures Weaves([c] + s, tokens, [[c] + gaps[0]] + gaps[1..])
  {
    hide IsTokenChar;
    var wider := [[c] + gaps[0]] + gaps[1..];
    assert wider[1..] == gaps[1..] && gaps[0] in gaps;
    if tokens != [] {
      assert [c] + (gaps[0] + tokens[0] + Woven(gaps[1..], tokens[1..]))
        == [c] + gaps[0] + tokens[0] + Woven(gaps[1..], tokens[1..]);
    }
  }

  lemma {:induction false} PutToken(t: Word, s: string, tokens: seq<Word>, gaps: seq<string>)
    requires Weaves(s, tokens, gaps) && AllTokenChars(t) && (tokens != [] ==> gaps[0] != "")
    ensures Weaves(t + s, [t] + tokens, [""] + gaps)
  {
    hide IsTokenChar;
    assert ([""] + gaps)[1..] == gaps && ([t] + tokens)[1..] == tokens;
    assert "" + t + s == t + s;
  }

  /** The tokens are the maximal runs of token characters. */
  lemma {:induction false} TokensAreRuns(s: string) returns (gaps: seq<string>)
    ensures |gaps| == |Tokenize(s)| + 1 && Weaves(s, Tokenize(s), gaps)
    ensures s != "" && !IsTokenChar(s[0]) ==> gaps[0] != ""
    decreases |s|
  {
    hide RunLength, Weaves, IsTokenChar;
    if s == "" {
      gaps := [""];
      NothingWoven();
    } else if !IsTokenChar(s[0]) {
      var inner := TokensAreRuns(s[1..]);
      assert [s[0]] + s[1..] == s;
      WidenGap(s[0], s[1..], Tokenize(s[1..]), inner);
      gaps := [[s[0]] + inner[0]] + inner[1..];
    } else {
      var n := RunLength(s);
      RunStarts(s);
      RunIsMaximal(s);
      var inner := TokensAreRuns(s[n..]);
      assert s[..n] + s[n..] == s;
      TokensNeedText(s[n..]);
      PutToken(s[..n], s[n..], Tokenize(s[n..]), inner);
      gaps := [""] + inner;
    }
  }

  lemma NothingWoven()
    ensures Weaves("", [], [""])
  {
  }

  lemma TokensNeedText(s: string)
    ensures Tokenize(s) != [] ==> s != ""
  {
  }

  lemma RunStarts(s: string)
    requires s != "" && IsTokenChar(s[0])
    ensures RunLength(s) > 0
  {
  }

  function LongerThanOne(tokens: seq<Word>): seq<Word>
  {
    if tokens == [] then []
    else (if |tokens[0]| > 1 then [tokens[0]] else []) + LongerThanOne(tokens[1..])
  }

  function QueryTokens(query: string): seq<Word> { LongerThanOne(Tokenize(T.Lower(query))) }

  /** The stem an ending leaves, if what is left is long enough. */
  function Stem(token: Word, suffix: Word): Word
  {
    var cut: int := |token| - |suffix|;
    if cut > 2 && token[cut..] == suffix then token[..cut] else token
  }

  function WithStem(out: seq<Word>, stem: Word): seq<Word>
  {
    if stem in out then out else out + [stem]
  }

  function VariantsUpTo(token: Word, k: nat): seq<Word>
    requires k <= |SUFFIXES|
  {
    if k == 0 then [token] else WithStem(VariantsUpTo(token, k - 1), Stem(token, SUFFIXES[k - 1]))
  }

  function Variants(token: Word): seq<Word> { VariantsUpTo(token, |SUFFIXES|) }

  method VariantsOf(token: Word) returns (out: seq<Word>)
    ensures out == Variants(token)
  {
    out := [token];
    NoVariantsYet(token);
    hide VariantsUpTo;
    for k := 0 to |SUFFIXES|
      invariant out == VariantsUpTo(token, k)
    {
      var suffix := SUFFIXES[k];
      VariantsStep(token, k, k + 1);
      TokenIsFirst(token, k);
      if |token| > |suffix| + 2 && token[|token| - |suffix|..] == suffix {
        var stem := token[..|token| - |suffix|];
        if stem !in out {
          out := out + [stem];
        }
      }
    }
  }

  lemma NoVariantsYet(token: Word)
    ensures VariantsUpTo(token, 0) == [token]
  {
  }

  lemma VariantsStep(token: Word, k: nat, next: nat)
    requires k < |SUFFIXES| && next == k + 1
    ensures VariantsUpTo(token, next) == WithStem(VariantsUpTo(token, k), Stem(token, SUFFIXES[k]))
  {
  }

  lemma {:induction false} TokenIsFirst(token: Word, k: nat)
    requires k <= |SUFFIXES|
    ensures VariantsUpTo(token, k) != [] && VariantsUpTo(token, k)[0] == token
  {
    if k > 0 {
      TokenIsFirst(token, k - 1);
    }
  }

  /** The variants are the token and its stems of three letters or more, each once. */
  lemma {:induction false} VariantsExactly(token: Word, k: nat, v: Word)
    requires k <= |SUFFIXES|
    ensures v in VariantsUpTo(token, k)
      <==> v == token || (|v| > 2 && exists i :: 0 <= i < k && token == v + SUFFIXES[i])
    ensures forall i, j :: 0 <= i < j < |VariantsUpTo(token, k)| ==>
      VariantsUpTo(token, k)[i] != VariantsUpTo(token, k)[j]
  {
    if k > 0 {
      VariantsExactly(token, k - 1, v);
      TokenIsFirst(token, k - 1);
      StemExactly(token, SUFFIXES[k - 1], v);
    }
  }

  /** The stems cut off one of four endings. */
  lemma {:induction false} StemsExactly(token: Word, v: Word)
    ensures v in Variants(token) <==>
      || v == token
      || (|v| > 2 && (token == v + "ing" || token == v + "ed" || token == v + "es" || token == v + "s"))
  {
    hide VariantsUpTo;
    VariantsExactly(token, 4, v);
    assert SUFFIXES[0] == "ing" && SUFFIXES[1] == "ed" && SUFFIXES[2] == "es" && SUFFIXES[3] == "s";
  }

  lemma StemExactly(token: Word, suffix: Word, v: Word)
    ensures v == Stem(token, suffix) && v != token ==> |v| > 2 && token == v + suffix
    ensures |v| > 2 && token == v + suffix ==> v == Stem(token, suffix)
  {
  }

  // ---------------------------------------------------------------- finding a token

  predicate At(h: string, t: string, p: nat)
  {
    p + |t| <= |h| && h[p..p + |t|] == t
  }

  /** The token stands at p and no letter or digit follows it. */
  predicate WordAt(h: string, t: string, p: nat)
  {
    At(h, t, p) && (p + |t| == |h| || !IsAlnum(h[p + |t|]))
  }

  /** Where the boundary expression matches: at the start of the text, or from a character
      that is no letter or digit, which it consumes. */
  predicate BoundaryAt(h: string, t: string, m: nat)
  {
    (m == 0 && WordAt(h, t, 0)) || (m < |h| && !IsAlnum(h[m]) && WordAt(h, t, m + 1))
  }

  /** A short token must match the boundary expression, a long one only occur. */
  predicate MatchesAt(h: string, t: string, m: nat)
  {
    if |t| > SHORT then At(h, t, m) else BoundaryAt(h, t, m)
  }

  function FirstMatch(h: string, t: string, from: nat): (r: int)
    requires from <= |h| + 1
    ensures r == -1 || (from <= r <= |h| && MatchesAt(h, t, r))
    ensures forall m: nat :: from <= m <= |h| && (r == -1 || m < r) ==> !MatchesAt(h, t, m)
    decreases |h| + 1 - from
  {
    if from > |h| then -1
    else if MatchesAt(h, t, from) then from
    else FirstMatch(h, t, from + 1)
  }

  /** The index reported for a match at m. */
  function Reported(t: string, m: nat): nat
  {
    if |t| > SHORT || m == 0 then m else m + 1
  }

  function IndexOfToken(h: string, t: string): (r: int)
    ensures r == -1 || (0 <= r && r + |t| <= |h|)
  {
    var m := FirstMatch(h, t, 0);
    if m == -1 then -1 else Reported(t, m)
  }

  /** A search from p goes wrong: the token does not stand at p, but one further on behind a
      boundary character, which the match consumes. */
  predicate Misplaces(h: string, t: string, p: nat)
  {
    |t| <= SHORT && p < |h| && !IsAlnum(h[p]) && !At(h, t, p) && WordAt(h, t, p + 1)
  }

  /** The index reported is where the token stands, except exactly for a search that goes
      wrong at the start of the text: that reports the start. */
  lemma {:induction false} MisreportedExactly(h: string, t: string)
    requires t != "" && IndexOfToken(h, t) != -1
    ensures !At(h, t, IndexOfToken(h, t)) <==> Misplaces(h, t, 0)
    ensures Misplaces(h, t, 0) ==> IndexOfToken(h, t) == 0
  {
  }

  /** It does go wrong: the index of "ab" in " ab" is 0. */
  lemma {:induction false} MisreportExample()
    ensures IndexOfToken(" ab", "ab") == 0 && !At(" ab", "ab", 0)
  {
    assert MatchesAt(" ab", "ab", 0);
  }

  // ---------------------------------------------------------------- ranges

  /** Ranges of one variant, each search starting at the end of the range before. */
  function Found(text: string, variant: Word, from: nat): seq<Range>
    requires from <= |text|
    decreases |text| - from
  {
    var at := IndexOfToken(text[from..], variant);
    if at == -1 then []
    else
      var end := from + at + |variant|;
      [Range(from + at, end)] + Found(text, variant, end)
  }

  lemma {:induction false} FoundAtStart(h: string, t: Word)
    requires MatchesAt(h, t, 0)
    ensures IndexOfToken(h, t) == 0
  {
  }

  /** Each search starts afresh in mid-text, so it goes wrong there too: the second mark
      falls on the space and the t. */
  lemma {:induction false} MismarkExample()
    ensures Found("to to", "to", 0) == [Range(0, 2), Range(2, 4)] && !At("to to", "to", 2)
  {
    var text := "to to";
    assert text[0..] == text && text[2..] == " to" && text[4..] == "o" && text[2..4] == " t";
    FoundAtStart(text, "to");
    FoundAtStart(" to", "to");
    hide IndexOfToken, At, FirstMatch, MatchesAt;
    assert IndexOfToken("o", "to") == -1;
    assert Found(text, "to", 4) == [];
    assert Found(text, "to", 2) == [Range(2, 4)] + Found(text, "to", 4);
    assert Found(text, "to", 0) == [Range(0, 2)] + Found(text, "to", 2);
  }

  function FoundOf(text: string, variants: seq<Word>): seq<Range>
  {
    if variants == [] then []
    else FoundOf(text, variants[..|variants| - 1]) + Found(text, variants[|variants| - 1], 0)
  }

  function Collected(text: string, tokens: seq<Word>): seq<Range>
  {
    if tokens == [] then []
    else Collected(text, tokens[..|tokens| - 1]) + FoundOf(text, Variants(tokens[|tokens| - 1]))
  }

  predicate Within(rs: seq<Range>, n: nat)
  {
    forall k :: 0 <= k < |rs| ==> rs[k].start < rs[k].end <= n
  }

  /** Some range meets the characters from..upto. */
  ghost predicate Touches(rs: seq<Range>, from: nat, upto: nat)
  {
    exists k :: 0 <= k < |rs| && rs[k].start < upto && from < rs[k].end
  }

  lemma {:induction false} AtShift(text: string, variant: string, from: nat, p: nat)
    requires from <= p
    requires from <= |text|
    ensures At(text, variant, p) <==> At(text[from..], variant, p - from)
  {
    if p + |variant| <= |text| {
      assert text[from..][p - from..p - from + |variant|] == text[p..p + |variant|];
    }
  }

  predicate Spells(text: string, r: Range, word: string)
  {
    r.end == r.start + |word| && At(text, word, r.start)
  }

  /** A long variant occurs wherever it stands, a short one as a whole word. */
  predicate Occurs(text: string, variant: Word, p: nat)
  {
    if |variant| > SHORT then At(text, variant, p)
    else WordAt(text, variant, p) && (p == 0 || !IsAlnum(text[p - 1]))
  }

  /** A word occurs where it stands in the text; a word of at most three characters only with
      no letter or digit beside it. */
  lemma {:induction false} OccursExactly(text: string, variant: Word, p: nat)
    ensures Occurs(text, variant, p) <==>
      var end := p + |variant|;
      && end <= |text| && text[p..end] == variant
      && (|variant| <= 3 ==> (p > 0 ==> !InWord(text[p - 1])) && (end < |text| ==> !InWord(text[end])))
  {
  }

  /** The codes of lower-case letters and digits. */
  predicate InWord(c: char) { 97 <= c as int < 123 || 48 <= c as int < 58 }

  lemma TokenCharExactly(c: char)
    ensures IsTokenChar(c) <==> IsAlnum(c) || c in "+."
  {
  }

  lemma {:induction false} WordShift(text: string, variant: Word, from: nat, p: nat)
    requires from <= p && from <= |text|
    ensures WordAt(text, variant, p) <==> WordAt(text[from..], variant, p - from)
  {
    AtShift(text, variant, from, p);
  }

  lemma {:induction false} MisplacesShift(text: string, variant: Word, from: nat)
    requires from <= |text|
    ensures Misplaces(text, variant, from) <==> Misplaces(text[from..], variant, 0)
  {
    hide WordAt, At;
    AtShift(text, variant, from, from);
    WordShift(text, variant, from, from + 1);
  }

  /** No occurrence is left without a marked character, short or long. */
  lemma {:induction false} FoundTouches(text: string, variant: Word, from: nat, p: nat)
    requires from <= |text| && from <= p && Occurs(text, variant, p)
    ensures Touches(Found(text, variant, from), p, p + |variant|)
    decreases |text| - from
  {
    hide IndexOfToken;
    assert OccursFrom(text, variant, from, p);
    FoundByThen(text, variant, from, p);
    var start := from + IndexOfToken(text[from..], variant);
    var end := start + |variant|;
    var rs, more := Found(text, variant, from), Found(text, variant, end);
    if p < end {
      assert rs[0].start < p + |variant| && p < rs[0].end;
    } else {
      FoundTouches(text, variant, end, p);
      var k :| 0 <= k < |more| && more[k].start < p + |variant| && p < more[k].end;
      assert rs[k + 1] == more[k];
    }
  }

  /** Where the search for the k-th range starts. */
  function SearchStart(text: string, variant: Word, from: nat, k: nat): nat
    requires from <= |text| && k < |Found(text, variant, from)|
  {
    if k == 0 then from else Found(text, variant, from)[k - 1].end
  }

  /** Every range spells its variant, except exactly those whose search goes wrong where it
      starts: such a range starts there and the variant stands one further on. */
  lemma {:induction false} FoundSpellsExactly(text: string, variant: Word, from: nat, k: nat)
    requires from <= |text| && k < |Found(text, variant, from)|
    ensures var r, base := Found(text, variant, from)[k], SearchStart(text, variant, from, k);
      && r.end == r.start + |variant|
      && (Spells(text, r, variant) <==> !Misplaces(text, variant, base))
      && (!Spells(text, r, variant) ==> r.start == base && At(text, variant, r.start + 1))
    decreases k
  {
    hide IndexOfToken, Misplaces, At;
    var at := IndexOfToken(text[from..], variant);
    var end := from + at + |variant|;
    if k == 0 {
      MisreportedExactly(text[from..], variant);
      MisplacesShift(text, variant, from);
      AtShift(text, variant, from, from + at);
      MisplacedStandsNext(text, variant, from);
    } else {
      FoundSpellsExactly(text, variant, end, k - 1);
      assert Found(text, variant, from)[k] == Found(text, variant, end)[k - 1];
    }
  }

  lemma MisplacedStandsNext(text: string, variant: Word, p: nat)
    ensures Misplaces(text, variant, p) ==> At(text, variant, p + 1)
  {
  }

  /** An occurrence for a search that starts at `from`: a short variant must be a whole
      word, counted from there. */
  predicate OccursFrom(text: string, variant: Word, from: nat, p: nat)
  {
    from <= p
    && if |variant| > SHORT then At(text, variant, p)
       else WordAt(text, variant, p) && (p == from || !IsAlnum(text[p - 1]))
  }

  /** First occurrence from a place on, or -1. */
  function NextOccurrence(text: string, variant: Word, from: nat, p: nat): (r: int)
    requires from <= p <= |text| + 1
    ensures r == -1 || (p <= r && OccursFrom(text, variant, from, r) && r + |variant| <= |text|)
    ensures forall q: nat :: p <= q && (r == -1 || q < r) ==> !OccursFrom(text, variant, from, q)
    decreases |text| + 1 - p
  {
    if p > |text| then -1
    else if OccursFrom(text, variant, from, p) then p
    else NextOccurrence(text, variant, from, p + 1)
  }

  /** What the ranges should be: the occurrences from left to right, each sought from the
      end of the one before. */
  function Reference(text: string, variant: Word, from: nat): seq<Range>
    requires from <= |text|
    decreases |text| - from
  {
    var p := NextOccurrence(text, variant, from, from);
    if p == -1 then [] else [Range(p, p + |variant|)] + Reference(text, variant, p + |variant|)
  }

  ghost predicate AllSpell(text: string, variant: Word, rs: seq<Range>)
  {
    forall r :: r in rs ==> Spells(text, r, variant)
  }

  ghost predicate EndsClean(text: string, variant: Word, rs: seq<Range>)
  {
    forall r :: r in rs ==> !Misplaces(text, variant, r.end)
  }

  /** A search starts no later than the next occurrence. */
  lemma {:induction false} FoundByThen(text: string, variant: Word, from: nat, p: nat)
    requires from <= |text| && OccursFrom(text, variant, from, p)
    ensures IndexOfToken(text[from..], variant) != -1 && from + IndexOfToken(text[from..], variant) <= p
  {
    var rest := text[from..];
    AtShift(text, variant, from, p);
    WordShift(text, variant, from, p);
    if |variant| > SHORT || p == from {
      assert MatchesAt(rest, variant, p - from);
    } else {
      assert rest[p - 1 - from] == text[p - 1];
      assert MatchesAt(rest, variant, p - 1 - from);
    }
  }

  /** A match at the very start that is not misplaced is the word itself: were a letter or
      digit to follow it, all its characters would be one boundary character. */
  lemma {:induction false} FirstIsWord(h: string, t: Word)
    requires |t| <= SHORT && BoundaryAt(h, t, 0) && !Misplaces(h, t, 0)
    ensures WordAt(h, t, 0)
  {
    if !WordAt(h, t, 0) {
      assert At(h, t, 0) && At(h, t, 1);
      assert forall j :: 0 <= j < |t| ==> h[j] == t[j] && h[1 + j] == t[j];
    }
  }

  /** A search that does not go wrong finds the next occurrence. */
  lemma {:induction false} FoundIsNext(text: string, variant: Word, from: nat)
    requires from <= |text| && !Misplaces(text, variant, from)
    ensures var at, next := IndexOfToken(text[from..], variant), NextOccurrence(text, variant, from, from);
      next == if at == -1 then -1 else from + at
  {
    var rest := text[from..];
    var at := IndexOfToken(rest, variant);
    forall p: nat | OccursFrom(text, variant, from, p) ensures at != -1 && from + at <= p {
      FoundByThen(text, variant, from, p);
    }
    if at != -1 {
      FoundOccurs(text, variant, from);
    }
  }

  lemma {:induction false} FoundOccurs(text: string, variant: Word, from: nat)
    requires from <= |text| && !Misplaces(text, variant, from) && IndexOfToken(text[from..], variant) != -1
    ensures OccursFrom(text, variant, from, from + IndexOfToken(text[from..], variant))
  {
    hide WordAt, Misplaces;
    var rest := text[from..];
    var m := FirstMatch(rest, variant, 0);
    var p := from + Reported(variant, m);
    assert MatchesAt(rest, variant, m);
    AtShift(text, variant, from, p);
    WordShift(text, variant, from, p);
    MisplacesShift(text, variant, from);
    if |variant| <= SHORT {
      if m == 0 {
        FirstIsWord(rest, variant);
      } else {
        assert rest[m] == text[from + m];
      }
    }
  }

  /** The ranges of a variant all spell it exactly when they are the reference ranges, and
      exactly when no search goes wrong, neither the first nor one from the end of a
      reference range. */
  lemma {:induction false} RangesSpellExactly(text: string, variant: Word, from: nat)
    requires from <= |text|
    ensures AllSpell(text, variant, Found(text, variant, from))
      <==> !Misplaces(text, variant, from) && EndsClean(text, variant, Reference(text, variant, from))
    ensures AllSpell(text, variant, Found(text, variant, from))
      <==> Found(text, variant, from) == Reference(text, variant, from)
    decreases |text| - from
  {
    hide IndexOfToken, Misplaces, OccursFrom, Spells, NextOccurrence;
    var at := IndexOfToken(text[from..], variant);
    var rs, ws := Found(text, variant, from), Reference(text, variant, from);
    ReferenceSpells(text, variant, from);
    if at != -1 {
      FoundSpellsExactly(text, variant, from, 0);
      assert rs[0] in rs;
    } else {
      NothingToMisplace(text, variant, from);
    }
    if !Misplaces(text, variant, from) {
      FoundIsNext(text, variant, from);
      if at != -1 {
        var end := from + at + |variant|;
        RangesSpellExactly(text, variant, end);
        var more, after := Found(text, variant, end), Reference(text, variant, end);
        assert rs == [rs[0]] + more && ws == [rs[0]] + after;
        assert forall r :: r in rs <==> r == rs[0] || r in more;
        assert forall r :: r in ws <==> r == rs[0] || r in after;
        assert rs[1..] == more && ws[1..] == after;
      }
    }
  }

  lemma {:induction false} ReferenceSpells(text: string, variant: Word, from: nat)
    requires from <= |text|
    ensures AllSpell(text, variant, Reference(text, variant, from))
    decreases |text| - from
  {
    hide NextOccurrence;
    var p := NextOccurrence(text, variant, from, from);
    if p != -1 {
      ReferenceSpells(text, variant, p + |variant|);
    }
  }

  lemma {:induction false} NothingToMisplace(text: string, variant: Word, from: nat)
    requires from <= |text| && IndexOfToken(text[from..], variant) == -1
    ensures !Misplaces(text, variant, from)
  {
    MisplacesShift(text, variant, from);
    assert !MatchesAt(text[from..], variant, 0);
  }

  lemma {:induction false} FoundWithin(text: string, variant: Word, from: nat)
    requires from <= |text|
    ensures Within(Found(text, variant, from), |text|)
    decreases |text| - from
  {
    hide IndexOfToken, Within;
    var at := IndexOfToken(text[from..], variant);
    NoneWithin(|text|);
    if at != -1 {
      var end := from + at + |variant|;
      FoundWithin(text, variant, end);
      OneWithin(from + at, end, |text|);
      WithinConcat([Range(from + at, end)], Found(text, variant, end), |text|);
    }
  }

  method CollectRanges(lower: string, tokens: seq<Word>) returns (ranges: seq<Range>)
    ensures ranges == Collected(lower, tokens) && Within(ranges, |lower|)
  {
    hide FoundOf, Variants, Within;
    ranges := [];
    NoneWithin(|lower|);
    for i := 0 to |tokens|
      invariant ranges == Collected(lower, tokens[..i]) && Within(ranges, |lower|)
    {
      var variants := VariantsOf(tokens[i]);
      var found := CollectVariants(lower, variants);
      WithinConcat(ranges, found, |lower|);
      ranges := ranges + found;
      assert tokens[..i + 1][..i] == tokens[..i];
    }
    assert tokens[..|tokens|] == tokens;
  }

  method CollectVariants(lower: string, variants: seq<Word>) returns (ranges: seq<Range>)
    ensures ranges == FoundOf(lower, variants) && Within(ranges, |lower|)
  {
    hide Found, Within;
    ranges := [];
    NoneWithin(|lower|);
    for j := 0 to |variants|
      invariant ranges == FoundOf(lower, variants[..j]) && Within(ranges, |lower|)
    {
      var found := FindAll(lower, variants[j]);
      FoundWithin(lower, variants[j], 0);
      WithinConcat(ranges, found, |lower|);
      ranges := ranges + found;
      assert variants[..j + 1][..j] == variants[..j];
    }
    assert variants[..|variants|] == variants;
  }

  lemma OneWithin(start: nat, end: nat, n: nat)
    requires start < end <= n
    ensures Within([Range(start, end)], n)
  {
  }

  lemma NoneWithin(n: nat)
    ensures Within([], n)
  {
  }

  lemma WithinConcat(a: seq<Range>, b: seq<Range>, n: nat)
    requires Within(a, n) && Within(b, n)
    ensures Within(a + b, n)
  {
  }

  method FindAll(text: string, variant: Word) returns (rs: seq<Range>)
    ensures rs == Found(text, variant, 0)
  {
    hide IndexOfToken;
    rs := [];
    var from := 0;
    while true
      invariant from <= |text|
      invariant rs + Found(text, variant, from) == Found(text, variant, 0)
      decreases |text| - from
    {
      var at := IndexOfToken(text[from..], variant);
      if at == -1 {
        return;
      }
      ghost var was := from;
      rs := rs + [Range(from + at, from + at + |variant|)];
      from := from + at + |variant|;
      assert Found(text, variant, was) == [rs[|rs| - 1]] + Found(text, variant, from);
    }
  }

  // ---------------------------------------------------------------- sorting and merging

  predicate Covers(rs: seq<Range>, i: nat)
  {
    exists k :: 0 <= k < |rs| && rs[k].start <= i < rs[k].end
  }

  predicate StartsSorted(rs: seq<Range>)
  {
    forall j, k :: 0 <= j < k < |rs| ==> rs[j].start <= rs[k].start
  }

  /** A gap lies between any two ranges. */
  predicate Separated(rs: seq<Range>)
  {
    forall j, k :: 0 <= j < k < |rs| ==> rs[j].end < rs[k].start
  }

  method SortByStart(ranges: seq<Range>, n: nat) returns (sorted: seq<Range>)
    requires Within(ranges, n)
    ensures StartsSorted(sorted) && Within(sorted, n) && |sorted| == |ranges|
    ensures forall i: nat :: Covers(sorted, i) <==> Covers(ranges, i)
  {
    sorted := [];
    for k := 0 to |ranges|
      invariant StartsSorted(sorted) && Within(sorted, n) && |sorted| == k
      invariant forall i: nat :: Covers(sorted, i) <==> Covers(ranges[..k], i)
    {
      ghost var before := sorted;
      sorted := InsertByStart(sorted, ranges[k], n);
      forall i: nat ensures Covers(sorted, i) <==> Covers(ranges[..k + 1], i) {
        CoversAppend(ranges[..k], ranges[k], i);
        assert ranges[..k + 1] == ranges[..k] + [ranges[k]];
      }
    }
    assert ranges[..|ranges|] == ranges;
  }

  lemma {:induction false} CoversAppend(rs: seq<Range>, r: Range, i: nat)
    ensures Covers(rs + [r], i) <==> Covers(rs, i) || r.start <= i < r.end
  {
    if Covers(rs, i) {
      var k :| 0 <= k < |rs| && rs[k].start <= i < rs[k].end;
      assert (rs + [r])[k] == rs[k];
    }
    if r.start <= i < r.end {
      assert (rs + [r])[|rs|] == r;
    }
  }

  method InsertByStart(rs: seq<Range>, r: Range, n: nat) returns (out: seq<Range>)
    requires StartsSorted(rs) && Within(rs, n) && r.start < r.end <= n
    ensures StartsSorted(out) && Within(out, n) && |out| == |rs| + 1
    ensures forall i: nat :: Covers(out, i) <==> Covers(rs, i) || r.start <= i < r.end
  {
    var p := |rs|;
    while p > 0 && r.start < rs[p - 1].start
      invariant 0 <= p <= |rs|
      invariant forall k :: p <= k < |rs| ==> r.start < rs[k].start
    {
      p := p - 1;
    }
    out := rs[..p] + [r] + rs[p..];
    forall i: nat ensures Covers(out, i) <==> Covers(rs, i) || r.start <= i < r.end {
      InsertCovers(rs, r, p, i);
    }
  }

  lemma {:induction false} InsertCovers(rs: seq<Range>, r: Range, p: nat, i: nat)
    requires p <= |rs|
    ensures Covers(rs[..p] + [r] + rs[p..], i) <==> Covers(rs, i) || r.start <= i < r.end
  {
    var out := rs[..p] + [r] + rs[p..];
    if Covers(rs, i) {
      var k :| 0 <= k < |rs| && rs[k].start <= i < rs[k].end;
      assert out[if k < p then k else k + 1] == rs[k];
    }
    if r.start <= i < r.end {
      assert out[p] == r;
    }
    if Covers(out, i) {
      var k :| 0 <= k < |out| && out[k].start <= i < out[k].end;
      assert k != p ==> out[k] == rs[if k < p then k else k - 1];
    }
  }

  /** Merging leaves the covered characters as they were and a gap between any two ranges. */
  method Merge(ranges: seq<Range>, n: nat) returns (merged: seq<Range>)
    requires StartsSorted(ranges) && Within(ranges, n)
    ensures Separated(merged) && Within(merged, n)
    ensures merged == [] <==> ranges == []
    ensures forall i: nat :: Covers(merged, i) <==> Covers(ranges, i)
  {
    merged := [];
    for k := 0 to |ranges|
      invariant Separated(merged) && Within(merged, n)
      invariant merged == [] <==> k == 0
      invariant k > 0 ==> merged[|merged| - 1].start <= ranges[k - 1].start
      invariant forall i: nat :: Covers(merged, i) <==> Covers(ranges[..k], i)
    {
      merged := MergeNext(merged, ranges[k], n);
      forall i: nat ensures Covers(merged, i) <==> Covers(ranges[..k + 1], i) {
        CoversAppend(ranges[..k], ranges[k], i);
        assert ranges[..k + 1] == ranges[..k] + [ranges[k]];
      }
    }
    assert ranges[..|ranges|] == ranges;
  }

  method MergeNext(merged: seq<Range>, r: Range, n: nat) returns (out: seq<Range>)
    requires Separated(merged) && Within(merged, n) && r.start < r.end <= n
    requires merged != [] ==> merged[|merged| - 1].start <= r.start
    ensures Separated(out) && Within(out, n) && out != []
    ensures out[|out| - 1].start <= r.start
    ensures forall i: nat :: Covers(out, i) <==> Covers(merged, i) || r.start <= i < r.end
  {
    hide Covers;
    if merged != [] && r.start <= merged[|merged| - 1].end {
      var front, last := merged[..|merged| - 1], merged[|merged| - 1];
      var longer := Range(last.start, if last.end < r.end then r.end else last.end);
      out := front + [longer];
      assert merged == front + [last];
      forall i: nat ensures Covers(out, i) <==> Covers(merged, i) || r.start <= i < r.end {
        CoversAppend(front, last, i);
        CoversAppend(front, longer, i);
      }
    } else {
      out := merged + [r];
      LastEndsLast(merged);
      forall i: nat ensures Covers(out, i) <==> Covers(merged, i) || r.start <= i < r.end {
        CoversAppend(merged, r, i);
      }
    }
  }

  lemma LastEndsLast(rs: seq<Range>)
    requires Separated(rs) && forall j :: 0 <= j < |rs| ==> rs[j].start < rs[j].end
    ensures forall j :: 0 <= j < |rs| ==> rs[j].end <= rs[|rs| - 1].end
  {
  }

  // ---------------------------------------------------------------- splitting

  function Text(parts: seq<Part>): string
  {
    if parts == [] then "" else Text(parts[..|parts| - 1]) + parts[|parts| - 1].text
  }

  /** For each character of the parts, whether it is marked. */
  function Marks(parts: seq<Part>): seq<bool>
  {
    if parts == [] then []
    else
      var last := parts[|parts| - 1];
      Marks(parts[..|parts| - 1]) + seq(|last.text|, i => last.hit)
  }

  ghost predicate Alternate(parts: seq<Part>)
  {
    forall k, next :: 0 <= k < next < |parts| && next == k + 1 ==> parts[k].hit != parts[next].hit
  }

  predicate NoneEmpty(parts: seq<Part>)
  {
    forall k :: 0 <= k < |parts| ==> parts[k].text != ""
  }

  /** What is split off so far: all of text[..cursor], marked exactly where covered. */
  ghost predicate SplitTo(text: string, rs: seq<Range>, parts: seq<Part>, cursor: nat)
  {
    && cursor <= |text| && Text(parts) == text[..cursor]
    && |Marks(parts)| == cursor
    && forall i :: 0 <= i < cursor ==> Marks(parts)[i] == Covers(rs, i)
  }

  lemma {:induction false} AddPart(text: string, rs: seq<Range>, parts: seq<Part>, cursor: nat, end: nat, hit: bool)
    requires SplitTo(text, rs, parts, cursor) && cursor <= end <= |text|
    requires forall i :: cursor <= i < end ==> Covers(rs, i) == hit
    ensures SplitTo(text, rs, parts + [Part(text[cursor..end], hit)], end)
  {
    var more := parts + [Part(text[cursor..end], hit)];
    assert more[..|parts|] == parts;
    assert text[..end] == text[..cursor] + text[cursor..end];
  }

  lemma {:induction false} NothingBetween(rs: seq<Range>, k: nat, i: nat)
    requires Separated(rs) && k <= |rs|
    requires k == 0 || rs[k - 1].end <= i
    requires k == |rs| || i < rs[k].start
    requires forall j :: 0 <= j < |rs| ==> rs[j].start < rs[j].end
    ensures !Covers(rs, i)
  {
    forall j | 0 <= j < |rs| ensures rs[j].end <= i || i < rs[j].start {
      if j < k {
        assert j < k - 1 ==> rs[j].end < rs[k - 1].start;
      } else {
        assert k < j ==> rs[k].end < rs[j].start;
      }
    }
  }

  lemma RangeIsCovered(rs: seq<Range>, k: nat)
    requires k < |rs|
    ensures forall i :: rs[k].start <= i < rs[k].end ==> Covers(rs, i)
  {
  }

  lemma NothingSplit(text: string, rs: seq<Range>)
    ensures SplitTo(text, rs, [], 0)
  {
  }

  method Split(text: string, merged: seq<Range>) returns (parts: seq<Part>)
    requires merged != [] && Separated(merged) && Within(merged, |text|)
    ensures SplitTo(text, merged, parts, |text|)
    ensures Alternate(parts) && NoneEmpty(parts)
  {
    hide SplitTo, Covers;
    parts := [];
    var cursor := 0;
    NothingSplit(text, merged);
    for k := 0 to |merged|
      invariant cursor == if k == 0 then 0 else merged[k - 1].end
      invariant SplitTo(text, merged, parts, cursor)
      invariant Alternate(parts) && NoneEmpty(parts)
      invariant if k == 0 then parts == [] else parts != [] && parts[|parts| - 1].hit
    {
      var r := merged[k];
      if r.start > cursor {
        forall i: nat | cursor <= i < r.start ensures !Covers(merged, i) {
          NothingBetween(merged, k, i);
        }
        AddPart(text, merged, parts, cursor, r.start, false);
        parts := parts + [Part(text[cursor..r.start], false)];
      }
      assert k > 0 ==> merged[k - 1].end < r.start;
      RangeIsCovered(merged, k);
      AddPart(text, merged, parts, r.start, r.end, true);
      parts := parts + [Part(text[r.start..r.end], true)];
      cursor := r.end;
    }
    if cursor < |text| {
      forall i: nat | cursor <= i < |text| ensures !Covers(merged, i) {
        NothingBetween(merged, |merged|, i);
      }
      AddPart(text, merged, parts, cursor, |text|, false);
      assert text[cursor..] == text[cursor..|text|];
      parts := parts + [Part(text[cursor..], false)];
    }
  }

  /** The parts spell the text, alternate, and mark exactly the characters some collected
      range covers; only the empty text gives an empty part. */
  method Highlight(text: string, query: string) returns (parts: seq<Part>)
    ensures Text(parts) == text && |Marks(parts)| == |text|
    ensures forall i :: 0 <= i < |text| ==> Marks(parts)[i] == Covers(Collected(T.Lower(text), QueryTokens(query)), i)
    ensures Alternate(parts)
    ensures if text == "" then parts == [Part("", false)] else NoneEmpty(parts)
  {
    var tokens := QueryTokens(query);
    if tokens == [] {
      OnePart(text);
      return [Part(text, false)];
    }
    var lower := T.Lower(text);
    var ranges := CollectRanges(lower, tokens);
    if ranges == [] {
      OnePart(text);
      return [Part(text, false)];
    }
    assert ranges[0].start < |text|;
    var sorted := SortByStart(ranges, |text|);
    var merged := Merge(sorted, |text|);
    parts := Split(text, merged);
    assert text[..|text|] == text;
  }

  lemma {:induction false} OnePart(text: string)
    ensures Text([Part(text, false)]) == text
    ensures Marks([Part(text, false)]) == seq(|text|, i => false)
  {
    assert [Part(text, false)][..0] == [];
  }

  // ---------------------------------------------------------------- what is marked

  lemma {:induction false} FoundOfContains(text: string, variants: seq<Word>, j: nat)
    requires j < |variants|
    ensures forall r :: r in Found(text, variants[j], 0) ==> r in FoundOf(text, variants)
  {
    if j < |variants| - 1 {
      FoundOfContains(text, variants[..|variants| - 1], j);
    }
  }

  lemma {:induction false} CollectedContains(text: string, tokens: seq<Word>, j: nat)
    requires j < |tokens|
    ensures forall r :: r in FoundOf(text, Variants(tokens[j])) ==> r in Collected(text, tokens)
  {
    if j < |tokens| - 1 {
      CollectedContains(text, tokens[..|tokens| - 1], j);
    }
  }

  /** Every occurrence of a query token or of one of its stems has a marked character. */
  lemma {:induction false} OccurrencesAreMarked(text: string, tokens: seq<Word>, j: nat, v: Word, p: nat)
    returns (i: nat)
    requires j < |tokens|
    requires v in Variants(tokens[j]) && Occurs(text, v, p)
    ensures p <= i < p + |v| && Covers(Collected(text, tokens), i)
  {
    hide Occurs, Found, FoundOf, Collected, Variants;
    FoundTouches(text, v, 0, p);
    var found, all := Found(text, v, 0), Collected(text, tokens);
    var k :| 0 <= k < |found| && found[k].start < p + |v| && p < found[k].end;
    var n :| 0 <= n < |Variants(tokens[j])| && Variants(tokens[j])[n] == v;
    FoundOfContains(text, Variants(tokens[j]), n);
    CollectedContains(text, tokens, j);
    assert found[k] in found && found[k] in all;
    FoundWithin(text, v, 0);
    i := if found[k].start < p then p else found[k].start;
    var m :| 0 <= m < |all| && all[m] == found[k];
    assert all[m].start <= i < all[m].end;
  }
}
