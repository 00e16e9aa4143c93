/** Small pieces of string handling several engines share. */
module Text {

  /** The characters up to U+00FF that Python's str.strip removes. */
  predicate IsSpace(c: char)
  {
    var n := c as int;
    9 <= n <= 13 || 28 <= n <= 32 || n == 133 || n == 160
  }

  function LowerChar(c: char): char { if 'A' <= c <= 'Z' then c + ' ' else c }

  /** ASCII lower case: every character keeps its place. */
  function Lower(s: string): string { seq(|s|, i requires 0 <= i < |s| => LowerChar(s[i])) }

  function StripLeft(s: string): string
  {
    if s != "" && IsSpace(s[0]) then StripLeft(s[1..]) else s
  }

  function StripRight(s: string): string
  {
    if s != "" && IsSpace(s[|s| - 1]) then StripRight(s[..|s| - 1]) else s
  }

  function Strip(s: string): string { StripRight(StripLeft(s)) }

  predicate Blank(s: string) { forall i :: 0 <= i < |s| ==> IsSpace(s[i]) }

  lemma {:induction false} StripLeftBlank(s: string)
    ensures StripLeft(s) == "" <==> Blank(s)
    ensures StripLeft(s) != "" ==> !IsSpace(StripLeft(s)[0])
  {
    if s != "" && IsSpace(s[0]) {
      StripLeftBlank(s[1..]);
      if Blank(s[1..]) {
        forall i | 0 <= i < |s| ensures IsSpace(s[i]) {
          assert i > 0 ==> s[i] == s[1..][i - 1];
        }
      }
    }
  }

  lemma {:induction false} StripRightKeepsHead(s: string)
    requires s != "" && !IsSpace(s[0])
    ensures StripRight(s) != ""
  {
    if IsSpace(s[|s| - 1]) {
      StripRightKeepsHead(s[..|s| - 1]);
    }
  }

  /** Nothing is left of a string exactly when it held nothing but whitespace. */
  lemma {:induction false} StripBlank(s: string)
    ensures Strip(s) == "" <==> Blank(s)
  {
    StripLeftBlank(s);
    if StripLeft(s) != "" {
      StripRightKeepsHead(StripLeft(s));
    }
  }

  predicate Trimmed(s: string) { s == "" || (!IsSpace(s[0]) && !IsSpace(s[|s| - 1])) }

  lemma {:induction false} StripLeftLeaves(s: string) returns (head: string)
    ensures Blank(head) && s == head + StripLeft(s)
  {
    head := "";
    if s != "" && IsSpace(s[0]) {
      head := StripLeftLeaves(s[1..]);
      head := [s[0]] + head;
    }
  }

  lemma {:induction false} StripRightLeaves(s: string) returns (tail: string)
    ensures Blank(tail) && s == StripRight(s) + tail
    ensures StripRight(s) != "" ==> !IsSpace(StripRight(s)[|StripRight(s)| - 1]) && StripRight(s)[0] == s[0]
  {
    tail := "";
    if s != "" && IsSpace(s[|s| - 1]) {
      tail := StripRightLeaves(s[..|s| - 1]);
      tail := tail + [s[|s| - 1]];
    }
  }

  /** Stripping removes whitespace at both ends and nothing else. */
  lemma {:induction false} StripExactly(s: string) returns (head: string, tail: string)
    ensures Blank(head) && Blank(tail) && s == head + Strip(s) + tail && Trimmed(Strip(s))
  {
    head := StripLeftLeaves(s);
    tail := StripRightLeaves(StripLeft(s));
    StripLeftBlank(s);
  }

  /** The same characters except for the case of letters. */
  predicate SameButCase(a: string, b: string)
  {
    |a| == |b| && forall i :: 0 <= i < |a| ==>
      || a[i] == b[i]
      || ('A' <= a[i] <= 'Z' && b[i] as int == a[i] as int + 32)
      || ('A' <= b[i] <= 'Z' && a[i] as int == b[i] as int + 32)
  }

  /** Lower case forgets the case of letters and nothing else. */
  lemma {:induction false} LowerIgnoresCase(a: string, b: string)
    ensures Lower(a) == Lower(b) <==> SameButCase(a, b)
  {
    if Lower(a) == Lower(b) {
      assert |Lower(a)| == |Lower(b)|;
      forall i | 0 <= i < |a| ensures LowerChar(a[i]) == LowerChar(b[i]) {
        assert Lower(a)[i] == Lower(b)[i];
      }
    }
    if SameButCase(a, b) {
      forall i | 0 <= i < |a| ensures Lower(a)[i] == Lower(b)[i] {
      }
    }
  }
}
