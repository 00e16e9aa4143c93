/** What the vault enforces, told from the policy's fields and the payload: the limits on what
    it signs, the text its approver reads, and exactly which requests it signs. */
module VaultTrail {
  import opened Options
  import opened Numerals
  import opened Payloads
  import opened Vault
  import A = Amounts
  import J = JsonText
  import Text

  // ---------------------------------------------------------------- decimal values

  /** Ten to the k. */
  function Ten(k: int): real
    decreases if k < 0 then -k else k
  {
    if k == 0 then 1.0 else if k > 0 then 10.0 * Ten(k - 1) else Ten(k + 1) / 10.0
  }

  /** n units of ten to the k. */
  function Units(n: int, k: int): real { n as real * Ten(k) }

  /** The number a decimal denotes. */
  function Value(d: A.Decimal): real
  {
    var n: int := d.coefficient;
    Units(if d.negative then -n else n, d.exponent)
  }

  lemma TenStep(k: int)
    ensures Ten(k + 1) == 10.0 * Ten(k)
  {
  }

  lemma TenfoldOf(n: real, x: real)
    ensures n * (10.0 * x) == 10.0 * n * x
  {
  }

  lemma {:induction false} TenfoldUnits(n: int, k: int)
    ensures Units(n, k + 1) == Units(10 * n, k)
  {
    hide Ten;
    TenStep(k);
    TenfoldOf(n as real, Ten(k));
  }

  /** Shifting by k places scales by ten to the k. */
  lemma {:induction false} ShiftScales(n: nat, e: int, k: nat, sum: int)
    requires sum == e + k
    ensures Units(Shift(n, k), e) == Units(n, sum)
    decreases k
  {
    hide Units;
    if k > 0 {
      TenfoldUnits(Shift(n, k - 1), e);
      ShiftScales(n, e + 1, k - 1, sum);
    }
  }

  lemma {:induction false} TenIsPositive(k: int)
    ensures Ten(k) > 0.0
    decreases if k < 0 then -k else k
  {
    if k > 0 {
      TenIsPositive(k - 1);
    } else if k < 0 {
      TenIsPositive(k + 1);
    }
  }

  lemma {:induction false} WeiIsValue(d: A.Decimal)
    requires !d.negative && d.exponent >= -18
    ensures Value(d) == Units(A.Wei(d), -18)
  {
    hide Units, Shift;
    ShiftScales(d.coefficient, -18, d.exponent + 18, d.exponent);
  }

  lemma {:induction false} ScaleOrder(x: int, y: int, unit: real)
    requires unit > 0.0
    ensures x <= y <==> x as real * unit <= y as real * unit
  {
    if x <= y {
      Scaled(x as real, y as real, unit);
    } else {
      ScaledStrict(y as real, x as real, unit);
    }
  }

  lemma Scaled(x: real, y: real, unit: real)
    requires unit > 0.0 && x <= y
    ensures x * unit <= y * unit
  {
  }

  lemma ScaledStrict(x: real, y: real, unit: real)
    requires unit > 0.0 && x < y
    ensures x * unit < y * unit
  {
  }

  /** Comparing in wei is comparing the decimal values. */
  lemma {:induction false} WeiOrderIsValueOrder(a: A.Decimal, b: A.Decimal)
    requires !a.negative && !b.negative && a.exponent >= -18 && b.exponent >= -18
    ensures A.Wei(a) <= A.Wei(b) <==> Value(a) <= Value(b)
  {
    hide Ten, Value, A.Wei;
    WeiIsValue(a);
    WeiIsValue(b);
    TenIsPositive(-18);
    ScaleOrder(A.Wei(a), A.Wei(b), Ten(-18));
  }

  // ---------------------------------------------------------------- the policy

  ghost predicate ChainAllowed(pol: Policy, p: Payload)
  {
    pol.expectedChain.None? || p.chainId == pol.expectedChain.value
  }

  ghost predicate DestinationAllowed(pol: Policy, p: Payload)
  {
    pol.allowed.None? || exists a :: a in pol.allowed.value && Text.SameButCase(a, p.destination)
  }

  ghost predicate AmountAllowed(pol: Policy, p: Payload)
  {
    pol.maxAmount.None? ||
    (A.ParseDecimal(p.amount).Some? && Value(A.ParseDecimal(p.amount).value) <= Value(pol.maxAmount.value))
  }

  /** A payload passes the policy exactly when it is for the expected chain, its destination is
      listed in whatever letter case, and its amount denotes at most the ceiling. */
  lemma {:induction false} PolicyExactly(pol: Policy, p: Payload)
    requires pol.Valid() && IsPayload(p)
    ensures PassesPolicy(pol, p) <==> ChainAllowed(pol, p) && DestinationAllowed(pol, p) && AmountAllowed(pol, p)
  {
    hide A.ParseDecimal, A.Wei, Value, IsAddress, Text.Lower, Text.SameButCase;
    A.AcceptedExactly(p.amount);
    if pol.maxAmount.Some? {
      WeiOrderIsValueOrder(A.ParseDecimal(p.amount).value, pol.maxAmount.value);
    }
    if pol.allowed.Some? {
      forall a | a in pol.allowed.value
        ensures Text.Lower(a) == Text.Lower(p.destination) <==> Text.SameButCase(a, p.destination)
      {
        Text.LowerIgnoresCase(a, p.destination);
      }
    }
  }

  /** Not signed before in this spelling, and after every nonce signed where that is enforced. */
  ghost predicate NotReplayed(pol: Policy, h: seq<Request>, i: nat, p: Payload)
    requires pol.Valid() && i <= |h|
  {
    forall j :: 0 <= j < i && SignedAt(pol, h, j).Some? ==>
      SignedAt(pol, h, j).value != p && (pol.enforceNonce ==> SignedAt(pol, h, j).value.nonce < p.nonce)
  }

  /** A request is signed exactly when it decodes, is within the three limits, is not a replay
      and its own display is approved. The envelope then carries its text, its digest, the
      vault's signature over that digest and the vault's key id. */
  lemma {:induction false} SignsExactly(pol: Policy, h: seq<Request>, i: nat)
    requires pol.Valid() && i < |h|
    ensures var decoded := FromWire(h[i].medium);
      match ResultAt(pol, h, i) {
        case None =>
          || decoded.None?
          || !ChainAllowed(pol, decoded.value) || !DestinationAllowed(pol, decoded.value)
          || !AmountAllowed(pol, decoded.value) || !NotReplayed(pol, h, i, decoded.value)
          || !pol.approverWired || h[i].ask(DisplayOf(decoded.value)) != Approve
        case Some(e) =>
          && decoded.Some? && FromWire(e.unsigned) == decoded
          && ChainAllowed(pol, decoded.value) && DestinationAllowed(pol, decoded.value)
          && AmountAllowed(pol, decoded.value) && NotReplayed(pol, h, i, decoded.value)
          && pol.approverWired && h[i].ask(DisplayOf(decoded.value)) == Approve
          && e.originalHash == Sha256(decoded.value)
          && e.signature == Mac(pol.key, Sha256(decoded.value)) && e.keyId == pol.keyId
      }
  {
    hide PassesPolicy, FromWire, IsPayload, DisplayOf, ChainAllowed, DestinationAllowed, AmountAllowed, ToWire;
    var decoded := FromWire(h[i].medium);
    DecodedIsPayload(h[i].medium);
    SignedExactly(pol, h, i);
    if decoded.Some? {
      PolicyExactly(pol, decoded.value);
      WireRoundTrip(decoded.value);
    }
  }

  // ---------------------------------------------------------------- what the approver reads

  /** The lines of a text. */
  function Lines(s: string): seq<string>
    decreases |s|
  {
    var k := A.Find(s, "\n");
    if k == |s| then [s] else [s[..k]] + Lines(s[k + 1..])
  }

  predicate OneLine(s: string) { forall i :: 0 <= i < |s| ==> s[i] != '\n' }

  lemma {:induction false} LinesOfOne(s: string)
    requires OneLine(s)
    ensures Lines(s) == [s]
  {
    A.FindNothing(s, "\n");
  }

  lemma {:induction false} LinesAfter(s: string, rest: string)
    requires OneLine(s)
    ensures Lines(s + "\n" + rest) == [s] + Lines(rest)
  {
    A.FindAfter(s, '\n', rest, "\n");
    var t := s + "\n" + rest;
    assert t[..|s|] == s && t[|s| + 1..] == rest;
  }

  predicate IsFixedPoint(s: string) { forall i :: 0 <= i < |s| ==> IsDigit(s[i]) || s[i] == '.' }

  lemma {:induction false} FormatIsFixedPoint(d: A.Decimal)
    ensures IsFixedPoint(A.Format(d))
  {
  }

  lemma {:induction false} AmountIsFixedPoint(p: Payload)
    requires IsPayload(p)
    ensures IsFixedPoint(p.amount)
  {
    hide A.Format, A.ParseDecimal, A.Wei, A.Adjusted;
    FormatIsFixedPoint(A.ParseDecimal(p.amount).value);
  }

  lemma {:induction false} FiveLines(a: string, b: string, c: string, d: string, e: string)
    requires OneLine(a) && OneLine(b) && OneLine(c) && OneLine(d) && OneLine(e)
    ensures Lines(a + "\n" + (b + "\n" + (c + "\n" + (d + "\n" + e)))) == [a, b, c, d, e]
  {
    hide Lines, OneLine;
    LinesOfOne(e);
    LinesAfter(d, e);
    LinesAfter(c, d + "\n" + e);
    LinesAfter(b, c + "\n" + (d + "\n" + e));
    LinesAfter(a, b + "\n" + (c + "\n" + (d + "\n" + e)));
  }

  lemma DisplayJoins(p: Payload)
    requires IsPayload(p)
    ensures DisplayOf(p).text
      == "TRANSFER APPROVAL REQUIRED" + "\n" + (("  Destination: " + p.destination) + "\n"
         + (("  Amount:      " + p.amount + " ETH") + "\n" + (("  Chain ID:    " + Digits(p.chainId)) + "\n"
         + ("  Nonce:       " + Digits(p.nonce)))))
  {
    hide Digits, A.Canonical;
  }

  /** The approver reads five lines, one for each field: no field can add, hide or move a line. */
  lemma {:induction false} DisplayedLines(p: Payload)
    requires IsPayload(p)
    ensures Lines(DisplayOf(p).text) == [
      "TRANSFER APPROVAL REQUIRED",
      "  Destination: " + p.destination,
      "  Amount:      " + p.amount + " ETH",
      "  Chain ID:    " + Digits(p.chainId),
      "  Nonce:       " + Digits(p.nonce)]
  {
    hide Digits, A.Canonical, Lines, DisplayOf;
    AmountIsFixedPoint(p);
    DisplayJoins(p);
    assert OneLine("  Destination: " + p.destination) by { AddressIsOneLine(p.destination); }
    FiveLines("TRANSFER APPROVAL REQUIRED", "  Destination: " + p.destination, "  Amount:      " + p.amount + " ETH",
              "  Chain ID:    " + Digits(p.chainId), "  Nonce:       " + Digits(p.nonce));
  }

  lemma {:induction false} AddressIsOneLine(s: string)
    requires IsAddress(s)
    ensures OneLine(s)
  {
    forall i | 0 <= i < |s| ensures s[i] != '\n' {
      assert i < 2 || IsHex(s[i]);
    }
  }

  lemma {:induction false} SameTail(head: string, a: string, b: string)
    requires head + a == head + b
    ensures a == b
  {
    assert (head + a)[|head|..] == a && (head + b)[|head|..] == b;
  }

  lemma {:induction false} SameHead(a: string, b: string, unit: string)
    requires a + unit == b + unit
    ensures a == b
  {
    assert (a + unit)[..|a|] == a && (b + unit)[..|b|] == b;
  }

  /** So approved text stands for one transfer: whatever is signed with the same text has the
      same destination, amount, network, chain and nonce. */
  lemma {:induction false} DisplayDeterminesTransfer(p: Payload, q: Payload)
    requires IsPayload(p) && IsPayload(q) && DisplayOf(p).text == DisplayOf(q).text
    ensures p.(version := q.version) == q
  {
    hide Digits, A.Canonical, Lines, DisplayOf, IsAddress;
    DisplayedLines(p);
    DisplayedLines(q);
    var ps, qs := Lines(DisplayOf(p).text), Lines(DisplayOf(q).text);
    assert ps[1] == qs[1] && ps[2] == qs[2] && ps[3] == qs[3] && ps[4] == qs[4];
    SameTail("  Destination: ", p.destination, q.destination);
    SameHead("  Amount:      " + p.amount, "  Amount:      " + q.amount, " ETH");
    SameTail("  Amount:      ", p.amount, q.amount);
    SameTail("  Chain ID:    ", Digits(p.chainId), Digits(q.chainId));
    SameTail("  Nonce:       ", Digits(p.nonce), Digits(q.nonce));
    DigitsDenote(p.chainId);
    DigitsDenote(q.chainId);
    DigitsDenote(p.nonce);
    DigitsDenote(q.nonce);
  }
}
