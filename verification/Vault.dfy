/** The offline signer. It signs what a human approved, once, in nonce order, whatever the
    medium carries and whatever the approver answers. */
module Vault {
  import opened Options
  import opened Payloads
  import Amounts
  import Text

  /** What the approval callback may do with the display it is handed. */
  datatype Answer = Approve | Refuse | NotABoolean | Raises

  datatype Policy = Policy(
    key: string,
    keyId: string,
    approverWired: bool,
    expectedChain: Option<int>,
    maxAmount: Option<Amounts.Decimal>,
    allowed: Option<set<string>>,
    enforceNonce: bool)
  {
    predicate Valid()
    {
      maxAmount.Some? ==> Amounts.Representable(maxAmount.value)
    }
  }

  /** One request at the vault: what the medium carries and how the approver would answer
      any display. */
  datatype Request = Request(medium: Wire, ask: Display -> Answer)

  datatype State = State(signed: set<Digest>, highest: int)

  const FRESH := State({}, 0)

  /** The amount a canonical payload moves, in wei. */
  function WeiOf(p: Payload): Option<nat>
  {
    var d := Amounts.ParseDecimal(p.amount);
    if d.None? || d.value.exponent < -Amounts.WEI_DECIMALS then None else Some(Amounts.Wei(d.value))
  }

  function LoweredAll(addresses: set<string>): set<string> { set a | a in addresses :: Text.Lower(a) }

  predicate PassesPolicy(pol: Policy, p: Payload)
    requires pol.Valid()
  {
    && (pol.expectedChain.Some? ==> p.chainId == pol.expectedChain.value)
    && (pol.allowed.Some? ==> Text.Lower(p.destination) in LoweredAll(pol.allowed.value))
    && (pol.maxAmount.Some? ==> WeiOf(p).Some? && WeiOf(p).value <= Amounts.Wei(pol.maxAmount.value))
  }

  predicate PassesReplay(pol: Policy, s: State, p: Payload)
  {
    Sha256(p) !in s.signed && (pol.enforceNonce ==> p.nonce > s.highest)
  }

  predicate Approved(pol: Policy, r: Request, p: Payload)
  {
    pol.approverWired && r.ask(DisplayOf(p)) == Approve
  }

  function EnvelopeOf(pol: Policy, p: Payload): Envelope
  {
    Envelope(ToWire(p), Sha256(p), Mac(pol.key, Sha256(p)), pol.keyId)
  }

  function Max(a: int, b: int): int { if a < b then b else a }

  function Sign(pol: Policy, s: State, r: Request): (Option<Envelope>, State)
    requires pol.Valid()
  {
    var p := FromWire(r.medium);
    if p.None? then (None, s)
    else if !PassesPolicy(pol, p.value) then (None, s)
    else if !PassesReplay(pol, s, p.value) then (None, s)
    else if !Approved(pol, r, p.value) then (None, s)
    else (Some(EnvelopeOf(pol, p.value)), State(s.signed + {Sha256(p.value)}, Max(s.highest, p.value.nonce)))
  }

  // ---------------------------------------------------------------- whole runs

  function StateAt(pol: Policy, h: seq<Request>, i: nat): State
    requires pol.Valid() && i <= |h|
  {
    if i == 0 then FRESH else Sign(pol, StateAt(pol, h, i - 1), h[i - 1]).1
  }

  function ResultAt(pol: Policy, h: seq<Request>, i: nat): Option<Envelope>
    requires pol.Valid() && i < |h|
  {
    Sign(pol, StateAt(pol, h, i), h[i]).0
  }

  /** The payload signed at i. */
  function SignedAt(pol: Policy, h: seq<Request>, i: nat): Option<Payload>
    requires pol.Valid() && i < |h|
  {
    if ResultAt(pol, h, i).Some? then FromWire(h[i].medium) else None
  }

  /** Every signature covers the payload the medium carried, whose own display was approved
      and which passed the policy. */
  lemma {:induction false} SignatureMeansApproval(pol: Policy, h: seq<Request>, i: nat)
    requires pol.Valid() && i < |h| && ResultAt(pol, h, i).Some?
    ensures var p := SignedAt(pol, h, i);
      && p.Some? && IsPayload(p.value) && PassesPolicy(pol, p.value)
      && pol.approverWired && h[i].ask(DisplayOf(p.value)) == Approve
      && ResultAt(pol, h, i).value == EnvelopeOf(pol, p.value)
      && FromWire(ResultAt(pol, h, i).value.unsigned) == p
  {
    hide PassesPolicy, FromWire, IsPayload;
    DecodedIsPayload(h[i].medium);
    WireRoundTrip(SignedAt(pol, h, i).value);
  }

  ghost predicate Remembers(pol: Policy, h: seq<Request>, i: nat)
    requires pol.Valid() && i <= |h|
  {
    var s := StateAt(pol, h, i);
    && s.highest >= 0
    && (forall d :: d in s.signed <==>
          exists j :: 0 <= j < i && SignedAt(pol, h, j).Some? && d == Sha256(SignedAt(pol, h, j).value))
    && (forall j :: 0 <= j < i && SignedAt(pol, h, j).Some? ==> SignedAt(pol, h, j).value.nonce <= s.highest)
    && (s.highest > 0 ==>
          exists j :: 0 <= j < i && SignedAt(pol, h, j).Some? && SignedAt(pol, h, j).value.nonce == s.highest)
  }

  lemma SignKeeps(pol: Policy, s: State, r: Request)
    requires pol.Valid()
    ensures Sign(pol, s, r).0.None? ==> Sign(pol, s, r).1 == s
    ensures Sign(pol, s, r).0.Some? ==> FromWire(r.medium).Some? && var p := FromWire(r.medium).value;
      Sign(pol, s, r).1 == State(s.signed + {Sha256(p)}, Max(s.highest, p.nonce))
  {
  }

  lemma {:induction false} SignedStep(pol: Policy, h: seq<Request>, i: nat, next: nat)
    requires pol.Valid() && i < |h| && next == i + 1
    ensures var s, p := StateAt(pol, h, i), SignedAt(pol, h, i);
      StateAt(pol, h, next)
      == if p.Some? then State(s.signed + {Sha256(p.value)}, Max(s.highest, p.value.nonce)) else s
  {
    hide FromWire, Sign;
    SignKeeps(pol, StateAt(pol, h, i), h[i]);
  }

  /** The ledger holds exactly the payloads signed so far and their highest nonce. */
  lemma {:induction false} LedgerIsHistory(pol: Policy, h: seq<Request>, i: nat)
    requires pol.Valid() && i <= |h|
    ensures Remembers(pol, h, i)
  {
    hide FromWire, Sign, SignedAt;
    if i > 0 {
      LedgerIsHistory(pol, h, i - 1);
      SignedStep(pol, h, i - 1, i);
    }
  }

  /** A request is signed exactly when it decodes, passes the policy, was not signed before,
      comes after every nonce signed before where that is enforced, and is approved. */
  lemma {:induction false} SignedExactly(pol: Policy, h: seq<Request>, i: nat)
    requires pol.Valid() && i < |h|
    ensures ResultAt(pol, h, i).Some? <==>
      && FromWire(h[i].medium).Some?
      && var p := FromWire(h[i].medium).value;
      && PassesPolicy(pol, p) && Approved(pol, h[i], p)
      && (forall j :: 0 <= j < i && SignedAt(pol, h, j).Some? ==> SignedAt(pol, h, j).value != p)
      && (pol.enforceNonce ==>
          forall j :: 0 <= j < i && SignedAt(pol, h, j).Some? ==> SignedAt(pol, h, j).value.nonce < p.nonce)
  {
    hide PassesPolicy, FromWire, Approved;
    LedgerIsHistory(pol, h, i);
    DecodedIsPayload(h[i].medium);
  }

  /** No payload is signed twice, and where enforced signed nonces strictly increase. */
  lemma {:induction false} SignedOnceInOrder(pol: Policy, h: seq<Request>, i: nat, j: nat)
    requires pol.Valid() && i < j < |h| && ResultAt(pol, h, i).Some? && ResultAt(pol, h, j).Some?
    ensures SignedAt(pol, h, i).Some? && SignedAt(pol, h, j).Some?
    ensures SignedAt(pol, h, i).value != SignedAt(pol, h, j).value
    ensures pol.enforceNonce ==> SignedAt(pol, h, i).value.nonce < SignedAt(pol, h, j).value.nonce
  {
    hide PassesPolicy, FromWire, Approved;
    SignedExactly(pol, h, i);
    SignedExactly(pol, h, j);
  }

  /** Python holds payloads equal that differ only in the spelling of the version. */
  predicate SameIntent(p: Payload, q: Payload) { p == q.(version := p.version) }

  /** An intent signed a second time is spelled with the other version, and nonces are not
      enforced. */
  lemma {:induction false} ResignedExactly(pol: Policy, h: seq<Request>, i: nat, j: nat)
    requires pol.Valid() && i < j < |h| && ResultAt(pol, h, i).Some? && ResultAt(pol, h, j).Some?
    ensures SignedAt(pol, h, i).Some? && SignedAt(pol, h, j).Some?
    ensures SameIntent(SignedAt(pol, h, i).value, SignedAt(pol, h, j).value) ==>
      !pol.enforceNonce && SignedAt(pol, h, i).value.version != SignedAt(pol, h, j).value.version
  {
    hide ResultAt, SignedAt;
    SignedOnceInOrder(pol, h, i, j);
  }

  /** So no intent is signed three times. */
  lemma {:induction false} SignedAtMostTwice(pol: Policy, h: seq<Request>, i: nat, j: nat, k: nat)
    requires pol.Valid() && i < j < k < |h|
    requires SignedAt(pol, h, i).Some? && SignedAt(pol, h, j).Some? && SignedAt(pol, h, k).Some?
    ensures var p := SignedAt(pol, h, i).value;
      !(SameIntent(p, SignedAt(pol, h, j).value) && SameIntent(p, SignedAt(pol, h, k).value))
  {
    hide FromWire, Sign;
    ResignedExactly(pol, h, i, j);
    ResignedExactly(pol, h, i, k);
    ResignedExactly(pol, h, j, k);
  }

  /** It does happen, to any intent that passes, where nonces are not enforced. */
  lemma {:induction false} IntentCanBeSignedTwice(pol: Policy, p: Payload, ask: Display -> Answer)
    requires pol.Valid() && IsPayload(p) && p.version.Two? && PassesPolicy(pol, p)
    requires pol.approverWired && !pol.enforceNonce && forall d :: ask(d) == Approve
    ensures var q := p.(version := TwoPointZero);
      var h := [Request(ToWire(p), ask), Request(ToWire(q), ask)];
      && SignedAt(pol, h, 0) == Some(p) && SignedAt(pol, h, 1) == Some(q) && SameIntent(p, q)
  {
    hide FromWire, ToWire;
    var q := p.(version := TwoPointZero);
    var h := [Request(ToWire(p), ask), Request(ToWire(q), ask)];
    WireRoundTrip(p);
    WireRoundTrip(q);
    assert StateAt(pol, h, 0) == FRESH;
    assert StateAt(pol, h, 1).signed == {Sha256(p)};
  }

  /** Every payload has an amount in wei, so the ceiling always compares. */
  lemma {:induction false} PayloadHasWei(p: Payload)
    requires IsPayload(p)
    ensures WeiOf(p).Some? && 0 < WeiOf(p).value <= Amounts.MAX_WEI
  {
    Amounts.AcceptedExactly(p.amount);
  }

  // ---------------------------------------------------------------- the signer

  lemma {:induction false} HistoryExtends(pol: Policy, h: seq<Request>, r: Request, i: nat)
    requires pol.Valid() && i <= |h|
    ensures StateAt(pol, h + [r], i) == StateAt(pol, h, i)
  {
    hide Sign;
    if i > 0 {
      HistoryExtends(pol, h, r, i - 1);
    }
  }

  class Signer {
    const policy: Policy
    var signedHashes: set<Digest>
    var highestSignedNonce: int
    ghost var history: seq<Request>  // every request, signed or refused

    ghost predicate Valid()
      reads this
    {
      policy.Valid() && State(signedHashes, highestSignedNonce) == StateAt(policy, history, |history|)
    }

    constructor (policy: Policy)
      requires policy.Valid()
      ensures Valid() && this.policy == policy && history == []
    {
      this.policy := policy;
      signedHashes, highestSignedNonce, history := {}, 0, [];
    }

    method SignQrPayload(r: Request) returns (e: Option<Envelope>)
      requires Valid()
      modifies this
      ensures Valid() && history == old(history) + [r]
      ensures e == ResultAt(policy, history, |old(history)|)
      ensures e.None? ==> signedHashes == old(signedHashes) && highestSignedNonce == old(highestSignedNonce)
    {
      hide PassesPolicy, FromWire, ToWire;
      HistoryExtends(policy, history, r, |history|);
      history := history + [r];
      var decoded := FromWire(r.medium);
      if decoded.None? {
        return None;
      }
      var payload := decoded.value;
      var digest := Sha256(payload);
      if !PassesPolicy(policy, payload) {
        return None;
      }
      if digest in signedHashes {
        return None;
      }
      if policy.enforceNonce && payload.nonce <= highestSignedNonce {
        return None;
      }
      if !policy.approverWired {
        return None;
      }
      var decision := r.ask(DisplayOf(payload));
      if decision != Approve {
        return None;
      }
      signedHashes := signedHashes + {digest};
      highestSignedNonce := Max(highestSignedNonce, payload.nonce);
      return Some(Envelope(ToWire(payload), digest, Mac(policy.key, digest), policy.keyId));
    }
  }
}
