/** What the coordinator answers, told from its earlier answers alone: which intents it issued
    and voided, which it handed to the adapter, and which broadcasts are still open. */
module CoordinatorTrail {
  import opened Options
  import opened Payloads
  import opened Coordinator
  import Amounts
  import Text

  /** The k-th call issued the intent with digest d. */
  ghost predicate IssuedAt(c: Setup, h: seq<Op>, k: nat, d: Digest)
    requires k < |h|
  {
    h[k].Create? && ResultAt(c, h, k).Created? && Sha256(ResultAt(c, h, k).payload) == d
  }

  /** The k-th call told the operator that d is void. */
  ghost predicate VoidedAt(c: Setup, h: seq<Op>, k: nat, d: Digest)
    requires k < |h|
  {
    h[k] == Invalidate(d) && ResultAt(c, h, k) == Answer(true)
  }

  /** The outcome of the k-th call says that d went to the adapter. */
  ghost predicate HandedAt(c: Setup, h: seq<Op>, k: nat, d: Digest)
    requires k < |h|
  {
    var r := ResultAt(c, h, k);
    h[k].Broadcast? && ((r.Accepted? && r.digest == d) || (r.Unresolved? && r.digest == d))
  }

  ghost predicate LeftOpenAt(c: Setup, h: seq<Op>, k: nat, d: Digest)
    requires k < |h|
  {
    h[k].Broadcast? && ResultAt(c, h, k) == Unresolved(d)
  }

  /** The k-th call told the operator that d is settled. */
  ghost predicate SettledAt(c: Setup, h: seq<Op>, k: nat, d: Digest)
    requires k < |h|
  {
    h[k] == Resolve(d) && ResultAt(c, h, k) == Answer(true)
  }

  ghost predicate Issued(c: Setup, h: seq<Op>, i: nat, d: Digest)
    requires i <= |h|
  {
    exists k: nat :: k < i && IssuedAt(c, h, k, d)
  }

  ghost predicate Voided(c: Setup, h: seq<Op>, i: nat, d: Digest)
    requires i <= |h|
  {
    exists k: nat :: k < i && VoidedAt(c, h, k, d)
  }

  ghost predicate Handed(c: Setup, h: seq<Op>, i: nat, d: Digest)
    requires i <= |h|
  {
    exists k: nat :: k < i && HandedAt(c, h, k, d)
  }

  /** Left open by some call and not settled since. */
  ghost predicate Open(c: Setup, h: seq<Op>, i: nat, d: Digest)
    requires i <= |h|
  {
    exists k: nat :: k < i && LeftOpenAt(c, h, k, d) && UnsettledSince(c, h, k, i, d)
  }

  ghost predicate UnsettledSince(c: Setup, h: seq<Op>, k: nat, i: nat, d: Digest)
    requires i <= |h|
  {
    forall m: nat :: k < m < i ==> !SettledAt(c, h, m, d)
  }

  // ---------------------------------------------------------------- one more call

  lemma IssuedNext(c: Setup, h: seq<Op>, i: nat, next: nat, d: Digest)
    requires i < |h| && next == i + 1
    ensures Issued(c, h, next, d) <==> Issued(c, h, i, d) || IssuedAt(c, h, i, d)
  {
    hide IssuedAt;
  }

  lemma VoidedNext(c: Setup, h: seq<Op>, i: nat, next: nat, d: Digest)
    requires i < |h| && next == i + 1
    ensures Voided(c, h, next, d) <==> Voided(c, h, i, d) || VoidedAt(c, h, i, d)
  {
    hide VoidedAt;
  }

  lemma HandedNext(c: Setup, h: seq<Op>, i: nat, next: nat, d: Digest)
    requires i < |h| && next == i + 1
    ensures Handed(c, h, next, d) <==> Handed(c, h, i, d) || HandedAt(c, h, i, d)
  {
    hide HandedAt;
  }

  lemma {:induction false} OpenNext(c: Setup, h: seq<Op>, i: nat, next: nat, d: Digest)
    requires i < |h| && next == i + 1
    ensures Open(c, h, next, d) <==>
      LeftOpenAt(c, h, i, d) || (Open(c, h, i, d) && !SettledAt(c, h, i, d))
  {
    hide LeftOpenAt, SettledAt;
    if Open(c, h, next, d) && !LeftOpenAt(c, h, i, d) {
      var k: nat :| k < next && LeftOpenAt(c, h, k, d) && UnsettledSince(c, h, k, next, d);
      assert UnsettledSince(c, h, k, i, d);
    }
    if LeftOpenAt(c, h, i, d) {
      assert UnsettledSince(c, h, i, next, d);
    }
    if Open(c, h, i, d) && !SettledAt(c, h, i, d) {
      var k: nat :| k < i && LeftOpenAt(c, h, k, d) && UnsettledSince(c, h, k, i, d);
      assert UnsettledSince(c, h, k, next, d);
    }
  }

  /** The four ledgers hold what the answers said. */
  ghost predicate Told(c: Setup, h: seq<Op>, i: nat, d: Digest)
    requires i <= |h|
  {
    var s := StateAt(c, h, i);
    && (d in s.issued <==> Issued(c, h, i, d))
    && (d in s.invalidated <==> Voided(c, h, i, d))
    && (d in s.consumed <==> Handed(c, h, i, d))
    && (d in s.unresolved <==> Open(c, h, i, d))
  }

  lemma {:induction false} StepTells(c: Setup, h: seq<Op>, i: nat, next: nat, d: Digest)
    requires i < |h| && next == i + 1
    ensures var s, s' := StateAt(c, h, i), StateAt(c, h, next);
      && (d in s'.issued <==> d in s.issued || IssuedAt(c, h, i, d))
      && (d in s'.invalidated <==> d in s.invalidated || VoidedAt(c, h, i, d))
      && (d in s'.consumed <==> d in s.consumed || HandedAt(c, h, i, d))
      && (d in s'.unresolved <==> LeftOpenAt(c, h, i, d) || (d in s.unresolved && !SettledAt(c, h, i, d)))
  {
    hide MakePayload, FromWire, Text.Strip, Verify;
    assert StateAt(c, h, next) == Step(c, StateAt(c, h, i), h[i]).1;
  }

  lemma {:induction false} LedgersAreTold(c: Setup, h: seq<Op>, i: nat, d: Digest)
    requires i <= |h|
    ensures Told(c, h, i, d)
  {
    hide Step, StateAt, Issued, Voided, Handed, Open, IssuedAt, VoidedAt, HandedAt, LeftOpenAt, SettledAt;
    if i == 0 {
      NothingTold(c, h, d);
    } else {
      LedgersAreTold(c, h, i - 1, d);
      StepTells(c, h, i - 1, i, d);
      IssuedNext(c, h, i - 1, i, d);
      VoidedNext(c, h, i - 1, i, d);
      HandedNext(c, h, i - 1, i, d);
      OpenNext(c, h, i - 1, i, d);
    }
  }

  lemma NothingTold(c: Setup, h: seq<Op>, d: Digest)
    ensures Told(c, h, 0, d)
  {
  }

  // ---------------------------------------------------------------- the answers

  /** An invalidation is confirmed exactly when the intent was issued and never handed on. */
  lemma {:induction false} InvalidatesExactly(c: Setup, h: seq<Op>, i: nat, d: Digest)
    requires i < |h| && h[i] == Invalidate(d)
    ensures ResultAt(c, h, i) == Answer(Issued(c, h, i, d) && !Handed(c, h, i, d))
  {
    hide StateAt, Issued, Voided, Handed, Open;
    LedgersAreTold(c, h, i, d);
  }

  /** A broadcast is settled exactly when it was left open and not settled since. */
  lemma {:induction false} ResolvesExactly(c: Setup, h: seq<Op>, i: nat, d: Digest)
    requires i < |h| && h[i] == Resolve(d)
    ensures ResultAt(c, h, i) == Answer(Open(c, h, i, d))
  {
    hide StateAt, Issued, Voided, Handed, Open;
    LedgersAreTold(c, h, i, d);
  }

  /** The first reason to reject an envelope, or none. */
  ghost predicate RejectedFor(c: Setup, h: seq<Op>, i: nat, envelope: Option<Envelope>, reason: Reason)
    requires i <= |h|
  {
    if envelope.None? then reason == NoPayload
    else if c.verificationKey.None? || c.verificationKey.value == "" then reason == NoKey
    else if !c.adapterWired then reason == NoAdapter
    else
      var e := envelope.value;
      var p := FromWire(e.unsigned);
      if p.None? then reason == MalformedPayload
      else
        var d := Sha256(p.value);
        if e.originalHash != d then reason == BindingMismatch
        else if !Issued(c, h, i, d) then reason == NotIssued
        else if p.value.chainId != c.chainId then reason == ChainMismatch
        else if Voided(c, h, i, d) then reason == WasInvalidated
        else if e.keyId != c.signerKeyId then reason == UnknownKeyId
        else if Handed(c, h, i, d) then reason == AlreadySubmitted
        else reason == BadSignature && e.signature != Mac(c.verificationKey.value, d)
  }

  /** A broadcast is rejected exactly for the first failing check. Otherwise the payload goes to
      the adapter, and counts as accepted exactly when the adapter replied with a reference. */
  lemma {:induction false} BroadcastExactly(c: Setup, h: seq<Op>, i: nat)
    requires i < |h| && h[i].Broadcast?
    ensures var (e, reply) := (h[i].envelope, h[i].reply);
      match ResultAt(c, h, i) {
        case Rejected(reason) => RejectedFor(c, h, i, e, reason) && DispatchAt(c, h, i) == None
        case Accepted(d, reference) =>
          && (forall reason :: !RejectedFor(c, h, i, e, reason))
          && DispatchAt(c, h, i) == FromWire(e.value.unsigned) && d == e.value.originalHash
          && reply == Reference(reference) && !Text.Blank(reference)
        case Unresolved(d) =>
          && (forall reason :: !RejectedFor(c, h, i, e, reason))
          && DispatchAt(c, h, i) == FromWire(e.value.unsigned) && d == e.value.originalHash
          && (reply.Reference? ==> Text.Blank(reply.text))
        case _ => false
      }
  {
    hide StateAt, Issued, Voided, Handed, Open, FromWire, Text.Strip, Text.Blank;
    var e := h[i].envelope;
    if e.Some? && FromWire(e.value.unsigned).Some? {
      LedgersAreTold(c, h, i, Sha256(FromWire(e.value.unsigned).value));
    }
    if h[i].reply.Reference? {
      Text.StripBlank(h[i].reply.text);
    }
  }

  /** What the adapter receives is what the outcome names. */
  lemma {:induction false} DispatchIsHanded(c: Setup, h: seq<Op>, k: nat, d: Digest)
    requires k < |h|
    ensures HandedAt(c, h, k, d) <==> DispatchAt(c, h, k).Some? && Sha256(DispatchAt(c, h, k).value) == d
  {
    hide StateAt, MakePayload, FromWire, Text.Strip, Verify;
  }

  /** Once the operator is told that an intent is void, no broadcast before or after sends it. */
  lemma {:induction false} VoidIsFinal(c: Setup, h: seq<Op>, j: nat, k: nat, d: Digest)
    requires j < |h| && k < |h| && VoidedAt(c, h, j, d)
    ensures !HandedAt(c, h, k, d)
    ensures DispatchAt(c, h, k).Some? ==> Sha256(DispatchAt(c, h, k).value) != d
  {
    hide StateAt, DispatchAt, HandedAt, ResultAt, Issued;
    DispatchIsHanded(c, h, k, d);
    if HandedAt(c, h, k, d) {
      LedgersAreTold(c, h, j + 1, d);
      DispatchedWasIssuedAndNeverVoid(c, h, k, j + 1);
    }
  }

  // ---------------------------------------------------------------- issuing

  /** How many intents were issued. */
  function IssuedCount(c: Setup, h: seq<Op>, i: nat): nat
    requires i <= |h|
  {
    if i == 0 then 0 else IssuedCount(c, h, i - 1) + if ResultAt(c, h, i - 1).Created? then 1 else 0
  }

  lemma {:induction false} CounterIsCount(c: Setup, h: seq<Op>, i: nat)
    requires i <= |h|
    ensures StateAt(c, h, i).counter == c.startingNonce + IssuedCount(c, h, i)
  {
    hide MakePayload, Dispatch;
    if i > 0 {
      CounterIsCount(c, h, i - 1);
    }
  }

  /** An intent carries what was asked for, the coordinator's chain and the next nonce. It is
      refused exactly for an address that is not twenty bytes in hexadecimal, an amount that is
      not representable, or when chain or nonce is out of range. */
  lemma {:induction false} CreatesExactly(c: Setup, h: seq<Op>, i: nat)
    requires i < |h| && h[i].Create?
    ensures var (address, amount) := (h[i].address, h[i].amount);
      var nonce := c.startingNonce + IssuedCount(c, h, i) + 1;
      var canonical := Amounts.Canonical(amount);
      match ResultAt(c, h, i) {
        case Created(p) =>
          && p.destination == address && canonical == Amounts.Ok(p.amount)
          && p.network == "ETH" && p.chainId == c.chainId && p.nonce == nonce && p.version.Two?
        case r =>
          && r.Raises?
          && (!(|address| == 42 && address[..2] == "0x" && forall x :: x in address[2..] ==> IsHex(x))
              || canonical.Err? || !(1 <= c.chainId < 0x1_0000_0000_0000_0000)
              || !(1 <= nonce < 0x1_0000_0000_0000_0000))
      }
  {
    hide StateAt, Amounts.Canonical;
    CounterIsCount(c, h, i);
    var address := h[i].address;
    if |address| == 42 && address[..2] == "0x" && forall x :: x in address[2..] ==> IsHex(x) {
      assert address[0] == address[..2][0] && address[1] == address[..2][1];
      forall k | 2 <= k < 42 ensures IsHex(address[k]) {
        assert address[2..][k - 2] in address[2..];
      }
    }
  }
}
