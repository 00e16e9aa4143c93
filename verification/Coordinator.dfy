/** The online coordinator: it issues intents, voids them, and submits a verified envelope
    to the broadcast adapter at most once, whatever comes back over the medium and whatever
    the adapter does. */
module Coordinator {
  import opened Options
  import opened Payloads
  import Text

  datatype Setup = Setup(
    verificationKey: Option<string>,
    signerKeyId: string,
    startingNonce: int,
    chainId: int,
    adapterWired: bool)
  {
    predicate Valid() { Bounded(startingNonce, 0, MAX_NONCE - 1) && Bounded(chainId, 1, MAX_NONCE) }
  }

  /** What the adapter call does: a text reference, something else, or an exception. */
  datatype Reply = Reference(text: string) | NotText | Raised

  datatype Op =
    | Create(address: string, amount: string)
    | Invalidate(digest: Digest)
    | Resolve(digest: Digest)
    | Broadcast(envelope: Option<Envelope>, reply: Reply)

  datatype Reason =
    | NoPayload | NoKey | NoAdapter | MalformedPayload | BindingMismatch | NotIssued | ChainMismatch
    | WasInvalidated | UnknownKeyId | AlreadySubmitted | BadSignature

  datatype Result =
    | Created(payload: Payload)
    | Raises
    | Answer(yes: bool)
    | Rejected(reason: Reason)
    | Unresolved(digest: Digest)
    | Accepted(digest: Digest, reference: string)

  datatype State = State(
    counter: int,
    issued: map<Digest, Payload>,
    invalidated: set<Digest>,
    consumed: set<Digest>,
    unresolved: set<Digest>)

  function Fresh(c: Setup): State { State(c.startingNonce, map[], {}, {}, {}) }

  /** The payload an envelope is verified for, or the first check it fails. */
  function Verify(c: Setup, s: State, e: Envelope): (Option<Payload>, Reason)
    requires c.verificationKey.Some?
  {
    var p := FromWire(e.unsigned);
    if p.None? then (None, MalformedPayload)
    else
      var d := Sha256(p.value);
      if d != e.originalHash then (None, BindingMismatch)
      else if d !in s.issued then (None, NotIssued)
      else if p.value.chainId != c.chainId then (None, ChainMismatch)
      else if d in s.invalidated then (None, WasInvalidated)
      else if e.keyId != c.signerKeyId then (None, UnknownKeyId)
      else if d in s.consumed then (None, AlreadySubmitted)
      else if e.signature != Mac(c.verificationKey.value, d) then (None, BadSignature)
      else (p, NoPayload)
  }

  predicate Keyed(c: Setup) { c.verificationKey.Some? && c.verificationKey.value != "" }

  /** The payload handed to the adapter, if the operation reaches it. */
  function Dispatch(c: Setup, s: State, op: Op): Option<Payload>
  {
    if op.Broadcast? && op.envelope.Some? && Keyed(c) && c.adapterWired then Verify(c, s, op.envelope.value).0
    else None
  }

  function Refusal(c: Setup, s: State, e: Option<Envelope>): Reason
  {
    if e.None? then NoPayload
    else if !Keyed(c) then NoKey
    else if !c.adapterWired then NoAdapter
    else Verify(c, s, e.value).1
  }

  function Step(c: Setup, s: State, op: Op): (Result, State)
  {
    match op
    case Create(address, amount) =>
      var p := MakePayload(address, amount, SUPPORTED_NETWORK, c.chainId, s.counter + 1, PAYLOAD_VERSION);
      if p.None? then (Raises, s)
      else (Created(p.value), s.(counter := s.counter + 1, issued := s.issued[Sha256(p.value) := p.value]))
    case Invalidate(d) =>
      if d !in s.issued || d in s.consumed then (Answer(false), s)
      else (Answer(true), s.(invalidated := s.invalidated + {d}))
    case Resolve(d) =>
      if d !in s.unresolved then (Answer(false), s)
      else (Answer(true), s.(unresolved := s.unresolved - {d}))
    case Broadcast(e, reply) =>
      var p := Dispatch(c, s, op);
      if p.None? then (Rejected(Refusal(c, s, e)), s)
      else
        var d := Sha256(p.value);
        var s' := s.(consumed := s.consumed + {d});
        if reply.Reference? && Text.Strip(reply.text) != "" then (Accepted(d, reply.text), s')
        else (Unresolved(d), s'.(unresolved := s'.unresolved + {d}))
  }

  // ---------------------------------------------------------------- what every operation keeps

  /** Some issued intent carries nonce n. */
  ghost predicate Issues(s: State, n: int) { exists d :: d in s.issued && s.issued[d].nonce == n }

  ghost predicate Inv(c: Setup, s: State)
  {
    && s.unresolved <= s.consumed <= s.issued.Keys
    && s.invalidated <= s.issued.Keys
    && s.consumed !! s.invalidated
    && c.startingNonce <= s.counter
    && (forall d :: d in s.issued ==>
          d == Sha256(s.issued[d]) && IsPayload(s.issued[d]) && c.startingNonce < s.issued[d].nonce <= s.counter)
    && (forall n :: c.startingNonce < n <= s.counter ==> Issues(s, n))
    && (forall d, e :: d in s.issued && e in s.issued && s.issued[d].nonce == s.issued[e].nonce ==> d == e)
  }

  lemma {:induction false} CreateKeeps(c: Setup, s: State, address: string, amount: string)
    requires Inv(c, s)
    ensures Inv(c, Step(c, s, Create(address, amount)).1)
  {
    hide MakePayload, IsPayload;
    var p := MakePayload(address, amount, SUPPORTED_NETWORK, c.chainId, s.counter + 1, PAYLOAD_VERSION);
    MakePayloadIsPayload(address, amount, SUPPORTED_NETWORK, c.chainId, s.counter + 1, PAYLOAD_VERSION);
    if p.Some? {
      var s' := Step(c, s, Create(address, amount)).1;
      assert Sha256(p.value) !in s.issued;
      forall n | c.startingNonce < n <= s'.counter ensures Issues(s', n) {
        if n == s'.counter {
          assert Sha256(p.value) in s'.issued;
        } else {
          assert Issues(s, n);
          var d :| d in s.issued && s.issued[d].nonce == n;
          assert d in s'.issued;
        }
      }
    }
  }

  /** Unresolved within consumed within issued, consumed apart from invalidated, and the
      issued nonces exactly the numbers after the starting nonce up to the counter. */
  lemma {:induction false} StepKeeps(c: Setup, s: State, op: Op)
    requires Inv(c, s)
    ensures Inv(c, Step(c, s, op).1)
  {
    hide MakePayload, IsPayload, FromWire;
    if op.Create? {
      CreateKeeps(c, s, op.address, op.amount);
    } else {
      var s' := Step(c, s, op).1;
      assert s'.issued == s.issued && s'.counter == s.counter;
      forall n | c.startingNonce < n <= s'.counter ensures Issues(s', n) {
        assert Issues(s, n);
      }
    }
  }

  function StateAt(c: Setup, h: seq<Op>, i: nat): State
    requires i <= |h|
  {
    if i == 0 then Fresh(c) else Step(c, StateAt(c, h, i - 1), h[i - 1]).1
  }

  function ResultAt(c: Setup, h: seq<Op>, i: nat): Result
    requires i < |h|
  {
    Step(c, StateAt(c, h, i), h[i]).0
  }

  function DispatchAt(c: Setup, h: seq<Op>, i: nat): Option<Payload>
    requires i < |h|
  {
    Dispatch(c, StateAt(c, h, i), h[i])
  }

  lemma {:induction false} AlwaysInv(c: Setup, h: seq<Op>, i: nat)
    requires i <= |h|
    ensures Inv(c, StateAt(c, h, i))
  {
    hide Step, Inv;
    if i == 0 {
      FreshInv(c);
    } else {
      AlwaysInv(c, h, i - 1);
      StepKeeps(c, StateAt(c, h, i - 1), h[i - 1]);
    }
  }

  lemma FreshInv(c: Setup)
    ensures Inv(c, Fresh(c))
  {
  }

  // ---------------------------------------------------------------- exactly once

  lemma {:induction false} StepGrows(c: Setup, s: State, op: Op)
    ensures var s' := Step(c, s, op).1;
      && s.consumed <= s'.consumed && s.invalidated <= s'.invalidated && s.issued.Keys <= s'.issued.Keys
      && s'.consumed == s.consumed + (if Dispatch(c, s, op).Some? then {Sha256(Dispatch(c, s, op).value)} else {})
  {
    hide MakePayload, FromWire;
  }

  lemma {:induction false} LedgersGrow(c: Setup, h: seq<Op>, i: nat, j: nat)
    requires i <= j <= |h|
    ensures StateAt(c, h, i).consumed <= StateAt(c, h, j).consumed
    ensures StateAt(c, h, i).invalidated <= StateAt(c, h, j).invalidated
    ensures StateAt(c, h, i).issued.Keys <= StateAt(c, h, j).issued.Keys
    decreases j
  {
    hide Step, Dispatch;
    if i < j {
      LedgersGrow(c, h, i, j - 1);
      StepGrows(c, StateAt(c, h, j - 1), h[j - 1]);
    }
  }

  lemma {:induction false} DispatchFacts(c: Setup, s: State, op: Op)
    requires Dispatch(c, s, op).Some?
    ensures var p := Dispatch(c, s, op).value; var d := Sha256(p);
      && d in s.issued && d !in s.invalidated && d !in s.consumed && p.chainId == c.chainId
      && Keyed(c) && op.Broadcast? && op.envelope.Some?
      && op.envelope.value.signature == Mac(c.verificationKey.value, d)
      && op.envelope.value.keyId == c.signerKeyId && FromWire(op.envelope.value.unsigned) == Some(p)
  {
    hide FromWire;
  }

  lemma {:induction false} DispatchConsumes(c: Setup, h: seq<Op>, i: nat)
    requires i < |h| && DispatchAt(c, h, i).Some?
    ensures Sha256(DispatchAt(c, h, i).value) in StateAt(c, h, i + 1).consumed
  {
    hide Step, Dispatch;
    StepGrows(c, StateAt(c, h, i), h[i]);
    assert StateAt(c, h, i + 1) == Step(c, StateAt(c, h, i), h[i]).1;
  }

  /** The adapter never sees a payload twice. */
  lemma {:induction false} DispatchedOnce(c: Setup, h: seq<Op>, i: nat, j: nat)
    requires i < j < |h| && DispatchAt(c, h, i).Some? && DispatchAt(c, h, j).Some?
    ensures DispatchAt(c, h, i).value != DispatchAt(c, h, j).value
  {
    hide StateAt, Dispatch, FromWire;
    DispatchConsumes(c, h, i);
    LedgersGrow(c, h, i + 1, j);
    DispatchFacts(c, StateAt(c, h, j), h[j]);
  }

  /** What the adapter sees was issued before and is never void, before or after. */
  lemma {:induction false} DispatchedWasIssuedAndNeverVoid(c: Setup, h: seq<Op>, i: nat, j: nat)
    requires i < |h| && j <= |h| && DispatchAt(c, h, i).Some?
    ensures Sha256(DispatchAt(c, h, i).value) in StateAt(c, h, i).issued
    ensures Sha256(DispatchAt(c, h, i).value) !in StateAt(c, h, j).invalidated
  {
    hide StateAt, Dispatch, FromWire;
    DispatchFacts(c, StateAt(c, h, i), h[i]);
    DispatchConsumes(c, h, i);
    if j <= i {
      LedgersGrow(c, h, j, i);
    } else {
      LedgersGrow(c, h, i + 1, j);
      AlwaysInv(c, h, j);
    }
  }

  /** Consumed is exactly what the adapter has seen. */
  lemma {:induction false} ConsumedIsDispatched(c: Setup, h: seq<Op>, i: nat, d: Digest)
    requires i <= |h|
    ensures d in StateAt(c, h, i).consumed <==>
      exists k :: 0 <= k < i && DispatchAt(c, h, k).Some? && Sha256(DispatchAt(c, h, k).value) == d
  {
    hide Step, Dispatch;
    if i > 0 {
      ConsumedIsDispatched(c, h, i - 1, d);
      StepGrows(c, StateAt(c, h, i - 1), h[i - 1]);
      if d in StateAt(c, h, i).consumed && d !in StateAt(c, h, i - 1).consumed {
        assert Sha256(DispatchAt(c, h, i - 1).value) == d;
      }
    }
  }

  /** Every nonce after the starting one up to the counter was issued to exactly one intent. */
  lemma {:induction false} IssuedNoncesAreExact(c: Setup, h: seq<Op>, i: nat, n: int)
    requires i <= |h|
    ensures var s := StateAt(c, h, i);
      && (c.startingNonce < n <= s.counter <==> Issues(s, n))
      && (forall d, e :: d in s.issued && e in s.issued && s.issued[d].nonce == n && s.issued[e].nonce == n ==> d == e)
  {
    hide Step, IsPayload;
    AlwaysInv(c, h, i);
  }

  // ---------------------------------------------------------------- the coordinator

  lemma {:induction false} HistoryExtends(c: Setup, h: seq<Op>, op: Op, i: nat)
    requires i <= |h|
    ensures StateAt(c, h + [op], i) == StateAt(c, h, i)
  {
    hide Step;
    if i > 0 {
      HistoryExtends(c, h, op, i - 1);
    }
  }

  lemma {:induction false} NextState(c: Setup, h: seq<Op>, op: Op)
    ensures var (r, s) := Step(c, StateAt(c, h, |h|), op);
      StateAt(c, h + [op], |h| + 1) == s && ResultAt(c, h + [op], |h|) == r
  {
    hide Step;
    HistoryExtends(c, h, op, |h|);
  }

  class OnlineCoordinator {
    const setup: Setup
    var nonceCounter: int
    var issued: map<Digest, Payload>
    var invalidated: set<Digest>
    var consumed: set<Digest>
    var unresolved: set<Digest>
    ghost var history: seq<Op>  // every call

    ghost function View(): State
      reads this
    {
      State(nonceCounter, issued, invalidated, consumed, unresolved)
    }

    ghost predicate Valid()
      reads this
    {
      setup.Valid() && View() == StateAt(setup, history, |history|)
    }

    constructor (setup: Setup)
      requires setup.Valid()
      ensures Valid() && this.setup == setup && history == []
    {
      this.setup := setup;
      nonceCounter, issued, invalidated, consumed, unresolved := setup.startingNonce, map[], {}, {}, {};
      history := [];
    }

    method CreateUnsignedTransfer(address: string, amount: string) returns (r: Result)
      requires Valid()
      modifies this
      ensures Valid() && history == old(history) + [Create(address, amount)]
      ensures r == ResultAt(setup, history, |old(history)|)
      ensures r.Raises? ==> View() == old(View())
    {
      hide MakePayload;
      NextState(setup, history, Create(address, amount));
      history := history + [Create(address, amount)];
      var payload := MakePayload(address, amount, SUPPORTED_NETWORK, setup.chainId, nonceCounter + 1, PAYLOAD_VERSION);
      if payload.None? {
        return Raises;
      }
      nonceCounter := nonceCounter + 1;
      issued := issued[Sha256(payload.value) := payload.value];
      return Created(payload.value);
    }

    method InvalidateIntent(digest: Digest) returns (r: Result)
      requires Valid()
      modifies this
      ensures Valid() && history == old(history) + [Invalidate(digest)]
      ensures r == ResultAt(setup, history, |old(history)|)
    {
      hide StateAt, ResultAt, MakePayload, FromWire;
      NextState(setup, history, Invalidate(digest));
      history := history + [Invalidate(digest)];
      if digest !in issued || digest in consumed {
        return Answer(false);
      }
      invalidated := invalidated + {digest};
      return Answer(true);
    }

    method ResolveUnresolved(digest: Digest) returns (r: Result)
      requires Valid()
      modifies this
      ensures Valid() && history == old(history) + [Resolve(digest)]
      ensures r == ResultAt(setup, history, |old(history)|)
      ensures consumed == old(consumed)
    {
      hide StateAt, ResultAt, MakePayload, FromWire;
      NextState(setup, history, Resolve(digest));
      history := history + [Resolve(digest)];
      if digest !in unresolved {
        return Answer(false);
      }
      unresolved := unresolved - {digest};
      return Answer(true);
    }

    method VerifyEnvelope(e: Envelope) returns (p: Option<Payload>, reason: Reason)
      requires setup.verificationKey.Some?
      ensures (p, reason) == Verify(setup, View(), e)
    {
      var payload := FromWire(e.unsigned);
      if payload.None? {
        return None, MalformedPayload;
      }
      var digest := Sha256(payload.value);
      if digest != e.originalHash {
        return None, BindingMismatch;
      }
      if digest !in issued {
        return None, NotIssued;
      }
      if payload.value.chainId != setup.chainId {
        return None, ChainMismatch;
      }
      if digest in invalidated {
        return None, WasInvalidated;
      }
      if e.keyId != setup.signerKeyId {
        return None, UnknownKeyId;
      }
      if digest in consumed {
        return None, AlreadySubmitted;
      }
      if e.signature != Mac(setup.verificationKey.value, digest) {
        return None, BadSignature;
      }
      return payload, NoPayload;
    }

    /** The payload is consumed before the adapter is called, so no reply can lead to a
        second submission. */
    method BroadcastToNetwork(e: Option<Envelope>, reply: Reply) returns (r: Result)
      requires Valid()
      modifies this
      ensures Valid() && history == old(history) + [Broadcast(e, reply)]
      ensures r == ResultAt(setup, history, |old(history)|)
    {
      hide FromWire, Text.Strip;
      NextState(setup, history, Broadcast(e, reply));
      history := history + [Broadcast(e, reply)];
      if e.None? {
        return Rejected(NoPayload);
      }
      if setup.verificationKey.None? || setup.verificationKey.value == "" {
        return Rejected(NoKey);
      }
      if !setup.adapterWired {
        return Rejected(NoAdapter);
      }
      var payload, reason := VerifyEnvelope(e.value);
      if payload.None? {
        return Rejected(reason);
      }
      var digest := Sha256(payload.value);
      consumed := consumed + {digest};
      if reply.Raised? {
        unresolved := unresolved + {digest};
        return Unresolved(digest);
      }
      if !reply.Reference? || Text.Strip(reply.text) == "" {
        unresolved := unresolved + {digest};
        return Unresolved(digest);
      }
      return Accepted(digest, reply.text);
    }
  }
}
