/** Both sides of the air gap together. */
module ColdStorage {
  import opened Options
  import opened Payloads
  import Vault
  import C = Coordinator
  import Text

  /** Coordinator and vault agree on key material and an adapter is wired. */
  predicate Paired(c: C.Setup, pol: Vault.Policy)
  {
    pol.Valid() && C.Keyed(c) && c.adapterWired && c.verificationKey.value == pol.key && c.signerKeyId == pol.keyId
  }

  /** An intent issued here, approved and signed at the vault over an honest medium, is
      accepted by the network; presented again, the same envelope is refused. */
  lemma {:induction false} HonestTransferIsAcceptedOnce(
      c: C.Setup, s: C.State, address: string, amount: string,
      pol: Vault.Policy, vault: Vault.State, ask: Display -> Vault.Answer,
      reference: string, again: C.Reply)
    requires Paired(c, pol) && C.Inv(c, s)
    requires C.Step(c, s, C.Create(address, amount)).0.Created?
    requires var p := C.Step(c, s, C.Create(address, amount)).0.payload;
      Vault.PassesPolicy(pol, p) && Vault.PassesReplay(pol, vault, p)
      && Vault.Approved(pol, Vault.Request(ToWire(p), ask), p)
    requires Text.Strip(reference) != ""
    ensures var (created, s1) := C.Step(c, s, C.Create(address, amount));
      var signed := Vault.Sign(pol, vault, Vault.Request(ToWire(created.payload), ask)).0;
      && signed.Some?
      && var (sent, s2) := C.Step(c, s1, C.Broadcast(signed, C.Reference(reference)));
      && sent == C.Accepted(Sha256(created.payload), reference)
      && C.Step(c, s2, C.Broadcast(signed, again)).0 == C.Rejected(C.AlreadySubmitted)
  {
    hide MakePayload, FromWire, ToWire, IsPayload, Vault.PassesPolicy;
    var (created, s1) := C.Step(c, s, C.Create(address, amount));
    var p := created.payload;
    MakePayloadIsPayload(address, amount, SUPPORTED_NETWORK, c.chainId, s.counter + 1, PAYLOAD_VERSION);
    WireRoundTrip(p);
    assert Sha256(p) !in s.issued;
    var e := Vault.EnvelopeOf(pol, p);
    assert C.Verify(c, s1, e).0 == Some(p);
  }

  /** Whatever travels in between, if the adapter sees a payload through an envelope the
      vault produced, then that very payload's display was approved and passed the vault's
      policy, and the coordinator had issued it. */
  lemma {:induction false} BroadcastWasApproved(
      c: C.Setup, h: seq<C.Op>, k: nat, pol: Vault.Policy, requests: seq<Vault.Request>, i: nat)
    requires pol.Valid() && k < |h| && i < |requests|
    requires C.DispatchAt(c, h, k).Some? && h[k].Broadcast?
    requires h[k].envelope.Some? && h[k].envelope == Vault.ResultAt(pol, requests, i)
    ensures var p := C.DispatchAt(c, h, k).value;
      && Sha256(p) in C.StateAt(c, h, k).issued
      && requests[i].ask(DisplayOf(p)) == Vault.Approve && Vault.PassesPolicy(pol, p)
  {
    hide C.Dispatch, C.StateAt, Vault.StateAt, Vault.PassesPolicy, FromWire;
    Vault.SignatureMeansApproval(pol, requests, i);
    C.DispatchFacts(c, C.StateAt(c, h, k), h[k]);
  }
}
