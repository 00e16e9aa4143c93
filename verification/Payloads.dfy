/** Transfer intents and signed envelopes as they cross between coordinator and vault.
    Digests and signatures are free constructors over what they cover. */
module Payloads {
  import opened Options
  import Amounts
  import J = JsonText

  const SUPPORTED_NETWORK := "ETH"
  const MAX_NONCE := 0xFFFF_FFFF_FFFF_FFFF

  /** Python holds the integer 2 and the float 2.0 equal, and so accepts either. */
  datatype Version = Two | TwoPointZero

  const PAYLOAD_VERSION := Two

  datatype Payload = Payload(
    destination: string,
    amount: string,
    network: string,
    chainId: int,
    nonce: int,
    version: Version)

  /** QR or SD data: any text. */
  type Wire = string

  datatype Digest = Sha256(payload: Payload) | OtherDigest(text: string)

  datatype Signature = Mac(key: string, digest: Digest) | OtherSignature(text: string)

  datatype Envelope = Envelope(unsigned: Wire, originalHash: Digest, signature: Signature, keyId: string)

  /** What the approver is shown: lines of text, and a last line with the digest. */
  datatype Display = Display(text: string, digest: Digest)

  predicate IsHex(c: char) { '0' <= c <= '9' || 'a' <= c <= 'f' || 'A' <= c <= 'F' }

  /** A 20-byte address: 0x and forty hexadecimal characters. */
  predicate IsAddress(s: string)
  {
    |s| == 42 && s[0] == '0' && s[1] == 'x' && forall i :: 2 <= i < 42 ==> IsHex(s[i])
  }

  predicate Bounded(n: int, low: int, high: int) { low <= n <= high }

  /** A validated intent with its amount in canonical form, or nothing. */
  function MakePayload(
    destination: string, amount: string, network: string, chainId: int, nonce: int, version: Version): Option<Payload>
  {
    if !IsAddress(destination) then None
    else if network != SUPPORTED_NETWORK then None
    else if !Bounded(chainId, 1, MAX_NONCE) then None
    else if !Bounded(nonce, 1, MAX_NONCE) then None
    else
      var c := Amounts.Canonical(amount);
      if c.Err? then None else Some(Payload(destination, c.text, network, chainId, nonce, version))
  }

  /** What every constructed payload satisfies. */
  predicate IsPayload(p: Payload)
  {
    && IsAddress(p.destination) && p.network == SUPPORTED_NETWORK
    && Bounded(p.chainId, 1, MAX_NONCE) && Bounded(p.nonce, 1, MAX_NONCE)
    && Amounts.Canonical(p.amount) == Amounts.Ok(p.amount)
  }

  const FIELDS := {"destination_address", "amount", "network", "chain_id", "nonce", "version"}

  /** The version a JSON value equals, if it is supported. */
  function VersionOf(v: J.Value): Option<Version>
  {
    if v == J.Number(2) then Some(Two)
    else if v.Float? && J.RoundsToTwo(v.mantissa, v.exponent) then Some(TwoPointZero)
    else None
  }

  function VersionValue(v: Version): (r: J.Value)
    ensures J.IsAtom(r)
  {
    if v.Two? then J.Number(2) else J.TWO
  }

  lemma TwoIsTwo()
    ensures J.RoundsToTwo(20, -1)
  {
  }

  lemma {:induction false} VersionRoundTrip(v: Version)
    ensures VersionOf(VersionValue(v)) == Some(v)
  {
    TwoIsTwo();
  }

  /** The fields in the order of their names. */
  function Members(p: Payload): seq<J.Member>
  {
    [("amount", J.Text(p.amount)), ("chain_id", J.Number(p.chainId)), ("destination_address", J.Text(p.destination)),
     ("network", J.Text(p.network)), ("nonce", J.Number(p.nonce)), ("version", VersionValue(p.version))]
  }

  function ToWire(p: Payload): Wire { J.RenderObject(Members(p)) }

  /** Strict decoding: a JSON object of exactly the expected fields, each of its type, then
      validation. */
  function FromWire(w: Wire): Option<Payload>
  {
    var json := J.Loads(w);
    if json.None? || !json.value.Object? then None else FromFields(json.value.fields)
  }

  function FromFields(f: map<string, J.Value>): Option<Payload>
  {
    if f.Keys != FIELDS then None
    else if !f["destination_address"].Text? || !f["amount"].Text? || !f["network"].Text?
      || !f["chain_id"].Number? || !f["nonce"].Number? || VersionOf(f["version"]).None? then None
    else
      MakePayload(f["destination_address"].text, f["amount"].text, f["network"].text,
                  f["chain_id"].n, f["nonce"].n, VersionOf(f["version"]).value)
  }

  function DisplayOf(p: Payload): Display
  {
    Display("TRANSFER APPROVAL REQUIRED\n"
            + "  Destination: " + p.destination + "\n"
            + "  Amount:      " + p.amount + " " + p.network + "\n"
            + "  Chain ID:    " + J.Numeral(p.chainId) + "\n"
            + "  Nonce:       " + J.Numeral(p.nonce), Sha256(p))
  }

  lemma {:induction false} MakePayloadIsPayload(
      destination: string, amount: string, network: string, chainId: int, nonce: int, version: Version)
    ensures var p := MakePayload(destination, amount, network, chainId, nonce, version);
      p.Some? ==> IsPayload(p.value) && p.value.nonce == nonce && p.value.chainId == chainId
  {
    hide Amounts.Canonical;
    if Amounts.Canonical(amount).Ok? {
      Amounts.CanonicalIsIdempotent(amount);
    }
  }

  /** Whatever text decodes gives a valid payload. */
  lemma {:induction false} DecodedIsPayload(w: Wire)
    ensures FromWire(w).Some? ==> IsPayload(FromWire(w).value)
  {
    hide MakePayload, IsPayload, J.Loads;
    if FromWire(w).Some? {
      var f := J.Loads(w).value.fields;
      MakePayloadIsPayload(f["destination_address"].text, f["amount"].text, f["network"].text,
                           f["chain_id"].n, f["nonce"].n, VersionOf(f["version"]).value);
    }
  }

  /** Text decodes to a payload exactly when it is a JSON object of the six named fields, each
      of its type, that carry the payload's values within range, the amount up to its form. */
  lemma {:induction false} DecodesExactly(w: Wire, p: Payload)
    ensures FromWire(w) == Some(p) <==>
      && J.Loads(w).Some? && J.Loads(w).value.Object?
      && var f := J.Loads(w).value.fields;
      && f.Keys == {"amount", "chain_id", "destination_address", "network", "nonce", "version"}
      && f["destination_address"] == J.Text(p.destination) && IsAddress(p.destination)
      && f["amount"].Text? && Amounts.Canonical(f["amount"].text) == Amounts.Ok(p.amount)
      && f["network"] == J.Text("ETH") && p.network == "ETH"
      && f["chain_id"] == J.Number(p.chainId) && 1 <= p.chainId < 0x1_0000_0000_0000_0000
      && f["nonce"] == J.Number(p.nonce) && 1 <= p.nonce < 0x1_0000_0000_0000_0000
      && match p.version {
           case Two => f["version"] == J.Number(2)
           case TwoPointZero => f["version"].Float? && J.RoundsToTwo(f["version"].mantissa, f["version"].exponent)
         }
  {
    hide J.Loads, Amounts.Canonical, IsAddress, J.RoundsToTwo;
  }

  function FieldMap(p: Payload): map<string, J.Value>
  {
    map["amount" := J.Text(p.amount), "chain_id" := J.Number(p.chainId),
        "destination_address" := J.Text(p.destination), "network" := J.Text(p.network),
        "nonce" := J.Number(p.nonce), "version" := VersionValue(p.version)]
  }

  lemma FieldsStep(ms: seq<J.Member>, k: nat, next: nat, f: map<string, J.Value>)
    requires k < |ms| && next == k + 1
    ensures J.FieldsOf(ms[k..], f) == J.FieldsOf(ms[next..], f[ms[k].0 := ms[k].1])
  {
    assert ms[k..][1..] == ms[next..];
  }

  lemma {:induction false} MembersAreFields(p: Payload)
    ensures Members(p) != [] && J.FieldsOf(Members(p), map[]) == FieldMap(p)
  {
    var ms := Members(p);
    assert ms[0..] == ms && ms[6..] == [];
    assert J.FieldsOf([], FieldMap(p)) == FieldMap(p);
    hide J.FieldsOf;
    var f1 := map["amount" := J.Text(p.amount)];
    var f2 := f1["chain_id" := J.Number(p.chainId)];
    var f3 := f2["destination_address" := J.Text(p.destination)];
    var f4 := f3["network" := J.Text(p.network)];
    var f5 := f4["nonce" := J.Number(p.nonce)];
    FieldsStep(ms, 0, 1, map[]);
    FieldsStep(ms, 1, 2, f1);
    FieldsStep(ms, 2, 3, f2);
    FieldsStep(ms, 3, 4, f3);
    FieldsStep(ms, 4, 5, f4);
    FieldsStep(ms, 5, 6, f5);
    assert f5["version" := VersionValue(p.version)] == FieldMap(p);
  }

  lemma {:induction false} WireReadsBack(p: Payload)
    ensures J.Loads(ToWire(p)) == Some(J.Object(FieldMap(p)))
  {
    hide J.Loads, J.RenderObject, J.FieldsOf, Members, FieldMap;
    MembersAreFields(p);
    J.ObjectRoundTrip(Members(p));
  }

  /** Decoding the text a payload is written as gives the payload back. */
  lemma {:induction false} WireRoundTrip(p: Payload)
    requires IsPayload(p)
    ensures FromWire(ToWire(p)) == Some(p)
  {
    hide Amounts.Canonical, IsAddress, J.Loads, ToWire, VersionOf, VersionValue;
    VersionRoundTrip(p.version);
    WireReadsBack(p);
    assert FieldMap(p).Keys == FIELDS;
  }

  /** Two payloads written as the same text are the same payload, so a digest of the text is
      a digest of the payload. */
  lemma {:induction false} WireIsInjective(p: Payload, q: Payload)
    requires ToWire(p) == ToWire(q)
    ensures p == q
  {
    hide J.Loads, ToWire, VersionOf, VersionValue;
    VersionRoundTrip(p.version);
    VersionRoundTrip(q.version);
    WireReadsBack(p);
    WireReadsBack(q);
    var f, g := FieldMap(p), FieldMap(q);
    assert f["destination_address"] == g["destination_address"] && f["amount"] == g["amount"];
    assert f["network"] == g["network"] && f["chain_id"] == g["chain_id"];
    assert f["nonce"] == g["nonce"] && f["version"] == g["version"];
  }
}
