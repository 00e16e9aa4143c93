/** The hash-chained audit log of configuration changes. The digest is a free
    constructor over everything it covers, so equal digests mean equal content; strings
    that are no digest of any record are `Forged`. */
module AuditLog {
  import opened Options
  import Text

  /** A configuration value: the JSON text it is recorded and hashed as, and what Python's
      `==` makes of it. Values that are equal share a kind whatever their texts, as 1, 1.0
      and True do; one that equals nothing or cannot be compared has none. */
  datatype Value = Value(text: string, kind: Option<int>)

  /** Every field of a record except its own hash, values as the text they are hashed as. */
  datatype View = View(
    sequence: int,
    time: string,
    environment: string,
    parameter: string,
    oldValue: string,
    newValue: string,
    user: string,
    justification: string,
    approved: bool,
    reason: Option<Reason>,
    prev: Hash)

  datatype Hash = Genesis | Digest(view: View) | Forged(text: string)

  datatype Reason = ParameterName | Justification | UserId | NoOp

  /** The content of a record: what is hashed, and the hash it carries. */
  datatype Entry = Entry(view: View, hash: Hash)

  datatype Fault =
    | WrongSequence(position: nat, found: int, expected: int)
    | BrokenLink(sequence: int)
    | WrongHash(sequence: int)
    | WrongHead

  datatype Request = Request(
    parameter: string,
    oldValue: Value,
    newValue: Value,
    user: string,
    justification: string,
    environment: string)

  // ---------------------------------------------------------------- chains

  function ExpectedSequence(es: seq<Entry>, genesis: bool, i: nat): int
    requires i < |es|
  {
    if genesis then i + 1 else es[0].view.sequence + i
  }

  function ExpectedPrev(es: seq<Entry>, genesis: bool, i: nat): Hash
    requires i < |es|
  {
    if i > 0 then Digest(es[i - 1].view) else if genesis then Genesis else es[0].view.prev
  }

  predicate Sound(es: seq<Entry>, genesis: bool, i: nat)
    requires i < |es|
  {
    && es[i].view.sequence == ExpectedSequence(es, genesis, i)
    && es[i].view.prev == ExpectedPrev(es, genesis, i)
    && es[i].hash == Digest(es[i].view)
  }

  predicate Verifies(es: seq<Entry>, genesis: bool)
  {
    forall i :: 0 <= i < |es| ==> Sound(es, genesis, i)
  }

  function FaultAt(es: seq<Entry>, genesis: bool, i: nat): Fault
    requires i < |es| && !Sound(es, genesis, i)
  {
    if es[i].view.sequence != ExpectedSequence(es, genesis, i) then
      WrongSequence(i, es[i].view.sequence, ExpectedSequence(es, genesis, i))
    else if es[i].view.prev != ExpectedPrev(es, genesis, i) then BrokenLink(es[i].view.sequence)
    else WrongHash(es[i].view.sequence)
  }

  /** What is wrong with the first record that is not sound: its number is not one more than
      the number before it (one, in an anchored chain), or it does not carry the digest of the
      record before it, or not its own. */
  lemma {:induction false} FaultExactly(es: seq<Entry>, genesis: bool, i: nat)
    requires i < |es| && !Sound(es, genesis, i) && forall j :: 0 <= j < i ==> Sound(es, genesis, j)
    ensures var v := es[i].view;
      var numbered := if i > 0 then v.sequence == es[i - 1].view.sequence + 1 else genesis ==> v.sequence == 1;
      var linked := if i > 0 then v.prev == es[i - 1].hash else genesis ==> v.prev == Genesis;
      match FaultAt(es, genesis, i)
      case WrongSequence(position, found, expected) =>
        && !numbered && position == i && found == v.sequence
        && (if i > 0 then expected == es[i - 1].view.sequence + 1 else expected == 1)
      case BrokenLink(sequence) => numbered && !linked && sequence == v.sequence
      case WrongHash(sequence) => numbered && linked && es[i].hash != Digest(v) && sequence == v.sequence
      case WrongHead => false
  {
    if i > 0 {
      assert Sound(es, genesis, i - 1);
    }
  }

  function Head(es: seq<Entry>): Hash
    requires es != []
  {
    es[|es| - 1].hash
  }

  /** Of two verifying windows with the same head, one is the tail of the other. */
  lemma {:induction false} HeadBindsWindow(a: seq<Entry>, b: seq<Entry>)
    requires 0 < |a| <= |b| && Verifies(a, false) && Verifies(b, false) && Head(a) == Head(b)
    ensures a == b[|b| - |a|..]
  {
    var m, n := |a| - 1, |b| - 1;
    assert Sound(a, false, m) && Sound(b, false, n);
    assert a[m] == b[n];
    if m > 0 {
      var a', b' := a[..m], b[..n];
      WindowVerifies(a, false, 0, m);
      WindowVerifies(b, false, 0, n);
      assert Sound(a, false, m - 1) && Sound(b, false, n - 1);
      HeadBindsWindow(a', b');
      assert a == a' + [a[m]] && b == b' + [b[n]];
      assert b[|b| - |a|..] == b'[|b'| - |a'|..] + [b[n]];
    }
  }

  /** Every contiguous window of a verifying chain verifies, hence every prefix does:
      losing the newest records cannot be seen from the chain alone. */
  lemma {:induction false} WindowVerifies(es: seq<Entry>, genesis: bool, lo: nat, hi: nat)
    requires lo <= hi <= |es| && Verifies(es, genesis)
    ensures Verifies(es[lo..hi], false)
    ensures lo == 0 ==> Verifies(es[..hi], genesis)
  {
    forall i | 0 <= i < hi - lo ensures Sound(es[lo..hi], false, i) {
      assert Sound(es, genesis, lo) && Sound(es, genesis, lo + i);
    }
    if lo == 0 {
      forall i | 0 <= i < hi ensures Sound(es[..hi], genesis, i) {
        assert Sound(es, genesis, i);
      }
    }
  }

  /** Two anchored chains with the same head are the same chain. */
  lemma {:induction false} HeadBindsHistory(a: seq<Entry>, b: seq<Entry>)
    requires a != [] && b != [] && Verifies(a, true) && Verifies(b, true) && Head(a) == Head(b)
    ensures a == b
  {
    assert Sound(a, true, |a| - 1) && Sound(b, true, |b| - 1);
    assert |a| == |b|;
    WindowVerifies(a, true, 0, |a|);
    WindowVerifies(b, true, 0, |b|);
    assert a[0..|a|] == a && b[0..|b|] == b;
    HeadBindsWindow(a, b);
  }

  /** Whatever is edited, removed or moved before it, a chain that keeps the last record of
      a verifying one is rejected. */
  lemma {:induction false} TamperingIsRejected(genuine: seq<Entry>, tampered: seq<Entry>)
    requires genuine != [] && Verifies(genuine, true)
    requires tampered != [] && Head(tampered) == Head(genuine) && tampered != genuine
    ensures !Verifies(tampered, true)
  {
    if Verifies(tampered, true) {
      HeadBindsHistory(genuine, tampered);
    }
  }

  /** Chains join exactly where the first record of the second names the head of the first. */
  lemma {:induction false} ChainsJoin(a: seq<Entry>, b: seq<Entry>)
    requires a != [] && b != [] && Verifies(a, true) && Verifies(b, false)
    ensures Verifies(a + b, true) <==> b[0].view.sequence == |a| + 1 && b[0].view.prev == Head(a)
  {
    var c := a + b;
    assert Sound(a, true, |a| - 1);
    if Verifies(c, true) {
      assert Sound(c, true, |a|);
    }
    if b[0].view.sequence == |a| + 1 && b[0].view.prev == Head(a) {
      forall i | 0 <= i < |c| ensures Sound(c, true, i) {
        if i < |a| {
          assert Sound(a, true, i);
        } else {
          assert Sound(b, false, i - |a|);
        }
      }
    }
  }

  /** Links given bodies into a chain from the genesis marker. */
  function Rechain(views: seq<View>): (es: seq<Entry>)
    ensures |es| == |views| && Verifies(es, true)
  {
    if views == [] then []
    else
      var front := Rechain(views[..|views| - 1]);
      var v := views[|views| - 1].(sequence := |views|, prev := if front == [] then Genesis else Head(front));
      ChainExtends(front, v);
      front + [Entry(v, Digest(v))]
  }

  lemma {:induction false} ChainExtends(es: seq<Entry>, v: View)
    requires Verifies(es, true)
    requires v.sequence == |es| + 1 && v.prev == if es == [] then Genesis else Head(es)
    ensures Verifies(es + [Entry(v, Digest(v))], true)
  {
    var c := es + [Entry(v, Digest(v))];
    forall i | 0 <= i < |c| ensures Sound(c, true, i) {
      if i < |es| {
        assert Sound(es, true, i);
      } else if i > 0 {
        assert Sound(es, true, i - 1);
      }
    }
  }

  /** Whoever can rewrite the whole log can make any contents verify: the chain alone says
      nothing about a log whose head is not held elsewhere. */
  lemma {:induction false} RewritingIsUndetected(views: seq<View>, i: nat)
    requires i < |views|
    ensures Verifies(Rechain(views), true)
    ensures Rechain(views)[i].view
      == views[i].(sequence := i + 1, prev := if i == 0 then Genesis else Head(Rechain(views)[..i]))
  {
    var n := |views| - 1;
    if i < n {
      RewritingIsUndetected(views[..n], i);
      assert Rechain(views)[..i] == Rechain(views[..n])[..i];
    } else {
      assert Rechain(views)[..n] == Rechain(views[..n]);
    }
  }

  // ---------------------------------------------------------------- validation

  /** Whether a change is a no-op; a comparison that raises answers no. */
  predicate SameValue(a: Value, b: Value) { a.kind.Some? && a.kind == b.kind }

  function Rejection(r: Request, minJustification: nat): Option<Reason>
  {
    if r.parameter == "" || Text.Strip(r.parameter) == "" then Some(ParameterName)
    else if |Text.Strip(r.justification)| < minJustification then Some(Justification)
    else if r.user == "" || Text.Strip(r.user) == "" then Some(UserId)
    else if SameValue(r.oldValue, r.newValue) then Some(NoOp)
    else None
  }

  /** Both compare, and equal. */
  predicate Unchanged(a: Value, b: Value) { a.kind.Some? && b.kind.Some? && a.kind.value == b.kind.value }

  /** A request is approved exactly when it names a parameter and a user, justifies itself at
      sufficient length and changes something; otherwise the first of these it lacks, in this
      order, is the reason. */
  lemma {:induction false} ApprovedExactly(r: Request, minJustification: nat)
    ensures var named, justified := !Text.Blank(r.parameter), |Text.Strip(r.justification)| >= minJustification;
      match Rejection(r, minJustification)
      case None => named && justified && !Text.Blank(r.user) && !Unchanged(r.oldValue, r.newValue)
      case Some(ParameterName) => !named
      case Some(Justification) => named && !justified
      case Some(UserId) => named && justified && Text.Blank(r.user)
      case Some(NoOp) => named && justified && !Text.Blank(r.user) && Unchanged(r.oldValue, r.newValue)
  {
    Text.StripBlank(r.parameter);
    Text.StripBlank(r.user);
  }

  // ---------------------------------------------------------------- records and the logger

  /** A record object. Its fields stay mutable: it is the emitted line, not the object,
      that is the record of authority. */
  class Record {
    var view: View
    var hash: Hash

    constructor (view: View)
      ensures this.view == view && hash == Forged("")
    {
      this.view, hash := view, Forged("");
    }

    function Content(): Entry
      reads this
    {
      Entry(view, hash)
    }

    function ComputeHash(): Hash
      reads this
    {
      Digest(view)
    }
  }

  function Contents(rs: seq<Record>): (es: seq<Entry>)
    reads rs
    ensures |es| == |rs|
    ensures forall i :: 0 <= i < |rs| ==> es[i] == rs[i].Content()
  {
    if rs == [] then [] else Contents(rs[..|rs| - 1]) + [rs[|rs| - 1].Content()]
  }

  /** Walks the records in order and reports the first that is inconsistent. */
  method VerifyChain(records: seq<Record>, expectGenesis: bool) returns (fault: Option<Fault>)
    ensures fault.None? <==> Verifies(Contents(records), expectGenesis)
    ensures fault.Some? ==> exists i ::
      && 0 <= i < |records| && !Sound(Contents(records), expectGenesis, i)
      && fault.value == FaultAt(Contents(records), expectGenesis, i)
      && forall j :: 0 <= j < i ==> Sound(Contents(records), expectGenesis, j)
  {
    ghost var es := Contents(records);
    var previous := Genesis;
    var expected := if expectGenesis then Some(1) else None;
    for index := 0 to |records|
      invariant forall j :: 0 <= j < index ==> Sound(es, expectGenesis, j)
      invariant expected.None? ==> index == 0 && !expectGenesis
      invariant expected.Some? && index < |records| ==>
        expected.value == ExpectedSequence(es, expectGenesis, index)
        && previous == ExpectedPrev(es, expectGenesis, index)
    {
      var record := records[index];
      assert es[index] == record.Content();
      if expected == None {
        expected := Some(record.view.sequence);
        previous := record.view.prev;
      }
      assert expected.value == ExpectedSequence(es, expectGenesis, index);
      assert previous == ExpectedPrev(es, expectGenesis, index);
      assert Sound(es, expectGenesis, index) <==>
        record.view.sequence == expected.value && record.view.prev == previous && record.hash == Digest(record.view);
      if record.view.sequence != expected.value {
        return Some(WrongSequence(index, record.view.sequence, expected.value));
      }
      if record.view.prev != previous {
        return Some(BrokenLink(record.view.sequence));
      }
      var recomputed := record.ComputeHash();
      if record.hash != recomputed {
        return Some(WrongHash(record.view.sequence));
      }
      previous := recomputed;
      expected := Some(expected.value + 1);
    }
    return None;
  }

  lemma ContentsAppend(rs: seq<Record>, r: Record)
    ensures Contents(rs + [r]) == Contents(rs) + [r.Content()]
  {
    assert (rs + [r])[..|rs|] == rs;
  }

  class Logger {
    const environment: string
    const minJustification: nat
    var sequence: nat
    var prevHash: Hash
    var records: seq<Record>
    ghost var emitted: seq<Entry>  // the lines written to append-only storage

    /** Says nothing about `records`: the objects are exposed and may have been altered. */
    ghost predicate Valid()
      reads this
    {
      && Verifies(emitted, true)
      && sequence == |emitted|
      && prevHash == if emitted == [] then Genesis else Head(emitted)
    }

    constructor (environment: string, minJustification: nat)
      ensures Valid() && emitted == [] && records == []
      ensures this.environment == environment && this.minJustification == minJustification
    {
      this.environment, this.minJustification := environment, minJustification;
      sequence, prevHash, records := 0, Genesis, [];
      emitted := [];
    }

    method ProcessChangeRequest(r: Request, now: string) returns (record: Record)
      requires Valid()
      modifies this
      ensures Valid() && fresh(record)
      ensures emitted == old(emitted) + [record.Content()]
      ensures records == old(records) + [record]
      ensures Contents(records) == old(Contents(records)) + [record.Content()]
      ensures record.view == View(
        |old(emitted)| + 1, now, if r.environment != "" then r.environment else environment,
        r.parameter, r.oldValue.text, r.newValue.text, r.user, r.justification,
        Rejection(r, minJustification).None?, Rejection(r, minJustification),
        if old(emitted) == [] then Genesis else Head(old(emitted)))
    {
      hide Verifies, Rejection, Contents, Head;
      var reason := Rejection(r, minJustification);
      record := CreateRecord(View(
        sequence + 1, now, if r.environment != "" then r.environment else environment,
        r.parameter, r.oldValue.text, r.newValue.text, r.user, r.justification, reason.None?, reason, prevHash));
    }

    /** Hashes the view, moves the head to it and keeps the record. */
    method CreateRecord(v: View) returns (record: Record)
      requires Valid() && v.sequence == sequence + 1 && v.prev == prevHash
      modifies this
      ensures Valid() && fresh(record)
      ensures record.view == v && record.Content() == Entry(v, Digest(v))
      ensures emitted == old(emitted) + [record.Content()]
      ensures records == old(records) + [record]
      ensures Contents(records) == old(Contents(records)) + [record.Content()]
    {
      hide Verifies, Contents;
      sequence := v.sequence;
      record := new Record(v);
      record.hash := record.ComputeHash();
      prevHash := record.hash;
      ChainExtends(emitted, v);
      emitted := emitted + [record.Content()];
      ContentsAppend(records, record);
      records := records + [record];
    }

    /** Passes exactly when the in-memory records still are, content for content, the
        lines emitted over the whole run - or when the list has been emptied, the one
        alteration this test lets through. */
    method VerifyIntegrity() returns (fault: Option<Fault>)
      requires Valid()
      ensures fault.None? <==> records == [] || Contents(records) == emitted
    {
      ghost var es := Contents(records);
      fault := VerifyChain(records, true);
      if fault.Some? {
        return;
      }
      if records != [] {
        assert Sound(es, true, |es| - 1);
        assert Head(es) == records[|records| - 1].hash;
        if records[|records| - 1].hash != prevHash {
          return Some(WrongHead);
        }
        HeadBindsHistory(es, emitted);
      }
    }
  }

  /** The exception is real: one record emitted, the list emptied, and the test passes. */
  method EmptiedListPasses(r: Request, now: string) returns (log: Logger, fault: Option<Fault>)
    ensures |log.emitted| == 1 && log.records == [] && fault.None?
  {
    log := new Logger("live", 1);
    var _ := log.ProcessChangeRequest(r, now);
    log.records := [];
    fault := log.VerifyIntegrity();
  }

  /** Left alone, the logger keeps its own test true over every run of requests. */
  method KeepsIntegrity(log: Logger, requests: seq<(Request, string)>) returns (fault: Option<Fault>)
    requires log.Valid() && Contents(log.records) == log.emitted
    modifies log
    ensures log.Valid() && Contents(log.records) == log.emitted
    ensures |log.emitted| == |old(log.emitted)| + |requests| && old(log.emitted) <= log.emitted
    ensures fault.None?
  {
    hide Contents;
    for i := 0 to |requests|
      invariant log.Valid() && Contents(log.records) == log.emitted
      invariant |log.emitted| == |old(log.emitted)| + i && old(log.emitted) <= log.emitted
    {
      var _ := log.ProcessChangeRequest(requests[i].0, requests[i].1);
    }
    fault := log.VerifyIntegrity();
  }
}
