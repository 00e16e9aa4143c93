/** Point-in-time facts, the keyed store they are kept in, and what an as-of alignment at
    one time means. Times are microseconds; `aware` marks a timezone-aware datetime. */
module PointInTime {
  import opened Options

  datatype DateTime = DateTime(at: int, aware: bool)

  /** A float: a finite number, or NaN / infinity. */
  datatype Float = Finite(value: real) | NotFinite

  datatype Event = Event(
    source: string,
    eventTime: DateTime,
    lag: int,
    value: Float,
    schema: string,
    revised: Option<DateTime>)

  datatype Fact = Fact(
    source: string,
    knowledge: int,
    value: Float,
    schema: string,
    revised: Option<DateTime>,
    eventTime: DateTime)

  datatype SourceConfig = SourceConfig(maxAge: Option<int>, schema: Option<string>)

  datatype Staleness = Unknown | Fresh | Stale

  datatype Aligned = Aligned(
    source: string,
    value: Option<Float>,
    knowledge: Option<int>,
    age: Option<int>,
    staleness: Staleness)

  type Configs = map<string, SourceConfig>

  datatype Key = Key(source: string, knowledge: int)

  type Store = map<Key, Fact>

  datatype Error = AwareEventTime | AwareRevision | NegativeLag | ValueNotFinite | SchemaDrift | Ambiguous

  // ---------------------------------------------------------------- events

  /** The first invariant an event violates, if any. */
  function Violation(cfgs: Configs, e: Event): Option<Error>
  {
    if e.eventTime.aware then Some(AwareEventTime)
    else if e.revised.Some? && e.revised.value.aware then Some(AwareRevision)
    else if e.lag < 0 then Some(NegativeLag)
    else if e.value.NotFinite? then Some(ValueNotFinite)
    else if e.source in cfgs && cfgs[e.source].schema.Some? && e.schema != cfgs[e.source].schema.value then
      Some(SchemaDrift)
    else None
  }

  /** When the fact becomes known: the revision, or the event, plus the lag. */
  function Knowledge(e: Event): int
  {
    (if e.revised.Some? then e.revised.value.at else e.eventTime.at) + e.lag
  }

  function FactOf(e: Event): Fact { Fact(e.source, Knowledge(e), e.value, e.schema, e.revised, e.eventTime) }

  function KeyOf(f: Fact): Key { Key(f.source, f.knowledge) }

  /** Every fact stands under its own key. */
  predicate Keyed(store: Store) { forall k :: k in store ==> KeyOf(store[k]) == k }

  // ---------------------------------------------------------------- batches

  ghost predicate Clash(es: seq<Event>)
  {
    exists e, d :: e in es && d in es && KeyOf(FactOf(e)) == KeyOf(FactOf(d)) && FactOf(e) != FactOf(d)
  }

  /** A batch is accepted when every event is valid and no two of them put different facts
      under one key. */
  ghost predicate Acceptable(cfgs: Configs, es: seq<Event>)
  {
    (forall e :: e in es ==> Violation(cfgs, e).None?) && !Clash(es)
  }

  /** The facts of a batch by key; later ones win where they differ. */
  function Staged(es: seq<Event>): (store: Store)
    ensures Keyed(store)
  {
    if es == [] then map[]
    else
      var f := FactOf(es[|es| - 1]);
      Staged(es[..|es| - 1])[KeyOf(f) := f]
  }

  /** The store after these batches were accepted, in this order. */
  function StoreOf(bs: seq<seq<Event>>): (store: Store)
    ensures Keyed(store)
  {
    if bs == [] then map[] else StoreOf(bs[..|bs| - 1]) + Staged(bs[|bs| - 1])
  }

  lemma {:induction false} StagedIsFacts(es: seq<Event>)
    ensures forall k :: k in Staged(es) <==> exists e :: e in es && KeyOf(FactOf(e)) == k
    ensures forall k :: k in Staged(es) ==> exists e :: e in es && FactOf(e) == Staged(es)[k]
  {
    if es != [] {
      var front, last := es[..|es| - 1], es[|es| - 1];
      StagedIsFacts(front);
      assert es == front + [last];
      assert last in es;
    }
  }

  /** In a batch without clashes each event's fact is the one staged under its key. */
  lemma {:induction false} StagedHolds(es: seq<Event>, e: Event)
    requires e in es && !Clash(es)
    ensures KeyOf(FactOf(e)) in Staged(es) && Staged(es)[KeyOf(FactOf(e))] == FactOf(e)
  {
    StagedIsFacts(es);
    var k := KeyOf(FactOf(e));
    assert k in Staged(es);
    var d :| d in es && FactOf(d) == Staged(es)[k];
    assert KeyOf(Staged(es)[k]) == k;
  }

  lemma {:induction false} StagedAgrees(es: seq<Event>, ds: seq<Event>, k: Key)
    requires (forall e :: e in es ==> e in ds) && !Clash(es) && !Clash(ds) && k in Staged(es)
    ensures k in Staged(ds) && Staged(es)[k] == Staged(ds)[k]
  {
    StagedIsFacts(es);
    var e :| e in es && KeyOf(FactOf(e)) == k;
    StagedHolds(es, e);
    StagedHolds(ds, e);
  }

  /** Batches of the same events, in any order and with any repeats, are accepted alike and
      stage the same facts. */
  lemma {:induction false} BatchOrderIsIrrelevant(cfgs: Configs, es: seq<Event>, ds: seq<Event>)
    requires forall e :: e in es <==> e in ds
    ensures Acceptable(cfgs, es) <==> Acceptable(cfgs, ds)
    ensures Acceptable(cfgs, es) ==> Staged(es) == Staged(ds)
  {
    hide Staged, FactOf;
    assert Clash(es) <==> Clash(ds);
    if Acceptable(cfgs, es) {
      forall k | k in Staged(es) ensures k in Staged(ds) && Staged(es)[k] == Staged(ds)[k] {
        StagedAgrees(es, ds, k);
      }
      forall k | k in Staged(ds) ensures k in Staged(es) {
        StagedAgrees(ds, es, k);
      }
    }
  }

  /** Every fact of the batch stands in the store. */
  predicate Holds(store: Store, es: seq<Event>)
  {
    forall e :: e in es ==> KeyOf(FactOf(e)) in store && store[KeyOf(FactOf(e))] == FactOf(e)
  }

  /** Committing an acceptable batch makes the store hold it; committing a batch the store
      holds changes nothing. */
  lemma {:induction false} CommitIsIdempotent(store: Store, es: seq<Event>)
    requires !Clash(es)
    ensures Holds(store + Staged(es), es)
    ensures Holds(store, es) <==> store + Staged(es) == store
  {
    hide FactOf;
    forall e | e in es ensures KeyOf(FactOf(e)) in Staged(es) && Staged(es)[KeyOf(FactOf(e))] == FactOf(e) {
      StagedHolds(es, e);
    }
    StagedIsFacts(es);
    if Holds(store, es) {
      forall k | k in Staged(es) ensures k in store && store[k] == Staged(es)[k] {
        var e :| e in es && FactOf(e) == Staged(es)[k];
        assert KeyOf(Staged(es)[k]) == k;
      }
    }
  }

  // ---------------------------------------------------------------- the as-of join on the store

  /** No fact of the source known by t is later than kt. */
  ghost predicate IsLatest(store: Store, source: string, t: int, kt: int)
  {
    && Key(source, kt) in store && kt <= t
    && forall k :: k in store && k.source == source && k.knowledge <= t ==> k.knowledge <= kt
  }

  /** The latest fact of the source known at t, by scanning the whole store. */
  ghost function LatestKnown(store: Store, source: string, t: int): Option<Fact>
  {
    if exists kt :: IsLatest(store, source, t, kt) then
      var kt :| IsLatest(store, source, t, kt);
      Some(store[Key(source, kt)])
    else None
  }

  lemma LatestIs(store: Store, source: string, t: int, kt: int)
    requires IsLatest(store, source, t, kt)
    ensures LatestKnown(store, source, t) == Some(store[Key(source, kt)])
  {
  }

  function MaxAgeOf(cfgs: Configs, source: string, fallback: Option<int>): Option<int>
  {
    if source in cfgs && cfgs[source].maxAge.Some? then cfgs[source].maxAge else fallback
  }

  /** How a latest fact is served at time t. */
  function Serve(cfgs: Configs, fallback: Option<int>, source: string, t: int, f: Option<Fact>): Aligned
  {
    if f.None? then Aligned(source, None, None, None, Unknown)
    else
      var age := t - f.value.knowledge;
      var maxAge := MaxAgeOf(cfgs, source, fallback);
      var stale := maxAge.Some? && age > maxAge.value;
      Aligned(source, if stale then None else Some(f.value.value), Some(f.value.knowledge), Some(age),
              if stale then Stale else Fresh)
  }

  ghost predicate Known(cfgs: Configs, store: Store, source: string)
  {
    source in cfgs || exists k :: k in store && k.source == source
  }

  /** What alignment must report for one known source at one time. */
  ghost function AsOf(cfgs: Configs, fallback: Option<int>, store: Store, source: string, t: int): Aligned
  {
    Serve(cfgs, fallback, source, t, LatestKnown(store, source, t))
  }

  /** Nothing served at t was learned after t. */
  lemma {:induction false} ServedFactWasKnown(
      cfgs: Configs, fallback: Option<int>, store: Store, source: string, t: int)
    requires Keyed(store)
    ensures var a := AsOf(cfgs, fallback, store, source, t);
      a.knowledge.Some? ==>
        && a.knowledge.value <= t && Key(source, a.knowledge.value) in store
        && (a.value.Some? ==> a.value.value == store[Key(source, a.knowledge.value)].value)
  {
    if LatestKnown(store, source, t).Some? {
      var kt :| IsLatest(store, source, t, kt);
      LatestIs(store, source, t, kt);
      assert KeyOf(store[Key(source, kt)]) == Key(source, kt);
    }
  }

  /** Facts that become known after t leave the latest fact at t as it was. */
  lemma {:induction false} LaterFactsAreInvisible(store: Store, batch: Store, source: string, t: int)
    requires forall k :: k in batch ==> k.knowledge > t
    ensures LatestKnown(store + batch, source, t) == LatestKnown(store, source, t)
  {
    var both := store + batch;
    forall kt ensures IsLatest(both, source, t, kt) <==> IsLatest(store, source, t, kt) {
      if IsLatest(store, source, t, kt) {
        assert Key(source, kt) in both;
      }
      if IsLatest(both, source, t, kt) {
        assert Key(source, kt) !in batch;
        forall k | k in store && k.source == source && k.knowledge <= t ensures k.knowledge <= kt {
          assert k in both;
        }
      }
    }
    if kt: int :| IsLatest(store, source, t, kt) {
      LatestIs(store, source, t, kt);
      LatestIs(both, source, t, kt);
      assert Key(source, kt) !in batch;
    }
  }

  /** The event is public at k: its lag after the revision, or after the event where it is not
      a restatement. */
  predicate PublishedAt(e: Event, k: int)
  {
    match e.revised
    case None => k - e.lag == e.eventTime.at
    case Some(revision) => k - e.lag == revision.at
  }

  predicate PublishedBy(e: Event, t: int)
  {
    match e.revised
    case None => e.eventTime.at <= t - e.lag
    case Some(revision) => revision.at <= t - e.lag
  }

  /** No look-ahead: ingesting events that all become public after t changes nothing served at
      t for a source already known, and shows a new source there as unknown. */
  lemma {:induction false} NoLookAhead(
      cfgs: Configs, fallback: Option<int>, store: Store, es: seq<Event>, source: string, t: int)
    requires forall e :: e in es ==> !PublishedBy(e, t)
    ensures AsOf(cfgs, fallback, store + Staged(es), source, t) == AsOf(cfgs, fallback, store, source, t)
    ensures Known(cfgs, store, source) ==> Known(cfgs, store + Staged(es), source)
    ensures !Known(cfgs, store, source) ==>
      AsOf(cfgs, fallback, store + Staged(es), source, t) == Aligned(source, None, None, None, Unknown)
  {
    StagedIsFacts(es);
    forall k | k in Staged(es) ensures k.knowledge > t {
      var e :| e in es && KeyOf(FactOf(e)) == k;
    }
    LaterFactsAreInvisible(store, Staged(es), source, t);
    if Known(cfgs, store, source) && source !in cfgs {
      var k :| k in store && k.source == source;
      assert k in store + Staged(es);
    }
    if !Known(cfgs, store, source) {
      forall kt ensures !IsLatest(store, source, t, kt) {
      }
    }
  }
}
