/** What alignment serves, told from the events of the accepted batches: the newest event that
    was public by the time asked for, and nothing newer. */
module AsOfTrail {
  import opened Options
  import opened PointInTime

  // ---------------------------------------------------------------- which batches are accepted

  /** Naive dates, no negative lag, a finite value and the schema expected of the source. */
  predicate WellFormed(cfgs: Configs, e: Event)
  {
    && !e.eventTime.aware && (e.revised.Some? ==> !e.revised.value.aware) && e.lag >= 0 && e.value.Finite?
    && (e.source in cfgs ==> cfgs[e.source].schema.None? || cfgs[e.source].schema == Some(e.schema))
  }

  /** Both public at once for one source, and not the same row. */
  predicate Contradict(e: Event, d: Event)
  {
    && e.source == d.source
    && (if e.revised.Some? then e.revised.value.at else e.eventTime.at) + e.lag
       == (if d.revised.Some? then d.revised.value.at else d.eventTime.at) + d.lag
    && (e.value != d.value || e.schema != d.schema || e.revised != d.revised || e.eventTime != d.eventTime)
  }

  /** A batch is accepted exactly when its events are well-formed and no two contradict. */
  lemma {:induction false} AcceptedExactly(cfgs: Configs, es: seq<Event>)
    ensures Acceptable(cfgs, es) <==>
      (forall e :: e in es ==> WellFormed(cfgs, e)) && (forall e, d :: e in es && d in es ==> !Contradict(e, d))
  {
    forall e ensures Violation(cfgs, e).None? <==> WellFormed(cfgs, e) {
    }
    forall e, d ensures KeyOf(FactOf(e)) == KeyOf(FactOf(d)) && FactOf(e) != FactOf(d) <==> Contradict(e, d) {
    }
  }

  // ---------------------------------------------------------------- what the store holds

  /** Event e of batch b is the last word on its source and publication time. */
  ghost predicate LastWord(bs: seq<seq<Event>>, b: nat, e: Event, k: int)
  {
    && b < |bs| && e in bs[b] && PublishedAt(e, k)
    && forall c, d :: b < c < |bs| && d in bs[c] && d.source == e.source ==> !PublishedAt(d, k)
  }

  /** The key of an event is its source and publication time. */
  lemma KeyIsPublication(e: Event, source: string, k: int)
    ensures KeyOf(FactOf(e)) == Key(source, k) <==> e.source == source && PublishedAt(e, k)
    ensures FactOf(e).source == e.source && FactOf(e).value == e.value && PublishedAt(e, FactOf(e).knowledge)
    ensures PublishedBy(e, k) <==> FactOf(e).knowledge <= k
  {
  }

  lemma StoreStep(bs: seq<seq<Event>>)
    ensures StoreOf(bs) == if bs == [] then map[] else StoreOf(bs[..|bs| - 1]) + Staged(bs[|bs| - 1])
  {
  }

  lemma {:induction false} StoredIsLastWord(bs: seq<seq<Event>>, source: string, k: int) returns (b: nat, e: Event)
    requires Key(source, k) in StoreOf(bs)
    ensures e.source == source && LastWord(bs, b, e, k) && StoreOf(bs)[Key(source, k)].value == e.value
  {
    hide FactOf, PublishedAt, StoreOf, Staged;
    StoreStep(bs);
    var front, last := bs[..|bs| - 1], bs[|bs| - 1];
    StagedIsFacts(last);
    forall d | d in last ensures KeyOf(FactOf(d)) == Key(source, k) <==> d.source == source && PublishedAt(d, k) {
      KeyIsPublication(d, source, k);
    }
    if Key(source, k) in Staged(last) {
      b := |bs| - 1;
      e :| e in last && FactOf(e) == Staged(last)[Key(source, k)];
      KeyIsPublication(e, source, k);
    } else {
      b, e := StoredIsLastWord(front, source, k);
      forall c, d | b < c < |bs| && d in bs[c] && d.source == source ensures !PublishedAt(d, k) {
        assert c < |front| ==> bs[c] == front[c];
      }
    }
  }

  lemma {:induction false} IngestedIsStored(bs: seq<seq<Event>>, b: nat, e: Event, k: int)
    requires b < |bs| && e in bs[b] && PublishedAt(e, k)
    ensures Key(e.source, k) in StoreOf(bs)
  {
    KeyIsPublication(e, e.source, k);
    StagedIsFacts(bs[|bs| - 1]);
    if b < |bs| - 1 {
      IngestedIsStored(bs[..|bs| - 1], b, e, k);
    }
  }

  // ---------------------------------------------------------------- what is served

  /** No ingested event of the source was public later than k and by t. */
  ghost predicate NoneLater(bs: seq<seq<Event>>, source: string, t: int, k: int)
  {
    forall b, d :: 0 <= b < |bs| && d in bs[b] && d.source == source && PublishedBy(d, t) ==> PublishedBy(d, k)
  }

  ghost predicate NonePublic(bs: seq<seq<Event>>, source: string, t: int)
  {
    forall b, d :: 0 <= b < |bs| && d in bs[b] && d.source == source ==> !PublishedBy(d, t)
  }

  /** This event is the newest of its source that is public by t. */
  ghost predicate NewestBy(bs: seq<seq<Event>>, source: string, t: int, b: nat, e: Event, k: int)
  {
    e.source == source && LastWord(bs, b, e, k) && k <= t && NoneLater(bs, source, t, k)
  }

  lemma {:induction false} LatestIsNewest(bs: seq<seq<Event>>, source: string, t: int, kt: int)
    returns (b: nat, e: Event)
    requires IsLatest(StoreOf(bs), source, t, kt)
    ensures NewestBy(bs, source, t, b, e, kt) && StoreOf(bs)[Key(source, kt)].value == e.value
  {
    hide FactOf, PublishedAt, PublishedBy, StoreOf;
    b, e := StoredIsLastWord(bs, source, kt);
    forall c, d | 0 <= c < |bs| && d in bs[c] && d.source == source && PublishedBy(d, t) ensures PublishedBy(d, kt) {
      KeyIsPublication(d, source, t);
      KeyIsPublication(d, source, kt);
      IngestedIsStored(bs, c, d, FactOf(d).knowledge);
    }
  }

  lemma {:induction false} NoLatestNonePublic(bs: seq<seq<Event>>, source: string, t: int)
    requires LatestKnown(StoreOf(bs), source, t) == None
    ensures NonePublic(bs, source, t)
  {
    hide FactOf, PublishedAt, PublishedBy, StoreOf;
    forall b, d | 0 <= b < |bs| && d in bs[b] && d.source == source ensures !PublishedBy(d, t) {
      KeyIsPublication(d, source, t);
      IngestedIsStored(bs, b, d, FactOf(d).knowledge);
      if PublishedBy(d, t) {
        var kt := Greatest(StoreOf(bs), source, t, FactOf(d).knowledge);
      }
    }
  }

  /** Among finitely many facts public by t there is a latest. */
  lemma {:induction false} Greatest(store: Store, source: string, t: int, k: int) returns (kt: int)
    requires Key(source, k) in store && k <= t
    ensures IsLatest(store, source, t, kt)
    decreases t - k
  {
    if m: int :| Key(source, m) in store && k < m <= t {
      kt := Greatest(store, source, t, m);
    } else {
      kt := k;
      forall key | key in store && key.source == source && key.knowledge <= t ensures key.knowledge <= k {
        assert key == Key(source, key.knowledge);
      }
    }
  }

  /** The age a value of the source may have: its own limit, or the caller's. */
  predicate TooOld(cfgs: Configs, fallback: Option<int>, source: string, age: int)
  {
    if source in cfgs && cfgs[source].maxAge.Some? then age > cfgs[source].maxAge.value
    else fallback.Some? && age > fallback.value
  }

  /** Alignment at t serves the newest event of the source that was public by t, with its
      publication time and age; where it is too old the value alone is withheld, and where
      there is none nothing is said. */
  lemma {:induction false} ServedExactly(
      cfgs: Configs, fallback: Option<int>, bs: seq<seq<Event>>, source: string, t: int)
    returns (b: nat, e: Event)
    ensures var a := AsOf(cfgs, fallback, StoreOf(bs), source, t);
      if NonePublic(bs, source, t) then a == Aligned(source, None, None, None, Unknown)
      else
        && a.knowledge.Some? && NewestBy(bs, source, t, b, e, a.knowledge.value)
        && a.source == source && a.age == Some(t - a.knowledge.value)
        && if TooOld(cfgs, fallback, source, t - a.knowledge.value) then a.value == None && a.staleness == Stale
           else a.value == Some(e.value) && a.staleness == Fresh
  {
    hide PublishedAt, PublishedBy, StoreOf, LastWord, NoneLater;
    var store := StoreOf(bs);
    if LatestKnown(store, source, t).None? {
      NoLatestNonePublic(bs, source, t);
      b, e := *, *;
    } else {
      var kt :| IsLatest(store, source, t, kt);
      LatestIs(store, source, t, kt);
      b, e := LatestIsNewest(bs, source, t, kt);
      assert KeyOf(store[Key(source, kt)]) == Key(source, kt);
      assert !NonePublic(bs, source, t) by { NewestIsPublic(bs, source, t, b, e, kt); }
    }
  }

  lemma {:induction false} NewestIsPublic(bs: seq<seq<Event>>, source: string, t: int, b: nat, e: Event, k: int)
    requires NewestBy(bs, source, t, b, e, k)
    ensures !NonePublic(bs, source, t)
  {
    assert PublishedBy(e, t);
  }

  /** One more batch of events that are not public by t changes nothing served at t. */
  lemma {:induction false} LaterBatchIsInvisible(
      cfgs: Configs, fallback: Option<int>, bs: seq<seq<Event>>, es: seq<Event>, source: string, t: int)
    requires forall e :: e in es ==> !PublishedBy(e, t)
    ensures AsOf(cfgs, fallback, StoreOf(bs + [es]), source, t) == AsOf(cfgs, fallback, StoreOf(bs), source, t)
  {
    assert (bs + [es])[..|bs|] == bs;
    NoLookAhead(cfgs, fallback, StoreOf(bs), es, source, t);
  }
}
