/** The integrator: a keyed store, the sorted indices derived from it, atomic ingest and
    binary-search alignment. */
module Integrator {
  import opened Options
  import opened PointInTime
  import Ordering

  /** Order of the index: by knowledge time, then source. */
  predicate FactBelow(a: Fact, b: Fact)
  {
    a.knowledge < b.knowledge || (a.knowledge == b.knowledge && Ordering.Below(a.source, b.source))
  }

  ghost predicate InOrder(fs: seq<Fact>)
  {
    forall i, j :: 0 <= i < j < |fs| ==> FactBelow(fs[i], fs[j])
  }

  /** The index lists exactly the facts of the store, in order. */
  ghost predicate Lists(fs: seq<Fact>, store: Store)
  {
    InOrder(fs) && forall f :: f in fs <==> KeyOf(f) in store && store[KeyOf(f)] == f
  }

  lemma {:induction false} FactBelowAsymmetric(a: Fact, b: Fact)
    ensures !(FactBelow(a, b) && FactBelow(b, a))
  {
    Ordering.BelowAsymmetric(a.source, b.source);
  }

  lemma {:induction false} FactBelowTransitive(a: Fact, b: Fact, c: Fact)
    requires FactBelow(a, b) && FactBelow(b, c)
    ensures FactBelow(a, c)
  {
    if a.knowledge == b.knowledge == c.knowledge {
      Ordering.BelowTransitive(a.source, b.source, c.source);
    }
  }

  lemma {:induction false} FactBelowTotal(a: Fact, b: Fact)
    requires KeyOf(a) != KeyOf(b)
    ensures FactBelow(a, b) || FactBelow(b, a)
  {
    Ordering.BelowTotal(a.source, b.source);
  }

  /** The store determines the index, whatever order its facts are taken in. */
  lemma {:induction false} IndexIsDetermined(fs: seq<Fact>, gs: seq<Fact>, store: Store)
    requires Lists(fs, store) && Lists(gs, store)
    ensures fs == gs
  {
    forall a, b ensures !(FactBelow(a, b) && FactBelow(b, a)) {
      FactBelowAsymmetric(a, b);
    }
    Ordering.ListingIsUnique(FactBelow, fs, gs);
  }

  /** The facts of one source, in index order. */
  function OfSource(fs: seq<Fact>, source: string): seq<Fact>
  {
    if fs == [] then []
    else OfSource(fs[..|fs| - 1], source) + if fs[|fs| - 1].source == source then [fs[|fs| - 1]] else []
  }

  function Times(fs: seq<Fact>): (ts: seq<int>)
    ensures |ts| == |fs| && forall i :: 0 <= i < |fs| ==> ts[i] == fs[i].knowledge
  {
    seq(|fs|, i requires 0 <= i < |fs| => fs[i].knowledge)
  }

  lemma {:induction false} OfSourceMembers(fs: seq<Fact>, source: string)
    ensures forall f :: f in OfSource(fs, source) <==> f in fs && f.source == source
  {
    if fs != [] {
      OfSourceMembers(fs[..|fs| - 1], source);
      assert fs == fs[..|fs| - 1] + [fs[|fs| - 1]];
    }
  }

  ghost predicate Rising(fs: seq<Fact>)
  {
    forall i, j :: 0 <= i < j < |fs| ==> fs[i].knowledge < fs[j].knowledge
  }

  /** Within one source knowledge times strictly increase. */
  lemma {:induction false} OfSourceAscends(fs: seq<Fact>, source: string)
    requires InOrder(fs)
    ensures Rising(OfSource(fs, source))
  {
    if fs != [] {
      var front, last := fs[..|fs| - 1], fs[|fs| - 1];
      OfSourceAscends(front, source);
      OfSourceMembers(front, source);
      if last.source == source {
        var os := OfSource(front, source);
        forall i | 0 <= i < |os| ensures os[i].knowledge < last.knowledge {
          assert os[i] in os && os[i] in front && os[i].source == source;
          var p :| 0 <= p < |front| && front[p] == os[i];
          assert FactBelow(fs[p], last);
          Ordering.BelowIrreflexive(source);
        }
      }
    }
  }

  /** Index of the first entry greater than t, by binary search. */
  method BisectRight(ts: seq<int>, t: int) returns (k: nat)
    requires forall i, j :: 0 <= i < j < |ts| ==> ts[i] <= ts[j]
    ensures k <= |ts|
    ensures forall i :: 0 <= i < k ==> ts[i] <= t
    ensures forall i :: k <= i < |ts| ==> t < ts[i]
  {
    var lo, hi := 0, |ts|;
    while lo < hi
      invariant 0 <= lo <= hi <= |ts|
      invariant forall i :: 0 <= i < lo ==> ts[i] <= t
      invariant forall i :: hi <= i < |ts| ==> t < ts[i]
    {
      var mid := (lo + hi) / 2;
      if t < ts[mid] {
        hi := mid;
      } else {
        lo := mid + 1;
      }
    }
    return lo;
  }

  /** The entry before the bisection point is the latest fact a scan of the store finds. */
  lemma {:induction false} BisectionFindsLatest(fs: seq<Fact>, store: Store, source: string, t: int, k: nat)
    requires Keyed(store) && Lists(fs, store)
    requires k <= |OfSource(fs, source)|
    requires forall i :: 0 <= i < k ==> OfSource(fs, source)[i].knowledge <= t
    requires forall i :: k <= i < |OfSource(fs, source)| ==> t < OfSource(fs, source)[i].knowledge
    ensures LatestKnown(store, source, t) == if k == 0 then None else Some(OfSource(fs, source)[k - 1])
  {
    hide OfSource;
    var os := OfSource(fs, source);
    OfSourceMembers(fs, source);
    OfSourceAscends(fs, source);
    forall key | key in store && key.source == source && key.knowledge <= t
      ensures k > 0 && key.knowledge <= os[k - 1].knowledge
    {
      assert KeyOf(store[key]) == key;
      assert store[key] in fs;
      var i :| 0 <= i < |os| && os[i] == store[key];
      assert i < k;
    }
    if k == 0 {
      assert forall kt :: !IsLatest(store, source, t, kt);
    } else {
      assert os[k - 1] in os;
      assert IsLatest(store, source, t, os[k - 1].knowledge);
      LatestIs(store, source, t, os[k - 1].knowledge);
    }
  }

  /** Facts by source, each list in index order. */
  method GroupBySource(sorted: seq<Fact>) returns (groups: map<string, seq<Fact>>)
    ensures forall s :: s in groups <==> exists f :: f in sorted && f.source == s
    ensures forall s :: s in groups ==> groups[s] == OfSource(sorted, s)
  {
    groups := map[];
    for i := 0 to |sorted|
      invariant forall s :: s in groups <==> exists f :: f in sorted[..i] && f.source == s
      invariant forall s :: s in groups ==> groups[s] == OfSource(sorted[..i], s)
    {
      var fact := sorted[i];
      assert sorted[..i + 1] == sorted[..i] + [fact];
      assert sorted[..i + 1][..i] == sorted[..i];
      if fact.source !in groups {
        OfSourceMembers(sorted[..i], fact.source);
        Ordering.HasMember(OfSource(sorted[..i], fact.source));
        groups := groups[fact.source := []];
      }
      groups := groups[fact.source := groups[fact.source] + [fact]];
    }
    assert sorted[..|sorted|] == sorted;
  }

  // ---------------------------------------------------------------- the integrator

  class Integrator {
    const sourceConfigs: Configs
    var pitByKey: Store
    var pitSorted: seq<Fact>
    var bySource: map<string, seq<Fact>>
    var timestampsBySource: map<string, seq<int>>
    ghost var batches: seq<seq<Event>>  // accepted since the last reset

    /** All indices are what the store determines. */
    ghost predicate Valid()
      reads this
    {
      && Indexed() && pitByKey == StoreOf(batches)
    }

    ghost predicate Indexed()
      reads this
    {
      && Keyed(pitByKey) && Lists(pitSorted, pitByKey)
      && (forall s :: s in bySource <==> exists f :: f in pitSorted && f.source == s)
      && (forall s :: s in bySource ==> bySource[s] == OfSource(pitSorted, s))
      && timestampsBySource == map s | s in bySource :: Times(bySource[s])
    }

    constructor (sourceConfigs: Configs)
      ensures Valid() && this.sourceConfigs == sourceConfigs && batches == []
    {
      this.sourceConfigs := sourceConfigs;
      pitByKey, pitSorted, bySource, timestampsBySource, batches := map[], [], map[], map[], [];
    }

    /** All or nothing: an acceptable batch is committed whole, any other raises and changes
        nothing. A batch the store already holds, as it does right after ingesting it,
        changes no field. */
    method IngestEvents(es: seq<Event>) returns (e: Option<Error>)
      requires Valid()
      modifies this
      ensures Valid()
      ensures e.None? <==> Acceptable(sourceConfigs, es)
      ensures e.None? ==> batches == old(batches) + [es] && pitByKey == old(pitByKey) + Staged(es)
      ensures e.Some? ==> unchanged(this)
      ensures e.None? ==> Holds(pitByKey, es)
      ensures old(Holds(pitByKey, es)) ==>
        unchanged(this`pitByKey, this`pitSorted, this`bySource, this`timestampsBySource)
    {
      hide Staged, Acceptable, Lists, InOrder, Times, OfSource, StoreOf;
      var staged: Store;
      e, staged := StageEvents(es);
      if e.Some? {
        return;
      }
      HoldsAfter(sourceConfigs, pitByKey, es);
      StoreAppend(batches, es);
      pitByKey, batches := pitByKey + staged, batches + [es];
      RebuildIndices();
      if old(Holds(pitByKey, es)) {
        IndexIsDetermined(old(pitSorted), pitSorted, pitByKey);
        assert bySource == old(bySource);
      }
    }

    method StageEvents(es: seq<Event>) returns (e: Option<Error>, staged: Store)
      ensures e.None? <==> Acceptable(sourceConfigs, es)
      ensures e.None? ==> staged == Staged(es)
    {
      hide Staged, FactOf, Acceptable;
      staged := map[];
      NothingStaged(sourceConfigs, es);
      for i := 0 to |es|
        invariant Acceptable(sourceConfigs, es[..i]) && staged == Staged(es[..i])
      {
        var violation := Violation(sourceConfigs, es[i]);
        if violation.Some? {
          InvalidFound(sourceConfigs, es, i);
          return violation, staged;
        }
        var fact := FactOf(es[i]);
        var key := KeyOf(fact);
        if key in staged && staged[key] != fact {
          ClashFound(sourceConfigs, es, i);
          return Some(Ambiguous), staged;
        }
        NoClashYet(sourceConfigs, es, i, i + 1);
        staged := staged[key := fact];
      }
      assert es[..|es|] == es;
      e := None;
    }

    method Reset()
      modifies this
      ensures Valid() && batches == [] && pitByKey == map[] && pitSorted == []
    {
      pitByKey, batches := map[], [];
      RebuildIndices();
      Ordering.HasMember(pitSorted);
    }

    method RebuildIndices()
      requires Keyed(pitByKey)
      modifies this`pitSorted, this`bySource, this`timestampsBySource
      ensures Indexed()
    {
      var sorted := SortFacts(pitByKey);
      pitSorted := sorted;
      bySource := GroupBySource(sorted);
      timestampsBySource := map s | s in bySource :: Times(bySource[s]);
    }

    /** One value per known source at one trading time. */
    method AlignAt(t: int, fallback: Option<int>) returns (slot: map<string, Aligned>)
      requires Valid()
      ensures forall s :: s in slot <==> Known(sourceConfigs, pitByKey, s)
      ensures forall s :: s in slot ==> slot[s] == AsOf(sourceConfigs, fallback, pitByKey, s, t)
    {
      hide AsOf, Valid, Known;
      slot := map[];
      var rest := bySource.Keys + sourceConfigs.Keys;
      KnownSources();
      while rest != {}
        invariant forall s :: s in slot || s in rest <==> Known(sourceConfigs, pitByKey, s)
        invariant forall s :: s in slot ==> s !in rest && slot[s] == AsOf(sourceConfigs, fallback, pitByKey, s, t)
        decreases |rest|
      {
        var source :| source in rest;
        var aligned := AlignOne(source, t, fallback);
        slot := slot[source := aligned];
        rest := rest - {source};
      }
    }

    method AlignOne(source: string, t: int, fallback: Option<int>) returns (a: Aligned)
      requires Valid()
      ensures a == AsOf(sourceConfigs, fallback, pitByKey, source, t)
    {
      hide LatestKnown, OfSource, InOrder;
      var facts := if source in bySource then bySource[source] else [];
      var times := if source in timestampsBySource then timestampsBySource[source] else [];
      SourceFacts(source);
      OfSourceAscends(pitSorted, source);
      var k := BisectRight(times, t);
      BisectionFindsLatest(pitSorted, pitByKey, source, t, k);
      a := Serve(sourceConfigs, fallback, source, t, if k == 0 then None else Some(facts[k - 1]));
    }

    lemma {:induction false} KnownSources()
      requires Valid()
      ensures forall s :: s in bySource || s in sourceConfigs <==> Known(sourceConfigs, pitByKey, s)
    {
      forall s | s in bySource ensures Known(sourceConfigs, pitByKey, s) {
        var f :| f in pitSorted && f.source == s;
        assert KeyOf(f) in pitByKey;
      }
      forall s | Known(sourceConfigs, pitByKey, s) && s !in sourceConfigs ensures s in bySource {
        var k :| k in pitByKey && k.source == s;
        assert pitByKey[k] in pitSorted && pitByKey[k].source == s;
      }
    }

    lemma {:induction false} SourceFacts(source: string)
      requires Valid()
      ensures OfSource(pitSorted, source) == if source in bySource then bySource[source] else []
    {
      OfSourceMembers(pitSorted, source);
      Ordering.HasMember(OfSource(pitSorted, source));
    }

    /** Alignment equals the scan of the store at every trading time and every known source. */
    method AlignToTradingSchedule(times: seq<DateTime>, fallback: Option<int>)
      returns (r: Option<map<int, map<string, Aligned>>>)
      requires Valid()
      ensures r.None? <==> exists d :: d in times && d.aware
      ensures r.Some? ==>
        && (forall t :: t in r.value <==> exists d :: d in times && d.at == t)
        && (forall t, s :: t in r.value ==> (s in r.value[t] <==> Known(sourceConfigs, pitByKey, s)))
        && (forall t, s :: t in r.value && s in r.value[t] ==>
              r.value[t][s] == AsOf(sourceConfigs, fallback, pitByKey, s, t))
    {
      for i := 0 to |times|
        invariant forall j :: 0 <= j < i ==> !times[j].aware
      {
        if times[i].aware {
          assert times[i] in times;
          return None;
        }
      }
      var aligned := map[];
      for i := 0 to |times|
        invariant forall t :: t in aligned <==> exists d :: d in times[..i] && d.at == t
        invariant forall t, s :: t in aligned ==> (s in aligned[t] <==> Known(sourceConfigs, pitByKey, s))
        invariant forall t, s :: t in aligned && s in aligned[t] ==>
          aligned[t][s] == AsOf(sourceConfigs, fallback, pitByKey, s, t)
      {
        assert times[..i + 1] == times[..i] + [times[i]];
        var slot := AlignAt(times[i].at, fallback);
        aligned := aligned[times[i].at := slot];
      }
      assert times[..|times|] == times;
      return Some(aligned);
    }
  }

  lemma StoreAppend(bs: seq<seq<Event>>, es: seq<Event>)
    ensures StoreOf(bs + [es]) == StoreOf(bs) + Staged(es)
  {
    assert (bs + [es])[..|bs|] == bs;
  }

  lemma {:induction false} HoldsAfter(cfgs: Configs, store: Store, es: seq<Event>)
    requires Acceptable(cfgs, es)
    ensures Holds(store + Staged(es), es)
    ensures Holds(store, es) ==> store + Staged(es) == store
  {
    hide Holds, Staged;
    CommitIsIdempotent(store, es);
  }

  lemma NothingStaged(cfgs: Configs, es: seq<Event>)
    ensures Acceptable(cfgs, es[..0]) && Staged(es[..0]) == map[]
  {
  }

  lemma {:induction false} InvalidFound(cfgs: Configs, es: seq<Event>, i: nat)
    requires i < |es| && Violation(cfgs, es[i]).Some?
    ensures !Acceptable(cfgs, es)
  {
    assert es[i] in es;
  }

  lemma {:induction false} ClashFound(cfgs: Configs, es: seq<Event>, i: nat)
    requires i < |es| && Acceptable(cfgs, es[..i])
    requires KeyOf(FactOf(es[i])) in Staged(es[..i]) && Staged(es[..i])[KeyOf(FactOf(es[i]))] != FactOf(es[i])
    ensures !Acceptable(cfgs, es)
  {
    hide FactOf;
    StagedIsFacts(es[..i]);
    var k := KeyOf(FactOf(es[i]));
    var d :| d in es[..i] && FactOf(d) == Staged(es[..i])[k];
    assert d in es && es[i] in es;
  }

  lemma {:induction false} NoClashYet(cfgs: Configs, es: seq<Event>, i: nat, next: nat)
    requires i < |es| && next == i + 1 && Acceptable(cfgs, es[..i]) && Violation(cfgs, es[i]).None?
    requires KeyOf(FactOf(es[i])) in Staged(es[..i]) ==> Staged(es[..i])[KeyOf(FactOf(es[i]))] == FactOf(es[i])
    ensures Acceptable(cfgs, es[..next])
    ensures Staged(es[..next]) == Staged(es[..i])[KeyOf(FactOf(es[i])) := FactOf(es[i])]
  {
    hide FactOf;
    var front, last := es[..i], es[i];
    assert es[..next] == front + [last] && es[..next][..i] == front;
    assert forall e :: e in es[..next] <==> e in front || e == last;
    forall e | e in front && KeyOf(FactOf(e)) == KeyOf(FactOf(last)) ensures FactOf(e) == FactOf(last) {
      StagedHolds(front, e);
    }
  }

  /** Facts of a store sorted by knowledge time and source. */
  method SortFacts(store: Store) returns (fs: seq<Fact>)
    requires Keyed(store)
    ensures Lists(fs, store)
  {
    fs := [];
    var rest := store.Keys;
    while rest != {}
      invariant rest <= store.Keys && InOrder(fs)
      invariant forall f :: f in fs <==> KeyOf(f) in store && KeyOf(f) !in rest && store[KeyOf(f)] == f
      decreases |rest|
    {
      var k :| k in rest;
      assert KeyOf(store[k]) == k;
      fs := InsertFact(fs, store[k]);
      rest := rest - {k};
    }
  }

  method InsertFact(fs: seq<Fact>, x: Fact) returns (r: seq<Fact>)
    requires InOrder(fs) && forall f :: f in fs ==> KeyOf(f) != KeyOf(x)
    ensures InOrder(r) && forall f :: f in r <==> f in fs || f == x
  {
    var k := 0;
    while k < |fs| && FactBelow(fs[k], x)
      invariant k <= |fs| && forall i :: 0 <= i < k ==> FactBelow(fs[i], x)
    {
      k := k + 1;
    }
    forall i | k <= i < |fs| ensures FactBelow(x, fs[i]) {
      assert fs[k] in fs;
      FactBelowTotal(fs[k], x);
      if i > k {
        FactBelowTransitive(x, fs[k], fs[i]);
      }
    }
    r := fs[..k] + [x] + fs[k..];
  }
}
