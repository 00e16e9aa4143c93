/** Post-trade markouts of passive fills: which mid each horizon is measured against, and
    where every fill is accounted for. Prices, times and quantities are reals. */
module Markout {
  import opened Options

  datatype Side = Buy | Sell

  datatype Fill = Fill(time: real, side: Side, price: real, quantity: real)
  {
    predicate Valid() { price > 0.0 && quantity > 0.0 }
  }

  datatype Market = Market(times: seq<real>, mids: seq<real>)

  datatype Fault = LengthsDiffer | NoMarketData | MidNotPositive | NotAscending

  /** `staleness` bounds how old a prevailing mid may be. */
  datatype Config = Config(horizons: seq<real>, arrivalBasis: bool, requireAsof: bool, staleness: Option<real>)
  {
    predicate Valid()
    {
      && horizons != []
      && (forall i :: 0 <= i < |horizons| ==> horizons[i] > 0.0)
      && (forall i, j :: 0 <= i < j < |horizons| ==> horizons[i] < horizons[j])
      && (staleness.Some? ==> staleness.value > 0.0)
    }

    predicate NeedsAsof() { arrivalBasis || requireAsof }
  }

  // ---------------------------------------------------------------- market data

  predicate Ascending(ts: seq<real>) { forall i, j :: 0 <= i < j < |ts| ==> ts[i] < ts[j] }

  predicate Usable(mk: Market)
  {
    && |mk.times| == |mk.mids| && mk.times != []
    && (forall i :: 0 <= i < |mk.mids| ==> mk.mids[i] > 0.0)
    && Ascending(mk.times)
  }

  method Validate(mk: Market) returns (fault: Option<Fault>)
    ensures fault.None? <==> Usable(mk)
  {
    if |mk.times| != |mk.mids| {
      return Some(LengthsDiffer);
    }
    if mk.times == [] {
      return Some(NoMarketData);
    }
    for i := 0 to |mk.mids|
      invariant forall k :: 0 <= k < i ==> mk.mids[k] > 0.0
    {
      if mk.mids[i] <= 0.0 {
        return Some(MidNotPositive);
      }
    }
    for i := 1 to |mk.times|
      invariant forall j, k :: 0 <= j < k < i ==> mk.times[j] < mk.times[k]
    {
      if mk.times[i] - mk.times[i - 1] <= 0.0 {
        return Some(NotAscending);
      }
      assert forall j :: 0 <= j < i ==> mk.times[j] <= mk.times[i - 1];
    }
    return None;
  }

  /** Index of the last observation at or before a time, or -1. */
  function Prevailing(ts: seq<real>, t: real): (r: int)
    requires Ascending(ts)
    ensures -1 <= r < |ts|
    ensures forall i :: 0 <= i < |ts| ==> (ts[i] <= t <==> i <= r)
  {
    if ts == [] then -1
    else if ts[|ts| - 1] <= t then |ts| - 1
    else Prevailing(ts[..|ts| - 1], t)
  }

  datatype Mid = Price(value: real) | NoData | TooOld

  function Aged(staleness: Option<real>, mk: Market, k: nat, t: real): Mid
    requires Usable(mk) && k < |mk.times|
  {
    if staleness.Some? && t - mk.times[k] > staleness.value then TooOld else Price(mk.mids[k])
  }

  /** The mid at a horizon; none outside the observed window. */
  function HorizonMid(staleness: Option<real>, mk: Market, t: real): Mid
    requires Usable(mk)
  {
    if t < mk.times[0] || t > mk.times[|mk.times| - 1] then NoData
    else
      var k := Prevailing(mk.times, t);
      if k < 0 then NoData else Aged(staleness, mk, k, t)
  }

  /** The mid at the fill, which may lie past the last observation. */
  function AsofMid(staleness: Option<real>, mk: Market, t: real): Mid
    requires Usable(mk)
  {
    var k := Prevailing(mk.times, t);
    if k < 0 then NoData else Aged(staleness, mk, k, t)
  }

  // ---------------------------------------------------------------- one fill, one horizon

  function Bps(side: Side, reference: real, future: real): real
    requires reference > 0.0 && future > 0.0
  {
    if side.Buy? then (future / reference - 1.0) * 10000.0 else (reference / future - 1.0) * 10000.0
  }

  datatype Outcome = MissingAsof | StaleAsof | Truncated | Stale | Marked(bps: real, quantity: real)

  /** A fill is turned away when the as-of mid it needs is missing or too old. */
  predicate Admitted(cfg: Config, mk: Market, f: Fill)
    requires Usable(mk)
  {
    !cfg.NeedsAsof() || AsofMid(cfg.staleness, mk, f.time).Price?
  }

  function Reference(cfg: Config, mk: Market, f: Fill): (r: real)
    requires Usable(mk) && f.Valid() && Admitted(cfg, mk, f)
    ensures r > 0.0
  {
    if cfg.arrivalBasis then AsofMid(cfg.staleness, mk, f.time).value else f.price
  }

  function OutcomeOf(cfg: Config, mk: Market, f: Fill, h: real): Outcome
    requires Usable(mk) && f.Valid()
  {
    if !Admitted(cfg, mk, f) then
      if AsofMid(cfg.staleness, mk, f.time).TooOld? then StaleAsof else MissingAsof
    else
      match HorizonMid(cfg.staleness, mk, f.time + h)
      case NoData => Truncated
      case TooOld => Stale
      case Price(m) => Marked(Bps(f.side, Reference(cfg, mk, f), m), f.quantity)
  }

  /** A mark is measured against the last observation at or before its target, no older than
      allowed, inside the observed window. */
  lemma {:induction false} MidIsPrevailing(cfg: Config, mk: Market, f: Fill, h: real) returns (k: nat)
    requires Usable(mk) && f.Valid() && OutcomeOf(cfg, mk, f, h).Marked?
    ensures k < |mk.times| && mk.times[k] <= f.time + h
    ensures k + 1 < |mk.times| ==> f.time + h < mk.times[k + 1]
    ensures cfg.staleness.Some? ==> f.time + h - mk.times[k] <= cfg.staleness.value
    ensures k == |mk.times| - 1 ==> f.time + h == mk.times[k]
    ensures OutcomeOf(cfg, mk, f, h).bps == Bps(f.side, Reference(cfg, mk, f), mk.mids[k])
  {
    k := Prevailing(mk.times, f.time + h);
  }

  /** The second series continues the first. */
  predicate Continues(mk: Market, longer: Market)
  {
    && |mk.times| <= |longer.times| && |mk.mids| <= |longer.mids|
    && longer.times[..|mk.times|] == mk.times && longer.mids[..|mk.mids|] == mk.mids
  }

  lemma {:induction false} PrevailingStays(mk: Market, longer: Market, t: real)
    requires Usable(mk) && Usable(longer) && Continues(mk, longer)
    requires t <= mk.times[|mk.times| - 1]
    ensures Prevailing(mk.times, t) == Prevailing(longer.times, t)
  {
    var k := Prevailing(mk.times, t);
    assert forall i :: 0 <= i < |mk.times| ==> longer.times[i] == mk.times[i];
    if k >= 0 {
      assert longer.times[k] <= t;
    }
    if k + 1 < |longer.times| {
      assert t < longer.times[k + 1];
    }
  }

  lemma {:induction false} AsofStays(staleness: Option<real>, mk: Market, longer: Market, t: real)
    requires Usable(mk) && Usable(longer) && Continues(mk, longer)
    requires t <= mk.times[|mk.times| - 1]
    ensures AsofMid(staleness, longer, t) == AsofMid(staleness, mk, t)
  {
    PrevailingStays(mk, longer, t);
    assert forall i :: 0 <= i < |mk.times| ==> longer.times[i] == mk.times[i] && longer.mids[i] == mk.mids[i];
  }

  lemma {:induction false} HorizonStays(staleness: Option<real>, mk: Market, longer: Market, t: real)
    requires Usable(mk) && Usable(longer) && Continues(mk, longer)
    requires !HorizonMid(staleness, mk, t).NoData?
    ensures mk.times[0] <= t <= mk.times[|mk.times| - 1]
    ensures HorizonMid(staleness, longer, t) == HorizonMid(staleness, mk, t)
  {
    PrevailingStays(mk, longer, t);
    var last := |mk.times| - 1;
    assert forall i :: 0 <= i < |mk.times| ==> longer.times[i] == mk.times[i] && longer.mids[i] == mk.mids[i];
    assert longer.times[last] <= longer.times[|longer.times| - 1];
  }

  /** Later market data never revises a mark, a stale horizon or a refusal for age: it can
      only resolve what was truncated or had no as-of mid. */
  lemma {:induction false} LaterDataNeverRevises(cfg: Config, mk: Market, longer: Market, f: Fill, h: real)
    requires Usable(mk) && Usable(longer) && Continues(mk, longer) && f.Valid() && h > 0.0
    requires OutcomeOf(cfg, mk, f, h).Marked? || OutcomeOf(cfg, mk, f, h).Stale?
    ensures OutcomeOf(cfg, longer, f, h) == OutcomeOf(cfg, mk, f, h)
  {
    hide Bps, HorizonMid, AsofMid, Usable, Continues;
    HorizonStays(cfg.staleness, mk, longer, f.time + h);
    AsofStays(cfg.staleness, mk, longer, f.time);
  }

  // ---------------------------------------------------------------- all fills

  function MarksOf(cfg: Config, mk: Market, fs: seq<Fill>, h: real): seq<(real, real)>
    requires Usable(mk) && AllValid(fs)
  {
    if fs == [] then []
    else
      var o := OutcomeOf(cfg, mk, fs[|fs| - 1], h);
      MarksOf(cfg, mk, fs[..|fs| - 1], h) + if o.Marked? then [(o.bps, o.quantity)] else []
  }

  predicate AllValid(fs: seq<Fill>) { forall f :: f in fs ==> f.Valid() }

  /** Fills whose outcome at the horizon is the one given, marks aside. */
  function CountOf(cfg: Config, mk: Market, fs: seq<Fill>, h: real, o: Outcome): nat
    requires Usable(mk) && AllValid(fs)
  {
    if fs == [] then 0
    else CountOf(cfg, mk, fs[..|fs| - 1], h, o) + if OutcomeOf(cfg, mk, fs[|fs| - 1], h) == o then 1 else 0
  }

  function AdmittedOf(cfg: Config, mk: Market, fs: seq<Fill>): nat
    requires Usable(mk)
  {
    if fs == [] then 0
    else AdmittedOf(cfg, mk, fs[..|fs| - 1]) + if Admitted(cfg, mk, fs[|fs| - 1]) then 1 else 0
  }

  /** At every horizon each fill is counted once: marked, truncated or stale if it was
      admitted, and otherwise missing or stale at the fill, whichever the horizon. */
  lemma {:induction false} EveryFillIsCountedOnce(cfg: Config, mk: Market, fs: seq<Fill>, h: real)
    requires Usable(mk) && AllValid(fs)
    ensures |MarksOf(cfg, mk, fs, h)| + CountOf(cfg, mk, fs, h, Truncated) + CountOf(cfg, mk, fs, h, Stale)
      == AdmittedOf(cfg, mk, fs)
    ensures AdmittedOf(cfg, mk, fs) + CountOf(cfg, mk, fs, h, MissingAsof) + CountOf(cfg, mk, fs, h, StaleAsof) == |fs|
  {
    hide HorizonMid, AsofMid, Bps, Reference;
    if fs != [] {
      EveryFillIsCountedOnce(cfg, mk, fs[..|fs| - 1], h);
    }
  }

  /** When fills need an as-of mid, a longer horizon is truncated wherever a shorter one is. */
  lemma {:induction false} TruncationGrows(cfg: Config, mk: Market, fs: seq<Fill>, h: real, k: real)
    requires Usable(mk) && AllValid(fs) && cfg.NeedsAsof() && 0.0 < h <= k
    ensures CountOf(cfg, mk, fs, h, Truncated) <= CountOf(cfg, mk, fs, k, Truncated)
  {
    hide Bps, Reference;
    if fs != [] {
      TruncationGrows(cfg, mk, fs[..|fs| - 1], h, k);
    }
  }

  /** Marks only accumulate as the market series continues. */
  lemma {:induction false} MarksAccumulate(cfg: Config, mk: Market, longer: Market, fs: seq<Fill>, h: real)
    requires Usable(mk) && Usable(longer) && Continues(mk, longer) && AllValid(fs) && h > 0.0
    ensures |MarksOf(cfg, mk, fs, h)| <= |MarksOf(cfg, longer, fs, h)|
    ensures multiset(MarksOf(cfg, mk, fs, h)) <= multiset(MarksOf(cfg, longer, fs, h))
  {
    hide OutcomeOf;
    if fs != [] {
      var f := fs[|fs| - 1];
      MarksAccumulate(cfg, mk, longer, fs[..|fs| - 1], h);
      if OutcomeOf(cfg, mk, f, h).Marked? {
        LaterDataNeverRevises(cfg, mk, longer, f, h);
      }
    }
  }

  function UsedOf(cfg: Config, mk: Market, fs: seq<Fill>): nat
    requires Usable(mk) && AllValid(fs)
  {
    if fs == [] then 0
    else UsedOf(cfg, mk, fs[..|fs| - 1]) + if AnyMarked(cfg, mk, fs[|fs| - 1], |cfg.horizons|) then 1 else 0
  }

  predicate AnyMarked(cfg: Config, mk: Market, f: Fill, n: nat)
    requires Usable(mk) && f.Valid() && n <= |cfg.horizons|
  {
    n > 0 && (OutcomeOf(cfg, mk, f, cfg.horizons[n - 1]).Marked? || AnyMarked(cfg, mk, f, n - 1))
  }

  datatype Tally = Tally(marks: map<real, seq<(real, real)>>, truncated: map<real, nat>, stale: map<real, nat>)

  datatype Report = Report(tally: Tally, used: nat, missing: nat, staleAsof: nat)

  datatype Result = Ok(report: Report) | Failed(fault: Fault)

  /** What is kept for a horizon is what these fills come to at it. */
  ghost predicate Tallied(cfg: Config, mk: Market, fs: seq<Fill>, t: Tally, h: real)
    requires Usable(mk) && AllValid(fs)
  {
    && h in t.marks && t.marks[h] == MarksOf(cfg, mk, fs, h)
    && h in t.truncated && t.truncated[h] == CountOf(cfg, mk, fs, h, Truncated)
    && h in t.stale && t.stale[h] == CountOf(cfg, mk, fs, h, Stale)
  }

  ghost predicate TalliedFrom(cfg: Config, mk: Market, fs: seq<Fill>, t: Tally, from: nat, upto: nat)
    requires Usable(mk) && AllValid(fs) && upto <= |cfg.horizons|
  {
    forall i :: from <= i < upto ==> Tallied(cfg, mk, fs, t, cfg.horizons[i])
  }

  /** Entries of other horizons are left alone. */
  predicate OnlyAt(t: Tally, u: Tally, h: real)
  {
    && (forall k :: k != h && k in t.marks ==> k in u.marks && u.marks[k] == t.marks[k])
    && (forall k :: k != h && k in t.truncated ==> k in u.truncated && u.truncated[k] == t.truncated[k])
    && (forall k :: k != h && k in t.stale ==> k in u.stale && u.stale[k] == t.stale[k])
  }

  /** One admitted fill at one horizon. */
  method TallyOne(cfg: Config, mk: Market, ghost fs: seq<Fill>, f: Fill, t: Tally, h: real)
    returns (u: Tally, marked: bool)
    requires Usable(mk) && AllValid(fs) && f.Valid() && Admitted(cfg, mk, f)
    requires Tallied(cfg, mk, fs, t, h)
    ensures AllValid(fs + [f]) && Tallied(cfg, mk, fs + [f], u, h) && OnlyAt(t, u, h)
    ensures marked == OutcomeOf(cfg, mk, f, h).Marked?
  {
    hide HorizonMid, AsofMid, Bps, Reference, Usable;
    assert (fs + [f])[..|fs|] == fs;
    var future := HorizonMid(cfg.staleness, mk, f.time + h);
    match future {
      case NoData =>
        return t.(truncated := t.truncated[h := t.truncated[h] + 1]), false;
      case TooOld =>
        return t.(stale := t.stale[h := t.stale[h] + 1]), false;
      case Price(m) =>
        PriceIsPositive(cfg.staleness, mk, f.time + h);
        var bps := Bps(f.side, Reference(cfg, mk, f), m);
        return t.(marks := t.marks[h := t.marks[h] + [(bps, f.quantity)]]), true;
    }
  }

  lemma PriceIsPositive(staleness: Option<real>, mk: Market, t: real)
    requires Usable(mk) && HorizonMid(staleness, mk, t).Price?
    ensures HorizonMid(staleness, mk, t).value > 0.0
  {
  }

  lemma OthersStay(cfg: Config, mk: Market, fs: seq<Fill>, t: Tally, u: Tally, h: real, from: nat, upto: nat)
    requires Usable(mk) && AllValid(fs) && upto <= |cfg.horizons| && OnlyAt(t, u, h)
    requires TalliedFrom(cfg, mk, fs, t, from, upto)
    requires forall i :: from <= i < upto ==> cfg.horizons[i] != h
    ensures TalliedFrom(cfg, mk, fs, u, from, upto)
  {
  }

  /** A fill turned away counts at no horizon. */
  lemma {:induction false} TurnedAway(cfg: Config, mk: Market, fs: seq<Fill>, f: Fill, t: Tally)
    requires cfg.Valid() && Usable(mk) && AllValid(fs) && f.Valid() && !Admitted(cfg, mk, f)
    requires TalliedFrom(cfg, mk, fs, t, 0, |cfg.horizons|)
    ensures AllValid(fs + [f]) && TalliedFrom(cfg, mk, fs + [f], t, 0, |cfg.horizons|)
    ensures !AnyMarked(cfg, mk, f, |cfg.horizons|)
  {
    hide AsofMid, Usable, HorizonMid;
    assert (fs + [f])[..|fs|] == fs;
    NoneMarked(cfg, mk, f, |cfg.horizons|);
  }

  lemma {:induction false} NoneMarked(cfg: Config, mk: Market, f: Fill, n: nat)
    requires Usable(mk) && f.Valid() && !Admitted(cfg, mk, f) && n <= |cfg.horizons|
    ensures !AnyMarked(cfg, mk, f, n)
  {
    hide AsofMid, Usable, HorizonMid;
    if n > 0 {
      NoneMarked(cfg, mk, f, n - 1);
    }
  }

  function Empty<V>(hs: seq<real>, v: V): map<real, V> { map h | h in hs :: v }

  /** The accounts of a whole evaluation; bad market data is refused. */
  method EvaluateFills(cfg: Config, mk: Market, fs: seq<Fill>) returns (r: Result)
    requires cfg.Valid() && AllValid(fs)
    ensures r.Ok? <==> Usable(mk)
    ensures r.Ok? ==> TalliedFrom(cfg, mk, fs, r.report.tally, 0, |cfg.horizons|)
    ensures r.Ok? ==> r.report.used == UsedOf(cfg, mk, fs)
    ensures r.Ok? ==> forall h :: h in cfg.horizons ==>
      && r.report.missing == CountOf(cfg, mk, fs, h, MissingAsof)
      && r.report.staleAsof == CountOf(cfg, mk, fs, h, StaleAsof)
  {
    hide AsofMid, HorizonMid, Reference, Bps, Tallied, Usable;
    var fault := Validate(mk);
    if fault.Some? {
      return Failed(fault.value);
    }
    var t := Tally(Empty(cfg.horizons, []), Empty(cfg.horizons, 0), Empty(cfg.horizons, 0));
    var used, missing, staleAsof := 0, 0, 0;
    NothingTallied(cfg, mk, t);
    for n := 0 to |fs|
      invariant AllValid(fs[..n]) && TalliedFrom(cfg, mk, fs[..n], t, 0, |cfg.horizons|)
      invariant used == UsedOf(cfg, mk, fs[..n])
      invariant forall h :: h in cfg.horizons ==>
        && missing == CountOf(cfg, mk, fs[..n], h, MissingAsof)
        && staleAsof == CountOf(cfg, mk, fs[..n], h, StaleAsof)
    {
      var f := fs[n];
      assert fs[..n + 1] == fs[..n] + [f] && fs[..n + 1][..n] == fs[..n];
      var asof := AsofMid(cfg.staleness, mk, f.time);
      if !asof.Price? && cfg.NeedsAsof() {
        TurnedAway(cfg, mk, fs[..n], f, t);
        if asof.TooOld? {
          staleAsof := staleAsof + 1;
        } else {
          missing := missing + 1;
        }
      } else {
        var usedThisFill := false;
        for k := 0 to |cfg.horizons|
          invariant TalliedFrom(cfg, mk, fs[..n] + [f], t, 0, k)
          invariant TalliedFrom(cfg, mk, fs[..n], t, k, |cfg.horizons|)
          invariant usedThisFill == AnyMarked(cfg, mk, f, k)
        {
          ghost var before := t;
          var marked;
          t, marked := TallyOne(cfg, mk, fs[..n], f, t, cfg.horizons[k]);
          usedThisFill := usedThisFill || marked;
          OthersStay(cfg, mk, fs[..n] + [f], before, t, cfg.horizons[k], 0, k);
          OthersStay(cfg, mk, fs[..n], before, t, cfg.horizons[k], k + 1, |cfg.horizons|);
        }
        if usedThisFill {
          used := used + 1;
        }
      }
    }
    assert fs[..|fs|] == fs;
    return Ok(Report(t, used, missing, staleAsof));
  }

  lemma NothingTallied(cfg: Config, mk: Market, t: Tally)
    requires Usable(mk)
    requires t == Tally(Empty(cfg.horizons, []), Empty(cfg.horizons, 0), Empty(cfg.horizons, 0))
    ensures TalliedFrom(cfg, mk, [], t, 0, |cfg.horizons|)
  {
  }
}
