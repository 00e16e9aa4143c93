/** What becomes of one fill at one horizon, told from the fill and the observations. */
module MarkoutTrail {
  import opened Options
  import opened Markout

  /** Observation k is the last one at or before t. */
  ghost predicate ShownAt(mk: Market, t: real, k: nat)
    requires Usable(mk)
  {
    k < |mk.times| && mk.times[k] <= t && (k + 1 < |mk.times| ==> t < mk.times[k + 1])
  }

  predicate TooOldFor(cfg: Config, age: real) { cfg.staleness.Some? && age > cfg.staleness.value }

  /** The mid shown at t, and not too old. */
  ghost predicate FreshAt(cfg: Config, mk: Market, t: real, k: nat)
    requires Usable(mk)
  {
    ShownAt(mk, t, k) && !TooOldFor(cfg, t - mk.times[k])
  }

  ghost predicate StaleAt(cfg: Config, mk: Market, t: real, k: nat)
    requires Usable(mk)
  {
    ShownAt(mk, t, k) && TooOldFor(cfg, t - mk.times[k])
  }

  predicate InWindow(mk: Market, t: real)
    requires Usable(mk)
  {
    mk.times[0] <= t <= mk.times[|mk.times| - 1]
  }

  /** A mid is shown at t, but it is too old. */
  ghost predicate OutOfDate(cfg: Config, mk: Market, t: real)
    requires Usable(mk)
  {
    exists k: nat :: StaleAt(cfg, mk, t, k)
  }

  /** The fill's price, or, on the arrival basis, the fresh mid shown when it was filled. */
  ghost predicate IsReference(cfg: Config, mk: Market, f: Fill, r: real)
    requires Usable(mk)
  {
    if cfg.arrivalBasis then exists a: nat :: FreshAt(cfg, mk, f.time, a) && r == mk.mids[a] else r == f.price
  }

  function Product(x: real, y: real): real { x * y }

  /** A buyer gains what the price rises by, relative to the reference; a seller what it has
      fallen by, relative to where it fell. */
  predicate Earns(side: Side, reference: real, future: real, bps: real)
  {
    match side
    case Buy => Product(1.0 + bps / 10000.0, reference) == future
    case Sell => Product(1.0 + bps / 10000.0, future) == reference
  }

  lemma {:induction false} BpsEarns(side: Side, reference: real, future: real)
    requires reference > 0.0 && future > 0.0
    ensures Earns(side, reference, future, Bps(side, reference, future))
  {
    var bps := Bps(side, reference, future);
    QuotientTimes(future, reference);
    QuotientTimes(reference, future);
    assert bps / 10000.0 == (if side.Buy? then future / reference else reference / future) - 1.0;
  }

  lemma QuotientTimes(x: real, y: real)
    requires y != 0.0
    ensures Product(x / y, y) == x
  {
  }

  ghost predicate MayCount(cfg: Config, mk: Market, f: Fill)
    requires Usable(mk)
  {
    cfg.arrivalBasis || cfg.requireAsof ==> exists a: nat :: FreshAt(cfg, mk, f.time, a)
  }

  ghost predicate EarnsAgainst(cfg: Config, mk: Market, f: Fill, future: real, bps: real)
    requires Usable(mk)
  {
    exists r :: IsReference(cfg, mk, f, r) && Earns(f.side, r, future, bps)
  }

  lemma {:induction false} AsofExactly(cfg: Config, mk: Market, t: real)
    requires Usable(mk)
    ensures match AsofMid(cfg.staleness, mk, t)
      case NoData => t < mk.times[0] && forall a: nat :: !ShownAt(mk, t, a)
      case TooOld => OutOfDate(cfg, mk, t) && forall a: nat :: !FreshAt(cfg, mk, t, a)
      case Price(m) => exists a: nat :: FreshAt(cfg, mk, t, a) && m == mk.mids[a]
  {
    var k := Prevailing(mk.times, t);
    forall a: nat ensures ShownAt(mk, t, a) ==> a == k {
    }
    if k >= 0 {
      assert ShownAt(mk, t, k);
      assert StaleAt(cfg, mk, t, k) || FreshAt(cfg, mk, t, k);
    }
  }

  lemma {:induction false} HorizonExactly(cfg: Config, mk: Market, t: real)
    requires Usable(mk)
    ensures match HorizonMid(cfg.staleness, mk, t)
      case NoData => !InWindow(mk, t)
      case TooOld => InWindow(mk, t) && OutOfDate(cfg, mk, t)
      case Price(m) => m > 0.0 && InWindow(mk, t) && exists k: nat :: FreshAt(cfg, mk, t, k) && m == mk.mids[k]
  {
    var k := Prevailing(mk.times, t);
    if InWindow(mk, t) {
      assert ShownAt(mk, t, k);
      assert StaleAt(cfg, mk, t, k) || FreshAt(cfg, mk, t, k);
    }
  }

  lemma {:induction false} AdmittedExactly(cfg: Config, mk: Market, f: Fill)
    requires Usable(mk) && f.Valid()
    ensures Admitted(cfg, mk, f) <==> MayCount(cfg, mk, f)
    ensures Admitted(cfg, mk, f) ==> IsReference(cfg, mk, f, Reference(cfg, mk, f))
    ensures !Admitted(cfg, mk, f) ==>
      if AsofMid(cfg.staleness, mk, f.time).TooOld? then OutOfDate(cfg, mk, f.time)
      else f.time < mk.times[0]
  {
    hide AsofMid, ShownAt, TooOldFor, OutOfDate;
    AsofExactly(cfg, mk, f.time);
    if AsofMid(cfg.staleness, mk, f.time).NoData? {
      forall a: nat ensures !FreshAt(cfg, mk, f.time, a) {
        assert !ShownAt(mk, f.time, a);
      }
    }
  }

  /** A fill that needs a fresh mid when it was filled is missing before the first observation
      and stale otherwise. A fill that counts is truncated outside the observed window, stale
      where the mid shown at the horizon is too old, and otherwise earns, on its quantity, what
      that mid says against its reference. */
  lemma {:induction false} OutcomeExactly(cfg: Config, mk: Market, f: Fill, h: real)
    requires Usable(mk) && f.Valid()
    ensures match OutcomeOf(cfg, mk, f, h)
      case MissingAsof => !MayCount(cfg, mk, f) && f.time < mk.times[0]
      case StaleAsof => !MayCount(cfg, mk, f) && OutOfDate(cfg, mk, f.time)
      case Truncated => MayCount(cfg, mk, f) && !InWindow(mk, f.time + h)
      case Stale =>
        && MayCount(cfg, mk, f) && InWindow(mk, f.time + h) && OutOfDate(cfg, mk, f.time + h)
      case Marked(bps, quantity) =>
        && MayCount(cfg, mk, f) && InWindow(mk, f.time + h) && quantity == f.quantity
        && exists k: nat :: FreshAt(cfg, mk, f.time + h, k) && EarnsAgainst(cfg, mk, f, mk.mids[k], bps)
  {
    hide AsofMid, HorizonMid, Bps, Earns, IsReference, MayCount, Admitted, Reference, OutOfDate, FreshAt;
    AdmittedExactly(cfg, mk, f);
    HorizonExactly(cfg, mk, f.time + h);
    if Admitted(cfg, mk, f) && HorizonMid(cfg.staleness, mk, f.time + h).Price? {
      BpsEarns(f.side, Reference(cfg, mk, f), HorizonMid(cfg.staleness, mk, f.time + h).value);
    }
  }
}
