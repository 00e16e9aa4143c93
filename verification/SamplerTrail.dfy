/** What the sampler answers, told from the ticks of the run: which ticks are refused, which
    of them emit and with what factor, and what a flush returns. */
module SamplerTrail {
  import opened Options
  import opened TickSampler

  /** The last tick accepted since the symbol was last reset. */
  function LastTick(cfg: Config, h: seq<Op>, i: nat): Option<Tick>
    requires cfg.Valid() && i <= |h|
  {
    if i == 0 || ClearedAt(cfg, h, i - 1) then None
    else if AcceptedAt(cfg, h, i - 1) then Some(h[i - 1].tick)
    else LastTick(cfg, h, i - 1)
  }

  ghost predicate Remembers(s: Option<Sym>, last: Option<Tick>)
  {
    && (s.Some? <==> last.Some?)
    && (s.Some? ==> s.value.lastSequence == last.value.sequence && s.value.lastTime == last.value.time)
  }

  lemma LastTickAfter(cfg: Config, h: seq<Op>, i: nat, next: nat)
    requires cfg.Valid() && i < |h| && next == i + 1
    ensures LastTick(cfg, h, next)
      == if ClearedAt(cfg, h, i) then None
         else if AcceptedAt(cfg, h, i) then Some(h[i].tick)
         else LastTick(cfg, h, i)
  {
  }

  lemma {:induction false} LastTickIsRemembered(cfg: Config, h: seq<Op>, i: nat)
    requires cfg.Valid() && i <= |h|
    ensures Remembers(StateAt(cfg, h, i), LastTick(cfg, h, i))
  {
    hide IngestStep, FlushStep, LastTick, Check;
    if i == 0 {
      NothingYet(cfg, h);
    } else {
      LastTickIsRemembered(cfg, h, i - 1);
      LastTickAfter(cfg, h, i - 1, i);
      var s, s' := StateAt(cfg, h, i - 1), StateAt(cfg, h, i);
      assert s' == Step(cfg, s, h[i - 1]).1;
      if AcceptedAt(cfg, h, i - 1) {
        IngestShape(cfg, s, h[i - 1].tick);
      } else if !ClearedAt(cfg, h, i - 1) {
        OtherShape(cfg, s, h[i - 1]);
      }
    }
  }

  lemma NothingYet(cfg: Config, h: seq<Op>)
    requires cfg.Valid()
    ensures StateAt(cfg, h, 0) == None && LastTick(cfg, h, 0) == None
  {
  }

  /** A tick is refused exactly for a price or volume that is not positive, for a sequence
      number that does not increase where that is enforced, or for a time before the last tick
      accepted since a reset; the first of these is named. */
  lemma {:induction false} RefusedExactly(cfg: Config, h: seq<Op>, i: nat)
    requires cfg.Valid() && i < |h| && h[i].Ingest?
    ensures var t, last := h[i].tick, LastTick(cfg, h, i);
      var repeats := cfg.enforceSequence && last.Some? && t.sequence <= last.value.sequence;
      var early := last.Some? && t.time < last.value.time;
      match ResultAt(cfg, h, i) {
        case Rejected(error) =>
          || (error == BadPrice && t.price <= 0.0)
          || (error == BadVolume && t.price > 0.0 && t.volume <= 0.0)
          || (error == SequenceNotIncreasing && t.price > 0.0 && t.volume > 0.0 && repeats)
          || (error == TimeWentBack && t.price > 0.0 && t.volume > 0.0 && !repeats && early)
        case _ => t.price > 0.0 && t.volume > 0.0 && !repeats && !early
      }
  {
    LastTickIsRemembered(cfg, h, i);
  }

  // ---------------------------------------------------------------- which ticks emit

  /** The ticks of the last second seen from `time`: those of the second before count for the
      fraction of this one that is still to come. */
  function Weighted(cfg: Config, h: seq<Op>, i: nat, time: real): real
    requires cfg.Valid() && i <= |h|
  {
    TicksIn(cfg, h, i, time.Floor - 1) as real * (1.0 - (time - time.Floor as real))
    + TicksIn(cfg, h, i, time.Floor) as real
  }

  /** The least integer from two up by which `target` covers the rate. */
  predicate LeastFactor(f: int, rate: real, target: int)
  {
    f >= 2 && Covers(f, rate, target) && (f > 2 ==> !Covers(f - 1, rate, target))
  }

  /** Emitting one tick in f keeps this rate within the target. */
  predicate Covers(f: int, rate: real, target: int) { rate <= f as real * target as real }

  lemma {:induction false} CeilBounds(x: real)
    ensures x <= Ceil(x) as real < x + 1.0
  {
  }

  lemma {:induction false} ScaleStrict(d: real, x: real, y: real)
    requires d > 0.0
    ensures x < y ==> x * d < y * d
    ensures x <= y ==> x * d <= y * d
  {
  }

  lemma {:induction false} QuotientOf(rate: real, target: real)
    requires target > 0.0
    ensures (rate / target) * target == rate
  {
  }

  lemma {:induction false} CoversByQuotient(f: int, q: real, rate: real, target: int)
    requires target >= 1 && q * target as real == rate
    ensures Covers(f, rate, target) <==> q <= f as real
  {
    ScaleStrict(target as real, q, f as real);
    ScaleStrict(target as real, f as real, q);
  }

  lemma FactorByQuotient(cfg: Config, rate: real)
    requires cfg.Valid() && rate > cfg.target as real
    ensures var c := Ceil(rate / cfg.target as real);
      Factor(cfg, rate) == if c < 2 then 2 else c
  {
  }

  /** The factor computed is the least one. */
  lemma {:induction false} FactorIsLeast(cfg: Config, rate: real)
    requires cfg.Valid() && rate > cfg.target as real
    ensures LeastFactor(Factor(cfg, rate), rate, cfg.target)
  {
    hide Ceil, Covers, Factor;
    var q := rate / cfg.target as real;
    QuotientOf(rate, cfg.target as real);
    CeilBounds(q);
    FactorByQuotient(cfg, rate);
    CoversByQuotient(Factor(cfg, rate), q, rate, cfg.target);
    CoversByQuotient(Factor(cfg, rate) - 1, q, rate, cfg.target);
  }

  lemma {:induction false} CoversMore(f: int, g: int, rate: real, target: int)
    requires target >= 1 && f <= g && Covers(f, rate, target)
    ensures Covers(g, rate, target)
  {
    ScaleStrict(target as real, f as real, g as real);
  }

  lemma {:induction false} LeastIsAtMost(f: int, g: int, rate: real, target: int)
    requires target >= 1 && LeastFactor(f, rate, target) && LeastFactor(g, rate, target)
    ensures f <= g
  {
    if g < f {
      CoversMore(g, f - 1, rate, target);
    }
  }

  /** There is a least factor for every rate over the target. */
  lemma {:induction false} LeastFactorExists(rate: real, target: int) returns (f: int)
    requires target >= 1 && rate > target as real
    ensures LeastFactor(f, rate, target)
  {
    var cfg := Config(target, false);
    FactorIsLeast(cfg, rate);
    f := Factor(cfg, rate);
  }

  lemma {:induction false} CountersAfter(cfg: Config, h: seq<Op>, i: nat, next: nat)
    requires cfg.Valid() && i < |h| && next == i + 1 && AcceptedAt(cfg, h, i)
    ensures var s', sec := Fold(cfg, StateAt(cfg, h, i), h[i].tick), h[i].tick.time.Floor;
      s'.current == TicksIn(cfg, h, next, sec) && s'.previous == TicksIn(cfg, h, next, sec - 1)
  {
    hide TicksIn, IngestStep, FlushStep;
    var s, t := StateAt(cfg, h, i), h[i].tick;
    WindowCountersAreTrueCounts(cfg, h, i);
    TicksAfter(cfg, h, i, next);
    IngestShape(cfg, s, t);
    if s.Some? {
      assert s.value.window <= t.time.Floor;
    }
  }

  lemma RateOf(current: int, previous: int, time: real)
    ensures Rate(current, previous, time)
      == previous as real * (1.0 - (time - time.Floor as real)) + current as real
  {
  }

  lemma {:induction false} RateIsWeighted(cfg: Config, h: seq<Op>, i: nat, next: nat)
    requires cfg.Valid() && i < |h| && next == i + 1 && AcceptedAt(cfg, h, i)
    ensures var time := h[i].tick.time;
      var s' := Fold(cfg, StateAt(cfg, h, i), h[i].tick);
      Rate(s'.current, s'.previous, time) == Weighted(cfg, h, next, time)
  {
    hide TicksIn, Rate, Fold, StateAt;
    var s' := Fold(cfg, StateAt(cfg, h, i), h[i].tick);
    CountersAfter(cfg, h, i, next);
    RateOf(s'.current, s'.previous, h[i].tick.time);
  }

  lemma TicksAfter(cfg: Config, h: seq<Op>, i: nat, next: nat)
    requires cfg.Valid() && i < |h| && next == i + 1 && AcceptedAt(cfg, h, i)
    ensures forall sec :: TicksIn(cfg, h, next, sec) == TicksIn(cfg, h, i, sec) + One(h[i].tick.time.Floor == sec)
  {
  }

  lemma EmitsByFactor(cfg: Config, s: Option<Sym>, t: Tick)
    requires cfg.Valid() && Sane(s) && Check(cfg, s, t).None?
    ensures var rate := Rate(Fold(cfg, s, t).current, Fold(cfg, s, t).previous, t.time);
      var (r, held) := (IngestStep(cfg, s, t).0, if s.None? then 0 else s.value.ticks);
      && (r.Emitted? <==> rate <= cfg.target as real || held + 1 >= Factor(cfg, rate))
      && (r.Emitted? ==>
           && r.sample.factor == (if rate <= cfg.target as real then 1 else Factor(cfg, rate))
           && (r.sample.systematic <==> rate > cfg.target as real) && !r.sample.isFlush)
  {
  }

  /** An accepted tick emits exactly when the rate is within the target, or when the pending
      ticks with this one reach the least factor from two up that brings it there. The
      aggregate reports that factor and mode. */
  lemma {:induction false} EmitsExactly(cfg: Config, h: seq<Op>, i: nat, next: nat, f: int)
    requires cfg.Valid() && i < |h| && next == i + 1 && AcceptedAt(cfg, h, i)
    requires var r := Weighted(cfg, h, next, h[i].tick.time);
      r > cfg.target as real ==> LeastFactor(f, r, cfg.target)
    ensures var r := Weighted(cfg, h, next, h[i].tick.time);
      && (ResultAt(cfg, h, i).Emitted? <==> r <= cfg.target as real || |Pending(cfg, h, i)| + 1 >= f)
      && (ResultAt(cfg, h, i).Emitted? ==>
           var e := ResultAt(cfg, h, i).sample;
           && e.factor == (if r <= cfg.target as real then 1 else f)
           && (e.systematic <==> r > cfg.target as real) && !e.isFlush)
  {
    hide Weighted, Rate, Factor, Fold, Pending, LeastFactor, IngestStep;
    var s, t := StateAt(cfg, h, i), h[i].tick;
    IngestShape(cfg, s, t);
    EmitsByFactor(cfg, s, t);
    RateIsWeighted(cfg, h, i, next);
    ResidualIsPending(cfg, h, i);
    var r := Weighted(cfg, h, next, t.time);
    if r > cfg.target as real {
      FactorIsLeast(cfg, r);
      LeastIsAtMost(f, Factor(cfg, r), r, cfg.target);
      LeastIsAtMost(Factor(cfg, r), f, r, cfg.target);
    } else {
      assert ResultAt(cfg, h, i).Emitted?;
    }
  }

  // ---------------------------------------------------------------- flushes

  /** A flush, or a reset that flushes, answers nothing when no tick is pending, refuses a time
      before the last tick and otherwise emits one aggregate outside the numbering. */
  lemma {:induction false} FlushedExactly(cfg: Config, h: seq<Op>, i: nat)
    requires cfg.Valid() && i < |h| && (h[i].Flush? || (h[i].Reset? && h[i].flush))
    ensures var last := LastTick(cfg, h, i);
      match ResultAt(cfg, h, i) {
        case Quiet => Pending(cfg, h, i) == []
        case Rejected(error) =>
          && error == FlushTooEarly && Pending(cfg, h, i) != [] && last.Some? && h[i].at.Some?
          && h[i].at.value < last.value.time
        case Emitted(e) =>
          && Pending(cfg, h, i) != [] && last.Some?
          && e.time == (if h[i].at.None? then last.value.time else h[i].at.value) >= last.value.time
          && e.sequence == -1 && e.factor == 1 && !e.systematic && e.isFlush
      }
  {
    hide Pending, LastTick, Volume, Notional;
    var p := Pending(cfg, h, i);
    LastTickIsRemembered(cfg, h, i);
    ResidualIsPending(cfg, h, i);
    VolumeIsPositive(p);
    if p == [] {
      NoVolume();
    }
  }

  lemma NoVolume()
    ensures Volume([]) == 0.0
  {
  }

  /** A reset that does not flush answers nothing and is never refused. */
  lemma DiscardIsQuiet(cfg: Config, h: seq<Op>, i: nat)
    requires cfg.Valid() && i < |h| && h[i].Reset? && !h[i].flush
    ensures ResultAt(cfg, h, i) == Quiet && ClearedAt(cfg, h, i)
  {
  }
}
