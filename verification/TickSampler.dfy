/** The adaptive tick sampler. One symbol is a machine of its own; the engine keeps one
    such machine per symbol in parallel dictionaries. Prices, volumes and times are reals. */
module TickSampler {
  import opened Options

  datatype Config = Config(target: int, enforceSequence: bool)
  {
    predicate Valid() { target >= 1 }
  }

  datatype Tick = Tick(sequence: int, price: real, volume: real, time: real)

  datatype Error = EmptySymbol | BadPrice | BadVolume | SequenceNotIncreasing | TimeWentBack | FlushTooEarly

  /** What is kept for a tracked symbol. */
  datatype Sym = Sym(
    window: int,
    current: int,
    previous: int,
    ticks: int,
    volume: real,
    notional: real,
    lastSequence: int,
    lastTime: real)

  /** Accumulators never go below zero, so an accepted tick leaves a positive volume. */
  predicate Sane(s: Option<Sym>)
  {
    s.Some? ==> s.value.ticks >= 0 && s.value.volume >= 0.0
  }

  datatype Sample = Sample(
    sequence: int,
    time: real,
    price: real,
    volume: real,
    factor: int,
    systematic: bool,
    count: int,
    isFlush: bool)

  datatype Op =
    | Ingest(tick: Tick)
    | Flush(at: Option<real>)
    | Reset(flush: bool, at: Option<real>)

  datatype Result = Rejected(error: Error) | Quiet | Emitted(sample: Sample)

  // ---------------------------------------------------------------- one symbol

  function Second(time: real): int { time.Floor }

  function Ceil(x: real): int { -((-x).Floor) }

  function Check(cfg: Config, s: Option<Sym>, t: Tick): Option<Error>
  {
    if t.price <= 0.0 then Some(BadPrice)
    else if t.volume <= 0.0 then Some(BadVolume)
    else if cfg.enforceSequence && s.Some? && t.sequence <= s.value.lastSequence then Some(SequenceNotIncreasing)
    else if s.Some? && t.time < s.value.lastTime then Some(TimeWentBack)
    else None
  }

  /** The two one-second counters after counting a tick of second `sec`. */
  function Roll(s: Option<Sym>, sec: int): (r: (int, int, int))
  {
    if s.None? then (sec, 1, 0)
    else if sec > s.value.window then
      (sec, 1, if sec - s.value.window == 1 then s.value.current else 0)
    else (s.value.window, s.value.current + 1, s.value.previous)
  }

  function Rate(current: int, previous: int, time: real): real
  {
    previous as real * (1.0 - (time - Second(time) as real)) + current as real
  }

  function Factor(cfg: Config, rate: real): int
    requires cfg.Valid()
  {
    if rate > cfg.target as real then
      var f := Ceil(rate / cfg.target as real);
      if f < 2 then 2 else f
    else 1
  }

  function Fold(cfg: Config, s: Option<Sym>, t: Tick): Sym
  {
    var (window, current, previous) := Roll(s, Second(t.time));
    var (n, v, m) := if s.None? then (0, 0.0, 0.0) else (s.value.ticks, s.value.volume, s.value.notional);
    Sym(window, current, previous, n + 1, v + t.volume, m + t.price * t.volume, t.sequence, t.time)
  }

  function Emptied(s: Sym): Sym { s.(ticks := 0, volume := 0.0, notional := 0.0) }

  function IngestStep(cfg: Config, s: Option<Sym>, t: Tick): (r: (Result, Option<Sym>))
    requires cfg.Valid() && Sane(s)
    ensures Sane(r.1)
  {
    var e := Check(cfg, s, t);
    if e.Some? then (Rejected(e.value), s)
    else
      var s' := Fold(cfg, s, t);
      var rate := Rate(s'.current, s'.previous, t.time);
      var factor := Factor(cfg, rate);
      var systematic := rate > cfg.target as real;
      if s'.ticks < factor && systematic then (Quiet, Some(s'))
      else
        var price := s'.notional / s'.volume;
        (Emitted(Sample(t.sequence, t.time, price, s'.volume, factor, systematic, s'.ticks, false)), Some(Emptied(s')))
  }

  function FlushStep(s: Option<Sym>, at: Option<real>): (Result, Option<Sym>)
  {
    if s.None? || s.value.volume <= 0.0 then (Quiet, s)
    else
      var time := if at.None? then s.value.lastTime else at.value;
      if time < s.value.lastTime then (Rejected(FlushTooEarly), s)
      else (Emitted(Sample(-1, time, s.value.notional / s.value.volume, s.value.volume, 1, false, s.value.ticks, true)),
            Some(Emptied(s.value)))
  }

  function Step(cfg: Config, s: Option<Sym>, op: Op): (r: (Result, Option<Sym>))
    requires cfg.Valid() && Sane(s)
    ensures Sane(r.1)
  {
    match op
    case Ingest(t) => IngestStep(cfg, s, t)
    case Flush(at) => FlushStep(s, at)
    case Reset(flush, at) =>
      if !flush then (Quiet, None)
      else
        var (r, s') := FlushStep(s, at);
        if r.Rejected? then (r, s) else (r, None)
  }

  // ---------------------------------------------------------------- whole runs of one symbol

  function StateAt(cfg: Config, h: seq<Op>, i: nat): (s: Option<Sym>)
    requires cfg.Valid() && i <= |h|
    ensures Sane(s)
  {
    if i == 0 then None else Step(cfg, StateAt(cfg, h, i - 1), h[i - 1]).1
  }

  function ResultAt(cfg: Config, h: seq<Op>, i: nat): Result
    requires cfg.Valid() && i < |h|
  {
    Step(cfg, StateAt(cfg, h, i), h[i]).0
  }

  predicate AcceptedAt(cfg: Config, h: seq<Op>, i: nat)
    requires cfg.Valid() && i < |h|
  {
    h[i].Ingest? && !ResultAt(cfg, h, i).Rejected?
  }

  predicate EmitsAt(cfg: Config, h: seq<Op>, i: nat)
    requires cfg.Valid() && i < |h|
  {
    h[i].Ingest? && ResultAt(cfg, h, i).Emitted?
  }

  /** The symbol is forgotten at i. */
  predicate ClearedAt(cfg: Config, h: seq<Op>, i: nat)
    requires cfg.Valid() && i < |h|
  {
    h[i].Reset? && !ResultAt(cfg, h, i).Rejected?
  }

  function One(b: bool): nat { if b then 1 else 0 }

  /** Ticks of one clock second accepted since the symbol was last reset. */
  function TicksIn(cfg: Config, h: seq<Op>, i: nat, sec: int): nat
    requires cfg.Valid() && i <= |h|
  {
    if i == 0 || ClearedAt(cfg, h, i - 1) then 0
    else
      var counted := AcceptedAt(cfg, h, i - 1) && Second(h[i - 1].tick.time) == sec;
      TicksIn(cfg, h, i - 1, sec) + One(counted)
  }

  /** Aggregates `Ingest` itself emitted in one clock second since the last reset. */
  function EmitsIn(cfg: Config, h: seq<Op>, i: nat, sec: int): nat
    requires cfg.Valid() && i <= |h|
  {
    if i == 0 || ClearedAt(cfg, h, i - 1) then 0
    else
      var counted := EmitsAt(cfg, h, i - 1) && Second(h[i - 1].tick.time) == sec;
      EmitsIn(cfg, h, i - 1, sec) + One(counted)
  }

  // ---------------------------------------------------------------- the two window counters

  ghost predicate WindowsAgree(cfg: Config, h: seq<Op>, i: nat)
    requires cfg.Valid() && i <= |h|
  {
    match StateAt(cfg, h, i)
    case None => forall sec :: TicksIn(cfg, h, i, sec) == 0 && EmitsIn(cfg, h, i, sec) == 0
    case Some(s) =>
      && s.window == Second(s.lastTime)
      && s.current == TicksIn(cfg, h, i, s.window)
      && s.previous == TicksIn(cfg, h, i, s.window - 1)
      && s.current >= 1 && s.previous >= 0
      && forall sec :: sec > s.window ==> TicksIn(cfg, h, i, sec) == 0 && EmitsIn(cfg, h, i, sec) == 0
  }

  /** What an accepted tick does to the machine, apart from the sums. */
  lemma IngestShape(cfg: Config, s: Option<Sym>, t: Tick)
    requires cfg.Valid() && Sane(s)
    ensures var (r, s') := IngestStep(cfg, s, t);
      if Check(cfg, s, t).Some? then r.Rejected? && s' == s
      else
        && s'.Some? && !r.Rejected?
        && (s'.value.window, s'.value.current, s'.value.previous) == Roll(s, Second(t.time))
        && s'.value.lastTime == t.time && s'.value.lastSequence == t.sequence
        && (r.Quiet? ==> s'.value.ticks == 1 + if s.None? then 0 else s.value.ticks)
        && (r.Emitted? ==> s'.value.ticks == 0)
        && (r.Emitted? ==> var held := if s.None? then 0 else s.value.ticks;
              held + 1 >= Factor(cfg, Rate(s'.value.current, s'.value.previous, t.time)))
  {
  }

  /** Anything but an accepted tick or a reset changes at most the accumulators. */
  lemma OtherShape(cfg: Config, s: Option<Sym>, op: Op)
    requires cfg.Valid() && Sane(s)
    requires var r := Step(cfg, s, op).0; r.Rejected? || op.Flush?
    ensures var s' := Step(cfg, s, op).1; s' == s || (s.Some? && s' == Some(Emptied(s.value)))
  {
  }

  lemma {:induction false} WindowsAfterStep(cfg: Config, h: seq<Op>, i: nat)
    requires cfg.Valid() && i < |h| && WindowsAgree(cfg, h, i)
    ensures WindowsAgree(cfg, h, i + 1)
  {
    hide IngestStep, FlushStep, Factor, Rate;
    var s, s' := StateAt(cfg, h, i), StateAt(cfg, h, i + 1);
    assert s' == Step(cfg, s, h[i]).1;
    if AcceptedAt(cfg, h, i) {
      IngestShape(cfg, s, h[i].tick);
      CountsAfterTick(cfg, h, i, i + 1);
      assert s.Some? ==> s.value.window <= Second(h[i].tick.time);
    } else if !ClearedAt(cfg, h, i) {
      OtherShape(cfg, s, h[i]);
      CountsUnchanged(cfg, h, i, i + 1);
    }
  }

  /** The counters equal the numbers of ticks accepted in the current and in the preceding
      clock second, in every reachable state. */
  lemma {:induction false} WindowCountersAreTrueCounts(cfg: Config, h: seq<Op>, i: nat)
    requires cfg.Valid() && i <= |h|
    ensures WindowsAgree(cfg, h, i)
  {
    if i > 0 {
      WindowCountersAreTrueCounts(cfg, h, i - 1);
      WindowsAfterStep(cfg, h, i - 1);
    }
  }

  lemma CountsAfterTick(cfg: Config, h: seq<Op>, i: nat, next: nat)
    requires cfg.Valid() && i < |h| && next == i + 1 && AcceptedAt(cfg, h, i)
    ensures var sec0 := Second(h[i].tick.time);
      && (forall sec :: TicksIn(cfg, h, next, sec) == TicksIn(cfg, h, i, sec) + One(sec0 == sec))
      && (forall sec :: EmitsIn(cfg, h, next, sec) == EmitsIn(cfg, h, i, sec) + One(EmitsAt(cfg, h, i) && sec0 == sec))
  {
  }

  lemma CountsUnchanged(cfg: Config, h: seq<Op>, i: nat, next: nat)
    requires cfg.Valid() && i < |h| && next == i + 1 && !AcceptedAt(cfg, h, i) && !ClearedAt(cfg, h, i)
    ensures forall sec :: TicksIn(cfg, h, next, sec) == TicksIn(cfg, h, i, sec)
    ensures forall sec :: EmitsIn(cfg, h, next, sec) == EmitsIn(cfg, h, i, sec)
  {
  }

  // ---------------------------------------------------------------- the output rate

  function CeilDiv(n: int, d: int): int
    requires d >= 1
  {
    (n + d - 1) / d
  }

  /** Sum of ceil(T / j) for j = 1..m. */
  function Harmonic(T: int, m: int): int
    requires T >= 1
    decreases m
  {
    if m <= 0 then 0 else Harmonic(T, m - 1) + CeilDiv(T, m)
  }

  lemma {:induction false} CeilDivBounds(n: int, d: int)
    requires d >= 1
    ensures (CeilDiv(n, d) - 1) * d < n <= CeilDiv(n, d) * d
  {
    var q := (n + d - 1) / d;
    assert n + d - 1 == q * d + (n + d - 1) % d;
  }

  lemma {:induction false} CeilDivUnique(n: int, d: int, j: int)
    requires d >= 1 && (j - 1) * d < n <= j * d
    ensures CeilDiv(n, d) == j
  {
    var c := CeilDiv(n, d);
    CeilDivBounds(n, d);
    if c < j {
      Product(d, c, j - 1);
    } else if j < c {
      Product(d, j, c - 1);
    }
  }

  lemma Product(d: int, x: int, y: int)
    requires d >= 0 && x <= y
    ensures x * d <= y * d
  {
  }

  /** At the n-th tick of a second the sampling factor is at least ceil(n / T). */
  lemma {:induction false} FactorGrows(cfg: Config, n: int, previous: int, time: real, j: int)
    requires cfg.Valid() && n >= 1 && previous >= 0 && j >= 1 && (j - 1) * cfg.target < n
    ensures j <= Factor(cfg, Rate(n, previous, time))
  {
    var rate, target := Rate(n, previous, time), cfg.target as real;
    RateAtLeastCount(n, previous, time);
    if j >= 2 {
      Product(cfg.target, 1, j - 1);
      var q := rate / target;
      assert q > (j - 1) as real by {
        QuotientAbove(rate, target, (j - 1) as real);
      }
    }
  }

  lemma {:induction false} QuotientAbove(x: real, y: real, z: real)
    requires y > 0.0 && z * y < x
    ensures x / y > z
  {
    var q := x / y;
    assert q * y == x;
    if q <= z {
      ProductReal(y, q, z);
    }
  }

  lemma ProductReal(d: real, x: real, y: real)
    requires d >= 0.0 && x <= y
    ensures x * d <= y * d
  {
  }

  lemma {:induction false} RateAtLeastCount(n: int, previous: int, time: real)
    requires previous >= 0
    ensures Rate(n, previous, time) >= n as real
  {
    var left := 1.0 - (time - Second(time) as real);
    assert left >= 0.0;
    NonNegative(previous as real, left);
  }

  lemma NonNegative(x: real, y: real)
    requires x >= 0.0 && y >= 0.0
    ensures x * y >= 0.0
  {
  }

  /** After r ticks of a group in which the sampling factor is at least j, `extra` of them
      emitting and `waiting` held back since, emissions lie at least j ticks apart. */
  predicate Spaced(j: int, r: int, extra: int, waiting: int)
  {
    extra >= 1 ==> (extra - 1) * j + 1 + waiting <= r
  }

  lemma {:induction false} SpacedNext(j: int, r: int, extra: int, waiting: int, emitted: bool)
    requires r >= 0 && waiting >= 0 && Spaced(j, r, extra, waiting) && (emitted ==> waiting + 1 >= j)
    ensures Spaced(j, r + 1, extra + One(emitted), if emitted then 0 else waiting + 1)
  {
    NextMultiple(extra - 1, j);
  }

  lemma {:induction false} SpacedBound(T: int, j: int, r: int, extra: int, waiting: int)
    requires T >= 1 && j >= 1 && waiting >= 0 && r <= T && Spaced(j, r, extra, waiting)
    ensures extra <= CeilDiv(T, j)
  {
    CeilDivBounds(T, j);
    if extra > CeilDiv(T, j) {
      Product(j, CeilDiv(T, j), extra - 1);
    }
  }

  /** Bookkeeping of one clock second after n ticks: its j-th group of T ticks, j being
      ceil(n / T), is spaced, and the groups before it kept their allowances. */
  predicate Paced(T: int, n: int, emits: int, waiting: int)
    requires T >= 1
  {
    var j := CeilDiv(n, T);
    Spaced(j, n - (j - 1) * T, emits - Harmonic(T, j - 1), waiting)
  }

  lemma {:induction false} GroupBounds(T: int, n: int)
    requires T >= 1 && n >= 1
    ensures var j := CeilDiv(n, T); j >= 1 && 1 <= n - (j - 1) * T <= T
  {
    var j := CeilDiv(n, T);
    CeilDivBounds(n, T);
    NextMultiple(j - 1, T);
    if j < 1 {
      Product(T, j, 0);
    }
  }

  lemma {:induction false} PacedWithinBound(T: int, n: int, emits: int, waiting: int)
    requires T >= 1 && n >= 1 && waiting >= 0 && Paced(T, n, emits, waiting)
    ensures emits <= Harmonic(T, CeilDiv(n, T))
  {
    hide CeilDiv, Spaced;
    var j := CeilDiv(n, T);
    GroupBounds(T, n);
    SpacedBound(T, j, n - (j - 1) * T, emits - Harmonic(T, j - 1), waiting);
  }

  /** The next tick of the same second, within the same group of T ticks or opening the next. */
  lemma {:induction false} PacedNext(T: int, n: int, emits: int, waiting: int, emitted: bool, factor: int)
    requires T >= 1 && n >= 1 && waiting >= 0 && Paced(T, n, emits, waiting)
    requires factor >= CeilDiv(n + 1, T)
    requires emitted ==> waiting + 1 >= factor
    ensures Paced(T, n + 1, emits + One(emitted), if emitted then 0 else waiting + 1)
  {
    hide CeilDiv, Spaced;
    var j := CeilDiv(n, T);
    GroupBounds(T, n);
    if n + 1 <= j * T {
      CeilDivUnique(n + 1, T, j);
      SpacedNext(j, n - (j - 1) * T, emits - Harmonic(T, j - 1), waiting, emitted);
    } else {
      NextMultiple(j - 1, T);
      NextMultiple(j, T);
      CeilDivUnique(n + 1, T, j + 1);
      PacedWithinBound(T, n, emits, waiting);
      SpacedFirst(j + 1, emits - Harmonic(T, j), emitted, waiting + 1);
    }
  }

  lemma SpacedFirst(j: int, before: int, emitted: bool, waiting: int)
    requires before <= 0
    ensures Spaced(j, 1, before + One(emitted), if emitted then 0 else waiting)
  {
  }

  lemma NextMultiple(x: int, j: int)
    ensures (x + 1) * j == x * j + j
  {
  }

  lemma {:induction false} PacedFirst(T: int, emitted: bool, waiting: int)
    requires T >= 1 && (emitted ==> waiting == 0)
    ensures Paced(T, 1, One(emitted), waiting)
  {
    CeilDivUnique(1, T, 1);
  }

  lemma PacedWithLess(T: int, n: int, emits: int, waiting: int, less: int)
    requires T >= 1 && Paced(T, n, emits, waiting) && less <= waiting
    ensures Paced(T, n, emits, less)
  {
  }

  lemma {:induction false} NoTicksNoAllowance(T: int)
    requires T >= 1
    ensures Harmonic(T, CeilDiv(0, T)) == 0
  {
    CeilDivUnique(0, T, 0);
  }

  ghost predicate RatesHold(cfg: Config, h: seq<Op>, i: nat)
    requires cfg.Valid() && i <= |h|
  {
    && (forall sec :: EmitsIn(cfg, h, i, sec) <= Harmonic(cfg.target, CeilDiv(TicksIn(cfg, h, i, sec), cfg.target)))
    && match StateAt(cfg, h, i)
       case None => true
       case Some(s) => Paced(cfg.target, s.current, EmitsIn(cfg, h, i, s.window), s.ticks)
  }

  lemma {:induction false} RatesAfterTick(cfg: Config, h: seq<Op>, i: nat)
    requires cfg.Valid() && i < |h| && RatesHold(cfg, h, i) && AcceptedAt(cfg, h, i)
    ensures RatesHold(cfg, h, i + 1)
  {
    hide IngestStep, FlushStep, Factor, Rate, CeilDiv, Harmonic, Paced;
    var s, t := StateAt(cfg, h, i), h[i].tick;
    assert StateAt(cfg, h, i + 1) == Step(cfg, s, h[i]).1;
    IngestShape(cfg, s, t);
    var s', emitted := StateAt(cfg, h, i + 1).value, EmitsAt(cfg, h, i);
    var sec0, T := Second(t.time), cfg.target;
    WindowCountersAreTrueCounts(cfg, h, i);
    WindowCountersAreTrueCounts(cfg, h, i + 1);
    CountsAfterTick(cfg, h, i, i + 1);
    if s.Some? && s.value.window == sec0 {
      var n := s.value.current;
      GroupBounds(T, n + 1);
      CeilDivBounds(n + 1, T);
      FactorGrows(cfg, n + 1, s'.previous, t.time, CeilDiv(n + 1, T));
      PacedNext(T, n, EmitsIn(cfg, h, i, sec0), s.value.ticks, emitted, Factor(cfg, Rate(n + 1, s'.previous, t.time)));
    } else {
      PacedFirst(T, emitted, s'.ticks);
    }
    PacedWithinBound(T, s'.current, EmitsIn(cfg, h, i + 1, sec0), s'.ticks);
  }

  lemma {:induction false} RatesAfterOther(cfg: Config, h: seq<Op>, i: nat)
    requires cfg.Valid() && i < |h| && RatesHold(cfg, h, i)
    requires !AcceptedAt(cfg, h, i) && !ClearedAt(cfg, h, i)
    ensures RatesHold(cfg, h, i + 1)
  {
    hide IngestStep, FlushStep, CeilDiv, Harmonic, Paced;
    var s := StateAt(cfg, h, i);
    assert StateAt(cfg, h, i + 1) == Step(cfg, s, h[i]).1;
    OtherShape(cfg, s, h[i]);
    CountsUnchanged(cfg, h, i, i + 1);
    if s.Some? {
      PacedWithLess(cfg.target, s.value.current, EmitsIn(cfg, h, i, s.value.window), s.value.ticks, 0);
    }
  }

  /** Whatever the preceding second held, a second in which n ticks are accepted sees at most
      the sum of ceil(T / j), j = 1..ceil(n / T), aggregates from `Ingest`. */
  lemma {:induction false} OutputRateIsBounded(cfg: Config, h: seq<Op>, i: nat)
    requires cfg.Valid() && i <= |h|
    ensures RatesHold(cfg, h, i)
  {
    hide IngestStep, FlushStep, CeilDiv;
    if i == 0 {
      NoTicksNoAllowance(cfg.target);
    } else {
      OutputRateIsBounded(cfg, h, i - 1);
      if AcceptedAt(cfg, h, i - 1) {
        RatesAfterTick(cfg, h, i - 1);
      } else if ClearedAt(cfg, h, i - 1) {
        NoTicksNoAllowance(cfg.target);
      } else {
        RatesAfterOther(cfg, h, i - 1);
      }
    }
  }

  // ---------------------------------------------------------------- conservation

  function Times(x: real, y: real): real { x * y }

  function Volume(ts: seq<Tick>): real
  {
    if ts == [] then 0.0 else Volume(ts[..|ts| - 1]) + ts[|ts| - 1].volume
  }

  function Notional(ts: seq<Tick>): real
  {
    if ts == [] then 0.0 else Notional(ts[..|ts| - 1]) + Times(ts[|ts| - 1].price, ts[|ts| - 1].volume)
  }

  predicate Tradable(ts: seq<Tick>)
  {
    forall i :: 0 <= i < |ts| ==> ts[i].price > 0.0 && ts[i].volume > 0.0
  }

  predicate PricesWithin(ts: seq<Tick>, lo: real, hi: real)
  {
    forall i :: 0 <= i < |ts| ==> lo <= ts[i].price <= hi
  }

  /** Ticks accepted but not yet part of any aggregate. */
  function Pending(cfg: Config, h: seq<Op>, i: nat): seq<Tick>
    requires cfg.Valid() && i <= |h|
  {
    if i == 0 || ClearedAt(cfg, h, i - 1) || ResultAt(cfg, h, i - 1).Emitted? then []
    else if AcceptedAt(cfg, h, i - 1) then Pending(cfg, h, i - 1) + [h[i - 1].tick]
    else Pending(cfg, h, i - 1)
  }

  /** The ticks an emission at i stands for. */
  function Block(cfg: Config, h: seq<Op>, i: nat): seq<Tick>
    requires cfg.Valid() && i < |h|
  {
    Pending(cfg, h, i) + if h[i].Ingest? then [h[i].tick] else []
  }

  predicate DiscardsAt(h: seq<Op>, i: nat)
    requires i < |h|
  {
    h[i].Reset? && !h[i].flush
  }

  /** Accepted ticks since the last discarding reset. */
  function Accepted(cfg: Config, h: seq<Op>, i: nat): seq<Tick>
    requires cfg.Valid() && i <= |h|
  {
    if i == 0 || DiscardsAt(h, i - 1) then []
    else Accepted(cfg, h, i - 1) + if AcceptedAt(cfg, h, i - 1) then [h[i - 1].tick] else []
  }

  /** The blocks of all emissions since the last discarding reset. */
  function Blocks(cfg: Config, h: seq<Op>, i: nat): seq<seq<Tick>>
    requires cfg.Valid() && i <= |h|
  {
    if i == 0 || DiscardsAt(h, i - 1) then []
    else Blocks(cfg, h, i - 1) + if ResultAt(cfg, h, i - 1).Emitted? then [Block(cfg, h, i - 1)] else []
  }

  function Flatten(bs: seq<seq<Tick>>): seq<Tick>
  {
    if bs == [] then [] else Flatten(bs[..|bs| - 1]) + bs[|bs| - 1]
  }

  /** The accumulators describe these ticks. */
  ghost predicate Holds(s: Option<Sym>, p: seq<Tick>)
  {
    && Tradable(p)
    && match s
       case None => p == []
       case Some(v) => v.ticks == |p| && v.volume == Volume(p) && v.notional == Notional(p)
  }

  ghost predicate ResidualMatches(cfg: Config, h: seq<Op>, i: nat)
    requires cfg.Valid() && i <= |h|
  {
    Holds(StateAt(cfg, h, i), Pending(cfg, h, i))
  }

  /** An aggregate is faithful to its ticks: count, volume and notional are theirs, and its
      price lies between their least and greatest price. */
  ghost predicate Represents(e: Sample, b: seq<Tick>)
  {
    && b != [] && e.count == |b| && e.volume == Volume(b) && e.price * e.volume == Notional(b)
    && (forall lo, hi :: PricesWithin(b, lo, hi) ==> lo <= e.price <= hi)
    && (!e.isFlush ==> e.sequence == b[|b| - 1].sequence && e.time == b[|b| - 1].time)
  }

  lemma {:induction false} VolumeIsPositive(ts: seq<Tick>)
    requires Tradable(ts)
    ensures Volume(ts) >= 0.0 && (ts != [] ==> Volume(ts) > 0.0)
  {
    if ts != [] {
      VolumeIsPositive(ts[..|ts| - 1]);
    }
  }

  lemma {:induction false} NotionalWithin(ts: seq<Tick>, lo: real, hi: real)
    requires Tradable(ts) && PricesWithin(ts, lo, hi)
    ensures Times(lo, Volume(ts)) <= Notional(ts)
    ensures Notional(ts) <= Times(hi, Volume(ts))
  {
    hide Times;
    if ts == [] {
      TimesZero(lo);
      TimesZero(hi);
    } else {
      var front, t := ts[..|ts| - 1], ts[|ts| - 1];
      NotionalWithin(front, lo, hi);
      LowerStep(lo, Volume(front), Notional(front), t.price, t.volume);
      UpperStep(hi, Volume(front), Notional(front), t.price, t.volume);
    }
  }

  lemma TimesZero(x: real)
    ensures Times(x, 0.0) == 0.0
  {
  }

  lemma {:induction false} LowerStep(lo: real, v: real, n: real, price: real, dv: real)
    requires Times(lo, v) <= n && lo <= price && 0.0 < dv
    ensures Times(lo, v + dv) <= n + Times(price, dv)
  {
    ProductReal(dv, lo, price);
    DistributeReal(lo, v, dv);
  }

  lemma {:induction false} UpperStep(hi: real, v: real, n: real, price: real, dv: real)
    requires n <= Times(hi, v) && price <= hi && 0.0 < dv
    ensures n + Times(price, dv) <= Times(hi, v + dv)
  {
    ProductReal(dv, price, hi);
    DistributeReal(hi, v, dv);
  }

  lemma DistributeReal(a: real, x: real, y: real)
    ensures a * (x + y) == a * x + a * y
  {
  }

  lemma QuotientTimes(n: real, v: real)
    requires v != 0.0
    ensures (n / v) * v == n
  {
  }

  lemma {:induction false} QuotientWithin(n: real, v: real, lo: real, hi: real)
    requires v > 0.0 && lo * v <= n <= hi * v
    ensures lo <= n / v
    ensures n / v <= hi
  {
    var q := n / v;
    assert q * v == n;
    if q < lo { ProductStrict(v, q, lo); }
    if q > hi { ProductStrict(v, hi, q); }
  }

  lemma ProductStrict(d: real, x: real, y: real)
    requires d > 0.0 && x < y
    ensures x * d < y * d
  {
  }

  /** The volume-weighted price of a block represents it. */
  lemma {:induction false} AverageRepresents(e: Sample, b: seq<Tick>)
    requires Tradable(b) && b != []
    requires e.count == |b| && e.volume == Volume(b) != 0.0 && e.price == Notional(b) / e.volume
    requires !e.isFlush ==> e.sequence == b[|b| - 1].sequence && e.time == b[|b| - 1].time
    ensures Represents(e, b)
  {
    hide Volume, Notional;
    VolumeIsPositive(b);
    QuotientTimes(Notional(b), e.volume);
    forall lo, hi | PricesWithin(b, lo, hi) ensures lo <= e.price <= hi {
      NotionalWithin(b, lo, hi);
      QuotientWithin(Notional(b), Volume(b), lo, hi);
    }
  }

  lemma {:induction false} AppendSums(ts: seq<Tick>, t: Tick)
    ensures Volume(ts + [t]) == Volume(ts) + t.volume
    ensures Notional(ts + [t]) == Notional(ts) + t.price * t.volume
  {
    assert (ts + [t])[..|ts|] == ts;
  }

  /** Accumulators after a tick, before anything is emitted. */
  lemma {:induction false} FoldMatches(cfg: Config, s: Option<Sym>, p: seq<Tick>, t: Tick)
    requires Holds(s, p) && t.price > 0.0 && t.volume > 0.0
    ensures Holds(Some(Fold(cfg, s, t)), p + [t])
  {
    hide Roll;
    AppendSums(p, t);
  }

  lemma {:induction false} IngestRepresents(cfg: Config, s: Option<Sym>, p: seq<Tick>, t: Tick)
    requires cfg.Valid() && Sane(s) && Holds(s, p) && Check(cfg, s, t).None?
    ensures var (r, s') := IngestStep(cfg, s, t);
      && (r.Emitted? ==> Represents(r.sample, p + [t]))
      && Holds(s', if r.Emitted? then [] else p + [t])
  {
    hide Factor, Rate, Fold, Represents, Volume, Notional;
    var b := p + [t];
    FoldMatches(cfg, s, p, t);
    VolumeIsPositive(b);
    EmptiedHolds(Fold(cfg, s, t));
    FoldedSample(cfg, s, t);
    var (r, s') := IngestStep(cfg, s, t);
    if r.Emitted? {
      AverageRepresents(r.sample, b);
    }
  }

  lemma FoldedSample(cfg: Config, s: Option<Sym>, t: Tick)
    ensures Fold(cfg, s, t).lastSequence == t.sequence && Fold(cfg, s, t).lastTime == t.time
  {
  }

  lemma EmptiedHolds(v: Sym)
    ensures Holds(Some(Emptied(v)), [])
  {
  }

  lemma {:induction false} FlushRepresents(s: Option<Sym>, p: seq<Tick>, at: Option<real>)
    requires Sane(s) && Holds(s, p)
    ensures var (r, s') := FlushStep(s, at);
      && (r.Emitted? ==> Represents(r.sample, p))
      && (r.Quiet? ==> p == [])
      && Holds(s', if r.Emitted? then [] else p)
  {
    hide Represents, Volume, Notional;
    VolumeIsPositive(p);
    var r := FlushStep(s, at).0;
    if r.Emitted? {
      EmptiedHolds(s.value);
      AverageRepresents(r.sample, p);
    }
  }

  lemma NothingHeld()
    ensures Holds(None, [])
  {
  }

  lemma {:induction false} StepRepresents(cfg: Config, h: seq<Op>, i: nat, next: nat)
    requires cfg.Valid() && i < |h| && next == i + 1 && ResidualMatches(cfg, h, i)
    ensures ResidualMatches(cfg, h, next)
    ensures ResultAt(cfg, h, i).Emitted? ==> Represents(ResultAt(cfg, h, i).sample, Block(cfg, h, i))
    ensures h[i].Reset? && h[i].flush && ResultAt(cfg, h, i).Quiet? ==> Pending(cfg, h, i) == []
  {
    hide IngestStep, FlushStep, Represents, Holds, Pending, Check;
    var s, p := StateAt(cfg, h, i), Pending(cfg, h, i);
    PendingAfter(cfg, h, i, next);
    assert p + [] == p;
    NothingHeld();
    match h[i]
    case Ingest(t) =>
      IngestShape(cfg, s, t);
      if Check(cfg, s, t).None? {
        IngestRepresents(cfg, s, p, t);
      }
    case Flush(at) =>
      FlushRepresents(s, p, at);
    case Reset(flush, at) =>
      FlushRepresents(s, p, at);
  }

  lemma NothingPending(cfg: Config, h: seq<Op>)
    requires cfg.Valid()
    ensures ResidualMatches(cfg, h, 0)
  {
  }

  /** Residual accumulators always describe the pending ticks. */
  lemma {:induction false} ResidualIsPending(cfg: Config, h: seq<Op>, i: nat)
    requires cfg.Valid() && i <= |h|
    ensures ResidualMatches(cfg, h, i)
  {
    hide ResidualMatches;
    if i == 0 {
      NothingPending(cfg, h);
    } else {
      ResidualIsPending(cfg, h, i - 1);
      StepRepresents(cfg, h, i - 1, i);
    }
  }

  /** Every aggregate, flushed or not, represents its block. */
  lemma {:induction false} EveryEmissionRepresents(cfg: Config, h: seq<Op>, i: nat)
    requires cfg.Valid() && i < |h| && ResultAt(cfg, h, i).Emitted?
    ensures Represents(ResultAt(cfg, h, i).sample, Block(cfg, h, i))
  {
    hide ResidualMatches, Represents, ResultAt;
    ResidualIsPending(cfg, h, i);
    StepRepresents(cfg, h, i, i + 1);
  }

  /** The blocks emitted, followed by the pending ticks, are the accepted ticks in order:
      nothing is lost, repeated or reordered unless a reset discards. */
  lemma {:induction false} BlocksPartitionTicks(cfg: Config, h: seq<Op>, i: nat)
    requires cfg.Valid() && i <= |h|
    ensures Flatten(Blocks(cfg, h, i)) + Pending(cfg, h, i) == Accepted(cfg, h, i)
  {
    hide Step, Represents, ResidualMatches;
    if i > 0 {
      BlocksPartitionTicks(cfg, h, i - 1);
      ResidualIsPending(cfg, h, i - 1);
      StepRepresents(cfg, h, i - 1, i);
      PartitionStep(cfg, h, i - 1);
    }
  }

  lemma FlattenAppend(bs: seq<seq<Tick>>, b: seq<Tick>)
    ensures Flatten(bs + [b]) == Flatten(bs) + b
  {
    assert (bs + [b])[..|bs|] == bs;
  }

  lemma BlocksAfter(cfg: Config, h: seq<Op>, i: nat, next: nat)
    requires cfg.Valid() && i < |h| && next == i + 1
    ensures Blocks(cfg, h, next)
      == if DiscardsAt(h, i) then []
         else Blocks(cfg, h, i) + if ResultAt(cfg, h, i).Emitted? then [Block(cfg, h, i)] else []
  {
  }

  lemma AcceptedAfter(cfg: Config, h: seq<Op>, i: nat, next: nat)
    requires cfg.Valid() && i < |h| && next == i + 1
    ensures Accepted(cfg, h, next)
      == if DiscardsAt(h, i) then []
         else Accepted(cfg, h, i) + if AcceptedAt(cfg, h, i) then [h[i].tick] else []
  {
  }

  lemma PendingAfter(cfg: Config, h: seq<Op>, i: nat, next: nat)
    requires cfg.Valid() && i < |h| && next == i + 1
    ensures Pending(cfg, h, next)
      == if ClearedAt(cfg, h, i) || ResultAt(cfg, h, i).Emitted? then []
         else Pending(cfg, h, i) + if AcceptedAt(cfg, h, i) then [h[i].tick] else []
  {
    assert Pending(cfg, h, i) + [] == Pending(cfg, h, i);
  }

  lemma DiscardIsClear(cfg: Config, h: seq<Op>, i: nat)
    requires cfg.Valid() && i < |h| && DiscardsAt(h, i)
    ensures ClearedAt(cfg, h, i)
  {
  }

  /** Ingestion puts its tick at the end, in a block of its own or pending. */
  lemma {:induction false} IngestPartitions(f: seq<Tick>, p: seq<Tick>, a: seq<Tick>, t: Tick)
    requires f + p == a
    ensures f + (p + [t]) == a + [t]
  {
    assert f + (p + [t]) == f + p + [t];
  }

  lemma {:induction false} PartitionStep(cfg: Config, h: seq<Op>, i: nat)
    requires cfg.Valid() && i < |h|
    requires Flatten(Blocks(cfg, h, i)) + Pending(cfg, h, i) == Accepted(cfg, h, i)
    requires h[i].Reset? && h[i].flush && ResultAt(cfg, h, i).Quiet? ==> Pending(cfg, h, i) == []
    ensures Flatten(Blocks(cfg, h, i + 1)) + Pending(cfg, h, i + 1) == Accepted(cfg, h, i + 1)
  {
    hide Flatten, Accepted, Blocks, Pending, ResultAt;
    BlocksAfter(cfg, h, i, i + 1);
    AcceptedAfter(cfg, h, i, i + 1);
    PendingAfter(cfg, h, i, i + 1);
    var bs, p, a, r := Blocks(cfg, h, i), Pending(cfg, h, i), Accepted(cfg, h, i), ResultAt(cfg, h, i);
    FlattenAppend(bs, Block(cfg, h, i));
    assert bs + [] == bs && p + [] == p && a + [] == a;
    if DiscardsAt(h, i) {
      DiscardIsClear(cfg, h, i);
      NothingFlattened();
    } else if h[i].Ingest? {
      IngestPartitions(Flatten(bs), p, a, h[i].tick);
    }
  }

  lemma NothingFlattened()
    ensures Flatten([]) + [] == []
  {
  }

  // ---------------------------------------------------------------- totals

  datatype Total = Count | TotalVolume | TotalNotional

  function TotalOf(m: Total, ts: seq<Tick>): real
  {
    match m
    case Count => |ts| as real
    case TotalVolume => Volume(ts)
    case TotalNotional => Notional(ts)
  }

  function Carried(m: Total, e: Sample): real
  {
    match m
    case Count => e.count as real
    case TotalVolume => e.volume
    case TotalNotional => Times(e.price, e.volume)
  }

  function Residual(m: Total, s: Option<Sym>): real
  {
    if s.None? then 0.0
    else
      match m
      case Count => s.value.ticks as real
      case TotalVolume => s.value.volume
      case TotalNotional => s.value.notional
  }

  /** What all aggregates since the last discarding reset carry. */
  function EmittedTotal(m: Total, cfg: Config, h: seq<Op>, i: nat): real
    requires cfg.Valid() && i <= |h|
  {
    if i == 0 || DiscardsAt(h, i - 1) then 0.0
    else
      var r := ResultAt(cfg, h, i - 1);
      EmittedTotal(m, cfg, h, i - 1) + if r.Emitted? then Carried(m, r.sample) else 0.0
  }

  lemma {:induction false} TotalConcat(m: Total, a: seq<Tick>, b: seq<Tick>)
    ensures TotalOf(m, a + b) == TotalOf(m, a) + TotalOf(m, b)
  {
    hide Times;
    if b == [] {
      assert a + b == a;
    } else {
      TotalConcat(m, a, b[..|b| - 1]);
      assert (a + b)[..|a + b| - 1] == a + b[..|b| - 1];
    }
  }

  lemma {:induction false} EmittedIsBlocks(m: Total, cfg: Config, h: seq<Op>, i: nat)
    requires cfg.Valid() && i <= |h|
    ensures EmittedTotal(m, cfg, h, i) == TotalOf(m, Flatten(Blocks(cfg, h, i)))
  {
    hide Step, ResultAt, TotalOf, Block, Flatten, Carried;
    if i == 0 || DiscardsAt(h, i - 1) {
      NoTotal(m);
    } else {
      EmittedIsBlocks(m, cfg, h, i - 1);
      BlocksAfter(cfg, h, i - 1, i);
      var bs := Blocks(cfg, h, i - 1);
      assert bs + [] == bs;
      if ResultAt(cfg, h, i - 1).Emitted? {
        var b := Block(cfg, h, i - 1);
        EveryEmissionRepresents(cfg, h, i - 1);
        CarriesItsBlock(m, ResultAt(cfg, h, i - 1).sample, b);
        FlattenAppend(bs, b);
        TotalConcat(m, Flatten(bs), b);
      }
    }
  }

  lemma CarriesItsBlock(m: Total, e: Sample, b: seq<Tick>)
    requires Represents(e, b)
    ensures Carried(m, e) == TotalOf(m, b)
  {
  }

  lemma NoTotal(m: Total)
    ensures TotalOf(m, Flatten([])) == 0.0
  {
  }

  lemma ResidualIsTotal(m: Total, cfg: Config, h: seq<Op>, i: nat)
    requires cfg.Valid() && i <= |h| && ResidualMatches(cfg, h, i)
    ensures Residual(m, StateAt(cfg, h, i)) == TotalOf(m, Pending(cfg, h, i))
  {
  }

  /** Emitted plus residual count, volume and notional are those of the ticks accepted since
      the last discarding reset. */
  lemma {:induction false} TotalsAreConserved(m: Total, cfg: Config, h: seq<Op>, i: nat)
    requires cfg.Valid() && i <= |h|
    ensures EmittedTotal(m, cfg, h, i) + Residual(m, StateAt(cfg, h, i)) == TotalOf(m, Accepted(cfg, h, i))
  {
    hide EmittedTotal, Residual, TotalOf, Accepted, Pending, Blocks, Flatten, StateAt;
    EmittedIsBlocks(m, cfg, h, i);
    ResidualIsPending(cfg, h, i);
    ResidualIsTotal(m, cfg, h, i);
    BlocksPartitionTicks(cfg, h, i);
    TotalConcat(m, Flatten(Blocks(cfg, h, i)), Pending(cfg, h, i));
  }

  /** Later operations do not change earlier states. */
  lemma {:induction false} HistoryExtends(cfg: Config, h: seq<Op>, op: Op, i: nat)
    requires cfg.Valid() && i <= |h|
    ensures StateAt(cfg, h + [op], i) == StateAt(cfg, h, i)
  {
    hide Step;
    if i > 0 {
      HistoryExtends(cfg, h, op, i - 1);
    }
  }

  lemma {:induction false} NextState(cfg: Config, h: seq<Op>, op: Op)
    requires cfg.Valid()
    ensures var (r, s) := Step(cfg, StateAt(cfg, h, |h|), op);
      StateAt(cfg, h + [op], |h + [op]|) == s && ResultAt(cfg, h + [op], |h|) == r
  {
    hide Step;
    HistoryExtends(cfg, h, op, |h|);
  }
}
