/** What each call of the tuner does, told from the tuner's own figures before and after it:
    when it flushes and what, and which way batch size and interval move. */
module TunerTrail {
  import opened BatchTuner

  /** b is a, moved by the share alpha of the way to the observation x; a first observation
      is taken as it is. */
  predicate Smoothed(a: Average, x: real, alpha: real, b: Average)
  {
    b.seeded && if a.seeded then b.value - a.value == alpha * (x - a.value) else b.value == x
  }

  function Product(x: real, y: real): real { x * y }

  predicate IsFloor(n: int, x: real) { n as real <= x < n as real + 1.0 }

  predicate Due(s: State, now: real) { now - s.lastFlush >= s.timeout }

  /** The first items up to the batch size leave, the rest stay. */
  predicate Flushes(cfg: Config, s: State, queue: seq<Item>, later: real, out: Outcome, s': State)
  {
    && out.Batch? && out.items + s'.queue == queue
    && |out.items| == (if |queue| <= s.batchSize then |queue| else s.batchSize)
    && s'.lastFlush == later && s'.flushEvents == s.flushEvents + 1
    && s'.flushedRecords == s.flushedRecords + |out.items|
  }

  /** The wanted size rounded down, at most the largest. */
  predicate RoundedBelow(n: int, wanted: real, largest: int)
  {
    if wanted >= largest as real then n == largest else IsFloor(n, wanted)
  }

  /** The wanted size rounded down, at least the smallest. */
  predicate RoundedAbove(n: int, wanted: real, smallest: int)
  {
    if wanted <= smallest as real then n == smallest else IsFloor(n, wanted)
  }

  predicate BatchGrows(cfg: Config, b: int, b': int)
  {
    b' >= b && RoundedBelow(b', Product(b as real, cfg.expand), cfg.maxBatch)
  }

  predicate BatchShrinks(cfg: Config, b: int, b': int)
    requires cfg.Valid()
  {
    b' <= b && RoundedAbove(b', b as real / cfg.shrink, cfg.minBatch)
  }

  predicate IntervalShortens(cfg: Config, t: real, t': real)
  {
    var wanted := t * cfg.timeoutReduction;
    t' <= t && t' == if wanted <= cfg.minTimeout then cfg.minTimeout else wanted
  }

  predicate IntervalLengthens(cfg: Config, t: real, t': real)
  {
    var wanted := t * cfg.timeoutIncrease;
    t' >= t && t' == if wanted >= cfg.maxTimeout then cfg.maxTimeout else wanted
  }

  /** Batches that were full on average grow and come sooner, while writes keep to the target;
      batches that were rarely full shrink and come later; nothing else moves either. */
  predicate Moves(cfg: Config, s: State, s': State)
    requires cfg.Valid()
  {
    if s'.batchFill.value > cfg.fillHigh && s.latency.value <= cfg.targetLatency then
      BatchGrows(cfg, s.batchSize, s'.batchSize) && IntervalShortens(cfg, s.timeout, s'.timeout)
    else if s'.batchFill.value < cfg.fillLow then
      BatchShrinks(cfg, s.batchSize, s'.batchSize) && IntervalLengthens(cfg, s.timeout, s'.timeout)
    else s'.batchSize == s.batchSize && s'.timeout == s.timeout
  }

  /** A change of batch size or interval counts as one transition. */
  predicate CountsTransition(s: State, s': State)
  {
    s'.transitions
    == s.transitions + if s'.batchSize == s.batchSize && s'.timeout == s.timeout then 0 else 1
  }

  /** How full the queue is of the batch the tuner would cut, at most one. */
  predicate IsFullness(x: real, queue: seq<Item>, batchSize: int)
    requires batchSize > 0
  {
    if |queue| >= batchSize then x == 1.0 else x == |queue| as real / batchSize as real
  }

  lemma {:induction false} FullnessIs(s: State)
    requires s.batchSize > 0
    ensures IsFullness(Fullness(s), s.queue, s.batchSize)
  {
    RatioAgainstOne(|s.queue|, s.batchSize);
  }

  lemma {:induction false} RatioAgainstOne(n: int, d: int)
    requires d > 0
    ensures n as real / d as real >= 1.0 <==> n >= d
  {
    var q := n as real / d as real;
    assert q * d as real == n as real;
    if q >= 1.0 {
      Monotone(d as real, 1.0, q);
    } else {
      Below(q, d as real);
    }
  }

  lemma Below(q: real, d: real)
    requires q < 1.0 && d > 0.0
    ensures q * d < d
  {
  }

  lemma {:induction false} ObserveSmooths(a: Average, x: real, alpha: real)
    requires alpha <= 1.0
    ensures Smoothed(a, x, alpha, Observe(a, x, alpha))
  {
    if a.seeded && alpha < 1.0 {
      assert alpha * x + (1.0 - alpha) * a.value - a.value == alpha * (x - a.value);
    }
  }

  lemma FloorRounds(x: real, bound: int)
    ensures RoundedBelow(Min(bound, x.Floor), x, bound)
    ensures RoundedAbove(Max(bound, x.Floor), x, bound)
    ensures IsFloor(x.Floor, x)
  {
  }

  lemma StretchIsProduct(t: real, factor: real)
    ensures Stretch(t, factor) == Product(t, factor)
  {
  }

  lemma {:induction false} GrowthIs(cfg: Config, b: int)
    requires cfg.Valid() && cfg.minBatch <= b <= cfg.maxBatch
    ensures BatchGrows(cfg, b, Min(cfg.maxBatch, Scale(b, cfg.expand)))
  {
    hide RoundedBelow, Product, Stretch;
    ScaleBounds(b, cfg.expand);
    StretchIsProduct(b as real, cfg.expand);
    FloorRounds(Product(b as real, cfg.expand), cfg.maxBatch);
  }

  lemma {:induction false} ShrinkageIs(cfg: Config, b: int)
    requires cfg.Valid() && cfg.minBatch <= b <= cfg.maxBatch
    ensures BatchShrinks(cfg, b, Max(cfg.minBatch, Divide(b, cfg.shrink)))
  {
    hide RoundedAbove;
    DivideBounds(b, cfg.shrink);
    FloorRounds(b as real / cfg.shrink, cfg.minBatch);
  }

  lemma {:induction false} IntervalsAre(cfg: Config, t: real)
    requires cfg.Valid() && cfg.minTimeout <= t <= cfg.maxTimeout
    ensures IntervalShortens(cfg, t, MaxReal(cfg.minTimeout, Stretch(t, cfg.timeoutReduction)))
    ensures IntervalLengthens(cfg, t, MinReal(cfg.maxTimeout, Stretch(t, cfg.timeoutIncrease)))
  {
    StretchDown(t, cfg.timeoutReduction);
    StretchUp(t, cfg.timeoutIncrease);
  }

  lemma {:induction false} TuneMoves(cfg: Config, s: State)
    requires cfg.Valid()
    requires cfg.minBatch <= s.batchSize <= cfg.maxBatch && cfg.minTimeout <= s.timeout <= cfg.maxTimeout
    ensures var s' := Tune(cfg, s);
      && Moves(cfg, s, s') && CountsTransition(s, s')
      && s' == s.(batchSize := s'.batchSize, timeout := s'.timeout, transitions := s'.transitions)
  {
    hide BatchGrows, BatchShrinks, IntervalShortens, IntervalLengthens;
    hide Stretch, Divide, Scale, Min, Max, MinReal, MaxReal;
    GrowthIs(cfg, s.batchSize);
    ShrinkageIs(cfg, s.batchSize);
    IntervalsAre(cfg, s.timeout);
  }

  /** A flush that tunes cuts one batch, smooths its fullness in and moves both tunables. */
  lemma {:induction false} FlushTunes(cfg: Config, s: State, later: real)
    requires cfg.Valid() && s.queue != []
    requires cfg.minBatch <= s.batchSize <= cfg.maxBatch && cfg.minTimeout <= s.timeout <= cfg.maxTimeout
    ensures var (batch, s') := FlushAndTune(cfg, s, later);
      && Flushes(cfg, s, s.queue, later, Batch(batch), s')
      && Smoothed(s.batchFill, Fullness(s), cfg.fillAlpha, s'.batchFill)
      && Moves(cfg, s, s') && CountsTransition(s, s')
      && s'.queueFill == s.queueFill && s'.latency == s.latency && s'.closed == s.closed
  {
    hide Fullness, Observe, Tune, Smoothed, Moves;
    ObserveSmooths(s.batchFill, Fullness(s), cfg.fillAlpha);
    var (batch, extracted) := Extract(s, s.batchSize, later);
    var tuned := extracted.(batchFill := Observe(s.batchFill, Fullness(s), cfg.fillAlpha));
    TuneMoves(cfg, tuned);
    SameMoves(cfg, s, tuned, Tune(cfg, tuned));
  }

  lemma SameMoves(cfg: Config, s: State, r: State, s': State)
    requires cfg.Valid() && Moves(cfg, r, s')
    requires s.batchSize == r.batchSize && s.timeout == r.timeout && s.latency == r.latency
    ensures Moves(cfg, s, s')
  {
    hide BatchGrows, BatchShrinks, IntervalShortens, IntervalLengthens;
  }

  /** An item is refused by a closed tuner and by a full queue. Otherwise it joins the queue,
      and a batch is cut exactly when it is the last one the batch needs or the interval since
      the last flush is over. */
  lemma {:induction false} AddsExactly(cfg: Config, start: real, h: seq<Op>, i: nat, next: nat)
    requires cfg.Valid() && i < |h| && next == i + 1 && h[i].Add?
    ensures var (s, s', out) := (StateAt(cfg, start, h, i), StateAt(cfg, start, h, next), OutcomeAt(cfg, start, h, i));
      var queue := s.queue + [h[i].item];
      if s.closed then out == ClosedError && s' == s
      else if |s.queue| >= cfg.maxQueue then out == QueueFull && s' == s
      else
        && Smoothed(s.queueFill, |queue| as real / cfg.queueCapacity as real, cfg.fillAlpha, s'.queueFill)
        && s'.latency == s.latency && !s'.closed
        && if |queue| < s.batchSize && h[i].now - s.lastFlush < s.timeout
           then out == Nothing && s' == s.(queue := queue, queueFill := s'.queueFill)
           else
             && Flushes(cfg, s, queue, h[i].later, out, s') && CountsTransition(s, s') && Moves(cfg, s, s')
             && exists x :: IsFullness(x, queue, s.batchSize) && Smoothed(s.batchFill, x, cfg.fillAlpha, s'.batchFill)
  {
    hide FlushAndTune, Observe, Smoothed, Fullness, IsFullness, Moves;
    var s := StateAt(cfg, start, h, i);
    assert StateAt(cfg, start, h, next) == Step(cfg, s, h[i]).1;
    var queued := Enqueue(cfg, s, h[i].item);
    ObserveSmooths(s.queueFill, |queued.queue| as real / cfg.queueCapacity as real, cfg.fillAlpha);
    FlushTunes(cfg, queued, h[i].later);
    FullnessIs(queued);
    SameMoves(cfg, s, queued.(batchFill := s.batchFill), FlushAndTune(cfg, queued, h[i].later).1);
  }

  /** A poll flushes exactly when the interval since the last flush is over and something
      waits; with nothing waiting it only restarts the interval. */
  lemma {:induction false} PollsExactly(cfg: Config, start: real, h: seq<Op>, i: nat, next: nat)
    requires cfg.Valid() && i < |h| && next == i + 1 && h[i].FlushIfDue?
    ensures var (s, s', out) := (StateAt(cfg, start, h, i), StateAt(cfg, start, h, next), OutcomeAt(cfg, start, h, i));
      if h[i].now - s.lastFlush < s.timeout then out == Nothing && s' == s
      else if s.queue == [] then out == Nothing && s' == s.(lastFlush := h[i].later)
      else
        && Flushes(cfg, s, s.queue, h[i].later, out, s') && CountsTransition(s, s') && Moves(cfg, s, s')
        && s'.queueFill == s.queueFill && s'.latency == s.latency && s'.closed == s.closed
        && exists x :: IsFullness(x, s.queue, s.batchSize) && Smoothed(s.batchFill, x, cfg.fillAlpha, s'.batchFill)
  {
    hide FlushAndTune, Smoothed, Fullness, IsFullness, Moves;
    var s := StateAt(cfg, start, h, i);
    assert StateAt(cfg, start, h, next) == Step(cfg, s, h[i]).1;
    if s.queue != [] {
      FlushTunes(cfg, s, h[i].later);
      FullnessIs(s);
    }
  }

  /** A forced flush cuts one batch and a closing one cuts everything; neither moves the
      tunables. */
  lemma {:induction false} ForcesExactly(cfg: Config, start: real, h: seq<Op>, i: nat, next: nat)
    requires cfg.Valid() && i < |h| && next == i + 1 && (h[i].FlushNow? || h[i].Close?)
    ensures var (s, s', out) := (StateAt(cfg, start, h, i), StateAt(cfg, start, h, next), OutcomeAt(cfg, start, h, i));
      && s'.batchSize == s.batchSize && s'.timeout == s.timeout && s'.transitions == s.transitions
      && s'.latency == s.latency && s'.queueFill == s.queueFill && s'.batchFill == s.batchFill
      && s'.closed == (s.closed || h[i].Close?)
      && if s.queue == [] then out == Batch([]) && s' == s.(closed := s'.closed)
         else if h[i].FlushNow? then Flushes(cfg, s, s.queue, h[i].later, out, s')
         else
           && out == Batch(s.queue) && s'.queue == [] && s'.lastFlush == h[i].later
           && s'.flushEvents == s.flushEvents + 1 && s'.flushedRecords == s.flushedRecords + |s.queue|
  {
    var s := StateAt(cfg, start, h, i);
    assert StateAt(cfg, start, h, next) == Step(cfg, s, h[i]).1;
    assert s.queue[..|s.queue|] == s.queue;
  }

  /** A latency is refused exactly when negative. Otherwise it is smoothed in, and while the
      average is over target the batch shrinks by the multiplier, rounded down. */
  lemma {:induction false} RecordsExactly(cfg: Config, start: real, h: seq<Op>, i: nat, next: nat)
    requires cfg.Valid() && i < |h| && next == i + 1 && h[i].RecordLatency?
    ensures var (s, s', out) := (StateAt(cfg, start, h, i), StateAt(cfg, start, h, next), OutcomeAt(cfg, start, h, i));
      if h[i].ms < 0.0 then out == BadLatency && s' == s
      else
        && out == Nothing && Smoothed(s.latency, h[i].ms, cfg.latencyAlpha, s'.latency)
        && s' == s.(latency := s'.latency, batchSize := s'.batchSize, transitions := s'.transitions)
        && CountsTransition(s, s')
        && if s'.latency.value <= cfg.targetLatency then s'.batchSize == s.batchSize
           else RoundedAbove(s'.batchSize, Product(s.batchSize as real, cfg.throttle), cfg.minBatch)
  {
    hide Observe, Smoothed, RoundedAbove, Product, Stretch;
    var s := StateAt(cfg, start, h, i);
    assert StateAt(cfg, start, h, next) == Step(cfg, s, h[i]).1;
    ObserveSmooths(s.latency, h[i].ms, cfg.latencyAlpha);
    ScaleBounds(s.batchSize, cfg.throttle);
    StretchIsProduct(s.batchSize as real, cfg.throttle);
    FloorRounds(Product(s.batchSize as real, cfg.throttle), cfg.minBatch);
  }

  /** A tuner starts, and starts over after a reset, empty and open at the initial settings. */
  lemma StartsAfresh(cfg: Config, start: real, h: seq<Op>, i: nat)
    requires cfg.Valid() && i <= |h| && (i == 0 || h[i - 1].Reset?)
    ensures var s := StateAt(cfg, start, h, i);
      && s.queue == [] && !s.closed && s.batchSize == cfg.initialBatch && s.timeout == cfg.initialTimeout
      && s.lastFlush == (if i == 0 then start else h[i - 1].later)
      && !s.latency.seeded && !s.queueFill.seeded && !s.batchFill.seeded
      && s.latency.value == s.queueFill.value == s.batchFill.value == 0.0
      && s.flushedRecords == s.flushEvents == s.transitions == 0
  {
  }
}
