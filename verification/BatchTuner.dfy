/** The adaptive batch tuner: a FIFO buffer whose flush size and interval follow a fill
    signal and a latency throttle. Clock readings are inputs; items are their identities. */
module BatchTuner {

  type Item = int

  datatype Config = Config(
    minBatch: int, maxBatch: int, initialBatch: int,
    minTimeout: real, maxTimeout: real, initialTimeout: real,
    targetLatency: real, latencyAlpha: real,
    queueCapacity: int, maxQueue: int,
    fillLow: real, fillHigh: real, fillAlpha: real,
    expand: real, shrink: real,
    throttle: real, timeoutReduction: real, timeoutIncrease: real)
  {
    predicate Valid()
    {
      && 0 < minBatch <= initialBatch <= maxBatch
      && 0.0 < minTimeout <= initialTimeout <= maxTimeout
      && 0.0 < targetLatency && 0.0 < latencyAlpha <= 1.0 && 0.0 < fillAlpha <= 1.0
      && 0.0 < fillLow < fillHigh < 1.0
      && 0 < queueCapacity <= maxQueue
      && 1.0 < expand && 1.0 < shrink
      && 0.0 < throttle < 1.0 && 0.0 < timeoutReduction < 1.0 && 1.0 < timeoutIncrease
    }
  }

  /** An EWMA is nothing until its first observation seeds it. */
  datatype Average = Average(value: real, seeded: bool)

  datatype State = State(
    queue: seq<Item>,
    closed: bool,
    batchSize: int,
    timeout: real,
    lastFlush: real,
    latency: Average,
    queueFill: Average,
    batchFill: Average,
    flushedRecords: nat,
    flushEvents: nat,
    transitions: nat)

  /** `now` is the reading that decides, `later` the one that stamps a flush. */
  datatype Op =
    | Add(item: Item, now: real, later: real)
    | FlushIfDue(now: real, later: real)
    | FlushNow(later: real)
    | Close(later: real)
    | RecordLatency(ms: real)
    | Reset(later: real)

  datatype Outcome = Batch(items: seq<Item>) | Nothing | ClosedError | QueueFull | BadLatency

  const UNSEEDED := Average(0.0, false)

  function Fresh(cfg: Config, now: real): State
  {
    State([], false, cfg.initialBatch, cfg.initialTimeout, now, UNSEEDED, UNSEEDED, UNSEEDED, 0, 0, 0)
  }

  // ---------------------------------------------------------------- arithmetic

  function Max(a: int, b: int): int { if a < b then b else a }

  function Min(a: int, b: int): int { if a < b then a else b }

  function MaxReal(a: real, b: real): real { if a < b then b else a }

  function MinReal(a: real, b: real): real { if a < b then a else b }

  function Observe(a: Average, x: real, alpha: real): Average
  {
    Average(if !a.seeded || alpha >= 1.0 then x else alpha * x + (1.0 - alpha) * a.value, true)
  }

  /** int(n * factor) for the non-negative products that occur here. */
  function Scale(n: int, factor: real): int { Stretch(n as real, factor).Floor }

  function Stretch(t: real, factor: real): real { t * factor }

  function Divide(n: int, divisor: real): int
    requires divisor > 0.0
  {
    (n as real / divisor).Floor
  }

  lemma Monotone(a: real, x: real, y: real)
    requires 0.0 <= a && x <= y
    ensures a * x <= a * y
  {
  }

  lemma StretchDown(t: real, factor: real)
    requires 0.0 <= t && factor <= 1.0
    ensures Stretch(t, factor) <= t
  {
  }

  lemma StretchUp(t: real, factor: real)
    requires 0.0 <= t && 1.0 <= factor
    ensures t <= Stretch(t, factor)
  {
  }

  lemma StretchSign(t: real, factor: real)
    requires 0.0 <= t && 0.0 <= factor
    ensures 0.0 <= Stretch(t, factor)
  {
  }

  lemma {:induction false} ScaleBounds(n: int, factor: real)
    requires n >= 0 && factor > 0.0
    ensures 0 <= Scale(n, factor)
    ensures factor < 1.0 ==> Scale(n, factor) <= n
    ensures factor > 1.0 ==> n <= Scale(n, factor)
  {
    hide Stretch;
    StretchSign(n as real, factor);
    if factor < 1.0 {
      StretchDown(n as real, factor);
    } else {
      StretchUp(n as real, factor);
    }
  }

  lemma {:induction false} ScaleBelow(n: int, factor: real, bound: real)
    requires 0.0 <= n as real <= bound && 0.0 < factor < 1.0
    ensures Scale(n, factor) as real <= Stretch(bound, factor)
  {
    Monotone(factor, n as real, bound);
  }

  lemma NegativeProduct(q: real, d: real)
    requires q < 0.0 < d
    ensures q * d < 0.0
  {
  }

  lemma {:induction false} DivideBounds(n: int, divisor: real)
    requires n >= 0 && divisor > 1.0
    ensures 0 <= Divide(n, divisor) <= n
  {
    var x := n as real;
    var q := x / divisor;
    assert q * divisor == x;
    if q < 0.0 {
      NegativeProduct(q, divisor);
    }
    if q > 0.0 {
      Monotone(q, 1.0, divisor);
    }
  }

  lemma {:induction false} ObserveBetween(a: Average, x: real, alpha: real, lo: real, hi: real)
    requires 0.0 < alpha <= 1.0 && lo <= x <= hi && (a.seeded ==> lo <= a.value <= hi)
    ensures lo <= Observe(a, x, alpha).value <= hi
  {
    if a.seeded && alpha < 1.0 {
      Convex(alpha, x, 1.0 - alpha, a.value, lo, hi);
    }
  }

  lemma {:induction false} Blend(alpha: real, beta: real, x: real)
    requires alpha + beta == 1.0
    ensures alpha * x + beta * x == x
  {
    assert alpha * x + beta * x == (alpha + beta) * x;
  }

  lemma {:induction false} Weigh(alpha: real, x: real, beta: real, y: real, x': real, y': real)
    requires 0.0 <= alpha && 0.0 <= beta && x <= x' && y <= y'
    ensures alpha * x + beta * y <= alpha * x' + beta * y'
  {
    Monotone(alpha, x, x');
    Monotone(beta, y, y');
  }

  lemma {:induction false} Convex(alpha: real, x: real, beta: real, y: real, lo: real, hi: real)
    requires 0.0 <= alpha && 0.0 <= beta && alpha + beta == 1.0 && lo <= x <= hi && lo <= y <= hi
    ensures lo <= alpha * x + beta * y
    ensures alpha * x + beta * y <= hi
  {
    Weigh(alpha, lo, beta, lo, x, y);
    Weigh(alpha, x, beta, y, hi, hi);
    Blend(alpha, beta, lo);
    Blend(alpha, beta, hi);
  }

  // ---------------------------------------------------------------- steps

  function Extract(s: State, limit: int, later: real): (seq<Item>, State)
  {
    var count := Min(|s.queue|, Max(0, limit));
    if count == 0 then ([], s)
    else (s.queue[..count],
          s.(queue := s.queue[count..], flushedRecords := s.flushedRecords + count,
             flushEvents := s.flushEvents + 1, lastFlush := later))
  }

  predicate OverTarget(cfg: Config, s: State) { s.latency.value > cfg.targetLatency }

  function Resize(s: State, batchSize: int, timeout: real): State
  {
    if batchSize == s.batchSize && timeout == s.timeout then s
    else s.(batchSize := batchSize, timeout := timeout, transitions := s.transitions + 1)
  }

  function Tune(cfg: Config, s: State): State
    requires cfg.Valid()
  {
    if s.batchFill.value > cfg.fillHigh && !OverTarget(cfg, s) then
      Resize(s, Min(cfg.maxBatch, Scale(s.batchSize, cfg.expand)),
             MaxReal(cfg.minTimeout, Stretch(s.timeout, cfg.timeoutReduction)))
    else if s.batchFill.value < cfg.fillLow then
      Resize(s, Max(cfg.minBatch, Divide(s.batchSize, cfg.shrink)),
             MinReal(cfg.maxTimeout, Stretch(s.timeout, cfg.timeoutIncrease)))
    else s
  }

  function Fullness(s: State): real
    requires s.batchSize > 0
  {
    MinReal(1.0, |s.queue| as real / s.batchSize as real)
  }

  function FlushAndTune(cfg: Config, s: State, later: real): (seq<Item>, State)
    requires cfg.Valid() && s.batchSize > 0
  {
    var (batch, s') := Extract(s, s.batchSize, later);
    if batch == [] then (batch, s')
    else (batch, Tune(cfg, s'.(batchFill := Observe(s.batchFill, Fullness(s), cfg.fillAlpha))))
  }

  function Enqueue(cfg: Config, s: State, item: Item): State
    requires cfg.Valid()
  {
    var s' := s.(queue := s.queue + [item]);
    s'.(queueFill := Observe(s.queueFill, |s'.queue| as real / cfg.queueCapacity as real, cfg.fillAlpha))
  }

  function Throttled(cfg: Config, b: int): int { Max(cfg.minBatch, Scale(b, cfg.throttle)) }

  function Recorded(cfg: Config, s: State, ms: real): State
  {
    var s' := s.(latency := Observe(s.latency, ms, cfg.latencyAlpha));
    var b := Throttled(cfg, s.batchSize);
    if OverTarget(cfg, s') && b < s.batchSize then s'.(batchSize := b, transitions := s.transitions + 1) else s'
  }

  function Step(cfg: Config, s: State, op: Op): (Outcome, State)
    requires cfg.Valid() && s.batchSize > 0
  {
    match op
    case Add(item, now, later) =>
      if s.closed then (ClosedError, s)
      else if |s.queue| >= cfg.maxQueue then (QueueFull, s)
      else
        var s' := Enqueue(cfg, s, item);
        if |s'.queue| >= s.batchSize || now - s.lastFlush >= s.timeout then
          var (batch, s'') := FlushAndTune(cfg, s', later);
          (Batch(batch), s'')
        else (Nothing, s')
    case FlushIfDue(now, later) =>
      if now - s.lastFlush < s.timeout then (Nothing, s)
      else if s.queue == [] then (Nothing, s.(lastFlush := later))
      else
        var (batch, s') := FlushAndTune(cfg, s, later);
        (Batch(batch), s')
    case FlushNow(later) =>
      var (batch, s') := Extract(s, s.batchSize, later);
      (Batch(batch), s')
    case Close(later) =>
      var (batch, s') := Extract(s.(closed := true), |s.queue|, later);
      (Batch(batch), s')
    case RecordLatency(ms) => if ms < 0.0 then (BadLatency, s) else (Nothing, Recorded(cfg, s, ms))
    case Reset(later) => (Nothing, Fresh(cfg, later))
  }

  // ---------------------------------------------------------------- reachable states

  predicate InBounds(cfg: Config, s: State)
  {
    && cfg.minBatch <= s.batchSize <= cfg.maxBatch
    && cfg.minTimeout <= s.timeout <= cfg.maxTimeout
    && |s.queue| < cfg.maxBatch
  }

  lemma {:induction false} TimeoutBounds(cfg: Config, t: real)
    requires cfg.Valid() && cfg.minTimeout <= t <= cfg.maxTimeout
    ensures cfg.minTimeout <= MaxReal(cfg.minTimeout, Stretch(t, cfg.timeoutReduction)) <= cfg.maxTimeout
    ensures cfg.minTimeout <= MinReal(cfg.maxTimeout, Stretch(t, cfg.timeoutIncrease)) <= cfg.maxTimeout
  {
    hide Stretch;
    StretchDown(t, cfg.timeoutReduction);
    StretchUp(t, cfg.timeoutIncrease);
  }

  lemma {:induction false} TuneBounds(cfg: Config, s: State)
    requires cfg.Valid()
    requires cfg.minBatch <= s.batchSize <= cfg.maxBatch && cfg.minTimeout <= s.timeout <= cfg.maxTimeout
    ensures var s' := Tune(cfg, s);
      && cfg.minBatch <= s'.batchSize <= cfg.maxBatch && cfg.minTimeout <= s'.timeout <= cfg.maxTimeout
      && s'.(batchSize := s.batchSize, timeout := s.timeout, transitions := s.transitions) == s
      && (OverTarget(cfg, s) ==> s'.batchSize <= s.batchSize)
  {
    hide Scale, Divide, Stretch;
    ScaleBounds(s.batchSize, cfg.expand);
    DivideBounds(s.batchSize, cfg.shrink);
    TimeoutBounds(cfg, s.timeout);
  }

  lemma {:induction false} RecordedBounds(cfg: Config, s: State, ms: real)
    requires cfg.Valid() && InBounds(cfg, s)
    ensures InBounds(cfg, Recorded(cfg, s, ms)) && Recorded(cfg, s, ms).batchSize <= s.batchSize
    ensures OverTarget(cfg, Recorded(cfg, s, ms)) ==> Recorded(cfg, s, ms).batchSize == Throttled(cfg, s.batchSize)
  {
    ScaleBounds(s.batchSize, cfg.throttle);
  }

  /** Every operation keeps batch size and interval in their configured bounds and the
      buffer below the largest batch size. */
  lemma {:induction false} StepKeepsBounds(cfg: Config, s: State, op: Op)
    requires cfg.Valid() && InBounds(cfg, s)
    ensures InBounds(cfg, Step(cfg, s, op).1)
  {
    match op
    case Add(item, now, later) =>
      FlushBounds(cfg, Enqueue(cfg, s, item), later);
    case FlushIfDue(now, later) =>
      FlushBounds(cfg, s, later);
    case RecordLatency(ms) =>
      RecordedBounds(cfg, s, ms);
    case _ =>
  }

  lemma {:induction false} FlushBounds(cfg: Config, s: State, later: real)
    requires cfg.Valid() && cfg.minBatch <= s.batchSize <= cfg.maxBatch
    requires cfg.minTimeout <= s.timeout <= cfg.maxTimeout && |s.queue| <= cfg.maxBatch
    ensures var (batch, s') := FlushAndTune(cfg, s, later);
      && InBounds(cfg, s') && batch + s'.queue == s.queue
      && s'.flushedRecords == s.flushedRecords + |batch| && s'.closed == s.closed && s'.latency == s.latency
      && (OverTarget(cfg, s) ==> s'.batchSize <= s.batchSize)
      && (|s.queue| <= s.batchSize ==> s'.queue == [])
  {
    var (batch, extracted) := Extract(s, s.batchSize, later);
    TuneBounds(cfg, extracted.(batchFill := Observe(s.batchFill, Fullness(s), cfg.fillAlpha)));
  }

  function StateAt(cfg: Config, start: real, h: seq<Op>, i: nat): (s: State)
    requires cfg.Valid() && i <= |h|
    ensures InBounds(cfg, s)
  {
    if i == 0 then Fresh(cfg, start)
    else
      StepKeepsBounds(cfg, StateAt(cfg, start, h, i - 1), h[i - 1]);
      Step(cfg, StateAt(cfg, start, h, i - 1), h[i - 1]).1
  }

  function OutcomeAt(cfg: Config, start: real, h: seq<Op>, i: nat): Outcome
    requires cfg.Valid() && i < |h|
  {
    Step(cfg, StateAt(cfg, start, h, i), h[i]).0
  }

  // ---------------------------------------------------------------- the buffer

  /** Items taken in since the last reset. */
  function Accepted(cfg: Config, start: real, h: seq<Op>, i: nat): seq<Item>
    requires cfg.Valid() && i <= |h|
  {
    if i == 0 || h[i - 1].Reset? then []
    else
      var o := OutcomeAt(cfg, start, h, i - 1);
      var taken := h[i - 1].Add? && !o.ClosedError? && !o.QueueFull?;
      Accepted(cfg, start, h, i - 1) + if taken then [h[i - 1].item] else []
  }

  /** All batches returned since the last reset, joined. */
  function Returned(cfg: Config, start: real, h: seq<Op>, i: nat): seq<Item>
    requires cfg.Valid() && i <= |h|
  {
    if i == 0 || h[i - 1].Reset? then []
    else
      var o := OutcomeAt(cfg, start, h, i - 1);
      Returned(cfg, start, h, i - 1) + if o.Batch? then o.items else []
  }

  /** What one operation moves: returned items followed by the new queue are the old queue
      followed by the accepted items. */
  lemma {:induction false} StepConserves(cfg: Config, s: State, op: Op)
    requires cfg.Valid() && InBounds(cfg, s) && !op.Reset?
    ensures var (o, s') := Step(cfg, s, op);
      var out := if o.Batch? then o.items else [];
      var into := if op.Add? && !o.ClosedError? && !o.QueueFull? then [op.item] else [];
      out + s'.queue == s.queue + into && s'.flushedRecords == s.flushedRecords + |out|
  {
    match op
    case Add(item, now, later) =>
      FlushBounds(cfg, Enqueue(cfg, s, item), later);
    case FlushIfDue(now, later) =>
      FlushBounds(cfg, s, later);
    case _ =>
  }

  /** Nothing is lost, duplicated or reordered: the batches returned since the last reset,
      followed by the buffer, are the accepted items in order. */
  lemma {:induction false} BufferIsFifo(cfg: Config, start: real, h: seq<Op>, i: nat)
    requires cfg.Valid() && i <= |h|
    ensures Returned(cfg, start, h, i) + StateAt(cfg, start, h, i).queue == Accepted(cfg, start, h, i)
    ensures StateAt(cfg, start, h, i).flushedRecords == |Returned(cfg, start, h, i)|
    ensures |StateAt(cfg, start, h, i).queue| < cfg.maxBatch
  {
    if i > 0 && !h[i - 1].Reset? {
      BufferIsFifo(cfg, start, h, i - 1);
      StepConserves(cfg, StateAt(cfg, start, h, i - 1), h[i - 1]);
      FifoStep(Returned(cfg, start, h, i - 1), StateAt(cfg, start, h, i - 1).queue, Accepted(cfg, start, h, i - 1),
               Returned(cfg, start, h, i), StateAt(cfg, start, h, i).queue, Accepted(cfg, start, h, i));
    }
  }

  lemma {:induction false} FifoStep(
      r: seq<Item>, q: seq<Item>, a: seq<Item>, r': seq<Item>, q': seq<Item>, a': seq<Item>)
    requires r + q == a && r <= r' && a <= a' && r'[|r|..] + q' == q + a'[|a|..]
    ensures r' + q' == a'
  {
    assert r' + q' == r + (r'[|r|..] + q');
    assert a' == a + a'[|a|..];
    assert r + (q + a'[|a|..]) == (r + q) + a'[|a|..];
  }

  /** A queue at least as large as the largest batch never overflows. */
  lemma {:induction false} QueueFullIsUnreachable(cfg: Config, start: real, h: seq<Op>, i: nat)
    requires cfg.Valid() && i < |h| && cfg.maxQueue >= cfg.maxBatch
    ensures OutcomeAt(cfg, start, h, i) != QueueFull
  {
    assert InBounds(cfg, StateAt(cfg, start, h, i));
  }

  // ---------------------------------------------------------------- the latency gate

  ghost predicate NoReset(h: seq<Op>, i: nat, j: nat)
    requires i <= j <= |h|
  {
    forall x :: i <= x < j ==> !h[x].Reset?
  }

  /** The average is over target after every operation; the first may be what raises it. */
  ghost predicate StaysOverTarget(cfg: Config, start: real, h: seq<Op>, i: nat, j: nat)
    requires cfg.Valid() && i <= j <= |h|
  {
    forall x :: i < x <= j ==> OverTarget(cfg, StateAt(cfg, start, h, x))
  }

  /** An operation that leaves the average over target never enlarges the batch, and
      throttles it if it is a write. */
  lemma {:induction false} StepOverTarget(cfg: Config, s: State, op: Op)
    requires cfg.Valid() && InBounds(cfg, s) && !op.Reset? && OverTarget(cfg, Step(cfg, s, op).1)
    ensures Step(cfg, s, op).1.batchSize <= s.batchSize
    ensures op.RecordLatency? && op.ms >= 0.0 ==> Step(cfg, s, op).1.batchSize == Throttled(cfg, s.batchSize)
  {
    match op
    case Add(item, now, later) =>
      FlushBounds(cfg, Enqueue(cfg, s, item), later);
    case FlushIfDue(now, later) =>
      FlushBounds(cfg, s, later);
    case RecordLatency(ms) =>
      RecordedBounds(cfg, s, ms);
    case _ =>
  }

  /** While smoothed latency stays above target nothing but a reset enlarges the batch. */
  lemma {:induction false} NoGrowthOverTarget(cfg: Config, start: real, h: seq<Op>, i: nat, j: nat)
    requires cfg.Valid() && i <= j <= |h| && NoReset(h, i, j) && StaysOverTarget(cfg, start, h, i, j)
    ensures StateAt(cfg, start, h, j).batchSize <= StateAt(cfg, start, h, i).batchSize
    decreases j
  {
    hide Step;
    if i < j {
      NoGrowthOverTarget(cfg, start, h, i, j - 1);
      assert OverTarget(cfg, StateAt(cfg, start, h, j));
      StepOverTarget(cfg, StateAt(cfg, start, h, j - 1), h[j - 1]);
    }
  }

  function Power(m: real, k: nat): real { if k == 0 then 1.0 else m * Power(m, k - 1) }

  function Writes(h: seq<Op>, i: nat, j: nat): nat
    requires i <= j <= |h|
    decreases j
  {
    if i == j then 0
    else Writes(h, i, j - 1) + if h[j - 1].RecordLatency? && h[j - 1].ms >= 0.0 then 1 else 0
  }

  /** `from` after k exact throttles: from * m^k. */
  function Shrunk(m: real, k: nat, from: real): real { if k == 0 then from else Stretch(Shrunk(m, k - 1, from), m) }

  lemma {:induction false} ShrunkIsPower(m: real, k: nat, from: real)
    ensures Shrunk(m, k, from) == Power(m, k) * from
  {
    if k > 0 {
      ShrunkIsPower(m, k - 1, from);
      Reassociate(m, Power(m, k - 1), from);
    }
  }

  lemma Reassociate(m: real, p: real, b: real)
    ensures m * (p * b) == (m * p) * b
  {
  }

  lemma {:induction false} ThrottledShrunk(cfg: Config, b: int, k: nat, from: real)
    requires cfg.Valid() && b >= 0 && Shrunk(cfg.throttle, k, from) >= 0.0
    requires b as real <= MaxReal(cfg.minBatch as real, Shrunk(cfg.throttle, k, from))
    ensures Shrunk(cfg.throttle, k + 1, from) >= 0.0
    ensures Throttled(cfg, b) as real <= MaxReal(cfg.minBatch as real, Shrunk(cfg.throttle, k + 1, from))
  {
    hide Scale, Stretch;
    var bound := Shrunk(cfg.throttle, k, from);
    StretchSign(bound, cfg.throttle);
    ScaleBounds(b, cfg.throttle);
    if b as real <= bound {
      ScaleBelow(b, cfg.throttle, bound);
    }
  }

  /** Under sustained overload k writes shrink the batch geometrically, down to its floor. */
  lemma {:induction false} ThrottleConverges(cfg: Config, start: real, h: seq<Op>, i: nat, j: nat)
    requires cfg.Valid() && i <= j <= |h| && NoReset(h, i, j) && StaysOverTarget(cfg, start, h, i, j)
    ensures var bound := Shrunk(cfg.throttle, Writes(h, i, j), StateAt(cfg, start, h, i).batchSize as real);
      bound >= 0.0 && StateAt(cfg, start, h, j).batchSize as real <= MaxReal(cfg.minBatch as real, bound)
    decreases j
  {
    hide Step, Shrunk;
    var from := StateAt(cfg, start, h, i).batchSize as real;
    if i == j {
      ShrunkZero(cfg.throttle, from);
    } else {
      ThrottleConverges(cfg, start, h, i, j - 1);
      var s := StateAt(cfg, start, h, j - 1);
      assert OverTarget(cfg, StateAt(cfg, start, h, j));
      StepOverTarget(cfg, s, h[j - 1]);
      if h[j - 1].RecordLatency? && h[j - 1].ms >= 0.0 {
        ThrottledShrunk(cfg, s.batchSize, Writes(h, i, j - 1), from);
      }
    }
  }

  lemma ShrunkZero(m: real, from: real)
    ensures Shrunk(m, 0, from) == from
  {
  }

  /** The latency average lies within the range of the latencies observed. */
  lemma {:induction false} LatencyWithinObservations(cfg: Config, start: real, h: seq<Op>, i: nat, lo: real, hi: real)
    requires cfg.Valid() && i <= |h|
    requires forall x :: 0 <= x < i && h[x].RecordLatency? && h[x].ms >= 0.0 ==> lo <= h[x].ms <= hi
    ensures StateAt(cfg, start, h, i).latency.seeded ==> lo <= StateAt(cfg, start, h, i).latency.value <= hi
  {
    if i > 0 {
      LatencyWithinObservations(cfg, start, h, i - 1, lo, hi);
      LatencyStep(cfg, StateAt(cfg, start, h, i - 1), h[i - 1], lo, hi);
    }
  }

  lemma {:induction false} LatencyStep(cfg: Config, s: State, op: Op, lo: real, hi: real)
    requires cfg.Valid() && InBounds(cfg, s)
    requires s.latency.seeded ==> lo <= s.latency.value <= hi
    requires op.RecordLatency? && op.ms >= 0.0 ==> lo <= op.ms <= hi
    ensures var s' := Step(cfg, s, op).1; s'.latency.seeded ==> lo <= s'.latency.value <= hi
  {
    match op
    case Add(item, now, later) =>
      FlushBounds(cfg, Enqueue(cfg, s, item), later);
    case FlushIfDue(now, later) =>
      FlushBounds(cfg, s, later);
    case RecordLatency(ms) =>
      if ms >= 0.0 {
        ObserveBetween(s.latency, ms, cfg.latencyAlpha, lo, hi);
      }
    case _ =>
  }

  // ---------------------------------------------------------------- "bounded by B by construction"

  /** A write that puts the average over target and throttles the batch so far down that the
      buffer passes it by more than `excess`. */
  predicate ThrottlesPast(cfg: Config, s: State, op: Op, excess: int)
  {
    && op.RecordLatency? && op.ms >= 0.0
    && Observe(s.latency, op.ms, cfg.latencyAlpha).value > cfg.targetLatency
    && Throttled(cfg, s.batchSize) + excess < |s.queue|
  }

  predicate Within(s: State, excess: int) { |s.queue| <= s.batchSize + excess }

  /** Such a write is the only call that breaks the bound. */
  lemma {:induction false} DepthStep(cfg: Config, s: State, op: Op, excess: int)
    requires cfg.Valid() && InBounds(cfg, s) && excess >= -1 && Within(s, excess)
    ensures Within(Step(cfg, s, op).1, excess) <==> !ThrottlesPast(cfg, s, op, excess)
  {
    match op
    case Add(item, now, later) =>
      FlushBounds(cfg, Enqueue(cfg, s, item), later);
    case FlushIfDue(now, later) =>
      FlushBounds(cfg, s, later);
    case RecordLatency(ms) =>
      RecordedBounds(cfg, s, ms);
    case _ =>
  }

  ghost predicate AlwaysWithin(cfg: Config, start: real, h: seq<Op>, i: nat, excess: int)
    requires cfg.Valid() && i <= |h|
  {
    forall x :: 0 <= x <= i ==> Within(StateAt(cfg, start, h, x), excess)
  }

  ghost predicate NeverThrottledPast(cfg: Config, start: real, h: seq<Op>, i: nat, excess: int)
    requires cfg.Valid() && i <= |h|
  {
    forall x :: 0 <= x < i ==> !ThrottlesPast(cfg, StateAt(cfg, start, h, x), h[x], excess)
  }

  /** Over a whole run the buffer passes the batch size by at most `excess` (by -1: stays
      below it) exactly when no write throttles the batch further down than that. */
  lemma {:induction false} DepthExactly(cfg: Config, start: real, h: seq<Op>, i: nat, excess: int)
    requires cfg.Valid() && i <= |h| && excess >= -1
    ensures AlwaysWithin(cfg, start, h, i, excess) <==> NeverThrottledPast(cfg, start, h, i, excess)
  {
    hide Step, ThrottlesPast, Within, InBounds;
    if i == 0 {
      FreshIsBelow(cfg, start, h, excess);
    } else {
      DepthExactly(cfg, start, h, i - 1, excess);
      DepthExtends(cfg, start, h, i - 1, i, excess);
      if AlwaysWithin(cfg, start, h, i - 1, excess) {
        DepthStep(cfg, StateAt(cfg, start, h, i - 1), h[i - 1], excess);
      }
    }
  }

  lemma {:induction false} DepthExtends(cfg: Config, start: real, h: seq<Op>, i: nat, next: nat, excess: int)
    requires cfg.Valid() && i < |h| && next == i + 1
    ensures AlwaysWithin(cfg, start, h, next, excess)
      <==> AlwaysWithin(cfg, start, h, i, excess) && Within(StateAt(cfg, start, h, next), excess)
    ensures StateAt(cfg, start, h, next) == Step(cfg, StateAt(cfg, start, h, i), h[i]).1
    ensures NeverThrottledPast(cfg, start, h, next, excess) <==>
      && NeverThrottledPast(cfg, start, h, i, excess)
      && !ThrottlesPast(cfg, StateAt(cfg, start, h, i), h[i], excess)
  {
    hide Step, ThrottlesPast, Within;
    assert StateAt(cfg, start, h, next) == Step(cfg, StateAt(cfg, start, h, i), h[i]).1;
  }

  lemma FreshIsBelow(cfg: Config, start: real, h: seq<Op>, excess: int)
    requires cfg.Valid() && excess >= -1
    ensures Within(StateAt(cfg, start, h, 0), excess)
  {
  }

  ghost predicate DepthWithinBatch(cfg: Config, start: real, h: seq<Op>, i: nat)
    requires cfg.Valid() && i <= |h|
  {
    forall x :: 0 <= x <= i ==> |StateAt(cfg, start, h, x).queue| <= StateAt(cfg, start, h, x).batchSize
  }

  /** The documented bound: the buffer never passes the batch size exactly when no write
      throttles the batch below what is buffered. */
  lemma {:induction false} DepthWithinBatchExactly(cfg: Config, start: real, h: seq<Op>, i: nat)
    requires cfg.Valid() && i <= |h|
    ensures DepthWithinBatch(cfg, start, h, i) <==> NeverThrottledPast(cfg, start, h, i, 0)
  {
    hide StateAt, ThrottlesPast, NeverThrottledPast;
    DepthExactly(cfg, start, h, i, 0);
    if AlwaysWithin(cfg, start, h, i, 0) {
      forall x | 0 <= x <= i
        ensures |StateAt(cfg, start, h, x).queue| <= StateAt(cfg, start, h, x).batchSize
      {
        assert Within(StateAt(cfg, start, h, x), 0);
      }
    }
    if DepthWithinBatch(cfg, start, h, i) {
      forall x | 0 <= x <= i ensures Within(StateAt(cfg, start, h, x), 0) {
        assert |StateAt(cfg, start, h, x).queue| <= StateAt(cfg, start, h, x).batchSize;
      }
    }
  }

  const SMALL := Config(1, 8, 4, 1.0, 2.0, 1.0, 50.0, 0.2, 8, 8, 0.1, 0.7, 0.3, 1.5, 1.2, 0.5, 0.8, 1.2)

  /** A run that leaves three items buffered under a batch size of two. */
  lemma {:induction false} DepthCanExceedBatch()
    ensures SMALL.Valid()
    ensures var h := [Add(1, 0.0, 0.0), Add(2, 0.0, 0.0), Add(3, 0.0, 0.0), RecordLatency(100.0)];
      |StateAt(SMALL, 0.0, h, 4).queue| > StateAt(SMALL, 0.0, h, 4).batchSize
  {
    var h := [Add(1, 0.0, 0.0), Add(2, 0.0, 0.0), Add(3, 0.0, 0.0), RecordLatency(100.0)];
    var s1 := StateAt(SMALL, 0.0, h, 1);
    assert s1.queue == [1] && s1.batchSize == 4;
    var s2 := StateAt(SMALL, 0.0, h, 2);
    assert s2.queue == [1, 2] && s2.batchSize == 4;
    var s3 := StateAt(SMALL, 0.0, h, 3);
    assert s3.queue == [1, 2, 3] && s3.batchSize == 4 && !s3.latency.seeded;
    assert Scale(4, 0.5) == 2;
  }

  // ---------------------------------------------------------------- the engine

  lemma {:induction false} HistoryExtends(cfg: Config, start: real, h: seq<Op>, op: Op, i: nat)
    requires cfg.Valid() && i <= |h|
    ensures StateAt(cfg, start, h + [op], i) == StateAt(cfg, start, h, i)
  {
    hide Step;
    if i > 0 {
      HistoryExtends(cfg, start, h, op, i - 1);
    }
  }

  lemma {:induction false} NextState(cfg: Config, start: real, h: seq<Op>, op: Op)
    requires cfg.Valid()
    ensures StateAt(cfg, start, h + [op], |h + [op]|) == Step(cfg, StateAt(cfg, start, h, |h|), op).1
    ensures OutcomeAt(cfg, start, h + [op], |h|) == Step(cfg, StateAt(cfg, start, h, |h|), op).0
  {
    hide Step;
    HistoryExtends(cfg, start, h, op, |h|);
  }

  lemma ResetStep(cfg: Config, s: State, later: real)
    requires cfg.Valid() && s.batchSize > 0
    ensures Step(cfg, s, Reset(later)) == (Nothing, Fresh(cfg, later))
  {
  }

  class Engine {
    const config: Config
    var queue: seq<Item>
    var closed: bool
    var currentBatchSize: int
    var currentTimeout: real
    var lastFlushTime: real
    var latency: Average
    var queueFill: Average
    var batchFill: Average
    var totalFlushedRecords: nat
    var totalFlushEvents: nat
    var totalTransitions: nat
    ghost const start: real
    ghost var history: seq<Op>  // every operation since construction

    ghost function View(): State
      reads this
    {
      State(queue, closed, currentBatchSize, currentTimeout, lastFlushTime, latency, queueFill, batchFill,
            totalFlushedRecords, totalFlushEvents, totalTransitions)
    }

    ghost predicate Valid()
      reads this
    {
      config.Valid() && View() == StateAt(config, start, history, |history|)
    }

    constructor (config: Config, now: real)
      requires config.Valid()
      ensures Valid() && this.config == config && start == now && history == []
    {
      this.config, start := config, now;
      queue, closed := [], false;
      currentBatchSize, currentTimeout, lastFlushTime := config.initialBatch, config.initialTimeout, now;
      latency, queueFill, batchFill := UNSEEDED, UNSEEDED, UNSEEDED;
      totalFlushedRecords, totalFlushEvents, totalTransitions := 0, 0, 0;
      history := [];
    }

    /** Puts an operation on record once the fields hold its effect. */
    ghost method Commit(before: State, op: Op)
      requires config.Valid() && before == StateAt(config, start, history, |history|)
      requires View() == Step(config, before, op).1
      modifies this`history
      ensures Valid() && history == old(history) + [op]
      ensures OutcomeAt(config, start, history, |old(history)|) == Step(config, before, op).0
    {
      hide Step, StateAt, OutcomeAt;
      NextState(config, start, history, op);
      history := history + [op];
    }

    method AddItem(item: Item, now: real, later: real) returns (r: Outcome)
      requires Valid()
      modifies this
      ensures Valid() && history == old(history) + [Add(item, now, later)]
      ensures r == OutcomeAt(config, start, history, |old(history)|)
    {
      ghost var before := View();
      if closed {
        r := ClosedError;
      } else if |queue| >= config.maxQueue {
        r := QueueFull;
      } else {
        queue := queue + [item];
        queueFill := Observe(queueFill, |queue| as real / config.queueCapacity as real, config.fillAlpha);
        assert View() == Enqueue(config, before, item);
        if |queue| >= currentBatchSize || now - lastFlushTime >= currentTimeout {
          var batch := FlushAndTuneLocked(later);
          r := Batch(batch);
        } else {
          r := Nothing;
        }
      }
      Commit(before, Add(item, now, later));
    }

    method FlushIfDue(now: real, later: real) returns (r: Outcome)
      requires Valid()
      modifies this
      ensures Valid() && history == old(history) + [Op.FlushIfDue(now, later)]
      ensures r == OutcomeAt(config, start, history, |old(history)|)
    {
      ghost var before := View();
      if now - lastFlushTime < currentTimeout {
        r := Nothing;
      } else if queue == [] {
        lastFlushTime := later;
        r := Nothing;
      } else {
        var batch := FlushAndTuneLocked(later);
        r := Batch(batch);
      }
      Commit(before, Op.FlushIfDue(now, later));
    }

    method FlushNow(later: real) returns (r: Outcome)
      requires Valid()
      modifies this
      ensures Valid() && history == old(history) + [Op.FlushNow(later)]
      ensures r == OutcomeAt(config, start, history, |old(history)|)
    {
      ghost var before := View();
      var batch := ExtractBatchLocked(currentBatchSize, later);
      Commit(before, Op.FlushNow(later));
      return Batch(batch);
    }

    method Close(later: real) returns (r: Outcome)
      requires Valid()
      modifies this
      ensures Valid() && history == old(history) + [Op.Close(later)]
      ensures r == OutcomeAt(config, start, history, |old(history)|)
      ensures queue == [] && r == Batch(old(queue))
    {
      ghost var before := View();
      closed := true;
      var batch := ExtractBatchLocked(|queue|, later);
      Commit(before, Op.Close(later));
      return Batch(batch);
    }

    method RecordWriteLatency(ms: real) returns (r: Outcome)
      requires Valid()
      modifies this
      ensures Valid() && history == old(history) + [RecordLatency(ms)]
      ensures r == OutcomeAt(config, start, history, |old(history)|)
    {
      ghost var before := View();
      if ms < 0.0 {
        r := BadLatency;
      } else {
        latency := Observe(latency, ms, config.latencyAlpha);
        if latency.value > config.targetLatency {
          var newSize := Max(config.minBatch, Scale(currentBatchSize, config.throttle));
          if newSize < currentBatchSize {
            currentBatchSize := newSize;
            totalTransitions := totalTransitions + 1;
          }
        }
        r := Nothing;
      }
      Commit(before, RecordLatency(ms));
    }

    method Reset(later: real)
      requires Valid()
      modifies this
      ensures Valid() && history == old(history) + [Op.Reset(later)]
      ensures View() == Fresh(config, later)
    {
      hide Step, StateAt;
      ghost var before := View();
      ResetStep(config, before, later);
      queue, closed := [], false;
      currentBatchSize, currentTimeout, lastFlushTime := config.initialBatch, config.initialTimeout, later;
      latency, queueFill, batchFill := UNSEEDED, UNSEEDED, UNSEEDED;
      totalFlushedRecords, totalFlushEvents, totalTransitions := 0, 0, 0;
      assert View() == Fresh(config, later);
      Commit(before, Op.Reset(later));
    }

    method FlushAndTuneLocked(later: real) returns (batch: seq<Item>)
      requires config.Valid() && currentBatchSize > 0
      modifies this
      ensures (batch, View()) == FlushAndTune(config, old(View()), later)
      ensures history == old(history)
    {
      var depthBefore := |queue|;
      batch := ExtractBatchLocked(currentBatchSize, later);
      if batch == [] {
        return;
      }
      var fullness := MinReal(1.0, depthBefore as real / currentBatchSize as real);
      batchFill := Observe(batchFill, fullness, config.fillAlpha);
      TuneParametersLocked();
    }

    method ExtractBatchLocked(limit: int, later: real) returns (batch: seq<Item>)
      modifies this
      ensures (batch, View()) == Extract(old(View()), limit, later)
      ensures history == old(history)
    {
      batch := [];
      var count := Min(|queue|, Max(0, limit));
      if count == 0 {
        return;
      }
      ghost var q := queue;
      while |batch| < count
        invariant |batch| <= count && batch == q[..|batch|] && queue == q[|batch|..]
        invariant View() == old(View()).(queue := queue) && history == old(history)
      {
        batch, queue := batch + [queue[0]], queue[1..];
      }
      totalFlushedRecords := totalFlushedRecords + |batch|;
      totalFlushEvents := totalFlushEvents + 1;
      lastFlushTime := later;
    }

    method TuneParametersLocked()
      requires config.Valid()
      modifies this
      ensures View() == Tune(config, old(View())) && history == old(history)
    {
      var transitioned := false;
      var hasHeadroom := latency.value <= config.targetLatency;
      if batchFill.value > config.fillHigh && hasHeadroom {
        var newB := Min(config.maxBatch, Scale(currentBatchSize, config.expand));
        var newT := MaxReal(config.minTimeout, Stretch(currentTimeout, config.timeoutReduction));
        if newB != currentBatchSize || newT != currentTimeout {
          currentBatchSize, currentTimeout, transitioned := newB, newT, true;
        }
      } else if batchFill.value < config.fillLow {
        var newB := Max(config.minBatch, Divide(currentBatchSize, config.shrink));
        var newT := MinReal(config.maxTimeout, Stretch(currentTimeout, config.timeoutIncrease));
        if newB != currentBatchSize || newT != currentTimeout {
          currentBatchSize, currentTimeout, transitioned := newB, newT, true;
        }
      }
      if transitioned {
        totalTransitions := totalTransitions + 1;
      }
    }
  }
}
