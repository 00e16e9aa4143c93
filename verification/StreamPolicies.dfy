/** Backpressure policies as one value machine per stream, and what whole runs of calls,
    interleaved over any number of streams, add up to. */
module StreamPolicies {
  import opened Options
  import opened OhlcBars

  datatype Policy = DropOldest | Sample | Degrade | NeverDrop

  datatype Config = Config(
    policies: map<string, Policy>,
    cooldown: real,
    watermark: real,
    keepEvery: nat,
    strictUnknown: bool,
    strictNeverDrop: bool)
  {
    predicate Valid()
    {
      0.0 <= cooldown && 0.0 < watermark <= 1.0 && 1 <= keepEvery
    }
  }

  /** A tick dictionary, or any other value, which is folded as a bare price. */
  datatype Item = Dict(raw: RawTick) | Scalar(field: Field)

  /** A push that is observed, or an overflow. `queue` holds what the caller's deque holds
      on entry; `wall`, `registered` and `alerted` are the clock readings the call may
      take. */
  datatype Call =
    | Observe(stream: string, queue: seq<Item>, maxLen: Option<nat>, registered: real, alerted: real)
    | HandleFull(stream: string, queue: seq<Item>, maxLen: Option<nat>, item: Option<Item>, wall: real,
                 registered: real, alerted: real)
  {
    predicate Valid()
    {
      && (maxLen.Some? ==> |queue| <= maxLen.value)
      && registered <= alerted
    }
  }

  datatype Metrics = Metrics(
    observed: nat,
    overflows: nat,
    dropped: nat,
    sampled: nat,
    degraded: nat,
    neverDrop: nat,
    alerts: nat,
    breaches: nat)

  const ZERO := Metrics(0, 0, 0, 0, 0, 0, 0, 0)

  datatype Action = EnqueuedAfterDrop | EnqueuedAfterSample | Throttled | Aggregated | RejectedOverflow

  datatype Decision = Decision(
    stream: string,
    policy: Policy,
    action: Action,
    accepted: bool,
    emitted: Option<Bar>,
    discarded: nat,
    rejected: Option<Item>)

  datatype Reply = Noted | Decided(decision: Decision) | UnknownStream | NeverDropOverflow | UnpricedTick

  /** One stream: `hits` counts overflows for sampling, `ticks` are those folded into bars,
      `attempts` the times at which an alert was asked for. No policy means unregistered. */
  datatype Stream = Stream(
    policy: Option<Policy>,
    metrics: Metrics,
    hits: nat,
    ticks: seq<Tick>,
    attempts: seq<real>)

  const INTERVAL := 1.0

  // ---------------------------------------------------------------- rate-limited alerts

  function LastOf(xs: seq<real>): Option<real>
  {
    if xs == [] then None else Some(xs[|xs| - 1])
  }

  predicate MayFire(cooldown: real, last: Option<real>, now: real)
  {
    last.None? || now - last.value >= cooldown
  }

  /** The attempts that reach the alert sink. */
  function Fired(cooldown: real, attempts: seq<real>): seq<real>
  {
    if attempts == [] then []
    else
      var earlier, now := Fired(cooldown, attempts[..|attempts| - 1]), attempts[|attempts| - 1];
      if MayFire(cooldown, LastOf(earlier), now) then earlier + [now] else earlier
  }

  predicate Ascend(xs: seq<real>)
  {
    forall i, j :: 0 <= i < j < |xs| ==> xs[i] <= xs[j]
  }

  predicate Spaced(cooldown: real, xs: seq<real>)
  {
    forall i, j :: 0 <= i < j < |xs| ==> xs[j] - xs[i] >= cooldown
  }

  lemma {:induction false} SpacedAppend(cooldown: real, xs: seq<real>, now: real)
    requires cooldown >= 0.0 && Spaced(cooldown, xs) && MayFire(cooldown, LastOf(xs), now)
    ensures Spaced(cooldown, xs + [now])
  {
    forall i | 0 <= i < |xs| ensures now - xs[i] >= cooldown {
      assert i < |xs| - 1 ==> xs[|xs| - 1] - xs[i] >= cooldown;
    }
  }

  /** Alerts that fire are at least the cooldown apart, whatever the clock does. */
  lemma {:induction false} FiredAreSpaced(cooldown: real, attempts: seq<real>)
    requires cooldown >= 0.0
    ensures Spaced(cooldown, Fired(cooldown, attempts))
  {
    if attempts != [] {
      var earlier, now := Fired(cooldown, attempts[..|attempts| - 1]), attempts[|attempts| - 1];
      FiredAreSpaced(cooldown, attempts[..|attempts| - 1]);
      if MayFire(cooldown, LastOf(earlier), now) {
        SpacedAppend(cooldown, earlier, now);
      }
    }
  }

  ghost predicate CoveredBy(cooldown: real, fired: seq<real>, at: real)
  {
    exists f :: f in fired && f <= at && (f == at || at - f < cooldown)
  }

  lemma {:induction false} FiredAreAttempts(cooldown: real, attempts: seq<real>)
    ensures forall f :: f in Fired(cooldown, attempts) ==> f in attempts
  {
    if attempts != [] {
      FiredAreAttempts(cooldown, attempts[..|attempts| - 1]);
    }
  }

  /** With a clock that never runs back, nothing is silenced except within the cooldown of
      an alert that fired. */
  lemma {:induction false} EveryAttemptIsCovered(cooldown: real, attempts: seq<real>, at: real)
    requires Ascend(attempts) && at in attempts
    ensures CoveredBy(cooldown, Fired(cooldown, attempts), at)
  {
    var earlier := attempts[..|attempts| - 1];
    var sent, all := Fired(cooldown, earlier), Fired(cooldown, attempts);
    if at in earlier {
      EveryAttemptIsCovered(cooldown, earlier, at);
      var f :| f in sent && f <= at && (f == at || at - f < cooldown);
      assert f in all;
    } else {
      assert at == attempts[|attempts| - 1];
      if MayFire(cooldown, LastOf(sent), at) {
        assert at in all;
      } else {
        FiredAreAttempts(cooldown, earlier);
        var f := sent[|sent| - 1];
        assert f in all && f in earlier;
      }
    }
  }

  // ---------------------------------------------------------------- one call

  /** A registered stream with its policy, or the outcome of naming an undeclared one. */
  function Resolve(cfg: Config, s: Stream, at: real): (r: Stream)
    ensures r.policy.None? ==> r == s
  {
    if s.policy.Some? || cfg.strictUnknown then s
    else s.(policy := Some(DropOldest), attempts := s.attempts + [at])
  }

  function PopLeft(q: seq<Item>): seq<Item>
  {
    if q == [] then [] else q[1..]
  }

  /** Appending to a full bounded deque drops its left end. */
  function Append(q: seq<Item>, maxLen: Option<nat>, item: Option<Item>): seq<Item>
  {
    if item.None? then q
    else
      var longer := q + [item.value];
      if maxLen.Some? && |longer| > maxLen.value then longer[1..] else longer
  }

  predicate NearlyFull(cfg: Config, queued: nat, maxLen: Option<nat>)
  {
    && maxLen.Some? && maxLen.value > 0
    && queued as real / maxLen.value as real >= cfg.watermark
  }

  function AsTick(item: Option<Item>): RawTick
  {
    match item
    case Some(Dict(raw)) => raw
    case Some(Scalar(f)) => RawTick(f, Absent, Absent, Absent, Absent)
    case None => RawTick(Unusable, Absent, Absent, Absent, Absent)
  }

  /** An alert asked for, and counted if it fires. */
  function Alert(cfg: Config, s: Stream, at: real): (r: Stream)
    ensures r.policy == s.policy
  {
    var fires := MayFire(cfg.cooldown, LastOf(Fired(cfg.cooldown, s.attempts)), at);
    s.(attempts := s.attempts + [at], metrics := s.metrics.(alerts := s.metrics.alerts + if fires then 1 else 0))
  }

  function Observed(cfg: Config, s: Stream, c: Call): Stream
    requires c.Observe?
  {
    var r := Resolve(cfg, s, c.registered);
    if r.policy.None? then s
    else
      var noted := r.(metrics := r.metrics.(observed := r.metrics.observed + 1));
      if !NearlyFull(cfg, |c.queue|, c.maxLen) then noted
      else Alert(cfg, noted.(metrics := noted.metrics.(breaches := noted.metrics.breaches + 1)), c.alerted)
  }

  /** What a stream's policy does with an overflow: the stream, the deque and the reply. */
  function Applied(cfg: Config, s: Stream, c: Call): (Stream, seq<Item>, Reply)
    requires cfg.Valid() && c.HandleFull? && s.policy.Some?
  {
    var policy, m := s.policy.value, s.metrics;
    var discarded := if c.queue == [] then 0 else 1;
    var pushed := Append(PopLeft(c.queue), c.maxLen, c.item);
    match policy
    case DropOldest =>
      (s.(metrics := m.(dropped := m.dropped + discarded)), pushed,
       Decided(Decision(c.stream, policy, EnqueuedAfterDrop, true, None, discarded, None)))
    case Sample =>
      if (s.hits + 1) % cfg.keepEvery != 0 then
        (s.(metrics := m.(sampled := m.sampled + 1), hits := s.hits + 1), c.queue,
         Decided(Decision(c.stream, policy, Throttled, false, None, 1, c.item)))
      else
        (s.(metrics := m.(dropped := m.dropped + discarded), hits := s.hits + 1), pushed,
         Decided(Decision(c.stream, policy, EnqueuedAfterSample, true, None, discarded, None)))
    case Degrade =>
      var tick, counted := Parse(AsTick(c.item), c.wall), s.(metrics := m.(degraded := m.degraded + 1));
      if tick.None? then (counted, c.queue, UnpricedTick)
      else
        var closed := Add(INTERVAL, OpenAt(INTERVAL, s.ticks, |s.ticks|), tick.value).0;
        (counted.(ticks := s.ticks + [tick.value]), c.queue,
         Decided(Decision(c.stream, policy, Aggregated, true, closed, 0, None)))
    case NeverDrop =>
      var warned := s.(metrics := m.(neverDrop := m.neverDrop + 1, alerts := m.alerts + 1),
                       attempts := s.attempts + [c.alerted]);
      (warned, c.queue,
       if cfg.strictNeverDrop then NeverDropOverflow
       else Decided(Decision(c.stream, policy, RejectedOverflow, false, None, 0, c.item)))
  }

  /** An overflow is counted before the policy is applied. */
  function Overflowed(cfg: Config, s: Stream, c: Call): (Stream, seq<Item>, Reply)
    requires cfg.Valid() && c.HandleFull?
  {
    var r := Resolve(cfg, s, c.registered);
    if r.policy.None? then (s, c.queue, UnknownStream)
    else Applied(cfg, r.(metrics := r.metrics.(overflows := r.metrics.overflows + 1)), c)
  }

  function Step(cfg: Config, s: Stream, c: Call): Stream
    requires cfg.Valid()
  {
    if c.Observe? then Observed(cfg, s, c) else Overflowed(cfg, s, c).0
  }

  // ---------------------------------------------------------------- whole runs

  function Fresh(cfg: Config, name: string): Stream
  {
    Stream(if name in cfg.policies then Some(cfg.policies[name]) else None, ZERO, 0, [], [])
  }

  /** A stream's state depends on the calls that name it, and on no others. */
  function StreamAt(cfg: Config, h: seq<Call>, name: string, i: nat): Stream
    requires cfg.Valid() && i <= |h|
  {
    if i == 0 then Fresh(cfg, name)
    else
      var s := StreamAt(cfg, h, name, i - 1);
      if h[i - 1].stream == name then Step(cfg, s, h[i - 1]) else s
  }

  lemma {:induction false} HistoryExtends(cfg: Config, h: seq<Call>, c: Call, name: string, i: nat)
    requires cfg.Valid() && i <= |h|
    ensures StreamAt(cfg, h + [c], name, i) == StreamAt(cfg, h, name, i)
  {
    hide Step;
    if i > 0 {
      HistoryExtends(cfg, h, c, name, i - 1);
      assert (h + [c])[i - 1] == h[i - 1];
    }
  }

  predicate Overflow(h: seq<Call>, name: string, i: nat)
    requires i < |h|
  {
    h[i].HandleFull? && h[i].stream == name
  }

  function Overflows(h: seq<Call>, name: string, i: nat): nat
    requires i <= |h|
  {
    if i == 0 then 0 else Overflows(h, name, i - 1) + if Overflow(h, name, i - 1) then 1 else 0
  }

  function Observations(h: seq<Call>, name: string, i: nat): nat
    requires i <= |h|
  {
    if i == 0 then 0
    else Observations(h, name, i - 1) + if h[i - 1].stream == name && h[i - 1].Observe? then 1 else 0
  }

  function QueueAfter(cfg: Config, h: seq<Call>, i: nat): seq<Item>
    requires cfg.Valid() && i < |h| && h[i].HandleFull?
  {
    Overflowed(cfg, StreamAt(cfg, h, h[i].stream, i), h[i]).1
  }

  function ReplyTo(cfg: Config, h: seq<Call>, i: nat): Reply
    requires cfg.Valid() && i < |h| && h[i].HandleFull?
  {
    Overflowed(cfg, StreamAt(cfg, h, h[i].stream, i), h[i]).2
  }

  predicate AcceptedAt(cfg: Config, h: seq<Call>, name: string, i: nat)
    requires cfg.Valid() && i < |h|
  {
    Overflow(h, name, i) && ReplyTo(cfg, h, i).Decided? && ReplyTo(cfg, h, i).decision.accepted
  }

  function AcceptedBefore(cfg: Config, h: seq<Call>, name: string, i: nat): nat
    requires cfg.Valid() && i <= |h|
  {
    if i == 0 then 0 else AcceptedBefore(cfg, h, name, i - 1) + if AcceptedAt(cfg, h, name, i - 1) then 1 else 0
  }

  /** The policy calls on a stream meet, whenever they come. */
  function PolicyOf(cfg: Config, name: string): Option<Policy>
  {
    if name in cfg.policies then Some(cfg.policies[name])
    else if cfg.strictUnknown then None
    else Some(DropOldest)
  }

  predicate Called(h: seq<Call>, name: string, i: nat)
    requires i <= |h|
  {
    i > 0 && (h[i - 1].stream == name || Called(h, name, i - 1))
  }

  /** A policy never changes once met, and an undeclared stream gets one at its first call
      unless undeclared streams are refused, in which case nothing is kept about it. */
  lemma {:induction false} PolicyIsFixed(cfg: Config, h: seq<Call>, name: string, i: nat)
    requires cfg.Valid() && i <= |h|
    ensures StreamAt(cfg, h, name, i).policy
      == if Called(h, name, i) || name in cfg.policies then PolicyOf(cfg, name) else None
    ensures PolicyOf(cfg, name).None? ==> StreamAt(cfg, h, name, i) == Fresh(cfg, name)
    ensures StreamAt(cfg, h, name, i).policy.None? ==> StreamAt(cfg, h, name, i) == Fresh(cfg, name)
  {
    hide Parse, AsTick, Append, NearlyFull, Fired, Add, OpenAt;
    if i > 0 {
      PolicyIsFixed(cfg, h, name, i - 1);
    }
  }

  // ---------------------------------------------------------------- counters

  function Times(x: int, y: int): int { x * y }

  lemma TimesOne(d: int, n: int)
    requires d >= 1 && n > 0
    ensures Times(d, n) >= n
  {
  }

  lemma TimesMinus(x: int, y: int, n: int)
    ensures Times(x - y, n) == Times(x, n) - Times(y, n)
  {
  }

  lemma Divided(m: int, n: int)
    requires n > 0
    ensures m == Times(m / n, n) + m % n && 0 <= m % n < n
  {
  }

  lemma {:induction false} QuotientIs(m: int, n: int, q: int, r: int)
    requires 0 <= r < n && m == Times(q, n) + r
    ensures m / n == q && m % n == r
  {
    hide Times;
    Divided(m, n);
    var d := m / n;
    TimesMinus(d, q, n);
    TimesMinus(q, d, n);
    if d > q {
      TimesOne(d - q, n);
    } else if d < q {
      TimesOne(q - d, n);
    }
  }

  lemma {:induction false} NextQuotient(k: nat, n: nat)
    requires n > 0
    ensures (k + 1) / n == k / n + if (k + 1) % n == 0 then 1 else 0
  {
    hide Times;
    var q, r := k / n, k % n;
    Divided(k, n);
    if r + 1 < n {
      QuotientIs(k + 1, n, q, r + 1);
    } else {
      OneMore(q, n);
      QuotientIs(k + 1, n, q + 1, 0);
    }
  }

  lemma OneMore(q: int, n: int)
    ensures Times(q + 1, n) == Times(q, n) + n
  {
  }

  lemma {:induction false} QuotientStep(k: nat, n: nat)
    requires n > 0
    ensures (k + n) / n == k / n + 1
  {
    hide Times;
    Divided(k, n);
    OneMore(k / n, n);
    QuotientIs(k + n, n, k / n + 1, k % n);
  }

  predicate Accounted(p: Policy, m: Metrics, k: nat, observed: nat)
  {
    && m.overflows == k && m.observed == observed
    && m.dropped + m.sampled <= k
    && (p.DropOldest? || p.Sample? || m.dropped == 0)
    && (p.Sample? || m.sampled == 0)
    && m.degraded == (if p.Degrade? then k else 0)
    && m.neverDrop == (if p.NeverDrop? then k else 0)
  }

  lemma {:induction false} StepAccounts(cfg: Config, s: Stream, c: Call, p: Policy, k: nat, n: nat)
    requires cfg.Valid() && Resolve(cfg, s, c.registered).policy == Some(p) && Accounted(p, s.metrics, k, n)
    ensures Accounted(p, Step(cfg, s, c).metrics, if c.HandleFull? then k + 1 else k, if c.Observe? then n + 1 else n)
  {
    hide Parse, AsTick, Append, NearlyFull, Fired, Add, OpenAt;
  }

  /** Every overflow and every observed push of a stream is counted once, the overflow
      under the heading of its policy; evictions never outnumber the overflows. */
  lemma {:induction false} OverflowsAreAccounted(cfg: Config, h: seq<Call>, name: string, i: nat)
    requires cfg.Valid() && i <= |h| && PolicyOf(cfg, name).Some?
    ensures Accounted(PolicyOf(cfg, name).value, StreamAt(cfg, h, name, i).metrics,
                      Overflows(h, name, i), Observations(h, name, i))
  {
    hide Step, Accounted;
    if i == 0 {
      StartAccounted(PolicyOf(cfg, name).value);
    } else {
      OverflowsAreAccounted(cfg, h, name, i - 1);
      PolicyIsFixed(cfg, h, name, i - 1);
      if h[i - 1].stream == name {
        StepAccounts(cfg, StreamAt(cfg, h, name, i - 1), h[i - 1], PolicyOf(cfg, name).value,
                     Overflows(h, name, i - 1), Observations(h, name, i - 1));
      }
    }
  }

  lemma StartAccounted(p: Policy)
    ensures Accounted(p, ZERO, 0, 0)
  {
  }

  /** Of K overflows a sampled stream admits the floor of K over n and skips the rest. */
  lemma {:induction false} SampleAdmitsExactly(cfg: Config, h: seq<Call>, name: string, i: nat)
    requires cfg.Valid() && i <= |h| && PolicyOf(cfg, name) == Some(Sample)
    ensures var s, k := StreamAt(cfg, h, name, i), Overflows(h, name, i);
      && s.hits == k
      && AcceptedBefore(cfg, h, name, i) == k / cfg.keepEvery
      && s.metrics.sampled == k - k / cfg.keepEvery
  {
    hide Parse, AsTick, Append, NearlyFull, Fired, Add, OpenAt;
    if i > 0 {
      SampleAdmitsExactly(cfg, h, name, i - 1);
      PolicyIsFixed(cfg, h, name, i - 1);
      NextQuotient(Overflows(h, name, i - 1), cfg.keepEvery);
    }
  }

  /** Among any n consecutive overflows of a sampled stream exactly one is admitted. */
  lemma {:induction false} OneInEveryWindow(cfg: Config, h: seq<Call>, name: string, i: nat, j: nat)
    requires cfg.Valid() && i <= j <= |h| && PolicyOf(cfg, name) == Some(Sample)
    requires Overflows(h, name, j) == Overflows(h, name, i) + cfg.keepEvery
    ensures AcceptedBefore(cfg, h, name, j) == AcceptedBefore(cfg, h, name, i) + 1
  {
    hide Overflows, AcceptedBefore, StreamAt;
    SampleAdmitsExactly(cfg, h, name, i);
    SampleAdmitsExactly(cfg, h, name, j);
    QuotientStep(Overflows(h, name, i), cfg.keepEvery);
  }

  // ---------------------------------------------------------------- queues

  /** What a queue holds before call i when nothing but the manager touches it. */
  function Backlog(cfg: Config, h: seq<Call>, name: string, q: seq<Item>, i: nat): seq<Item>
    requires cfg.Valid() && i <= |h|
  {
    if i == 0 then q
    else if Overflow(h, name, i - 1) then QueueAfter(cfg, h, i - 1)
    else Backlog(cfg, h, name, q, i - 1)
  }

  /** Each overflow of the stream finds the queue the previous one left. */
  ghost predicate Unconsumed(cfg: Config, h: seq<Call>, name: string, q: seq<Item>, i: nat)
    requires cfg.Valid() && i <= |h|
  {
    forall k :: 0 <= k < i && Overflow(h, name, k) ==>
      h[k].queue == Backlog(cfg, h, name, q, k)
  }

  ghost predicate RoomFor(h: seq<Call>, name: string, i: nat)
    requires i <= |h|
  {
    forall k :: 0 <= k < i && Overflow(h, name, k) ==>
      h[k].Valid() && h[k].maxLen != Some(0)
  }

  predicate Enqueues(r: Reply)
  {
    r.Decided? && (r.decision.action.EnqueuedAfterDrop? || r.decision.action.EnqueuedAfterSample?)
  }

  /** The items the replies say were enqueued, in order. */
  function Enqueued(cfg: Config, h: seq<Call>, name: string, i: nat): seq<Item>
    requires cfg.Valid() && i <= |h|
  {
    if i == 0 then []
    else
      var admits := Overflow(h, name, i - 1) && Enqueues(ReplyTo(cfg, h, i - 1));
      Enqueued(cfg, h, name, i - 1) + if admits then Optional(h[i - 1].item) else []
  }

  function Optional(item: Option<Item>): seq<Item>
  {
    if item.Some? then [item.value] else []
  }

  lemma PushShifts(q: seq<Item>, maxLen: Option<nat>, item: Option<Item>)
    requires maxLen.Some? ==> |q| <= maxLen.value
    requires maxLen != Some(0)
    ensures Append(PopLeft(q), maxLen, item) == q[if q == [] then 0 else 1..] + Optional(item)
  {
  }

  /** Either the deque is left alone, or the item takes the place of the oldest. */
  lemma {:induction false} AppliedPushes(cfg: Config, s: Stream, c: Call)
    requires cfg.Valid() && c.HandleFull? && s.policy.Some?
    ensures var (after, q, r) := Applied(cfg, s, c);
      if Enqueues(r) then
        && q == Append(PopLeft(c.queue), c.maxLen, c.item)
        && after.metrics.dropped == s.metrics.dropped + if c.queue == [] then 0 else 1
      else q == c.queue && after.metrics.dropped == s.metrics.dropped
  {
    hide Parse, AsTick, Add, OpenAt, Append, PopLeft;
  }

  /** One overflow evicts at most the oldest item and appends at most the new one. */
  lemma {:induction false} OverflowShifts(cfg: Config, s: Stream, c: Call)
    requires cfg.Valid() && c.HandleFull? && c.Valid() && c.maxLen != Some(0)
    ensures s.metrics.dropped <= Overflowed(cfg, s, c).0.metrics.dropped <= s.metrics.dropped + |c.queue|
    ensures Overflowed(cfg, s, c).1 == c.queue[Overflowed(cfg, s, c).0.metrics.dropped - s.metrics.dropped..]
      + if Enqueues(Overflowed(cfg, s, c).2) then Optional(c.item) else []
  {
    hide Applied, Append, PopLeft, Optional;
    PushShifts(c.queue, c.maxLen, c.item);
    assert c.queue[0..] + [] == c.queue;
    var r := Resolve(cfg, s, c.registered);
    if r.policy.Some? {
      AppliedPushes(cfg, r.(metrics := r.metrics.(overflows := r.metrics.overflows + 1)), c);
    }
  }

  /** `held` is all but the oldest `dropped` of `all`. */
  predicate Newest(all: seq<Item>, dropped: nat, held: seq<Item>)
  {
    dropped <= |all| && held == all[dropped..]
  }

  lemma NewestStep(all: seq<Item>, dropped: nat, held: seq<Item>, evicted: nat, more: seq<Item>, next: seq<Item>)
    requires Newest(all, dropped, held) && evicted <= |held| && next == held[evicted..] + more
    ensures Newest(all + more, dropped + evicted, next)
  {
  }

  /** Under every policy, over every run of overflows with no consumer, the queue is what
      it held plus what was enqueued, less its oldest items, as many as were counted as
      dropped. */
  lemma {:induction false} BacklogIsNewest(cfg: Config, h: seq<Call>, name: string, q: seq<Item>, i: nat)
    requires cfg.Valid() && i <= |h| && Unconsumed(cfg, h, name, q, i) && RoomFor(h, name, i)
    ensures Newest(q + Enqueued(cfg, h, name, i), StreamAt(cfg, h, name, i).metrics.dropped,
                   Backlog(cfg, h, name, q, i))
  {
    hide Overflowed, Observed, Enqueues, Optional, Newest, StreamAt;
    if i == 0 {
      AllHeld(q);
      assert StreamAt(cfg, h, name, 0).metrics.dropped == 0 by { StartsFresh(cfg, h, name); }
    } else {
      BacklogIsNewest(cfg, h, name, q, i - 1);
      var c, s := h[i - 1], StreamAt(cfg, h, name, i - 1);
      StreamSteps(cfg, h, name, i);
      if Overflow(h, name, i - 1) {
        OverflowShifts(cfg, s, c);
        var more := if Enqueues(ReplyTo(cfg, h, i - 1)) then Optional(c.item) else [];
        EnqueuedSteps(cfg, h, name, q, i, more);
        NewestStep(q + Enqueued(cfg, h, name, i - 1), s.metrics.dropped, c.queue,
                   StreamAt(cfg, h, name, i).metrics.dropped - s.metrics.dropped, more, QueueAfter(cfg, h, i - 1));
      } else {
        assert Enqueued(cfg, h, name, i) == Enqueued(cfg, h, name, i - 1);
        if c.stream == name {
          ObservingDropsNothing(cfg, s, c);
        }
      }
    }
  }

  lemma AllHeld(q: seq<Item>)
    ensures Newest(q + [], 0, q)
  {
  }

  lemma StartsFresh(cfg: Config, h: seq<Call>, name: string)
    requires cfg.Valid()
    ensures StreamAt(cfg, h, name, 0) == Fresh(cfg, name)
  {
  }

  lemma StreamSteps(cfg: Config, h: seq<Call>, name: string, i: nat)
    requires cfg.Valid() && 0 < i <= |h|
    ensures StreamAt(cfg, h, name, i)
      == if h[i - 1].stream == name then Step(cfg, StreamAt(cfg, h, name, i - 1), h[i - 1])
         else StreamAt(cfg, h, name, i - 1)
  {
  }

  lemma {:induction false} EnqueuedSteps(cfg: Config, h: seq<Call>, name: string, q: seq<Item>, i: nat, more: seq<Item>)
    requires cfg.Valid() && 0 < i <= |h| && Overflow(h, name, i - 1)
    requires more == if Enqueues(ReplyTo(cfg, h, i - 1)) then Optional(h[i - 1].item) else []
    ensures q + Enqueued(cfg, h, name, i) == q + Enqueued(cfg, h, name, i - 1) + more
  {
    hide ReplyTo, Enqueues, Optional;
  }

  lemma {:induction false} ObservingDropsNothing(cfg: Config, s: Stream, c: Call)
    requires c.Observe?
    ensures Observed(cfg, s, c).metrics.dropped == s.metrics.dropped
    ensures Observed(cfg, s, c).ticks == s.ticks
  {
    hide Fired;
  }

  lemma {:induction false} OverflowSwaps(cfg: Config, s: Stream, c: Call)
    requires cfg.Valid() && c.HandleFull? && c.queue != []
    ensures var (after, q, r) := Overflowed(cfg, s, c);
      after.metrics.dropped == s.metrics.dropped + if Enqueues(r) then 1 else 0
  {
    hide Parse, AsTick, Append, Add, OpenAt;
  }

  lemma OverflowNeverGrows(cfg: Config, s: Stream, c: Call)
    requires cfg.Valid() && c.HandleFull?
    ensures |Overflowed(cfg, s, c).1| <= if c.queue == [] then 1 else |c.queue|
  {
    hide Parse, AsTick, Add, OpenAt;
  }

  /** With no consumer a non-empty queue never grows under any policy, whatever the calls
      carry. */
  lemma {:induction false} BacklogNeverGrows(cfg: Config, h: seq<Call>, name: string, q: seq<Item>, i: nat)
    requires cfg.Valid() && i <= |h| && Unconsumed(cfg, h, name, q, i) && q != []
    ensures |Backlog(cfg, h, name, q, i)| <= |q|
  {
    hide Overflowed;
    if i > 0 {
      BacklogNeverGrows(cfg, h, name, q, i - 1);
      if Overflow(h, name, i - 1) {
        OverflowNeverGrows(cfg, StreamAt(cfg, h, name, i - 1), h[i - 1]);
      }
    }
  }

  /** When every overflow carries an item the queue keeps its length: each item that enters
      it takes the place of the oldest. */
  lemma {:induction false} BacklogKeepsLength(cfg: Config, h: seq<Call>, name: string, q: seq<Item>, i: nat)
    requires cfg.Valid() && i <= |h| && Unconsumed(cfg, h, name, q, i) && RoomFor(h, name, i)
    requires q != [] && forall k :: 0 <= k < i && Overflow(h, name, k) ==> h[k].item.Some?
    ensures StreamAt(cfg, h, name, i).metrics.dropped == |Enqueued(cfg, h, name, i)|
    ensures |Backlog(cfg, h, name, q, i)| == |q|
  {
    hide Overflowed, Observed, Enqueues;
    BacklogIsNewest(cfg, h, name, q, i);
    if i > 0 {
      BacklogKeepsLength(cfg, h, name, q, i - 1);
      var s, c := StreamAt(cfg, h, name, i - 1), h[i - 1];
      if Overflow(h, name, i - 1) {
        OverflowSwaps(cfg, s, c);
      } else if c.stream == name {
        ObservingDropsNothing(cfg, s, c);
      }
    }
  }

  /** A never-drop stream keeps its queue, refuses every item and counts every refusal. */
  lemma {:induction false} NeverDropKeepsQueue(cfg: Config, h: seq<Call>, name: string, q: seq<Item>, i: nat)
    requires cfg.Valid() && i <= |h| && Unconsumed(cfg, h, name, q, i) && PolicyOf(cfg, name) == Some(NeverDrop)
    ensures Backlog(cfg, h, name, q, i) == q
    ensures AcceptedBefore(cfg, h, name, i) == 0
    ensures StreamAt(cfg, h, name, i).metrics.neverDrop == Overflows(h, name, i)
  {
    hide Append, Fired, NearlyFull;
    if i > 0 {
      NeverDropKeepsQueue(cfg, h, name, q, i - 1);
      PolicyIsFixed(cfg, h, name, i - 1);
    }
  }

  /** What a reply that an item was enqueued promises: the item is in the queue. */
  predicate Held(c: Call, q: seq<Item>)
    requires c.HandleFull?
  {
    c.item.Some? && c.item.value in q
  }

  /** The promise is kept exactly when there is an item and the deque has room at all. */
  lemma {:induction false} EnqueuedIsHeldExactly(cfg: Config, s: Stream, c: Call)
    requires cfg.Valid() && c.HandleFull? && c.Valid()
    requires Enqueues(Overflowed(cfg, s, c).2)
    ensures Overflowed(cfg, s, c).2.decision.accepted
    ensures Held(c, Overflowed(cfg, s, c).1) <==> c.item.Some? && c.maxLen != Some(0)
  {
    hide Parse, AsTick, Add, OpenAt, Append, PopLeft;
    AppendHolds(c);
    var r := Resolve(cfg, s, c.registered);
    AppliedPushes(cfg, r.(metrics := r.metrics.(overflows := r.metrics.overflows + 1)), c);
  }

  lemma {:induction false} AppendHolds(c: Call)
    requires c.HandleFull? && c.Valid()
    ensures Held(c, Append(PopLeft(c.queue), c.maxLen, c.item)) <==> c.item.Some? && c.maxLen != Some(0)
  {
    if c.item.Some? {
      var q := PopLeft(c.queue);
      if c.maxLen != Some(0) {
        assert Append(q, c.maxLen, c.item) == q + [c.item.value];
      } else {
        assert q + [c.item.value] == [c.item.value];
      }
    }
  }

  /** An overflow without an item is accepted all the same, and evicts. */
  lemma {:induction false} AcceptedCanBeNothing(x: Item)
    ensures var cfg := Config(map["s" := DropOldest], 5.0, 0.8, 2, true, false);
      var c := HandleFull("s", [x], Some(1), None, 0.0, 0.0, 0.0);
      && cfg.Valid() && c.Valid() && Fresh(cfg, "s").policy == Some(DropOldest)
      && var (_, q, r) := Overflowed(cfg, Fresh(cfg, "s"), c);
      Enqueues(r) && r.decision.accepted && q == []
  {
    assert [x][1..] == [];
  }

  /** With capacity zero both enqueueing policies lose what they accept. */
  lemma {:induction false} AcceptedCanBeLost(x: Item)
    ensures var cfg := Config(map["s" := DropOldest], 5.0, 0.8, 2, true, false);
      var c := HandleFull("s", [], Some(0), Some(x), 0.0, 0.0, 0.0);
      && cfg.Valid() && c.Valid() && Fresh(cfg, "s").policy == Some(DropOldest)
      && var (_, q, r) := Overflowed(cfg, Fresh(cfg, "s"), c);
      Enqueues(r) && r.decision.accepted && q == []
  {
    assert ([] + [x])[1..] == [];
  }

  // ---------------------------------------------------------------- bars

  /** The ticks of a degraded stream that carry a price. */
  function Priced(h: seq<Call>, name: string, i: nat): seq<Tick>
    requires i <= |h|
  {
    if i == 0 then []
    else
      var t := if Overflow(h, name, i - 1) then Parse(AsTick(h[i - 1].item), h[i - 1].wall) else None;
      Priced(h, name, i - 1) + if t.Some? then [t.value] else []
  }

  /** The bars the replies carried, in order. */
  function Emitted(cfg: Config, h: seq<Call>, name: string, i: nat): seq<Bar>
    requires cfg.Valid() && i <= |h|
  {
    if i == 0 then []
    else
      var r := if Overflow(h, name, i - 1) then ReplyTo(cfg, h, i - 1) else Noted;
      Emitted(cfg, h, name, i - 1) + if r.Decided? then Closing(r.decision.emitted) else []
  }

  lemma {:induction false} AddingCompletes(ts: seq<Tick>, t: Tick)
    ensures Completed(INTERVAL, ts + [t], |ts| + 1)
      == Completed(INTERVAL, ts, |ts|) + Closing(Add(INTERVAL, OpenAt(INTERVAL, ts, |ts|), t).0)
  {
    hide Add;
    OhlcBars.RunExtends(INTERVAL, ts, t, |ts|);
  }

  /** Exactly the priced ticks are folded, and exactly the completed bars are handed out. */
  lemma {:induction false} DegradeFoldsPricedTicks(cfg: Config, h: seq<Call>, name: string, i: nat)
    requires cfg.Valid() && i <= |h| && PolicyOf(cfg, name) == Some(Degrade)
    ensures StreamAt(cfg, h, name, i).ticks == Priced(h, name, i)
    ensures Emitted(cfg, h, name, i) == Completed(INTERVAL, Priced(h, name, i), |Priced(h, name, i)|)
  {
    hide Parse, AsTick, Append, PopLeft, NearlyFull, MayFire, Fired, Add, OpenAt, Completed;
    if i == 0 {
      assert Completed(INTERVAL, [], 0) == [] by { NothingCompleted(); }
    } else {
      DegradeFoldsPricedTicks(cfg, h, name, i - 1);
      PolicyIsFixed(cfg, h, name, i - 1);
      if Overflow(h, name, i - 1) {
        var t := Parse(AsTick(h[i - 1].item), h[i - 1].wall);
        if t.Some? {
          AddingCompletes(Priced(h, name, i - 1), t.value);
        }
      }
    }
  }

  lemma NothingCompleted()
    ensures Completed(INTERVAL, [], 0) == []
  {
  }

  /** Over any run, the bars handed out and the open bar partition the priced ticks in
      order, each bar being first, greatest, least, last and sum of its part. */
  lemma {:induction false} DegradeLosesNoTick(cfg: Config, h: seq<Call>, name: string, i: nat)
    returns (parts: seq<seq<Tick>>, open: seq<Tick>)
    requires cfg.Valid() && i <= |h| && PolicyOf(cfg, name) == Some(Degrade)
    ensures Flatten(parts) + open == Priced(h, name, i)
    ensures |parts| == |Emitted(cfg, h, name, i)|
    ensures forall k :: 0 <= k < |parts| ==> Describes(INTERVAL, Emitted(cfg, h, name, i)[k], parts[k])
    ensures open != [] ==> Describes(INTERVAL, OpenAt(INTERVAL, Priced(h, name, i), |Priced(h, name, i)|).value, open)
    ensures open == [] <==> Priced(h, name, i) == []
  {
    hide Describes, Parse, Completed, Runs, RunStart, Emitted, Flatten;
    var ts, n := Priced(h, name, i), |Priced(h, name, i)|;
    DegradeFoldsPricedTicks(cfg, h, name, i);
    BarsPartitionTicks(INTERVAL, ts, n);
    BarsDescribeRuns(INTERVAL, ts, n);
    assert ts[..n] == ts;
    parts, open := Runs(INTERVAL, ts, n), ts[RunStart(INTERVAL, ts, n)..n];
    if n > 0 {
      OpenDescribed(INTERVAL, ts, n);
      DescribedIsNonEmpty(INTERVAL, OpenAt(INTERVAL, ts, n).value, open);
    }
  }

  ghost predicate AllPriced(h: seq<Call>, name: string, i: nat)
    requires i <= |h|
  {
    forall k :: 0 <= k < i && Overflow(h, name, k) ==> Parse(AsTick(h[k].item), h[k].wall).Some?
  }

  lemma {:induction false} PricedCount(h: seq<Call>, name: string, i: nat)
    requires i <= |h|
    ensures |Priced(h, name, i)| <= Overflows(h, name, i)
    ensures |Priced(h, name, i)| == Overflows(h, name, i) <==> AllPriced(h, name, i)
  {
    hide Parse, AsTick;
    if i > 0 {
      PricedCount(h, name, i - 1);
    }
  }

  /** The count of ticks folded into bars is right exactly when every overflow carried a
      price: it is raised before the tick is looked at. */
  lemma {:induction false} DegradedCountExactly(cfg: Config, h: seq<Call>, name: string, i: nat)
    requires cfg.Valid() && i <= |h| && PolicyOf(cfg, name) == Some(Degrade)
    ensures StreamAt(cfg, h, name, i).metrics.degraded >= |StreamAt(cfg, h, name, i).ticks|
    ensures StreamAt(cfg, h, name, i).metrics.degraded == |StreamAt(cfg, h, name, i).ticks| <==> AllPriced(h, name, i)
  {
    hide Parse, AsTick, StreamAt;
    OverflowsAreAccounted(cfg, h, name, i);
    DegradeFoldsPricedTicks(cfg, h, name, i);
    PricedCount(h, name, i);
  }

  /** One bad item is enough: it is refused and yet counted as folded. */
  lemma {:induction false} DegradedCanOvercount()
    ensures exists cfg: Config, h: seq<Call>, name: string ::
      && cfg.Valid() && |h| == 1 && PolicyOf(cfg, name) == Some(Degrade)
      && StreamAt(cfg, h, name, 1).metrics.degraded == 1 && StreamAt(cfg, h, name, 1).ticks == []
  {
    var cfg := Config(map["s" := Degrade], 5.0, 0.8, 2, true, false);
    var h := [HandleFull("s", [], None, None, 0.0, 0.0, 0.0)];
    assert StreamAt(cfg, h, "s", 0) == Fresh(cfg, "s");
    assert Parse(AsTick(None), 0.0) == None by { assert FirstNumber([Unusable, Absent][1..]) == None; }
    assert PolicyOf(cfg, "s") == Some(Degrade);
    var s := StreamAt(cfg, h, "s", 1);
    assert s.metrics.degraded == 1 && s.ticks == [];
  }

  // ---------------------------------------------------------------- alerts over runs

  /** Alert readings in the order of the calls. */
  ghost predicate ClockNeverRunsBack(h: seq<Call>)
  {
    && (forall k :: 0 <= k < |h| ==> h[k].registered <= h[k].alerted)
    && (forall j, k :: 0 <= j < k < |h| ==> h[j].alerted <= h[k].registered)
  }

  predicate NoLater(xs: seq<real>, at: real)
  {
    xs != [] ==> xs[|xs| - 1] <= at
  }

  lemma {:induction false} StepAttempts(cfg: Config, s: Stream, c: Call)
    requires cfg.Valid() && Ascend(s.attempts) && NoLater(s.attempts, c.registered) && c.registered <= c.alerted
    ensures Ascend(Step(cfg, s, c).attempts) && NoLater(Step(cfg, s, c).attempts, c.alerted)
  {
    hide Parse, AsTick, Append, NearlyFull, Fired, Add, OpenAt;
  }

  lemma {:induction false} AttemptsAscend(cfg: Config, h: seq<Call>, name: string, i: nat)
    requires cfg.Valid() && i <= |h| && ClockNeverRunsBack(h)
    ensures Ascend(StreamAt(cfg, h, name, i).attempts)
    ensures if i == 0 then StreamAt(cfg, h, name, i).attempts == []
            else NoLater(StreamAt(cfg, h, name, i).attempts, h[i - 1].alerted)
  {
    hide Step;
    if i > 0 {
      AttemptsAscend(cfg, h, name, i - 1);
      if i > 1 {
        assert h[i - 2].alerted <= h[i - 1].registered;
      }
      StepAttempts(cfg, StreamAt(cfg, h, name, i - 1), h[i - 1]);
    }
  }

  /** On each stream alerts that fire are at least the cooldown apart, and every alert that
      does not fire falls within the cooldown of one that did. */
  lemma {:induction false} StreamAlertsAreLimited(cfg: Config, h: seq<Call>, name: string, i: nat)
    requires cfg.Valid() && i <= |h| && ClockNeverRunsBack(h)
    ensures Spaced(cfg.cooldown, Fired(cfg.cooldown, StreamAt(cfg, h, name, i).attempts))
    ensures forall at :: at in StreamAt(cfg, h, name, i).attempts ==>
      CoveredBy(cfg.cooldown, Fired(cfg.cooldown, StreamAt(cfg, h, name, i).attempts), at)
  {
    hide StreamAt, CoveredBy;
    var attempts := StreamAt(cfg, h, name, i).attempts;
    FiredAreSpaced(cfg.cooldown, attempts);
    AttemptsAscend(cfg, h, name, i);
    forall at | at in attempts ensures CoveredBy(cfg.cooldown, Fired(cfg.cooldown, attempts), at) {
      EveryAttemptIsCovered(cfg.cooldown, attempts, at);
    }
  }

  /** Overflows of a never-drop stream whose alert fell within the cooldown. */
  function Silenced(cfg: Config, h: seq<Call>, name: string, i: nat): nat
    requires cfg.Valid() && i <= |h|
  {
    if i == 0 then 0
    else
      var s := StreamAt(cfg, h, name, i - 1);
      Silenced(cfg, h, name, i - 1)
      + if Overflow(h, name, i - 1) && PolicyOf(cfg, name) == Some(NeverDrop)
          && !MayFire(cfg.cooldown, LastOf(Fired(cfg.cooldown, s.attempts)), h[i - 1].alerted)
        then 1 else 0
  }

  lemma {:induction false} FiredAppend(cooldown: real, xs: seq<real>, at: real)
    ensures |Fired(cooldown, xs + [at])|
      == |Fired(cooldown, xs)| + if MayFire(cooldown, LastOf(Fired(cooldown, xs)), at) then 1 else 0
  {
    assert (xs + [at])[..|xs|] == xs;
  }

  /** The alert counter is the number of alerts that fired, plus the silenced ones of
      never-drop overflows, which it also counts, less the one that announces an
      undeclared stream, which it does not. */
  lemma {:induction false} AlertCountExactly(cfg: Config, h: seq<Call>, name: string, i: nat)
    requires cfg.Valid() && i <= |h|
    ensures var s := StreamAt(cfg, h, name, i);
      s.metrics.alerts + (if s.policy.Some? && name !in cfg.policies then 1 else 0)
      == |Fired(cfg.cooldown, s.attempts)| + Silenced(cfg, h, name, i)
  {
    hide Parse, AsTick, Append, NearlyFull, Fired, Add, OpenAt, MayFire;
    if i == 0 {
      NothingFired(cfg.cooldown);
    } else {
      AlertCountExactly(cfg, h, name, i - 1);
      PolicyIsFixed(cfg, h, name, i - 1);
      var s, c := StreamAt(cfg, h, name, i - 1), h[i - 1];
      if c.stream == name {
        var r := Resolve(cfg, s, c.registered);
        FirstMayFire(cfg.cooldown, c.registered);
        FiredAppend(cfg.cooldown, s.attempts, c.registered);
        FiredAppend(cfg.cooldown, r.attempts, c.alerted);
      }
    }
  }

  lemma NothingFired(cooldown: real)
    ensures Fired(cooldown, []) == []
  {
  }

  lemma FirstMayFire(cooldown: real, at: real)
    ensures Fired(cooldown, []) == [] && MayFire(cooldown, LastOf(Fired(cooldown, [])), at)
  {
  }

  /** Two refusals in one cooldown: one alert fires and two are counted. */
  lemma {:induction false} AlertCountCanOverstate()
    ensures exists cfg: Config, h: seq<Call>, name: string ::
      && cfg.Valid() && |h| == 2 && ClockNeverRunsBack(h)
      && StreamAt(cfg, h, name, 2).metrics.alerts == 2
      && |Fired(cfg.cooldown, StreamAt(cfg, h, name, 2).attempts)| == 1
  {
    var cfg := Config(map["s" := NeverDrop], 5.0, 0.8, 2, true, false);
    var c := HandleFull("s", [], None, None, 0.0, 0.0, 0.0);
    var h := [c, c];
    assert StreamAt(cfg, h, "s", 0) == Fresh(cfg, "s");
    var one, two := StreamAt(cfg, h, "s", 1), StreamAt(cfg, h, "s", 2);
    assert one.metrics.alerts == 1 && one.attempts == [0.0];
    assert two.metrics.alerts == 2 && two.attempts == [0.0, 0.0];
    FiredAppend(cfg.cooldown, [], 0.0);
    FiredAppend(cfg.cooldown, [0.0], 0.0);
    assert [] + [0.0] == [0.0] && [0.0] + [0.0] == [0.0, 0.0];
    FirstMayFire(cfg.cooldown, 0.0);
    assert [0.0][..0] == [];
    assert Fired(cfg.cooldown, [0.0]) == [0.0];
  }
}
