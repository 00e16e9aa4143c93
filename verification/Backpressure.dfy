/** The backpressure manager over its dictionaries, bar aggregators, alert limiter and the
    caller's deques. Every stream follows its value machine. */
module Backpressure {
  import opened Options
  import opened OhlcBars
  import opened StreamPolicies

  class Deque {
    const maxLen: Option<nat>
    var items: seq<Item>

    predicate Valid()
      reads this
    {
      maxLen.Some? ==> |items| <= maxLen.value
    }

    constructor (maxLen: Option<nat>)
      ensures Valid() && items == [] && this.maxLen == maxLen
    {
      this.maxLen, items := maxLen, [];
    }

    /** False on an empty deque, which a concurrent consumer may have drained. */
    method SafePopLeft() returns (popped: bool)
      requires Valid()
      modifies this
      ensures Valid() && items == PopLeft(old(items)) && (popped <==> old(items) != [])
    {
      popped := items != [];
      if popped {
        items := items[1..];
      }
    }

    method Push(item: Item)
      requires Valid()
      modifies this
      ensures Valid() && items == Append(old(items), maxLen, Some(item))
    {
      items := items + [item];
      if maxLen.Some? && |items| > maxLen.value {
        items := items[1..];
      }
    }
  }

  function Lookup<V>(m: map<string, V>, name: string): Option<V>
  {
    if name in m then Some(m[name]) else None
  }

  function LookupOr<V>(m: map<string, V>, name: string, default: V): V
  {
    if name in m then m[name] else default
  }

  class RateLimitedAlert {
    const cooldown: real
    var lastAlertTime: map<string, real>
    ghost var attempts: map<string, seq<real>>

    ghost predicate Valid()
      reads this
    {
      && cooldown >= 0.0
      && forall name :: Lookup(lastAlertTime, name) == LastOf(Fired(cooldown, LookupOr(attempts, name, [])))
    }

    constructor (cooldown: real)
      requires cooldown >= 0.0
      ensures Valid() && this.cooldown == cooldown && attempts == map[]
    {
      this.cooldown, lastAlertTime, attempts := cooldown, map[], map[];
    }

    /** Fires unless the last alert on the stream fired less than a cooldown ago. */
    method Trigger(name: string, now: real) returns (fired: bool)
      requires Valid()
      modifies this
      ensures Valid() && attempts == old(attempts)[name := LookupOr(old(attempts), name, []) + [now]]
      ensures fired == MayFire(cooldown, LastOf(Fired(cooldown, LookupOr(old(attempts), name, []))), now)
    {
      ghost var earlier := LookupOr(attempts, name, []);
      assert (earlier + [now])[..|earlier|] == earlier;
      assert Lookup(lastAlertTime, name) == LastOf(Fired(cooldown, earlier));
      fired := !(name in lastAlertTime && now - lastAlertTime[name] < cooldown);
      if fired {
        lastAlertTime := lastAlertTime[name := now];
      }
      attempts := attempts[name := earlier + [now]];
      forall n ensures Lookup(lastAlertTime, n) == LastOf(Fired(cooldown, LookupOr(attempts, n, []))) {
        assert n != name ==> Lookup(lastAlertTime, n) == old(Lookup(lastAlertTime, n));
      }
    }
  }

  class BackpressureManager {
    const config: Config
    const limiter: RateLimitedAlert
    const aggregators: map<string, TickAggregator>
    var policyByStream: map<string, Policy>
    var metrics: map<string, Metrics>
    var sampleCounter: map<string, nat>
    ghost var history: seq<Call>

    /** Aggregators are sound and not shared between streams. */
    ghost predicate BarsValid()
      reads aggregators.Values
    {
      && (forall n :: n in aggregators ==> aggregators[n].Valid() && aggregators[n].interval == INTERVAL)
      && (forall n, m :: n in aggregators && m in aggregators && n != m ==> aggregators[n] != aggregators[m])
    }

    ghost predicate TablesValid()
      reads this`policyByStream, this`metrics
    {
      && config.Valid()
      && limiter.cooldown == config.cooldown
      && policyByStream.Keys == metrics.Keys
      && forall n :: n in policyByStream && policyByStream[n].Degrade? ==> n in aggregators
    }

    /** What the manager holds about one stream. */
    ghost function Abstract(name: string): Stream
      reads this`policyByStream, this`metrics, this`sampleCounter, limiter`attempts, aggregators.Values
    {
      Stream(Lookup(policyByStream, name), LookupOr(metrics, name, ZERO), LookupOr(sampleCounter, name, 0),
             if name in aggregators then aggregators[name].ticks else [],
             LookupOr(limiter.attempts, name, []))
    }

    ghost predicate Follows(calls: seq<Call>)
      requires config.Valid()
      reads this, limiter, aggregators.Values
    {
      forall n :: Abstract(n) == StreamAt(config, calls, n, |calls|)
    }

    /** Every stream is where its own calls have brought it. */
    ghost predicate Valid()
      reads this, limiter, aggregators.Values
    {
      TablesValid() && limiter.Valid() && BarsValid() && Follows(history)
    }

    constructor (config: Config)
      requires config.Valid()
      ensures Valid() && this.config == config && history == []
      ensures fresh(limiter) && fresh(aggregators.Values)
    {
      hide TickAggregator.Valid, RateLimitedAlert.Valid;
      this.config := config;
      limiter := new RateLimitedAlert(config.cooldown);
      var made := MakeAggregators(config.policies);
      aggregators := made;
      policyByStream := config.policies;
      metrics := map n | n in config.policies :: ZERO;
      sampleCounter := map[];
      history := [];
      new;
      assert forall n :: Abstract(n) == Fresh(config, n);
    }

    /** The call joins the history once its stream, and no other, has made its step. */
    ghost method Record(c: Call, before: seq<Call>)
      requires config.Valid()
      requires Abstract(c.stream) == Step(config, StreamAt(config, before, c.stream, |before|), c)
      requires forall n :: n != c.stream ==> Abstract(n) == StreamAt(config, before, n, |before|)
      modifies this`history
      ensures Follows(history) && history == before + [c]
    {
      hide Step;
      history := before + [c];
      forall n ensures Abstract(n) == StreamAt(config, history, n, |history|) {
        HistoryExtends(config, before, c, n, |before|);
      }
    }

    // The steps below change one stream at a time and leave the others alone.

    /** The stream's policy, registering an undeclared stream where that is allowed. */
    method ResolvePolicy(name: string, at: real) returns (policy: Option<Policy>)
      requires TablesValid() && limiter.Valid()
      modifies this`policyByStream, this`metrics, limiter
      ensures TablesValid() && limiter.Valid()
      ensures policy == Abstract(name).policy
      ensures Abstract(name) == Resolve(config, old(Abstract(name)), at)
      ensures forall n :: n != name ==> Abstract(n) == old(Abstract(n))
    {
      hide RateLimitedAlert.Valid;
      if name in policyByStream {
        return Some(policyByStream[name]);
      }
      if config.strictUnknown {
        return None;
      }
      policyByStream := policyByStream[name := DropOldest];
      metrics := metrics[name := ZERO];
      var _ := limiter.Trigger(name, at);
      return Some(DropOldest);
    }

    method MetricsFor(name: string) returns (m: Metrics)
      requires TablesValid() && Abstract(name).policy.Some?
      ensures m == Abstract(name).metrics
    {
      m := metrics[name];
    }

    method SetMetrics(name: string, m: Metrics)
      requires TablesValid() && Abstract(name).policy.Some?
      modifies this`metrics
      ensures TablesValid()
      ensures Abstract(name) == old(Abstract(name)).(metrics := m)
      ensures forall n :: n != name ==> Abstract(n) == old(Abstract(n))
    {
      metrics := metrics[name := m];
    }

    method TriggerAlert(name: string, at: real) returns (fired: bool)
      requires TablesValid() && limiter.Valid()
      modifies limiter
      ensures TablesValid() && limiter.Valid()
      ensures fired == MayFire(config.cooldown, LastOf(Fired(config.cooldown, old(Abstract(name)).attempts)), at)
      ensures Abstract(name) == old(Abstract(name)).(attempts := old(Abstract(name)).attempts + [at])
      ensures forall n :: n != name ==> Abstract(n) == old(Abstract(n))
    {
      hide RateLimitedAlert.Valid, Fired;
      fired := limiter.Trigger(name, at);
    }

    method CountSample(name: string) returns (count: nat)
      requires TablesValid()
      modifies this`sampleCounter
      ensures TablesValid()
      ensures count == old(Abstract(name)).hits + 1
      ensures Abstract(name) == old(Abstract(name)).(hits := count)
      ensures forall n :: n != name ==> Abstract(n) == old(Abstract(n))
    {
      count := LookupOr(sampleCounter, name, 0) + 1;
      sampleCounter := sampleCounter[name := count];
    }

    method AddToBar(name: string, raw: RawTick, wall: real) returns (bar: Result<Option<Bar>>)
      requires TablesValid() && BarsValid() && Abstract(name).policy == Some(Degrade)
      modifies aggregators.Values
      ensures BarsValid()
      ensures bar.NoUsablePrice? <==> Parse(raw, wall).None?
      ensures var s := old(Abstract(name));
        if bar.NoUsablePrice? then Abstract(name) == s
        else
          && Abstract(name) == s.(ticks := s.ticks + [Parse(raw, wall).value])
          && bar.value == Add(INTERVAL, OpenAt(INTERVAL, s.ticks, |s.ticks|), Parse(raw, wall).value).0
      ensures forall n :: n != name ==> Abstract(n) == old(Abstract(n))
    {
      hide Parse, Add, OpenAt, Completed;
      bar := aggregators[name].AddTick(raw, wall);
    }

    /** Records a push and warns before the queue is full. */
    method Observe(name: string, queue: Deque, registered: real, alerted: real) returns (r: Reply)
      requires Valid() && queue.Valid()
      modifies this, limiter
      ensures Valid()
      ensures history == old(history) + [Call.Observe(name, queue.items, queue.maxLen, registered, alerted)]
      ensures r == if PolicyOf(config, name).None? then UnknownStream else Noted
    {
      hide Observed, Abstract, RateLimitedAlert.Valid, BarsValid, StreamAt;
      ghost var before := history;
      ghost var call := Call.Observe(name, queue.items, queue.maxLen, registered, alerted);
      r := NotePush(name, queue, registered, alerted, call);
      Record(call, before);
      PolicyIsFixed(config, history, name, |history|);
      assert Called(history, name, |history|);
    }

    method NotePush(name: string, queue: Deque, registered: real, alerted: real, ghost call: Call) returns (r: Reply)
      requires TablesValid() && limiter.Valid()
      requires call == Call.Observe(name, queue.items, queue.maxLen, registered, alerted)
      modifies this`policyByStream, this`metrics, limiter
      ensures TablesValid() && limiter.Valid()
      ensures Abstract(name) == Observed(config, old(Abstract(name)), call)
      ensures forall n :: n != name ==> Abstract(n) == old(Abstract(n))
      ensures r == if Abstract(name).policy.Some? then Noted else UnknownStream
    {
      hide Abstract, TablesValid, Fired, MayFire, RateLimitedAlert.Valid, NearlyFull, Alert, Resolve;
      var policy := ResolvePolicy(name, registered);
      if policy.None? {
        return UnknownStream;
      }
      var m := MetricsFor(name);
      SetMetrics(name, m.(observed := m.observed + 1));
      CheckWatermark(name, queue, alerted);
      return Noted;
    }

    method CheckWatermark(name: string, queue: Deque, at: real)
      requires TablesValid() && limiter.Valid() && Abstract(name).policy.Some?
      modifies this`metrics, limiter
      ensures TablesValid() && limiter.Valid()
      ensures var s := old(Abstract(name)); var m := s.metrics;
        Abstract(name)
        == if NearlyFull(config, |queue.items|, queue.maxLen)
           then Alert(config, s.(metrics := m.(breaches := m.breaches + 1)), at) else s
      ensures forall n :: n != name ==> Abstract(n) == old(Abstract(n))
    {
      hide Abstract, TablesValid, Fired, MayFire, RateLimitedAlert.Valid;
      if queue.maxLen.None? || queue.maxLen.value == 0 {
        return;
      }
      var fill := |queue.items| as real / queue.maxLen.value as real;
      if fill < config.watermark {
        return;
      }
      var m := MetricsFor(name);
      SetMetrics(name, m.(breaches := m.breaches + 1));
      var fired := TriggerAlert(name, at);
      if fired {
        m := MetricsFor(name);
        SetMetrics(name, m.(alerts := m.alerts + 1));
      }
    }

    /** Applies the stream's policy to an overflow. */
    method HandleFull(name: string, queue: Deque, item: Option<Item>, wall: real, registered: real, alerted: real)
      returns (r: Reply)
      requires Valid() && queue.Valid()
      modifies this, limiter, aggregators.Values, queue
      ensures Valid() && queue.Valid()
      ensures history == old(history)
        + [Call.HandleFull(name, old(queue.items), queue.maxLen, item, wall, registered, alerted)]
      ensures r == ReplyTo(config, history, |old(history)|)
      ensures queue.items == QueueAfter(config, history, |old(history)|)
    {
      hide Overflowed, Abstract, RateLimitedAlert.Valid, BarsValid, StreamAt;
      ghost var before := history;
      ghost var call := Call.HandleFull(name, queue.items, queue.maxLen, item, wall, registered, alerted);
      r := TakeOverflow(name, queue, item, wall, registered, alerted, call);
      HistoryExtends(config, before, call, name, |before|);
      Record(call, before);
    }

    method TakeOverflow(name: string, queue: Deque, item: Option<Item>, wall: real, registered: real, alerted: real,
                        ghost call: Call)
      returns (r: Reply)
      requires TablesValid() && limiter.Valid() && BarsValid() && queue.Valid()
      requires call == Call.HandleFull(name, queue.items, queue.maxLen, item, wall, registered, alerted)
      modifies this`policyByStream, this`metrics, this`sampleCounter, limiter, aggregators.Values, queue
      ensures TablesValid() && limiter.Valid() && BarsValid() && queue.Valid()
      ensures (Abstract(name), queue.items, r) == Overflowed(config, old(Abstract(name)), call)
      ensures forall n :: n != name ==> Abstract(n) == old(Abstract(n))
    {
      hide Abstract, TablesValid, BarsValid, RateLimitedAlert.Valid, Resolve, Applied;
      var policy := ResolvePolicy(name, registered);
      if policy.None? {
        return UnknownStream;
      }
      var m := MetricsFor(name);
      SetMetrics(name, m.(overflows := m.overflows + 1));
      r := ApplyPolicy(name, policy.value, queue, item, wall, alerted, call);
    }

    method ApplyPolicy(name: string, policy: Policy, queue: Deque, item: Option<Item>, wall: real, alerted: real,
                       ghost call: Call)
      returns (r: Reply)
      requires TablesValid() && limiter.Valid() && BarsValid() && queue.Valid()
      requires Abstract(name).policy == Some(policy) && call.HandleFull?
      requires call == Call.HandleFull(name, queue.items, queue.maxLen, item, wall, call.registered, alerted)
      modifies this`metrics, this`sampleCounter, limiter, aggregators.Values, queue
      ensures TablesValid() && limiter.Valid() && BarsValid() && queue.Valid()
      ensures (Abstract(name), queue.items, r) == Applied(config, old(Abstract(name)), call)
      ensures forall n :: n != name ==> Abstract(n) == old(Abstract(n))
    {
      hide Abstract, TablesValid, BarsValid, RateLimitedAlert.Valid;
      hide Parse, AsTick, Append, PopLeft, Add, OpenAt;
      match policy {
        case DropOldest => r := Replace(name, DropOldest, EnqueuedAfterDrop, queue, item);
        case Sample => r := SampleItem(name, queue, item);
        case Degrade => r := DegradeItem(name, item, wall);
        case NeverDrop => r := Refuse(name, item, alerted);
      }
    }

    /** Evicts the oldest item, if any is left, and enqueues the new one. */
    method Replace(name: string, policy: Policy, action: Action, queue: Deque, item: Option<Item>) returns (r: Reply)
      requires TablesValid() && queue.Valid() && Abstract(name).policy.Some?
      modifies this`metrics, queue
      ensures TablesValid() && queue.Valid()
      ensures queue.items == Append(PopLeft(old(queue.items)), queue.maxLen, item)
      ensures var s, discarded := old(Abstract(name)), if old(queue.items) == [] then 0 else 1;
        && r == Decided(Decision(name, policy, action, true, None, discarded, None))
        && Abstract(name) == s.(metrics := s.metrics.(dropped := s.metrics.dropped + discarded))
      ensures forall n :: n != name ==> Abstract(n) == old(Abstract(n))
    {
      hide Abstract, TablesValid;
      var popped := queue.SafePopLeft();
      var discarded := if popped then 1 else 0;
      var m := MetricsFor(name);
      SetMetrics(name, m.(dropped := m.dropped + discarded));
      if item.Some? {
        queue.Push(item.value);
      }
      return Decided(Decision(name, policy, action, true, None, discarded, None));
    }

    method SampleItem(name: string, queue: Deque, item: Option<Item>) returns (r: Reply)
      requires TablesValid() && queue.Valid() && Abstract(name).policy.Some?
      modifies this`metrics, this`sampleCounter, queue
      ensures TablesValid() && queue.Valid()
      ensures var s := old(Abstract(name)); var m, hits := s.metrics, s.hits + 1;
        if hits % config.keepEvery != 0 then
          && Abstract(name) == s.(hits := hits, metrics := m.(sampled := m.sampled + 1))
          && queue.items == old(queue.items)
          && r == Decided(Decision(name, Sample, Throttled, false, None, 1, item))
        else
          var discarded := if old(queue.items) == [] then 0 else 1;
          && Abstract(name) == s.(hits := hits, metrics := m.(dropped := m.dropped + discarded))
          && queue.items == Append(PopLeft(old(queue.items)), queue.maxLen, item)
          && r == Decided(Decision(name, Sample, EnqueuedAfterSample, true, None, discarded, None))
      ensures forall n :: n != name ==> Abstract(n) == old(Abstract(n))
    {
      hide Abstract, Append, PopLeft;
      var count := CountSample(name);
      if count % config.keepEvery != 0 {
        var m := MetricsFor(name);
        SetMetrics(name, m.(sampled := m.sampled + 1));
        return Decided(Decision(name, Sample, Throttled, false, None, 1, item));
      }
      r := Replace(name, Sample, EnqueuedAfterSample, queue, item);
    }

    /** The count goes up before the tick is looked at. */
    method DegradeItem(name: string, item: Option<Item>, wall: real) returns (r: Reply)
      requires TablesValid() && BarsValid() && Abstract(name).policy == Some(Degrade)
      modifies this`metrics, aggregators.Values
      ensures TablesValid() && BarsValid()
      ensures var s, tick := old(Abstract(name)), Parse(AsTick(item), wall);
        var counted := s.(metrics := s.metrics.(degraded := s.metrics.degraded + 1));
        if tick.None? then Abstract(name) == counted && r == UnpricedTick
        else
          && Abstract(name) == counted.(ticks := s.ticks + [tick.value])
          && r == Decided(Decision(name, Degrade, Aggregated, true,
                                   Add(INTERVAL, OpenAt(INTERVAL, s.ticks, |s.ticks|), tick.value).0, 0, None))
      ensures forall n :: n != name ==> Abstract(n) == old(Abstract(n))
    {
      hide Abstract, TablesValid, BarsValid, Parse, Add, OpenAt;
      var m := MetricsFor(name);
      SetMetrics(name, m.(degraded := m.degraded + 1));
      var bar := AddToBar(name, AsTick(item), wall);
      if bar.NoUsablePrice? {
        return UnpricedTick;
      }
      return Decided(Decision(name, Degrade, Aggregated, true, bar.value, 0, None));
    }

    /** The item stays with the caller; every refusal is counted, and counts as an alert. */
    method Refuse(name: string, item: Option<Item>, at: real) returns (r: Reply)
      requires TablesValid() && limiter.Valid() && Abstract(name).policy.Some?
      modifies this`metrics, limiter
      ensures TablesValid() && limiter.Valid()
      ensures var s := old(Abstract(name)); var m := s.metrics;
        Abstract(name) == s.(metrics := m.(neverDrop := m.neverDrop + 1, alerts := m.alerts + 1),
                             attempts := s.attempts + [at])
      ensures forall n :: n != name ==> Abstract(n) == old(Abstract(n))
      ensures r == if config.strictNeverDrop then NeverDropOverflow
                   else Decided(Decision(name, NeverDrop, RejectedOverflow, false, None, 0, item))
    {
      hide Abstract, TablesValid, RateLimitedAlert.Valid, Fired;
      var m := MetricsFor(name);
      SetMetrics(name, m.(neverDrop := m.neverDrop + 1, alerts := m.alerts + 1));
      var _ := TriggerAlert(name, at);
      if config.strictNeverDrop {
        return NeverDropOverflow;
      }
      return Decided(Decision(name, NeverDrop, RejectedOverflow, false, None, 0, item));
    }
  }

  /** One fresh aggregator for each stream declared to degrade. */
  method MakeAggregators(policies: map<string, Policy>) returns (made: map<string, TickAggregator>)
    ensures fresh(made.Values)
    ensures forall n :: n in made <==> n in policies && policies[n].Degrade?
    ensures forall n :: n in made ==> made[n].Valid() && made[n].interval == INTERVAL && made[n].ticks == []
    ensures forall n, m :: n in made && m in made && n != m ==> made[n] != made[m]
  {
    made := map[];
    var rest := policies.Keys;
    while rest != {}
      invariant rest <= policies.Keys
      invariant fresh(made.Values)
      invariant forall n :: n in made ==> made[n].Valid() && made[n].interval == INTERVAL && made[n].ticks == []
      invariant forall n, m :: n in made && m in made && n != m ==> made[n] != made[m]
      invariant forall n :: n in made <==> n in policies && n !in rest && policies[n].Degrade?
    {
      var name :| name in rest;
      if policies[name].Degrade? {
        var aggregator := new TickAggregator(INTERVAL);
        ghost var earlier := made;
        made := made[name := aggregator];
        assert made.Values <= earlier.Values + {aggregator};
      }
      rest := rest - {name};
    }
  }
}
