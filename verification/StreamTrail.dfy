/** What each overflow is answered and when alerts are asked for, told from the calls alone. */
module StreamTrail {
  import opened Options
  import opened OhlcBars
  import opened StreamPolicies

  // ---------------------------------------------------------------- the policy a stream has

  /** The policy declared for a stream, or, for an undeclared one unless that is an error, the
      policy that drops the oldest. */
  predicate HasPolicy(cfg: Config, name: string, p: Policy)
  {
    if name in cfg.policies then cfg.policies[name] == p else !cfg.strictUnknown && p == DropOldest
  }

  predicate Undeclared(cfg: Config, name: string) { name !in cfg.policies && cfg.strictUnknown }

  // ---------------------------------------------------------------- overflows

  /** The oldest item makes room and the new one joins at the end. */
  predicate Pushed(c: Call, q: seq<Item>)
    requires c.HandleFull?
  {
    if c.maxLen == Some(0) then q == []
    else q == (if c.queue == [] then [] else c.queue[1..]) + if c.item.Some? then [c.item.value] else []
  }

  /** The tick an item is folded as: a bare number is a price at the time of the call. */
  predicate FoldsAs(item: Item, wall: real, t: Tick)
  {
    match item
    case Scalar(f) => f.Number? && t == Tick(f.value, 0.0, wall)
    case Dict(raw) =>
      && (if raw.price.Number? then t.price == raw.price.value else raw.ltp.Number? && t.price == raw.ltp.value)
      && t.volume == (if raw.volume.Number? then raw.volume.value else if raw.qty.Number? then raw.qty.value else 0.0)
      && t.time == (if raw.timestamp.Number? then raw.timestamp.value else wall)
  }

  predicate CarriesPrice(item: Option<Item>)
  {
    && item.Some?
    && match item.value
       case Scalar(f) => f.Number?
       case Dict(raw) => raw.price.Number? || raw.ltp.Number?
  }

  /** An item is folded exactly when it carries a price, and as the tick it stands for. */
  lemma {:induction false} ParsesExactly(item: Option<Item>, wall: real)
    ensures match Parse(AsTick(item), wall)
      case None => !CarriesPrice(item)
      case Some(t) => CarriesPrice(item) && FoldsAs(item.value, wall, t)
  {
    if item.Some? {
      var raw := AsTick(item);
      FirstOfTwo(raw.price, raw.ltp);
      FirstOfTwo(raw.volume, raw.qty);
      assert FirstNumber([raw.timestamp]) == if raw.timestamp.Number? then Some(raw.timestamp.value) else None;
    } else {
      FirstOfTwo(Unusable, Absent);
    }
  }

  lemma FirstOfTwo(a: Field, b: Field)
    ensures FirstNumber([a, b])
      == if a.Number? then Some(a.value) else if b.Number? then Some(b.value) else None
  {
    assert [a, b][1..] == [b] && [b][1..] == [];
    assert FirstNumber([b]) == if b.Number? then Some(b.value) else FirstNumber([]);
  }

  /** How an overflow of a stream with policy p is answered, and what the deque holds then. */
  predicate Answers(cfg: Config, c: Call, p: Policy, earlier: nat, r: Reply, q: seq<Item>)
    requires cfg.Valid() && c.HandleFull?
  {
    var evicted := if c.queue == [] then 0 else 1;
    match p
    case DropOldest =>
      r == Decided(Decision(c.stream, p, EnqueuedAfterDrop, true, None, evicted, None)) && Pushed(c, q)
    case Sample =>
      if (earlier + 1) % cfg.keepEvery == 0 then
        r == Decided(Decision(c.stream, p, EnqueuedAfterSample, true, None, evicted, None)) && Pushed(c, q)
      else r == Decided(Decision(c.stream, p, Throttled, false, None, 1, c.item)) && q == c.queue
    case Degrade =>
      && q == c.queue
      && if CarriesPrice(c.item) then
           r.Decided? && r.decision == Decision(c.stream, p, Aggregated, true, r.decision.emitted, 0, None)
         else r == UnpricedTick
    case NeverDrop =>
      && q == c.queue
      && if cfg.strictNeverDrop then r == NeverDropOverflow
         else r == Decided(Decision(c.stream, p, RejectedOverflow, false, None, 0, c.item))
  }

  lemma {:induction false} PushIs(c: Call)
    requires c.HandleFull? && c.Valid()
    ensures Pushed(c, Append(PopLeft(c.queue), c.maxLen, c.item))
  {
    if c.maxLen != Some(0) {
      PushShifts(c.queue, c.maxLen, c.item);
      assert c.queue[0..] == c.queue;
    }
  }

  /** Every overflow is answered by the policy of its stream, a sampled one by its number among
      the overflows of the stream; only a strict manager refuses an undeclared stream. */
  lemma {:induction false} AnsweredExactly(cfg: Config, h: seq<Call>, i: nat, p: Policy)
    requires cfg.Valid() && i < |h| && h[i].HandleFull? && h[i].Valid()
    ensures Undeclared(cfg, h[i].stream) ==> ReplyTo(cfg, h, i) == UnknownStream && QueueAfter(cfg, h, i) == h[i].queue
    ensures HasPolicy(cfg, h[i].stream, p) ==>
      Answers(cfg, h[i], p, Overflows(h, h[i].stream, i), ReplyTo(cfg, h, i), QueueAfter(cfg, h, i))
  {
    hide Parse, AsTick, Append, NearlyFull, Fired, Add, OpenAt, Pushed, PopLeft, StreamAt;
    var name := h[i].stream;
    PolicyIsFixed(cfg, h, name, i);
    PushIs(h[i]);
    ParsesExactly(h[i].item, h[i].wall);
    if HasPolicy(cfg, name, p) {
      if p.Sample? {
        SampleAdmitsExactly(cfg, h, name, i);
      }
    }
  }

  // ---------------------------------------------------------------- alerts

  /** A bounded deque that holds at least the watermark's share of its capacity. */
  predicate AtWatermark(cfg: Config, c: Call)
  {
    c.maxLen.Some? && c.maxLen.value > 0 && |c.queue| as real >= cfg.watermark * c.maxLen.value as real
  }

  lemma {:induction false} WatermarkIs(cfg: Config, c: Call)
    ensures AtWatermark(cfg, c) <==> NearlyFull(cfg, |c.queue|, c.maxLen)
  {
    if c.maxLen.Some? && c.maxLen.value > 0 {
      RatioAtLeast(|c.queue| as real, c.maxLen.value as real, cfg.watermark);
    }
  }

  lemma {:induction false} RatioAtLeast(x: real, y: real, w: real)
    requires y > 0.0
    ensures x >= w * y <==> x / y >= w
  {
    var q := x / y;
    assert q * y == x;
    if q >= w {
      ScaledUp(w, q, y);
    } else {
      ScaledDown(q, w, y);
    }
  }

  lemma ScaledUp(a: real, b: real, y: real)
    requires y > 0.0 && a <= b
    ensures a * y <= b * y
  {
  }

  lemma ScaledDown(a: real, b: real, y: real)
    requires y > 0.0 && a < b
    ensures a * y < b * y
  {
  }

  function If(b: bool, at: real): seq<real> { if b then [at] else [] }

  /** When an alert is asked for about a stream: at the first call on an undeclared one, at
      every observation at the watermark, and at every overflow of a never-drop stream. */
  function Asked(cfg: Config, h: seq<Call>, name: string, i: nat): seq<real>
    requires i <= |h|
  {
    if i == 0 then []
    else
      var c := h[i - 1];
      if c.stream != name || Undeclared(cfg, name) then Asked(cfg, h, name, i - 1)
      else
        var announces := name !in cfg.policies && !Called(h, name, i - 1);
        var warns := if c.Observe? then AtWatermark(cfg, c) else HasPolicy(cfg, name, NeverDrop);
        Asked(cfg, h, name, i - 1) + If(announces, c.registered) + If(warns, c.alerted)
  }

  /** Observations of a stream at the watermark. */
  function Breaches(cfg: Config, h: seq<Call>, name: string, i: nat): nat
    requires i <= |h|
  {
    if i == 0 then 0
    else
      var c := h[i - 1];
      Breaches(cfg, h, name, i - 1)
      + if c.stream == name && c.Observe? && !Undeclared(cfg, name) && AtWatermark(cfg, c) then 1 else 0
  }

  lemma {:induction false} StepAsks(cfg: Config, s: Stream, c: Call)
    requires cfg.Valid()
    ensures var (r, s') := (Resolve(cfg, s, c.registered), Step(cfg, s, c));
      if r.policy.None? then s' == s
      else
        var warns := if c.Observe? then AtWatermark(cfg, c) else r.policy.value.NeverDrop?;
        && s'.attempts == s.attempts + If(s.policy.None?, c.registered) + If(warns, c.alerted)
        && s'.metrics.breaches == s.metrics.breaches + if c.Observe? && AtWatermark(cfg, c) then 1 else 0
  {
    hide Parse, AsTick, Append, NearlyFull, AtWatermark, Fired, Add, OpenAt, PopLeft;
    WatermarkIs(cfg, c);
    var r := Resolve(cfg, s, c.registered);
    assert s.attempts + [] == s.attempts;
    assert r.attempts + [] == r.attempts;
  }

  /** Alerts are asked for exactly then, and every breach of the watermark is counted. */
  lemma {:induction false} AskedExactly(cfg: Config, h: seq<Call>, name: string, i: nat)
    requires cfg.Valid() && i <= |h|
    ensures StreamAt(cfg, h, name, i).attempts == Asked(cfg, h, name, i)
    ensures StreamAt(cfg, h, name, i).metrics.breaches == Breaches(cfg, h, name, i)
  {
    hide Step, AtWatermark;
    if i > 0 {
      AskedExactly(cfg, h, name, i - 1);
      PolicyIsFixed(cfg, h, name, i - 1);
      if h[i - 1].stream == name {
        StepAsks(cfg, StreamAt(cfg, h, name, i - 1), h[i - 1]);
      }
    }
  }
}
