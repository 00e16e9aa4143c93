/** The sampler engine: one machine per symbol, its records updated in place. The source
    spreads a record over eight dictionaries that always share their keys; here it is one. */
module SamplerEngine {
  import opened Options
  import opened TickSampler
  import Ordering

  /** The record of a symbol, if it is tracked. */
  function Find(m: map<string, Sym>, s: string): Option<Sym>
  {
    if s in m then Some(m[s]) else None
  }

  /** Something of the symbol is still to be emitted. */
  predicate Waiting(m: map<string, Sym>, s: string)
  {
    s in m && m[s].volume > 0.0
  }

  /** The operations on a symbol so far. */
  function Kept(h: map<string, seq<Op>>, s: string): seq<Op>
  {
    if s in h then h[s] else []
  }

  class Engine {
    const config: Config
    var symbols: map<string, Sym>
    ghost var histories: map<string, seq<Op>>  // per symbol, every operation on it

    ghost function Track(symbol: string): Option<Sym>
      reads this`symbols
    {
      Find(symbols, symbol)
    }

    ghost function History(symbol: string): seq<Op>
      reads this`histories
    {
      Kept(histories, symbol)
    }

    ghost predicate Follows(symbol: string)
      requires config.Valid()
      reads this
    {
      Track(symbol) == StateAt(config, History(symbol), |History(symbol)|)
    }

    /** Every symbol's record is the state its own history leads to; the empty symbol has
        none. */
    ghost predicate Valid()
      reads this
    {
      config.Valid() && "" !in histories && forall symbol :: Follows(symbol)
    }

    lemma NoEmptySymbol()
      requires Valid()
      ensures "" !in symbols
    {
      assert Follows("");
    }

    constructor (config: Config)
      requires config.Valid()
      ensures Valid() && this.config == config && histories == map[]
    {
      this.config := config;
      symbols, histories := map[], map[];
    }

    /** Puts an operation on one symbol on record once the record holds its effect. */
    ghost method Commit(before: Option<Sym>, symbol: string, op: Op)
      requires config.Valid() && before == StateAt(config, History(symbol), |History(symbol)|)
      requires symbol != "" && "" !in histories
      requires Track(symbol) == Step(config, before, op).1
      requires forall s :: s != symbol ==> Follows(s)
      modifies this`histories
      ensures Valid() && histories == old(histories)[symbol := old(History(symbol)) + [op]]
      ensures ResultAt(config, History(symbol), |old(History(symbol))|) == Step(config, before, op).0
    {
      hide StateAt, ResultAt, Step;
      NextState(config, History(symbol), op);
      histories := histories[symbol := History(symbol) + [op]];
      forall s ensures Follows(s) {
        assert s != symbol ==> old(Follows(s));
      }
    }

    method IngestTick(symbol: string, t: Tick) returns (r: Result)
      requires Valid()
      modifies this
      ensures Valid()
      ensures symbol == "" ==> r == Rejected(EmptySymbol) && histories == old(histories)
      ensures symbol != "" ==>
        && histories == old(histories)[symbol := old(History(symbol)) + [Ingest(t)]]
        && r == ResultAt(config, History(symbol), |old(History(symbol))|)
      ensures forall s :: s != symbol || r.Rejected? ==> Track(s) == old(Track(s))
    {
      hide StateAt, ResultAt;
      if symbol == "" {
        return Rejected(EmptySymbol);
      }
      ghost var before := Track(symbol);
      assert Follows(symbol);
      var refused := Refusal(symbol, t);
      if refused.Some? {
        r := Rejected(refused.value);
      } else {
        r := Accept(symbol, t);
      }
      forall s | s != symbol ensures Follows(s) {
        assert old(Follows(s));
      }
      Commit(before, symbol, Ingest(t));
    }

    method Refusal(symbol: string, t: Tick) returns (e: Option<Error>)
      ensures e == Check(config, Track(symbol), t)
    {
      if t.price <= 0.0 {
        return Some(BadPrice);
      }
      if t.volume <= 0.0 {
        return Some(BadVolume);
      }
      if config.enforceSequence && symbol in symbols && t.sequence <= symbols[symbol].lastSequence {
        return Some(SequenceNotIncreasing);
      }
      if symbol in symbols && t.time < symbols[symbol].lastTime {
        return Some(TimeWentBack);
      }
      return None;
    }

    method Accept(symbol: string, t: Tick) returns (r: Result)
      requires config.Valid() && Sane(Track(symbol)) && Check(config, Track(symbol), t).None?
      modifies this`symbols
      ensures symbol in symbols && (r, Some(symbols[symbol])) == IngestStep(config, old(Track(symbol)), t)
      ensures symbols == old(symbols)[symbol := symbols[symbol]]
    {
      hide Rate, Factor;
      var volume, notional, ticks := 0.0, 0.0, 0;
      if symbol in symbols {
        volume, notional, ticks := symbols[symbol].volume, symbols[symbol].notional, symbols[symbol].ticks;
      }
      var nextVolume := volume + t.volume;
      var nextNotional := notional + t.price * t.volume;
      var window, current, previous := RollWindow(symbol, t.time);
      var rate := Rate(current, previous, t.time);
      var factor := Factor(config, rate);
      var systematic := rate > config.target as real;
      var s := Sym(window, current, previous, ticks + 1, nextVolume, nextNotional, t.sequence, t.time);
      assert s == Fold(config, Track(symbol), t);
      symbols := symbols[symbol := s];
      if s.ticks < factor && systematic {
        return Quiet;
      }
      r := Emitted(Sample(t.sequence, t.time, s.notional / s.volume, s.volume, factor, systematic, s.ticks, false));
      symbols := symbols[symbol := s.(ticks := 0, volume := 0.0, notional := 0.0)];
    }

    method RollWindow(symbol: string, now: real) returns (window: int, current: int, previous: int)
      ensures (window, current, previous) == Roll(Track(symbol), Second(now))
    {
      var currentSecond := now.Floor;
      window, current, previous := currentSecond, 0, 0;
      if symbol in symbols {
        window, current, previous := symbols[symbol].window, symbols[symbol].current, symbols[symbol].previous;
      }
      if currentSecond > window {
        var elapsed := currentSecond - window;
        previous := if elapsed == 1 then current else 0;
        current := 0;
        window := currentSecond;
      }
      current := current + 1;
    }

    /** Emits the residual of one symbol. */
    method FlushSymbol(symbol: string, at: Option<real>) returns (r: Result)
      requires Valid()
      modifies this
      ensures Valid()
      ensures symbol == "" ==> r == Rejected(EmptySymbol) && histories == old(histories)
      ensures symbol != "" ==>
        && histories == old(histories)[symbol := old(History(symbol)) + [Flush(at)]]
        && r == ResultAt(config, History(symbol), |old(History(symbol))|)
        && (r, Track(symbol)) == FlushStep(old(Track(symbol)), at)
      ensures symbol !in old(symbols) ==> symbols == old(symbols)
      ensures symbol in old(symbols) ==> symbol in symbols && symbols == old(symbols)[symbol := symbols[symbol]]
    {
      hide StateAt, ResultAt;
      if symbol == "" {
        NoEmptySymbol();
        return Rejected(EmptySymbol);
      }
      assert Follows(symbol);
      ghost var before := Track(symbol);
      r := Drain(symbol, at);
      forall s | s != symbol ensures Follows(s) {
        assert old(Follows(s));
      }
      Commit(before, symbol, Flush(at));
    }

    method Drain(symbol: string, at: Option<real>) returns (r: Result)
      requires Sane(Track(symbol))
      modifies this`symbols
      ensures (r, Track(symbol)) == FlushStep(old(Track(symbol)), at)
      ensures symbol !in old(symbols) ==> symbols == old(symbols)
      ensures symbol in old(symbols) ==> symbol in symbols && symbols == old(symbols)[symbol := symbols[symbol]]
    {
      if symbol !in symbols || symbols[symbol].volume <= 0.0 {
        return Quiet;
      }
      var s := symbols[symbol];
      var time := if at.None? then s.lastTime else at.value;
      if time < s.lastTime {
        return Rejected(FlushTooEarly);
      }
      r := Emitted(Sample(-1, time, s.notional / s.volume, s.volume, 1, false, s.ticks, true));
      symbols := symbols[symbol := s.(ticks := 0, volume := 0.0, notional := 0.0)];
    }

    method ResetSymbol(symbol: string, flush: bool, at: Option<real>) returns (r: Result)
      requires Valid()
      modifies this
      ensures Valid()
      ensures symbol == "" ==> r == Rejected(EmptySymbol) && histories == old(histories)
      ensures symbol != "" ==>
        && histories == old(histories)[symbol := old(History(symbol)) + [Reset(flush, at)]]
        && r == ResultAt(config, History(symbol), |old(History(symbol))|)
      ensures !r.Rejected? ==> symbol !in symbols
      ensures forall s :: s != symbol || r.Rejected? ==> Track(s) == old(Track(s))
    {
      hide StateAt, ResultAt;
      if symbol == "" {
        return Rejected(EmptySymbol);
      }
      assert Follows(symbol);
      ghost var before := Track(symbol);
      r := Quiet;
      if flush {
        r := Drain(symbol, at);
      }
      if !r.Rejected? {
        symbols := symbols - {symbol};
      }
      forall s | s != symbol ensures Follows(s) {
        assert old(Follows(s));
        assert Track(s) == old(Track(s));
      }
      Commit(before, symbol, Reset(flush, at));
    }

    predicate Residual(symbol: string)
      reads this`symbols
    {
      Waiting(symbols, symbol)
    }

    predicate TooEarly(symbol: string, at: Option<real>)
      reads this`symbols
    {
      Residual(symbol) && at.Some? && at.value < symbols[symbol].lastTime
    }

    /** Flushes every residual in ascending symbol order, or, when the time lies before the
        last tick of one of them, refuses and changes nothing. */
    method FlushAll(at: Option<real>) returns (r: Option<seq<(string, Sample)>>)
      requires Valid()
      modifies this
      ensures Valid()
      ensures r.None? <==> exists s :: old(TooEarly(s, at))
      ensures r.None? ==> symbols == old(symbols) && histories == old(histories)
      ensures r.Some? ==>
        && Ordering.Ascending(Names(r.value))
        && (forall s :: s in Names(r.value) <==> old(Residual(s)))
        && (forall k :: 0 <= k < |r.value| ==>
              FlushStep(old(Track(r.value[k].0)), at).0 == Emitted(r.value[k].1))
        && (forall s :: Track(s) == FlushStep(old(Track(s)), at).1 && !Residual(s))
        && (forall s :: History(s) == old(History(s)) + if s in Names(r.value) then [Flush(at)] else [])
    {
      hide StateAt, ResultAt, Step, FlushStep, Valid, Follows, Ordering.Ascending;
      var names := ResidualNames();
      if at.Some? {
        for k := 0 to |names|
          invariant forall j :: 0 <= j < k ==> at.value >= symbols[names[j]].lastTime
        {
          if at.value < symbols[names[k]].lastTime {
            assert old(TooEarly(names[k], at));
            return None;
          }
        }
      }
      Ordering.AscendingIsDistinct(names);
      assert forall s :: !TooEarly(s, at);
      var outputs := FlushEach(names, at);
      AllDrained(old(symbols), names, at);
      AllRecorded(old(histories), names, Flush(at));
      return Some(outputs);
    }

    method ResidualNames() returns (names: seq<string>)
      ensures Ordering.Ascending(names)
      ensures forall s :: s in names <==> Residual(s)
      ensures forall k :: 0 <= k < |names| ==> Residual(names[k])
    {
      names := Ordering.Sorted(set s | s in symbols && symbols[s].volume > 0.0);
      assert forall k :: 0 <= k < |names| ==> names[k] in names;
    }

    method FlushEach(names: seq<string>, at: Option<real>) returns (outputs: seq<(string, Sample)>)
      requires Valid()
      requires forall i, j :: 0 <= i < j < |names| ==> names[i] != names[j]
      requires forall k :: 0 <= k < |names| ==> Residual(names[k]) && !TooEarly(names[k], at)
      modifies this
      ensures Valid() && Names(outputs) == names
      ensures forall k :: 0 <= k < |names| ==>
        names[k] in old(symbols) && FlushStep(Some(old(symbols)[names[k]]), at).0 == Emitted(outputs[k].1)
      ensures symbols == Drained(old(symbols), names, |names|)
      ensures histories == Recorded(old(histories), names, Flush(at), |names|)
    {
      hide StateAt, ResultAt, Step, FlushStep, Valid, Follows;
      ghost var before, recorded := symbols, histories;
      outputs := [];
      for k := 0 to |names|
        invariant Valid() && |outputs| == k
        invariant forall j :: 0 <= j < k ==> outputs[j].0 == names[j]
        invariant forall j :: 0 <= j < k ==> FlushStep(Some(before[names[j]]), at).0 == Emitted(outputs[j].1)
        invariant symbols == Drained(before, names, k)
        invariant histories == Recorded(recorded, names, Flush(at), k)
      {
        var name := names[k];
        NoEmptySymbol();
        DrainedAt(before, names, k, name);
        assert old(Residual(name)) && !old(TooEarly(name, at));
        FlushOfResidual(Track(name), at);
        var flushed := FlushSymbol(name, at);
        outputs := outputs + [(name, flushed.sample)];
      }
    }
  }

  /** The records after the first k names are emptied. */
  ghost function Drained(m: map<string, Sym>, names: seq<string>, k: nat): map<string, Sym>
    requires k <= |names| && forall j :: 0 <= j < |names| ==> names[j] in m
  {
    if k == 0 then m else Drained(m, names, k - 1)[names[k - 1] := Emptied(m[names[k - 1]])]
  }

  ghost function Recorded(h: map<string, seq<Op>>, names: seq<string>, op: Op, k: nat): map<string, seq<Op>>
    requires k <= |names|
  {
    if k == 0 then h
    else
      var p := Recorded(h, names, op, k - 1);
      p[names[k - 1] := Kept(p, names[k - 1]) + [op]]
  }

  lemma {:induction false} DrainedAt(m: map<string, Sym>, names: seq<string>, k: nat, s: string)
    requires k <= |names| && forall j :: 0 <= j < |names| ==> names[j] in m
    ensures s in Drained(m, names, k) <==> s in m
    ensures s in m ==> Drained(m, names, k)[s] == if s in names[..k] then Emptied(m[s]) else m[s]
    ensures k < |names| && (forall j :: 0 <= j < k ==> names[j] != names[k]) && s == names[k] ==> s !in names[..k]
  {
    if k > 0 {
      DrainedAt(m, names, k - 1, s);
      assert names[..k] == names[..k - 1] + [names[k - 1]];
    }
  }

  lemma RecordedStep(h: map<string, seq<Op>>, names: seq<string>, op: Op, k: nat, next: nat, s: string)
    requires k < |names| && next == k + 1
    ensures Kept(Recorded(h, names, op, next), s)
      == if s == names[k] then Kept(Recorded(h, names, op, k), s) + [op] else Kept(Recorded(h, names, op, k), s)
  {
  }

  lemma NothingRecorded(h: map<string, seq<Op>>, names: seq<string>, op: Op, s: string)
    ensures Kept(Recorded(h, names, op, 0), s) == Kept(h, s) && s !in names[..0]
  {
  }

  lemma {:induction false} PrefixMember(names: seq<string>, k: nat, s: string)
    requires 0 < k <= |names|
    ensures s in names[..k] <==> s in names[..k - 1] || s == names[k - 1]
    ensures (forall i, j :: 0 <= i < j < |names| ==> names[i] != names[j]) ==> names[k - 1] !in names[..k - 1]
  {
    assert names[..k] == names[..k - 1] + [names[k - 1]];
  }

  lemma {:induction false} RecordedAt(h: map<string, seq<Op>>, names: seq<string>, op: Op, k: nat, s: string)
    requires k <= |names| && forall i, j :: 0 <= i < j < |names| ==> names[i] != names[j]
    ensures Kept(Recorded(h, names, op, k), s) == if s in names[..k] then Kept(h, s) + [op] else Kept(h, s)
  {
    hide Recorded, Kept;
    if k == 0 {
      NothingRecorded(h, names, op, s);
    } else {
      RecordedAt(h, names, op, k - 1, s);
      RecordedStep(h, names, op, k - 1, k, s);
      PrefixMember(names, k, s);
    }
  }

  lemma {:induction false} AllRecorded(h: map<string, seq<Op>>, names: seq<string>, op: Op)
    requires forall i, j :: 0 <= i < j < |names| ==> names[i] != names[j]
    ensures forall s :: Kept(Recorded(h, names, op, |names|), s) == Kept(h, s) + if s in names then [op] else []
  {
    hide Recorded, Kept;
    assert names[..|names|] == names;
    forall s ensures Kept(Recorded(h, names, op, |names|), s) == Kept(h, s) + if s in names then [op] else [] {
      RecordedAt(h, names, op, |names|, s);
      assert Kept(h, s) + [] == Kept(h, s);
    }
  }

  /** Emptying exactly the residual records flushes every record and leaves no residual. */
  lemma {:induction false} AllDrained(m: map<string, Sym>, names: seq<string>, at: Option<real>)
    requires forall j :: 0 <= j < |names| ==> names[j] in m
    requires forall s :: s in names <==> Waiting(m, s)
    requires forall s :: Waiting(m, s) && at.Some? ==> at.value >= m[s].lastTime
    ensures forall s :: Find(Drained(m, names, |names|), s) == FlushStep(Find(m, s), at).1
    ensures forall s :: !Waiting(Drained(m, names, |names|), s)
  {
    hide FlushStep, Drained;
    assert names[..|names|] == names;
    forall s
      ensures Find(Drained(m, names, |names|), s) == FlushStep(Find(m, s), at).1
      ensures !Waiting(Drained(m, names, |names|), s)
    {
      DrainedAt(m, names, |names|, s);
      FlushOfResidual(Find(m, s), at);
    }
  }

  lemma FlushOfResidual(s: Option<Sym>, at: Option<real>)
    requires s.Some? && s.value.volume > 0.0 && at.Some? ==> at.value >= s.value.lastTime
    ensures var (r, s') := FlushStep(s, at);
      if s.Some? && s.value.volume > 0.0 then r.Emitted? && s' == Some(Emptied(s.value))
      else r.Quiet? && s' == s
  {
  }

  function Names(outputs: seq<(string, Sample)>): seq<string>
  {
    seq(|outputs|, k requires 0 <= k < |outputs| => outputs[k].0)
  }
}
