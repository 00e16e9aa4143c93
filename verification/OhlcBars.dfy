/** Folding ticks into fixed-interval bars. Prices, volumes and times are reals. */
module OhlcBars {
  import opened Options

  datatype Tick = Tick(price: real, volume: real, time: real)

  /** `start` is the interval boundary the bar was snapped to. */
  datatype Bar = Bar(open: real, high: real, low: real, close: real, volume: real, time: real, start: real)

  function Max(x: real, y: real): real { if x < y then y else x }

  function Min(x: real, y: real): real { if x < y then x else y }

  function Times(x: real, y: real): real { x * y }

  /** Number of the interval a time falls in. */
  function Index(interval: real, time: real): int
    requires interval > 0.0
  {
    (time / interval).Floor
  }

  /** The k-th interval boundary. */
  function Boundary(interval: real, k: int): real { Times(k as real, interval) }

  /** time - time % interval, with Python's remainder of a positive divisor. */
  function Snap(interval: real, time: real): real
    requires interval > 0.0
  {
    Times(Index(interval, time) as real, interval)
  }

  function FirstBar(interval: real, t: Tick): Bar
    requires interval > 0.0
  {
    Bar(t.price, t.price, t.price, t.price, t.volume, t.time, Snap(interval, t.time))
  }

  function Fold(b: Bar, t: Tick): Bar
  {
    b.(high := Max(b.high, t.price), low := Min(b.low, t.price), close := t.price, volume := b.volume + t.volume)
  }

  /** A tick opens a bar when there is none, when it lies past the open one, or before it. */
  predicate Opens(interval: real, current: Option<Bar>, t: Tick)
  {
    current.None? || t.time - current.value.start >= interval || t.time < current.value.start
  }

  /** The bar that closes, if one does, and the bar open afterwards. */
  function Add(interval: real, current: Option<Bar>, t: Tick): (Option<Bar>, Bar)
    requires interval > 0.0
  {
    if Opens(interval, current, t) then (current, FirstBar(interval, t))
    else (None, Fold(current.value, t))
  }

  function Closing(closed: Option<Bar>): seq<Bar>
  {
    if closed.Some? then [closed.value] else []
  }

  // ---------------------------------------------------------------- whole runs

  function OpenAt(interval: real, ts: seq<Tick>, i: nat): Option<Bar>
    requires interval > 0.0 && i <= |ts|
  {
    if i == 0 then None else Some(Add(interval, OpenAt(interval, ts, i - 1), ts[i - 1]).1)
  }

  /** Bars completed by the first i ticks. */
  function Completed(interval: real, ts: seq<Tick>, i: nat): seq<Bar>
    requires interval > 0.0 && i <= |ts|
  {
    if i == 0 then []
    else
      var closed := Add(interval, OpenAt(interval, ts, i - 1), ts[i - 1]).0;
      Completed(interval, ts, i - 1) + Closing(closed)
  }

  predicate OpensAt(interval: real, ts: seq<Tick>, i: nat)
    requires interval > 0.0 && i < |ts|
  {
    Opens(interval, OpenAt(interval, ts, i), ts[i])
  }

  /** Where the run of the open bar begins. */
  function RunStart(interval: real, ts: seq<Tick>, i: nat): (r: nat)
    requires interval > 0.0 && i <= |ts|
    ensures r <= i
  {
    if i == 0 then 0
    else if OpensAt(interval, ts, i - 1) then i - 1
    else RunStart(interval, ts, i - 1)
  }

  /** The runs of ticks behind the completed bars. */
  function Runs(interval: real, ts: seq<Tick>, i: nat): seq<seq<Tick>>
    requires interval > 0.0 && i <= |ts|
  {
    if i == 0 then []
    else
      var closes := OpenAt(interval, ts, i - 1).Some? && OpensAt(interval, ts, i - 1);
      Runs(interval, ts, i - 1) + if closes then [ts[RunStart(interval, ts, i - 1)..i - 1]] else []
  }

  function Flatten(rs: seq<seq<Tick>>): seq<Tick>
  {
    if rs == [] then [] else Flatten(rs[..|rs| - 1]) + rs[|rs| - 1]
  }

  function TotalVolume(ts: seq<Tick>): real
  {
    if ts == [] then 0.0 else TotalVolume(ts[..|ts| - 1]) + ts[|ts| - 1].volume
  }

  /** The bar is first, greatest, least, last and sum of its run, starts on a multiple of
      the interval, and holds no tick outside its interval. */
  ghost predicate Describes(interval: real, b: Bar, run: seq<Tick>)
    requires interval > 0.0
  {
    && run != []
    && b.open == run[0].price && b.close == run[|run| - 1].price && b.time == run[0].time
    && (forall i :: 0 <= i < |run| ==> b.low <= run[i].price <= b.high)
    && (exists i :: 0 <= i < |run| && run[i].price == b.high)
    && (exists i :: 0 <= i < |run| && run[i].price == b.low)
    && b.volume == TotalVolume(run)
    && b.start == Snap(interval, run[0].time)
    && (forall i :: 0 <= i < |run| ==> b.start <= run[i].time < b.start + interval)
  }

  lemma QuotientTimes(x: real, y: real)
    requires y > 0.0
    ensures Times(x / y, y) == x
  {
  }

  lemma Scaled(x: real, y: real, d: real)
    requires d > 0.0
    ensures x <= y ==> Times(x, d) <= Times(y, d)
    ensures x < y ==> Times(x, d) < Times(y, d)
  {
  }

  lemma NextMultiple(k: int, d: real)
    ensures Times((k + 1) as real, d) == Times(k as real, d) + d
  {
  }

  /** A time lies in the interval it is snapped to. */
  lemma {:induction false} SnapBounds(interval: real, time: real)
    requires interval > 0.0
    ensures Snap(interval, time) <= time < Snap(interval, time) + interval
  {
    hide Times;
    var q, k := time / interval, Index(interval, time);
    QuotientTimes(time, interval);
    Scaled(k as real, q, interval);
    Scaled(q, (k + 1) as real, interval);
    NextMultiple(k, interval);
  }

  /** A time is snapped to the one multiple of the interval that starts its interval. */
  lemma {:induction false} SnapExactly(interval: real, time: real, start: real)
    requires interval > 0.0
    ensures start == Snap(interval, time)
      <==> (exists k: int :: start == Boundary(interval, k)) && start <= time < start + interval
  {
    hide Times;
    SnapBounds(interval, time);
    assert Snap(interval, time) == Boundary(interval, Index(interval, time));
    if (exists k: int :: start == Boundary(interval, k)) && start <= time < start + interval {
      var k: int :| start == Boundary(interval, k);
      var n := Index(interval, time);
      NextMultiple(k, interval);
      NextMultiple(n, interval);
      if k < n {
        Ordered(k + 1, n, interval);
      } else if n < k {
        Ordered(n + 1, k, interval);
      }
    }
  }

  lemma {:induction false} Ordered(k: int, n: int, interval: real)
    requires interval > 0.0 && k <= n
    ensures Times(k as real, interval) <= Times(n as real, interval)
  {
    Scaled(k as real, n as real, interval);
  }

  /** A time at least one interval past a boundary is snapped to a later boundary. */
  lemma {:induction false} SnapAdvances(interval: real, k: int, time: real)
    requires interval > 0.0 && time >= Times(k as real, interval) + interval
    ensures Index(interval, time) > k && Snap(interval, time) > Times(k as real, interval)
  {
    hide Times;
    var q, n := time / interval, Index(interval, time);
    QuotientTimes(time, interval);
    NextMultiple(k, interval);
    if q < (k + 1) as real {
      Scaled(q, (k + 1) as real, interval);
    }
    Scaled(k as real, n as real, interval);
  }

  lemma {:induction false} FirstDescribes(interval: real, t: Tick)
    requires interval > 0.0
    ensures Describes(interval, FirstBar(interval, t), [t])
  {
    hide Snap;
    SnapBounds(interval, t.time);
    var run, b := [t], FirstBar(interval, t);
    assert run[..0] == [];
    assert run[0].price == b.high && run[0].price == b.low;
    assert exists i :: 0 <= i < |run| && run[i].price == b.high;
    assert exists i :: 0 <= i < |run| && run[i].price == b.low;
    assert TotalVolume(run) == TotalVolume(run[..0]) + t.volume;
  }

  lemma {:induction false} FoldDescribes(interval: real, b: Bar, run: seq<Tick>, t: Tick)
    requires interval > 0.0 && Describes(interval, b, run) && !Opens(interval, Some(b), t)
    ensures Describes(interval, Fold(b, t), run + [t])
  {
    hide Snap;
    var longer, f := run + [t], Fold(b, t);
    assert longer[..|run|] == run;
    var hi :| 0 <= hi < |run| && run[hi].price == b.high;
    var lo :| 0 <= lo < |run| && run[lo].price == b.low;
    assert longer[hi].price == b.high && longer[lo].price == b.low && longer[|run|].price == t.price;
    assert exists i :: 0 <= i < |longer| && longer[i].price == f.high;
    assert exists i :: 0 <= i < |longer| && longer[i].price == f.low;
  }

  lemma {:induction false} OpenDescribed(interval: real, ts: seq<Tick>, i: nat)
    requires interval > 0.0 && 0 < i <= |ts|
    ensures OpenAt(interval, ts, i).Some?
    ensures Describes(interval, OpenAt(interval, ts, i).value, ts[RunStart(interval, ts, i)..i])
  {
    hide Describes, FirstBar, Fold, Opens;
    var t, before := ts[i - 1], OpenAt(interval, ts, i - 1);
    if OpensAt(interval, ts, i - 1) {
      FirstDescribes(interval, t);
      assert ts[i - 1..i] == [t];
    } else {
      NothingOpen(interval, t);
      OpenDescribed(interval, ts, i - 1);
      var r := RunStart(interval, ts, i - 1);
      FoldDescribes(interval, before.value, ts[r..i - 1], t);
      assert ts[r..i] == ts[r..i - 1] + [t];
    }
  }

  lemma NothingOpen(interval: real, t: Tick)
    ensures Opens(interval, None, t)
  {
  }

  /** A tick opens a new bar exactly when it falls in another interval than the open bar. */
  lemma {:induction false} OpensExactly(interval: real, ts: seq<Tick>, i: nat)
    requires interval > 0.0 && i < |ts|
    ensures OpensAt(interval, ts, i) <==>
      i == 0 || Snap(interval, ts[RunStart(interval, ts, i)].time) != Snap(interval, ts[i].time)
  {
    hide Snap, FirstBar, Fold, RunStart;
    if i > 0 {
      OpenDescribed(interval, ts, i);
      var r, b := RunStart(interval, ts, i), OpenAt(interval, ts, i).value;
      assert ts[r..i][0] == ts[r];
      SnapExactly(interval, ts[r].time, b.start);
      SnapExactly(interval, ts[i].time, b.start);
    }
  }

  /** Every completed bar describes its own run. */
  lemma {:induction false} BarsDescribeRuns(interval: real, ts: seq<Tick>, i: nat)
    requires interval > 0.0 && i <= |ts|
    ensures |Completed(interval, ts, i)| == |Runs(interval, ts, i)|
    ensures forall k :: 0 <= k < |Runs(interval, ts, i)| ==>
      Describes(interval, Completed(interval, ts, i)[k], Runs(interval, ts, i)[k])
  {
    hide Describes, FirstBar, Fold;
    if i > 0 {
      BarsDescribeRuns(interval, ts, i - 1);
      if i > 1 {
        OpenDescribed(interval, ts, i - 1);
      }
    }
  }

  lemma FlattenAppend(rs: seq<seq<Tick>>, run: seq<Tick>)
    ensures Flatten(rs + [run]) == Flatten(rs) + run
  {
    assert (rs + [run])[..|rs|] == rs;
  }

  /** When a bar closes its run joins the runs, and the next one starts where it ended. */
  lemma {:induction false} RunsAfter(interval: real, ts: seq<Tick>, i: nat, next: nat)
    requires interval > 0.0 && i < |ts| && next == i + 1
    ensures if OpensAt(interval, ts, i) then
        && RunStart(interval, ts, next) == i
        && Runs(interval, ts, next)
        == Runs(interval, ts, i) + if i > 0 then [ts[RunStart(interval, ts, i)..i]] else []
      else
        RunStart(interval, ts, next) == RunStart(interval, ts, i) && Runs(interval, ts, next) == Runs(interval, ts, i)
  {
    hide Opens, Add;
    assert Runs(interval, ts, i) + [] == Runs(interval, ts, i);
    if i > 0 {
      OpenDescribed(interval, ts, i);
    }
  }

  lemma NothingRun(interval: real, ts: seq<Tick>)
    requires interval > 0.0
    ensures RunStart(interval, ts, 0) == 0 && Runs(interval, ts, 0) == [] && Flatten([]) == []
  {
  }

  /** The runs of the completed bars, followed by the run of the open bar, are all the ticks
      in arrival order. */
  lemma {:induction false} BarsPartitionTicks(interval: real, ts: seq<Tick>, i: nat)
    requires interval > 0.0 && i <= |ts|
    ensures Flatten(Runs(interval, ts, i)) == ts[..RunStart(interval, ts, i)]
    ensures Flatten(Runs(interval, ts, i)) + ts[RunStart(interval, ts, i)..i] == ts[..i]
  {
    hide OpensAt, Runs, RunStart, Flatten;
    if i == 0 {
      NothingRun(interval, ts);
    } else {
      BarsPartitionTicks(interval, ts, i - 1);
      RunsAfter(interval, ts, i - 1, i);
      var rs, r := Runs(interval, ts, i - 1), RunStart(interval, ts, i - 1);
      FlattenAppend(rs, ts[r..i - 1]);
      if i == 1 {
        NothingRun(interval, ts);
        assert rs + [] == rs && ts[..0] == [];
      }
      assert ts[..r] + ts[r..i - 1] == ts[..i - 1];
      assert ts[..RunStart(interval, ts, i)] + ts[RunStart(interval, ts, i)..i] == ts[..i];
    }
  }

  ghost predicate TimesAscend(ts: seq<Tick>)
  {
    forall i, j :: 0 <= i < j < |ts| ==> ts[i].time <= ts[j].time
  }

  ghost predicate StartsAscend(bs: seq<Bar>)
  {
    forall j, k :: 0 <= j < k < |bs| ==> bs[j].start < bs[k].start
  }

  /** A tick no earlier than the open bar's last one opens a bar only past its interval. */
  lemma {:induction false} OrderedOpeningAdvances(interval: real, b: Bar, run: seq<Tick>, t: Tick)
    requires interval > 0.0 && Describes(interval, b, run) && run[|run| - 1].time <= t.time
    requires Opens(interval, Some(b), t)
    ensures FirstBar(interval, t).start > b.start
  {
    SnapAdvances(interval, Index(interval, run[0].time), t.time);
  }

  lemma {:induction false} FirstTickClosesNothing(interval: real, ts: seq<Tick>)
    requires interval > 0.0 && ts != []
    ensures Completed(interval, ts, 1) == []
  {
    hide FirstBar, Fold;
    assert OpenAt(interval, ts, 0) == None && Completed(interval, ts, 0) == [];
    assert Add(interval, None, ts[0]).0 == None;
  }

  lemma {:induction false} AppendAscending(bs: seq<Bar>, b: Bar, c: Bar)
    requires StartsAscend(bs + [b]) && b.start < c.start
    ensures StartsAscend(bs + [b] + [c])
  {
    assert forall j :: 0 <= j < |bs| ==> (bs + [b])[j] == bs[j] && (bs + [b])[|bs|] == b;
  }

  lemma {:induction false} ReplaceLast(bs: seq<Bar>, b: Bar, c: Bar)
    requires StartsAscend(bs + [b]) && b.start == c.start
    ensures StartsAscend(bs + [c])
  {
    assert forall j :: 0 <= j < |bs| ==> (bs + [b])[j] == bs[j] && (bs + [b])[|bs|] == b;
  }

  /** With ordered ticks each bar starts at a later boundary than the one before. */
  lemma {:induction false} OrderedTicksGiveLaterBars(interval: real, ts: seq<Tick>, i: nat)
    requires interval > 0.0 && 0 < i <= |ts| && TimesAscend(ts)
    ensures OpenAt(interval, ts, i).Some?
    ensures StartsAscend(Completed(interval, ts, i) + [OpenAt(interval, ts, i).value])
  {
    hide FirstBar, Opens, Describes, StartsAscend;
    OpenDescribed(interval, ts, i);
    var done, open := Completed(interval, ts, i), OpenAt(interval, ts, i).value;
    if i == 1 {
      FirstTickClosesNothing(interval, ts);
      SingleAscends(open);
    } else {
      OrderedTicksGiveLaterBars(interval, ts, i - 1);
      OpenDescribed(interval, ts, i - 1);
      var b, run := OpenAt(interval, ts, i - 1).value, ts[RunStart(interval, ts, i - 1)..i - 1];
      var earlier := Completed(interval, ts, i - 1);
      if OpensAt(interval, ts, i - 1) {
        DescribedIsNonEmpty(interval, b, run);
        OrderedOpeningAdvances(interval, b, run, ts[i - 1]);
        assert done == earlier + [b];
        AppendAscending(earlier, b, open);
      } else {
        assert done == earlier && open == Fold(b, ts[i - 1]);
        ReplaceLast(earlier, b, open);
      }
    }
  }

  lemma SingleAscends(b: Bar)
    ensures StartsAscend([] + [b])
  {
  }

  lemma DescribedIsNonEmpty(interval: real, b: Bar, run: seq<Tick>)
    requires interval > 0.0 && Describes(interval, b, run)
    ensures run != []
  {
  }

  /** Later ticks do not change what earlier ones opened and completed. */
  lemma {:induction false} RunExtends(interval: real, ts: seq<Tick>, t: Tick, i: nat)
    requires interval > 0.0 && i <= |ts|
    ensures OpenAt(interval, ts + [t], i) == OpenAt(interval, ts, i)
    ensures Completed(interval, ts + [t], i) == Completed(interval, ts, i)
  {
    hide Add;
    if i > 0 {
      RunExtends(interval, ts, t, i - 1);
      assert (ts + [t])[i - 1] == ts[i - 1];
    }
  }

  // ---------------------------------------------------------------- raw ticks

  /** What a tick dictionary holds under one key: nothing, a value that is no finite
      number (a boolean, a string, None), or a number. */
  datatype Field = Absent | Unusable | Number(value: real)

  datatype RawTick = RawTick(price: Field, ltp: Field, volume: Field, qty: Field, timestamp: Field)

  datatype Result<T> = Ok(value: T) | NoUsablePrice

  function FirstNumber(fields: seq<Field>): Option<real>
  {
    if fields == [] then None
    else if fields[0].Number? then Some(fields[0].value)
    else FirstNumber(fields[1..])
  }

  /** The tick a dictionary stands for: a zero is a value, a missing volume is zero, a
      missing timestamp is the wall clock, and a missing price is never replaced. */
  function Parse(raw: RawTick, wall: real): Option<Tick>
  {
    var price, volume := FirstNumber([raw.price, raw.ltp]), FirstNumber([raw.volume, raw.qty]);
    var timestamp := FirstNumber([raw.timestamp]);
    if price.None? then None
    else Some(Tick(price.value,
                   if volume.Some? then volume.value else 0.0,
                   if timestamp.Some? then timestamp.value else wall))
  }

  method Numeric(fields: seq<Field>) returns (r: Option<real>)
    ensures r == FirstNumber(fields)
  {
    for i := 0 to |fields|
      invariant FirstNumber(fields[i..]) == FirstNumber(fields)
    {
      if fields[i].Number? {
        return Some(fields[i].value);
      }
    }
    return None;
  }

  class TickAggregator {
    const interval: real
    var currentBar: Option<Bar>
    var barStartTime: real
    ghost var ticks: seq<Tick>  // every tick folded so far

    ghost predicate Valid()
      reads this
    {
      && interval > 0.0
      && currentBar == OpenAt(interval, ticks, |ticks|)
      && (currentBar.Some? ==> barStartTime == currentBar.value.start)
    }

    constructor (interval: real)
      requires interval > 0.0
      ensures Valid() && this.interval == interval && ticks == [] && currentBar == None
    {
      this.interval := interval;
      currentBar, barStartTime, ticks := None, 0.0, [];
    }

    /** Folds a tick and returns the bar it closes, if any. */
    method AddTick(raw: RawTick, wall: real) returns (r: Result<Option<Bar>>)
      requires Valid()
      modifies this
      ensures Valid()
      ensures r.NoUsablePrice? <==> Parse(raw, wall).None?
      ensures r.NoUsablePrice? ==> ticks == old(ticks) && currentBar == old(currentBar)
      ensures r.Ok? ==>
        && ticks == old(ticks) + [Parse(raw, wall).value]
        && r.value == Add(interval, old(currentBar), Parse(raw, wall).value).0
        && currentBar == Some(Add(interval, old(currentBar), Parse(raw, wall).value).1)
      ensures r.Ok? ==>
        && Completed(interval, ticks, |ticks|)
        == Completed(interval, old(ticks), |old(ticks)|) + Closing(r.value)
    {
      hide Snap;
      var price := Numeric([raw.price, raw.ltp]);
      if price.None? {
        return NoUsablePrice;
      }
      var volume := Numeric([raw.volume, raw.qty]);
      var timestamp := Numeric([raw.timestamp]);
      var t := Tick(price.value,
                    if volume.Some? then volume.value else 0.0,
                    if timestamp.Some? then timestamp.value else wall);
      assert Some(t) == Parse(raw, wall);
      var completed := FoldTick(t);
      return Ok(completed);
    }

    method FoldTick(t: Tick) returns (completed: Option<Bar>)
      requires Valid()
      modifies this
      ensures Valid() && ticks == old(ticks) + [t]
      ensures completed == Add(interval, old(currentBar), t).0
      ensures currentBar == Some(Add(interval, old(currentBar), t).1)
      ensures Completed(interval, ticks, |ticks|)
        == Completed(interval, old(ticks), |old(ticks)|) + Closing(completed)
    {
      hide Snap;
      var startingNewBar :=
        || currentBar.None?
        || t.time - barStartTime >= interval
        || t.time < barStartTime;
      completed := None;
      if startingNewBar {
        completed := currentBar;
        barStartTime := Snap(interval, t.time);
        currentBar := Some(Bar(t.price, t.price, t.price, t.price, t.volume, t.time, barStartTime));
      } else {
        var bar := currentBar.value;
        currentBar := Some(bar.(high := Max(bar.high, t.price), low := Min(bar.low, t.price),
                                close := t.price, volume := bar.volume + t.volume));
      }
      RunExtends(interval, ticks, t, |ticks|);
      ticks := ticks + [t];
    }
  }
}
