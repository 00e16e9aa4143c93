/** Ranking brokers by notional-weighted implementation shortfall and sharing flow out
    among them. Prices, quantities, fees and shares are reals. */
module BrokerWheel {
  import opened Options
  import Ordering
  import Text

  datatype Fault = BlankBroker | BadSide | BadDecisionPrice | BadFillPrice | BadQuantity | FloorTooLarge

  datatype Result<T> = Ok(value: T) | Failed(fault: Fault)

  datatype Execution = Execution(
    broker: string,
    side: string,
    decision: real,
    fill: real,
    quantity: real,
    fees: real)

  /** Accumulated for one broker: shortfall times notional, notional, executions. */
  datatype Entry = Entry(weighted: real, notional: real, count: nat)

  datatype Score = Score(broker: string, average: real, count: nat, notional: real, eligible: bool)

  datatype Policy = Policy(floor: real, observations: nat, notional: real)
  {
    predicate Valid() { 0.0 < floor < 1.0 && 1 <= observations && 0.0 <= notional }
  }

  const NOTHING := Entry(0.0, 0.0, 0)

  // ---------------------------------------------------------------- executions

  function UpperChar(c: char): char { if 'a' <= c <= 'z' then c - ' ' else c }

  function Upper(s: string): string { seq(|s|, i requires 0 <= i < |s| => UpperChar(s[i])) }

  function Side(e: Execution): string { Upper(Text.Strip(e.side)) }

  function Broker(e: Execution): string { Text.Strip(e.broker) }

  /** The first thing wrong with an execution, if anything is. */
  function FaultOf(e: Execution): Option<Fault>
  {
    if Broker(e) == "" then Some(BlankBroker)
    else if Side(e) !in ["BUY", "SELL"] then Some(BadSide)
    else if e.decision <= 0.0 then Some(BadDecisionPrice)
    else if e.fill <= 0.0 then Some(BadFillPrice)
    else if e.quantity <= 0.0 then Some(BadQuantity)
    else None
  }

  predicate IsValid(e: Execution) { FaultOf(e).None? }

  function Times(x: real, y: real): real { x * y }

  lemma TimesPositive(x: real, y: real)
    requires x > 0.0 && y > 0.0
    ensures Times(x, y) > 0.0
  {
  }

  function Notional(e: Execution): (r: real)
    requires IsValid(e)
    ensures r > 0.0
  {
    TimesPositive(e.decision, e.quantity);
    Times(e.decision, e.quantity)
  }

  /** Signed cost in basis points, fees included: positive is a cost on either side. */
  function Shortfall(e: Execution): real
    requires IsValid(e)
  {
    var slippage := if Side(e) == "BUY" then e.fill - e.decision else e.decision - e.fill;
    slippage / e.decision * 10000.0 + e.fees / Notional(e) * 10000.0
  }

  function Grown(t: Entry, e: Execution): Entry
    requires IsValid(e)
  {
    Entry(t.weighted + Times(Shortfall(e), Notional(e)), t.notional + Notional(e), t.count + 1)
  }

  predicate AllValid(es: seq<Execution>) { forall e :: e in es ==> IsValid(e) }

  /** What the executions of one broker add up to. */
  function EntryOf(es: seq<Execution>, b: string): Entry
    requires AllValid(es)
  {
    if es == [] then NOTHING
    else
      var earlier, e := EntryOf(es[..|es| - 1], b), es[|es| - 1];
      if Broker(e) == b then Grown(earlier, e) else earlier
  }

  predicate Trades(es: seq<Execution>, b: string)
  {
    exists e :: e in es && Broker(e) == b
  }

  lemma {:induction false} EntryOfTrader(es: seq<Execution>, b: string)
    requires AllValid(es)
    ensures Trades(es, b) <==> EntryOf(es, b).count > 0
    ensures EntryOf(es, b).notional >= 0.0 && (Trades(es, b) ==> EntryOf(es, b).notional > 0.0)
  {
    hide IsValid, Notional, Shortfall;
    if es != [] {
      var front, e := es[..|es| - 1], es[|es| - 1];
      EntryOfTrader(front, b);
      assert forall x :: x in es <==> x in front || x == e;
    }
  }

  /** Leaving one execution out takes just its own part away. */
  lemma {:induction false} EntryWithout(es: seq<Execution>, k: nat, b: string)
    requires AllValid(es) && k < |es|
    requires AllValid(es[..k] + es[k + 1..])
    ensures EntryOf(es, b)
      == (var rest := EntryOf(es[..k] + es[k + 1..], b); if Broker(es[k]) == b then Grown(rest, es[k]) else rest)
  {
    hide IsValid, Notional, Shortfall;
    var rest, last := es[..k] + es[k + 1..], |es| - 1;
    if k == last {
      assert rest == es[..last];
    } else {
      var front := es[..last];
      assert front[..k] + front[k + 1..] == rest[..|rest| - 1];
      EntryWithout(front, k, b);
    }
  }

  lemma {:induction false} WithoutOne(es: seq<Execution>, fs: seq<Execution>, k: nat)
    requires es != [] && multiset(es) == multiset(fs) && k < |fs| && fs[k] == es[|es| - 1]
    ensures multiset(es[..|es| - 1]) == multiset(fs[..k] + fs[k + 1..])
  {
    var front, e, rest := es[..|es| - 1], es[|es| - 1], fs[..k] + fs[k + 1..];
    assert es == front + [e];
    assert fs == fs[..k] + [e] + fs[k + 1..];
    assert multiset(fs) == multiset(rest) + multiset{e};
    assert multiset(front) == multiset(es) - multiset{e};
  }

  /** Sums do not depend on the order of the executions. */
  lemma {:induction false} EntryIgnoresOrder(es: seq<Execution>, fs: seq<Execution>, b: string)
    requires AllValid(es) && AllValid(fs) && multiset(es) == multiset(fs)
    ensures EntryOf(es, b) == EntryOf(fs, b)
  {
    hide IsValid, Notional, Shortfall, Grown;
    if es == [] {
      assert |multiset(fs)| == 0;
    } else {
      var front, e := es[..|es| - 1], es[|es| - 1];
      assert e in multiset(fs);
      var k :| 0 <= k < |fs| && fs[k] == e;
      var rest := fs[..k] + fs[k + 1..];
      WithoutOne(es, fs, k);
      assert forall x :: x in rest ==> x in fs;
      EntryWithout(fs, k, b);
      EntryIgnoresOrder(front, rest, b);
    }
  }

  // ---------------------------------------------------------------- ranking

  function ScoreOf(pol: Policy, b: string, t: Entry): Score
    requires t.notional > 0.0
  {
    Score(b, t.weighted / t.notional, t.count, t.notional,
          t.count >= pol.observations && t.notional >= pol.notional)
  }

  /** Cheaper first, equal costs in the order of their names. */
  predicate Better(a: Score, b: Score)
  {
    a.average < b.average || (a.average == b.average && Ordering.Below(a.broker, b.broker))
  }

  predicate Ranked(s: seq<Score>)
  {
    forall i, j :: 0 <= i < j < |s| ==> Better(s[i], s[j])
  }

  lemma {:induction false} BetterTransitive(a: Score, b: Score, c: Score)
    requires Better(a, b) && Better(b, c)
    ensures Better(a, c)
  {
    hide Ordering.Below;
    if a.average == c.average {
      Ordering.BelowTransitive(a.broker, b.broker, c.broker);
    }
  }

  lemma {:induction false} BetterTotal(a: Score, b: Score)
    requires a.broker != b.broker
    ensures Better(a, b) || Better(b, a)
  {
    hide Ordering.Below;
    Ordering.BelowTotal(a.broker, b.broker);
  }

  lemma {:induction false} BetterAsymmetric(a: Score, b: Score)
    ensures !(Better(a, b) && Better(b, a))
  {
    hide Ordering.Below;
    Ordering.BelowAsymmetric(a.broker, b.broker);
  }

  /** A set of scores has one ranking. */
  lemma {:induction false} RankingIsUnique(s: seq<Score>, t: seq<Score>)
    requires Ranked(s) && Ranked(t)
    requires forall x :: x in s <==> x in t
    ensures s == t
  {
    hide Better;
    forall a, b ensures !(Better(a, b) && Better(b, a)) {
      BetterAsymmetric(a, b);
    }
    Ordering.ListingIsUnique(Better, s, t);
  }

  /** The one ranking the executions call for. */
  ghost predicate IsRanking(pol: Policy, es: seq<Execution>, r: seq<Score>)
    requires AllValid(es)
  {
    && Ranked(r)
    && forall s :: s in r <==>
      Trades(es, s.broker) && EntryOf(es, s.broker).notional > 0.0 && s == ScoreOf(pol, s.broker, EntryOf(es, s.broker))
  }

  /** Reordering the executions changes nothing in the ranking. */
  lemma {:induction false} RankingIgnoresOrder(
      pol: Policy, es: seq<Execution>, fs: seq<Execution>, r: seq<Score>, q: seq<Score>)
    requires multiset(es) == multiset(fs) && AllValid(es) && AllValid(fs)
    requires IsRanking(pol, es, r) && IsRanking(pol, fs, q)
    ensures r == q
  {
    hide IsValid, EntryOf, ScoreOf, Ranked;
    forall s: Score ensures s in r <==> s in q {
      EntryIgnoresOrder(es, fs, s.broker);
      TradesIgnoresOrder(es, fs, s.broker);
    }
    RankingIsUnique(r, q);
  }

  lemma {:induction false} TradesIgnoresOrder(es: seq<Execution>, fs: seq<Execution>, b: string)
    requires multiset(es) == multiset(fs)
    ensures Trades(es, b) == Trades(fs, b)
  {
    assert forall e :: e in es <==> e in multiset(es);
    assert forall e :: e in fs <==> e in multiset(fs);
  }

  lemma {:induction false} ValidityIgnoresOrder(es: seq<Execution>, fs: seq<Execution>)
    requires multiset(es) == multiset(fs)
    ensures AllValid(es) == AllValid(fs)
  {
    assert forall e :: e in es <==> e in multiset(es);
    assert forall e :: e in fs <==> e in multiset(fs);
  }

  // ---------------------------------------------------------------- shares

  /** Place of the first broker with enough evidence, or the length if none has. */
  function Leader(r: seq<Score>): (k: nat)
    ensures k <= |r| && (k < |r| ==> r[k].eligible)
    ensures forall i :: 0 <= i < k ==> !r[i].eligible
  {
    if r == [] || r[0].eligible then 0 else 1 + Leader(r[1..])
  }

  function Total(r: seq<Score>, shares: map<string, real>): real
    requires forall s :: s in r ==> s.broker in shares
  {
    if r == [] then 0.0
    else Total(r[..|r| - 1], shares) + shares[r[|r| - 1].broker]
  }

  function Multiple(x: real, n: nat): real { if n == 0 then 0.0 else Multiple(x, n - 1) + x }

  predicate DistinctBrokers(r: seq<Score>)
  {
    forall i, j :: 0 <= i < j < |r| ==> r[i].broker != r[j].broker
  }

  lemma {:induction false} RankingIsDistinct(pol: Policy, es: seq<Execution>, r: seq<Score>)
    requires AllValid(es) && IsRanking(pol, es, r)
    ensures DistinctBrokers(r)
  {
    hide Better, IsValid, EntryOf, ScoreOf;
    forall i, j | 0 <= i < j < |r| ensures r[i].broker != r[j].broker {
      assert r[i] in r && r[j] in r && Better(r[i], r[j]);
      BetterAsymmetric(r[i], r[j]);
    }
  }

  /** The broker apart takes what the others, sharing alike, leave of the whole. */
  function Shares(r: seq<Score>, k: nat, others: real): map<string, real>
    requires DistinctBrokers(r) && k < |r|
  {
    map i | 0 <= i < |r| :: r[i].broker := if i == k then 1.0 - Multiple(others, |r| - 1) else others
  }

  function Allocation(pol: Policy, r: seq<Score>): Result<map<string, real>>
    requires DistinctBrokers(r)
  {
    if r == [] then Ok(map[])
    else
      var k := Leader(r);
      if k == |r| then Ok(Shares(r, 0, 1.0 / |r| as real))
      else if |r| == 1 then Ok(map[r[0].broker := 1.0])
      else if 1.0 - Multiple(pol.floor, |r| - 1) < pol.floor then Failed(FloorTooLarge)
      else Ok(Shares(r, k, pol.floor))
  }

  /** With one broker apart, the rest sharing alike, the total is the one plus a multiple. */
  lemma {:induction false} TotalOfShares(r: seq<Score>, shares: map<string, real>, k: nat, x: real)
    requires DistinctBrokers(r) && forall s :: s in r ==> s.broker in shares
    requires forall i :: 0 <= i < |r| && i != k ==> shares[r[i].broker] == x
    ensures Total(r, shares)
      == if k < |r| then Multiple(x, |r| - 1) + shares[r[k].broker] else Multiple(x, |r|)
  {
    if r != [] {
      TotalOfShares(r[..|r| - 1], shares, k, x);
    }
  }

  lemma {:induction false} EqualShares(n: nat)
    requires n > 0
    ensures Multiple(1.0 / n as real, n) == 1.0
  {
    MultipleIsTimes(1.0 / n as real, n);
    Inverse(n as real);
  }

  lemma Inverse(y: real)
    requires y > 0.0
    ensures Times(1.0 / y, y) == 1.0
  {
  }

  lemma {:induction false} MultipleIsTimes(x: real, n: nat)
    ensures Multiple(x, n) == Times(x, n as real)
  {
    if n > 0 {
      MultipleIsTimes(x, n - 1);
      TimesNext(x, n - 1);
    }
  }

  lemma TimesNext(x: real, n: nat)
    ensures Times(x, (n + 1) as real) == Times(x, n as real) + x
  {
  }

  /** An allocation fails exactly when someone could lead several brokers and the floor
      does not fit them all. */
  lemma AllocationFailsExactly(pol: Policy, r: seq<Score>)
    requires DistinctBrokers(r)
    ensures Allocation(pol, r).Failed? <==> Leader(r) < |r| && |r| > 1 && Multiple(pol.floor, |r|) > 1.0
  {
  }

  lemma {:induction false} SharesAreWhole(r: seq<Score>, k: nat, others: real)
    requires DistinctBrokers(r) && k < |r|
    ensures forall s :: s in r ==> s.broker in Shares(r, k, others)
    ensures Total(r, Shares(r, k, others)) == 1.0
  {
    TotalOfShares(r, Shares(r, k, others), k, others);
  }

  lemma {:induction false} SharesAreOfBrokers(r: seq<Score>, k: nat, others: real, b: string)
    requires DistinctBrokers(r) && k < |r|
    ensures b in Shares(r, k, others) <==> exists s :: s in r && s.broker == b
  {
    if b in Shares(r, k, others) {
      var i :| 0 <= i < |r| && r[i].broker == b;
      assert r[i] in r;
    }
  }

  /** An allocation gives the ranked brokers, and no others, the whole flow. */
  lemma {:induction false} AllocationIsWhole(pol: Policy, r: seq<Score>)
    requires DistinctBrokers(r) && Allocation(pol, r).Ok?
    ensures forall b :: b in Allocation(pol, r).value <==> exists s :: s in r && s.broker == b
    ensures r != [] ==> Total(r, Allocation(pol, r).value) == 1.0
  {
    hide Shares;
    var k := Leader(r);
    if r == [] {
    } else if |r| == 1 && k == 0 {
      assert r[..0] == [];
      assert Total(r, Allocation(pol, r).value) == Total(r[..0], Allocation(pol, r).value) + 1.0;
    } else {
      var apart, others := if k == |r| then 0 else k, if k == |r| then 1.0 / |r| as real else pol.floor;
      SharesAreWhole(r, apart, others);
      forall b ensures b in Allocation(pol, r).value <==> exists s :: s in r && s.broker == b {
        SharesAreOfBrokers(r, apart, others, b);
      }
    }
  }

  /** With a leader, every broker gets the floor, exactly the floor unless it leads; with
      none, all get the same. */
  lemma {:induction false} EveryoneGetsTheFloor(pol: Policy, r: seq<Score>, i: nat)
    requires pol.Valid() && DistinctBrokers(r) && i < |r| && Allocation(pol, r).Ok?
    ensures r[i].broker in Allocation(pol, r).value
    ensures Leader(r) < |r| ==> Allocation(pol, r).value[r[i].broker] >= pol.floor
    ensures Leader(r) < |r| && i != Leader(r) ==> Allocation(pol, r).value[r[i].broker] == pol.floor
    ensures Leader(r) == |r| ==> Allocation(pol, r).value[r[i].broker] == 1.0 / |r| as real
  {
    if Leader(r) == |r| {
      EqualShares(|r|);
    }
  }

  /** The leader has enough evidence, and no broker with enough evidence is cheaper. */
  lemma {:induction false} LeaderIsBest(pol: Policy, es: seq<Execution>, r: seq<Score>, i: nat)
    requires AllValid(es) && IsRanking(pol, es, r) && Leader(r) < |r|
    requires i < |r| && r[i].eligible && i != Leader(r)
    ensures r[Leader(r)].eligible && Better(r[Leader(r)], r[i])
    ensures r[Leader(r)].average <= r[i].average
  {
    hide Ordering.Below, EntryOf, ScoreOf, IsValid;
    assert i > Leader(r);
  }

  ghost predicate IsEvaluation(pol: Policy, es: seq<Execution>, a: Result<map<string, real>>)
    requires AllValid(es)
  {
    exists r :: IsRanking(pol, es, r) && DistinctBrokers(r) && a == Allocation(pol, r)
  }

  /** Reordering the executions changes neither whether they are refused, nor the outcome,
      nor any share. */
  lemma {:induction false} EvaluationIgnoresOrder(
      pol: Policy, es: seq<Execution>, fs: seq<Execution>, a: Result<map<string, real>>, b: Result<map<string, real>>)
    requires multiset(es) == multiset(fs)
    ensures AllValid(es) == AllValid(fs)
    ensures AllValid(es) && IsEvaluation(pol, es, a) && IsEvaluation(pol, fs, b) ==> a == b
  {
    hide IsValid, IsRanking, DistinctBrokers;
    ValidityIgnoresOrder(es, fs);
    if AllValid(es) && IsEvaluation(pol, es, a) && IsEvaluation(pol, fs, b) {
      var r :| IsRanking(pol, es, r) && DistinctBrokers(r) && a == Allocation(pol, r);
      var q :| IsRanking(pol, fs, q) && DistinctBrokers(q) && b == Allocation(pol, q);
      RankingIgnoresOrder(pol, es, fs, r, q);
    }
  }

  // ---------------------------------------------------------------- the evaluator

  ghost predicate AreTotals(totals: map<string, Entry>, es: seq<Execution>)
    requires AllValid(es)
  {
    && (forall b :: b in totals <==> Trades(es, b))
    && (forall b :: b in totals ==> totals[b] == EntryOf(es, b))
  }

  lemma {:induction false} EmptyEntry(es: seq<Execution>, b: string)
    requires AllValid(es) && !Trades(es, b)
    ensures EntryOf(es, b) == NOTHING
  {
    hide IsValid;
    if es != [] {
      var front, e := es[..|es| - 1], es[|es| - 1];
      assert e in es;
      assert forall x :: x in front ==> x in es;
      EmptyEntry(front, b);
    }
  }

  function Added(totals: map<string, Entry>, e: Execution): map<string, Entry>
    requires IsValid(e)
  {
    totals[Broker(e) := Grown(if Broker(e) in totals then totals[Broker(e)] else NOTHING, e)]
  }

  lemma {:induction false} TotalsStep(totals: map<string, Entry>, es: seq<Execution>, e: Execution)
    requires AllValid(es) && IsValid(e) && AreTotals(totals, es)
    ensures AllValid(es + [e]) && AreTotals(Added(totals, e), es + [e])
  {
    hide IsValid, Grown, Broker;
    var more := es + [e];
    assert more[..|es|] == es && more[|es|] == e;
    if Broker(e) !in totals {
      EmptyEntry(es, Broker(e));
    }
    forall b ensures Trades(more, b) <==> Trades(es, b) || b == Broker(e) {
      assert forall x :: x in more <==> x in es || x == e;
    }
  }

  /** Totals by broker, or the fault of the first execution that has one. */
  method Accumulate(es: seq<Execution>) returns (r: Result<map<string, Entry>>)
    ensures r.Ok? <==> AllValid(es)
    ensures r.Ok? ==> AreTotals(r.value, es)
    ensures r.Failed? ==> exists k :: 0 <= k < |es| && AllValid(es[..k]) && FaultOf(es[k]) == Some(r.fault)
  {
    hide AreTotals, FaultOf, Added;
    var totals: map<string, Entry> := map[];
    NoTotals();
    for k := 0 to |es|
      invariant AllValid(es[..k]) && AreTotals(totals, es[..k])
    {
      var e, fault := es[k], FaultOf(es[k]);
      if fault.Some? {
        assert e in es && !IsValid(e);
        return Failed(fault.value);
      }
      TotalsStep(totals, es[..k], e);
      assert es[..k + 1] == es[..k] + [e];
      totals := Added(totals, e);
    }
    assert es[..|es|] == es;
    return Ok(totals);
  }

  lemma NoTotals()
    ensures AreTotals(map[], [])
  {
  }

  method RankBrokers(pol: Policy, es: seq<Execution>) returns (r: Result<seq<Score>>)
    ensures r.Ok? <==> AllValid(es)
    ensures r.Ok? ==> IsRanking(pol, es, r.value)
  {
    hide IsValid, EntryOf, ScoreOf;
    var totals := Accumulate(es);
    if totals.Failed? {
      return Failed(totals.fault);
    }
    var scores: seq<Score> := [];
    var rest := totals.value.Keys;
    while rest != {}
      invariant rest <= totals.value.Keys
      invariant Ranked(scores)
      invariant forall s :: s in scores <==>
        && s.broker in totals.value && s.broker !in rest
        && EntryOf(es, s.broker).notional > 0.0 && s == ScoreOf(pol, s.broker, EntryOf(es, s.broker))
    {
      var b :| b in rest;
      EntryOfTrader(es, b);
      ScoreNames(pol, b, totals.value[b]);
      scores := InsertScore(scores, ScoreOf(pol, b, totals.value[b]));
      rest := rest - {b};
    }
    return Ok(scores);
  }

  lemma ScoreNames(pol: Policy, b: string, t: Entry)
    requires t.notional > 0.0
    ensures ScoreOf(pol, b, t).broker == b
  {
  }

  method InsertScore(s: seq<Score>, x: Score) returns (r: seq<Score>)
    requires Ranked(s) && forall y :: y in s ==> y.broker != x.broker
    ensures Ranked(r)
    ensures forall y :: y in r <==> y in s || y == x
  {
    hide Better;
    var k := 0;
    while k < |s| && Better(s[k], x)
      invariant k <= |s|
      invariant forall i :: 0 <= i < k ==> Better(s[i], x)
    {
      k := k + 1;
    }
    forall i | k <= i < |s| ensures Better(x, s[i]) {
      BetterTotal(s[k], x);
      if i > k {
        BetterTransitive(x, s[k], s[i]);
      }
    }
    r := s[..k] + [x] + s[k..];
  }

  /** Shares for the executions given, or the first fault in them. */
  method EvaluateBrokers(pol: Policy, es: seq<Execution>) returns (a: Result<map<string, real>>)
    requires pol.Valid()
    ensures !AllValid(es) ==> a.Failed?
    ensures AllValid(es) ==> IsEvaluation(pol, es, a)
  {
    hide IsValid, IsRanking, Allocation;
    var r := RankBrokers(pol, es);
    if r.Failed? {
      return Failed(r.fault);
    }
    RankingIsDistinct(pol, es, r.value);
    a := Allocation(pol, r.value);
  }
}
