/** The rollback engine: confirmation streak, cooldown and cap, judged over the whole
    history of samples of one deployment. Times and rates are reals; every reading of
    the clock is part of the sample. */
module Rollback {
  import opened Options

  datatype Config = Config(
    maxLatency: real,
    maxErrorRate: real,
    maxRejectRate: real,
    required: nat,
    cooldown: real,
    cap: nat)
  {
    predicate Valid()
    {
      && 0.0 <= maxLatency && 0.0 <= maxErrorRate <= 1.0 && 0.0 <= maxRejectRate <= 1.0
      && 1 <= required && 0.0 <= cooldown
    }
  }

  /** One telemetry snapshot with the three clock readings its evaluation may take: on
      entry, when a rollback is stamped, and when the new cooldown is reported. */
  datatype Sample = Sample(
    latency: real,
    errorRate: real,
    rejectRate: real,
    volatility: bool,
    entered: real,
    stamped: real,
    reported: real)

  datatype Metric = Latency | ErrorRate | RejectRate

  datatype Severity = Warning | Critical

  datatype Anomaly = Anomaly(metric: Metric, observed: real, threshold: real, severity: Severity)

  datatype Decision = Healthy | Confirming | RollBack | Suppressed

  datatype State = State(streak: nat, lastRollback: real, issued: nat)

  datatype Evaluation = Evaluation(
    decision: Decision,
    anomalies: seq<Anomaly>,
    streak: nat,
    remainingCooldown: real,
    issued: nat)

  const FRESH := State(0, 0.0, 0)

  function Exceeding(metric: Metric, observed: real, threshold: real, severity: Severity): seq<Anomaly>
  {
    if observed > threshold then [Anomaly(metric, observed, threshold, severity)] else []
  }

  function DetectAnomalies(cfg: Config, m: Sample): seq<Anomaly>
  {
    Exceeding(Latency, m.latency, cfg.maxLatency, Warning)
    + Exceeding(ErrorRate, m.errorRate, cfg.maxErrorRate, Critical)
    + Exceeding(RejectRate, m.rejectRate, cfg.maxRejectRate, Critical)
  }

  predicate Breach(cfg: Config, m: Sample)
  {
    m.latency > cfg.maxLatency || m.errorRate > cfg.maxErrorRate || m.rejectRate > cfg.maxRejectRate
  }

  function RemainingCooldown(cfg: Config, s: State, now: real): real
  {
    var left := cfg.cooldown - (now - s.lastRollback);
    if s.issued == 0 || left < 0.0 then 0.0 else left
  }

  /** What one evaluation decides, and the state it leaves. */
  function Decide(cfg: Config, s: State, m: Sample): (Decision, State)
  {
    if !Breach(cfg, m) then (Healthy, s.(streak := 0))
    else if m.volatility then (Suppressed, s)
    else if RemainingCooldown(cfg, s, m.entered) > 0.0 && s.issued < cfg.cap then (Suppressed, s)
    else if s.streak + 1 < cfg.required then (Confirming, s.(streak := s.streak + 1))
    else if s.issued >= cfg.cap then (Suppressed, s.(streak := s.streak + 1))
    else (RollBack, State(0, m.stamped, s.issued + 1))
  }

  // ---------------------------------------------------------------- whole histories

  function StateAt(cfg: Config, h: seq<Sample>, i: nat): State
    requires i <= |h|
  {
    if i == 0 then FRESH else Decide(cfg, StateAt(cfg, h, i - 1), h[i - 1]).1
  }

  function DecisionAt(cfg: Config, h: seq<Sample>, i: nat): Decision
    requires i < |h|
  {
    Decide(cfg, StateAt(cfg, h, i), h[i]).0
  }

  predicate RollsBackAt(cfg: Config, h: seq<Sample>, i: nat)
    requires i < |h|
  {
    DecisionAt(cfg, h, i) == RollBack
  }

  predicate ClockNeverRunsBack(h: seq<Sample>)
  {
    && (forall i :: 0 <= i < |h| ==> h[i].entered <= h[i].stamped <= h[i].reported)
    && (forall i, j :: 0 <= i < j < |h| ==> h[i].reported <= h[j].entered)
  }

  function RollbacksBefore(cfg: Config, h: seq<Sample>, i: nat): nat
    requires i <= |h|
  {
    if i == 0 then 0 else RollbacksBefore(cfg, h, i - 1) + if RollsBackAt(cfg, h, i - 1) then 1 else 0
  }

  /** Sample i is taken after the cooldown of every rollback before it. */
  ghost predicate CooldownOver(cfg: Config, h: seq<Sample>, i: nat)
    requires i < |h|
  {
    forall r :: 0 <= r < i && RollsBackAt(cfg, h, r) ==> h[i].entered - h[r].stamped >= cfg.cooldown
  }

  /** Samples that count towards confirmation: breaching, outside a volatility window, and
      (unless no budget is left) outside every cooldown. */
  ghost predicate Counts(cfg: Config, h: seq<Sample>, i: nat)
    requires i < |h|
  {
    && Breach(cfg, h[i]) && !h[i].volatility
    && (RollbacksBefore(cfg, h, i) < cfg.cap ==> CooldownOver(cfg, h, i))
  }

  /** Counting samples before i since the latest healthy sample or rollback. */
  ghost function Evidence(cfg: Config, h: seq<Sample>, i: nat): nat
    requires i <= |h|
  {
    if i == 0 || !Breach(cfg, h[i - 1]) || RollsBackAt(cfg, h, i - 1) then 0
    else Evidence(cfg, h, i - 1) + if Counts(cfg, h, i - 1) then 1 else 0
  }

  lemma {:induction false} IssuedIsRollbacks(cfg: Config, h: seq<Sample>, i: nat)
    requires i <= |h|
    ensures StateAt(cfg, h, i).issued == RollbacksBefore(cfg, h, i)
  {
    if i > 0 {
      IssuedIsRollbacks(cfg, h, i - 1);
    }
  }

  /** The stored time is that of the latest rollback. */
  lemma {:induction false} LastRollbackIsLatest(cfg: Config, h: seq<Sample>, i: nat) returns (r: nat)
    requires i <= |h| && StateAt(cfg, h, i).issued > 0
    ensures r < i && RollsBackAt(cfg, h, r) && h[r].stamped == StateAt(cfg, h, i).lastRollback
    ensures forall k :: r < k < i ==> !RollsBackAt(cfg, h, k)
  {
    if RollsBackAt(cfg, h, i - 1) {
      r := i - 1;
    } else {
      r := LastRollbackIsLatest(cfg, h, i - 1);
    }
  }

  lemma {:induction false} NoRollbackYet(cfg: Config, h: seq<Sample>, i: nat)
    requires i <= |h| && StateAt(cfg, h, i).issued == 0
    ensures forall k :: 0 <= k < i ==> !RollsBackAt(cfg, h, k)
  {
    if i > 0 {
      NoRollbackYet(cfg, h, i - 1);
    }
  }

  /** Testing the latest rollback alone is testing them all, when the clock never runs back. */
  lemma {:induction false} CooldownIsOver(cfg: Config, h: seq<Sample>, i: nat)
    requires i < |h| && ClockNeverRunsBack(h)
    requires cfg.Valid()
    ensures RemainingCooldown(cfg, StateAt(cfg, h, i), h[i].entered) == 0.0 <==> CooldownOver(cfg, h, i)
  {
    if StateAt(cfg, h, i).issued == 0 {
      NoRollbackYet(cfg, h, i);
    } else {
      var r := LastRollbackIsLatest(cfg, h, i);
      forall k | 0 <= k < i && RollsBackAt(cfg, h, k) ensures h[k].stamped <= h[r].stamped {
        assert k <= r;
        if k < r {
          assert h[k].stamped <= h[k].reported <= h[r].entered <= h[r].stamped;
        }
      }
    }
  }

  lemma {:induction false} CountsExactly(cfg: Config, h: seq<Sample>, i: nat)
    requires i < |h| && ClockNeverRunsBack(h) && cfg.Valid()
    ensures var s := StateAt(cfg, h, i);
      Counts(cfg, h, i) <==>
      && Breach(cfg, h[i]) && !h[i].volatility
      && !(RemainingCooldown(cfg, s, h[i].entered) > 0.0 && s.issued < cfg.cap)
  {
    IssuedIsRollbacks(cfg, h, i);
    CooldownIsOver(cfg, h, i);
  }

  /** The counter the engine keeps is exactly the evidence in the history. */
  lemma {:induction false} StreakIsEvidence(cfg: Config, h: seq<Sample>, i: nat)
    requires i <= |h| && ClockNeverRunsBack(h) && cfg.Valid()
    ensures StateAt(cfg, h, i).streak == Evidence(cfg, h, i)
  {
    if i > 0 {
      StreakIsEvidence(cfg, h, i - 1);
      CountsExactly(cfg, h, i - 1);
    }
  }

  /** A rollback is recommended exactly when the sample counts, budget remains, the
      cooldowns are over and the evidence reaches the required number. */
  lemma {:induction false} RollbackExactly(cfg: Config, h: seq<Sample>, i: nat)
    requires i < |h| && ClockNeverRunsBack(h) && cfg.Valid()
    ensures RollsBackAt(cfg, h, i) <==>
      && Breach(cfg, h[i]) && !h[i].volatility
      && RollbacksBefore(cfg, h, i) < cfg.cap && CooldownOver(cfg, h, i)
      && Evidence(cfg, h, i) + 1 >= cfg.required
  {
    StreakIsEvidence(cfg, h, i);
    IssuedIsRollbacks(cfg, h, i);
    CooldownIsOver(cfg, h, i);
  }

  /** No history, whatever its clock, holds more rollbacks than the cap. */
  lemma {:induction false} NeverBeyondCap(cfg: Config, h: seq<Sample>, i: nat)
    requires i <= |h|
    ensures RollbacksBefore(cfg, h, i) <= cfg.cap
  {
    if i > 0 {
      NeverBeyondCap(cfg, h, i - 1);
      IssuedIsRollbacks(cfg, h, i - 1);
    }
  }

  /** Two rollbacks are at least one cooldown apart. */
  lemma {:induction false} RollbacksAreSpaced(cfg: Config, h: seq<Sample>, i: nat, j: nat)
    requires i < j < |h| && ClockNeverRunsBack(h) && cfg.Valid()
    requires RollsBackAt(cfg, h, i) && RollsBackAt(cfg, h, j)
    ensures h[j].stamped - h[i].stamped >= cfg.cooldown
  {
    RollbackExactly(cfg, h, j);
  }

  /** With budget left the streak never reaches the required number between calls. */
  lemma {:induction false} StreakStaysBelow(cfg: Config, h: seq<Sample>, i: nat)
    requires i <= |h| && cfg.Valid()
    requires StateAt(cfg, h, i).issued < cfg.cap
    ensures StateAt(cfg, h, i).streak < cfg.required
  {
    if i > 0 {
      StreakStaysBelow(cfg, h, i - 1);
    }
  }

  /** Evidence of a defect while budget remains. */
  ghost predicate IsEvidence(cfg: Config, h: seq<Sample>, x: nat)
    requires x < |h|
  {
    Breach(cfg, h[x]) && !h[x].volatility && CooldownOver(cfg, h, x)
  }

  ghost function EvidenceIn(cfg: Config, h: seq<Sample>, from: nat, upto: nat): nat
    requires upto <= |h|
  {
    if upto <= from then 0
    else EvidenceIn(cfg, h, from, upto - 1) + if IsEvidence(cfg, h, upto - 1) then 1 else 0
  }

  lemma {:induction false} EvidenceIsInWindow(cfg: Config, h: seq<Sample>, i: nat) returns (from: nat)
    requires i <= |h| && RollbacksBefore(cfg, h, i) < cfg.cap
    ensures from <= i && EvidenceIn(cfg, h, from, i) == Evidence(cfg, h, i)
    ensures forall x :: from <= x < i ==> Breach(cfg, h[x]) && !RollsBackAt(cfg, h, x)
  {
    hide Breach, RollsBackAt, CooldownOver;
    if i == 0 || !Breach(cfg, h[i - 1]) || RollsBackAt(cfg, h, i - 1) {
      from := i;
    } else {
      from := EvidenceIsInWindow(cfg, h, i - 1);
    }
  }

  /** Each rollback rests on exactly the required number of breaching, non-volatile
      samples, itself included, all taken outside every earlier cooldown, with no healthy
      sample and no other rollback since the first of them. */
  lemma {:induction false} RollbackRestsOnEvidence(cfg: Config, h: seq<Sample>, i: nat) returns (from: nat)
    requires i < |h| && ClockNeverRunsBack(h) && cfg.Valid()
    requires RollsBackAt(cfg, h, i)
    ensures from <= i
    ensures IsEvidence(cfg, h, i)
    ensures EvidenceIn(cfg, h, from, i + 1) == cfg.required
    ensures forall x :: from <= x < i ==> Breach(cfg, h[x]) && !RollsBackAt(cfg, h, x)
  {
    RollbackExactly(cfg, h, i);
    StreakIsEvidence(cfg, h, i);
    IssuedIsRollbacks(cfg, h, i);
    StreakStaysBelow(cfg, h, i);
    from := EvidenceIsInWindow(cfg, h, i);
  }

  // ---------------------------------------------------------------- every decision

  function Observed(m: Sample, metric: Metric): real
  {
    match metric
    case Latency => m.latency
    case ErrorRate => m.errorRate
    case RejectRate => m.rejectRate
  }

  function LimitOf(cfg: Config, metric: Metric): real
  {
    match metric
    case Latency => cfg.maxLatency
    case ErrorRate => cfg.maxErrorRate
    case RejectRate => cfg.maxRejectRate
  }

  predicate OverLimit(cfg: Config, m: Sample)
  {
    exists metric: Metric :: Observed(m, metric) > LimitOf(cfg, metric)
  }

  function Rank(metric: Metric): nat
  {
    match metric
    case Latency => 0
    case ErrorRate => 1
    case RejectRate => 2
  }

  /** One anomaly for each metric over its limit, in a fixed order, latency alone a warning. */
  lemma {:induction false} AnomaliesExactly(cfg: Config, m: Sample)
    ensures var found := DetectAnomalies(cfg, m);
      && (forall a :: a in found <==>
            && a.observed == Observed(m, a.metric) > LimitOf(cfg, a.metric) == a.threshold
            && a.severity == if a.metric.Latency? then Warning else Critical)
      && (forall i, j :: 0 <= i < j < |found| ==> Rank(found[i].metric) < Rank(found[j].metric))
      && (found == [] <==> !OverLimit(cfg, m))
  {
    ExceedingOnce(Latency, m.latency, cfg.maxLatency, Warning);
    ExceedingOnce(ErrorRate, m.errorRate, cfg.maxErrorRate, Critical);
    ExceedingOnce(RejectRate, m.rejectRate, cfg.maxRejectRate, Critical);
    assert m.latency == Observed(m, Latency) && cfg.maxLatency == LimitOf(cfg, Latency);
    assert m.errorRate == Observed(m, ErrorRate) && cfg.maxErrorRate == LimitOf(cfg, ErrorRate);
    assert m.rejectRate == Observed(m, RejectRate) && cfg.maxRejectRate == LimitOf(cfg, RejectRate);
  }

  lemma ExceedingOnce(metric: Metric, observed: real, threshold: real, severity: Severity)
    ensures var found := Exceeding(metric, observed, threshold, severity);
      && |found| <= 1 && (found == [] <==> observed <= threshold)
      && forall a :: a in found <==> observed > threshold && a == Anomaly(metric, observed, threshold, severity)
  {
  }

  /** The whole table of decisions, from the run: healthy within every limit; suppressed in a
      volatility window, in a cooldown while rollbacks remain, and once confirmed when none
      remains; confirming short of the required evidence; otherwise a rollback. */
  lemma {:induction false} DecidesExactly(cfg: Config, h: seq<Sample>, i: nat)
    requires i < |h| && ClockNeverRunsBack(h) && cfg.Valid()
    ensures var spent := RollbacksBefore(cfg, h, i) >= cfg.cap;
      var confirmed := Evidence(cfg, h, i) + 1 >= cfg.required;
      match DecisionAt(cfg, h, i)
      case Healthy => !OverLimit(cfg, h[i])
      case Suppressed =>
        && OverLimit(cfg, h[i])
        && (h[i].volatility || if spent then confirmed else !CooldownOver(cfg, h, i))
      case Confirming =>
        OverLimit(cfg, h[i]) && !h[i].volatility && (spent || CooldownOver(cfg, h, i)) && !confirmed
      case RollBack =>
        OverLimit(cfg, h[i]) && !h[i].volatility && !spent && CooldownOver(cfg, h, i) && confirmed
  {
    hide OverLimit, CooldownOver, Evidence;
    OverLimitIsBreach(cfg, h[i]);
    StreakIsEvidence(cfg, h, i);
    IssuedIsRollbacks(cfg, h, i);
    CooldownIsOver(cfg, h, i);
  }

  lemma {:induction false} OverLimitIsBreach(cfg: Config, m: Sample)
    ensures OverLimit(cfg, m) <==> Breach(cfg, m)
  {
    assert m.latency == Observed(m, Latency) && cfg.maxLatency == LimitOf(cfg, Latency);
    assert m.errorRate == Observed(m, ErrorRate) && cfg.maxErrorRate == LimitOf(cfg, ErrorRate);
    assert m.rejectRate == Observed(m, RejectRate) && cfg.maxRejectRate == LimitOf(cfg, RejectRate);
  }

  // ---------------------------------------------------------------- the engine

  class Engine {
    const config: Config
    var consecutiveFailures: nat
    var lastRollbackTime: real
    var rollbacksIssued: nat
    ghost var history: seq<Sample>  // samples of this deployment

    ghost predicate Valid()
      reads this
    {
      && config.Valid()
      && State(consecutiveFailures, lastRollbackTime, rollbacksIssued) == StateAt(config, history, |history|)
    }

    constructor (config: Config)
      requires config.Valid()
      ensures Valid() && this.config == config && history == []
    {
      this.config := config;
      consecutiveFailures, lastRollbackTime, rollbacksIssued := 0, 0.0, 0;
      history := [];
    }

    method Reset()
      requires Valid()
      modifies this
      ensures Valid() && history == []
    {
      consecutiveFailures, lastRollbackTime, rollbacksIssued := 0, 0.0, 0;
      history := [];
    }

    method RemainingCooldownAt(now: real) returns (remaining: real)
      ensures remaining
        == RemainingCooldown(config, State(consecutiveFailures, lastRollbackTime, rollbacksIssued), now)
      ensures remaining >= 0.0
      ensures remaining > 0.0 <==> rollbacksIssued > 0 && now - lastRollbackTime < config.cooldown
    {
      if rollbacksIssued == 0 {
        return 0.0;
      }
      var elapsed := now - lastRollbackTime;
      remaining := config.cooldown - elapsed;
      if remaining < 0.0 {
        remaining := 0.0;
      }
    }

    /** Evaluates the next sample; the decision is the one the whole history calls for. */
    method EvaluateMetrics(m: Sample) returns (r: Evaluation)
      requires Valid()
      modifies this
      ensures Valid() && history == old(history) + [m]
      ensures r.decision == DecisionAt(config, history, |old(history)|)
      ensures r.anomalies == DetectAnomalies(config, m)
      ensures r.anomalies == [] <==> r.decision == Healthy
      ensures r.issued == rollbacksIssued == RollbacksBefore(config, history, |history|)
      ensures r.streak == if r.decision == RollBack then old(consecutiveFailures) + 1 else consecutiveFailures
      ensures r.remainingCooldown == if r.decision == RollBack
        then RemainingCooldown(config, StateAt(config, history, |history|), m.reported)
        else RemainingCooldown(config, StateAt(config, old(history), |old(history)|), m.entered)
    {
      ghost var before := State(consecutiveFailures, lastRollbackTime, rollbacksIssued);
      ghost var n := |history|;
      var anomalies := DetectAnomalies(config, m);
      var remaining := RemainingCooldownAt(m.entered);
      var capReached := rollbacksIssued >= config.cap;
      var decision;
      var streak := None;
      if anomalies == [] {
        consecutiveFailures := 0;
        decision := Healthy;
      } else if m.volatility {
        decision := Suppressed;
      } else if remaining > 0.0 && !capReached {
        decision := Suppressed;
      } else {
        consecutiveFailures := consecutiveFailures + 1;
        var confirmed := consecutiveFailures >= config.required;
        if !confirmed {
          decision := Confirming;
        } else if capReached {
          decision := Suppressed;
        } else {
          decision := RollBack;
          streak := Some(consecutiveFailures);
          rollbacksIssued := rollbacksIssued + 1;
          lastRollbackTime := m.stamped;
          consecutiveFailures := 0;
          remaining := RemainingCooldownAt(m.reported);
        }
      }
      assert (decision, State(consecutiveFailures, lastRollbackTime, rollbacksIssued)) == Decide(config, before, m);
      HistoryExtends(config, history, m, n);
      history := history + [m];
      IssuedIsRollbacks(config, history, |history|);
      return Evaluation(decision, anomalies, if streak.Some? then streak.value else consecutiveFailures,
                        remaining, rollbacksIssued);
    }
  }

  /** Later samples do not change earlier states. */
  lemma {:induction false} HistoryExtends(cfg: Config, h: seq<Sample>, m: Sample, i: nat)
    requires i <= |h|
    ensures StateAt(cfg, h + [m], i) == StateAt(cfg, h, i)
  {
    if i > 0 {
      HistoryExtends(cfg, h, m, i - 1);
    }
  }
}
