/**
 The gates of the two verdicts as inequalities on the counters: no percentage, no division, and the names and
 limits written out.  The evaluators compute percentages; here it is shown what they decide.
 */
module VerdictGates {
  import opened Helpers
  import opened Verdicts

  // ---------- The engine's gates ----------

  /** Whether a worker's snapshot is beyond the limit of a gate. */
  predicate LimitExceeded(g: Gate, name: string, s: Snapshot, cfg: Config, seconds: real) {
    var t := cfg.thresholds;
    match g
    case Corruption => s.corrupted != 0
    case Loss =>
      && s.sent != 0 && name != "admin_topic_churn"
      && s.lost as real * 100.0 > t.maxLossPct * s.sent as real
      && s.lost * 200 > s.sent
    case Duplication =>
      && s.received != 0 && name != "admin_topic_churn"
      && s.duplicated as real * 100.0 > t.maxDuplicationPct * s.received as real
    case P50 => s.p50 > t.maxP50 > 0.0
    case P95 => s.p95 > t.maxP95 > 0.0
    case P99 => s.p99 > t.maxP99 > 0.0
    case P999 => s.p999 > t.maxP999 > 0.0
    case ErrorRate =>
      var total := (s.sent + s.received) % 0x1_0000_0000_0000_0000;
      total != 0 && s.errors as real * 100.0 > t.maxErrorRatePct * total as real
    case Throughput =>
      var rate := if name in cfg.workers then cfg.workers[name].rate else 100;
      && seconds > 0.0 && s.sent != 0 && name != "admin_topic_churn" && rate > 0
      && s.sent as real * 100.0 < t.minThroughputPct * rate as real * seconds
    case Downtime =>
      && seconds > 0.0 && s.downtimeSeconds > 0.0
      && s.downtimeSeconds * 100.0 > t.maxDowntimePct * seconds
    case OffsetOrder => name == "keyed_ordering" && Above(s.offsetOrderViolations, t.maxOffsetOrderViolations)
    case GroupLoss => name == "consumer_group" && Above(s.groupLossRebalance, t.maxGroupLossAcrossRebalance)
    case Eos => name == "transactions_eos" && Above(s.eosViolations, t.maxEosViolations)
    case LagAccuracy => name == "offset_commit_lag" && Above(s.lagAccuracyErrMax, t.maxLagAccuracyErrorMsgs)
    case AdminOps => name == "admin_topic_churn" && s.adminOpFailures != 0
  }

  /** A counter, read as a signed 64-bit integer, is above the limit. */
  predicate Above(n: Counter, limit: int) {
    if n < 0x8000_0000_0000_0000 then n > limit else n > limit + 0x1_0000_0000_0000_0000
  }

  lemma PercentAbove(part: real, whole: real, limit: real)
    requires whole > 0.0
    ensures Percent(part, whole) > limit <==> part * 100.0 > limit * whole
    ensures Percent(part, whole) < limit <==> part * 100.0 < limit * whole
    ensures Percent(part, whole) * whole == part * 100.0
  {
    var p := part / whole;
    assert p * whole == part;
    Scaled(p * 100.0, limit, whole);
    Scaled(limit, p * 100.0, whole);
  }

  lemma Scaled(a: real, b: real, c: real)
    requires c > 0.0
    ensures a > b <==> a * c > b * c
  {
  }

  lemma RateBelow(sent: real, seconds: real, rate: real, limit: real)
    requires seconds > 0.0 && rate > 0.0
    ensures Percent(sent / seconds, rate) < limit <==> sent * 100.0 < limit * rate * seconds
  {
    var perSecond := sent / seconds;
    assert perSecond * seconds == sent;
    PercentAbove(perSecond, rate, limit);
    Scaled(limit * rate, perSecond * 100.0, seconds);
    hide Percent;
    assert perSecond * 100.0 * seconds == sent * 100.0;
  }

  lemma LossMeans(name: string, s: Snapshot, cfg: Config, seconds: real)
    ensures Breached(Loss, name, s, cfg, seconds) <==> LimitExceeded(Loss, name, s, cfg, seconds)
  {
    hide Percent;
    if s.sent > 0 {
      PercentAbove(s.lost as real, s.sent as real, cfg.thresholds.maxLossPct);
      PercentAbove(s.lost as real, s.sent as real, BOUNDARY_LOSS_PCT);
    }
  }

  lemma DuplicationMeans(name: string, s: Snapshot, cfg: Config, seconds: real)
    ensures Breached(Duplication, name, s, cfg, seconds) <==> LimitExceeded(Duplication, name, s, cfg, seconds)
  {
    hide Percent;
    if s.received > 0 {
      PercentAbove(s.duplicated as real, s.received as real, cfg.thresholds.maxDuplicationPct);
    }
  }

  lemma ErrorRateMeans(name: string, s: Snapshot, cfg: Config, seconds: real)
    ensures Breached(ErrorRate, name, s, cfg, seconds) <==> LimitExceeded(ErrorRate, name, s, cfg, seconds)
  {
    hide Percent;
    if Total(s) > 0 {
      PercentAbove(s.errors as real, Total(s) as real, cfg.thresholds.maxErrorRatePct);
    }
  }

  lemma ThroughputMeans(name: string, s: Snapshot, cfg: Config, seconds: real)
    ensures Breached(Throughput, name, s, cfg, seconds) <==> LimitExceeded(Throughput, name, s, cfg, seconds)
  {
    hide Percent;
    if seconds > 0.0 && WorkerRate(cfg, name) > 0 {
      RateBelow(s.sent as real, seconds, WorkerRate(cfg, name) as real, cfg.thresholds.minThroughputPct);
    }
  }

  lemma DowntimeMeans(name: string, s: Snapshot, cfg: Config, seconds: real)
    ensures Breached(Downtime, name, s, cfg, seconds) <==> LimitExceeded(Downtime, name, s, cfg, seconds)
  {
    hide Percent;
    if seconds > 0.0 {
      PercentAbove(s.downtimeSeconds, seconds, cfg.thresholds.maxDowntimePct);
    }
  }

  lemma OtherGatesMean(g: Gate, name: string, s: Snapshot, cfg: Config, seconds: real)
    requires g !in {Loss, Duplication, ErrorRate, Throughput, Downtime}
    ensures Breached(g, name, s, cfg, seconds) <==> LimitExceeded(g, name, s, cfg, seconds)
  {
    hide Percent, WorkerRate;
  }

  /** Every gate is breached exactly beyond its limit. */
  lemma BreachedIffExceeded(g: Gate, name: string, s: Snapshot, cfg: Config, seconds: real)
    ensures Breached(g, name, s, cfg, seconds) <==> LimitExceeded(g, name, s, cfg, seconds)
  {
    hide Breached, LimitExceeded;
    if g == Loss {
      LossMeans(name, s, cfg, seconds);
    } else if g == Duplication {
      DuplicationMeans(name, s, cfg, seconds);
    } else if g == ErrorRate {
      ErrorRateMeans(name, s, cfg, seconds);
    } else if g == Throughput {
      ThroughputMeans(name, s, cfg, seconds);
    } else if g == Downtime {
      DowntimeMeans(name, s, cfg, seconds);
    } else {
      OtherGatesMean(g, name, s, cfg, seconds);
    }
  }

  // ---------- The warnings ----------

  /** How often the check of gate h raises a warning. */
  ghost function Raised(w: Warning, h: Gate, name: string, s: Snapshot, cfg: Config, seconds: real): nat {
    multiset(Raise(h, name, s, cfg, seconds))[w]
  }

  lemma RaisedOnce(w: Warning, h: Gate, name: string, s: Snapshot, cfg: Config, seconds: real)
    ensures Raised(w, h, name, s, cfg, seconds) ==
      if w == Breach(h, name, s) && Breached(h, name, s, cfg, seconds) then 1 else 0
  {
    hide Breached;
  }

  lemma RaisedByGates(w: Warning, name: string, s: Snapshot, cfg: Config, seconds: real)
    ensures multiset(WorkerWarnings(name, s, cfg, seconds))[w] ==
      Raised(w, Corruption, name, s, cfg, seconds) + Raised(w, Loss, name, s, cfg, seconds) +
      Raised(w, Duplication, name, s, cfg, seconds) + Raised(w, P50, name, s, cfg, seconds) +
      Raised(w, P95, name, s, cfg, seconds) + Raised(w, P99, name, s, cfg, seconds) +
      Raised(w, P999, name, s, cfg, seconds) + Raised(w, ErrorRate, name, s, cfg, seconds) +
      Raised(w, Throughput, name, s, cfg, seconds) + Raised(w, Downtime, name, s, cfg, seconds) +
      Raised(w, OffsetOrder, name, s, cfg, seconds) + Raised(w, GroupLoss, name, s, cfg, seconds) +
      Raised(w, Eos, name, s, cfg, seconds) + Raised(w, LagAccuracy, name, s, cfg, seconds) +
      Raised(w, AdminOps, name, s, cfg, seconds)
  {
    hide Raise;
  }

  /** A worker raises the warning of a gate once when it breaches the gate, and no other warning. */
  lemma WarnedOnce(w: Warning, name: string, s: Snapshot, cfg: Config, seconds: real)
    ensures multiset(WorkerWarnings(name, s, cfg, seconds))[w] ==
      if w.Breach? && w.name == name && w.snapshot == s && Breached(w.gate, name, s, cfg, seconds) then 1 else 0
  {
    hide Breached, Raised, WorkerWarnings;
    forall h: Gate
      ensures Raised(w, h, name, s, cfg, seconds) ==
        if w == Breach(h, name, s) && Breached(h, name, s, cfg, seconds) then 1 else 0
    {
      RaisedOnce(w, h, name, s, cfg, seconds);
    }
    RaisedByGates(w, name, s, cfg, seconds);
    if w.Breach? {
      match w.gate
      case Corruption =>
      case Loss =>
      case Duplication =>
      case P50 =>
      case P95 =>
      case P99 =>
      case P999 =>
      case ErrorRate =>
      case Throughput =>
      case Downtime =>
      case OffsetOrder =>
      case GroupLoss =>
      case Eos =>
      case LagAccuracy =>
      case AdminOps =>
    }
  }

  /** All workers raise the warning of a gate once when the worker it names breaches the gate, and no other. */
  lemma {:induction false} AllWarnedOnce(snaps: Snapshots, w: Warning, cfg: Config, seconds: real)
    ensures AllWarnings(snaps, cfg, seconds)[w] ==
      if w.Breach? && w.name in snaps && w.snapshot == snaps[w.name]
         && Breached(w.gate, w.name, w.snapshot, cfg, seconds)
      then 1 else 0
    decreases snaps
  {
    hide WorkerWarnings, Breached;
    if snaps != map[] {
      var name :| name in snaps && AllWarnings(snaps, cfg, seconds) ==
        multiset(WorkerWarnings(name, snaps[name], cfg, seconds)) + AllWarnings(snaps - {name}, cfg, seconds);
      WarnedOnce(w, name, snaps[name], cfg, seconds);
      AllWarnedOnce(snaps - {name}, w, cfg, seconds);
    }
  }

  // ---------- The engine's verdict ----------

  /** Memory grew by more than the factor. */
  predicate MemoryGrew(baseline: Counter, peak: Counter, factor: real) {
    baseline != 0 && peak > baseline && peak as real > factor * baseline as real
  }

  /** The warning names a worker beyond a limit, or the growth of the memory. */
  predicate Justified(w: Warning, snaps: Snapshots, baseline: Counter, peak: Counter, cfg: Config, seconds: real) {
    match w
    case Breach(g, name, s) => name in snaps && s == snaps[name] && LimitExceeded(g, name, s, cfg, seconds)
    case MemoryGrowth(growth) =>
      && MemoryGrew(baseline, peak, cfg.thresholds.maxMemoryGrowthFactor)
      && growth * baseline as real == peak as real
  }

  lemma GrowthMeans(baseline: Counter, peak: Counter, factor: real, growth: real)
    ensures EngineMemoryAdvisory(baseline, peak, factor) <==> MemoryGrew(baseline, peak, factor)
    ensures baseline != 0 ==>
      (growth * baseline as real == peak as real <==> growth == peak as real / baseline as real)
  {
    if baseline > 0 {
      Ratio(peak as real, baseline as real, factor, growth);
    }
  }

  lemma Ratio(part: real, whole: real, limit: real, x: real)
    requires whole > 0.0
    ensures part / whole > limit <==> part > limit * whole
    ensures x * whole == part <==> x == part / whole
  {
    var ratio := part / whole;
    assert ratio * whole == part;
    Scaled(ratio, limit, whole);
    Scaled(ratio, x, whole);
    Scaled(x, ratio, whole);
  }

  /** The verdict of the snapshots in terms of the limits. */
  lemma VerdictMeans(v: EngineVerdict, snaps: Snapshots, baseline: Counter, peak: Counter, cfg: Config, seconds: real)
    requires IsVerdictOf(v, snaps, baseline, peak, cfg, seconds)
    ensures v.passed <==> forall name <- snaps, g: Gate :: !LimitExceeded(g, name, snaps[name], cfg, seconds)
    ensures v.result == if !v.passed then FAILED
                        else if MemoryGrew(baseline, peak, cfg.thresholds.maxMemoryGrowthFactor)
                        then PASSED_WITH_WARNINGS else PASSED
    ensures forall w :: multiset(v.warnings)[w] == if Justified(w, snaps, baseline, peak, cfg, seconds) then 1 else 0
  {
    hide Breached, LimitExceeded, AllWarnings, EngineMemoryAdvisory, MemoryGrew;
    forall name <- snaps, g: Gate
      ensures Breached(g, name, snaps[name], cfg, seconds) <==> LimitExceeded(g, name, snaps[name], cfg, seconds)
    {
      BreachedIffExceeded(g, name, snaps[name], cfg, seconds);
    }
    GrowthMeans(baseline, peak, cfg.thresholds.maxMemoryGrowthFactor, 0.0);
    forall w
      ensures multiset(v.warnings)[w] == if Justified(w, snaps, baseline, peak, cfg, seconds) then 1 else 0
    {
      WarningMeans(v, w, snaps, baseline, peak, cfg, seconds);
    }
  }

  lemma WarningMeans(v: EngineVerdict, w: Warning, snaps: Snapshots, baseline: Counter, peak: Counter,
                     cfg: Config, seconds: real)
    requires IsVerdictOf(v, snaps, baseline, peak, cfg, seconds)
    ensures multiset(v.warnings)[w] == if Justified(w, snaps, baseline, peak, cfg, seconds) then 1 else 0
  {
    hide Breached, LimitExceeded, AllWarnings, EngineMemoryAdvisory, MemoryGrew, EnginePasses, EngineResult;
    AllWarnedOnce(snaps, w, cfg, seconds);
    GrowthMeans(baseline, peak, cfg.thresholds.maxMemoryGrowthFactor, if w.MemoryGrowth? then w.growth else 0.0);
    MemoryGrewMeans(baseline, peak, cfg.thresholds.maxMemoryGrowthFactor);
    if w.Breach? {
      BreachedIffExceeded(w.gate, w.name, w.snapshot, cfg, seconds);
    }
  }

  lemma MemoryGrewMeans(baseline: Counter, peak: Counter, factor: real)
    ensures MemoryGrew(baseline, peak, factor) ==> baseline != 0
  {
  }

  // ---------- The report's checks ----------

  /** The check compares a share in percent with a limit. */
  predicate ComparesShare(check: CheckResult, part: Counter, whole: Counter, limit: real) {
    && !check.advisory && check.threshold == limit
    && check.value * whole as real == part as real * 100.0
    && (check.passed <==> part as real * 100.0 <= limit * whole as real)
  }

  /** The check compares a count with a limit. */
  predicate ComparesCount(check: CheckResult, n: Counter, limit: int) {
    && !check.advisory && check.threshold == limit as real && check.value == n as real
    && (check.passed <==> !Above(n, limit))
  }

  /** When a worker has a check of a kind, and what the check says. */
  predicate CheckStated(kind: CheckKind, name: string, ws: WorkerStats, t: Thresholds, check: Option<CheckResult>) {
    match kind
    case MessageLoss =>
      && (check.Some? <==> ws.sent != 0 && name != "admin_topic_churn")
      && (check.Some? ==>
            ComparesShare(check.value, ws.lost, ws.sent, if t.maxLossPct > 0.5 then t.maxLossPct else 0.5))
    case Duplicates =>
      && (check.Some? <==> ws.received != 0 && name != "admin_topic_churn")
      && (check.Some? ==> ComparesShare(check.value, ws.duplicated, ws.received, t.maxDuplicationPct))
    case P99Latency =>
      && (check.Some? <==> ws.p99 > 0.0)
      && (check.Some? ==> check.value == CheckResult(ws.p99 <= t.maxP99, false, ws.p99, t.maxP99))
    case Errors =>
      var total := (ws.sent + ws.received) % 0x1_0000_0000_0000_0000;
      && (check.Some? <==> total != 0)
      && (check.Some? ==> ComparesShare(check.value, ws.errors, total, t.maxErrorRatePct))
    case OffsetOrderViolations =>
      && (check.Some? <==> name == "keyed_ordering")
      && (check.Some? ==> ComparesCount(check.value, ws.offsetOrderViolations, t.maxOffsetOrderViolations))
    case GroupLossAcrossRebalance =>
      && (check.Some? <==> name == "consumer_group")
      && (check.Some? ==> ComparesCount(check.value, ws.groupLossAcrossRebalance, t.maxGroupLossAcrossRebalance))
    case EosViolations =>
      && (check.Some? <==> name == "transactions_eos")
      && (check.Some? ==> ComparesCount(check.value, ws.eosViolations, t.maxEosViolations))
    case Kip890Residual =>
      && (check.Some? <==> name == "transactions_eos")
      && (check.Some? ==> check.value == CheckResult(true, true, ws.kip890Residual as real, 0.0))
    case LagAccuracyCheck =>
      && (check.Some? <==> name == "offset_commit_lag")
      && (check.Some? ==> ComparesCount(check.value, ws.lagAccuracyErrorMsgs, t.maxLagAccuracyErrorMsgs))
    case AdminOpFailures =>
      && (check.Some? <==> name == "admin_topic_churn")
      && (check.Some? ==>
            check.value == CheckResult(ws.adminOpFailures == 0, false, ws.adminOpFailures as real, 0.0))
  }

  lemma ShareCompared(part: Counter, whole: Counter, limit: real)
    requires whole > 0
    ensures ComparesShare(Hard(Percent(part as real, whole as real), limit), part, whole, limit)
  {
    hide Percent;
    PercentAbove(part as real, whole as real, limit);
  }

  /** Every check is stored exactly when it applies, and compares what it should. */
  lemma CheckOfStated(kind: CheckKind, name: string, ws: WorkerStats, t: Thresholds)
    ensures CheckStated(kind, name, ws, t, CheckOf(kind, name, ws, t))
  {
    hide Percent, ComparesShare, Hard;
    match kind
    case MessageLoss =>
      if ws.sent > 0 {
        ShareCompared(ws.lost, ws.sent, LossGateThreshold(t.maxLossPct));
      }
    case Duplicates =>
      if ws.received > 0 {
        ShareCompared(ws.duplicated, ws.received, t.maxDuplicationPct);
      }
    case Errors =>
      if StatsTotal(ws) > 0 {
        ShareCompared(ws.errors, StatsTotal(ws), t.maxErrorRatePct);
      }
    case P99Latency => HardMeans(ws.p99, t.maxP99);
    case OffsetOrderViolations =>
    case GroupLossAcrossRebalance =>
    case EosViolations =>
    case Kip890Residual =>
    case LagAccuracyCheck =>
    case AdminOpFailures =>
  }

  lemma HardMeans(value: real, threshold: real)
    ensures Hard(value, threshold) == CheckResult(value <= threshold, false, value, threshold)
  {
  }

  /** The total of corrupted messages: 0 without workers, and one worker's more with it, modulo 2^64. */
  lemma CorruptedAddsUp(workers: map<string, WorkerStats>, name: string)
    ensures TotalCorrupted(map[]) == 0
    ensures name in workers ==>
      TotalCorrupted(workers) == (workers[name].corrupted + TotalCorrupted(workers - {name})) % 0x1_0000_0000_0000_0000
  {
    hide Corrupted, SumOf;
    NoneCorrupted();
    if name in workers {
      CorruptedWithout(workers, name);
      WrapOnce(workers[name].corrupted, SumOf(Corrupted(workers - {name})));
    }
  }

  lemma NoneCorrupted()
    ensures SumOf(Corrupted(map[])) == 0
  {
    assert Corrupted(map[]) == map[];
  }

  lemma CorruptedWithout(workers: map<string, WorkerStats>, name: string)
    requires name in workers
    ensures SumOf(Corrupted(workers)) == workers[name].corrupted + SumOf(Corrupted(workers - {name}))
  {
    hide SumOf;
    SumWithout(Corrupted(workers), name);
    assert Corrupted(workers) - {name} == Corrupted(workers - {name});
  }

  lemma WrapOnce(n: nat, rest: nat)
    ensures (n + rest) % TWO_TO_THE_64 == (n + rest % TWO_TO_THE_64) % TWO_TO_THE_64
  {
  }

  // ---------- The summary ----------

  /** What the summary says of a worker, field by field. */
  predicate StatsStated(ws: WorkerStats, s: Snapshot, wc: WorkerConfig) {
    && ws.enabled
    && ws.sent == s.sent && ws.received == s.received && ws.lost == s.lost && ws.duplicated == s.duplicated
    && ws.corrupted == s.corrupted && ws.outOfOrder == s.outOfOrder && ws.deleted == s.deleted
    && (if s.sent == 0 then ws.lossPct == 0.0 else ws.lossPct * s.sent as real == s.lost as real * 100.0)
    && ws.errors == s.errors && ws.reconnections == s.reconnections && ws.downtimeSeconds == s.downtimeSeconds
    && ws.offsetOrderViolations == s.offsetOrderViolations
    && ws.groupLossAcrossRebalance == s.groupLossRebalance
    && ws.eosViolations == s.eosViolations && ws.lagAccuracyErrorMsgs == s.lagAccuracyErrMax
    && ws.adminOpFailures == s.adminOpFailures && ws.adminInvalidRejected == s.adminInvalidRejected
    && ws.kip890Residual == s.kip890Residual
    && ws.p50 == s.p50 && ws.p95 == s.p95 && ws.p99 == s.p99 && ws.p999 == s.p999
    && ws.avgRate == s.avgRate && ws.peakRate == s.peakRate
    && ws.targetRate == wc.rate && ws.channels == wc.channels
  }

  /** The summary covers the enabled workers among the six that have a snapshot, and the memory in megabytes
      and as a ratio. */
  ghost predicate SummaryStated(summary: Summary, snaps: Snapshots, baseline: Counter, peak: Counter, cfg: Config) {
    && (forall name :: name in summary.workers <==>
          && name in {"produce_round_trip", "keyed_ordering", "consumer_group",
                      "offset_commit_lag", "admin_topic_churn", "transactions_eos"}
          && name in snaps && name in cfg.workers && cfg.workers[name].enabled)
    && (forall name <- summary.workers :: StatsStated(summary.workers[name], snaps[name], cfg.workers[name]))
    && (summary.allWorkersEnabled <==> |summary.workers| == 6)
    && summary.peakRssMb * 1048576.0 == peak as real
    && summary.baselineRssMb * 1048576.0 == baseline as real
    && (if baseline == 0 then summary.memoryGrowthFactor == 0.0
        else summary.memoryGrowthFactor * baseline as real == peak as real)
  }

  lemma StatsOfStated(s: Snapshot, wc: WorkerConfig)
    ensures StatsStated(StatsOf(s, wc), s, wc)
  {
    hide Percent;
    if s.sent > 0 {
      PercentAbove(s.lost as real, s.sent as real, 0.0);
    }
  }

  lemma MbMeans(bytes: Counter)
    ensures Mb(bytes) * 1048576.0 == bytes as real
  {
    var b := bytes as real;
    assert b / 1024.0 * 1024.0 == b;
    assert b / 1024.0 / 1024.0 * 1024.0 == b / 1024.0;
  }

  lemma SixNames()
    ensures forall name :: name in ALL_WORKER_NAMES <==>
      name in {"produce_round_trip", "keyed_ordering", "consumer_group",
               "offset_commit_lag", "admin_topic_churn", "transactions_eos"}
    ensures |set name | name in ALL_WORKER_NAMES| == 6
  {
    assert ALL_WORKER_NAMES[0] == "produce_round_trip" && ALL_WORKER_NAMES[1] == "keyed_ordering";
    assert ALL_WORKER_NAMES[2] == "consumer_group" && ALL_WORKER_NAMES[3] == "offset_commit_lag";
    assert ALL_WORKER_NAMES[4] == "admin_topic_churn" && ALL_WORKER_NAMES[5] == "transactions_eos";
    var six := {"produce_round_trip", "keyed_ordering", "consumer_group",
                "offset_commit_lag", "admin_topic_churn", "transactions_eos"};
    SixDiffer();
    assert (set name | name in ALL_WORKER_NAMES) == six;
  }

  lemma SixDiffer()
    ensures |{"produce_round_trip", "keyed_ordering", "consumer_group",
              "offset_commit_lag", "admin_topic_churn", "transactions_eos"}| == 6
  {
    assert "produce_round_trip"[0] == 'p' && "keyed_ordering"[0] == 'k' && "consumer_group"[0] == 'c';
    assert "offset_commit_lag"[0] == 'o' && "admin_topic_churn"[0] == 'a' && "transactions_eos"[0] == 't';
  }

  lemma NamesStated(snaps: Snapshots, cfg: Config, name: string)
    ensures name in StatsOfNamed(ALL_WORKER_NAMES, snaps, cfg) <==>
      && name in {"produce_round_trip", "keyed_ordering", "consumer_group",
                  "offset_commit_lag", "admin_topic_churn", "transactions_eos"}
      && name in snaps && name in cfg.workers && cfg.workers[name].enabled
    ensures name in StatsOfNamed(ALL_WORKER_NAMES, snaps, cfg) ==>
      StatsStated(StatsOfNamed(ALL_WORKER_NAMES, snaps, cfg)[name], snaps[name], cfg.workers[name])
  {
    hide StatsOf, StatsStated;
    SixNames();
    if name in snaps && name in cfg.workers {
      StatsOfStated(snaps[name], cfg.workers[name]);
    }
  }

  lemma SummarizeStated(snaps: Snapshots, baseline: Counter, peak: Counter, cfg: Config)
    ensures SummaryStated(Summarize(snaps, baseline, peak, cfg), snaps, baseline, peak, cfg)
  {
    hide StatsOf, StatsStated, Mb, StatsOfNamed, Reported;
    var summary := Summarize(snaps, baseline, peak, cfg);
    forall name: string
      ensures name in summary.workers <==>
        && name in {"produce_round_trip", "keyed_ordering", "consumer_group",
                    "offset_commit_lag", "admin_topic_churn", "transactions_eos"}
        && name in snaps && name in cfg.workers && cfg.workers[name].enabled
      ensures name in summary.workers ==> StatsStated(summary.workers[name], snaps[name], cfg.workers[name])
    {
      NamesStated(snaps, cfg, name);
    }
    MbMeans(peak);
    MbMeans(baseline);
    AllWorkersMeansSix(snaps, cfg);
    if baseline > 0 {
      Ratio(peak as real, baseline as real, 0.0, summary.memoryGrowthFactor);
    }
  }

  lemma AllWorkersMeansSix(snaps: Snapshots, cfg: Config)
    ensures (forall name <- ALL_WORKER_NAMES :: Reported(name, snaps, cfg))
            <==> |StatsOfNamed(ALL_WORKER_NAMES, snaps, cfg)| == 6
  {
    hide StatsOf;
    SixNames();
    var names := set name | name in ALL_WORKER_NAMES;
    var keys := StatsOfNamed(ALL_WORKER_NAMES, snaps, cfg).Keys;
    assert |StatsOfNamed(ALL_WORKER_NAMES, snaps, cfg)| == |keys|;
    assert keys <= names;
    if forall name <- ALL_WORKER_NAMES :: Reported(name, snaps, cfg) {
      assert keys == names;
    } else {
      var name :| name in ALL_WORKER_NAMES && !Reported(name, snaps, cfg);
      assert keys <= names - {name};
      SubsetIsNoLarger(keys, names - {name});
    }
  }
}
