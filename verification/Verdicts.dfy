/**
 The two verdict evaluators and the reconciler between them.

 The engine judges the workers' snapshots; the report judges a summary of them, with fewer
 gates and other code.  With validated thresholds a failing report check implies a failing
 engine gate and both raise the memory advisory alike, so the reconciled verdict is always
 the engine's.  Percentages and rates are real numbers here.
 */
module Verdicts {
  import opened Helpers

  type Counter = n: nat | n < TWO_TO_THE_64

  /** The signed reading of a 64-bit counter, which is negative from 2^63 on. */
  function Int64(n: Counter): int {
    if n < TWO_TO_THE_63 then n else n - TWO_TO_THE_64
  }

  // ---------- Configuration ----------

  const PRODUCE_ROUND_TRIP := "produce_round_trip"
  const KEYED_ORDERING := "keyed_ordering"
  const CONSUMER_GROUP := "consumer_group"
  const OFFSET_COMMIT_LAG := "offset_commit_lag"
  const ADMIN_TOPIC_CHURN := "admin_topic_churn"
  const TRANSACTIONS_EOS := "transactions_eos"

  const ALL_WORKER_NAMES: seq<string> := [
    PRODUCE_ROUND_TRIP, KEYED_ORDERING, CONSUMER_GROUP,
    OFFSET_COMMIT_LAG, ADMIN_TOPIC_CHURN, TRANSACTIONS_EOS]

  datatype Thresholds = Thresholds(
    maxLossPct: real,
    maxDuplicationPct: real,
    maxOffsetOrderViolations: int,
    maxGroupLossAcrossRebalance: int,
    maxEosViolations: int,
    maxLagAccuracyErrorMsgs: int,
    maxP50: real,
    maxP95: real,
    maxP99: real,
    maxP999: real,
    minThroughputPct: real,
    maxErrorRatePct: real,
    maxMemoryGrowthFactor: real,
    maxDowntimePct: real)

  datatype WorkerConfig = WorkerConfig(enabled: bool, rate: int, channels: int)

  /** The thresholds and the worker blocks; a name outside the map has no block. */
  datatype Config = Config(thresholds: Thresholds, workers: map<string, WorkerConfig>)

  function WorkerRate(cfg: Config, name: string): int {
    if name in cfg.workers then cfg.workers[name].rate else 100
  }

  // The part of the validation of thresholds that the verdicts rely on.
  predicate ValidThresholds(t: Thresholds) {
    && t.maxOffsetOrderViolations >= 0 && t.maxGroupLossAcrossRebalance >= 0
    && t.maxEosViolations >= 0 && t.maxLagAccuracyErrorMsgs >= 0
    && t.maxP50 > 0.0 && t.maxP95 > 0.0 && t.maxP99 > 0.0 && t.maxP999 > 0.0
    && t.maxMemoryGrowthFactor >= 1.0
  }

  const BOUNDARY_LOSS_PCT := 0.5

  function Percent(part: real, whole: real): real
    requires whole != 0.0
  {
    part / whole * 100.0
  }

  // ---------- The engine ----------

  datatype Snapshot = Snapshot(
    sent: Counter,
    received: Counter,
    errors: Counter,
    corrupted: Counter,
    duplicated: Counter,
    lost: Counter,
    outOfOrder: Counter,
    deleted: Counter,
    reconnections: Counter,
    downtimeSeconds: real,
    offsetOrderViolations: Counter,
    groupLossRebalance: Counter,
    eosViolations: Counter,
    lagAccuracyErrMax: Counter,
    adminOpFailures: Counter,
    adminInvalidRejected: Counter,
    kip890Residual: Counter,
    p50: real,
    p95: real,
    p99: real,
    p999: real,
    peakRate: real,
    avgRate: real)

  datatype Gate = Corruption | Loss | Duplication | P50 | P95 | P99 | P999 | ErrorRate | Throughput
                | Downtime | OffsetOrder | GroupLoss | Eos | LagAccuracy | AdminOps

  datatype Warning = Breach(gate: Gate, name: string, snapshot: Snapshot) | MemoryGrowth(growth: real)

  datatype Result = PASSED | PASSED_WITH_WARNINGS | FAILED

  datatype EngineVerdict = EngineVerdict(result: Result, passed: bool, warnings: seq<Warning>)

  predicate LatencyBreached(value: real, threshold: real) {
    value > 0.0 && threshold > 0.0 && value > threshold
  }

  function Total(s: Snapshot): Counter { (s.sent + s.received) % TWO_TO_THE_64 }

  /** Whether a worker's snapshot breaches a gate. */
  predicate Breached(g: Gate, name: string, s: Snapshot, cfg: Config, seconds: real) {
    var t := cfg.thresholds;
    match g
    case Corruption => s.corrupted > 0
    case Loss =>
      s.sent > 0 && name != ADMIN_TOPIC_CHURN &&
      var pct := Percent(s.lost as real, s.sent as real);
      pct > t.maxLossPct && pct > BOUNDARY_LOSS_PCT
    case Duplication =>
      s.received > 0 && name != ADMIN_TOPIC_CHURN &&
      Percent(s.duplicated as real, s.received as real) > t.maxDuplicationPct
    case P50 => LatencyBreached(s.p50, t.maxP50)
    case P95 => LatencyBreached(s.p95, t.maxP95)
    case P99 => LatencyBreached(s.p99, t.maxP99)
    case P999 => LatencyBreached(s.p999, t.maxP999)
    case ErrorRate => Total(s) > 0 && Percent(s.errors as real, Total(s) as real) > t.maxErrorRatePct
    case Throughput =>
      seconds > 0.0 && s.sent > 0 && name != ADMIN_TOPIC_CHURN && WorkerRate(cfg, name) > 0 &&
      Percent((s.sent as real) / seconds, WorkerRate(cfg, name) as real) < t.minThroughputPct
    case Downtime =>
      seconds > 0.0 && s.downtimeSeconds > 0.0 && Percent(s.downtimeSeconds, seconds) > t.maxDowntimePct
    case OffsetOrder => name == KEYED_ORDERING && Int64(s.offsetOrderViolations) > t.maxOffsetOrderViolations
    case GroupLoss => name == CONSUMER_GROUP && Int64(s.groupLossRebalance) > t.maxGroupLossAcrossRebalance
    case Eos => name == TRANSACTIONS_EOS && Int64(s.eosViolations) > t.maxEosViolations
    case LagAccuracy => name == OFFSET_COMMIT_LAG && Int64(s.lagAccuracyErrMax) > t.maxLagAccuracyErrorMsgs
    case AdminOps => name == ADMIN_TOPIC_CHURN && s.adminOpFailures > 0
  }

  type Snapshots = map<string, Snapshot>

  /** The engine passes when no worker breaches any gate. */
  ghost predicate EnginePasses(snaps: Snapshots, cfg: Config, seconds: real) {
    forall name <- snaps, g: Gate :: !Breached(g, name, snaps[name], cfg, seconds)
  }

  /** The engine's memory advisory. */
  predicate EngineMemoryAdvisory(baseline: Counter, peak: Counter, factor: real) {
    baseline > 0 && peak > baseline && (peak as real) / (baseline as real) > factor
  }

  ghost function EngineResult(snaps: Snapshots, baseline: Counter, peak: Counter, cfg: Config, seconds: real): Result {
    if !EnginePasses(snaps, cfg, seconds) then FAILED
    else if EngineMemoryAdvisory(baseline, peak, cfg.thresholds.maxMemoryGrowthFactor) then PASSED_WITH_WARNINGS
    else PASSED
  }

  function Raise(g: Gate, name: string, s: Snapshot, cfg: Config, seconds: real): seq<Warning> {
    if Breached(g, name, s, cfg, seconds) then [Breach(g, name, s)] else []
  }

  function StandardWarnings(name: string, s: Snapshot, cfg: Config, seconds: real): seq<Warning> {
    Raise(Corruption, name, s, cfg, seconds) + Raise(Loss, name, s, cfg, seconds) +
    Raise(Duplication, name, s, cfg, seconds)
  }

  function LatencyWarnings(name: string, s: Snapshot, cfg: Config, seconds: real): seq<Warning> {
    Raise(P50, name, s, cfg, seconds) + Raise(P95, name, s, cfg, seconds) +
    Raise(P99, name, s, cfg, seconds) + Raise(P999, name, s, cfg, seconds)
  }

  function RateWarnings(name: string, s: Snapshot, cfg: Config, seconds: real): seq<Warning> {
    Raise(ErrorRate, name, s, cfg, seconds) + Raise(Throughput, name, s, cfg, seconds) +
    Raise(Downtime, name, s, cfg, seconds)
  }

  function FidelityWarnings(name: string, s: Snapshot, cfg: Config, seconds: real): seq<Warning> {
    Raise(OffsetOrder, name, s, cfg, seconds) + Raise(GroupLoss, name, s, cfg, seconds) +
    Raise(Eos, name, s, cfg, seconds) + Raise(LagAccuracy, name, s, cfg, seconds) +
    Raise(AdminOps, name, s, cfg, seconds)
  }

  /** The warnings one worker raises, in the order in which the gates are checked. */
  function WorkerWarnings(name: string, s: Snapshot, cfg: Config, seconds: real): seq<Warning> {
    StandardWarnings(name, s, cfg, seconds) + LatencyWarnings(name, s, cfg, seconds) +
    RateWarnings(name, s, cfg, seconds) + FidelityWarnings(name, s, cfg, seconds)
  }

  lemma WarnedIffBreached(name: string, s: Snapshot, cfg: Config, seconds: real)
    ensures WorkerWarnings(name, s, cfg, seconds) == [] <==> forall g: Gate :: !Breached(g, name, s, cfg, seconds)
  {
    if g: Gate :| Breached(g, name, s, cfg, seconds) {
      BreachIsWarned(g, name, s, cfg, seconds);
    }
  }

  lemma BreachIsWarned(g: Gate, name: string, s: Snapshot, cfg: Config, seconds: real)
    requires Breached(g, name, s, cfg, seconds)
    ensures WorkerWarnings(name, s, cfg, seconds) != []
  {
    hide Raise, Breached;
    assert Raise(g, name, s, cfg, seconds) != [] by {
      RaisedIffBreached(g, name, s, cfg, seconds);
    }
    match g
    case Corruption =>
    case Loss =>
    case Duplication =>
    case P50 =>
    case P95 =>
    case P99 =>
    case P999 =>
    case ErrorRate =>
    case Throughput =>
    case Downtime =>
    case OffsetOrder =>
    case GroupLoss =>
    case Eos =>
    case LagAccuracy =>
    case AdminOps =>
  }

  lemma RaisedIffBreached(g: Gate, name: string, s: Snapshot, cfg: Config, seconds: real)
    ensures Raise(g, name, s, cfg, seconds) != [] <==> Breached(g, name, s, cfg, seconds)
  {
  }

  /** The warnings all workers raise, in no order. */
  ghost function AllWarnings(snaps: Snapshots, cfg: Config, seconds: real): multiset<Warning> {
    if snaps == map[] then multiset{}
    else
      var name :| name in snaps;
      multiset(WorkerWarnings(name, snaps[name], cfg, seconds)) + AllWarnings(snaps - {name}, cfg, seconds)
  }

  /** Visiting the workers in any order raises the same warnings. */
  lemma {:induction false} WarningsDoNotDependOnOrder(snaps: Snapshots, name: string, cfg: Config, seconds: real)
    requires name in snaps
    ensures AllWarnings(snaps, cfg, seconds) ==
      multiset(WorkerWarnings(name, snaps[name], cfg, seconds)) + AllWarnings(snaps - {name}, cfg, seconds)
    decreases snaps
  {
    hide WorkerWarnings;
    var first :| first in snaps && AllWarnings(snaps, cfg, seconds) ==
      multiset(WorkerWarnings(first, snaps[first], cfg, seconds)) + AllWarnings(snaps - {first}, cfg, seconds);
    if first != name {
      WarningsDoNotDependOnOrder(snaps - {first}, name, cfg, seconds);
      WarningsDoNotDependOnOrder(snaps - {name}, first, cfg, seconds);
      assert snaps - {first} - {name} == snaps - {name} - {first};
    }
  }

  /** The verdict is that of these snapshots, whatever the order of its warnings. */
  ghost predicate IsVerdictOf(v: EngineVerdict, snaps: Snapshots, baseline: Counter, peak: Counter,
                              cfg: Config, seconds: real)
  {
    && v.result == EngineResult(snaps, baseline, peak, cfg, seconds)
    && v.passed == EnginePasses(snaps, cfg, seconds)
    && multiset(v.warnings) ==
         AllWarnings(snaps, cfg, seconds) +
         if EngineMemoryAdvisory(baseline, peak, cfg.thresholds.maxMemoryGrowthFactor)
         then multiset{MemoryGrowth(peak as real / baseline as real)} else multiset{}
  }

  /** An engine that fails says why. */
  lemma FailureIsWarned(snaps: Snapshots, cfg: Config, seconds: real)
    requires !EnginePasses(snaps, cfg, seconds)
    ensures AllWarnings(snaps, cfg, seconds) != multiset{}
  {
    hide WorkerWarnings, Breached, AllWarnings;
    var name, g: Gate :| name in snaps && Breached(g, name, snaps[name], cfg, seconds);
    WarnedIffBreached(name, snaps[name], cfg, seconds);
    WarningsDoNotDependOnOrder(snaps, name, cfg, seconds);
    assert WorkerWarnings(name, snaps[name], cfg, seconds)[0] in AllWarnings(snaps, cfg, seconds);
  }

  // ---------- The report ----------

  /** What the summary holds of a worker. */
  datatype WorkerStats = WorkerStats(
    enabled: bool,
    sent: Counter,
    received: Counter,
    lost: Counter,
    duplicated: Counter,
    corrupted: Counter,
    outOfOrder: Counter,
    deleted: Counter,
    lossPct: real,
    errors: Counter,
    reconnections: Counter,
    downtimeSeconds: real,
    offsetOrderViolations: Counter,
    groupLossAcrossRebalance: Counter,
    eosViolations: Counter,
    lagAccuracyErrorMsgs: Counter,
    adminOpFailures: Counter,
    adminInvalidRejected: Counter,
    kip890Residual: Counter,
    p50: real,
    p95: real,
    p99: real,
    p999: real,
    avgRate: real,
    peakRate: real,
    targetRate: int,
    channels: int)

  datatype Summary = Summary(
    workers: map<string, WorkerStats>,
    allWorkersEnabled: bool,
    peakRssMb: real,
    baselineRssMb: real,
    memoryGrowthFactor: real)

  datatype CheckKind = MessageLoss | Duplicates | P99Latency | Errors | OffsetOrderViolations
                     | GroupLossAcrossRebalance | EosViolations | Kip890Residual | LagAccuracyCheck | AdminOpFailures

  datatype CheckKey = WorkerCheck(kind: CheckKind, name: string) | CorruptionCheck | MemoryStability

  datatype CheckResult = CheckResult(passed: bool, advisory: bool, value: real, threshold: real)

  /** The report's own memory warning, or one taken over from the engine. */
  datatype ReportWarning = MemoryExceeded(growth: real) | OfEngine(warning: Warning)

  datatype ReportVerdict = ReportVerdict(result: Result, passed: bool, warnings: seq<ReportWarning>,
                                         checks: map<CheckKey, CheckResult>)

  function LossGateThreshold(base: real): real {
    if base < BOUNDARY_LOSS_PCT then BOUNDARY_LOSS_PCT else base
  }

  function Hard(value: real, threshold: real): CheckResult {
    CheckResult(value <= threshold, false, value, threshold)
  }

  function HardCount(value: Counter, threshold: int): CheckResult {
    CheckResult(Int64(value) <= threshold, false, value as real, threshold as real)
  }

  function StatsTotal(ws: WorkerStats): Counter { (ws.sent + ws.received) % TWO_TO_THE_64 }

  /** The check of one kind on one worker, when it applies. */
  function CheckOf(kind: CheckKind, name: string, ws: WorkerStats, t: Thresholds): Option<CheckResult> {
    match kind
    case MessageLoss =>
      if ws.sent > 0 && name != ADMIN_TOPIC_CHURN
      then Some(Hard(Percent(ws.lost as real, ws.sent as real), LossGateThreshold(t.maxLossPct)))
      else None
    case Duplicates =>
      if ws.received > 0 && name != ADMIN_TOPIC_CHURN
      then Some(Hard(Percent(ws.duplicated as real, ws.received as real), t.maxDuplicationPct))
      else None
    case P99Latency => if ws.p99 > 0.0 then Some(Hard(ws.p99, t.maxP99)) else None
    case Errors =>
      if StatsTotal(ws) > 0
      then Some(Hard(Percent(ws.errors as real, StatsTotal(ws) as real), t.maxErrorRatePct))
      else None
    case OffsetOrderViolations =>
      if name == KEYED_ORDERING then Some(HardCount(ws.offsetOrderViolations, t.maxOffsetOrderViolations)) else None
    case GroupLossAcrossRebalance =>
      if name == CONSUMER_GROUP
      then Some(HardCount(ws.groupLossAcrossRebalance, t.maxGroupLossAcrossRebalance))
      else None
    case EosViolations =>
      if name == TRANSACTIONS_EOS then Some(HardCount(ws.eosViolations, t.maxEosViolations)) else None
    case Kip890Residual =>
      if name == TRANSACTIONS_EOS
      then Some(CheckResult(true, true, ws.kip890Residual as real, 0.0))
      else None
    case LagAccuracyCheck =>
      if name == OFFSET_COMMIT_LAG then Some(HardCount(ws.lagAccuracyErrorMsgs, t.maxLagAccuracyErrorMsgs)) else None
    case AdminOpFailures =>
      if name == ADMIN_TOPIC_CHURN
      then Some(CheckResult(ws.adminOpFailures == 0, false, ws.adminOpFailures as real, 0.0))
      else None
  }

  function Corrupted(workers: map<string, WorkerStats>): map<string, nat> {
    map name | name in workers :: workers[name].corrupted
  }

  lemma {:induction false} SumOfZeros(m: map<string, nat>)
    requires forall name <- m :: m[name] == 0
    ensures SumOf(m) == 0
    decreases m
  {
    if m != map[] {
      var name :| name in m && SumOf(m) == m[name] + SumOf(m - {name});
      SumOfZeros(m - {name});
    }
  }

  /** The report's total of corrupted messages, which wraps around. */
  ghost function TotalCorrupted(workers: map<string, WorkerStats>): Counter {
    SumOf(Corrupted(workers)) % TWO_TO_THE_64
  }

  /** The report passes when no check that is not advisory fails. */
  ghost predicate ReportPasses(summary: Summary, t: Thresholds) {
    && TotalCorrupted(summary.workers) == 0
    && forall name <- summary.workers, kind: CheckKind | summary.workers[name].enabled ::
         var check := CheckOf(kind, name, summary.workers[name], t);
         check.Some? ==> check.value.passed
  }

  predicate ReportMemoryAdvisory(summary: Summary, factor: real) {
    summary.baselineRssMb > 0.0 && summary.memoryGrowthFactor > factor
  }

  function ReportWarnings(summary: Summary, factor: real): seq<ReportWarning> {
    if ReportMemoryAdvisory(summary, factor) then [MemoryExceeded(summary.memoryGrowthFactor)] else []
  }

  ghost function ReportResult(summary: Summary, t: Thresholds): Result {
    if !ReportPasses(summary, t) then FAILED
    else if ReportMemoryAdvisory(summary, t.maxMemoryGrowthFactor) then PASSED_WITH_WARNINGS
    else PASSED
  }

  // ---------- The reconciler ----------

  function LossPct(s: Snapshot): real {
    if s.sent > 0 then Percent(s.lost as real, s.sent as real) else 0.0
  }

  function StatsOf(s: Snapshot, wc: WorkerConfig): WorkerStats {
    WorkerStats(true, s.sent, s.received, s.lost, s.duplicated, s.corrupted, s.outOfOrder, s.deleted, LossPct(s),
                s.errors, s.reconnections, s.downtimeSeconds, s.offsetOrderViolations, s.groupLossRebalance,
                s.eosViolations, s.lagAccuracyErrMax, s.adminOpFailures, s.adminInvalidRejected, s.kip890Residual,
                s.p50, s.p95, s.p99, s.p999, s.avgRate, s.peakRate, wc.rate, wc.channels)
  }

  /** The worker has a snapshot, and a block that enables it. */
  predicate Reported(name: string, snaps: Snapshots, cfg: Config) {
    name in snaps && name in cfg.workers && cfg.workers[name].enabled
  }

  /** The stats of the reported workers among the given names. */
  function StatsOfNamed(names: seq<string>, snaps: Snapshots, cfg: Config): map<string, WorkerStats> {
    map name | name in snaps && name in names && Reported(name, snaps, cfg) ::
      StatsOf(snaps[name], cfg.workers[name])
  }

  function Mb(bytes: Counter): real { bytes as real / 1024.0 / 1024.0 }

  /** The summary of a run covers the six worker names. */
  function Summarize(snaps: Snapshots, baseline: Counter, peak: Counter, cfg: Config): Summary {
    Summary(
      StatsOfNamed(ALL_WORKER_NAMES, snaps, cfg),
      forall name <- ALL_WORKER_NAMES :: Reported(name, snaps, cfg),
      Mb(peak),
      Mb(baseline),
      if baseline > 0 then peak as real / baseline as real else 0.0)
  }

  /** The result after the engine's verdict, when there is one, overrides the report's. */
  function Reconciled(report: Result, engine: Option<Result>): Result {
    if engine.Some? && engine.value == FAILED then FAILED
    else if engine.Some? && engine.value == PASSED_WITH_WARNINGS && report == PASSED then PASSED_WITH_WARNINGS
    else report
  }

  function OfEngineAll(warnings: seq<Warning>): seq<ReportWarning> {
    seq(|warnings|, i requires 0 <= i < |warnings| => OfEngine(warnings[i]))
  }

  // ---------- Agreement ----------

  /** A failing check of the report on a worker breaches a gate of the engine on the same worker. */
  lemma FailingCheckBreachesGate(kind: CheckKind, name: string, s: Snapshot, wc: WorkerConfig,
                                 cfg: Config, seconds: real)
    returns (g: Gate)
    requires cfg.thresholds.maxP99 > 0.0
    requires var check := CheckOf(kind, name, StatsOf(s, wc), cfg.thresholds); check.Some? && !check.value.passed
    ensures Breached(g, name, s, cfg, seconds)
  {
    assert StatsTotal(StatsOf(s, wc)) == Total(s);
    hide Percent, Int64, WorkerRate, StatsTotal, Total;
    match kind
    case MessageLoss => g := Loss;
    case Duplicates => g := Duplication;
    case P99Latency => g := P99;
    case Errors => g := ErrorRate;
    case OffsetOrderViolations => g := OffsetOrder;
    case GroupLossAcrossRebalance => g := GroupLoss;
    case EosViolations => g := Eos;
    case Kip890Residual => g := Eos;
    case LagAccuracyCheck => g := LagAccuracy;
    case AdminOpFailures => g := AdminOps;
  }

  /** A report that fails means an engine that fails. */
  lemma ReportFailureMeansEngineFailure(snaps: Snapshots, baseline: Counter, peak: Counter, cfg: Config, seconds: real)
    requires cfg.thresholds.maxP99 > 0.0
    requires EnginePasses(snaps, cfg, seconds)
    ensures ReportPasses(Summarize(snaps, baseline, peak, cfg), cfg.thresholds)
  {
    hide Breached, CheckOf;
    var workers := Summarize(snaps, baseline, peak, cfg).workers;
    forall name <- workers, kind: CheckKind
      ensures var check := CheckOf(kind, name, workers[name], cfg.thresholds); check.Some? ==> check.value.passed
    {
      var check := CheckOf(kind, name, workers[name], cfg.thresholds);
      if check.Some? && !check.value.passed {
        var g := FailingCheckBreachesGate(kind, name, snaps[name], cfg.workers[name], cfg, seconds);
        assert false;
      }
    }
    forall name <- workers
      ensures workers[name].corrupted == 0
    {
      CorruptionIsBreach(name, snaps[name], cfg, seconds);
    }
    SumOfZeros(Corrupted(workers));
  }

  lemma CorruptionIsBreach(name: string, s: Snapshot, cfg: Config, seconds: real)
    ensures s.corrupted > 0 <==> Breached(Corruption, name, s, cfg, seconds)
  {
  }

  /** The two memory advisories fire alike for every baseline and peak exactly when the threshold is at
      least 1. */
  lemma MemoryAdvisoryAgreesIff(factor: real)
    ensures (forall baseline: Counter, peak: Counter :: MemoryAgrees(baseline, peak, factor)) <==> factor >= 1.0
  {
    if factor < 1.0 {
      assert !MemoryAgrees(1, 1, factor);
    } else {
      forall baseline: Counter, peak: Counter
        ensures MemoryAgrees(baseline, peak, factor)
      {
        GrowthMeansMore(baseline, peak, factor);
      }
    }
  }

  ghost predicate MemoryAgrees(baseline: Counter, peak: Counter, factor: real) {
    var summary := Summary(map[], false, Mb(peak), Mb(baseline),
                           if baseline > 0 then peak as real / baseline as real else 0.0);
    EngineMemoryAdvisory(baseline, peak, factor) <==> ReportMemoryAdvisory(summary, factor)
  }

  lemma GrowthMeansMore(baseline: Counter, peak: Counter, factor: real)
    requires factor >= 1.0
    ensures baseline > 0 && peak as real / baseline as real > factor ==> peak > baseline
  {
    if baseline > 0 && peak <= baseline {
      assert peak as real <= baseline as real;
      assert peak as real / baseline as real <= 1.0;
    }
  }

  /** With a validated threshold the advisories of a run agree. */
  lemma AdvisoriesAgree(snaps: Snapshots, baseline: Counter, peak: Counter, cfg: Config)
    requires cfg.thresholds.maxMemoryGrowthFactor >= 1.0
    ensures EngineMemoryAdvisory(baseline, peak, cfg.thresholds.maxMemoryGrowthFactor) <==>
            ReportMemoryAdvisory(Summarize(snaps, baseline, peak, cfg), cfg.thresholds.maxMemoryGrowthFactor)
  {
    MemoryAdvisoryAgreesIff(cfg.thresholds.maxMemoryGrowthFactor);
    assert MemoryAgrees(baseline, peak, cfg.thresholds.maxMemoryGrowthFactor);
  }

  /** The reconciled result of a run. */
  ghost function RunResult(snaps: Snapshots, baseline: Counter, peak: Counter, cfg: Config, seconds: real): Result {
    Reconciled(ReportResult(Summarize(snaps, baseline, peak, cfg), cfg.thresholds),
               Some(EngineResult(snaps, baseline, peak, cfg, seconds)))
  }

  ghost predicate Agree(snaps: Snapshots, baseline: Counter, peak: Counter, cfg: Config, seconds: real) {
    RunResult(snaps, baseline, peak, cfg, seconds) == EngineResult(snaps, baseline, peak, cfg, seconds)
  }

  /** With these two thresholds in their validated ranges the reconciled verdict is the engine's. */
  lemma ReconciledIsEngine(snaps: Snapshots, baseline: Counter, peak: Counter, cfg: Config, seconds: real)
    requires cfg.thresholds.maxP99 > 0.0 && cfg.thresholds.maxMemoryGrowthFactor >= 1.0
    ensures Agree(snaps, baseline, peak, cfg, seconds)
  {
    hide ReportPasses, EnginePasses, EngineMemoryAdvisory, ReportMemoryAdvisory;
    AdvisoriesAgree(snaps, baseline, peak, cfg);
    if EnginePasses(snaps, cfg, seconds) {
      ReportFailureMeansEngineFailure(snaps, baseline, peak, cfg, seconds);
    }
  }

  const ZERO_SNAPSHOT := Snapshot(0, 0, 0, 0, 0, 0, 0, 0, 0, 0.0, 0, 0, 0, 0, 0, 0, 0, 0.0, 0.0, 0.0, 0.0, 0.0, 0.0)

  /** The reconciled verdict is the engine's for every run exactly when those two ranges hold, among
      configurations with an enabled worker and count thresholds that are not negative. */
  lemma ReconciledIsEngineIff(cfg: Config, enabled: string)
    requires enabled in ALL_WORKER_NAMES && enabled in cfg.workers && cfg.workers[enabled].enabled
    requires var t := cfg.thresholds;
      && t.maxOffsetOrderViolations >= 0 && t.maxGroupLossAcrossRebalance >= 0
      && t.maxEosViolations >= 0 && t.maxLagAccuracyErrorMsgs >= 0
    ensures (forall snaps: Snapshots, baseline: Counter, peak: Counter, seconds: real ::
               Agree(snaps, baseline, peak, cfg, seconds)) <==>
            cfg.thresholds.maxP99 > 0.0 && cfg.thresholds.maxMemoryGrowthFactor >= 1.0
  {
    if cfg.thresholds.maxP99 > 0.0 && cfg.thresholds.maxMemoryGrowthFactor >= 1.0 {
      forall snaps: Snapshots, baseline: Counter, peak: Counter, seconds: real
        ensures Agree(snaps, baseline, peak, cfg, seconds)
      {
        ReconciledIsEngine(snaps, baseline, peak, cfg, seconds);
      }
    } else if cfg.thresholds.maxP99 <= 0.0 {
      LatencyDisagrees(cfg, enabled);
    } else {
      MemoryDisagrees(cfg);
    }
  }

  lemma LatencyDisagrees(cfg: Config, enabled: string)
    requires enabled in ALL_WORKER_NAMES && enabled in cfg.workers && cfg.workers[enabled].enabled
    requires var t := cfg.thresholds;
      && t.maxOffsetOrderViolations >= 0 && t.maxGroupLossAcrossRebalance >= 0
      && t.maxEosViolations >= 0 && t.maxLagAccuracyErrorMsgs >= 0 && t.maxP99 <= 0.0
    ensures !Agree(map[enabled := ZERO_SNAPSHOT.(p99 := 1.0)], 0, 0, cfg, 0.0)
  {
    var s := ZERO_SNAPSHOT.(p99 := 1.0);
    var snaps: Snapshots := map[enabled := s];
    forall g: Gate
      ensures !Breached(g, enabled, s, cfg, 0.0)
    {
    }
    assert EnginePasses(snaps, cfg, 0.0);
    var summary := Summarize(snaps, 0, 0, cfg);
    assert enabled in summary.workers && summary.workers[enabled] == StatsOf(s, cfg.workers[enabled]);
    var check := CheckOf(P99Latency, enabled, summary.workers[enabled], cfg.thresholds);
    assert check.Some? && !check.value.passed;
    assert !ReportPasses(summary, cfg.thresholds);
  }

  lemma MemoryDisagrees(cfg: Config)
    requires cfg.thresholds.maxMemoryGrowthFactor < 1.0
    ensures !Agree(map[], 1, 1, cfg, 0.0)
  {
    var summary := Summarize(map[], 1, 1, cfg);
    assert summary.workers == map[];
    SumOfZeros(Corrupted(summary.workers));
    assert EnginePasses(map[], cfg, 0.0);
    assert summary.memoryGrowthFactor == 1.0 && summary.baselineRssMb > 0.0;
  }

  // ---------- What the verdict does not depend on ----------

  /** Two sets of snapshots that differ only in the residuals get the same engine result, the same
      report result and so the same reconciled result. */
  ghost predicate SameButResiduals(a: Snapshots, b: Snapshots) {
    a.Keys == b.Keys && forall name <- a :: a[name].(kip890Residual := 0) == b[name].(kip890Residual := 0)
  }

  lemma BreachIgnoresResidual(g: Gate, name: string, s: Snapshot, cfg: Config, seconds: real)
    ensures Breached(g, name, s, cfg, seconds) == Breached(g, name, s.(kip890Residual := 0), cfg, seconds)
  {
    hide Percent, Int64, LatencyBreached, WorkerRate;
    assert Total(s) == Total(s.(kip890Residual := 0));
    hide Total;
  }

  lemma CheckIgnoresResidual(kind: CheckKind, name: string, s: Snapshot, wc: WorkerConfig, t: Thresholds)
    ensures var a := CheckOf(kind, name, StatsOf(s, wc), t);
      var b := CheckOf(kind, name, StatsOf(s.(kip890Residual := 0), wc), t);
      a.Some? == b.Some? && (a.Some? ==> a.value.passed == b.value.passed)
  {
  }

  lemma EngineIgnoresResiduals(a: Snapshots, b: Snapshots, cfg: Config, seconds: real)
    requires SameButResiduals(a, b)
    ensures EnginePasses(a, cfg, seconds) == EnginePasses(b, cfg, seconds)
  {
    hide Breached;
    forall name <- a, g: Gate
      ensures Breached(g, name, b[name], cfg, seconds) == Breached(g, name, a[name], cfg, seconds)
    {
      BreachIgnoresResidual(g, name, a[name], cfg, seconds);
      BreachIgnoresResidual(g, name, b[name], cfg, seconds);
    }
  }

  lemma CorruptionIgnoresResiduals(a: Snapshots, b: Snapshots, cfg: Config)
    requires SameButResiduals(a, b)
    ensures Corrupted(StatsOfNamed(ALL_WORKER_NAMES, a, cfg)) == Corrupted(StatsOfNamed(ALL_WORKER_NAMES, b, cfg))
  {
    forall name <- a
      ensures a[name].corrupted == b[name].corrupted
    {
      assert a[name].corrupted == a[name].(kip890Residual := 0).corrupted;
    }
  }

  lemma ReportIgnoresResiduals(a: Snapshots, b: Snapshots, baseline: Counter, peak: Counter, cfg: Config)
    requires SameButResiduals(a, b)
    ensures ReportPasses(Summarize(a, baseline, peak, cfg), cfg.thresholds) ==>
            ReportPasses(Summarize(b, baseline, peak, cfg), cfg.thresholds)
  {
    hide CheckOf, Corrupted, StatsOf;
    var wa, wb := Summarize(a, baseline, peak, cfg).workers, Summarize(b, baseline, peak, cfg).workers;
    CorruptionIgnoresResiduals(a, b, cfg);
    forall name <- wb, kind: CheckKind
      ensures name in wa && wa[name].enabled == wb[name].enabled
      ensures var check := CheckOf(kind, name, wa[name], cfg.thresholds);
        var check' := CheckOf(kind, name, wb[name], cfg.thresholds);
        check.Some? == check'.Some? && (check.Some? ==> check.value.passed == check'.value.passed)
    {
      EnabledStats(a[name], cfg.workers[name]);
      EnabledStats(b[name], cfg.workers[name]);
      CheckIgnoresResidual(kind, name, a[name], cfg.workers[name], cfg.thresholds);
      CheckIgnoresResidual(kind, name, b[name], cfg.workers[name], cfg.thresholds);
    }
  }

  lemma EnabledStats(s: Snapshot, wc: WorkerConfig)
    ensures StatsOf(s, wc).enabled
  {
  }

  lemma ResidualsDoNotMatter(a: Snapshots, b: Snapshots, baseline: Counter, peak: Counter, cfg: Config, seconds: real)
    requires SameButResiduals(a, b)
    ensures EngineResult(a, baseline, peak, cfg, seconds) == EngineResult(b, baseline, peak, cfg, seconds)
    ensures ReportResult(Summarize(a, baseline, peak, cfg), cfg.thresholds) ==
            ReportResult(Summarize(b, baseline, peak, cfg), cfg.thresholds)
  {
    hide EnginePasses, ReportPasses;
    EngineIgnoresResiduals(a, b, cfg, seconds);
    ReportIgnoresResiduals(a, b, baseline, peak, cfg);
    ReportIgnoresResiduals(b, a, baseline, peak, cfg);
  }

  /** Thresholds u are at least as lax as t everywhere. */
  predicate Laxer(t: Thresholds, u: Thresholds) {
    && t.maxLossPct <= u.maxLossPct && t.maxDuplicationPct <= u.maxDuplicationPct
    && t.maxOffsetOrderViolations <= u.maxOffsetOrderViolations
    && t.maxGroupLossAcrossRebalance <= u.maxGroupLossAcrossRebalance
    && t.maxEosViolations <= u.maxEosViolations && t.maxLagAccuracyErrorMsgs <= u.maxLagAccuracyErrorMsgs
    && t.maxP50 <= u.maxP50 && t.maxP95 <= u.maxP95 && t.maxP99 <= u.maxP99 && t.maxP999 <= u.maxP999
    && t.minThroughputPct >= u.minThroughputPct && t.maxErrorRatePct <= u.maxErrorRatePct
    && t.maxMemoryGrowthFactor <= u.maxMemoryGrowthFactor && t.maxDowntimePct <= u.maxDowntimePct
  }

  /** Relaxing turns on a latency gate, which a threshold of 0 or less switches off. */
  predicate EnablesLatencyGate(t: Thresholds, u: Thresholds) {
    || t.maxP50 <= 0.0 < u.maxP50 || t.maxP95 <= 0.0 < u.maxP95
    || t.maxP99 <= 0.0 < u.maxP99 || t.maxP999 <= 0.0 < u.maxP999
  }

  lemma LaxerBreachesLess(g: Gate, name: string, s: Snapshot, cfg: Config, u: Thresholds, seconds: real)
    requires Laxer(cfg.thresholds, u) && !EnablesLatencyGate(cfg.thresholds, u)
    requires Breached(g, name, s, cfg.(thresholds := u), seconds)
    ensures Breached(g, name, s, cfg, seconds)
  {
  }

  ghost predicate StillPasses(snaps: Snapshots, cfg: Config, u: Thresholds, seconds: real) {
    EnginePasses(snaps, cfg, seconds) ==> EnginePasses(snaps, cfg.(thresholds := u), seconds)
  }

  lemma LaxerStillPasses(snaps: Snapshots, cfg: Config, u: Thresholds, seconds: real)
    requires Laxer(cfg.thresholds, u) && !EnablesLatencyGate(cfg.thresholds, u)
    ensures StillPasses(snaps, cfg, u, seconds)
  {
    hide Breached, Laxer, EnablesLatencyGate;
    if EnginePasses(snaps, cfg, seconds) {
      forall name <- snaps, g: Gate
        ensures !Breached(g, name, snaps[name], cfg.(thresholds := u), seconds)
      {
        if Breached(g, name, snaps[name], cfg.(thresholds := u), seconds) {
          LaxerBreachesLess(g, name, snaps[name], cfg, u, seconds);
          assert false;
        }
      }
    }
  }

  /** The snapshot of a worker of which nothing is known but one latency above the relaxed threshold of a gate
      that was off. */
  lemma NewLatencyGateFails(cfg: Config, u: Thresholds) returns (snaps: Snapshots)
    requires EnablesLatencyGate(cfg.thresholds, u)
    ensures !StillPasses(snaps, cfg, u, 0.0)
  {
    var t, name := cfg.thresholds, PRODUCE_ROUND_TRIP;
    var (s, g) :=
      if t.maxP50 <= 0.0 < u.maxP50 then (ZERO_SNAPSHOT.(p50 := u.maxP50 + 1.0), P50)
      else if t.maxP95 <= 0.0 < u.maxP95 then (ZERO_SNAPSHOT.(p95 := u.maxP95 + 1.0), P95)
      else if t.maxP99 <= 0.0 < u.maxP99 then (ZERO_SNAPSHOT.(p99 := u.maxP99 + 1.0), P99)
      else (ZERO_SNAPSHOT.(p999 := u.maxP999 + 1.0), P999);
    snaps := map[name := s];
    assert forall g: Gate :: !Breached(g, name, s, cfg, 0.0);
    assert EnginePasses(snaps, cfg, 0.0);
    assert Breached(g, name, snaps[name], cfg.(thresholds := u), 0.0);
  }

  /** Relaxing thresholds turns no passing run into a failing one exactly when it turns on no latency gate. */
  lemma RelaxingIsSafeIff(cfg: Config, u: Thresholds)
    requires Laxer(cfg.thresholds, u)
    ensures (forall snaps: Snapshots, seconds: real :: StillPasses(snaps, cfg, u, seconds))
            <==> !EnablesLatencyGate(cfg.thresholds, u)
  {
    hide Laxer, StillPasses, EnablesLatencyGate;
    if EnablesLatencyGate(cfg.thresholds, u) {
      var snaps := NewLatencyGateFails(cfg, u);
    } else {
      forall snaps: Snapshots, seconds: real
        ensures StillPasses(snaps, cfg, u, seconds)
      {
        LaxerStillPasses(snaps, cfg, u, seconds);
      }
    }
  }

  /** Relaxing validated thresholds never turns a verdict that does not fail into one that does. */
  lemma RelaxingKeepsPassing(snaps: Snapshots, baseline: Counter, peak: Counter,
                             cfg: Config, u: Thresholds, seconds: real)
    requires ValidThresholds(cfg.thresholds) && Laxer(cfg.thresholds, u)
    requires EngineResult(snaps, baseline, peak, cfg, seconds) != FAILED
    ensures EngineResult(snaps, baseline, peak, cfg.(thresholds := u), seconds) != FAILED
    ensures RunResult(snaps, baseline, peak, cfg.(thresholds := u), seconds) != FAILED
  {
    hide EnginePasses, ReportPasses;
    LaxerStillPasses(snaps, cfg, u, seconds);
    ReconciledIsEngine(snaps, baseline, peak, cfg.(thresholds := u), seconds);
  }
}
