/**
 The verdict code itself: the engine's loop over its snapshots, the report's loop over the
 summary, and the reconciler that puts the two together.  Maps are visited in any order.
 */
module VerdictPrograms {
  import opened Helpers
  import opened VerdictGates
  import opened Verdicts

  /** The gates on one worker, checked in turn. */
  method CheckWorker(name: string, s: Snapshot, cfg: Config, seconds: real) returns (fails: seq<Warning>)
    ensures fails == WorkerWarnings(name, s, cfg, seconds)
  {
    hide StandardWarnings, LatencyWarnings, RateWarnings, FidelityWarnings;
    fails := CheckStandard(name, s, cfg, seconds);
    var more := CheckLatencies(name, s, cfg, seconds);
    fails := fails + more;
    more := CheckRates(name, s, cfg, seconds);
    fails := fails + more;
    more := CheckFidelity(name, s, cfg, seconds);
    fails := fails + more;
  }

  method CheckStandard(name: string, s: Snapshot, cfg: Config, seconds: real) returns (fails: seq<Warning>)
    ensures fails == StandardWarnings(name, s, cfg, seconds)
  {
    fails := [];
    if s.corrupted > 0 {
      fails := fails + [Breach(Corruption, name, s)];
    }
    if s.sent > 0 && name != ADMIN_TOPIC_CHURN {
      var lossPct := s.lost as real / s.sent as real * 100.0;
      if lossPct > cfg.thresholds.maxLossPct && lossPct > BOUNDARY_LOSS_PCT {
        fails := fails + [Breach(Loss, name, s)];
      }
    }
    if s.received > 0 && name != ADMIN_TOPIC_CHURN {
      var dupPct := s.duplicated as real / s.received as real * 100.0;
      if dupPct > cfg.thresholds.maxDuplicationPct {
        fails := fails + [Breach(Duplication, name, s)];
      }
    }
  }

  method CheckLatencies(name: string, s: Snapshot, cfg: Config, seconds: real) returns (fails: seq<Warning>)
    ensures fails == LatencyWarnings(name, s, cfg, seconds)
  {
    var t := cfg.thresholds;
    fails := CheckLatency([], P50, name, s, s.p50, t.maxP50);
    fails := CheckLatency(fails, P95, name, s, s.p95, t.maxP95);
    fails := CheckLatency(fails, P99, name, s, s.p99, t.maxP99);
    fails := CheckLatency(fails, P999, name, s, s.p999, t.maxP999);
  }

  method CheckLatency(before: seq<Warning>, g: Gate, name: string, s: Snapshot, value: real, threshold: real)
    returns (fails: seq<Warning>)
    ensures fails == before + if LatencyBreached(value, threshold) then [Breach(g, name, s)] else []
  {
    fails := before;
    if value > 0.0 && threshold > 0.0 && value > threshold {
      fails := fails + [Breach(g, name, s)];
    }
  }

  method CheckRates(name: string, s: Snapshot, cfg: Config, seconds: real) returns (fails: seq<Warning>)
    ensures fails == RateWarnings(name, s, cfg, seconds)
  {
    var t := cfg.thresholds;
    fails := [];
    var total := Total(s);
    if total > 0 {
      var errPct := s.errors as real / total as real * 100.0;
      if errPct > t.maxErrorRatePct {
        fails := fails + [Breach(ErrorRate, name, s)];
      }
    }
    if seconds > 0.0 && s.sent > 0 && name != ADMIN_TOPIC_CHURN {
      var targetRate := WorkerRate(cfg, name);
      if targetRate > 0 {
        var actualRate := s.sent as real / seconds;
        var throughputPct := actualRate / targetRate as real * 100.0;
        if throughputPct < t.minThroughputPct {
          fails := fails + [Breach(Throughput, name, s)];
        }
      }
    }
    if seconds > 0.0 && s.downtimeSeconds > 0.0 {
      var downtimePct := s.downtimeSeconds / seconds * 100.0;
      if downtimePct > t.maxDowntimePct {
        fails := fails + [Breach(Downtime, name, s)];
      }
    }
  }

  lemma FidelityGates(name: string, s: Snapshot, cfg: Config, seconds: real)
    ensures var t := cfg.thresholds;
      && (Breached(OffsetOrder, name, s, cfg, seconds)
          <==> name == KEYED_ORDERING && Int64(s.offsetOrderViolations) > t.maxOffsetOrderViolations)
      && (Breached(GroupLoss, name, s, cfg, seconds)
          <==> name == CONSUMER_GROUP && Int64(s.groupLossRebalance) > t.maxGroupLossAcrossRebalance)
      && (Breached(Eos, name, s, cfg, seconds)
          <==> name == TRANSACTIONS_EOS && Int64(s.eosViolations) > t.maxEosViolations)
      && (Breached(LagAccuracy, name, s, cfg, seconds)
          <==> name == OFFSET_COMMIT_LAG && Int64(s.lagAccuracyErrMax) > t.maxLagAccuracyErrorMsgs)
      && (Breached(AdminOps, name, s, cfg, seconds) <==> name == ADMIN_TOPIC_CHURN && s.adminOpFailures > 0)
  {
  }

  method CheckFidelity(name: string, s: Snapshot, cfg: Config, seconds: real) returns (fails: seq<Warning>)
    ensures fails == FidelityWarnings(name, s, cfg, seconds)
  {
    var t := cfg.thresholds;
    FidelityGates(name, s, cfg, seconds);
    hide Int64, Breached;
    fails := [];
    if name == KEYED_ORDERING && Int64(s.offsetOrderViolations) > t.maxOffsetOrderViolations {
      fails := fails + [Breach(OffsetOrder, name, s)];
    }
    if name == CONSUMER_GROUP && Int64(s.groupLossRebalance) > t.maxGroupLossAcrossRebalance {
      fails := fails + [Breach(GroupLoss, name, s)];
    }
    if name == TRANSACTIONS_EOS && Int64(s.eosViolations) > t.maxEosViolations {
      fails := fails + [Breach(Eos, name, s)];
    }
    if name == OFFSET_COMMIT_LAG && Int64(s.lagAccuracyErrMax) > t.maxLagAccuracyErrorMsgs {
      fails := fails + [Breach(LagAccuracy, name, s)];
    }
    if name == ADMIN_TOPIC_CHURN && s.adminOpFailures > 0 {
      fails := fails + [Breach(AdminOps, name, s)];
    }
  }

  class Engine {
    var workerSnapshots: Option<Snapshots>
    var baselineRss: Counter
    var peakRss: Counter
    var measuredSeconds: real
    var verdictResult: Option<EngineVerdict>

    constructor (snaps: Option<Snapshots>, baseline: Counter, peak: Counter, seconds: real)
      ensures workerSnapshots == snaps && baselineRss == baseline && peakRss == peak
      ensures measuredSeconds == seconds && verdictResult == None
    {
      workerSnapshots, baselineRss, peakRss := snaps, baseline, peak;
      measuredSeconds, verdictResult := seconds, None;
    }

    /** The snapshots to loop over: none before they are taken. */
    function Taken(): Snapshots
      reads this
    {
      if workerSnapshots.Some? then workerSnapshots.value else map[]
    }

    ghost predicate HasVerdict(cfg: Config)
      reads this
    {
      && verdictResult.Some?
      && IsVerdictOf(verdictResult.value, Taken(), baselineRss, peakRss, cfg, measuredSeconds)
    }

    /** Judges the snapshots; what it stores does not depend on the order of the loop, but for the order
        of the warnings. */
    method ComputeVerdict(cfg: Config)
      modifies this`verdictResult
      ensures HasVerdict(cfg)
      // a worker fails exactly beyond a limit, memory growth is advisory, and there is one warning for each
      ensures var v := verdictResult.value;
        && (v.passed <==>
              forall name <- Taken(), g: Gate :: !LimitExceeded(g, name, Taken()[name], cfg, measuredSeconds))
        && v.result == (if !v.passed then FAILED
                        else if MemoryGrew(baselineRss, peakRss, cfg.thresholds.maxMemoryGrowthFactor)
                        then PASSED_WITH_WARNINGS else PASSED)
        && forall w :: multiset(v.warnings)[w] ==
             if Justified(w, Taken(), baselineRss, peakRss, cfg, measuredSeconds) then 1 else 0
    {
      hide EnginePasses, AllWarnings, Justified, LimitExceeded, MemoryGrew;
      var result, passed, warnings := CheckAll(cfg);
      var baseline, peak := baselineRss, peakRss;
      if baseline > 0 && peak > baseline {
        var growth := peak as real / baseline as real;
        if growth > cfg.thresholds.maxMemoryGrowthFactor {
          if passed {
            result := PASSED_WITH_WARNINGS;
          }
          warnings := warnings + [MemoryGrowth(growth)];
        }
      }
      verdictResult := Some(EngineVerdict(result, passed, warnings));
      VerdictMeans(verdictResult.value, Taken(), baseline, peak, cfg, measuredSeconds);
    }

    method CheckAll(cfg: Config) returns (result: Result, passed: bool, warnings: seq<Warning>)
      ensures passed <==> EnginePasses(Taken(), cfg, measuredSeconds)
      ensures result == if passed then PASSED else FAILED
      ensures multiset(warnings) == AllWarnings(Taken(), cfg, measuredSeconds)
    {
      hide WorkerWarnings, Breached;
      result, passed, warnings := PASSED, true, [];
      var snaps := Taken();
      ghost var rest := snaps;
      var todo := snaps.Keys;
      while todo != {}
        invariant todo <= snaps.Keys && rest == map name | name in todo :: snaps[name]
        invariant passed <==> forall name <- snaps, g: Gate | name !in todo ::
          !Breached(g, name, snaps[name], cfg, measuredSeconds)
        invariant result == if passed then PASSED else FAILED
        invariant multiset(warnings) + AllWarnings(rest, cfg, measuredSeconds) ==
          AllWarnings(snaps, cfg, measuredSeconds)
        decreases todo
      {
        var name :| name in todo;
        var fails := CheckWorker(name, snaps[name], cfg, measuredSeconds);
        WarnedIffBreached(name, snaps[name], cfg, measuredSeconds);
        WarningsDoNotDependOnOrder(rest, name, cfg, measuredSeconds);
        if fails != [] {
          result, passed, warnings := FAILED, false, warnings + fails;
        }
        todo, rest := todo - {name}, rest - {name};
      }
    }
  }

  // ---------- The report ----------

  type Checks = map<CheckKey, CheckResult>

  /** The checks are those of the given kinds that apply to one worker. */
  ghost predicate ChecksOfKinds(checks: Checks, kinds: set<CheckKind>, name: string, ws: WorkerStats, t: Thresholds) {
    && (forall key <- checks :: key.WorkerCheck? && key.name == name && key.kind in kinds)
    && (forall kind <- kinds ::
          var check := CheckOf(kind, name, ws, t);
          && (check.Some? <==> WorkerCheck(kind, name) in checks)
          && (check.Some? ==> checks[WorkerCheck(kind, name)] == check.value))
  }

  ghost predicate AllPass(checks: Checks) {
    forall key <- checks :: checks[key].passed
  }

  method AddHard(checks: Checks, passed: bool, key: CheckKey, value: real, threshold: real)
    returns (checks': Checks, passed': bool)
    ensures checks' == checks[key := Hard(value, threshold)]
    ensures passed' <==> passed && value <= threshold
  {
    var ok := value <= threshold;
    checks' := checks[key := CheckResult(ok, false, value, threshold)];
    passed' := passed && ok;
  }

  method AddCount(checks: Checks, passed: bool, key: CheckKey, value: Counter, threshold: int)
    returns (checks': Checks, passed': bool)
    ensures checks' == checks[key := HardCount(value, threshold)]
    ensures passed' <==> passed && HardCount(value, threshold).passed
  {
    var ok := Int64(value) <= threshold;
    checks' := checks[key := CheckResult(ok, false, value as real, threshold as real)];
    passed' := passed && ok;
  }

  const TRAFFIC_KINDS := {MessageLoss, Duplicates}
  const RATE_KINDS := {P99Latency, Errors}
  const FIDELITY_KINDS := {OffsetOrderViolations, GroupLossAcrossRebalance, EosViolations, Kip890Residual}
  const OTHER_KINDS := {LagAccuracyCheck, AdminOpFailures}

  method AddTrafficChecks(name: string, ws: WorkerStats, t: Thresholds) returns (checks: Checks, passed: bool)
    ensures ChecksOfKinds(checks, TRAFFIC_KINDS, name, ws, t) && (passed <==> AllPass(checks))
  {
    checks, passed := map[], true;
    if ws.sent > 0 && name != ADMIN_TOPIC_CHURN {
      var lossPct := ws.lost as real / ws.sent as real * 100.0;
      checks, passed := AddHard(checks, passed, WorkerCheck(MessageLoss, name),
                                lossPct, LossGateThreshold(t.maxLossPct));
    }
    if ws.received > 0 && name != ADMIN_TOPIC_CHURN {
      var dupPct := ws.duplicated as real / ws.received as real * 100.0;
      checks, passed := AddHard(checks, passed, WorkerCheck(Duplicates, name), dupPct, t.maxDuplicationPct);
    }
  }

  method AddRateChecks(name: string, ws: WorkerStats, t: Thresholds) returns (checks: Checks, passed: bool)
    ensures ChecksOfKinds(checks, RATE_KINDS, name, ws, t) && (passed <==> AllPass(checks))
  {
    checks, passed := map[], true;
    if ws.p99 > 0.0 {
      checks, passed := AddHard(checks, passed, WorkerCheck(P99Latency, name), ws.p99, t.maxP99);
    }
    var total := StatsTotal(ws);
    if total > 0 {
      var errPct := ws.errors as real / total as real * 100.0;
      checks, passed := AddHard(checks, passed, WorkerCheck(Errors, name), errPct, t.maxErrorRatePct);
    }
  }

  method AddFidelityChecks(name: string, ws: WorkerStats, t: Thresholds) returns (checks: Checks, passed: bool)
    ensures ChecksOfKinds(checks, FIDELITY_KINDS, name, ws, t) && (passed <==> AllPass(checks))
  {
    checks, passed := map[], true;
    if name == KEYED_ORDERING {
      checks, passed := AddCount(checks, passed, WorkerCheck(OffsetOrderViolations, name),
                                 ws.offsetOrderViolations, t.maxOffsetOrderViolations);
    }
    if name == CONSUMER_GROUP {
      checks, passed := AddCount(checks, passed, WorkerCheck(GroupLossAcrossRebalance, name),
                                 ws.groupLossAcrossRebalance, t.maxGroupLossAcrossRebalance);
    }
    if name == TRANSACTIONS_EOS {
      checks, passed := AddCount(checks, passed, WorkerCheck(EosViolations, name),
                                 ws.eosViolations, t.maxEosViolations);
      checks := checks[WorkerCheck(Kip890Residual, name) := CheckResult(true, true, ws.kip890Residual as real, 0.0)];
    }
  }

  method AddOtherChecks(name: string, ws: WorkerStats, t: Thresholds) returns (checks: Checks, passed: bool)
    ensures ChecksOfKinds(checks, OTHER_KINDS, name, ws, t) && (passed <==> AllPass(checks))
  {
    checks, passed := map[], true;
    if name == OFFSET_COMMIT_LAG {
      checks, passed := AddCount(checks, passed, WorkerCheck(LagAccuracyCheck, name),
                                 ws.lagAccuracyErrorMsgs, t.maxLagAccuracyErrorMsgs);
    }
    if name == ADMIN_TOPIC_CHURN {
      var ok := ws.adminOpFailures == 0;
      checks := checks[WorkerCheck(AdminOpFailures, name) := CheckResult(ok, false, ws.adminOpFailures as real, 0.0)];
      passed := passed && ok;
    }
  }

  /** Every check that applies to one worker. */
  ghost predicate ChecksOfWorker(checks: Checks, name: string, ws: WorkerStats, t: Thresholds) {
    forall kind: CheckKind ::
      var check := CheckOf(kind, name, ws, t);
      && (check.Some? <==> WorkerCheck(kind, name) in checks)
      && (check.Some? ==> checks[WorkerCheck(kind, name)] == check.value)
  }

  /** Checks of disjoint kinds can be put together. */
  lemma ChecksOfBoth(a: Checks, ka: set<CheckKind>, b: Checks, kb: set<CheckKind>,
                     name: string, ws: WorkerStats, t: Thresholds)
    requires ka !! kb && ChecksOfKinds(a, ka, name, ws, t) && ChecksOfKinds(b, kb, name, ws, t)
    ensures ChecksOfKinds(a + b, ka + kb, name, ws, t)
    ensures AllPass(a + b) <==> AllPass(a) && AllPass(b)
  {
    hide CheckOf;
    assert forall key <- a :: key !in b && key in a + b && (a + b)[key] == a[key];
    assert forall key <- b :: key in a + b && (a + b)[key] == b[key];
  }

  lemma AllKinds(kind: CheckKind)
    ensures kind in TRAFFIC_KINDS + RATE_KINDS + FIDELITY_KINDS + OTHER_KINDS
  {
    match kind
    case MessageLoss =>
    case Duplicates =>
    case P99Latency =>
    case Errors =>
    case OffsetOrderViolations =>
    case GroupLossAcrossRebalance =>
    case EosViolations =>
    case Kip890Residual =>
    case LagAccuracyCheck =>
    case AdminOpFailures =>
  }

  lemma ChecksOfAllKinds(checks: Checks, name: string, ws: WorkerStats, t: Thresholds)
    requires ChecksOfKinds(checks, TRAFFIC_KINDS + RATE_KINDS + FIDELITY_KINDS + OTHER_KINDS, name, ws, t)
    ensures ChecksOfWorker(checks, name, ws, t)
    ensures forall key <- checks :: key.WorkerCheck? && key.name == name
  {
    hide CheckOf;
    forall kind: CheckKind
      ensures kind in TRAFFIC_KINDS + RATE_KINDS + FIDELITY_KINDS + OTHER_KINDS
    {
      AllKinds(kind);
    }
  }

  method CheckStats(name: string, ws: WorkerStats, t: Thresholds) returns (checks: Checks, passed: bool)
    ensures ChecksOfWorker(checks, name, ws, t) && (passed <==> AllPass(checks))
    ensures forall key <- checks :: key.WorkerCheck? && key.name == name
  {
    hide CheckOf, AllPass, ChecksOfKinds, ChecksOfWorker;
    var traffic, trafficPass := AddTrafficChecks(name, ws, t);
    var rates, ratesPass := AddRateChecks(name, ws, t);
    ChecksOfBoth(traffic, TRAFFIC_KINDS, rates, RATE_KINDS, name, ws, t);
    var fidelity, fidelityPass := AddFidelityChecks(name, ws, t);
    ChecksOfBoth(traffic + rates, TRAFFIC_KINDS + RATE_KINDS, fidelity, FIDELITY_KINDS, name, ws, t);
    var other, otherPass := AddOtherChecks(name, ws, t);
    ChecksOfBoth(traffic + rates + fidelity, TRAFFIC_KINDS + RATE_KINDS + FIDELITY_KINDS,
                 other, OTHER_KINDS, name, ws, t);
    checks := traffic + rates + fidelity + other;
    passed := trafficPass && ratesPass && fidelityPass && otherPass;
    ChecksOfAllKinds(checks, name, ws, t);
  }

  /** The checks of the enabled workers among `names`, and no others. */
  ghost predicate ChecksOfWorkers(checks: Checks, names: set<string>, workers: map<string, WorkerStats>, t: Thresholds)
    requires names <= workers.Keys
  {
    && (forall key <- checks :: key.WorkerCheck? && key.name in names && workers[key.name].enabled)
    && (forall name <- names | workers[name].enabled :: ChecksOfWorker(checks, name, workers[name], t))
  }

  lemma ChecksOfOneMore(before: Checks, added: Checks, names: set<string>, name: string,
                        workers: map<string, WorkerStats>, t: Thresholds)
    requires name in workers && name !in names && names <= workers.Keys && workers[name].enabled
    requires ChecksOfWorkers(before, names, workers, t) && ChecksOfWorker(added, name, workers[name], t)
    requires forall key <- added :: key.WorkerCheck? && key.name == name
    ensures ChecksOfWorkers(before + added, names + {name}, workers, t)
    ensures AllPass(before + added) <==> AllPass(before) && AllPass(added)
  {
    hide CheckOf;
    assert forall key <- added :: key !in before;
    assert forall key <- before :: key in before + added && (before + added)[key] == before[key];
    assert forall key <- added :: key in before + added && (before + added)[key] == added[key];
  }

  lemma AllPassMeansWorkersPass(checks: Checks, workers: map<string, WorkerStats>, t: Thresholds)
    requires ChecksOfWorkers(checks, workers.Keys, workers, t)
    ensures AllPass(checks) <==>
      forall name <- workers, kind: CheckKind | workers[name].enabled ::
        var check := CheckOf(kind, name, workers[name], t);
        check.Some? ==> check.value.passed
  {
    hide CheckOf;
    forall key <- checks
      ensures checks[key].passed <==> CheckOf(key.kind, key.name, workers[key.name], t).value.passed
    {
      assert ChecksOfWorker(checks, key.name, workers[key.name], t);
      assert key == WorkerCheck(key.kind, key.name);
    }
    forall name <- workers, kind: CheckKind | workers[name].enabled
      ensures var check := CheckOf(kind, name, workers[name], t);
        check.Some? ==> WorkerCheck(kind, name) in checks && checks[WorkerCheck(kind, name)] == check.value
    {
      assert ChecksOfWorker(checks, name, workers[name], t);
    }
  }

  method CheckWorkers(workers: map<string, WorkerStats>, t: Thresholds) returns (checks: Checks, passed: bool)
    ensures ChecksOfWorkers(checks, workers.Keys, workers, t) && (passed <==> AllPass(checks))
  {
    hide CheckOf, ChecksOfWorker, AllPass;
    checks, passed := map[], true;
    EmptyPasses();
    var done, todo := {}, workers.Keys;
    while todo != {}
      invariant done !! todo && done + todo == workers.Keys
      invariant ChecksOfWorkers(checks, done, workers, t) && (passed <==> AllPass(checks))
      decreases todo
    {
      var name :| name in todo;
      if workers[name].enabled {
        var added, ok := CheckStats(name, workers[name], t);
        ChecksOfOneMore(checks, added, done, name, workers, t);
        checks, passed := checks + added, passed && ok;
      }
      todo, done := todo - {name}, done + {name};
    }
    assert done == workers.Keys;
  }

  lemma EmptyPasses()
    ensures AllPass(map[])
  {
  }

  method SumCorrupted(workers: map<string, WorkerStats>) returns (total: Counter)
    ensures total == TotalCorrupted(workers)
  {
    hide SumOf;
    total := 0;
    ghost var seen: nat, rest: map<string, nat> := 0, Corrupted(workers);
    var todo := workers.Keys;
    while todo != {}
      invariant todo <= workers.Keys && rest.Keys == todo
      invariant forall name <- todo :: rest[name] == workers[name].corrupted
      invariant seen + SumOf(rest) == SumOf(Corrupted(workers)) && total == seen % TWO_TO_THE_64
      decreases todo
    {
      var name :| name in todo;
      SumWithout(rest, name);
      WrapOnce(workers[name].corrupted, seen);
      seen := seen + workers[name].corrupted;
      total := (total + workers[name].corrupted) % TWO_TO_THE_64;
      todo, rest := todo - {name}, rest - {name};
    }
    EmptySum(rest);
  }

  lemma EmptySum(m: map<string, nat>)
    requires m.Keys == {}
    ensures SumOf(m) == 0
  {
    assert m == map[];
  }

  function Stored(checks: Checks, key: CheckKey): Option<CheckResult> {
    if key in checks then Some(checks[key]) else None
  }

  lemma StoredAreStated(checks: Checks, name: string, ws: WorkerStats, t: Thresholds)
    requires ChecksOfWorker(checks, name, ws, t)
    ensures forall kind: CheckKind :: CheckStated(kind, name, ws, t, Stored(checks, WorkerCheck(kind, name)))
  {
    hide CheckOf, CheckStated;
    forall kind: CheckKind
      ensures CheckStated(kind, name, ws, t, Stored(checks, WorkerCheck(kind, name)))
    {
      CheckOfStated(kind, name, ws, t);
    }
  }

  /** The stored checks are those of the enabled workers, of corruption and of memory, each as its kind says. */
  ghost predicate ChecksStated(checks: Checks, summary: Summary, t: Thresholds) {
    && (forall name <- summary.workers, kind: CheckKind | summary.workers[name].enabled ::
          CheckStated(kind, name, summary.workers[name], t, Stored(checks, WorkerCheck(kind, name))))
    && (forall key <- checks ::
          key.WorkerCheck? ==> key.name in summary.workers && summary.workers[key.name].enabled)
    && (var total := TotalCorrupted(summary.workers);
        Stored(checks, CorruptionCheck) == Some(CheckResult(total == 0, false, total as real, 0.0)))
    && (var growth, limit := summary.memoryGrowthFactor, t.maxMemoryGrowthFactor;
        Stored(checks, MemoryStability) ==
          if summary.baselineRssMb > 0.0 then Some(CheckResult(growth <= limit, true, growth, limit)) else None)
  }

  /** No check fails that is not advisory. */
  ghost predicate NoneFails(checks: Checks) {
    forall key <- checks | !checks[key].advisory :: checks[key].passed
  }

  /** The checks of the workers, of corruption and of memory together. */
  lemma ChecksTogether(ofWorkers: Checks, checks: Checks, summary: Summary, t: Thresholds)
    requires ChecksOfWorkers(ofWorkers, summary.workers.Keys, summary.workers, t)
    requires var total := TotalCorrupted(summary.workers);
      var growth, limit := summary.memoryGrowthFactor, t.maxMemoryGrowthFactor;
      var corruption := ofWorkers[CorruptionCheck := CheckResult(total == 0, false, total as real, 0.0)];
      checks == if summary.baselineRssMb > 0.0
                then corruption[MemoryStability := CheckResult(growth <= limit, true, growth, limit)] else corruption
    ensures ChecksStated(checks, summary, t)
    ensures NoneFails(checks) <==> AllPass(ofWorkers) && TotalCorrupted(summary.workers) == 0
  {
    hide CheckOf, ChecksOfWorker, TotalCorrupted, CheckStated;
    AdvisoriesPass(ofWorkers, summary.workers, t);
    assert forall key <- checks :: key in ofWorkers || key == CorruptionCheck || key == MemoryStability;
    assert forall key <- ofWorkers :: key in checks && checks[key] == ofWorkers[key];
    assert checks[CorruptionCheck].passed <==> TotalCorrupted(summary.workers) == 0;
    forall name <- summary.workers | summary.workers[name].enabled
      ensures forall kind: CheckKind ::
        CheckStated(kind, name, summary.workers[name], t, Stored(checks, WorkerCheck(kind, name)))
    {
      SameWorkerChecks(ofWorkers, checks, name, summary.workers[name], t);
      StoredAreStated(checks, name, summary.workers[name], t);
    }
  }

  /** The report's verdict, whatever the order of the workers. */
  method GenerateVerdict(summary: Summary, t: Thresholds) returns (v: ReportVerdict)
    ensures v.result == ReportResult(summary, t) && v.passed == ReportPasses(summary, t)
    ensures ChecksStated(v.checks, summary, t)
    // the result follows from the checks, and memory alone warns
    ensures v.passed <==> NoneFails(v.checks)
    ensures var grew := summary.baselineRssMb > 0.0 && summary.memoryGrowthFactor > t.maxMemoryGrowthFactor;
      && v.result == (if !v.passed then FAILED else if grew then PASSED_WITH_WARNINGS else PASSED)
      && v.warnings == if grew then [MemoryExceeded(summary.memoryGrowthFactor)] else []
  {
    hide CheckOf, ChecksOfWorker, ChecksOfWorkers, TotalCorrupted, ChecksStated, NoneFails, AllPass;
    var checks, passed := CheckWorkers(summary.workers, t);
    AllPassMeansWorkersPass(checks, summary.workers, t);
    ghost var ofWorkers := checks;
    var totalCorrupted := SumCorrupted(summary.workers);
    checks := checks[CorruptionCheck := CheckResult(totalCorrupted == 0, false, totalCorrupted as real, 0.0)];
    if totalCorrupted > 0 {
      passed := false;
    }
    var warnings := [];
    if summary.baselineRssMb > 0.0 {
      var growth := summary.memoryGrowthFactor;
      var ok := growth <= t.maxMemoryGrowthFactor;
      checks := checks[MemoryStability := CheckResult(ok, true, growth, t.maxMemoryGrowthFactor)];
      if !ok {
        warnings := warnings + [MemoryExceeded(growth)];
      }
    }
    ChecksTogether(ofWorkers, checks, summary, t);
    var result := PASSED;
    if !passed {
      result := FAILED;
    } else if |warnings| > 0 {
      result := PASSED_WITH_WARNINGS;
    }
    v := ReportVerdict(result, passed, warnings, checks);
  }

  lemma SameWorkerChecks(a: Checks, b: Checks, name: string, ws: WorkerStats, t: Thresholds)
    requires ChecksOfWorker(a, name, ws, t)
    requires forall key <- a :: key in b && b[key] == a[key]
    requires forall key <- b :: key in a || !key.WorkerCheck?
    ensures ChecksOfWorker(b, name, ws, t)
  {
    hide CheckOf;
  }

  lemma AdvisoriesPass(checks: Checks, workers: map<string, WorkerStats>, t: Thresholds)
    requires ChecksOfWorkers(checks, workers.Keys, workers, t)
    ensures forall key <- checks | checks[key].advisory :: checks[key].passed
  {
    forall key <- checks | checks[key].advisory
      ensures checks[key].passed
    {
      assert ChecksOfWorker(checks, key.name, workers[key.name], t);
      assert key == WorkerCheck(key.kind, key.name);
    }
  }

  // ---------- The reconciler ----------

  lemma StatsOfOneMore(names: seq<string>, i: nat, snaps: Snapshots, cfg: Config)
    requires i < |names|
    ensures StatsOfNamed(names[..i + 1], snaps, cfg) ==
      if Reported(names[i], snaps, cfg)
      then StatsOfNamed(names[..i], snaps, cfg)[names[i] := StatsOf(snaps[names[i]], cfg.workers[names[i]])]
      else StatsOfNamed(names[..i], snaps, cfg)
  {
    hide StatsOf;
    assert names[..i + 1] == names[..i] + [names[i]];
  }

  /** Summarizes the snapshots of the enabled workers, in the order of the six names. */
  method BuildSummary(snaps: Snapshots, baseline: Counter, peak: Counter, cfg: Config) returns (summary: Summary)
    ensures summary == Summarize(snaps, baseline, peak, cfg)
    ensures SummaryStated(summary, snaps, baseline, peak, cfg)
  {
    hide SummaryStated;
    SummarizeStated(snaps, baseline, peak, cfg);
    var workers: map<string, WorkerStats> := map[];
    var enabledCount := 0;
    for i := 0 to |ALL_WORKER_NAMES|
      invariant workers == StatsOfNamed(ALL_WORKER_NAMES[..i], snaps, cfg)
      invariant enabledCount <= i
      invariant enabledCount == i <==> forall k | 0 <= k < i :: Reported(ALL_WORKER_NAMES[k], snaps, cfg)
    {
      hide StatsOfNamed, StatsOf;
      StatsOfOneMore(ALL_WORKER_NAMES, i, snaps, cfg);
      var name := ALL_WORKER_NAMES[i];
      if name in snaps && name in cfg.workers && cfg.workers[name].enabled {
        enabledCount := enabledCount + 1;
        workers := workers[name := StatsOf(snaps[name], cfg.workers[name])];
      }
    }
    assert ALL_WORKER_NAMES[..|ALL_WORKER_NAMES|] == ALL_WORKER_NAMES;
    var growth := 0.0;
    if baseline > 0 {
      growth := peak as real / baseline as real;
    }
    summary := Summary(workers, enabledCount == |ALL_WORKER_NAMES|, Mb(peak), Mb(baseline), growth);
  }

  /** The report that a caller sees, when snapshots were taken.  Its inputs are separate locked reads of the
      engine, so a verdict may be missing or be that of other snapshots.  The report passes when no check fails
      and no engine verdict does; the engine's warnings are added when its verdict changes the result. */
  method RunReport(snaps: Option<Snapshots>, baseline: Counter, peak: Counter, engine: Option<EngineVerdict>,
                   cfg: Config) returns (report: Option<(Summary, ReportVerdict)>)
    ensures report.None? <==> snaps.None?
    ensures report.Some? ==>
      var (summary, v) := report.value;
      var none := NoneFails(v.checks);
      var grew := summary.baselineRssMb > 0.0 && summary.memoryGrowthFactor > cfg.thresholds.maxMemoryGrowthFactor;
      var warned := engine.Some? && engine.value.result == PASSED_WITH_WARNINGS;
      var own := if grew then [MemoryExceeded(summary.memoryGrowthFactor)] else [];
      var added := engine.Some? && (!engine.value.passed || (warned && none && !grew));
      && summary == Summarize(snaps.value, baseline, peak, cfg)
      && SummaryStated(summary, snaps.value, baseline, peak, cfg)
      && ChecksStated(v.checks, summary, cfg.thresholds)
      && (v.passed <==> none && (engine.Some? ==> engine.value.passed))
      && v.result == (if !v.passed then FAILED else if grew || warned then PASSED_WITH_WARNINGS else PASSED)
      && |v.warnings| == |own| + (if added then |engine.value.warnings| else 0)
      && own <= v.warnings
      && (forall i | |own| <= i < |v.warnings| :: v.warnings[i] == OfEngine(engine.value.warnings[i - |own|]))
  {
    hide ReportPasses, Summarize, SummaryStated, ChecksStated, NoneFails, ReportResult;
    if snaps.None? {
      return None;
    }
    var summary := BuildSummary(snaps.value, baseline, peak, cfg);
    var v := GenerateVerdict(summary, cfg.thresholds);
    if engine.Some? && !engine.value.passed {
      v := v.(passed := false, result := FAILED, warnings := v.warnings + OfEngineAll(engine.value.warnings));
    } else if engine.Some? && engine.value.result == PASSED_WITH_WARNINGS && v.result == PASSED {
      v := v.(result := PASSED_WITH_WARNINGS, warnings := v.warnings + OfEngineAll(engine.value.warnings));
    }
    report := Some((summary, v));
  }

  /** Under validated thresholds, when the verdict is that of the snapshots, the engine judges: its result is the
      reconciled one, it adds its warnings only to fail the report, and there are no warnings exactly when the
      result is PASSED. */
  lemma EngineJudges(snaps: Snapshots, baseline: Counter, peak: Counter, engine: EngineVerdict,
                     cfg: Config, seconds: real)
    requires ValidThresholds(cfg.thresholds) && IsVerdictOf(engine, snaps, baseline, peak, cfg, seconds)
    ensures var summary := Summarize(snaps, baseline, peak, cfg);
      var own := ReportWarnings(summary, cfg.thresholds.maxMemoryGrowthFactor);
      var result := ReportResult(summary, cfg.thresholds);
      && !(engine.passed && engine.result == PASSED_WITH_WARNINGS && result == PASSED)
      && Reconciled(result, Some(engine.result)) == engine.result
      && (engine.result == FAILED <==> !engine.passed) && (engine.result == FAILED ==> engine.warnings != [])
      && (engine.result != FAILED ==> (own == [] <==> engine.result == PASSED))
  {
    hide EnginePasses, ReportPasses, Summarize, AllWarnings, EngineMemoryAdvisory, ReportMemoryAdvisory;
    AdvisoriesAgree(snaps, baseline, peak, cfg);
    ReconciledIsEngine(snaps, baseline, peak, cfg, seconds);
    if !engine.passed {
      FailureIsWarned(snaps, cfg, seconds);
    }
  }
}
