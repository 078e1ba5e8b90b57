/**
 The exactly-once worker object.  Its counters are changed in place by the produce loop and
 the record handler; its ghost history is the sequence of protocol steps taken so far, so
 that the safety of every run is the safety of the object.
 */
module EosWorkers {
  import opened Headers
  import opened Helpers
  import opened Eos

  /** What the rate limiter and the broker answer for one record. */
  datatype Answer = RateError | Answered(ok: bool, appended: bool, crcHex: string, nanos: int)

  predicate Possible(a: Answer) {
    a.Answered? ==> (a.ok ==> a.appended) && -TWO_TO_THE_63 <= a.nanos < TWO_TO_THE_63
  }

  predicate Succeeded(a: Answer) { a.Answered? && a.ok }

  function StepOf(a: Answer): Step {
    match a
    case RateError => RateFails
    case Answered(ok, appended, crcHex, nanos) => Produce(ok, appended, crcHex, nanos)
  }

  /** The produce steps of a cycle: up to the fourth record or the first failure. */
  function ProduceSteps(answers: seq<Answer>): seq<Step> {
    if answers == [] then []
    else [StepOf(answers[0])] + if Succeeded(answers[0]) then ProduceSteps(answers[1..]) else []
  }

  lemma UnfoldSteps(before: seq<Step>, answers: seq<Answer>, k: nat)
    requires k < |answers|
    ensures before + ProduceSteps(answers[k..]) ==
      before + [StepOf(answers[k])] + if Succeeded(answers[k]) then ProduceSteps(answers[k + 1..]) else []
  {
    hide StepOf, Succeeded;
    assert answers[k..][0] == answers[k] && answers[k..][1..] == answers[k + 1..];
  }

  lemma NoMoreSteps(answers: seq<Answer>)
    ensures ProduceSteps(answers[|answers|..]) == []
  {
  }

  /** The steps of one turn of the produce loop. */
  function CycleSteps(beginOk: bool, answers: seq<Answer>, endOk: bool): seq<Step> {
    if beginOk then [Begin(true)] + ProduceSteps(answers) + [End(endOk)] else [Begin(false)]
  }

  predicate AllProduced(answers: seq<Answer>) {
    forall i | 0 <= i < |answers| :: Succeeded(answers[i])
  }

  class EosWorker {
    const channel: string
    var cycle: nat
    var committedSeq: nat
    var abortSeq: nat
    var sent: nat
    var received: nat
    var eosViolations: nat
    var residual: nat
    var seen: set<string>
    ghost var steps: seq<Step>

    ghost function Protocol(): State
      reads this
    {
      Exec(channel, steps)
    }

    /** The counters are those of the history. */
    ghost predicate Valid()
      reads this
    {
      var s := Protocol();
      && s.p == Producer(s.p.phase, cycle, committedSeq, abortSeq, sent)
      && s.c == Consumer(received, eosViolations, residual, seen)
    }

    constructor (channel: string)
      ensures Valid() && steps == [] && this.channel == channel
    {
      this.channel := channel;
      cycle, committedSeq, abortSeq, sent := 0, 0, 0, 0;
      received, eosViolations, residual, seen := 0, 0, 0, {};
      steps := [];
    }

    /** Takes note of a protocol step. */
    ghost method Note(step: Step)
      requires Enabled(Protocol(), step)
      modifies this`steps
      ensures steps == old(steps) + [step] && Protocol() == Apply(channel, old(Protocol()), step)
    {
      assert (steps + [step])[..|steps|] == steps;
      steps := steps + [step];
    }

    /** Whatever the object has been through, it has recorded no violation, and what it counts as sent comes
        in whole transactions. */
    lemma IsSafe()
      requires Valid()
      ensures eosViolations == 0 && sent % RECORDS_PER_CYCLE == 0 && sent <= committedSeq
    {
      hide Exec;
      NoViolations(channel, steps);
    }

    /** One delivered record.  The consumer calls this between any two calls of the produce loop below: it
        leaves the producer and the broker as they were, in the middle of a cycle too. */
    method HandleRecord(ghost position: nat, headers: seq<Header>)
      requires Valid() && IsCommitted(Protocol().b, position) && headers == Protocol().b.log[position].headers
      modifies this`received, this`eosViolations, this`residual, this`seen, this`steps
      ensures Valid() && steps == old(steps) + [Deliver(position)]
      ensures Protocol().p == old(Protocol().p) && Protocol().b == old(Protocol().b)
      ensures received == old(received) + 1 && Counted(headers, old(eosViolations), old(residual), old(seen))
    {
      hide Exec, Extracted, ValueOf;
      Note(Deliver(position));
      CountRecord(headers);
    }

    /** What a record with these headers has done to the other counters: a violation when it was aborted; else
        nothing without a producer; else a residual when its key was seen, and a new key when not. */
    predicate Counted(headers: seq<Header>, violations: nat, residuals: nat, keys: set<string>)
      reads this
    {
      var meta := Extracted(headers);
      var aborted := ValueOf(headers, "TxnOutcome") == "abort";
      var counts := !aborted && meta.producerId != "";
      var key := meta.producerId + "|" + FormatUint(meta.seqNo);
      && eosViolations == violations + (if aborted then 1 else 0)
      && residual == residuals + (if counts && key in keys then 1 else 0)
      && seen == keys + if counts then {key} else {}
    }

    /** The handler on any record at all, an aborted one that the broker should not have delivered included. */
    method CountRecord(headers: seq<Header>)
      modifies this`received, this`eosViolations, this`residual, this`seen
      ensures received == old(received) + 1 && Counted(headers, old(eosViolations), old(residual), old(seen))
      ensures Consumer(received, eosViolations, residual, seen)
           == Eos.HandleRecord(old(Consumer(received, eosViolations, residual, seen)), headers)
    {
      hide Extracted, ValueOf, FormatUint, LastsDecide, FirstAt;
      received := received + 1;
      var meta, ok := ExtractMeta(headers);
      var outcome := HeaderValue(headers, TXN_OUTCOME);
      if outcome == "abort" {
        eosViolations := eosViolations + 1;
        return;
      }
      if !ok {
        return;
      }
      var key := DedupKey(meta.producerId, meta.seqNo);
      if key in seen {
        residual := residual + 1;
        return;
      }
      seen := seen + {key};
    }

    /** The broker settles a transaction whose commit went unanswered. */
    ghost method BrokerResolves(t: nat, commits: bool)
      requires Valid() && t < |Protocol().b.txns| && Protocol().b.txns[t].status == Undecided
      modifies this`steps
      ensures Valid() && steps == old(steps) + [Resolve(t, commits)]
      ensures Protocol().p == old(Protocol().p) && |Protocol().b.txns| == old(|Protocol().b.txns|)
    {
      hide Exec;
      Note(Resolve(t, commits));
    }

    /** The end of the warm-up clears the counters, and neither the sequences nor the seen keys. */
    method ResetAfterWarmup()
      requires Valid()
      modifies this`sent, this`received, this`eosViolations, this`residual, this`steps
      ensures Valid() && steps == old(steps) + [Step.ResetAfterWarmup]
      ensures sent == received == eosViolations == residual == 0
      ensures Protocol().p.phase == old(Protocol().p.phase) && Protocol().b == old(Protocol().b)
    {
      hide Exec;
      Note(Step.ResetAfterWarmup);
      sent, received, eosViolations, residual := 0, 0, 0, 0;
    }

    /** One turn of the produce loop, with the answers it gets and no record handled in between. */
    method RunCycle(beginOk: bool, answers: seq<Answer>, endOk: bool)
      requires Valid() && Protocol().p.phase.Idle?
      requires |answers| == RECORDS_PER_CYCLE && forall i | 0 <= i < |answers| :: Possible(answers[i])
      requires committedSeq + RECORDS_PER_CYCLE < TWO_TO_THE_64 && abortSeq + RECORDS_PER_CYCLE < TWO_TO_THE_64
      modifies this
      ensures Valid() && Protocol().p.phase.Idle?
      ensures steps == old(steps) + CycleSteps(beginOk, answers, endOk)
      ensures cycle == old(cycle) + 1
      ensures sent == old(sent) +
        if beginOk && cycle % 2 == 0 && AllProduced(answers) && endOk then 4 else 0
      // a full cycle numbers 4 records of its kind, and no cycle numbers records of the other
      ensures beginOk && AllProduced(answers) ==>
        if cycle % 2 == 0 then committedSeq == old(committedSeq) + 4 else abortSeq == old(abortSeq) + 4
      ensures !beginOk || cycle % 2 != 0 ==> committedSeq == old(committedSeq)
      ensures !beginOk || cycle % 2 == 0 ==> abortSeq == old(abortSeq)
    {
      hide Exec, ProduceSteps;
      var commit := BeginCycle(beginOk);
      if beginOk {
        var bodies, produceErr := ProduceRecords(commit, answers);
        EndCycle(commit, bodies, produceErr, endOk);
      }
    }

    /** Begins a transaction; every second one is to commit. */
    method BeginCycle(beginOk: bool) returns (commit: bool)
      requires Valid() && Protocol().p.phase.Idle?
      modifies this`cycle, this`steps
      ensures Valid() && steps == old(steps) + [Begin(beginOk)]
      ensures cycle == old(cycle) + 1 && (commit <==> cycle % 2 == 0)
      ensures Protocol().p.phase == if beginOk then Producing(commit, 0, false) else Idle
      ensures beginOk ==> |Protocol().b.txns| > 0
      ensures Protocol().b.txns == old(Protocol().b.txns) + if beginOk then [Txn(commit, Open)] else []
      ensures Protocol().b.log == old(Protocol().b.log)
    {
      hide Exec;
      Note(Begin(beginOk));
      cycle := cycle + 1;
      commit := cycle % 2 == 0;
    }

    /** Produces records until four are produced or an answer fails. */
    method ProduceRecords(commit: bool, answers: seq<Answer>) returns (bodies: nat, produceErr: bool)
      requires Valid() && Protocol().p.phase == Producing(commit, 0, false) && |Protocol().b.txns| > 0
      requires |answers| == RECORDS_PER_CYCLE && forall i | 0 <= i < |answers| :: Possible(answers[i])
      requires committedSeq + RECORDS_PER_CYCLE < TWO_TO_THE_64 && abortSeq + RECORDS_PER_CYCLE < TWO_TO_THE_64
      modifies this`committedSeq, this`abortSeq, this`steps
      ensures Valid() && steps == old(steps) + ProduceSteps(answers)
      ensures Protocol().p.phase == Producing(commit, bodies, produceErr) && |Protocol().b.txns| > 0
      ensures if produceErr then !AllProduced(answers) else AllProduced(answers) && bodies == RECORDS_PER_CYCLE
      ensures !produceErr ==>
        && committedSeq == old(committedSeq) + (if commit then 4 else 0)
        && abortSeq == old(abortSeq) + (if commit then 0 else 4)
      ensures if commit then abortSeq == old(abortSeq) else committedSeq == old(committedSeq)
    {
      hide Exec, Valid, StepOf, Succeeded, Possible, ProduceSteps;
      bodies, produceErr := 0, false;
      var k := 0;
      ghost var rest := ProduceSteps(answers);
      assert answers[0..] == answers;
      while k < RECORDS_PER_CYCLE && !produceErr
        invariant 0 <= k <= RECORDS_PER_CYCLE && (!produceErr ==> bodies == k)
        invariant Valid()
        invariant steps + rest == old(steps) + ProduceSteps(answers)
        invariant rest == if produceErr then [] else ProduceSteps(answers[k..])
        invariant produceErr ==> !AllProduced(answers)
        invariant !produceErr ==> forall i | 0 <= i < k :: Succeeded(answers[i])
        invariant Protocol().p.phase == Producing(commit, bodies, produceErr) && |Protocol().b.txns| > 0
        invariant committedSeq <= old(committedSeq) + k && abortSeq <= old(abortSeq) + k
        invariant !produceErr ==>
          && committedSeq == old(committedSeq) + (if commit then k else 0)
          && abortSeq == old(abortSeq) + (if commit then 0 else k)
        invariant if commit then abortSeq == old(abortSeq) else committedSeq == old(committedSeq)
        decreases RECORDS_PER_CYCLE - k
      {
        assert Possible(answers[k]);
        UnfoldSteps(steps, answers, k);
        bodies, produceErr := TakeAnswer(commit, bodies, answers[k]);
        k := k + 1;
        rest := if produceErr then [] else ProduceSteps(answers[k..]);
      }
      NoMoreSteps(answers);
    }

    /** One record: the wait for its turn, its stamp, and the broker's answer. */
    method TakeAnswer(commit: bool, bodies: nat, a: Answer) returns (bodies': nat, produceErr: bool)
      requires Valid() && Protocol().p.phase == Producing(commit, bodies, false) && |Protocol().b.txns| > 0
      requires bodies < RECORDS_PER_CYCLE && Possible(a)
      requires committedSeq + 1 < TWO_TO_THE_64 && abortSeq + 1 < TWO_TO_THE_64
      modifies this`committedSeq, this`abortSeq, this`steps
      ensures Valid() && steps == old(steps) + [StepOf(a)]
      ensures Protocol().p.phase == Producing(commit, bodies', produceErr) && |Protocol().b.txns| > 0
      ensures (produceErr <==> !Succeeded(a)) && (produceErr <==> !(a.Answered? && a.ok))
      ensures bodies' == bodies + if produceErr then 0 else 1
      // each record but one refused by the limiter takes the next number of its kind, whatever the answer
      ensures committedSeq == old(committedSeq) + (if commit && a.Answered? then 1 else 0)
      ensures abortSeq == old(abortSeq) + (if !commit && a.Answered? then 1 else 0)
      // what is appended is stamped with that number, the producer of its kind and the outcome
      ensures Protocol().b.txns == old(Protocol().b.txns)
      ensures Protocol().b.log == old(Protocol().b.log) +
        if a.Answered? && a.appended then
          [Entry(StampHeaders(channel + if commit then "-txn" else "-abort", if commit then committedSeq else abortSeq,
                              a.crcHex, a.nanos)
                 + [Header("TxnOutcome", if commit then "commit" else "abort")], |Protocol().b.txns| - 1)]
        else []
    {
      hide Exec, StampHeaders;
      bodies' := bodies;
      match a
      case RateError =>
        Note(RateFails);
        produceErr := true;
      case Answered(ok, appended, crcHex, nanos) =>
        Note(Produce(ok, appended, crcHex, nanos));
        if commit {
          committedSeq := committedSeq + 1;
        } else {
          abortSeq := abortSeq + 1;
        }
        produceErr := !ok;
        if ok {
          bodies' := bodies' + 1;
        }
    }

    /** Ends the transaction; its records count as sent only when their commit succeeded. */
    method EndCycle(commit: bool, bodies: nat, produceErr: bool, endOk: bool)
      requires Valid() && Protocol().p.phase == Producing(commit, bodies, produceErr) && |Protocol().b.txns| > 0
      requires produceErr || bodies == RECORDS_PER_CYCLE
      modifies this`sent, this`steps
      ensures Valid() && steps == old(steps) + [End(endOk)] && Protocol().p.phase.Idle?
      ensures sent == old(sent) + if endOk && commit && !produceErr then bodies else 0
      ensures Protocol().b.log == old(Protocol().b.log)
      ensures var n := |old(Protocol().b.txns)| - 1;
        && |Protocol().b.txns| == n + 1 && Protocol().b.txns[..n] == old(Protocol().b.txns)[..n]
        && Protocol().b.txns[n] ==
             Txn(commit, if !commit || produceErr then Aborted else if endOk then Committed else Undecided)
    {
      hide Exec;
      Note(End(endOk));
      var tryCommit := true;
      if !commit || produceErr {
        tryCommit := false;
      }
      if !endOk {
        return;
      }
      if tryCommit && !produceErr {
        for i := 0 to bodies
          modifies this`sent
          invariant sent == old(sent) + i
        {
          sent := sent + 1;
        }
      }
    }
  }
}
