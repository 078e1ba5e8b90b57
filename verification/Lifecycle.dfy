/**
 The run lifecycle as a state machine over its critical sections.

 Every run closes its own done channel exactly once, as long as no start is accepted
 between the moment a run loop reports an error and the moment its finalizer takes the
 lock.  A start in that gap hands the new run's channel to the old run's finalizer, and the
 channel can then be closed twice; this is shown to happen exactly then.
 */
module Lifecycle {

  datatype EngineState = Idle | Starting | Running | Stopping | Stopped | Error

  /** Where a run loop is: before, in and after its measurement, past a reported error, on its way to the
      finalizer, past the finalizer's lock with the channel it will close, or done. */
  datatype Pc = Setup | Measuring | ShuttingDown | Failed | Returning | Closing(done: nat) | Finished

  /** Run i has loop i, context i and done channel i. */
  datatype State = State(
    state: EngineState,
    loops: seq<Pc>,
    cancelled: seq<bool>,
    closed: seq<nat>,
    runDone: nat)

  datatype Step =
    | Start
    | Stop
    | ReportError(i: nat)     // setError after consumers fail to start or to become ready
    | ReturnCancelled(i: nat) // the context was cancelled before the measurement
    | BeginMeasuring(i: nat)
    | EndMeasuring(i: nat)    // cancelled, or the duration was reached
    | FinishShutdown(i: nat)
    | Finalize(i: nat)        // the deferred function, up to its unlock
    | Close(i: nat)           // its close of the channel it read

  const INITIAL := State(Idle, [], [], [], 0)

  predicate CanStart(s: State) { s.state in {Idle, Stopped, Error} }

  predicate At(s: State, i: nat, pc: Pc) { i < |s.loops| && s.loops[i] == pc }

  predicate Enabled(s: State, step: Step) {
    && |s.cancelled| == |s.closed| == |s.loops|
    && match step
       case Start => CanStart(s)
       case Stop => s.state in {Starting, Running} && |s.cancelled| > 0
       case ReportError(i) => At(s, i, Setup)
       case ReturnCancelled(i) => At(s, i, Setup) && s.cancelled[i]
       case BeginMeasuring(i) => At(s, i, Setup)
       case EndMeasuring(i) => At(s, i, Measuring)
       case FinishShutdown(i) => At(s, i, ShuttingDown)
       case Finalize(i) => At(s, i, Failed) || At(s, i, Returning)
       case Close(i) => i < |s.loops| && s.loops[i].Closing? && s.loops[i].done < |s.closed|
  }

  function Apply(s: State, step: Step): State
    requires Enabled(s, step)
  {
    match step
    case Start =>
      State(Starting, s.loops + [Setup], s.cancelled + [false], s.closed + [0], |s.loops|)
    case Stop => s.(cancelled := s.cancelled[|s.cancelled| - 1 := true])
    case ReportError(i) => s.(state := Error, loops := s.loops[i := Failed])
    case ReturnCancelled(i) => s.(loops := s.loops[i := Returning])
    case BeginMeasuring(i) => s.(state := Running, loops := s.loops[i := Measuring])
    case EndMeasuring(i) => s.(state := Stopping, loops := s.loops[i := ShuttingDown])
    case FinishShutdown(i) => s.(loops := s.loops[i := Returning])
    case Finalize(i) =>
      s.(state := if s.state == Error then Error else Stopped, loops := s.loops[i := Closing(s.runDone)])
    case Close(i) =>
      var done := s.loops[i].done;
      s.(closed := s.closed[done := s.closed[done] + 1], loops := s.loops[i := Finished])
  }

  /** A step that is not enabled is refused, or is not taken. */
  function Next(s: State, step: Step): State {
    if Enabled(s, step) then Apply(s, step) else s
  }

  function Exec(steps: seq<Step>): State {
    if steps == [] then INITIAL else Next(Exec(steps[..|steps| - 1]), steps[|steps| - 1])
  }

  // ---------- Runs without a start in the gap ----------

  /** Some run loop has reported an error and not yet reached its finalizer. */
  predicate InGap(s: State) { Failed in s.loops }

  /** No start was accepted in the gap. */
  predicate NoStartInGap(steps: seq<Step>) {
    steps == [] ||
    var before, step := steps[..|steps| - 1], steps[|steps| - 1];
    NoStartInGap(before) && (step == Start && CanStart(Exec(before)) ==> !InGap(Exec(before)))
  }

  predicate Finalized(pc: Pc) { pc.Closing? || pc.Finished? }

  ghost predicate Fits(state: EngineState, pc: Pc) {
    match pc
    case Setup => state == Starting
    case Measuring => state == Running
    case ShuttingDown => state == Stopping
    case Failed => state == Error
    case Returning => state in {Starting, Stopping}
    case Closing(_) => state in {Stopped, Error}
    case Finished => state in {Stopped, Error}
  }

  /** All runs but the last are past their finalizer, each finalizer holds its own channel, and a channel
      was closed once exactly when its run is finished. */
  ghost predicate Invariant(s: State) {
    && |s.cancelled| == |s.closed| == |s.loops|
    && (s.loops == [] ==> s.state == Idle)
    && (s.loops != [] ==> s.runDone == |s.loops| - 1 && Fits(s.state, s.loops[|s.loops| - 1]))
    && (forall i | 0 <= i < |s.loops| - 1 :: Finalized(s.loops[i]))
    && (forall i | 0 <= i < |s.loops| :: s.loops[i].Closing? ==> s.loops[i].done == i)
    && (forall i | 0 <= i < |s.loops| :: s.closed[i] == if s.loops[i] == Finished then 1 else 0)
  }

  lemma StepKeepsInvariant(s: State, step: Step)
    requires Invariant(s) && Enabled(s, step)
    requires step == Start ==> !InGap(s)
    ensures Invariant(Apply(s, step))
  {
    if step == Start && s.loops != [] {
      assert s.loops[|s.loops| - 1] in s.loops;
    }
  }

  lemma {:induction false} InvariantHolds(steps: seq<Step>)
    requires NoStartInGap(steps)
    ensures Invariant(Exec(steps))
  {
    hide Apply, Invariant, InGap;
    if steps == [] {
      InitialInvariant();
    } else {
      var before, step := steps[..|steps| - 1], steps[|steps| - 1];
      InvariantHolds(before);
      if Enabled(Exec(before), step) {
        StepKeepsInvariant(Exec(before), step);
      }
    }
  }

  lemma InitialInvariant()
    ensures Invariant(INITIAL)
  {
  }

  /** At most one run loop is live before its finalizer, and each run's channel is closed exactly once,
      by that run. */
  lemma OneLiveRunClosedOnce(steps: seq<Step>)
    requires NoStartInGap(steps)
    ensures var s := Exec(steps);
      && |s.closed| == |s.loops|
      && (forall i, j | 0 <= i < j < |s.loops| :: Finalized(s.loops[i]) || Finalized(s.loops[j]))
      && (forall i | 0 <= i < |s.loops| :: s.closed[i] == if s.loops[i] == Finished then 1 else 0)
  {
    hide Exec;
    InvariantHolds(steps);
  }

  /** A start is accepted only when no run loop is live, but for one that has reported an error. */
  lemma AcceptedStartMeansNoLiveRun(steps: seq<Step>)
    requires NoStartInGap(steps) && CanStart(Exec(steps))
    ensures forall i | 0 <= i < |Exec(steps).loops| :: Finalized(Exec(steps).loops[i]) || Exec(steps).loops[i] == Failed
  {
    hide Exec;
    InvariantHolds(steps);
  }

  /** With no start in the gap, a start is accepted exactly when every run loop is past its finalizer or has
      reported an error.  It adds a loop in its setup, not cancelled, with its own open channel; refused, it
      changes nothing. */
  lemma StartIsAcceptedIff(steps: seq<Step>)
    requires NoStartInGap(steps)
    ensures var s, s' := Exec(steps), Exec(steps + [Start]);
      if forall pc <- s.loops :: Finalized(pc) || pc == Failed then
        && s'.loops == s.loops + [Setup] && s'.cancelled == s.cancelled + [false] && s'.closed == s.closed + [0]
        && s'.state == Starting && s'.runDone == |s.loops|
      else s' == s
  {
    hide Exec;
    InvariantHolds(steps);
    ExecSnoc(steps, Start);
    var s := Exec(steps);
    if s.loops != [] {
      assert s.loops[|s.loops| - 1] in s.loops;
      forall pc <- s.loops | !Finalized(pc)
        ensures pc == s.loops[|s.loops| - 1]
      {
        var i :| 0 <= i < |s.loops| && s.loops[i] == pc;
      }
    }
  }

  /** A loop that returned without having measured was cancelled. */
  ghost predicate EarlyReturnsWereCancelled(s: State) {
    && |s.cancelled| == |s.loops|
    && forall i | 0 <= i < |s.loops| && s.loops[i].Returning? && s.state == Starting :: s.cancelled[i]
  }

  lemma StepKeepsCancelled(s: State, step: Step)
    requires Invariant(s) && EarlyReturnsWereCancelled(s) && Enabled(s, step) && (step == Start ==> !InGap(s))
    ensures EarlyReturnsWereCancelled(Apply(s, step))
  {
  }

  /** With no start in the gap, a loop on its way to the finalizer while the engine is still starting was
      cancelled. */
  lemma {:induction false} EarlyReturnMeansCancelled(steps: seq<Step>)
    requires NoStartInGap(steps)
    ensures EarlyReturnsWereCancelled(Exec(steps))
  {
    hide Apply, Invariant, InGap, Enabled, EarlyReturnsWereCancelled;
    if steps == [] {
      NoneReturnedYet();
    } else {
      var before, step := steps[..|steps| - 1], steps[|steps| - 1];
      EarlyReturnMeansCancelled(before);
      InvariantHolds(before);
      assert steps == before + [step];
      if Enabled(Exec(before), step) {
        StartNeedsNoGap(before, step);
        StepKeepsCancelled(Exec(before), step);
      }
    }
  }

  lemma NoneReturnedYet()
    ensures EarlyReturnsWereCancelled(INITIAL)
  {
  }

  /** A stop cancels the latest run and no other, while it starts or runs; it changes nothing else. */
  lemma StopCancelsLatest(steps: seq<Step>)
    requires NoStartInGap(steps)
    ensures var s, s' := Exec(steps), Exec(steps + [Stop]);
      var last := |s.loops| - 1;
      && s'.loops == s.loops && s'.closed == s.closed && s'.state == s.state && s'.runDone == s.runDone
      && |s'.cancelled| == |s.cancelled| == |s.loops|
      && forall i | 0 <= i <= last :: s'.cancelled[i] ==
           (s.cancelled[i] || (i == last && (s.loops[last].Setup? || s.loops[last].Measuring?))
            || (i == last && s.loops[last].Returning? && s.state == Starting))
  {
    hide Exec;
    InvariantHolds(steps);
    ExecSnoc(steps, Stop);
  }

  /** An error was reported since the last accepted start. */
  predicate ErrorReported(steps: seq<Step>) {
    steps != [] &&
    var before, step := steps[..|steps| - 1], steps[|steps| - 1];
    if !Enabled(Exec(before), step) then ErrorReported(before)
    else if step == Start then false
    else step.ReportError? || ErrorReported(before)
  }

  lemma StepKeepsErrors(s: State, step: Step, reported: bool)
    requires Invariant(s) && Enabled(s, step) && (step == Start ==> !InGap(s))
    requires s.state == Error <==> reported
    ensures Apply(s, step).state == Error <==> step != Start && (step.ReportError? || reported)
  {
  }

  /** With no start in the gap, the engine is in the error state exactly when an error was reported since the last
      accepted start: neither the finalizer nor a stop clears it. */
  lemma {:induction false} ErrorStaysUntilStart(steps: seq<Step>)
    requires NoStartInGap(steps)
    ensures Exec(steps).state == Error <==> ErrorReported(steps)
  {
    hide Apply, Invariant, InGap, Enabled;
    if steps != [] {
      var before, step := steps[..|steps| - 1], steps[|steps| - 1];
      ErrorStaysUntilStart(before);
      InvariantHolds(before);
      assert steps == before + [step];
      if Enabled(Exec(before), step) {
        StartNeedsNoGap(before, step);
        StepKeepsErrors(Exec(before), step, ErrorReported(before));
      }
    }
  }

  lemma StartNeedsNoGap(before: seq<Step>, step: Step)
    requires NoStartInGap(before + [step]) && Enabled(Exec(before), step)
    ensures step == Start ==> !InGap(Exec(before))
  {
    assert (before + [step])[..|before|] == before;
  }

  // ---------- A start in the gap ----------

  predicate HasNoStart(steps: seq<Step>) { Start !in steps }

  ghost predicate ClosedTwice(s: State) {
    exists i :: 0 <= i < |s.closed| && s.closed[i] > 1
  }

  lemma {:induction false} NoStartAfter(steps: seq<Step>, more: seq<Step>)
    requires NoStartInGap(steps) && HasNoStart(more)
    ensures NoStartInGap(steps + more)
    decreases |more|
  {
    hide Exec;
    if more == [] {
      assert steps + more == steps;
    } else {
      var front, last := more[..|more| - 1], more[|more| - 1];
      assert last in more && forall step <- front :: step in more;
      NoStartAfter(steps, front);
      assert (steps + more)[..|steps + more| - 1] == steps + front;
    }
  }

  lemma ExecSnoc(steps: seq<Step>, step: Step)
    ensures Exec(steps + [step]) == Next(Exec(steps), step)
  {
    assert (steps + [step])[..|steps|] == steps;
  }

  /** The steps that close the channel of a run twice, when it starts while loop i is in the gap. */
  function DoubleClose(i: nat, n: nat): seq<Step> {
    [Finalize(i), Close(i), ReportError(n), Finalize(n), Close(n)]
  }

  lemma DoubleCloseSteps(s: State, i: nat)
    requires Invariant(s) && CanStart(s) && At(s, i, Failed)
    ensures var n := |s.loops|;
      var s1 := Next(Next(Next(s, Start), Finalize(i)), Close(i));
      s1.loops == s.loops[i := Finished] + [Setup] && s1.closed == s.closed + [1] && s1.runDone == n &&
      |s1.cancelled| == n + 1
  {
    var n := |s.loops|;
    var s0 := Next(s, Start);
    var a := Next(s0, Finalize(i));
    assert a.loops == s.loops[i := Closing(n)] + [Setup];
    var b := Next(a, Close(i));
    assert b.loops == s.loops[i := Finished] + [Setup];
    assert b.closed == s.closed + [1];
  }

  lemma NewRunClosesAgain(s: State, n: nat)
    requires At(s, n, Setup) && |s.cancelled| == |s.closed| == |s.loops| && s.runDone == n && s.closed[n] == 1
    ensures ClosedTwice(Next(Next(Next(s, ReportError(n)), Finalize(n)), Close(n)))
  {
    var s' := Next(Next(Next(s, ReportError(n)), Finalize(n)), Close(n));
    assert s'.closed[n] == 2;
  }

  lemma StartInGapClosesTwice(steps: seq<Step>, i: nat)
    requires NoStartInGap(steps) && CanStart(Exec(steps)) && At(Exec(steps), i, Failed)
    ensures ClosedTwice(Exec(steps + [Start] + DoubleClose(i, |Exec(steps).loops|)))
    ensures HasNoStart(DoubleClose(i, |Exec(steps).loops|))
  {
    hide Exec, Next, ClosedTwice;
    InvariantHolds(steps);
    var s := Exec(steps);
    var n := |s.loops|;
    DoubleCloseSteps(s, i);
    NewRunClosesAgain(Next(Next(Next(s, Start), Finalize(i)), Close(i)), n);
    ExecSnoc(steps, Start);
    ExecSnoc(steps + [Start], Finalize(i));
    ExecSnoc(steps + [Start] + [Finalize(i)], Close(i));
    ExecSnoc(steps + [Start] + [Finalize(i)] + [Close(i)], ReportError(n));
    ExecSnoc(steps + [Start] + [Finalize(i)] + [Close(i)] + [ReportError(n)], Finalize(n));
    ExecSnoc(steps + [Start] + [Finalize(i)] + [Close(i)] + [ReportError(n)] + [Finalize(n)], Close(n));
    assert steps + [Start] + DoubleClose(i, n) ==
      steps + [Start] + [Finalize(i)] + [Close(i)] + [ReportError(n)] + [Finalize(n)] + [Close(n)];
  }

  lemma NeverClosedTwice(steps: seq<Step>)
    requires NoStartInGap(steps)
    ensures !ClosedTwice(Exec(steps))
  {
    hide Exec, NoStartInGap;
    OneLiveRunClosedOnce(steps);
  }

  lemma NoneClosesTwice(steps: seq<Step>, more: seq<Step>)
    requires NoStartInGap(steps) && !InGap(Exec(steps)) && HasNoStart(more)
    ensures !ClosedTwice(Exec(steps + [Start] + more))
  {
    hide Exec, HasNoStart, ClosedTwice, InGap, CanStart;
    assert (steps + [Start])[..|steps|] == steps;
    NoStartAfter(steps + [Start], more);
    NeverClosedTwice(steps + [Start] + more);
  }

  /** After an accepted start, and with no other start, some channel can be closed twice exactly when the
      start was accepted in the gap. */
  lemma ClosedTwiceIff(steps: seq<Step>)
    requires NoStartInGap(steps) && CanStart(Exec(steps))
    ensures (exists more: seq<Step> :: HasNoStart(more) && ClosedTwice(Exec(steps + [Start] + more)))
            <==> InGap(Exec(steps))
  {
    hide Exec, HasNoStart, ClosedTwice, NoStartInGap, CanStart;
    var s := Exec(steps);
    if InGap(s) {
      var i :| 0 <= i < |s.loops| && s.loops[i] == Failed;
      StartInGapClosesTwice(steps, i);
    } else {
      forall more: seq<Step> | HasNoStart(more)
        ensures !ClosedTwice(Exec(steps + [Start] + more))
      {
        NoneClosesTwice(steps, more);
      }
    }
  }

  // ---------- Which runs close a channel twice ----------

  /** What holds of every run: the channel to close is the latest, so no loop closes an earlier channel
      than its own. */
  ghost predicate ClosesForward(s: State) {
    && |s.cancelled| == |s.closed| == |s.loops|
    && (s.loops != [] ==> s.runDone == |s.loops| - 1)
    && (forall i | 0 <= i < |s.loops| && s.loops[i].Closing? :: i <= s.loops[i].done < |s.loops|)
  }

  lemma StepClosesForward(s: State, step: Step)
    requires ClosesForward(s)
    ensures ClosesForward(Next(s, step))
  {
  }

  lemma {:induction false} EveryRunClosesForward(steps: seq<Step>)
    ensures ClosesForward(Exec(steps))
  {
    hide Next;
    if steps != [] {
      EveryRunClosesForward(steps[..|steps| - 1]);
      StepClosesForward(Exec(steps[..|steps| - 1]), steps[|steps| - 1]);
    }
  }

  /** How many closes the channels from m on have had, beyond the finished loops from m on. */
  function Surplus(loops: seq<Pc>, closed: seq<nat>, m: nat): int
    requires |loops| == |closed|
    decreases |loops| - m
  {
    if m >= |loops| then 0
    else closed[m] - (if loops[m] == Finished then 1 else 0) + Surplus(loops, closed, m + 1)
  }

  lemma {:induction false} SurplusOfStart(loops: seq<Pc>, closed: seq<nat>, m: nat)
    requires |loops| == |closed|
    ensures Surplus(loops + [Setup], closed + [0], m) == Surplus(loops, closed, m)
    decreases |loops| - m
  {
    if m < |loops| {
      SurplusOfStart(loops, closed, m + 1);
    }
  }

  lemma {:induction false} SurplusOfMove(loops: seq<Pc>, closed: seq<nat>, i: nat, pc: Pc, m: nat)
    requires i < |loops| == |closed| && loops[i] != Finished && pc != Finished
    ensures Surplus(loops[i := pc], closed, m) == Surplus(loops, closed, m)
    decreases |loops| - m
  {
    if m < |loops| {
      SurplusOfMove(loops, closed, i, pc, m + 1);
    }
  }

  lemma {:induction false} SurplusOfClose(loops: seq<Pc>, closed: seq<nat>, i: nat, done: nat, m: nat)
    requires i < |loops| == |closed| && done < |closed| && loops[i] != Finished
    ensures Surplus(loops[i := Finished], closed[done := closed[done] + 1], m) ==
      Surplus(loops, closed, m) + (if done >= m then 1 else 0) - (if i >= m then 1 else 0)
    decreases |loops| - m
  {
    if m < |loops| {
      SurplusOfClose(loops, closed, i, done, m + 1);
    }
  }

  /** Loop i was on its way to its finalizer when run n started: it will close, or has closed, a channel from
      n on, which is one more than the loops from n on close. */
  ghost predicate Misdirected(s: State, i: nat, n: nat) {
    && ClosesForward(s)
    && i < n < |s.loops|
    && (s.loops[i] == Failed || (s.loops[i].Closing? && s.loops[i].done >= n) || s.loops[i] == Finished)
    && Surplus(s.loops, s.closed, n) >= if s.loops[i] == Finished then 1 else 0
  }

  lemma StaysMisdirected(s: State, step: Step, i: nat, n: nat)
    requires Misdirected(s, i, n)
    ensures Misdirected(Next(s, step), i, n)
  {
    StepClosesForward(s, step);
    if Enabled(s, step) {
      match step
      case Start => SurplusOfStart(s.loops, s.closed, n);
      case Stop =>
      case ReportError(j) => SurplusOfMove(s.loops, s.closed, j, Failed, n);
      case ReturnCancelled(j) => SurplusOfMove(s.loops, s.closed, j, Returning, n);
      case BeginMeasuring(j) => SurplusOfMove(s.loops, s.closed, j, Measuring, n);
      case EndMeasuring(j) => SurplusOfMove(s.loops, s.closed, j, ShuttingDown, n);
      case FinishShutdown(j) => SurplusOfMove(s.loops, s.closed, j, Returning, n);
      case Finalize(j) => SurplusOfMove(s.loops, s.closed, j, Closing(s.runDone), n);
      case Close(j) => SurplusOfClose(s.loops, s.closed, j, s.loops[j].done, n);
    }
  }

  /** Every run with a start in the gap has a misdirected loop. */
  lemma {:induction false} StartInGapMisdirects(steps: seq<Step>) returns (i: nat, n: nat)
    requires !NoStartInGap(steps)
    ensures Misdirected(Exec(steps), i, n)
  {
    hide Next, Misdirected, CanStart, InGap;
    var before, step := steps[..|steps| - 1], steps[|steps| - 1];
    if NoStartInGap(before) {
      EveryRunClosesForward(before);
      i, n := GapMisdirects(Exec(before));
    } else {
      i, n := StartInGapMisdirects(before);
      StaysMisdirected(Exec(before), step, i, n);
    }
  }

  lemma GapMisdirects(s: State) returns (i: nat, n: nat)
    requires ClosesForward(s) && CanStart(s) && InGap(s)
    ensures Misdirected(Next(s, Start), i, n)
  {
    i :| i < |s.loops| && s.loops[i] == Failed;
    n := |s.loops|;
    SurplusOfStart(s.loops, s.closed, n);
  }

  /** More closes than channels: some channel was closed twice. */
  lemma {:induction false} SurplusMeansTwice(loops: seq<Pc>, closed: seq<nat>, m: nat)
    requires |loops| == |closed| && forall i | 0 <= i < |loops| :: loops[i] == Finished
    requires Surplus(loops, closed, m) >= 1
    ensures exists k :: 0 <= k < |closed| && closed[k] > 1
    decreases |loops| - m
  {
    if m < |loops| && closed[m] <= 1 {
      SurplusMeansTwice(loops, closed, m + 1);
    }
  }

  /** Once all its loops are finished, a run has closed some channel twice exactly when a start was accepted
      in the gap, however many starts there were. */
  lemma RunClosesTwiceIff(steps: seq<Step>)
    requires forall pc <- Exec(steps).loops :: pc == Finished
    ensures ClosedTwice(Exec(steps)) <==> !NoStartInGap(steps)
  {
    hide Exec, NoStartInGap;
    if NoStartInGap(steps) {
      NeverClosedTwice(steps);
    } else {
      var i, n := StartInGapMisdirects(steps);
      var s := Exec(steps);
      assert forall k | 0 <= k < |s.loops| :: s.loops[k] in s.loops;
      SurplusMeansTwice(s.loops, s.closed, n);
    }
  }
}
