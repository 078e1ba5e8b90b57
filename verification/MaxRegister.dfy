/**
 The lock-free running maximum of the lag-accuracy error.  A call loads the register, gives up when it
 already holds the call's value or more, and otherwise compares and swaps until it succeeds; a call that
 swapped then sets a gauge.  The end of the warm-up sets the register to 0 and leaves the gauge alone.

 The first half follows any number of concurrent calls on one register.  The second follows the gauge as
 the workers use it: the channels of a worker share it, each has its own register, and one sampler per
 channel makes one call after the other.  A step that is not possible leaves the state alone, so the
 theorems hold for every interleaving.
 */
module MaxRegister {

  /** A call about to load; one that has loaded `cur`; one that has swapped its value in and not yet set the
      gauge; a finished one. */
  datatype Pc = Loading | Loaded(cur: nat) | Swapped | Done

  /** The next step of a call with value v: the register and the call after it. */
  function StepCall(register: nat, v: nat, pc: Pc): (nat, Pc) {
    match pc
    case Loading => (register, if v <= register then Done else Loaded(register))
    case Loaded(cur) => if register == cur then (v, Swapped) else (register, Loading)
    case Swapped => (register, Done)
    case Done => (register, Done)
  }

  // ---------- Concurrent calls on one register ----------

  /** A step of call i, which folds in values[i], or a reset. */
  datatype Event = Turn(i: nat) | Reset

  datatype State = State(register: nat, pcs: seq<Pc>)

  function Next(values: seq<nat>, s: State, e: Event): State {
    match e
    case Reset => s.(register := 0)
    case Turn(i) =>
      if i >= |values| || i >= |s.pcs| then s
      else
        var (register, pc) := StepCall(s.register, values[i], s.pcs[i]);
        State(register, s.pcs[i := pc])
  }

  function Exec(values: seq<nat>, initial: nat, schedule: seq<Event>): State {
    if schedule == [] then State(initial, seq(|values|, _ => Loading))
    else Next(values, Exec(values, initial, schedule[..|schedule| - 1]), schedule[|schedule| - 1])
  }

  /** The call has swapped its value in or given up. */
  predicate HasSettled(pc: Pc) {
    pc.Swapped? || pc.Done?
  }

  /** The calls that settled since the last reset. */
  ghost function Settled(values: seq<nat>, initial: nat, schedule: seq<Event>): set<nat> {
    if schedule == [] then {}
    else
      var before, e := schedule[..|schedule| - 1], schedule[|schedule| - 1];
      match e
      case Reset => {}
      case Turn(i) =>
        var pcs, pcs' := Exec(values, initial, before).pcs, Exec(values, initial, schedule).pcs;
        Settled(values, initial, before)
          + if i < |pcs| && i < |pcs'| && !HasSettled(pcs[i]) && HasSettled(pcs'[i]) then {i} else {}
  }

  /** What the register held at the start, or at the last reset. */
  function Base(initial: nat, schedule: seq<Event>): nat {
    if Reset in schedule then 0 else initial
  }

  ghost predicate Invariant(values: seq<nat>, base: nat, settled: set<nat>, s: State) {
    && |s.pcs| == |values|
    && base <= s.register
    && (s.register == base || exists i :: i in settled && i < |values| && values[i] == s.register)
    && (forall i <- settled :: i < |values| && HasSettled(s.pcs[i]) && values[i] <= s.register)
    && (forall i | 0 <= i < |values| && s.pcs[i].Loaded? :: s.pcs[i].cur < values[i])
  }

  /** Only a reset lowers the register. */
  lemma TurnGrows(values: seq<nat>, base: nat, settled: set<nat>, s: State, i: nat)
    requires Invariant(values, base, settled, s)
    ensures var s' := Next(values, s, Turn(i));
      && s.register <= s'.register
      && Invariant(values, base,
                   settled + if i < |values| && !HasSettled(s.pcs[i]) && HasSettled(s'.pcs[i]) then {i} else {}, s')
  {
    if i < |values| {
      var s' := Next(values, s, Turn(i));
      var settled' := settled + if !HasSettled(s.pcs[i]) && HasSettled(s'.pcs[i]) then {i} else {};
      if s'.register != s.register {
        assert i in settled' && values[i] == s'.register;
      } else if s.register != base {
        var k :| k in settled && k < |values| && values[k] == s.register;
        assert k in settled';
      }
    }
  }

  lemma {:induction false} InvariantHolds(values: seq<nat>, initial: nat, schedule: seq<Event>)
    ensures Invariant(values, Base(initial, schedule), Settled(values, initial, schedule),
                      Exec(values, initial, schedule))
  {
    hide StepCall;
    if schedule != [] {
      var before, e := schedule[..|schedule| - 1], schedule[|schedule| - 1];
      InvariantHolds(values, initial, before);
      assert schedule == before + [e];
      if e.Turn? {
        TurnGrows(values, Base(initial, before), Settled(values, initial, before), Exec(values, initial, before), e.i);
      }
    }
  }

  /** After every interleaving the register is the largest of what it held at the start, or 0 once it was
      reset, and the values of the calls that swapped or gave up since the last reset.  Calls that settled
      before it leave no trace; calls that were on their way fold in afresh. */
  lemma RegisterIsMaximum(values: seq<nat>, initial: nat, schedule: seq<Event>)
    ensures var s, settled := Exec(values, initial, schedule), Settled(values, initial, schedule);
      var base := Base(initial, schedule);
      && base <= s.register
      && (forall i <- settled :: i < |values| && values[i] <= s.register)
      && (s.register == base || exists i <- settled :: values[i] == s.register)
  {
    hide Exec, Settled;
    InvariantHolds(values, initial, schedule);
  }

  lemma {:induction false} WithoutResetsAllSettle(values: seq<nat>, initial: nat, schedule: seq<Event>, i: nat)
    requires Reset !in schedule && i < |values|
    ensures |Exec(values, initial, schedule).pcs| == |values|
    ensures HasSettled(Exec(values, initial, schedule).pcs[i]) ==> i in Settled(values, initial, schedule)
  {
    if schedule != [] {
      WithoutResetsAllSettle(values, initial, schedule[..|schedule| - 1], i);
    }
  }

  /** With no reset, when all calls are finished the register holds the maximum of its initial value and
      the calls'. */
  lemma FinishedCallsMakeMaximum(values: seq<nat>, initial: nat, schedule: seq<Event>)
    requires Reset !in schedule
    requires forall pc <- Exec(values, initial, schedule).pcs :: pc == Done
    ensures var r := Exec(values, initial, schedule).register;
      && initial <= r && (forall v <- values :: v <= r)
      && (r == initial || r in values)
  {
    hide Exec, Settled;
    RegisterIsMaximum(values, initial, schedule);
    var s := Exec(values, initial, schedule);
    forall v <- values
      ensures v <= s.register
    {
      var i :| 0 <= i < |values| && values[i] == v;
      WithoutResetsAllSettle(values, initial, schedule, i);
      assert s.pcs[i] in s.pcs;
    }
  }

  // ---------- Termination ----------

  /** A bound on the steps of a call that is about to load. */
  function LoadBound(register: nat, v: nat): nat {
    if v <= register then 1 else 2 * (v - register) + 1
  }

  /** A bound on the steps that a call has left.  A call that loaded a value the register no longer holds
      fails to swap and loads again. */
  function StepsLeft(register: nat, v: nat, pc: Pc): nat {
    match pc
    case Loading => LoadBound(register, v)
    case Loaded(cur) => if cur == register && cur < v then 2 * (v - cur) else LoadBound(register, v) + 1
    case Swapped => 1
    case Done => 0
  }

  /** A failed swap means that the register has grown past the value loaded, or was reset.  So each step of
      a call uses up some of its bound, no other call's step adds to it, and a reset adds at most 2 v + 1. */
  lemma StepUsesBound(values: seq<nat>, base: nat, settled: set<nat>, s: State, e: Event, i: nat)
    requires Invariant(values, base, settled, s) && i < |values|
    ensures var s', v := Next(values, s, e), values[i];
      && |s'.pcs| == |values|
      && (s.pcs[i] == Done ==> s'.pcs[i] == Done)
      && StepsLeft(s'.register, v, s'.pcs[i]) + (if e == Turn(i) && s.pcs[i] != Done then 1 else 0)
         <= StepsLeft(s.register, v, s.pcs[i]) + if e == Reset then 2 * v + 1 else 0
  {
  }

  lemma {:induction false} TurnsAreBounded(values: seq<nat>, initial: nat, schedule: seq<Event>, i: nat)
    requires i < |values|
    ensures var s, v := Exec(values, initial, schedule), values[i];
      && |s.pcs| == |values|
      && (s.pcs[i] != Done ==> multiset(schedule)[Turn(i)] + StepsLeft(s.register, v, s.pcs[i])
                               <= (2 * v + 1) * (multiset(schedule)[Reset] + 1))
  {
    hide StepCall, Invariant, Settled, Base, Next;
    if schedule != [] {
      var before, e := schedule[..|schedule| - 1], schedule[|schedule| - 1];
      assert schedule == before + [e];
      TurnsAreBounded(values, initial, before, i);
      InvariantHolds(values, initial, before);
      StepUsesBound(values, Base(initial, before), Settled(values, initial, before),
                    Exec(values, initial, before), e, i);
      assert (2 * values[i] + 1) * (multiset(before)[Reset] + 2)
          == (2 * values[i] + 1) * (multiset(before)[Reset] + 1) + (2 * values[i] + 1);
    }
  }

  /** A call is finished once it was given 2 v + 1 turns, and as many again for every reset, whatever the
      other calls do. */
  lemma CallsTerminate(values: seq<nat>, initial: nat, schedule: seq<Event>, i: nat)
    requires i < |values|
    requires multiset(schedule)[Turn(i)] >= (2 * values[i] + 1) * (multiset(schedule)[Reset] + 1)
    ensures var pcs := Exec(values, initial, schedule).pcs;
      |pcs| == |values| && pcs[i] == Done
  {
    TurnsAreBounded(values, initial, schedule, i);
  }

  // ---------- The gauge of the channels of a worker ----------

  /** A channel's register, and its sampler's latest call. */
  datatype Channel = Channel(register: nat, v: nat, pc: Pc)

  datatype Worker = Worker(channels: seq<Channel>, gauge: nat)

  /** The sampler of channel c begins a call when its last one is finished, or takes the next step of the
      one it is in; the channel's worker is reset at the end of the warm-up. */
  datatype Action = Sample(c: nat, v: nat) | Step(c: nat) | Clear(c: nat)

  function NextWorker(w: Worker, a: Action): Worker {
    if a.c >= |w.channels| then w
    else
      var ch := w.channels[a.c];
      match a
      case Sample(c, v) => if ch.pc == Done then w.(channels := w.channels[c := ch.(v := v, pc := Loading)]) else w
      case Step(c) =>
        var (register, pc) := StepCall(ch.register, ch.v, ch.pc);
        Worker(w.channels[c := Channel(register, ch.v, pc)], if ch.pc == Swapped then ch.v else w.gauge)
      case Clear(c) => w.(channels := w.channels[c := ch.(register := 0)])
  }

  /** A worker of n channels after the run. */
  function RunWorker(n: nat, run: seq<Action>): Worker {
    if run == [] then Worker(seq(n, _ => Channel(0, 0, Done)), 0)
    else NextWorker(RunWorker(n, run[..|run| - 1]), run[|run| - 1])
  }

  /** What the snapshot reports for the worker: the largest register of its channels. */
  function Largest(channels: seq<Channel>): (m: nat)
    ensures forall ch <- channels :: ch.register <= m
    ensures m == 0 || exists ch <- channels :: ch.register == m
  {
    if channels == [] then 0
    else
      var m := Largest(channels[1..]);
      if channels[0].register <= m then m else channels[0].register
  }

  /** No call is on its way. */
  predicate Quiet(w: Worker) {
    forall ch <- w.channels :: ch.pc == Done
  }

  predicate GaugeMirrors(w: Worker) {
    w.gauge == Largest(w.channels)
  }

  /** Channel c is about to swap its call's value in. */
  predicate Raises(w: Worker, c: nat) {
    c < |w.channels| && w.channels[c].pc == Loaded(w.channels[c].register)
  }

  /** Some call of the run raised a register. */
  predicate EverRaised(n: nat, run: seq<Action>) {
    run != [] &&
    var before, a := run[..|run| - 1], run[|run| - 1];
    EverRaised(n, before) || (a.Step? && Raises(RunWorker(n, before), a.c))
  }

  /** Some call raised a register after the last reset of channel 0. */
  predicate RaisedSinceReset(n: nat, run: seq<Action>) {
    run != [] && run[|run| - 1] != Clear(0) &&
    var before, a := run[..|run| - 1], run[|run| - 1];
    RaisedSinceReset(n, before) || (a.Step? && Raises(RunWorker(n, before), a.c))
  }

  /** One channel: what was raised since the last reset is in the register, and on its way to the gauge
      or there; what was raised before it is in the gauge alone. */
  predicate OneChannel(w: Worker, ever: bool, since: bool) {
    |w.channels| == 1 &&
    var ch := w.channels[0];
    && (since ==> ever && ch.register > 0 && ch.register == if ch.pc == Swapped then ch.v else w.gauge)
    && (!since ==> ch.register == 0)
    && (ever && ch.pc != Swapped ==> w.gauge > 0)
    && (!ever ==> w.gauge == 0 && ch.pc != Swapped)
    && (ch.pc == Swapped ==> ch.v > 0)
    && (ch.pc.Loaded? ==> ch.pc.cur < ch.v)
  }

  lemma {:induction false} OneChannelHolds(run: seq<Action>)
    ensures OneChannel(RunWorker(1, run), EverRaised(1, run), RaisedSinceReset(1, run))
  {
    if run != [] {
      OneChannelHolds(run[..|run| - 1]);
    }
  }

  /** A worker with one channel, at every quiet moment of every run, with resets in the middle of calls: the
      gauge shows the register exactly when no call ever raised it, or one did after the last reset.
      A reset of a raised register leaves the gauge behind until the next raise. */
  lemma GaugeMirrorsIff(run: seq<Action>)
    requires Quiet(RunWorker(1, run))
    ensures GaugeMirrors(RunWorker(1, run)) <==> !EverRaised(1, run) || RaisedSinceReset(1, run)
  {
    hide RunWorker, EverRaised, RaisedSinceReset;
    OneChannelHolds(run);
    var w := RunWorker(1, run);
    assert w.channels[0] in w.channels;
    assert Largest(w.channels[1..]) == 0;
  }

  predicate MirrorsWhenQuiet(n: nat, run: seq<Action>) {
    Quiet(RunWorker(n, run)) ==> GaugeMirrors(RunWorker(n, run))
  }

  predicate HasReset(run: seq<Action>) {
    exists a <- run :: a.Clear?
  }

  lemma {:induction false} WithoutResetsRaisesStay(run: seq<Action>)
    requires !HasReset(run)
    ensures EverRaised(1, run) == RaisedSinceReset(1, run)
  {
    hide RunWorker;
    if run != [] {
      assert run[|run| - 1] in run;
      WithoutResetsRaisesStay(run[..|run| - 1]);
    }
  }

  /** A whole call of channel c with nothing in between. */
  function Call(c: nat, v: nat): seq<Action> {
    [Sample(c, v), Step(c), Step(c), Step(c)]
  }

  lemma CallSets(n: nat, run: seq<Action>, c: nat, v: nat)
    requires var w := RunWorker(n, run); c < |w.channels| && w.channels[c].pc == Done && w.channels[c].register < v
    ensures RunWorker(n, run + Call(c, v))
         == Worker(RunWorker(n, run).channels[c := Channel(v, v, Done)], v)
  {
    var w := RunWorker(n, run);
    var ch := w.channels[c];
    var r1 := run + [Sample(c, v)];
    var r2 := r1 + [Step(c)];
    var r3 := r2 + [Step(c)];
    var r4 := r3 + [Step(c)];
    assert r4 == run + Call(c, v);
    assert r1[..|r1| - 1] == run && r2[..|r2| - 1] == r1 && r3[..|r3| - 1] == r2 && r4[..|r4| - 1] == r3;
    assert RunWorker(n, r1).channels == w.channels[c := Channel(ch.register, v, Loading)];
    assert RunWorker(n, r2).channels == w.channels[c := Channel(ch.register, v, Loaded(ch.register))];
    assert RunWorker(n, r3).channels == w.channels[c := Channel(v, v, Swapped)];
    assert RunWorker(n, r4).channels == w.channels[c := Channel(v, v, Done)];
  }

  /** A lower raise of a second channel hides the first. */
  lemma ChannelsHideEachOther(n: nat)
    requires n >= 2
    ensures !MirrorsWhenQuiet(n, Call(0, 2) + Call(1, 1))
  {
    CallSets(n, [], 0, 2);
    assert [] + Call(0, 2) == Call(0, 2);
    CallSets(n, Call(0, 2), 1, 1);
    var w := RunWorker(n, Call(0, 2) + Call(1, 1));
    assert w.channels[0] in w.channels;
  }

  lemma ResetLeavesGauge()
    ensures !MirrorsWhenQuiet(1, Call(0, 1) + [Clear(0)])
  {
    CallSets(1, [], 0, 1);
    assert [] + Call(0, 1) == Call(0, 1);
    assert (Call(0, 1) + [Clear(0)])[..|Call(0, 1)|] == Call(0, 1);
    var w := RunWorker(1, Call(0, 1) + [Clear(0)]);
    assert w.channels == [Channel(0, 1, Done)];
    assert Largest(w.channels[1..]) == 0;
  }

  /** The gauge shows the largest register of a worker at every quiet moment of every run exactly when the
      worker has one channel that is never reset. */
  lemma GaugeMirrorsAlwaysIff(n: nat, resets: bool)
    requires n > 0
    ensures (forall run: seq<Action> | resets || !HasReset(run) :: MirrorsWhenQuiet(n, run)) <==> n == 1 && !resets
  {
    hide RunWorker, EverRaised, RaisedSinceReset, Largest, Quiet, GaugeMirrors;
    if n > 1 {
      ChannelsHideEachOther(n);
    } else if resets {
      ResetLeavesGauge();
    } else {
      forall run: seq<Action> | !HasReset(run)
        ensures MirrorsWhenQuiet(1, run)
      {
        WithoutResetsRaisesStay(run);
        if Quiet(RunWorker(1, run)) {
          GaugeMirrorsIff(run);
        }
      }
    }
  }
}
