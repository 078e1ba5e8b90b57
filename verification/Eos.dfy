/**
 The exactly-once worker against an abstract broker, as a state machine.

 The producer alternates aborted and committed transactions of four records; every call to
 the broker may fail, and a commit that fails may still take effect at any later time.  The
 broker hands a read-committed consumer records of committed transactions only, in any
 order and any number of times.  A step that is not enabled leaves the state alone, so the
 theorems hold for every sequence of steps.
 */
module Eos {
  import opened Headers
  import opened Helpers

  const RECORDS_PER_CYCLE := 4
  const TXN_OUTCOME := "TxnOutcome"

  datatype TxnStatus = Open | Committed | Undecided | Aborted

  datatype Txn = Txn(commit: bool, status: TxnStatus)

  datatype Entry = Entry(headers: seq<Header>, txn: nat)

  /** Between transactions, or in one that has produced `k` records and may have failed. */
  datatype Phase = Idle | Producing(commit: bool, k: nat, failed: bool)

  datatype Producer = Producer(phase: Phase, cycle: nat, committedSeq: nat, abortSeq: nat, sent: nat)

  /** The broker's log, and where in it the open transaction starts. */
  datatype Broker = Broker(txns: seq<Txn>, log: seq<Entry>, start: nat)

  datatype Consumer = Consumer(received: nat, eosViolations: nat, residual: nat, seen: set<string>)

  /** The parts of the run, with the log positions delivered so far and the residual that resets forgot. */
  datatype State = State(p: Producer, b: Broker, c: Consumer, deliveries: seq<nat>, forgotten: nat)

  datatype Step =
    | Begin(ok: bool)
    | RateFails
    | Produce(ok: bool, appended: bool, crcHex: string, nanos: int)
    | End(ok: bool)
    | Resolve(txn: nat, commits: bool)
    | Deliver(position: nat)
    | ResetAfterWarmup

  const INITIAL := State(Producer(Idle, 0, 0, 0, 0), Broker([], [], 0), Consumer(0, 0, 0, {}), [], 0)

  // ---------- The producer and the broker ----------

  function CommittedPid(channel: string): string { channel + "-txn" }

  function AbortPid(channel: string): string { channel + "-abort" }

  function RecordHeaders(pid: string, seqNo: nat, crcHex: string, nanos: int, outcome: string): seq<Header> {
    StampHeaders(pid, seqNo, crcHex, nanos) + [Header(TXN_OUTCOME, outcome)]
  }

  /** Every second cycle commits. */
  function BeginTransaction(s: State, ok: bool): State {
    var cycle := s.p.cycle + 1;
    if ok then
      var commit := cycle % 2 == 0;
      s.(p := s.p.(phase := Producing(commit, 0, false), cycle := cycle),
         b := s.b.(txns := s.b.txns + [Txn(commit, Open)], start := |s.b.log|))
    else s.(p := s.p.(cycle := cycle))
  }

  function ProduceRecord(channel: string, s: State, ok: bool, appended: bool, crcHex: string, nanos: int): State
    requires s.p.phase.Producing? && |s.b.txns| > 0
  {
    var commit := s.p.phase.commit;
    var seqNo := (if commit then s.p.committedSeq else s.p.abortSeq) + 1;
    var headers := if commit then RecordHeaders(CommittedPid(channel), seqNo, crcHex, nanos, "commit")
                   else RecordHeaders(AbortPid(channel), seqNo, crcHex, nanos, "abort");
    var phase := if ok then s.p.phase.(k := s.p.phase.k + 1) else s.p.phase.(failed := true);
    s.(p := if commit then s.p.(phase := phase, committedSeq := seqNo) else s.p.(phase := phase, abortSeq := seqNo),
       b := if appended then s.b.(log := s.b.log + [Entry(headers, |s.b.txns| - 1)]) else s.b)
  }

  /** A commit is tried only in a committing cycle in which every record was produced. */
  function EndTransaction(s: State, ok: bool): State
    requires s.p.phase.Producing? && |s.b.txns| > 0
  {
    var tryCommit := s.p.phase.commit && !s.p.phase.failed;
    var status := if !tryCommit then Aborted else if ok then Committed else Undecided;
    var last := |s.b.txns| - 1;
    s.(p := s.p.(phase := Idle, sent := s.p.sent + if ok && tryCommit then s.p.phase.k else 0),
       b := s.b.(txns := s.b.txns[last := Txn(s.p.phase.commit, status)]))
  }

  predicate IsCommitted(b: Broker, i: nat) {
    i < |b.log| && b.log[i].txn < |b.txns| && b.txns[b.log[i].txn].status == Committed
  }

  // ---------- The consumer ----------

  function HandleRecord(c: Consumer, headers: seq<Header>): Consumer {
    var meta := Extracted(headers);
    var c' := c.(received := c.received + 1);
    if ValueOf(headers, TXN_OUTCOME) == "abort" then c'.(eosViolations := c.eosViolations + 1)
    else if !Ok(meta) then c'
    else
      var key := DedupKey(meta.producerId, meta.seqNo);
      if key in c.seen then c'.(residual := c.residual + 1) else c'.(seen := c.seen + {key})
  }

  // ---------- Steps and runs ----------

  predicate Enabled(s: State, step: Step) {
    match step
    case Begin(_) => s.p.phase.Idle?
    case RateFails => s.p.phase.Producing? && !s.p.phase.failed && s.p.phase.k < RECORDS_PER_CYCLE
    case Produce(ok, appended, _, nanos) =>
      && s.p.phase.Producing? && !s.p.phase.failed && s.p.phase.k < RECORDS_PER_CYCLE
      && |s.b.txns| > 0
      && (ok ==> appended)
      && s.p.committedSeq + 1 < TWO_TO_THE_64 && s.p.abortSeq + 1 < TWO_TO_THE_64
      && -TWO_TO_THE_63 <= nanos < TWO_TO_THE_63
    case End(_) =>
      && s.p.phase.Producing? && (s.p.phase.failed || s.p.phase.k == RECORDS_PER_CYCLE) && |s.b.txns| > 0
    case Resolve(t, _) => t < |s.b.txns| && s.b.txns[t].status == Undecided
    case Deliver(i) => IsCommitted(s.b, i)
    case ResetAfterWarmup => true
  }

  function Apply(channel: string, s: State, step: Step): State
    requires Enabled(s, step)
  {
    match step
    case Begin(ok) => BeginTransaction(s, ok)
    case RateFails => s.(p := s.p.(phase := s.p.phase.(failed := true)))
    case Produce(ok, appended, crcHex, nanos) => ProduceRecord(channel, s, ok, appended, crcHex, nanos)
    case End(ok) => EndTransaction(s, ok)
    case Resolve(t, commits) =>
      s.(b := s.b.(txns := s.b.txns[t := s.b.txns[t].(status := if commits then Committed else Aborted)]))
    case Deliver(i) =>
      s.(c := HandleRecord(s.c, s.b.log[i].headers), deliveries := s.deliveries + [i])
    case ResetAfterWarmup =>
      s.(p := s.p.(sent := 0), c := s.c.(received := 0, eosViolations := 0, residual := 0),
         forgotten := s.forgotten + s.c.residual)
  }

  function Exec(channel: string, steps: seq<Step>): State {
    if steps == [] then INITIAL
    else
      var s, step := Exec(channel, steps[..|steps| - 1]), steps[|steps| - 1];
      if Enabled(s, step) then Apply(channel, s, step) else s
  }

  // ---------- Invariants ----------

  /** The log positions of records meant to be committed, and of those that are. */
  ghost function Intended(b: Broker): set<nat> {
    set i | 0 <= i < |b.log| && b.log[i].txn < |b.txns| && b.txns[b.log[i].txn].commit
  }

  ghost function CommittedPositions(b: Broker): set<nat> {
    set i | 0 <= i < |b.log| && IsCommitted(b, i)
  }

  /** Each entry belongs to a transaction; only a transaction that was meant to commit can; the open
      transaction is the last and its entries are the last. */
  ghost predicate LogInvariant(phase: Phase, b: Broker) {
    && (forall i | 0 <= i < |b.log| :: b.log[i].txn < |b.txns|)
    && (forall t | 0 <= t < |b.txns| :: b.txns[t].status in {Committed, Undecided} ==> b.txns[t].commit)
    && (phase.Producing? ==>
          && |b.txns| > 0 && b.txns[|b.txns| - 1] == Txn(phase.commit, Open)
          && b.start <= |b.log|
          && (forall i | 0 <= i < |b.log| :: b.log[i].txn == |b.txns| - 1 <==> b.start <= i)
          && (!phase.failed ==> |b.log| - b.start == phase.k))
  }

  ghost predicate GoodCommit(channel: string, headers: seq<Header>, hi: nat) {
    var meta := Extracted(headers);
    && ValueOf(headers, TXN_OUTCOME) == "commit"
    && meta.producerId == CommittedPid(channel) && 1 <= meta.seqNo <= hi
  }

  /** The records meant to be committed are stamped as such, with increasing sequences. */
  ghost predicate StampInvariant(channel: string, committedSeq: nat, b: Broker) {
    && (forall i <- Intended(b) :: GoodCommit(channel, b.log[i].headers, committedSeq))
    && (forall i <- Intended(b), j <- Intended(b) | i < j ::
          Extracted(b.log[i].headers).seqNo < Extracted(b.log[j].headers).seqNo)
    && |Intended(b)| <= committedSeq
  }

  ghost predicate SentInvariant(sent: nat, b: Broker) {
    sent % RECORDS_PER_CYCLE == 0 && sent <= |CommittedPositions(b)|
  }

  function KeyOf(e: Entry): string {
    var meta := Extracted(e.headers);
    DedupKey(meta.producerId, meta.seqNo)
  }

  /** The keys of the records at these log positions. */
  ghost function KeysOf(log: seq<Entry>, positions: seq<nat>): set<string> {
    if positions == [] then {}
    else
      var last := positions[|positions| - 1];
      KeysOf(log, positions[..|positions| - 1]) + if last < |log| then {KeyOf(log[last])} else {}
  }

  ghost function Delivered(deliveries: seq<nat>): set<nat> { set i | i in deliveries }

  /** Only committed records were delivered, the seen keys are those of the delivered records, and every
      other delivery is in the residual. */
  ghost predicate ConsumerInvariant(b: Broker, c: Consumer, deliveries: seq<nat>, forgotten: nat) {
    && c.eosViolations == 0
    && (forall i <- deliveries :: IsCommitted(b, i))
    && c.seen == KeysOf(b.log, deliveries)
    && |c.seen| == |Delivered(deliveries)|
    && c.residual + forgotten + |c.seen| == |deliveries|
  }

  ghost predicate Invariant(channel: string, s: State) {
    && LogInvariant(s.p.phase, s.b)
    && StampInvariant(channel, s.p.committedSeq, s.b)
    && SentInvariant(s.p.sent, s.b)
    && ConsumerInvariant(s.b, s.c, s.deliveries, s.forgotten)
  }

  // ---------- Every step keeps the invariant ----------

  lemma CommitRecordIsGood(channel: string, seqNo: nat, crcHex: string, nanos: int)
    requires 1 <= seqNo < TWO_TO_THE_64 && -TWO_TO_THE_63 <= nanos < TWO_TO_THE_63
    ensures var headers := RecordHeaders(CommittedPid(channel), seqNo, crcHex, nanos, "commit");
      GoodCommit(channel, headers, seqNo) && Extracted(headers).seqNo == seqNo
  {
    hide Extracted;
    var outcome := Header(TXN_OUTCOME, "commit");
    StampRoundTrip(CommittedPid(channel), seqNo, crcHex, nanos, [outcome]);
    ValueOfLast(StampHeaders(CommittedPid(channel), seqNo, crcHex, nanos), outcome);
  }

  /** What the consumer invariant needs of the broker: nothing delivered stops being committed or moves. */
  lemma ConsumerKept(b: Broker, b': Broker, c: Consumer, deliveries: seq<nat>, forgotten: nat)
    requires ConsumerInvariant(b, c, deliveries, forgotten)
    requires b.log <= b'.log && CommittedPositions(b) <= CommittedPositions(b')
    ensures ConsumerInvariant(b', c, deliveries, forgotten)
  {
    hide KeyOf;
    forall i <- deliveries
      ensures IsCommitted(b', i)
    {
      assert i in CommittedPositions(b);
    }
    KeysOfPrefix(b.log, b'.log, deliveries);
  }

  lemma {:induction false} KeysOfPrefix(log: seq<Entry>, log': seq<Entry>, positions: seq<nat>)
    requires log <= log' && forall i <- positions :: i < |log|
    ensures KeysOf(log', positions) == KeysOf(log, positions)
  {
    hide KeyOf;
    if positions != [] {
      var front, last := positions[..|positions| - 1], positions[|positions| - 1];
      assert last in positions && forall i <- front :: i in positions;
      KeysOfPrefix(log, log', front);
    }
  }

  lemma {:induction false} KeyHasPosition(log: seq<Entry>, positions: seq<nat>, key: string) returns (i: nat)
    requires key in KeysOf(log, positions)
    ensures i in positions && i < |log| && KeyOf(log[i]) == key
  {
    hide KeyOf;
    i := positions[|positions| - 1];
    if !(i < |log| && KeyOf(log[i]) == key) {
      i := KeyHasPosition(log, positions[..|positions| - 1], key);
    }
  }

  lemma {:induction false} PositionHasKey(log: seq<Entry>, positions: seq<nat>, i: nat)
    requires i in positions && i < |log|
    ensures KeyOf(log[i]) in KeysOf(log, positions)
  {
    hide KeyOf;
    if i != positions[|positions| - 1] {
      PositionHasKey(log, positions[..|positions| - 1], i);
    }
  }

  lemma StampsKept(channel: string, committedSeq: nat, b: Broker, b': Broker)
    requires StampInvariant(channel, committedSeq, b)
    requires b'.log == b.log && Intended(b') == Intended(b)
    ensures StampInvariant(channel, committedSeq, b')
  {
    hide Extracted, GoodCommit;
  }

  lemma BeginKeepsLog(s: State, ok: bool)
    requires LogInvariant(s.p.phase, s.b) && Enabled(s, Begin(ok))
    ensures var s' := BeginTransaction(s, ok);
      && LogInvariant(s'.p.phase, s'.b) && Intended(s'.b) == Intended(s.b)
      && CommittedPositions(s'.b) == CommittedPositions(s.b)
  {
    var s' := BeginTransaction(s, ok);
    assert forall i | 0 <= i < |s.b.log| :: s'.b.txns[s.b.log[i].txn] == s.b.txns[s.b.log[i].txn];
  }

  lemma BeginKeeps(channel: string, s: State, ok: bool)
    requires Invariant(channel, s) && Enabled(s, Begin(ok))
    ensures Invariant(channel, BeginTransaction(s, ok))
  {
    hide LogInvariant, Intended, CommittedPositions, StampInvariant, ConsumerInvariant;
    var s' := BeginTransaction(s, ok);
    BeginKeepsLog(s, ok);
    StampsKept(channel, s.p.committedSeq, s.b, s'.b);
    ConsumerKept(s.b, s'.b, s.c, s.deliveries, s.forgotten);
  }

  lemma ProduceKeepsLog(channel: string, s: State, ok: bool, appended: bool, crcHex: string, nanos: int)
    requires LogInvariant(s.p.phase, s.b) && Enabled(s, Produce(ok, appended, crcHex, nanos))
    ensures var s' := ProduceRecord(channel, s, ok, appended, crcHex, nanos);
      && LogInvariant(s'.p.phase, s'.b)
      && CommittedPositions(s'.b) == CommittedPositions(s.b)
      && Intended(s'.b) == if s.p.phase.commit && appended then Intended(s.b) + {|s.b.log|} else Intended(s.b)
  {
    hide RecordHeaders;
  }

  /** One more record stamped with the next sequence keeps the stamps good and increasing. */
  lemma StampsExtended(channel: string, committedSeq: nat, b: Broker, b': Broker, e: Entry)
    requires StampInvariant(channel, committedSeq, b)
    requires b'.log == b.log + [e] && Intended(b') == Intended(b) + {|b.log|}
    requires forall i <- Intended(b) :: i < |b.log|
    requires GoodCommit(channel, e.headers, committedSeq + 1) && Extracted(e.headers).seqNo == committedSeq + 1
    ensures StampInvariant(channel, committedSeq + 1, b')
  {
    hide Extracted, ValueOf, Intended;
    forall i <- Intended(b')
      ensures GoodCommit(channel, b'.log[i].headers, committedSeq + 1)
      ensures i < |b.log| ==> i in Intended(b) && Extracted(b'.log[i].headers).seqNo <= committedSeq
    {
      if i < |b.log| {
        assert GoodCommit(channel, b.log[i].headers, committedSeq);
      }
    }
    forall i <- Intended(b'), j <- Intended(b') | i < j
      ensures Extracted(b'.log[i].headers).seqNo < Extracted(b'.log[j].headers).seqNo
    {
      assert i < |b.log| && b'.log[i] == b.log[i];
      assert j < |b.log| ==> b'.log[j] == b.log[j];
    }
  }

  lemma IntendedInLog(b: Broker)
    ensures forall i <- Intended(b) :: i < |b.log|
  {
  }

  lemma StampsLoosen(channel: string, committedSeq: nat, b: Broker)
    requires StampInvariant(channel, committedSeq, b)
    ensures StampInvariant(channel, committedSeq + 1, b)
  {
    hide Extracted, ValueOf;
  }

  lemma ProduceKeepsStamps(channel: string, s: State, ok: bool, appended: bool, crcHex: string, nanos: int)
    requires LogInvariant(s.p.phase, s.b) && StampInvariant(channel, s.p.committedSeq, s.b)
    requires Enabled(s, Produce(ok, appended, crcHex, nanos))
    ensures var s' := ProduceRecord(channel, s, ok, appended, crcHex, nanos);
      StampInvariant(channel, s'.p.committedSeq, s'.b)
  {
    hide GoodCommit, Extracted, RecordHeaders, LogInvariant, StampInvariant, Intended;
    var s' := ProduceRecord(channel, s, ok, appended, crcHex, nanos);
    var next := s.p.committedSeq + 1;
    ProduceKeepsLog(channel, s, ok, appended, crcHex, nanos);
    IntendedInLog(s.b);
    if s.p.phase.commit {
      if appended {
        CommitRecordIsGood(channel, next, crcHex, nanos);
        StampsExtended(channel, s.p.committedSeq, s.b, s'.b,
                       Entry(RecordHeaders(CommittedPid(channel), next, crcHex, nanos, "commit"), |s.b.txns| - 1));
      } else {
        StampsLoosen(channel, s.p.committedSeq, s.b);
      }
    } else {
      AppendKeepsStamps(channel, s.p.committedSeq, s.b, s'.b);
    }
  }

  lemma AppendKeepsStamps(channel: string, committedSeq: nat, b: Broker, b': Broker)
    requires StampInvariant(channel, committedSeq, b)
    requires b.log <= b'.log && Intended(b') == Intended(b)
    ensures StampInvariant(channel, committedSeq, b')
  {
    hide Extracted, GoodCommit;
    assert forall i <- Intended(b) :: i < |b.log| && b'.log[i] == b.log[i];
  }

  lemma ProduceKeeps(channel: string, s: State, ok: bool, appended: bool, crcHex: string, nanos: int)
    requires Invariant(channel, s) && Enabled(s, Produce(ok, appended, crcHex, nanos))
    ensures Invariant(channel, ProduceRecord(channel, s, ok, appended, crcHex, nanos))
  {
    hide RecordHeaders, StampInvariant, LogInvariant, CommittedPositions, Intended, ConsumerInvariant;
    ProduceKeepsLog(channel, s, ok, appended, crcHex, nanos);
    ProduceKeepsStamps(channel, s, ok, appended, crcHex, nanos);
    var s' := ProduceRecord(channel, s, ok, appended, crcHex, nanos);
    ConsumerKept(s.b, s'.b, s.c, s.deliveries, s.forgotten);
  }

  lemma EndKeepsLog(s: State, ok: bool)
    requires LogInvariant(s.p.phase, s.b) && Enabled(s, End(ok))
    ensures var s' := EndTransaction(s, ok);
      LogInvariant(s'.p.phase, s'.b) && Intended(s'.b) == Intended(s.b)
  {
  }

  lemma EndCommits(s: State, ok: bool)
    requires LogInvariant(s.p.phase, s.b) && Enabled(s, End(ok))
    ensures var s' := EndTransaction(s, ok);
      forall i :: i in CommittedPositions(s'.b) <==>
        i in CommittedPositions(s.b) ||
        (ok && s.p.phase.commit && !s.p.phase.failed && s.b.start <= i < |s.b.log|)
    ensures forall i <- CommittedPositions(s.b) :: i < s.b.start
    ensures !s.p.phase.failed ==> |s.b.log| - s.b.start == RECORDS_PER_CYCLE
  {
  }

  /** The records counted as sent are those that the same step commits. */
  lemma EndCountsWhatItCommits(s: State, ok: bool)
    requires LogInvariant(s.p.phase, s.b) && Enabled(s, End(ok))
    ensures var s' := EndTransaction(s, ok);
      && CommittedPositions(s.b) <= CommittedPositions(s'.b)
      && s'.p.sent - s.p.sent in {0, RECORDS_PER_CYCLE}
      && s'.p.sent - s.p.sent == |CommittedPositions(s'.b)| - |CommittedPositions(s.b)|
  {
    hide CommittedPositions, LogInvariant;
    EndCommits(s, ok);
    var before, after := CommittedPositions(s.b), CommittedPositions(EndTransaction(s, ok).b);
    if ok && s.p.phase.commit && !s.p.phase.failed {
      var own := IntervalOf(s.b.start, |s.b.log|);
      assert after == before + own && before !! own;
    } else {
      assert after == before;
    }
  }

  lemma EndKeeps(channel: string, s: State, ok: bool)
    requires Invariant(channel, s) && Enabled(s, End(ok))
    ensures Invariant(channel, EndTransaction(s, ok))
  {
    hide LogInvariant, Intended, CommittedPositions, StampInvariant, ConsumerInvariant;
    var s' := EndTransaction(s, ok);
    EndKeepsLog(s, ok);
    EndCountsWhatItCommits(s, ok);
    StampsKept(channel, s.p.committedSeq, s.b, s'.b);
    ConsumerKept(s.b, s'.b, s.c, s.deliveries, s.forgotten);
  }

  lemma ResolveKeepsLog(channel: string, s: State, t: nat, commits: bool)
    requires LogInvariant(s.p.phase, s.b) && Enabled(s, Resolve(t, commits))
    ensures var s' := Apply(channel, s, Resolve(t, commits));
      && LogInvariant(s'.p.phase, s'.b) && Intended(s'.b) == Intended(s.b)
      && CommittedPositions(s.b) <= CommittedPositions(s'.b)
  {
  }

  lemma ResolveKeeps(channel: string, s: State, t: nat, commits: bool)
    requires Invariant(channel, s) && Enabled(s, Resolve(t, commits))
    ensures Invariant(channel, Apply(channel, s, Resolve(t, commits)))
  {
    hide LogInvariant, Intended, CommittedPositions, StampInvariant, ConsumerInvariant;
    var s' := Apply(channel, s, Resolve(t, commits));
    ResolveKeepsLog(channel, s, t, commits);
    SubsetIsNoLarger(CommittedPositions(s.b), CommittedPositions(s'.b));
    StampsKept(channel, s.p.committedSeq, s.b, s'.b);
    ConsumerKept(s.b, s'.b, s.c, s.deliveries, s.forgotten);
  }

  /** Two records meant to be committed have the same key only if they are the same log entry. */
  lemma KeysAreDistinct(channel: string, committedSeq: nat, b: Broker, i: nat, j: nat)
    requires StampInvariant(channel, committedSeq, b) && i in Intended(b) && j in Intended(b)
    requires KeyOf(b.log[i]) == KeyOf(b.log[j])
    ensures i == j
  {
    var mi, mj := Extracted(b.log[i].headers), Extracted(b.log[j].headers);
    DedupKeyIsInjective(mi.producerId, mi.seqNo, mj.producerId, mj.seqNo);
  }

  lemma CommittedIsIntended(phase: Phase, b: Broker, i: nat)
    requires LogInvariant(phase, b) && IsCommitted(b, i)
    ensures i in Intended(b)
  {
  }

  /** The key of a committed record was seen exactly when that record was delivered. */
  lemma SeenIffDelivered(channel: string, s: State, i: nat)
    requires Invariant(channel, s) && IsCommitted(s.b, i)
    ensures KeyOf(s.b.log[i]) in s.c.seen <==> i in s.deliveries
  {
    hide KeyOf, LogInvariant, StampInvariant;
    if i in s.deliveries {
      PositionHasKey(s.b.log, s.deliveries, i);
    }
    if KeyOf(s.b.log[i]) in s.c.seen {
      var j := KeyHasPosition(s.b.log, s.deliveries, KeyOf(s.b.log[i]));
      CommittedIsIntended(s.p.phase, s.b, i);
      CommittedIsIntended(s.p.phase, s.b, j);
      KeysAreDistinct(channel, s.p.committedSeq, s.b, i, j);
    }
  }

  lemma HandleGoodCommit(channel: string, c: Consumer, e: Entry, hi: nat)
    requires GoodCommit(channel, e.headers, hi)
    ensures var c' := HandleRecord(c, e.headers);
      && c'.eosViolations == c.eosViolations
      && c'.seen == c.seen + {KeyOf(e)}
      && c'.residual == c.residual + if KeyOf(e) in c.seen then 1 else 0
  {
    assert CommittedPid(channel) != "";
  }

  /** One delivery puts its record's key among the seen ones, or into the residual when it is there. */
  lemma DeliveredSnoc(log: seq<Entry>, deliveries: seq<nat>, i: nat)
    ensures Delivered(deliveries + [i]) == Delivered(deliveries) + {i}
    ensures |Delivered(deliveries + [i])| == |Delivered(deliveries)| + if i in deliveries then 0 else 1
    ensures KeysOf(log, deliveries + [i]) == KeysOf(log, deliveries) + if i < |log| then {KeyOf(log[i])} else {}
  {
    hide KeyOf;
    assert Delivered(deliveries + [i]) == Delivered(deliveries) + {i};
    assert i in deliveries <==> i in Delivered(deliveries);
    assert (deliveries + [i])[..|deliveries|] == deliveries;
  }

  lemma OneMoreDelivery(b: Broker, c: Consumer, c': Consumer, deliveries: seq<nat>, forgotten: nat, i: nat)
    requires ConsumerInvariant(b, c, deliveries, forgotten) && IsCommitted(b, i)
    requires KeyOf(b.log[i]) in c.seen <==> i in deliveries
    requires c'.eosViolations == c.eosViolations && c'.seen == c.seen + {KeyOf(b.log[i])}
    requires c'.residual == c.residual + if KeyOf(b.log[i]) in c.seen then 1 else 0
    ensures ConsumerInvariant(b, c', deliveries + [i], forgotten)
  {
    hide KeyOf, Delivered, KeysOf;
    DeliveredSnoc(b.log, deliveries, i);
  }

  lemma DeliverKeeps(channel: string, s: State, i: nat)
    requires Invariant(channel, s) && Enabled(s, Deliver(i))
    ensures Invariant(channel, Apply(channel, s, Deliver(i)))
  {
    hide KeyOf, GoodCommit, HandleRecord, LogInvariant, ConsumerInvariant, SentInvariant, Extracted;
    CommittedIsIntended(s.p.phase, s.b, i);
    SeenIffDelivered(channel, s, i);
    HandleGoodCommit(channel, s.c, s.b.log[i], s.p.committedSeq);
    OneMoreDelivery(s.b, s.c, HandleRecord(s.c, s.b.log[i].headers), s.deliveries, s.forgotten, i);
  }

  lemma ResetKeeps(channel: string, s: State)
    requires Invariant(channel, s)
    ensures Invariant(channel, Apply(channel, s, ResetAfterWarmup))
  {
    hide KeyOf, StampInvariant, LogInvariant;
  }

  lemma RateFailsKeeps(channel: string, s: State)
    requires Invariant(channel, s) && Enabled(s, RateFails)
    ensures Invariant(channel, Apply(channel, s, RateFails))
  {
    hide StampInvariant, ConsumerInvariant, SentInvariant;
  }

  lemma StepKeepsInvariant(channel: string, s: State, step: Step)
    requires Invariant(channel, s) && Enabled(s, step)
    ensures Invariant(channel, Apply(channel, s, step))
  {
    hide Invariant, BeginTransaction, ProduceRecord, EndTransaction, Enabled;
    match step
    case Begin(ok) => BeginKeeps(channel, s, ok);
    case RateFails => RateFailsKeeps(channel, s);
    case Produce(ok, appended, crcHex, nanos) => ProduceKeeps(channel, s, ok, appended, crcHex, nanos);
    case End(ok) => EndKeeps(channel, s, ok);
    case Resolve(t, commits) => ResolveKeeps(channel, s, t, commits);
    case Deliver(i) => DeliverKeeps(channel, s, i);
    case ResetAfterWarmup => ResetKeeps(channel, s);
  }

  lemma InitialInvariant(channel: string)
    ensures Invariant(channel, INITIAL)
  {
    assert Delivered(INITIAL.deliveries) == {};
  }

  lemma {:induction false} InvariantHolds(channel: string, steps: seq<Step>)
    ensures Invariant(channel, Exec(channel, steps))
  {
    hide Apply, Enabled, Invariant;
    if steps == [] {
      InitialInvariant(channel);
    } else {
      var s, step := Exec(channel, steps[..|steps| - 1]), steps[|steps| - 1];
      InvariantHolds(channel, steps[..|steps| - 1]);
      if Enabled(s, step) {
        StepKeepsInvariant(channel, s, step);
      }
    }
  }

  // ---------- Safety ----------

  /** No run records an exactly-once violation; what counts as sent comes in whole transactions and is
      never more than the committed records, nor those than the committed sequence. */
  lemma NoViolations(channel: string, steps: seq<Step>)
    ensures var s := Exec(channel, steps);
      && s.c.eosViolations == 0
      && s.p.sent % RECORDS_PER_CYCLE == 0
      && s.p.sent <= |CommittedPositions(s.b)| <= s.p.committedSeq
  {
    hide Exec, KeyOf, GoodCommit;
    InvariantHolds(channel, steps);
    var s := Exec(channel, steps);
    SubsetIsNoLarger(CommittedPositions(s.b), Intended(s.b));
  }

  /** The deliveries taken since the last reset. */
  function DeliveredSinceReset(channel: string, steps: seq<Step>): nat {
    if steps == [] then 0
    else
      var front, last := Front(steps), Last(steps);
      match last
      case ResetAfterWarmup => 0
      case Deliver(i) =>
        DeliveredSinceReset(channel, front) + if Enabled(Exec(channel, front), last) then 1 else 0
      case _ => DeliveredSinceReset(channel, front)
  }

  lemma StepReceives(channel: string, s: State, step: Step)
    requires Enabled(s, step)
    ensures Apply(channel, s, step).c.received ==
      match step
      case ResetAfterWarmup => 0
      case Deliver(_) => s.c.received + 1
      case _ => s.c.received
  {
    hide Extracted, ValueOf, DedupKey;
  }

  lemma {:induction false} ReceivedCountsDeliveries(channel: string, steps: seq<Step>)
    ensures Exec(channel, steps).c.received == DeliveredSinceReset(channel, steps)
  {
    hide Enabled, Apply;
    if steps != [] {
      ReceivedCountsDeliveries(channel, Front(steps));
      var s := Exec(channel, Front(steps));
      if Enabled(s, Last(steps)) {
        StepReceives(channel, s, Last(steps));
      } else {
        ResetIsEnabled(s, Last(steps));
      }
    }
  }

  lemma ResetIsEnabled(s: State, step: Step)
    ensures step == ResetAfterWarmup ==> Enabled(s, step)
  {
  }

  /** The residual, with what resets forgot of it, is exactly the number of repeated deliveries; what was received
      is the number of deliveries since the last reset. */
  lemma ResidualCountsRepeats(channel: string, steps: seq<Step>)
    ensures var s := Exec(channel, steps);
      && s.c.residual + s.forgotten == |s.deliveries| - |Delivered(s.deliveries)|
      && |s.c.seen| == |Delivered(s.deliveries)|
      && s.c.received == DeliveredSinceReset(channel, steps)
  {
    hide Exec, LogInvariant, StampInvariant;
    InvariantHolds(channel, steps);
    ReceivedCountsDeliveries(channel, steps);
  }

  /** When every committed record has been delivered exactly once, the residual is 0 and the seen set
      has one key for each committed record, so at least as many as were sent. */
  lemma ExactlyOnceDelivery(channel: string, steps: seq<Step>)
    requires var s := Exec(channel, steps); multiset(s.deliveries) == multiset(CommittedPositions(s.b))
    ensures var s := Exec(channel, steps);
      && s.c.residual == 0
      && |s.c.seen| == |CommittedPositions(s.b)| >= s.p.sent
  {
    hide Exec, CommittedPositions, LogInvariant, StampInvariant;
    var s := Exec(channel, steps);
    InvariantHolds(channel, steps);
    assert |s.deliveries| == |multiset(s.deliveries)| == |CommittedPositions(s.b)|;
    forall i
      ensures i in Delivered(s.deliveries) <==> i in CommittedPositions(s.b)
    {
      assert i in s.deliveries <==> i in multiset(s.deliveries);
    }
    assert Delivered(s.deliveries) == CommittedPositions(s.b);
  }
}
