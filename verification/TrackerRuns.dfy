/**
 The whole tracker on values: producers by name, gap detection, and the totals.  Each
 producer is isolated from the others, what gap detection streams is bounded by what was
 lost, and every total is the sum over the producers run on their own.
 */
module TrackerRuns {
  import opened Helpers
  import opened SequenceTracking
  import opened TrackingLaws

  datatype Event = Arrive(id: string, s: Sequence) | Detect

  /** A producer with the loss it last reported. */
  datatype Entry = Entry(producer: Producer, reported: nat)

  type Producers = map<string, Entry>

  function Step(w: nat, ps: Producers, e: Event): Producers {
    match e
    case Arrive(id, s) =>
      if id in ps then ps[id := ps[id].(producer := Record(w, ps[id].producer, s))]
      else ps[id := Entry(First(s), 0)]
    case Detect => map id | id in ps :: ps[id].(reported := ps[id].producer.confirmedLost)
  }

  function RunAll(w: nat, es: seq<Event>): Producers {
    if es == [] then map[] else Step(w, RunAll(w, Front(es)), Last(es))
  }

  lemma RunAllSnoc(w: nat, es: seq<Event>, e: Event)
    ensures RunAll(w, es + [e]) == Step(w, RunAll(w, es), e)
  {
    assert Front(es + [e]) == es;
  }

  /** A gap detection changes nothing but the last reports. */
  lemma DetectReports(w: nat, es: seq<Event>)
    ensures var ps, ps' := RunAll(w, es), RunAll(w, es + [Detect]);
      ps'.Keys == ps.Keys && forall id <- ps :: ps'[id] == Entry(ps[id].producer, ps[id].producer.confirmedLost)
  {
    hide Record, RunAll;
    RunAllSnoc(w, es, Detect);
  }

  /** What a gap detection returns: the producers whose loss grew, with the growth. */
  function Deltas(ps: Producers): map<string, nat> {
    map id | id in ps && ps[id].producer.confirmedLost > ps[id].reported ::
      ps[id].producer.confirmedLost - ps[id].reported
  }

  lemma DeltasAreGrowth(ps: Producers)
    ensures Deltas(ps).Keys <= ps.Keys
    ensures forall id <- ps ::
      var lost, reported := ps[id].producer.confirmedLost, ps[id].reported;
      (id in Deltas(ps) <==> lost > reported) && (id in Deltas(ps) ==> Deltas(ps)[id] == lost - reported)
  {
  }

  lemma NoDeltas(ps: Producers)
    ensures Deltas(ps) - ps.Keys == map[] && Deltas(ps) - {} == Deltas(ps)
  {
  }

  /** Visiting one more producer adds its delta, when it has one. */
  lemma DeltasOfOneMore(ps: Producers, todo: set<string>, id: string)
    requires id in ps && id in todo
    ensures var lost, reported := ps[id].producer.confirmedLost, ps[id].reported;
      Deltas(ps) - (todo - {id}) ==
        if lost > reported then (Deltas(ps) - todo)[id := lost - reported] else Deltas(ps) - todo
  {
  }

  /** The arrivals of one producer, in order. */
  function Arrivals(es: seq<Event>, id: string): seq<Sequence> {
    if es == [] then []
    else if Last(es).Arrive? && Last(es).id == id then Arrivals(Front(es), id) + [Last(es).s]
    else Arrivals(Front(es), id)
  }

  // ---------- Isolation ----------

  /** Whatever the other producers do, each producer's state is that of its own arrivals alone. */
  lemma {:induction false} ProducersAreIsolated(w: nat, es: seq<Event>, id: string)
    ensures id in RunAll(w, es) <==> Arrivals(es, id) != []
    ensures id in RunAll(w, es) ==> RunAll(w, es)[id].producer == Run(w, Arrivals(es, id))
  {
    hide Record;
    if es != [] {
      var before := Front(es);
      ProducersAreIsolated(w, before, id);
      if Last(es).Arrive? && Last(es).id == id && id in RunAll(w, before) {
        RunSnoc(w, Arrivals(before, id), Last(es).s);
      }
    }
  }

  /** And so are its answers: two interleavings that give a producer the same arrivals classify its
      next arrival alike. */
  lemma AnswersAreIsolated(w: nat, es: seq<Event>, fs: seq<Event>, id: string, s: Sequence)
    requires Arrivals(es, id) == Arrivals(fs, id)
    ensures id in RunAll(w, es) <==> id in RunAll(w, fs)
    ensures id in RunAll(w, es) ==>
      var p, q := RunAll(w, es)[id].producer, RunAll(w, fs)[id].producer;
      Classify(w, p, s) == Classify(w, q, s) && (s < p.lastSeen <==> s < q.lastSeen)
  {
    ProducersAreIsolated(w, es, id);
    ProducersAreIsolated(w, fs, id);
  }

  // ---------- Streamed losses ----------

  /** The sum of the deltas that gap detection has returned for one producer. */
  function Emitted(w: nat, es: seq<Event>, id: string): nat {
    if es == [] then 0
    else
      var before := RunAll(w, Front(es));
      Emitted(w, Front(es), id) + if Last(es).Detect? && id in Deltas(before) then Deltas(before)[id] else 0
  }

  lemma RecoveredBounds(w: nat, ss: seq<Sequence>)
    requires ss != []
    ensures |EvictedIn(w, ss)| == Run(w, ss).confirmedLost + |RecoveredIn(w, ss)|
  {
    hide Record;
    EvictedIsPendingOrRecovered(w, ss);
    RunIsConsistent(w, ss);
    DisjointSizes(Run(w, ss).pending, RecoveredIn(w, ss));
  }

  lemma HistorySizesGrow(w: nat, ss: seq<Sequence>, s: Sequence)
    requires ss != []
    ensures |RecoveredIn(w, ss)| <= |RecoveredIn(w, ss + [s])|
    ensures |EvictedIn(w, ss)| <= |EvictedIn(w, ss + [s])|
  {
    hide Record, Evicted;
    assert Front(ss + [s]) == ss;
    SubsetIsNoLarger(RecoveredIn(w, ss), RecoveredIn(w, ss + [s]));
    SubsetIsNoLarger(EvictedIn(w, ss), EvictedIn(w, ss + [s]));
  }

  /** The streamed sum lies between the loss last reported and that loss plus the recovered sequences,
      and never exceeds the number of sequences that were ever pending. */
  lemma {:induction false} StreamedLossBounds(w: nat, es: seq<Event>, id: string)
    requires Arrivals(es, id) != []
    ensures id in RunAll(w, es)
    ensures var reported, ss := RunAll(w, es)[id].reported, Arrivals(es, id);
      reported <= Emitted(w, es, id) <= reported + |RecoveredIn(w, ss)| &&
      Emitted(w, es, id) <= |EvictedIn(w, ss)|
    decreases |es|
  {
    hide Record, RecoveredIn, EvictedIn;
    ProducersAreIsolated(w, es, id);
    var before := Front(es);
    if Arrivals(before, id) == [] {
      ProducersAreIsolated(w, before, id);
      NothingEmittedBeforeArrival(w, before, id);
    } else {
      StreamedLossBounds(w, before, id);
      if Arrivals(es, id) != Arrivals(before, id) {
        HistorySizesGrow(w, Arrivals(before, id), Last(es).s);
      }
      ProducersAreIsolated(w, before, id);
      RecoveredBounds(w, Arrivals(before, id));
    }
  }

  lemma {:induction false} NothingEmittedBeforeArrival(w: nat, es: seq<Event>, id: string)
    requires Arrivals(es, id) == []
    ensures Emitted(w, es, id) == 0
  {
    if es != [] {
      NothingEmittedBeforeArrival(w, Front(es), id);
      ProducersAreIsolated(w, Front(es), id);
    }
  }

  /** Right after a gap detection the streamed sum is the confirmed loss when nothing was recovered, and
      otherwise exceeds it by at most the recovered sequences. */
  lemma StreamedLossAfterDetect(w: nat, es: seq<Event>, id: string)
    requires es != [] && Last(es).Detect? && Arrivals(es, id) != []
    ensures var lost, recovered := Run(w, Arrivals(es, id)).confirmedLost, RecoveredIn(w, Arrivals(es, id));
      lost <= Emitted(w, es, id) <= lost + |recovered| &&
      (recovered == {} ==> Emitted(w, es, id) == lost)
  {
    hide Record;
    StreamedLossBounds(w, es, id);
    ProducersAreIsolated(w, Front(es), id);
  }

  // ---------- Totals ----------

  datatype Counter = Received | Duplicates | Lost | OutOfOrder

  function Value(p: Producer, c: Counter): nat {
    match c
    case Received => p.received
    case Duplicates => p.duplicates
    case Lost => p.confirmedLost
    case OutOfOrder => p.outOfOrder
  }

  function Values(ps: Producers, c: Counter): map<string, nat> {
    map id | id in ps :: Value(ps[id].producer, c)
  }

  ghost function Total(ps: Producers, c: Counter): nat {
    SumOf(Values(ps, c))
  }

  lemma SumUpdate(m: map<string, nat>, id: string, n: nat)
    ensures SumOf(m[id := n]) == SumOf(m - {id}) + n
    ensures id !in m ==> SumOf(m[id := n]) == SumOf(m) + n
    ensures id in m ==> SumOf(m[id := n]) == SumOf(m) - m[id] + n
  {
    assert m[id := n] - {id} == m - {id};
    SumWithout(m[id := n], id);
    if id in m {
      SumWithout(m, id);
    } else {
      assert m - {id} == m;
    }
  }

  function ArrivalCount(es: seq<Event>): nat {
    if es == [] then 0 else ArrivalCount(Front(es)) + if Last(es).Arrive? then 1 else 0
  }

  /** Each total is the sum over the producers, each run on its own arrivals. */
  lemma TotalsAreSumsOfIsolatedRuns(w: nat, es: seq<Event>, c: Counter, alone: map<string, nat>)
    requires alone.Keys == RunAll(w, es).Keys
    requires forall id <- alone :: Arrivals(es, id) != [] ==> alone[id] == Value(Run(w, Arrivals(es, id)), c)
    ensures Total(RunAll(w, es), c) == SumOf(alone)
  {
    hide Record, Value;
    forall id | id in RunAll(w, es)
      ensures Values(RunAll(w, es), c)[id] == alone[id]
    {
      ProducersAreIsolated(w, es, id);
    }
    assert Values(RunAll(w, es), c) == alone;
  }

  lemma RecordReceives(w: nat, p: Producer, s: Sequence)
    ensures Record(w, p, s).received == p.received + 1
  {
  }

  /** Every arrival is counted by exactly one producer. */
  lemma {:induction false} TotalReceivedIsArrivals(w: nat, es: seq<Event>)
    ensures Total(RunAll(w, es), Received) == ArrivalCount(es)
  {
    hide Record;
    if es != [] {
      var ps, ps' := RunAll(w, Front(es)), RunAll(w, es);
      TotalReceivedIsArrivals(w, Front(es));
      match Last(es)
      case Arrive(id, s) =>
        if id in ps {
          RecordReceives(w, ps[id].producer, s);
        }
        assert Values(ps', Received) == Values(ps, Received)[id := ps'[id].producer.received];
        SumUpdate(Values(ps, Received), id, ps'[id].producer.received);
      case Detect =>
        assert Values(ps', Received) == Values(ps, Received);
    }
  }

  /** How often the tracker has called an arrival a duplicate. */
  function DuplicatesAnswered(w: nat, es: seq<Event>): nat {
    if es == [] then 0
    else
      var before := DuplicatesAnswered(w, Front(es));
      match Last(es)
      case Arrive(id, s) =>
        var alone := Arrivals(Front(es), id);
        if alone != [] && IsDuplicate(Classify(w, Run(w, alone), s)) then before + 1 else before
      case Detect => before
  }

  lemma RecordCountsDuplicate(w: nat, p: Producer, s: Sequence)
    ensures Record(w, p, s).duplicates == p.duplicates + if IsDuplicate(Classify(w, p, s)) then 1 else 0
  {
  }

  /** The total of duplicates is the number of arrivals answered as duplicates. */
  lemma {:induction false} TotalDuplicatesIsAnswers(w: nat, es: seq<Event>)
    ensures Total(RunAll(w, es), Duplicates) == DuplicatesAnswered(w, es)
  {
    hide Record, Classify, IsDuplicate, Run;
    if es != [] {
      var ps, ps' := RunAll(w, Front(es)), RunAll(w, es);
      TotalDuplicatesIsAnswers(w, Front(es));
      match Last(es)
      case Arrive(id, s) =>
        ProducersAreIsolated(w, Front(es), id);
        if id in ps {
          RecordCountsDuplicate(w, ps[id].producer, s);
        }
        assert Values(ps', Duplicates) == Values(ps, Duplicates)[id := ps'[id].producer.duplicates];
        SumUpdate(Values(ps, Duplicates), id, ps'[id].producer.duplicates);
      case Detect =>
        assert Values(ps', Duplicates) == Values(ps, Duplicates);
    }
  }

  /** The total loss is the sum of the sizes of the pending sets. */
  lemma TotalLostIsPending(w: nat, es: seq<Event>)
    ensures var ps := RunAll(w, es);
      Total(ps, Lost) == SumOf(map id | id in ps :: |ps[id].producer.pending|)
  {
    hide Record, RunAll, Run;
    var ps := RunAll(w, es);
    forall id | id in ps
      ensures ps[id].producer.confirmedLost == |ps[id].producer.pending|
    {
      ProducersAreIsolated(w, es, id);
      PendingMeaning(w, Arrivals(es, id));
    }
    assert Values(ps, Lost) == map id | id in ps :: |ps[id].producer.pending|;
  }

  function DescentsOf(es: seq<Event>, ids: set<string>): map<string, nat> {
    map id | id in ids :: Descents(Arrivals(es, id))
  }

  /** The total out of order is the sum of the descents in each producer's arrivals. */
  lemma TotalOutOfOrderIsDescents(w: nat, es: seq<Event>)
    ensures var ps := RunAll(w, es);
      Total(ps, OutOfOrder) == SumOf(DescentsOf(es, ps.Keys))
  {
    hide Record, RunAll, Run;
    var ps := RunAll(w, es);
    forall id | id in ps
      ensures ps[id].producer.outOfOrder == Descents(Arrivals(es, id))
    {
      ProducersAreIsolated(w, es, id);
      EveryArrivalIsSeen(w, Arrivals(es, id));
    }
    assert Values(ps, OutOfOrder) == DescentsOf(es, ps.Keys);
  }
}
