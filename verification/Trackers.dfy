/**
 The tracker object: a map from producer names to producer states, changed in place.  Its
 ghost history is the sequence of calls since the last reset, and every answer and total
 is that of the same calls on values.
 */
module Trackers {
  import opened Bitset
  import opened Helpers
  import opened SequenceTracking
  import opened ProducerStates
  import opened TrackerRuns
  import opened TrackingLaws

  /** Everything that producers are made of. */
  ghost function FootprintOf(producers: map<string, ProducerState>): set<object> {
    (set id <- producers :: producers[id] as object) + (set id <- producers :: producers[id].window as object)
  }

  /** No two producers share a part. */
  ghost predicate Separate(producers: map<string, ProducerState>) {
    forall id <- producers, id' <- producers | id != id' ::
      producers[id] != producers[id'] && producers[id].window != producers[id'].window
  }

  /** One more producer of its own parts. */
  lemma OneMoreProducer(producers: map<string, ProducerState>, id: string, p: ProducerState)
    requires id !in producers && Separate(producers)
    requires (p as object) !in FootprintOf(producers) && (p.window as object) !in FootprintOf(producers)
    ensures Separate(producers[id := p])
    ensures FootprintOf(producers[id := p]) == FootprintOf(producers) + {p as object, p.window as object}
  {
    var more := producers[id := p];
    forall id' | id' in producers
      ensures more[id'] == producers[id'] != p && more[id'].window != p.window
    {
      assert producers[id'] as object in FootprintOf(producers);
      assert producers[id'].window as object in FootprintOf(producers);
    }
    assert more[id] == p;
  }

  class Tracker {
    const reorderWindow: nat
    var producers: map<string, ProducerState>
    ghost var events: seq<Event>

    ghost function Footprint(): set<object>
      reads this
    {
      FootprintOf(producers)
    }

    /** Producer `id` is in the state that the history gives it. */
    ghost predicate Matches(id: string, ps: Producers)
      requires id in producers
      reads this, producers[id], producers[id].window
    {
      && producers[id].Valid(reorderWindow)
      && id in ps
      && ps[id] == Entry(producers[id].State(), producers[id].lastReportedLost)
    }

    ghost predicate Valid()
      reads this, Footprint()
    {
      && reorderWindow > 0
      && Separate(producers)
      && producers.Keys == RunAll(reorderWindow, events).Keys
      && (forall id <- producers :: Matches(id, RunAll(reorderWindow, events)))
    }

    constructor (reorderWindow: nat)
      requires reorderWindow > 0
      ensures Valid() && events == [] && producers == map[]
    {
      this.reorderWindow := reorderWindow;
      producers := map[];
      events := [];
    }

    method Record(id: string, s: Sequence) returns (isDuplicate: bool, isOutOfOrder: bool)
      requires Valid()
      modifies this, Footprint()
      ensures Valid() && events == old(events) + [Arrive(id, s)]
      ensures fresh(Footprint() - old(Footprint()))
      ensures var ps := RunAll(reorderWindow, old(events));
        if id in ps then
          && (isDuplicate <==> IsDuplicate(Classify(reorderWindow, ps[id].producer, s)))
          && (isOutOfOrder <==> s < ps[id].producer.lastSeen)
        else !isDuplicate && !isOutOfOrder
    {
      hide SequenceTracking.Record, Classify, IsDuplicate;
      if id !in producers {
        RecordUnknown(id, s);
        return false, false;
      }
      isDuplicate, isOutOfOrder := RecordKnown(id, s);
    }

    method RecordUnknown(id: string, s: Sequence)
      requires Valid() && id !in producers
      modifies this
      ensures Valid() && events == old(events) + [Arrive(id, s)]
      ensures fresh(Footprint() - old(Footprint()))
    {
      hide SequenceTracking.Record, First, RunAll, FootprintOf, Separate, ProducerState.Valid, ProducerState.State;
      ghost var ps := RunAll(reorderWindow, events);
      RunAllSnoc(reorderWindow, events, Arrive(id, s));
      var p := NewProducer(s);
      OneMoreProducer(producers, id, p);
      events := events + [Arrive(id, s)];
      producers := producers[id := p];
      forall id' | id' in producers
        ensures Matches(id', RunAll(reorderWindow, events))
      {
        if id' != id {
          assert old(Matches(id', ps));
        }
      }
    }

    method NewProducer(s: Sequence) returns (p: ProducerState)
      requires reorderWindow > 0
      ensures fresh(p) && fresh(p.window) && p !in Footprint() && p.window !in Footprint()
      ensures p.Valid(reorderWindow) && p.State() == First(s) && p.lastReportedLost == 0
    {
      p := new ProducerState(reorderWindow, s);
      p.RecordFirst(reorderWindow);
    }

    method RecordKnown(id: string, s: Sequence) returns (isDuplicate: bool, isOutOfOrder: bool)
      requires Valid() && id in producers
      modifies this`events, producers[id], producers[id].window
      ensures Valid() && events == old(events) + [Arrive(id, s)]
      ensures var p := RunAll(reorderWindow, old(events))[id].producer;
        && (isDuplicate <==> IsDuplicate(Classify(reorderWindow, p, s)))
        && (isOutOfOrder <==> s < p.lastSeen)
    {
      hide SequenceTracking.Record, Classify, IsDuplicate, RunAll, ProducerState.Valid;
      ghost var ps := RunAll(reorderWindow, events);
      RunAllSnoc(reorderWindow, events, Arrive(id, s));
      assert Matches(id, ps);
      isDuplicate, isOutOfOrder := producers[id].RecordNext(reorderWindow, s);
      events := events + [Arrive(id, s)];
      forall id' | id' in producers
        ensures Matches(id', RunAll(reorderWindow, events))
      {
        if id' != id {
          assert old(Matches(id', ps));
        }
      }
    }

    lemma LossesArePending()
      requires Valid()
      ensures forall id <- producers ::
        var entry := RunAll(reorderWindow, events)[id];
        && entry.producer.confirmedLost == |producers[id].pendingLost|
        && entry.reported == producers[id].lastReportedLost
    {
      hide SequenceTracking.Record, RunAll, FootprintOf, ProducerState.Valid;
      forall id <- producers
        ensures producers[id].confirmedLost == |producers[id].pendingLost|
      {
        assert Matches(id, RunAll(reorderWindow, events));
        ProducersAreIsolated(reorderWindow, events, id);
        PendingMeaning(reorderWindow, Arrivals(events, id));
      }
    }

    /** Reports by how much each producer's confirmed loss grew since the last report. */
    method DetectGaps() returns (deltas: map<string, nat>)
      requires Valid()
      modifies this`events, (set id <- producers :: producers[id])`lastReportedLost
      ensures Valid() && events == old(events) + [Detect]
      ensures deltas == Deltas(RunAll(reorderWindow, old(events)))
      // a delta for each producer whose pending losses outgrew its last report, which they become
      ensures deltas.Keys <= producers.Keys
      ensures forall id <- producers ::
        var lost, reported := |producers[id].pendingLost|, old(producers[id].lastReportedLost);
        && producers[id].pendingLost == old(producers[id].pendingLost) && producers[id].lastReportedLost == lost
        && (id in deltas <==> lost > reported) && (id in deltas ==> deltas[id] == lost - reported)
    {
      hide SequenceTracking.Record, RunAll, Deltas, FootprintOf, ProducerState.Valid, ProducerState.State;
      ghost var ps := RunAll(reorderWindow, events);
      DetectReports(reorderWindow, events);
      LossesArePending();
      DeltasAreGrowth(ps);
      deltas := ReportLosses();
      events := events + [Detect];
      forall id | id in producers
        ensures Matches(id, RunAll(reorderWindow, events))
      {
        assert producers[id].State() == ps[id].producer;
      }
    }

    method ReportLosses() returns (deltas: map<string, nat>)
      requires Valid()
      modifies (set id <- producers :: producers[id])`lastReportedLost
      ensures forall id <- producers ::
        && producers[id].Valid(reorderWindow)
        && producers[id].State() == RunAll(reorderWindow, events)[id].producer
        && producers[id].lastReportedLost == RunAll(reorderWindow, events)[id].producer.confirmedLost
      ensures deltas == Deltas(RunAll(reorderWindow, events))
    {
      hide SequenceTracking.Record, RunAll, Deltas, FootprintOf, ProducerState.Valid, ProducerState.State;
      ghost var ps := RunAll(reorderWindow, events);
      deltas := map[];
      var todo := producers.Keys;
      NoDeltas(ps);
      while todo != {}
        invariant todo <= producers.Keys
        invariant forall id <- producers ::
          producers[id].Valid(reorderWindow) && producers[id].State() == ps[id].producer
        invariant forall id <- producers ::
          producers[id].lastReportedLost == if id in todo then ps[id].reported else ps[id].producer.confirmedLost
        invariant deltas == Deltas(ps) - todo
        decreases todo
      {
        var id :| id in todo;
        DeltasOfOneMore(ps, todo, id);
        var delta := producers[id].ReportLoss(reorderWindow);
        if delta > 0 {
          deltas := deltas[id := delta];
        }
        todo := todo - {id};
      }
    }

    /** After any run of calls, bit i of a producer's window is set exactly when the i-th sequence past the
        next expected one was ever marked; bit 0 is clear, and so is every bit from the window size on. */
    lemma WindowRefinement(id: string, i: nat)
      requires Valid() && id in producers && i < 64 * producers[id].window.Length
      ensures Arrivals(events, id) != []
      ensures var p := producers[id];
        && (IsSet(p.window[..], i) <==>
              p.highContiguous + 1 + i in MarkedIn(reorderWindow, Arrivals(events, id)))
        && (i == 0 || i >= reorderWindow ==> !IsSet(p.window[..], i))
    {
      hide SequenceTracking.Record, IsSet;
      var p, arrivals := producers[id], Arrivals(events, id);
      ProducersAreIsolated(reorderWindow, events, id);
      assert Matches(id, RunAll(reorderWindow, events));
      RunIsConsistent(reorderWindow, arrivals);
      assert p.State() == Run(reorderWindow, arrivals);
      assert IsSet(p.window[..], i) <==> p.highContiguous + 1 + i in p.ahead;
      assert p.ahead == Above(MarkedIn(reorderWindow, arrivals), p.highContiguous);
    }

    /** Forgets everything. */
    method Reset()
      requires Valid()
      modifies this
      ensures Valid() && events == [] && producers == map[]
    {
      producers := map[];
      events := [];
    }

    method Read(id: string, c: Counter) returns (n: nat)
      requires id in producers
      ensures n == Value(producers[id].State(), c)
    {
      var p := producers[id];
      match c
      case Received => n := p.received;
      case Duplicates => n := p.duplicates;
      case Lost => n := p.confirmedLost;
      case OutOfOrder => n := p.outOfOrder;
    }

    /** What each total is, apart from the counters that it adds up. */
    ghost predicate TotalMeans(c: Counter, total: nat)
      reads this, Footprint()
    {
      match c
      case Received => total == ArrivalCount(events)
      case Duplicates => total == DuplicatesAnswered(reorderWindow, events)
      case Lost => total == Helpers.SumOf(map id | id in producers :: |producers[id].pendingLost|)
      case OutOfOrder => total == Helpers.SumOf(DescentsOf(events, producers.Keys))
    }

    lemma TotalsMean(c: Counter)
      requires Valid()
      ensures TotalMeans(c, Total(RunAll(reorderWindow, events), c))
    {
      hide SequenceTracking.Record, RunAll, ArrivalCount, DuplicatesAnswered, DescentsOf;
      hide FootprintOf, ProducerState.Valid;
      var ps := RunAll(reorderWindow, events);
      match c
      case Received => TotalReceivedIsArrivals(reorderWindow, events);
      case Duplicates => TotalDuplicatesIsAnswers(reorderWindow, events);
      case Lost =>
        TotalLostIsPending(reorderWindow, events);
        assert (map id | id in producers :: |producers[id].pendingLost|)
            == (map id | id in ps :: |ps[id].producer.pending|);
      case OutOfOrder =>
        TotalOutOfOrderIsDescents(reorderWindow, events);
    }

    /** Adds one counter up over all producers, in whatever order the map is visited. */
    method SumOf(c: Counter) returns (total: nat)
      requires Valid()
      ensures total == Total(RunAll(reorderWindow, events), c)
      ensures TotalMeans(c, total)
    {
      hide SequenceTracking.Record, RunAll, Value, FootprintOf, ProducerState.Valid, ProducerState.State, TotalMeans;
      ghost var values := Values(RunAll(reorderWindow, events), c);
      total := 0;
      var todo := producers.Keys;
      while todo != {}
        invariant todo <= producers.Keys && values.Keys == todo
        invariant forall id <- todo :: values[id] == Value(producers[id].State(), c)
        invariant total + Helpers.SumOf(values) == Total(RunAll(reorderWindow, events), c)
        decreases todo
      {
        var id :| id in todo;
        SumWithout(values, id);
        var n := Read(id, c);
        total := total + n;
        todo := todo - {id};
        values := values - {id};
      }
      TotalsMean(c);
    }
  }
}
