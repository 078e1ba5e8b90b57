/**
 What a run of the sequence tracker means: which arrivals are called duplicates, which
 sequences are pending as lost, what the counters add up to, and when the answers are exact.
 */
module TrackingLaws {
  import opened Helpers
  import opened SequenceTracking

  // ---------- Sets and sequences ----------

  ghost function Elements(ss: seq<Sequence>): set<Sequence> {
    set x | x in ss
  }

  lemma FrontAndLast(ss: seq<Sequence>)
    requires ss != []
    ensures forall x :: x in ss <==> x in Front(ss) || x == Last(ss)
  {
    assert ss == Front(ss) + [Last(ss)];
  }

  lemma IntervalSize(lo: Sequence, hi: Sequence)
    requires lo <= hi
    ensures |Interval(lo, hi)| == hi - lo + 1
  {
    var r := IntervalOf(lo, hi + 1);
    assert Interval(lo, hi) == r;
  }

  // ---------- What a duplicate is ----------

  /** An arrival is reported as a duplicate exactly when its sequence lies below the first arrival, or
      was marked, recovered or skipped before; it clears a pending loss exactly when it is pending. */
  lemma DuplicateMeaning(w: nat, before: seq<Sequence>, s: Sequence)
    requires before != []
    ensures var p := Run(w, before);
      IsDuplicate(Classify(w, p, s)) <==>
        s < before[0] || s in MarkedIn(w, before) || s in RecoveredIn(w, before) || s in SkippedIn(w, before)
    ensures Classify(w, Run(w, before), s) == Recovered <==> s in Run(w, before).pending
  {
    RunIsConsistent(w, before);
    assert s in MarkedIn(w, before) ==> s <= Run(w, before).high || s in Run(w, before).ahead;
  }

  // ---------- What a pending loss is ----------

  /** All the sequences the window ever evicted unmarked. */
  ghost function EvictedIn(w: nat, ss: seq<Sequence>): set<Sequence>
    requires ss != []
  {
    if |ss| == 1 then {}
    else if LastOutcome(w, ss) == Slid then
      var p := Run(w, Front(ss));
      EvictedIn(w, Front(ss)) + Evicted(w, p.high, p.ahead, Last(ss))
    else EvictedIn(w, Front(ss))
  }

  /** The pending losses are the sequences from the first arrival to the watermark that were
      not marked, not recovered and not skipped. */
  lemma PendingMeaning(w: nat, ss: seq<Sequence>)
    requires ss != []
    ensures Run(w, ss).pending ==
      Interval(ss[0], Run(w, ss).high) - MarkedIn(w, ss) - RecoveredIn(w, ss) - SkippedIn(w, ss)
    ensures Run(w, ss).confirmedLost == |Run(w, ss).pending|
  {
    RunIsConsistent(w, ss);
  }

  lemma RecordChangesPending(w: nat, p: Producer, s: Sequence)
    ensures Record(w, p, s).pending ==
      match Classify(w, p, s)
      case Recovered => p.pending - {s}
      case Slid => p.pending + Evicted(w, p.high, p.ahead, s)
      case _ => p.pending
  {
    if Classify(w, p, s) == Slid && SlideTarget(w, s) <= p.high {
      assert Evicted(w, p.high, p.ahead, s) == {};
    }
  }

  lemma {:induction false} EvictedIsPendingOrRecovered(w: nat, ss: seq<Sequence>)
    requires ss != []
    ensures EvictedIn(w, ss) == Run(w, ss).pending + RecoveredIn(w, ss)
  {
    hide Record;
    if |ss| > 1 {
      EvictedIsPendingOrRecovered(w, Front(ss));
      RecordChangesPending(w, Run(w, Front(ss)), Last(ss));
    }
  }

  /** They are also the evicted sequences not redelivered since; no marked sequence is ever evicted. */
  lemma PendingIsEvictedNotRecovered(w: nat, ss: seq<Sequence>)
    requires ss != []
    ensures Run(w, ss).pending == EvictedIn(w, ss) - RecoveredIn(w, ss)
    ensures RecoveredIn(w, ss) <= EvictedIn(w, ss) && EvictedIn(w, ss) !! MarkedIn(w, ss)
  {
    hide Record;
    RunIsConsistent(w, ss);
    EvictedIsPendingOrRecovered(w, ss);
  }

  /** The slide skips nothing exactly when the arrival is at most 2w + 1 above the watermark. */
  lemma SkipsNothingIff(w: nat, p: Producer, s: Sequence)
    requires Classify(w, p, s) == Slid
    ensures JumpedOver(w, p.high, s) == {} <==> s <= p.high + 2 * w + 1
  {
    if s > p.high + 2 * w + 1 {
      var x: Sequence := p.high + w + 1;
      assert x in JumpedOver(w, p.high, s);
    }
  }

  /** No slide of the run jumps further than 2w + 1 above the watermark it finds. */
  ghost predicate JumpsAreShort(w: nat, ss: seq<Sequence>)
    requires ss != []
  {
    |ss| == 1 || (JumpsAreShort(w, Front(ss)) && Last(ss) <= Run(w, Front(ss)).high + 2 * w + 1)
  }

  /** The capped distance hides nothing exactly when no arrival jumps further than 2w + 1. */
  lemma {:induction false} NothingSkippedIff(w: nat, ss: seq<Sequence>)
    requires ss != []
    ensures SkippedIn(w, ss) == {} <==> JumpsAreShort(w, ss)
  {
    hide Record;
    if |ss| > 1 {
      NothingSkippedIff(w, Front(ss));
      if LastOutcome(w, ss) == Slid {
        SkipsNothingIff(w, Run(w, Front(ss)), Last(ss));
      }
    }
  }

  /** The arrival that makes the window slide is itself not marked, not pending and still above the
      watermark; when it is exactly w above the next expected sequence nothing moves at all. */
  lemma SlideTriggerIsForgotten(w: nat, before: seq<Sequence>, s: Sequence)
    requires before != [] && Classify(w, Run(w, before), s) == Slid
    ensures var p, q := Run(w, before), Record(w, Run(w, before), s);
      && s > q.high && s !in q.ahead && s !in q.pending
      && (s == p.high + 1 + w ==> q == Counted(p, s))
  {
    AheadIsNear(w, before);
    RunIsConsistent(w, before);
    UnmarkedBlocksWatermark(w, Run(w, before), s, s);
  }

  // ---------- Conservation ----------

  /** How many arrivals have a smaller sequence than the arrival just before them. */
  function Descents(ss: seq<Sequence>): nat {
    if |ss| < 2 then 0 else Descents(Front(ss)) + if Last(ss) < Last(Front(ss)) then 1 else 0
  }

  lemma {:induction false} CountersFollowArrivals(w: nat, ss: seq<Sequence>)
    requires ss != []
    ensures var p := Run(w, ss);
      p.received == |ss| && p.lastSeen == Last(ss) && p.outOfOrder == Descents(ss)
  {
    if |ss| > 1 {
      CountersFollowArrivals(w, Front(ss));
    }
  }

  predicate FallsAt(ss: seq<Sequence>, k: int) { 0 < k < |ss| && ss[k] < ss[k - 1] }

  ghost function Falls(ss: seq<Sequence>): set<int> {
    set k | 0 <= k < |ss| && FallsAt(ss, k)
  }

  lemma FallsOfFront(ss: seq<Sequence>, k: int)
    requires |ss| > 1
    ensures FallsAt(ss, k) <==> FallsAt(Front(ss), k) || (k == |ss| - 1 && Last(ss) < Last(Front(ss)))
  {
  }

  lemma FallsAreInside(ss: seq<Sequence>)
    ensures forall k <- Falls(ss) :: 0 <= k < |ss|
  {
  }

  lemma {:induction false} DescentsAreFalls(ss: seq<Sequence>)
    ensures Descents(ss) == |Falls(ss)|
  {
    if |ss| < 2 {
      assert Falls(ss) == {};
    } else {
      var front := Front(ss);
      DescentsAreFalls(front);
      forall k
        ensures k in Falls(ss) <==> k in Falls(front) || (k == |ss| - 1 && Last(ss) < Last(front))
      {
        FallsOfFront(ss, k);
      }
      hide Falls;
      assert Falls(ss) == Falls(front) + if Last(ss) < Last(front) then {|ss| - 1} else {};
      assert |ss| - 1 !in Falls(front) by {
        FallsAreInside(front);
      }
    }
  }

  /** After every run the tracker has counted every arrival, and as out of order those below the one before. */
  lemma EveryArrivalIsSeen(w: nat, ss: seq<Sequence>)
    requires ss != []
    ensures var p := Run(w, ss);
      p.received == |ss| && p.lastSeen == Last(ss) && p.outOfOrder == Descents(ss) == |Falls(ss)|
  {
    hide Run, Falls;
    CountersFollowArrivals(w, ss);
    DescentsAreFalls(ss);
  }

  lemma {:induction false} OutcomesAddUp(w: nat, ss: seq<Sequence>)
    requires ss != []
    ensures |ss| == 1 + Count(w, ss, Marked) + Count(w, ss, Recovered) + Count(w, ss, Stale)
                    + Count(w, ss, Repeated) + Count(w, ss, Slid)
    ensures Run(w, ss).duplicates == Count(w, ss, Stale) + Count(w, ss, Repeated)
  {
    if |ss| > 1 {
      OutcomesAddUp(w, Front(ss));
    }
  }

  /** No sequence is marked twice or recovered twice. */
  lemma {:induction false} HistoryCounts(w: nat, ss: seq<Sequence>)
    requires ss != []
    ensures |MarkedIn(w, ss)| == 1 + Count(w, ss, Marked)
    ensures |RecoveredIn(w, ss)| == Count(w, ss, Recovered)
  {
    if |ss| > 1 {
      HistoryCounts(w, Front(ss));
      DuplicateMeaning(w, Front(ss), Last(ss));
      if LastOutcome(w, ss) == Recovered {
        RunIsConsistent(w, Front(ss));
      }
    }
  }

  /** Every arrival is counted once: as marked, recovered, duplicate or the trigger of a slide. */
  lemma ArrivalsAreConserved(w: nat, ss: seq<Sequence>)
    requires ss != []
    ensures Run(w, ss).received == |ss|
    ensures Run(w, ss).received ==
      |MarkedIn(w, ss)| + |RecoveredIn(w, ss)| + Run(w, ss).duplicates + Count(w, ss, Slid)
  {
    EveryArrivalIsSeen(w, ss);
    OutcomesAddUp(w, ss);
    HistoryCounts(w, ss);
  }

  lemma DisjointSizes(a: set<Sequence>, b: set<Sequence>)
    requires a !! b
    ensures |a + b| == |a| + |b|
  {
  }

  lemma PartitionSizes(base: Sequence, high: Sequence, below: set<Sequence>, pending: set<Sequence>,
                       recovered: set<Sequence>, skipped: set<Sequence>)
    requires base <= high && Partition(base, high, below, pending, recovered, skipped)
    requires forall x <- below :: base <= x <= high
    ensures high - base + 1 == |below| + |pending| + |recovered| + |skipped|
  {
    IntervalSize(base, high);
    assert Interval(base, high) == below + (pending + (recovered + skipped));
    DisjointSizes(below, pending + (recovered + skipped));
    DisjointSizes(pending, recovered + skipped);
    DisjointSizes(recovered, skipped);
  }

  /** From the first arrival to the watermark every sequence is marked, pending, recovered or skipped,
      so the four counts add up to the length of that interval. */
  lemma WatermarkIsConserved(w: nat, ss: seq<Sequence>)
    requires ss != []
    ensures var p := Run(w, ss);
      p.high - ss[0] + 1 ==
        |MarkedIn(w, ss) - p.ahead| + p.confirmedLost + |RecoveredIn(w, ss)| + |SkippedIn(w, ss)|
  {
    RunIsConsistent(w, ss);
    var p := Run(w, ss);
    PartitionSizes(ss[0], p.high, MarkedIn(w, ss) - p.ahead, p.pending, RecoveredIn(w, ss), SkippedIn(w, ss));
  }

  // ---------- Which received sequences can be lost ----------

  lemma {:induction false} HistoryGrows(w: nat, ss: seq<Sequence>, tt: seq<Sequence>)
    requires ss != []
    ensures MarkedIn(w, ss) <= MarkedIn(w, ss + tt)
    ensures RecoveredIn(w, ss) <= RecoveredIn(w, ss + tt)
    ensures SkippedIn(w, ss) <= SkippedIn(w, ss + tt)
    decreases |tt|
  {
    if tt == [] {
      assert ss + tt == ss;
    } else {
      HistoryGrows(w, ss, Front(tt));
      assert Front(ss + tt) == ss + Front(tt);
    }
  }

  /** A sequence once marked, recovered or skipped, or below the first arrival, is pending in no
      continuation of the run. */
  lemma SettledStaysSettled(w: nat, ss: seq<Sequence>, tt: seq<Sequence>, x: Sequence)
    requires ss != []
    requires x < ss[0] || x in MarkedIn(w, ss) || x in RecoveredIn(w, ss) || x in SkippedIn(w, ss)
    ensures x !in Run(w, ss + tt).pending
  {
    HistoryGrows(w, ss, tt);
    RunIsConsistent(w, ss + tt);
  }

  lemma RunSnoc(w: nat, ss: seq<Sequence>, s: Sequence)
    requires ss != []
    ensures Run(w, ss + [s]) == Record(w, Run(w, ss), s)
  {
    assert Front(ss + [s]) == ss;
  }

  lemma WatermarkStopsBelow(high: Sequence, ahead: set<Sequence>, x: Sequence)
    requires high < x && x !in ahead
    ensures Watermark(high, ahead) < x
  {
    WatermarkEndsTheRun(high, ahead);
  }

  /** A sequence that is not marked stays above the watermark while no slide passes it. */
  lemma UnmarkedBlocksWatermark(w: nat, p: Producer, s: Sequence, x: Sequence)
    requires p.high < x && x !in p.ahead
    requires s != x || Classify(w, p, s) == Slid
    requires SlideTarget(w, s) < x
    ensures var q := Record(w, p, s);
      && p.high <= q.high < x && x !in q.ahead
      && (Classify(w, p, s) == Slid ==> SlideTarget(w, s) <= q.high)
  {
    match Classify(w, p, s)
    case Recovered =>
    case Stale =>
    case Repeated =>
    case Marked =>
      WatermarkStopsBelow(p.high, p.ahead + {s}, x);
      WatermarkEndsTheRun(p.high, p.ahead + {s});
    case Slid =>
      var target := SlideTarget(w, s);
      if target > p.high {
        WatermarkStopsBelow(target, Above(p.ahead, target), x);
        WatermarkEndsTheRun(target, Above(p.ahead, target));
      }
  }

  lemma AheadIsNear(w: nat, ss: seq<Sequence>)
    requires ss != []
    ensures var p := Run(w, ss); forall x <- p.ahead :: p.high + 1 < x <= p.high + w
  {
    RunIsConsistent(w, ss);
  }

  /** Sequence x is unmarked and at most `dist` above a watermark that it blocks. */
  ghost predicate Blocks(p: Producer, x: Sequence, dist: nat) {
    p.high < x <= p.high + dist && x !in p.ahead
  }

  lemma SlideTriggerBlocks(w: nat, before: seq<Sequence>, s: Sequence)
    requires before != [] && Classify(w, Run(w, before), s) == Slid
    ensures Blocks(Run(w, before + [s]), s, w + 1)
  {
    AheadIsNear(w, before);
    RunSnoc(w, before, s);
    UnmarkedBlocksWatermark(w, Run(w, before), s, s);
  }

  lemma NextArrivalKeepsBlock(w: nat, p: Producer, x: Sequence)
    requires w > 0 && x + 1 < TWO_TO_THE_64 && Blocks(p, x, w + 1)
    ensures Blocks(Record(w, p, x + 1), x, w)
  {
    UnmarkedBlocksWatermark(w, p, x + 1, x);
  }

  lemma FarArrivalEvicts(w: nat, p: Producer, x: Sequence)
    requires x + w + 1 < TWO_TO_THE_64 && Blocks(p, x, w)
    ensures x in Record(w, p, x + w + 1).pending
  {
    assert SlideDistance(w, p.high, x + w + 1) == x - p.high;
    assert x in Evicted(w, p.high, p.ahead, x + w + 1);
  }

  lemma TwoArrivalsEvict(w: nat, ss: seq<Sequence>, x: Sequence)
    requires ss != [] && w > 0 && x + w + 1 < TWO_TO_THE_64 && Blocks(Run(w, ss), x, w + 1)
    ensures x in Run(w, ss + [x + 1, x + w + 1]).pending
  {
    hide Record;
    var next := ss + [x + 1];
    assert Blocks(Run(w, next), x, w) by {
      RunSnoc(w, ss, x + 1);
      NextArrivalKeepsBlock(w, Run(w, ss), x);
    }
    assert next + [x + w + 1] == ss + [x + 1, x + w + 1];
    RunSnoc(w, next, x + w + 1);
    FarArrivalEvicts(w, Run(w, next), x);
  }

  /** A received sequence that triggered a slide can be counted as lost two arrivals later. */
  lemma SlideTriggerCanBeLost(w: nat, before: seq<Sequence>, s: Sequence)
    requires before != [] && w > 0 && s + w + 1 < TWO_TO_THE_64
    requires Classify(w, Run(w, before), s) == Slid
    ensures s in Run(w, before + [s] + [s + 1, s + w + 1]).pending
  {
    SlideTriggerBlocks(w, before, s);
    TwoArrivalsEvict(w, before + [s], s);
  }

  /** Only an arrival more than w above a sequence evicts it, so the last w + 1 sequences are never lost. */
  lemma {:induction false} LastSequencesAreNeverLost(w: nat, ss: seq<Sequence>, x: Sequence)
    requires ss != [] && x + w + 1 >= TWO_TO_THE_64
    ensures x !in Run(w, ss).pending
  {
    hide Record;
    if |ss| > 1 {
      LastSequencesAreNeverLost(w, Front(ss), x);
      RecordChangesPending(w, Run(w, Front(ss)), Last(ss));
    }
  }

  /** The sequence of an arrival is safe from being counted lost, whatever arrives later, exactly when
      the arrival is at or below the watermark or inside the window above it, or so close to the end of the
      sequences that no later arrival can evict it. */
  lemma ReceivedIsSafeIff(w: nat, before: seq<Sequence>, s: Sequence)
    requires before != [] && w > 0
    ensures (forall tt: seq<Sequence> :: s !in Run(w, before + [s] + tt).pending)
            <==> s <= Run(w, before).high || s - Run(w, before).high - 1 < w || s + w + 1 >= TWO_TO_THE_64
  {
    var ss := before + [s];
    assert Front(ss) == before && Last(ss) == s;
    if s + w + 1 >= TWO_TO_THE_64 {
      forall tt: seq<Sequence>
        ensures s !in Run(w, ss + tt).pending
      {
        LastSequencesAreNeverLost(w, ss + tt, s);
      }
    } else if Classify(w, Run(w, before), s) == Slid {
      SlideTriggerCanBeLost(w, before, s);
    } else {
      DuplicateMeaning(w, before, s);
      HistoryGrows(w, before, [s]);
      forall tt: seq<Sequence>
        ensures s !in Run(w, ss + tt).pending
      {
        RunIsConsistent(w, before);
        assert s in MarkedIn(w, ss) || s in RecoveredIn(w, ss) || s in SkippedIn(w, ss) || s < ss[0];
        SettledStaysSettled(w, ss, tt, s);
      }
    }
  }

  // ---------- Runs that stay inside the window ----------

  /** Every arrival after the first is at or below the watermark or inside the window above it. */
  ghost predicate StaysInWindow(w: nat, ss: seq<Sequence>)
    requires ss != []
  {
    |ss| == 1 || (StaysInWindow(w, Front(ss)) && LastOutcome(w, ss) != Slid)
  }

  /** In such a run nothing is evicted, so nothing is lost, recovered or skipped. */
  lemma {:induction false} WindowLosesNothing(w: nat, ss: seq<Sequence>)
    requires ss != [] && StaysInWindow(w, ss)
    ensures Run(w, ss).pending == {} && Run(w, ss).confirmedLost == 0
    ensures RecoveredIn(w, ss) == {} && SkippedIn(w, ss) == {} && Count(w, ss, Slid) == 0
  {
    hide Record;
    if |ss| > 1 {
      WindowLosesNothing(w, Front(ss));
      RecordChangesPending(w, Run(w, Front(ss)), Last(ss));
    }
    RunIsConsistent(w, ss);
  }

  /** Each arrival is reported as a duplicate exactly when its sequence came before or lies below the
      first arrival, and the marked sequences are the arrivals from the first one up. */
  lemma {:induction false} WindowMarksArrivals(w: nat, ss: seq<Sequence>)
    requires ss != [] && StaysInWindow(w, ss)
    ensures MarkedIn(w, ss) == set x | x in ss && x >= ss[0]
    ensures |ss| > 1 ==> (IsDuplicate(LastOutcome(w, ss)) <==> Last(ss) in Front(ss) || Last(ss) < ss[0])
  {
    hide Record;
    if |ss| > 1 {
      var before := Front(ss);
      WindowMarksArrivals(w, before);
      WindowLosesNothing(w, before);
      WindowLosesNothing(w, ss);
      DuplicateMeaning(w, before, Last(ss));
      FrontAndLast(ss);
    }
  }

  lemma LosslessIsExact(w: nat, p: Producer, base: Sequence, marked: set<Sequence>)
    requires Consistent(w, p, base, marked, {}, {}) && p.pending == {}
    ensures base <= p.high && p.high + 1 !in marked
    ensures forall x: Sequence | base <= x <= p.high :: x in marked
    ensures p.ahead == Above(marked, p.high)
  {
    assert forall x <- marked :: x <= p.high || x in p.ahead;
  }

  /** The watermark ends the longest gap-free run of received sequences from the first arrival, and the
      window holds exactly the received sequences above it. */
  lemma WindowIsExact(w: nat, ss: seq<Sequence>)
    requires ss != [] && StaysInWindow(w, ss)
    ensures var p := Run(w, ss);
      && ss[0] <= p.high && p.high + 1 !in ss && (forall x: Sequence | ss[0] <= x <= p.high :: x in ss)
      && p.ahead == set x | x in ss && x > p.high
  {
    hide Record;
    WindowLosesNothing(w, ss);
    WindowMarksArrivals(w, ss);
    RunIsConsistent(w, ss);
    var p, marked := Run(w, ss), MarkedIn(w, ss);
    LosslessIsExact(w, p, ss[0], marked);
    forall x: Sequence | ss[0] <= x <= p.high
      ensures x in ss
    {
      assert x in marked;
    }
  }
}
