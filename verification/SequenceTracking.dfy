/**
 The sequence tracker on values: one producer's state, what one arrival does to it,
 and what holds after every run.

 The source keeps the sequences seen above the watermark as a bitset that is shifted
 each time the watermark moves.  Here they are kept as the set `ahead` of the sequences
 themselves, so that moving the watermark is dropping the members it passed.  Modules
 `ProducerStates` and `Trackers` prove that the bitset is this set.
 */
module SequenceTracking {
  import opened Helpers

  // A sequence number is an unsigned 64-bit integer.
  type Sequence = s: nat | s < TWO_TO_THE_64

  /** What one producer's counters, watermark, window and pending losses hold. */
  datatype Producer = Producer(
    high: Sequence,        // highContiguous
    ahead: set<Sequence>,  // the set bits of the window
    received: nat,
    duplicates: nat,
    outOfOrder: nat,
    confirmedLost: nat,
    pending: set<Sequence>,
    lastSeen: Sequence)

  /** The branches of Record. */
  datatype Outcome = Recovered | Stale | Slid | Repeated | Marked

  function Classify(w: nat, p: Producer, s: Sequence): Outcome {
    if s <= p.high then
      if s in p.pending then Recovered else Stale
    else if s - p.high - 1 >= w then Slid
    else if s in p.ahead then Repeated
    else Marked
  }

  predicate IsDuplicate(o: Outcome) { o == Stale || o == Repeated }

  /** The first arrival of a producer: it becomes the watermark. */
  function First(s: Sequence): Producer {
    Producer(s, {}, 1, 0, 0, 0, {}, s)
  }

  /** The watermark after it has passed the run of members of `ahead` right above it. */
  function Watermark(high: int, ahead: set<Sequence>): (r: int)
    requires -1 <= high < TWO_TO_THE_64
    ensures high <= r < TWO_TO_THE_64
    decreases |ahead|
  {
    if high + 1 in ahead then Watermark(high + 1, ahead - {high + 1}) else high
  }

  function Above(xs: set<Sequence>, high: int): set<Sequence> {
    set x | x in xs && x > high
  }

  /** The state after the watermark was moved to `high` and then advanced. */
  function Advanced(p: Producer, high: Sequence, ahead: set<Sequence>): Producer {
    var high' := Watermark(high, ahead);
    p.(high := high', ahead := Above(ahead, high'))
  }

  predicate Within(lo: int, x: int, hi: int) { lo <= x <= hi }

  /** All the sequences from lo to hi. */
  function Interval(lo: int, hi: int): set<Sequence> {
    set x: Sequence | Within(lo, x, hi)
  }

  function SlideTarget(w: nat, s: Sequence): int { s - w - 1 }

  /** How far the window slides: the distance the watermark moves, capped at w. */
  function SlideDistance(w: nat, high: Sequence, s: Sequence): int {
    var dist := SlideTarget(w, s) - high;
    if dist > w then w else dist
  }

  /** The sequences that a slide evicts without their ever having been marked. */
  function Evicted(w: nat, high: Sequence, ahead: set<Sequence>, s: Sequence): set<Sequence> {
    Interval(high + 1, high + SlideDistance(w, high, s)) - ahead
  }

  function Slide(w: nat, p: Producer, s: Sequence): Producer
    requires s > p.high + w
  {
    var target: Sequence := SlideTarget(w, s);
    if target <= p.high then p
    else
      var pending := p.pending + Evicted(w, p.high, p.ahead, s);
      Advanced(p.(pending := pending, confirmedLost := |pending|), target, Above(p.ahead, target))
  }

  /** What every arrival after the first does, whichever branch it takes. */
  function Counted(p: Producer, s: Sequence): Producer {
    p.(received := p.received + 1,
       outOfOrder := p.outOfOrder + (if s < p.lastSeen then 1 else 0),
       lastSeen := s)
  }

  /** What the branch that an arrival takes does to the counted state. */
  function Branch(w: nat, o: Outcome, p: Producer, s: Sequence): Producer
    requires o == Classify(w, p, s)
  {
    match o
    case Recovered => p.(pending := p.pending - {s}, confirmedLost := |p.pending - {s}|)
    case Stale => p.(duplicates := p.duplicates + 1)
    case Slid => Slide(w, p, s)
    case Repeated => p.(duplicates := p.duplicates + 1)
    case Marked => Advanced(p, p.high, p.ahead + {s})
  }

  /** What Record leaves behind; its answers are IsDuplicate(Classify(w, p, s)) and s < p.lastSeen. */
  function Record(w: nat, p: Producer, s: Sequence): Producer {
    Branch(w, Classify(w, p, s), Counted(p, s), s)
  }

  // ---------- Runs ----------

  /** The state after a non-empty run of arrivals. */
  function Run(w: nat, ss: seq<Sequence>): Producer
    requires ss != []
  {
    if |ss| == 1 then First(ss[0]) else Record(w, Run(w, Front(ss)), Last(ss))
  }

  /** Which branch the last arrival of a run takes. */
  function LastOutcome(w: nat, ss: seq<Sequence>): Outcome
    requires |ss| > 1
  {
    Classify(w, Run(w, Front(ss)), Last(ss))
  }

  /** How many arrivals of a run take branch `o`; the first arrival takes none. */
  function Count(w: nat, ss: seq<Sequence>, o: Outcome): nat
    requires ss != []
  {
    if |ss| == 1 then 0 else Count(w, Front(ss), o) + if LastOutcome(w, ss) == o then 1 else 0
  }

  /** The sequences whose arrival was marked in the window, the first arrival included. */
  ghost function MarkedIn(w: nat, ss: seq<Sequence>): set<Sequence>
    requires ss != []
  {
    if |ss| == 1 then {ss[0]}
    else if LastOutcome(w, ss) == Marked then MarkedIn(w, Front(ss)) + {Last(ss)}
    else MarkedIn(w, Front(ss))
  }

  /** The sequences that arrived while they were pending. */
  ghost function RecoveredIn(w: nat, ss: seq<Sequence>): set<Sequence>
    requires ss != []
  {
    if |ss| == 1 then {}
    else if LastOutcome(w, ss) == Recovered then RecoveredIn(w, Front(ss)) + {Last(ss)}
    else RecoveredIn(w, Front(ss))
  }

  /** The sequences the watermark jumped over because the slide distance is capped at w. */
  ghost function SkippedIn(w: nat, ss: seq<Sequence>): set<Sequence>
    requires ss != []
  {
    if |ss| == 1 then {}
    else if LastOutcome(w, ss) == Slid then
      SkippedIn(w, Front(ss)) + JumpedOver(w, Run(w, Front(ss)).high, Last(ss))
    else SkippedIn(w, Front(ss))
  }

  ghost function JumpedOver(w: nat, high: Sequence, s: Sequence): set<Sequence> {
    Interval(high + w + 1, SlideTarget(w, s))
  }

  // ---------- The invariant of every run ----------

  /** How the state relates to the run's first arrival and to the three sets above. */
  ghost predicate Consistent(w: nat, p: Producer, base: Sequence,
                             marked: set<Sequence>, recovered: set<Sequence>, skipped: set<Sequence>)
  {
    && base <= p.high
    && (forall x <- marked :: base <= x)
    // bit i is set exactly when high + 1 + i was ever marked; bit 0 is clear; no bit is at w or above
    && p.ahead == Above(marked, p.high)
    && (forall x <- p.ahead :: p.high + 1 < x <= p.high + w)
    // every sequence from the base to the watermark is exactly one of these four things
    && Partition(base, p.high, marked, p.pending, recovered, skipped)
    && p.confirmedLost == |p.pending|
  }

  /** Every sequence from base to high is marked, pending, recovered or skipped, and only one of these;
      the last three hold nothing else. */
  ghost predicate Partition(base: Sequence, high: Sequence,
                            marked: set<Sequence>, pending: set<Sequence>,
                            recovered: set<Sequence>, skipped: set<Sequence>)
  {
    && (forall x: Sequence | base <= x <= high ::
          x in marked || x in pending || x in recovered || x in skipped)
    && (forall x <- pending :: base <= x <= high && x !in marked && x !in recovered && x !in skipped)
    && (forall x <- recovered :: base <= x <= high && x !in marked && x !in skipped)
    && (forall x <- skipped :: base <= x <= high && x !in marked)
  }

  lemma {:induction false} WatermarkEndsTheRun(high: int, ahead: set<Sequence>)
    requires -1 <= high < TWO_TO_THE_64
    ensures forall x: Sequence | high < x <= Watermark(high, ahead) :: x in ahead
    ensures Watermark(high, ahead) + 1 !in ahead
    decreases |ahead|
  {
    if high + 1 in ahead {
      var rest := ahead - {high + 1};
      WatermarkEndsTheRun(high + 1, rest);
      forall x: Sequence | high < x <= Watermark(high, ahead)
        ensures x in ahead
      {
        assert x == high + 1 || x in rest;
      }
    }
  }

  lemma FirstIsConsistent(w: nat, s: Sequence)
    ensures Consistent(w, First(s), s, {s}, {}, {})
  {
  }

  lemma AdvancingIsConsistent(w: nat, p: Producer, base: Sequence, high: Sequence,
                              marked: set<Sequence>, recovered: set<Sequence>, skipped: set<Sequence>)
    requires base <= high && forall x <- marked :: base <= x <= high + w
    requires Partition(base, high, marked, p.pending, recovered, skipped)
    requires p.confirmedLost == |p.pending|
    ensures Consistent(w, Advanced(p, high, Above(marked, high)), base, marked, recovered, skipped)
  {
    var ahead := Above(marked, high);
    WatermarkEndsTheRun(high, ahead);
    forall x: Sequence | base <= x <= Watermark(high, ahead)
      ensures x in marked || x in p.pending || x in recovered || x in skipped
    {
      assert x <= high || x in ahead;
    }
  }

  /** What a slide from `high` to `target` adds to the pending and to the skipped sequences. */
  lemma SlideSplitsInterval(w: nat, high: Sequence, ahead: set<Sequence>, s: Sequence, x: Sequence)
    ensures x in Evicted(w, high, ahead, s) <==> high < x <= high + SlideDistance(w, high, s) && x !in ahead
    ensures x in JumpedOver(w, high, s) <==> high + w < x <= SlideTarget(w, s)
  {
  }

  lemma SlidingPartitions(w: nat, high: Sequence, s: Sequence, base: Sequence, ahead: set<Sequence>,
                          marked: set<Sequence>, pending: set<Sequence>,
                          recovered: set<Sequence>, skipped: set<Sequence>)
    requires Partition(base, high, marked, pending, recovered, skipped)
    requires base <= high < SlideTarget(w, s)
    requires ahead == Above(marked, high) && forall x <- ahead :: x <= high + w
    ensures Partition(base, SlideTarget(w, s), marked, pending + Evicted(w, high, ahead, s),
                      recovered, skipped + JumpedOver(w, high, s))
  {
    var target := SlideTarget(w, s);
    var evicted, jumped := Evicted(w, high, ahead, s), JumpedOver(w, high, s);
    forall x: Sequence
      ensures x in evicted <==> high < x <= high + SlideDistance(w, high, s) && x !in marked
      ensures x in jumped <==> high + w < x <= target
      ensures x in marked ==> x <= high + w
    {
      SlideSplitsInterval(w, high, ahead, s, x);
      assert x in ahead <==> x in marked && x > high;
    }
    hide *;
    CoverAfterSlide(w, high, s, base, marked, pending, evicted, recovered, skipped, jumped);
  }

  lemma CoverAfterSlide(w: nat, high: Sequence, s: Sequence, base: Sequence,
                        marked: set<Sequence>, pending: set<Sequence>, evicted: set<Sequence>,
                        recovered: set<Sequence>, skipped: set<Sequence>, jumped: set<Sequence>)
    requires Partition(base, high, marked, pending, recovered, skipped)
    requires base <= high < SlideTarget(w, s)
    requires forall x: Sequence ::
      x in evicted <==> high < x <= high + SlideDistance(w, high, s) && x !in marked
    requires forall x: Sequence :: x in jumped <==> high + w < x <= SlideTarget(w, s)
    requires forall x <- marked :: x <= high + w
    ensures Partition(base, SlideTarget(w, s), marked, pending + evicted, recovered, skipped + jumped)
  {
    forall x: Sequence | base <= x <= SlideTarget(w, s)
      ensures x in marked || x in pending + evicted || x in recovered || x in skipped + jumped
    {
      assert x <= high || x in marked || x in evicted || x in jumped;
    }
  }

  lemma SlidingIsConsistent(w: nat, p: Producer, s: Sequence, base: Sequence,
                            marked: set<Sequence>, recovered: set<Sequence>, skipped: set<Sequence>)
    requires Consistent(w, p, base, marked, recovered, skipped)
    requires Classify(w, p, s) == Slid
    ensures Consistent(w, Record(w, p, s), base, marked, recovered, skipped + JumpedOver(w, p.high, s))
  {
    var target := SlideTarget(w, s);
    if target > p.high {
      var pending := p.pending + Evicted(w, p.high, p.ahead, s);
      assert forall x <- marked :: x <= p.high || x in p.ahead;
      assert Above(p.ahead, target) == Above(marked, target);
      SlidingPartitions(w, p.high, s, base, p.ahead, marked, p.pending, recovered, skipped);
      AdvancingIsConsistent(w, Counted(p, s).(pending := pending, confirmedLost := |pending|), base, target,
                            marked, recovered, skipped + JumpedOver(w, p.high, s));
    } else {
      assert JumpedOver(w, p.high, s) == {};
    }
  }

  lemma RecoveringIsConsistent(w: nat, p: Producer, s: Sequence, base: Sequence,
                               marked: set<Sequence>, recovered: set<Sequence>, skipped: set<Sequence>)
    requires Consistent(w, p, base, marked, recovered, skipped)
    requires Classify(w, p, s) == Recovered
    ensures Consistent(w, Record(w, p, s), base, marked, recovered + {s}, skipped)
  {
  }

  lemma RepeatingIsConsistent(w: nat, p: Producer, s: Sequence, base: Sequence,
                              marked: set<Sequence>, recovered: set<Sequence>, skipped: set<Sequence>)
    requires Consistent(w, p, base, marked, recovered, skipped)
    requires IsDuplicate(Classify(w, p, s))
    ensures Consistent(w, Record(w, p, s), base, marked, recovered, skipped)
  {
  }

  lemma MarkingIsConsistent(w: nat, p: Producer, s: Sequence, base: Sequence,
                            marked: set<Sequence>, recovered: set<Sequence>, skipped: set<Sequence>)
    requires Consistent(w, p, base, marked, recovered, skipped)
    requires Classify(w, p, s) == Marked
    ensures Consistent(w, Record(w, p, s), base, marked + {s}, recovered, skipped)
  {
    assert Above(marked + {s}, p.high) == p.ahead + {s};
    assert forall x <- marked :: x <= p.high || x in p.ahead;
    AdvancingIsConsistent(w, Counted(p, s), base, p.high, marked + {s}, recovered, skipped);
  }

  lemma RecordIsConsistent(w: nat, p: Producer, s: Sequence, base: Sequence,
                           marked: set<Sequence>, recovered: set<Sequence>, skipped: set<Sequence>)
    requires Consistent(w, p, base, marked, recovered, skipped)
    ensures var o := Classify(w, p, s);
      Consistent(w, Record(w, p, s), base,
                 if o == Marked then marked + {s} else marked,
                 if o == Recovered then recovered + {s} else recovered,
                 if o == Slid then skipped + JumpedOver(w, p.high, s) else skipped)
  {
    match Classify(w, p, s)
    case Recovered => RecoveringIsConsistent(w, p, s, base, marked, recovered, skipped);
    case Stale => RepeatingIsConsistent(w, p, s, base, marked, recovered, skipped);
    case Repeated => RepeatingIsConsistent(w, p, s, base, marked, recovered, skipped);
    case Marked => MarkingIsConsistent(w, p, s, base, marked, recovered, skipped);
    case Slid => SlidingIsConsistent(w, p, s, base, marked, recovered, skipped);
  }

  /** The invariant of every run. */
  lemma {:induction false} RunIsConsistent(w: nat, ss: seq<Sequence>)
    requires ss != []
    ensures Consistent(w, Run(w, ss), ss[0], MarkedIn(w, ss), RecoveredIn(w, ss), SkippedIn(w, ss))
  {
    if |ss| == 1 {
      FirstIsConsistent(w, ss[0]);
    } else {
      var before := Front(ss);
      RunIsConsistent(w, before);
      RecordIsConsistent(w, Run(w, before), Last(ss), ss[0],
                         MarkedIn(w, before), RecoveredIn(w, before), SkippedIn(w, before));
    }
  }
}
