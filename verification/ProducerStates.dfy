/**
 One producer's state as the tracker keeps it: a watermark and a bitset of the offsets
 seen above it, both changed in place, with the counters and the pending losses.
 */
module ProducerStates {
  import opened Bitset
  import opened Helpers
  import opened SequenceTracking

  /** The unsigned 64-bit value of an integer. */
  function Wrap(x: int): Sequence { x % TWO_TO_THE_64 }

  /** How many words hold a window of w bits. */
  function WordCount(w: nat): (n: nat)
    ensures w <= 64 * n < w + 64
  {
    (w + 63) / 64
  }

  lemma WrapIncrement(x: int)
    ensures Wrap(Wrap(x) + 1) == Wrap(x + 1)
  {
  }

  lemma WrapSmall(s: Sequence)
    ensures Wrap(s) == s
  {
  }

  /** Bit i of the words says whether sequence high + 1 + i is ahead, and nothing else is ahead. */
  ghost predicate Represents(words: seq<bv64>, high: int, ahead: set<Sequence>) {
    && (forall q | 0 <= q < 64 * |words| :: IsSet(words, q) <==> high + 1 + q in ahead)
    && (forall x <- ahead :: high < x <= high + 64 * |words|)
  }

  /** Shifting every bit down by one represents the same set seen from one sequence higher. */
  lemma ShiftRepresents(words: seq<bv64>, shifted: seq<bv64>, high: int, ahead: set<Sequence>)
    requires Represents(words, high, ahead) && |shifted| == |words|
    requires forall q | 0 <= q < 64 * |words| ::
      IsSet(shifted, q) == (q + 1 < 64 * |words| && IsSet(words, q + 1))
    ensures Represents(shifted, high + 1, Above(ahead, high + 1))
  {
    hide IsSet;
    forall q | 0 <= q < 64 * |words|
      ensures IsSet(shifted, q) <==> high + 1 + 1 + q in Above(ahead, high + 1)
    {
      assert q + 1 < 64 * |words| ==> (IsSet(words, q + 1) <==> high + 1 + (q + 1) in ahead);
    }
  }

  lemma SetRepresents(words: seq<bv64>, words': seq<bv64>, high: int, ahead: set<Sequence>, s: Sequence)
    requires Represents(words, high, ahead) && |words'| == |words|
    requires 0 <= s - high - 1 < 64 * |words|
    requires forall q | 0 <= q < 64 * |words| :: IsSet(words', q) == (q == s - high - 1 || IsSet(words, q))
    ensures Represents(words', high, ahead + {s})
  {
    hide IsSet;
    forall q | 0 <= q < 64 * |words|
      ensures IsSet(words', q) <==> high + 1 + q in ahead + {s}
    {
    }
  }

  lemma LowestBit(words: seq<bv64>, high: int, ahead: set<Sequence>)
    requires |words| > 0 && Represents(words, high, ahead)
    ensures IsSet(words, 0) <==> high + 1 in ahead
  {
    hide IsSet;
  }

  /** What one turn of the advance does to the set above the watermark. */
  lemma PassLowest(high: int, ahead: set<Sequence>, all: set<Sequence>)
    requires -1 <= high < TWO_TO_THE_64 && high + 1 in ahead && ahead == Above(all, high)
    ensures Above(ahead, high + 1) == ahead - {high + 1} == Above(all, high + 1)
    ensures Watermark(high, ahead) == Watermark(high + 1, ahead - {high + 1})
  {
  }

  lemma PassFirst(s: Sequence)
    ensures Watermark(s - 1, {s}) == s && Above({s}, s) == {} && {} + {s} == {s}
  {
    assert Watermark(s - 1, {s}) == Watermark(s, {});
  }

  lemma StopAtClear(high: int, ahead: set<Sequence>)
    requires -1 <= high < TWO_TO_THE_64 && high + 1 !in ahead
    ensures Watermark(high, ahead) == high
  {
  }

  lemma AllAbove(words: seq<bv64>, high: int, ahead: set<Sequence>)
    requires Represents(words, high, ahead)
    ensures Above(ahead, high) == ahead
  {
    hide IsSet;
  }

  lemma EmptyRepresents(words: seq<bv64>, high: int, high': int)
    requires Represents(words, high, {})
    ensures Represents(words, high', {})
  {
    hide IsSet;
  }

  lemma AboveAbove(ahead: set<Sequence>, low: int, high: int)
    requires low <= high
    ensures Above(Above(ahead, low), high) == Above(ahead, high)
  {
  }

  lemma AboveIsSubset(ahead: set<Sequence>, high: int)
    ensures Above(ahead, high) <= ahead && forall x <- Above(ahead, high) :: x > high
  {
  }

  /** The bit of a sequence in the window. */
  lemma OffsetBit(words: seq<bv64>, high: int, ahead: set<Sequence>, s: Sequence)
    requires Represents(words, high, ahead) && 0 <= s - high - 1 < 64 * |words|
    ensures IsSet(words, s - high - 1) <==> s in ahead
  {
    hide IsSet;
    assert high + 1 + (s - high - 1) == s;
  }

  /** Shifting by the capped distance leaves what shifting by the true distance would leave. */
  lemma CappedShift(ahead: set<Sequence>, high: int, w: nat, newHigh: int)
    requires high < newHigh && forall x <- ahead :: x <= high + w
    ensures newHigh - high > w ==> Above(ahead, high + w) == Above(ahead, newHigh) == {}
  {
  }

  lemma IntervalGrows(lo: int, hi: int)
    requires lo <= hi + 1 < TWO_TO_THE_64 && lo >= 0
    ensures Interval(lo, hi + 1) == Interval(lo, hi) + {hi + 1}
  {
  }

  lemma IntervalIsEmpty(lo: int, hi: int)
    requires lo > hi
    ensures Interval(lo, hi) == {}
  {
  }

  /** An arrival is counted first and takes its branch then. */
  lemma CountedThenBranch(w: nat, p: Producer, s: Sequence)
    ensures Classify(w, Counted(p, s), s) == Classify(w, p, s)
    ensures Record(w, p, s) == Branch(w, Classify(w, p, s), Counted(p, s), s)
  {
  }

  /** What the branches at or below the watermark, and those above it, do. */
  lemma BranchBelow(w: nat, p: Producer, s: Sequence)
    requires s <= p.high
    ensures var o := Classify(w, p, s);
      && o == (if s in p.pending then Recovered else Stale)
      && Branch(w, o, p, s) ==
           if s in p.pending then p.(pending := p.pending - {s}, confirmedLost := |p.pending - {s}|)
           else p.(duplicates := p.duplicates + 1)
  {
  }

  lemma BranchAbove(w: nat, p: Producer, s: Sequence)
    requires s > p.high
    ensures var o := Classify(w, p, s);
      && o == (if s - p.high - 1 >= w then Slid else if s in p.ahead then Repeated else Marked)
      && Branch(w, o, p, s) ==
           if s - p.high - 1 >= w then Slide(w, p, s)
           else if s in p.ahead then p.(duplicates := p.duplicates + 1)
           else Advanced(p, p.high, p.ahead + {s})
  {
  }

  /** A slide in its two cases; the advance sets the watermark and the window whatever they were. */
  lemma SlideCases(w: nat, p: Producer, s: Sequence, q: Producer)
    requires s > p.high + w
    ensures SlideTarget(w, s) <= p.high ==> Slide(w, p, s) == p
    ensures SlideTarget(w, s) > p.high
      && q == p.(high := SlideTarget(w, s), ahead := Above(p.ahead, SlideTarget(w, s)),
                 pending := p.pending + Evicted(w, p.high, p.ahead, s),
                 confirmedLost := |p.pending + Evicted(w, p.high, p.ahead, s)|)
      ==> Slide(w, p, s) == Advanced(q, q.high, q.ahead)
  {
    hide Watermark, Above, Evicted;
  }

  class ProducerState {
    var highContiguous: Sequence
    const window: array<bv64>
    var received: nat
    var duplicates: nat
    var outOfOrder: nat
    var confirmedLost: nat
    var pendingLost: set<Sequence>
    var lastReportedLost: nat
    var lastSeen: Sequence
    ghost var ahead: set<Sequence>

    ghost predicate Valid(reorderWindow: nat)
      reads this, window
    {
      && 64 * window.Length >= reorderWindow
      && Represents(window[..], highContiguous, ahead)
      && (forall x <- ahead :: x <= highContiguous + reorderWindow)
    }

    ghost function State(): Producer
      reads this
    {
      Producer(highContiguous, ahead, received, duplicates, outOfOrder, confirmedLost, pendingLost, lastSeen)
    }

    /** A producer about to take its first arrival: nothing counted, no bit set, and a watermark one
        below that arrival, wrapped around when it is 0. */
    ghost predicate Unstarted(reorderWindow: nat)
      reads this, window
    {
      && reorderWindow <= 64 * window.Length && 0 < window.Length
      && highContiguous == Wrap(lastSeen - 1) && ahead == {} && Represents(window[..], lastSeen - 1, ahead)
      && received == duplicates == outOfOrder == confirmedLost == lastReportedLost == 0 && pendingLost == {}
    }

    constructor (reorderWindow: nat, s: Sequence)
      requires reorderWindow > 0
      ensures Unstarted(reorderWindow) && lastSeen == s && fresh(window)
    {
      highContiguous := Wrap(s - 1);
      window := new bv64[WordCount(reorderWindow)](_ => 0);
      received, duplicates, outOfOrder, confirmedLost := 0, 0, 0, 0;
      pendingLost, lastReportedLost, lastSeen := {}, 0, s;
      ahead := {};
      new;
      ZerosRepresent(window[..], s - 1);
      hide IsSet, Represents, Wrap;
    }

    /** The first arrival: the advance over the first bit moves the watermark up to it. */
    method RecordFirst(reorderWindow: nat)
      requires Unstarted(reorderWindow)
      modifies this`highContiguous, this`received, this`ahead, window
      ensures Valid(reorderWindow) && State() == First(old(lastSeen))
    {
      hide IsSet, Represents, Watermark, Above, Wrap;
      ghost var words := window[..];
      SetBit(window, 0);
      SetRepresents(words, window[..], lastSeen - 1, {}, lastSeen);
      ahead := {lastSeen};
      received := received + 1;
      PassFirst(lastSeen);
      WrapSmall(lastSeen);
      AdvanceContiguous(lastSeen - 1);
    }

    /** Moves the watermark up and the window down while the lowest bit is set.  `high` is the watermark
        before wrap-around. */
    method AdvanceContiguous(ghost high: int)
      requires -1 <= high < TWO_TO_THE_64 && highContiguous == Wrap(high)
      requires window.Length > 0 && Represents(window[..], high, ahead)
      modifies this`highContiguous, this`ahead, window
      ensures highContiguous == Wrap(Watermark(high, old(ahead)))
      ensures ahead == Above(old(ahead), Watermark(high, old(ahead)))
      ensures Represents(window[..], Watermark(high, old(ahead)), ahead)
    {
      hide *;
      ghost var all, h := ahead, high;
      assert Above(all, h) == all by {
        AllAbove(window[..], h, all);
      }
      LowestBit(window[..], h, ahead);
      var more := GetBit(window, 0);
      while more
        invariant -1 <= h < TWO_TO_THE_64 && highContiguous == Wrap(h)
        invariant Represents(window[..], h, ahead)
        invariant ahead == Above(all, h) && Watermark(h, ahead) == Watermark(high, all)
        invariant more <==> h + 1 in ahead
        decreases |ahead|
      {
        ghost var words := window[..];
        PassLowest(h, ahead, all);
        highContiguous := Wrap(highContiguous + 1);
        WrapIncrement(h);
        ShiftLeft(window);
        ShiftRepresents(words, window[..], h, ahead);
        ahead, h := ahead - {h + 1}, h + 1;
        LowestBit(window[..], h, ahead);
        more := GetBit(window, 0);
      }
      StopAtClear(h, ahead);
    }

    /** Record for a producer that has arrived before. */
    method RecordNext(reorderWindow: nat, s: Sequence) returns (isDuplicate: bool, isOutOfOrder: bool)
      requires reorderWindow > 0 && Valid(reorderWindow)
      modifies this, window
      ensures Valid(reorderWindow) && State() == Record(reorderWindow, old(State()), s)
      ensures isDuplicate <==> IsDuplicate(Classify(reorderWindow, old(State()), s))
      ensures isOutOfOrder <==> s < old(lastSeen)
      ensures lastReportedLost == old(lastReportedLost)
    {
      hide IsSet, Represents, Record, Branch, Classify, IsDuplicate;
      CountedThenBranch(reorderWindow, State(), s);
      received := received + 1;
      isOutOfOrder := false;
      if s < lastSeen {
        isOutOfOrder := true;
        outOfOrder := outOfOrder + 1;
      }
      lastSeen := s;
      assert State() == Counted(old(State()), s);
      isDuplicate := RecordCounted(reorderWindow, s);
    }

    /** The branches of Record, after the arrival is counted. */
    method RecordCounted(reorderWindow: nat, s: Sequence) returns (isDuplicate: bool)
      requires reorderWindow > 0 && Valid(reorderWindow)
      modifies this, window
      ensures Valid(reorderWindow)
      ensures State() == Branch(reorderWindow, Classify(reorderWindow, old(State()), s), old(State()), s)
      ensures isDuplicate <==> IsDuplicate(Classify(reorderWindow, old(State()), s))
      ensures lastReportedLost == old(lastReportedLost)
    {
      hide IsSet, Represents, Advanced, Slide, Branch, Classify;
      if s <= highContiguous {
        BranchBelow(reorderWindow, State(), s);
        if s in pendingLost {
          pendingLost := pendingLost - {s};
          confirmedLost := |pendingLost|;
          return false;
        }
        duplicates := duplicates + 1;
        return true;
      }
      isDuplicate := RecordAbove(reorderWindow, s);
    }

    /** The branches above the watermark. */
    method RecordAbove(reorderWindow: nat, s: Sequence) returns (isDuplicate: bool)
      requires reorderWindow > 0 && Valid(reorderWindow) && s > highContiguous
      modifies this, window
      ensures Valid(reorderWindow)
      ensures State() == Branch(reorderWindow, Classify(reorderWindow, old(State()), s), old(State()), s)
      ensures isDuplicate <==> IsDuplicate(Classify(reorderWindow, old(State()), s))
      ensures lastReportedLost == old(lastReportedLost)
    {
      hide IsSet, Represents, Advanced, Slide, Branch, Classify;
      BranchAbove(reorderWindow, State(), s);
      var offset := s - highContiguous - 1;
      if offset >= reorderWindow {
        SlideWindow(reorderWindow, s);
        return false;
      }

      OffsetBit(window[..], highContiguous, ahead, s);
      var seen := GetBit(window, offset);
      if seen {
        duplicates := duplicates + 1;
        return true;
      }
      MarkAt(reorderWindow, s);
      return false;
    }

    /** The growth of the confirmed loss since the last report, which this becomes. */
    method ReportLoss(reorderWindow: nat) returns (delta: nat)
      requires Valid(reorderWindow)
      modifies this`lastReportedLost
      ensures Valid(reorderWindow) && State() == old(State()) && lastReportedLost == State().confirmedLost
      ensures var lost, reported := State().confirmedLost, old(lastReportedLost);
        delta == if lost > reported then lost - reported else 0
    {
      hide Represents;
      delta := 0;
      if confirmedLost > lastReportedLost {
        delta := confirmedLost - lastReportedLost;
      }
      lastReportedLost := confirmedLost;
    }

    /** Sets the bit of a sequence inside the window and advances. */
    method MarkAt(reorderWindow: nat, s: Sequence)
      requires reorderWindow > 0 && Valid(reorderWindow)
      requires highContiguous < s <= highContiguous + reorderWindow
      modifies this`highContiguous, this`ahead, window
      ensures Valid(reorderWindow)
      ensures State() == Advanced(old(State()), old(highContiguous), old(ahead) + {s})
    {
      hide IsSet, Represents, Watermark, Above, Wrap;
      ghost var words := window[..];
      SetBit(window, s - highContiguous - 1);
      SetRepresents(words, window[..], highContiguous, ahead, s);
      ahead := ahead + {s};
      WrapSmall(highContiguous);
      AdvanceFromHere(reorderWindow);
    }

    /** The advance from a watermark that has not wrapped. */
    method AdvanceFromHere(reorderWindow: nat)
      requires reorderWindow > 0 && Valid(reorderWindow)
      modifies this`highContiguous, this`ahead, window
      ensures Valid(reorderWindow) && State() == Advanced(old(State()), old(highContiguous), old(ahead))
    {
      hide IsSet, Represents, Watermark, Above, Wrap;
      WrapSmall(highContiguous);
      WrapSmall(Watermark(highContiguous, ahead));
      AboveIsSubset(ahead, Watermark(highContiguous, ahead));
      AdvanceContiguous(highContiguous);
    }

    /** Moves the window so that `newSeq` lies just past it.  Evicted unmarked sequences become pending
        losses.  Both places that would mark `newSeq` itself are out of reach. */
    method SlideWindow(reorderWindow: nat, newSeq: Sequence)
      requires reorderWindow > 0 && Valid(reorderWindow)
      requires newSeq > highContiguous + reorderWindow
      modifies this`highContiguous, this`ahead, this`pendingLost, this`confirmedLost, window
      ensures Valid(reorderWindow) && State() == Slide(reorderWindow, old(State()), newSeq)
    {
      hide IsSet, Represents, Watermark, Above, Slide, Advanced, Interval;
      ghost var before := State();
      var newHigh := newSeq - reorderWindow - 1;
      SlideCases(reorderWindow, before, newSeq, before);
      if newHigh <= highContiguous {
        var offset := newSeq - highContiguous - 1;
        if offset < reorderWindow {
          assert false;
        }
        return;
      }

      var slideDist := newHigh - highContiguous;
      if slideDist > reorderWindow {
        slideDist := reorderWindow;
      }
      CollectPending(slideDist);
      confirmedLost := |pendingLost|;
      CappedShift(ahead, highContiguous, reorderWindow, newHigh);
      AboveIsSubset(ahead, highContiguous + slideDist);
      ShiftBy(slideDist);
      if slideDist < newHigh - highContiguous {
        EmptyRepresents(window[..], highContiguous + slideDist, newHigh);
      }
      highContiguous := newHigh;

      var offset := newSeq - highContiguous - 1;
      if offset < reorderWindow {
        assert false;
      }
      SlideCases(reorderWindow, before, newSeq, State());
      AdvanceFromHere(reorderWindow);
    }

    /** Adds every unmarked sequence among the lowest `slideDist` of the window to the pending losses. */
    method CollectPending(slideDist: nat)
      requires Represents(window[..], highContiguous, ahead)
      requires slideDist <= 64 * window.Length && highContiguous + slideDist < TWO_TO_THE_64
      modifies this`pendingLost
      ensures pendingLost == old(pendingLost) + (Interval(highContiguous + 1, highContiguous + slideDist) - ahead)
    {
      hide IsSet, Represents, Interval;
      IntervalIsEmpty(highContiguous + 1, highContiguous);
      for i := 0 to slideDist
        invariant pendingLost == old(pendingLost) + (Interval(highContiguous + 1, highContiguous + i) - ahead)
      {
        OffsetBit(window[..], highContiguous, ahead, highContiguous + 1 + i);
        IntervalGrows(highContiguous + 1, highContiguous + i);
        var marked := GetBit(window, i);
        if !marked {
          pendingLost := pendingLost + {highContiguous + 1 + i};
        }
      }
    }

    /** Shifts the window down by `slideDist` positions, one at a time. */
    method ShiftBy(slideDist: nat)
      requires Represents(window[..], highContiguous, ahead)
      modifies this`ahead, window
      ensures ahead == Above(old(ahead), highContiguous + slideDist)
      ensures Represents(window[..], highContiguous + slideDist, ahead)
    {
      hide IsSet, Represents, Above;
      ghost var all := ahead;
      AllAbove(window[..], highContiguous, ahead);
      for i := 0 to slideDist
        invariant ahead == Above(all, highContiguous + i)
        invariant Represents(window[..], highContiguous + i, ahead)
      {
        ghost var words := window[..];
        ShiftLeft(window);
        ShiftRepresents(words, window[..], highContiguous + i, ahead);
        AboveAbove(all, highContiguous + i, highContiguous + i + 1);
        ahead := Above(ahead, highContiguous + i + 1);
      }
    }
  }

  lemma ZerosRepresent(words: seq<bv64>, high: int)
    requires forall i | 0 <= i < |words| :: words[i] == 0
    ensures Represents(words, high, {})
  {
    forall q | 0 <= q < 64 * |words|
      ensures !IsSet(words, q)
    {
      ZeroHasNoBit(q % 64);
    }
  }
}
