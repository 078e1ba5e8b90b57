/**
 The ring buffers behind the rates: a 30-slot window whose running total is the number of
 records since the 30th most recent tick, and a 10-slot window whose peak is a tenth of the
 largest sum it ever held at a tick.
 */
module RateWindows {
  import opened Helpers

  datatype Event = Recorded | Ticked

  /** How many records came after the n-th most recent tick; all of them if there were fewer ticks. */
  function RecordsSince(h: seq<Event>, n: nat): nat {
    if h == [] || n == 0 then 0
    else if Last(h) == Recorded then RecordsSince(Front(h), n) + 1
    else RecordsSince(Front(h), n - 1)
  }

  function Ticks(h: seq<Event>): nat {
    if h == [] then 0 else Ticks(Front(h)) + if Last(h) == Ticked then 1 else 0
  }

  /** The records of the k-th slot back, where slot 0 began at the most recent tick. */
  function SlotBack(h: seq<Event>, k: nat): nat {
    if h == [] then 0
    else if Last(h) == Recorded then SlotBack(Front(h), k) + if k == 0 then 1 else 0
    else if k == 0 then 0
    else SlotBack(Front(h), k - 1)
  }

  lemma {:induction false} OneMoreSlot(h: seq<Event>, n: nat)
    ensures RecordsSince(h, n + 1) == RecordsSince(h, n) + SlotBack(h, n)
  {
    if h != [] {
      if Last(h) == Recorded {
        OneMoreSlot(Front(h), n);
      } else if n > 0 {
        OneMoreSlot(Front(h), n - 1);
      }
    }
  }

  lemma {:induction false} TicksAreCounted(h: seq<Event>)
    ensures Ticks(h) == multiset(h)[Ticked]
  {
    if h != [] {
      TicksAreCounted(Front(h));
      assert h == Front(h) + [Last(h)];
    }
  }

  /** The records since the n-th most recent tick are those in what follows it. */
  lemma {:induction false} RecordsSinceTick(before: seq<Event>, after: seq<Event>, n: nat)
    requires multiset(after)[Ticked] + 1 == n
    ensures RecordsSince(before + [Ticked] + after, n) == multiset(after)[Recorded]
    decreases |after|
  {
    var h := before + [Ticked] + after;
    if after == [] {
      assert Front(h) == before;
    } else {
      assert after == Front(after) + [Last(after)] && Front(h) == before + [Ticked] + Front(after);
      RecordsSinceTick(before, Front(after), if Last(after) == Ticked then n - 1 else n);
    }
  }

  /** With fewer ticks they are all the records. */
  lemma {:induction false} RecordsSinceStart(h: seq<Event>, n: nat)
    requires multiset(h)[Ticked] < n
    ensures RecordsSince(h, n) == multiset(h)[Recorded]
  {
    if h != [] {
      assert h == Front(h) + [Last(h)];
      RecordsSinceStart(Front(h), if Last(h) == Ticked then n - 1 else n);
    }
  }

  // ---------- The ring ----------

  function Sum(buckets: seq<int>): int {
    if buckets == [] then 0 else Sum(buckets[..|buckets| - 1]) + buckets[|buckets| - 1]
  }

  lemma {:induction false} SumUpdate(buckets: seq<int>, i: nat, x: int)
    requires i < |buckets|
    ensures Sum(buckets[i := x]) == Sum(buckets) - buckets[i] + x
  {
    var last := |buckets| - 1;
    if i < last {
      assert buckets[i := x][..last] == buckets[..last][i := x];
      SumUpdate(buckets[..last], i, x);
    } else {
      assert buckets[i := x][..last] == buckets[..last];
    }
  }

  /** The bucket that holds the k-th slot back. */
  function BucketOf(n: nat, idx: nat, k: nat): (bucket: nat)
    requires idx < n && k < n
    ensures bucket < n
  {
    if k <= idx then idx - k else idx + n - k
  }

  /** The buckets hold the last |buckets| slots of the history, the current one at idx. */
  ghost predicate Holds(buckets: seq<int>, idx: nat, h: seq<Event>) {
    && idx < |buckets|
    && (forall k | 0 <= k < |buckets| :: buckets[BucketOf(|buckets|, idx, k)] == SlotBack(h, k))
    && Sum(buckets) == RecordsSince(h, |buckets|)
  }

  lemma {:induction false} ZerosSumToZero(buckets: seq<int>)
    requires forall i | 0 <= i < |buckets| :: buckets[i] == 0
    ensures Sum(buckets) == 0
  {
    if buckets != [] {
      ZerosSumToZero(buckets[..|buckets| - 1]);
    }
  }

  lemma ZerosHoldNothing(buckets: seq<int>)
    requires buckets != [] && forall i | 0 <= i < |buckets| :: buckets[i] == 0
    ensures Holds(buckets, 0, [])
  {
    ZerosSumToZero(buckets);
  }

  lemma RecordHolds(buckets: seq<int>, idx: nat, h: seq<Event>)
    requires Holds(buckets, idx, h)
    ensures Holds(buckets[idx := buckets[idx] + 1], idx, h + [Recorded])
  {
    assert Front(h + [Recorded]) == h;
    SumUpdate(buckets, idx, buckets[idx] + 1);
    var buckets' := buckets[idx := buckets[idx] + 1];
    forall k | 0 <= k < |buckets|
      ensures buckets'[BucketOf(|buckets|, idx, k)] == SlotBack(h + [Recorded], k)
    {
      assert buckets[BucketOf(|buckets|, idx, k)] == SlotBack(h, k);
    }
  }

  function NextBucket(n: nat, idx: nat): nat
    requires idx < n
  {
    (idx + 1) % n
  }

  /** The next bucket holds the oldest slot; every other slot moves one back. */
  lemma NextIsOldest(n: nat, idx: nat)
    requires idx < n
    ensures NextBucket(n, idx) < n && NextBucket(n, idx) == BucketOf(n, idx, n - 1)
    ensures BucketOf(n, NextBucket(n, idx), 0) == NextBucket(n, idx)
    ensures forall k | 0 < k < n ::
      BucketOf(n, NextBucket(n, idx), k) == BucketOf(n, idx, k - 1) != NextBucket(n, idx)
  {
  }

  lemma TickHolds(buckets: seq<int>, idx: nat, h: seq<Event>)
    requires Holds(buckets, idx, h)
    ensures var next := NextBucket(|buckets|, idx);
      && next < |buckets| && buckets[next] == SlotBack(h, |buckets| - 1)
      && Holds(buckets[next := 0], next, h + [Ticked])
  {
    hide BucketOf, NextBucket, Sum;
    var n, next := |buckets|, NextBucket(|buckets|, idx);
    NextIsOldest(n, idx);
    assert Front(h + [Ticked]) == h;
    SumUpdate(buckets, next, 0);
    OneMoreSlot(h, n - 1);
    forall k | 0 <= k < n
      ensures buckets[next := 0][BucketOf(n, next, k)] == SlotBack(h + [Ticked], k)
    {
      if k > 0 {
        assert buckets[BucketOf(n, idx, k - 1)] == SlotBack(h, k - 1);
      }
    }
  }

  // ---------- The sliding rate window ----------

  const SLIDING_WINDOW_SIZE := 30

  class SlidingRateWindow {
    const buckets: array<int>
    var idx: nat
    var total: int
    var ticks: nat
    ghost var history: seq<Event>

    ghost predicate Valid()
      reads this, buckets
    {
      && buckets.Length == SLIDING_WINDOW_SIZE
      && Holds(buckets[..], idx, history)
      && total == Sum(buckets[..])
      && ticks == Ticks(history)
    }

    constructor ()
      ensures Valid() && history == [] && fresh(buckets)
    {
      buckets := new int[SLIDING_WINDOW_SIZE](_ => 0);
      idx, total, ticks := 0, 0, 0;
      history := [];
      new;
      ZerosHoldNothing(buckets[..]);
    }

    method Record()
      requires Valid()
      modifies this, buckets
      ensures Valid() && history == old(history) + [Recorded]
      ensures total == RecordsSince(history, SLIDING_WINDOW_SIZE)
    {
      hide SlotBack, RecordsSince, Sum;
      ghost var was := buckets[..];
      RecordHolds(was, idx, history);
      assert Front(history + [Recorded]) == history;
      buckets[idx] := buckets[idx] + 1;
      assert buckets[..] == was[idx := was[idx] + 1];
      SumUpdate(was, idx, was[idx] + 1);
      total := total + 1;
      history := history + [Recorded];
    }

    method Advance()
      requires Valid()
      modifies this, buckets
      ensures Valid() && history == old(history) + [Ticked]
      ensures total == RecordsSince(history, SLIDING_WINDOW_SIZE)
    {
      hide SlotBack, RecordsSince, Sum;
      ghost var was := buckets[..];
      TickHolds(was, idx, history);
      assert Front(history + [Ticked]) == history;
      idx := (idx + 1) % SLIDING_WINDOW_SIZE;
      total := total - buckets[idx];
      buckets[idx] := 0;
      assert buckets[..] == was[idx := 0];
      SumUpdate(was, idx, 0);
      ticks := ticks + 1;
      history := history + [Ticked];
    }

    /** The records per tick over the ticks that the window spans. */
    method Rate() returns (rate: real)
      requires Valid()
      ensures var ticked := multiset(history)[Ticked];
        rate == if ticked == 0 then 0.0
                else RecordsSince(history, 30) as real / (if ticked < 30 then ticked else 30) as real
    {
      hide SlotBack, RecordsSince, Sum, Ticks;
      TicksAreCounted(history);
      var window := ticks;
      if window > SLIDING_WINDOW_SIZE {
        window := SLIDING_WINDOW_SIZE;
      }
      if window == 0 {
        return 0.0;
      }
      return total as real / window as real;
    }

    method Reset()
      requires Valid()
      modifies this, buckets
      ensures Valid() && history == []
    {
      for i := 0 to buckets.Length
        invariant forall j | 0 <= j < i :: buckets[j] == 0
      {
        buckets[i] := 0;
      }
      total, idx, ticks := 0, 0, 0;
      history := [];
      ZerosHoldNothing(buckets[..]);
    }
  }

  // ---------- The peak rate ----------

  const PEAK_WINDOW_SIZE := 10

  /** The largest number of records that the peak window held at a tick. */
  function PeakSum(h: seq<Event>): nat {
    if h == [] then 0
    else
      var before := PeakSum(Front(h));
      var now := RecordsSince(Front(h), PEAK_WINDOW_SIZE);
      if Last(h) == Ticked && now > before then now else before
  }

  /** PeakSum bounds the window at every tick, and some tick reaches it unless it is 0. */
  lemma {:induction false} PeakSumMeaning(h: seq<Event>)
    ensures forall i | 0 <= i < |h| && h[i] == Ticked :: RecordsSince(h[..i], PEAK_WINDOW_SIZE) <= PeakSum(h)
    ensures PeakSum(h) > 0 ==>
      exists i :: 0 <= i < |h| && h[i] == Ticked && RecordsSince(h[..i], PEAK_WINDOW_SIZE) == PeakSum(h)
  {
    hide RecordsSince;
    if h != [] {
      var front := Front(h);
      PeakSumMeaning(front);
      forall i | 0 <= i < |h| && h[i] == Ticked
        ensures RecordsSince(h[..i], PEAK_WINDOW_SIZE) <= PeakSum(h)
      {
        assert i < |front| ==> front[i] == Ticked && front[..i] == h[..i];
      }
      if PeakSum(h) > 0 {
        if PeakSum(h) == PeakSum(front) {
          var i :| 0 <= i < |front| && front[i] == Ticked && RecordsSince(front[..i], PEAK_WINDOW_SIZE) == PeakSum(h);
          assert h[i] == Ticked && front[..i] == h[..i];
        } else {
          assert h[..|h| - 1] == front;
        }
      }
    }
  }

  lemma PeakSumAfter(h: seq<Event>)
    ensures PeakSum(h + [Recorded]) == PeakSum(h)
    ensures PeakSum(h + [Ticked]) ==
      if RecordsSince(h, PEAK_WINDOW_SIZE) > PeakSum(h) then RecordsSince(h, PEAK_WINDOW_SIZE) else PeakSum(h)
  {
    hide RecordsSince;
    assert Front(h + [Recorded]) == h && Front(h + [Ticked]) == h;
  }

  lemma TenthsCompare(a: int, b: int)
    ensures a as real / PEAK_WINDOW_SIZE as real > b as real / PEAK_WINDOW_SIZE as real <==> a > b
  {
  }

  class PeakRateTracker {
    const buckets: array<int>
    var idx: nat
    var peak: real
    ghost var history: seq<Event>

    ghost predicate Valid()
      reads this, buckets
    {
      && buckets.Length == PEAK_WINDOW_SIZE
      && Holds(buckets[..], idx, history)
      && peak == PeakSum(history) as real / PEAK_WINDOW_SIZE as real
    }

    constructor ()
      ensures Valid() && history == [] && fresh(buckets)
    {
      buckets := new int[PEAK_WINDOW_SIZE](_ => 0);
      idx, peak := 0, 0.0;
      history := [];
      new;
      ZerosHoldNothing(buckets[..]);
    }

    method Record()
      requires Valid()
      modifies buckets, this`history
      ensures Valid() && history == old(history) + [Recorded] && peak == old(peak)
    {
      hide SlotBack, RecordsSince, Sum, PeakSum;
      ghost var was := buckets[..];
      RecordHolds(was, idx, history);
      PeakSumAfter(history);
      buckets[idx] := buckets[idx] + 1;
      assert buckets[..] == was[idx := was[idx] + 1];
      history := history + [Recorded];
    }

    method Advance()
      requires Valid()
      modifies this, buckets
      ensures Valid() && history == old(history) + [Ticked]
      ensures var now := RecordsSince(old(history), 10) as real / 10.0;
        peak == if now > old(peak) then now else old(peak)
    {
      hide SlotBack, RecordsSince, Sum, PeakSum, BucketOf;
      ghost var was := buckets[..];
      TickHolds(was, idx, history);
      PeakSumAfter(history);
      var total := Total();
      TenthsCompare(total, PeakSum(history));
      var avg := total as real / PEAK_WINDOW_SIZE as real;
      if avg > peak {
        peak := avg;
      }
      idx := (idx + 1) % PEAK_WINDOW_SIZE;
      buckets[idx] := 0;
      assert buckets[..] == was[idx := 0];
      history := history + [Ticked];
    }

    /** A tenth of the largest number of records since the 10th most recent tick that any tick has found. */
    method Peak() returns (r: real)
      requires Valid()
      ensures r == peak
      ensures forall i | 0 <= i < |history| && history[i] == Ticked ::
        RecordsSince(history[..i], 10) as real <= r * 10.0
      ensures r == 0.0 || exists i ::
        0 <= i < |history| && history[i] == Ticked && RecordsSince(history[..i], 10) as real == r * 10.0
    {
      hide RecordsSince, PeakSum, Holds;
      PeakSumMeaning(history);
      return peak;
    }

    method Total() returns (total: int)
      ensures total == Sum(buckets[..])
    {
      total := 0;
      for i := 0 to buckets.Length
        invariant total == Sum(buckets[..i])
      {
        assert buckets[..i + 1][..i] == buckets[..i];
        total := total + buckets[i];
      }
      assert buckets[..buckets.Length] == buckets[..];
    }
  }
}
