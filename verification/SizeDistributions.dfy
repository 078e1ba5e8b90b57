/**
 The weighted choice of a message size: a draw below the total weight selects the first
 size whose cumulative weight exceeds it.
 */
module SizeDistributions {
  import opened Helpers

  datatype SizeDistribution = SizeDistribution(sizes: seq<int>, weights: seq<int>, total: int)

  /** The sum of the first i weights. */
  function Cumulative(weights: seq<int>, i: nat): int
    requires i <= |weights|
  {
    if i == 0 then 0 else Cumulative(weights, i - 1) + weights[i - 1]
  }

  function Total(weights: seq<int>): int { Cumulative(weights, |weights|) }

  lemma {:induction false} CumulativeOfPrefix(weights: seq<int>, more: seq<int>, i: nat)
    requires weights <= more && i <= |weights|
    ensures Cumulative(more, i) == Cumulative(weights, i)
  {
    if i > 0 {
      CumulativeOfPrefix(weights, more, i - 1);
    }
  }

  /** What follows the parsing of the text into pairs of a size and a weight.  The total is refused only
      when it is 0. */
  method FromEntries(entries: seq<(int, int)>) returns (d: Option<SizeDistribution>)
    ensures var weights := seq(|entries|, i requires 0 <= i < |entries| => entries[i].1);
      && (d.Some? <==> Total(weights) != 0)
      && (d.Some? ==> d.value.weights == weights && d.value.total == Total(weights) &&
                      d.value.sizes == seq(|entries|, i requires 0 <= i < |entries| => entries[i].0))
  {
    var sizes, weights, total := [], [], 0;
    for k := 0 to |entries|
      invariant |sizes| == |weights| == k
      invariant forall i | 0 <= i < k :: sizes[i] == entries[i].0 && weights[i] == entries[i].1
      invariant total == Total(weights)
    {
      var (size, weight) := entries[k];
      CumulativeOfPrefix(weights, weights + [weight], k);
      sizes, weights, total := sizes + [size], weights + [weight], total + weight;
    }
    assert weights == seq(|entries|, i requires 0 <= i < |entries| => entries[i].1);
    if total == 0 {
      return None;
    }
    return Some(SizeDistribution(sizes, weights, total));
  }

  /** Whether the loop stops at index i, if it gets there. */
  predicate StopsAt(weights: seq<int>, draw: int, i: nat)
    requires i < |weights|
  {
    draw < Cumulative(weights, i + 1)
  }

  /** Index i is the first at which the loop stops. */
  ghost predicate Selects(weights: seq<int>, draw: int, i: nat) {
    i < |weights| && StopsAt(weights, draw, i) && forall k | 0 <= k < i :: !StopsAt(weights, draw, k)
  }

  /** The selected index; the last one when the loop stops nowhere. */
  method SelectIndex(d: SizeDistribution, draw: int) returns (index: nat, fellThrough: bool)
    requires d.weights != []
    ensures !fellThrough ==> Selects(d.weights, draw, index)
    ensures fellThrough ==> index == |d.weights| - 1 && forall k | 0 <= k < |d.weights| :: !StopsAt(d.weights, draw, k)
  {
    var cumulative := 0;
    for i := 0 to |d.weights|
      invariant cumulative == Cumulative(d.weights, i)
      invariant forall k | 0 <= k < i :: !StopsAt(d.weights, draw, k)
    {
      cumulative := cumulative + d.weights[i];
      if draw < cumulative {
        return i, false;
      }
    }
    return |d.weights| - 1, true;
  }

  /** Draws come from below the total, so the fall-through is out of reach, whatever the weights. */
  method SelectSize(d: SizeDistribution, draw: int) returns (size: int)
    requires d.weights != [] && |d.sizes| == |d.weights| && d.total == Total(d.weights)
    requires 0 <= draw < d.total
    ensures exists i: nat :: Selects(d.weights, draw, i) && size == d.sizes[i]
  {
    var index, fellThrough := SelectIndex(d, draw);
    assert StopsAt(d.weights, draw, |d.weights| - 1);
    size := d.sizes[index];
  }

  lemma {:induction false} FirstStop(weights: seq<int>, draw: int, k: nat) returns (i: nat)
    requires k < |weights| && StopsAt(weights, draw, k)
    ensures Selects(weights, draw, i)
  {
    if j :| 0 <= j < k && StopsAt(weights, draw, j) {
      i := FirstStop(weights, draw, j);
    } else {
      i := k;
    }
  }

  ghost predicate CanSelect(weights: seq<int>, draw: int) {
    0 <= draw < Total(weights) && exists i: nat :: Selects(weights, draw, i)
  }

  /** There is a draw, and one that selects a size, exactly when the total is positive.  The parser accepts a
      negative total too; drawing below it panics. */
  lemma SelectionExistsIff(weights: seq<int>)
    ensures (exists draw :: CanSelect(weights, draw)) <==> Total(weights) > 0
  {
    hide Selects;
    if Total(weights) > 0 {
      var i := FirstStop(weights, 0, |weights| - 1);
      assert CanSelect(weights, 0);
    }
  }

  // ---------- Exactness ----------

  predicate NonNegative(weights: seq<int>) {
    forall i | 0 <= i < |weights| :: weights[i] >= 0
  }

  /** The draws below the total that select an index. */
  ghost function Draws(weights: seq<int>, i: nat): set<int> {
    set draw | 0 <= draw < Total(weights) && Selects(weights, draw, i)
  }

  lemma {:induction false} CumulativeGrows(weights: seq<int>, i: nat, j: nat)
    requires NonNegative(weights) && i <= j <= |weights|
    ensures Cumulative(weights, i) <= Cumulative(weights, j)
    decreases j
  {
    if i < j {
      CumulativeGrows(weights, i, j - 1);
    }
  }

  /** With no negative weight, index i is selected exactly by the draws from its lower to its upper
      cumulative weight. */
  lemma SelectedByInterval(weights: seq<int>, draw: int, i: nat)
    requires NonNegative(weights) && 0 <= draw && i < |weights|
    ensures Selects(weights, draw, i) <==> Cumulative(weights, i) <= draw < Cumulative(weights, i + 1)
  {
    if Selects(weights, draw, i) && i > 0 {
      assert !StopsAt(weights, draw, i - 1);
    }
    if Cumulative(weights, i) <= draw {
      forall k | 0 <= k < i
        ensures !StopsAt(weights, draw, k)
      {
        CumulativeGrows(weights, k + 1, i);
      }
    }
  }

  lemma DrawsAreWeight(weights: seq<int>, i: nat)
    requires NonNegative(weights) && i < |weights|
    ensures |Draws(weights, i)| == weights[i]
  {
    CumulativeGrows(weights, 0, i);
    CumulativeGrows(weights, i + 1, |weights|);
    forall draw
      ensures draw in Draws(weights, i) <==> Cumulative(weights, i) <= draw < Cumulative(weights, i + 1)
    {
      if 0 <= draw {
        SelectedByInterval(weights, draw, i);
      }
    }
    var interval := IntervalOf(Cumulative(weights, i), Cumulative(weights, i + 1));
    assert Draws(weights, i) == interval;
  }

  /** Each index is selected by as many draws as its weight exactly when no weight is negative; the parser
      accepts negative weights. */
  lemma SelectionIsExactIff(weights: seq<int>)
    ensures (forall i | 0 <= i < |weights| :: |Draws(weights, i)| == weights[i]) <==> NonNegative(weights)
  {
    if NonNegative(weights) {
      forall i | 0 <= i < |weights|
        ensures |Draws(weights, i)| == weights[i]
      {
        DrawsAreWeight(weights, i);
      }
    }
  }
}
