/**
 What several modules share: options, the limits of 64-bit integers, the ends of a sequence, the sizes of
 sets, and the sum of a map's values.
 */
module Helpers {

  datatype Option<+T> = None | Some(value: T)

  const TWO_TO_THE_63: int := 0x8000_0000_0000_0000
  const TWO_TO_THE_64: int := 0x1_0000_0000_0000_0000

  function Last<T>(xs: seq<T>): T
    requires xs != []
  {
    xs[|xs| - 1]
  }

  function Front<T>(xs: seq<T>): seq<T>
    requires xs != []
  {
    xs[..|xs| - 1]
  }

  // ---------- Sizes of sets ----------

  lemma {:induction false} IntervalOf(lo: nat, hi: nat) returns (r: set<nat>)
    requires lo <= hi
    ensures |r| == hi - lo && forall x :: x in r <==> lo <= x < hi
    decreases hi - lo
  {
    if lo == hi {
      r := {};
    } else {
      r := IntervalOf(lo, hi - 1);
      r := r + {hi - 1};
    }
  }

  lemma {:induction false} SubsetIsNoLarger<T>(a: set<T>, b: set<T>)
    requires a <= b
    ensures |a| <= |b|
  {
    if a != {} {
      var x :| x in a;
      SubsetIsNoLarger(a - {x}, b - {x});
    }
  }

  // ---------- Sums over maps ----------

  ghost function SumOf(m: map<string, nat>): nat {
    if m == map[] then 0
    else
      var key :| key in m;
      m[key] + SumOf(m - {key})
  }

  /** The sum does not depend on the order in which the keys are visited. */
  lemma {:induction false} SumWithout(m: map<string, nat>, key: string)
    requires key in m
    ensures SumOf(m) == m[key] + SumOf(m - {key})
    decreases m
  {
    var first :| first in m && SumOf(m) == m[first] + SumOf(m - {first});
    if first != key {
      SumWithout(m - {first}, key);
      SumWithout(m - {key}, first);
      assert m - {first} - {key} == m - {key} - {first};
    }
  }
}
