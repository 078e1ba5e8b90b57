/**
 The multi-word bitset of the tracker: set, test and shift down by one position, over
 64-bit words changed in place.  Position p is bit p % 64 of word p / 64.
 */
module Bitset {

  function Mask(i: bv6): bv64 { 1 << i }

  predicate HasBit(word: bv64, k: nat)
    requires k < 64
  {
    word & Mask(k as bv6) != 0
  }

  function WithBit(word: bv64, k: nat): bv64
    requires k < 64
  {
    word | Mask(k as bv6)
  }

  function ShiftedWord(word: bv64, next: bv64): bv64 {
    (word >> 1) | ((next & 1) << 63)
  }

  predicate IsSet(words: seq<bv64>, pos: nat)
    requires pos < 64 * |words|
  {
    HasBit(words[pos / 64], pos % 64)
  }

  // ---------- One word ----------

  lemma IndexRoundTrip(k: nat)
    requires k < 64
    ensures (k as bv6) as int == k
  {
  }

  lemma IndicesDiffer(k: nat, j: nat)
    requires k < 64 && j < 64 && j != k
    ensures k as bv6 != j as bv6
  {
    IndexRoundTrip(k);
    IndexRoundTrip(j);
  }

  lemma IndexIncrement(i: bv6)
    requires i < 63
    ensures (i + 1) as int == i as int + 1
  {
  }

  lemma IndexOfInt(i: bv6)
    ensures (i as int) as bv6 == i
  {
  }

  lemma NextIndex(k: nat)
    requires k < 63
    ensures k as bv6 < 63 && (k + 1) as bv6 == k as bv6 + 1
  {
    var i := k as bv6;
    IndexRoundTrip(k);
    if i == 63 {
      assert false;
    }
    IndexIncrement(i);
    IndexOfInt(i + 1);
  }

  lemma OrMask(word: bv64, i: bv6, j: bv6)
    ensures ((word | Mask(i)) & Mask(j) != 0) == (j == i || word & Mask(j) != 0)
  {
  }

  lemma ShiftMask(word: bv64, next: bv64, i: bv6)
    requires i < 63
    ensures (((word >> 1) | ((next & 1) << 63)) & Mask(i) != 0) == (word & Mask(i + 1) != 0)
  {
  }

  lemma SetSameBit(word: bv64, k: nat)
    requires k < 64
    ensures HasBit(WithBit(word, k), k)
  {
    OrMask(word, k as bv6, k as bv6);
  }

  lemma SetKeepsBit(word: bv64, k: nat, j: nat)
    requires k < 64 && j < 64 && k as bv6 != j as bv6
    ensures HasBit(WithBit(word, k), j) == HasBit(word, j)
  {
    OrMask(word, k as bv6, j as bv6);
  }

  /** Or-ing a mask into a word sets that bit and no other. */
  lemma SetOneBit(word: bv64, k: nat, j: nat)
    requires k < 64 && j < 64
    ensures HasBit(WithBit(word, k), j) == (j == k || HasBit(word, j))
  {
    if k == j {
      SetSameBit(word, k);
    } else {
      IndicesDiffer(k, j);
      SetKeepsBit(word, k, j);
    }
  }

  /** Bit j of a shifted word is bit j + 1 of the word; the top bit is the lowest of the next word. */
  lemma ShiftOneBit(word: bv64, next: bv64, j: nat)
    requires j < 64
    ensures HasBit(ShiftedWord(word, next), j) == if j < 63 then HasBit(word, j + 1) else HasBit(next, 0)
  {
    if j < 63 {
      ShiftLowBit(word, next, j);
    } else {
      ShiftTopBit(word, next);
    }
  }

  lemma ShiftLowBit(word: bv64, next: bv64, j: nat)
    requires j < 63
    ensures HasBit(ShiftedWord(word, next), j) == HasBit(word, j + 1)
  {
    NextIndex(j);
    ShiftMask(word, next, j as bv6);
  }

  lemma ShiftTopBit(word: bv64, next: bv64)
    ensures HasBit(ShiftedWord(word, next), 63) == HasBit(next, 0)
  {
  }

  lemma ZeroHasNoBit(k: nat)
    requires k < 64
    ensures !HasBit(0, k)
  {
  }

  // ---------- Many words ----------

  function WordAfter(words: seq<bv64>, i: nat): bv64
    requires i < |words|
  {
    if i + 1 < |words| then words[i + 1] else 0
  }

  lemma SetInBits(words: seq<bv64>, pos: nat, q: nat)
    requires pos < 64 * |words| && q < 64 * |words|
    ensures IsSet(words[pos / 64 := WithBit(words[pos / 64], pos % 64)], q) == (q == pos || IsSet(words, q))
  {
    hide HasBit, WithBit;
    SetOneBit(words[pos / 64], pos % 64, q % 64);
  }

  lemma ShiftedBits(words: seq<bv64>, shifted: seq<bv64>, q: nat)
    requires |shifted| == |words| && q < 64 * |words|
    requires shifted[q / 64] == ShiftedWord(words[q / 64], WordAfter(words, q / 64))
    ensures IsSet(shifted, q) == (q + 1 < 64 * |words| && IsSet(words, q + 1))
  {
    hide HasBit, ShiftedWord;
    var i, j := q / 64, q % 64;
    ShiftOneBit(words[i], WordAfter(words, i), j);
    if j < 63 {
      assert (q + 1) / 64 == i && (q + 1) % 64 == j + 1;
    } else {
      assert (q + 1) / 64 == i + 1 && (q + 1) % 64 == 0;
      ZeroHasNoBit(0);
    }
  }

  // ---------- The operations ----------

  method SetBit(window: array<bv64>, pos: int)
    modifies window
    ensures forall q :: 0 <= q < 64 * window.Length ==>
      IsSet(window[..], q) == (q == pos || old(IsSet(window[..], q)))
  {
    if pos < 0 || pos >= window.Length * 64 {
      return;
    }
    ghost var words := window[..];
    window[pos / 64] := window[pos / 64] | (1 << ((pos % 64) as bv6));
    assert window[..] == words[pos / 64 := WithBit(words[pos / 64], pos % 64)];
    forall q | 0 <= q < 64 * window.Length
      ensures IsSet(window[..], q) == (q == pos || IsSet(words, q))
    {
      SetInBits(words, pos, q);
    }
  }

  method GetBit(window: array<bv64>, pos: int) returns (b: bool)
    ensures b <==> 0 <= pos < 64 * window.Length && IsSet(window[..], pos)
  {
    if pos < 0 || pos >= window.Length * 64 {
      return false;
    }
    return window[pos / 64] & (1 << ((pos % 64) as bv6)) != 0;
  }

  /** Shifts one word, and takes the lowest bit of the next when there is one. */
  method ShiftWord(word: bv64, more: bool, next: bv64) returns (shifted: bv64)
    ensures shifted == ShiftedWord(word, if more then next else 0)
  {
    shifted := word >> 1;
    if more {
      shifted := shifted | ((next & 1) << 63);
    }
  }

  lemma ShiftedWords(words: seq<bv64>, shifted: seq<bv64>)
    requires |shifted| == |words|
    requires forall j | 0 <= j < |words| :: shifted[j] == ShiftedWord(words[j], WordAfter(words, j))
    ensures forall q | 0 <= q < 64 * |words| ::
      IsSet(shifted, q) == (q + 1 < 64 * |words| && IsSet(words, q + 1))
  {
    hide IsSet, ShiftedWord, WordAfter;
    forall q | 0 <= q < 64 * |words|
      ensures IsSet(shifted, q) == (q + 1 < 64 * |words| && IsSet(words, q + 1))
    {
      ShiftedBits(words, shifted, q);
    }
  }

  /** Shifts every bit one position down, in place, word by word from the lowest. */
  method ShiftLeft(window: array<bv64>)
    modifies window
    ensures forall q :: 0 <= q < 64 * window.Length ==>
      IsSet(window[..], q) == (q + 1 < 64 * window.Length && old(IsSet(window[..], q + 1)))
  {
    hide IsSet, ShiftedWord;
    ghost var words := window[..];
    for i := 0 to window.Length
      invariant forall j | 0 <= j < i :: window[j] == ShiftedWord(words[j], WordAfter(words, j))
      invariant forall j | i <= j < window.Length :: window[j] == words[j]
    {
      var more := i + 1 < window.Length;
      var next := if more then window[i + 1] else 0;
      window[i] := ShiftWord(window[i], more, next);
    }
    ShiftedWords(words, window[..]);
  }
}
