/**
 Kafka's 32-bit MurmurHash2 and the partition it picks, in wrap-around arithmetic.

 Every mixing step is invertible, so with everything else fixed the hash is a bijection in
 any one aligned four-byte block: two keys of the same length that differ in one block, or
 only in the tail, never collide, and every partition is reached from every block position.
 */
module Murmur2 {

  type Bytes = seq<bv8>

  // ---------- The steps ----------

  function LengthWord(length: nat): bv32 { (length % 0x1_0000_0000) as bv32 }

  function Start(length: nat): bv32 { 0x9747b28c ^ LengthWord(length) }

  function Times(x: bv32): bv32 { x * 0x5bd1e995 }

  function Xor(x: bv32, y: bv32): bv32 { x ^ y }

  function Fold24(x: bv32): bv32 { x ^ (x >> 24) }

  function Fold13(x: bv32): bv32 { x ^ (x >> 13) }

  function Fold15(x: bv32): bv32 { x ^ (x >> 15) }

  function Little(b0: bv8, b1: bv8, b2: bv8, b3: bv8): bv32 {
    (b0 as bv32) | ((b1 as bv32) << 8) | ((b2 as bv32) << 16) | ((b3 as bv32) << 24)
  }

  function Block(data: Bytes, i: nat): bv32
    requires 4 * i + 4 <= |data|
  {
    Little(data[4 * i], data[4 * i + 1], data[4 * i + 2], data[4 * i + 3])
  }

  function MixBlock(k: bv32): bv32 { Times(Fold24(Times(k))) }

  function Absorb(h: bv32, k: bv32): bv32 { Xor(Times(h), MixBlock(k)) }

  /** The hash after the first `n` blocks. */
  function AfterBlocks(data: Bytes, n: nat): bv32
    requires 4 * n <= |data|
  {
    if n == 0 then Start(|data|) else Absorb(AfterBlocks(data, n - 1), Block(data, n - 1))
  }

  /** The hash after all blocks, entered with `h` before block `i`. */
  function FromBlock(h: bv32, data: Bytes, i: nat): bv32
    requires i <= |data| / 4
    decreases |data| / 4 - i
  {
    if i == |data| / 4 then h else FromBlock(Absorb(h, Block(data, i)), data, i + 1)
  }

  /** The up to three bytes that no block holds, as one word: each byte at its own position. */
  function TailWord(data: Bytes): bv32 {
    var t := |data| / 4 * 4;
    match |data| % 4
    case 0 => 0
    case 1 => Little(data[t], 0, 0, 0)
    case 2 => Little(data[t], data[t + 1], 0, 0)
    case _ => Little(data[t], data[t + 1], data[t + 2], 0)
  }

  function Tail(h: bv32, data: Bytes): bv32 {
    if |data| % 4 == 0 then h else Times(Xor(h, TailWord(data)))
  }

  function Finish(h: bv32): bv32 { Fold15(Times(Fold13(h))) }

  function Hash(data: Bytes): bv32 {
    Finish(Tail(AfterBlocks(data, |data| / 4), data))
  }

  // ---------- The inverse steps ----------

  // The multiplier times this is 1 modulo 2^32.
  function Untimes(x: bv32): bv32 { x * 0xe59b19bd }

  function Unfold13(x: bv32): bv32 { x ^ (x >> 13) ^ (x >> 26) }

  function Unfold15(x: bv32): bv32 { x ^ (x >> 15) ^ (x >> 30) }

  function UnmixBlock(k: bv32): bv32 { Untimes(Fold24(Untimes(k))) }

  function Unabsorb(h: bv32, k: bv32): bv32 { Untimes(Xor(h, MixBlock(k))) }

  function Unfinish(h: bv32): bv32 { Unfold13(Untimes(Unfold15(h))) }

  lemma TimesBody(x: bv32)
    ensures Times(x) == x * 0x5bd1e995 && Untimes(x) == x * 0xe59b19bd
  {
  }

  lemma UntimesProduct(x: bv32)
    ensures Untimes(x * 0x5bd1e995) == x
  {
  }

  lemma TimesProduct(x: bv32)
    ensures Times(x * 0xe59b19bd) == x
  {
  }

  lemma TimesIsInvertible(x: bv32)
    ensures Untimes(Times(x)) == x && Times(Untimes(x)) == x
  {
    hide Times, Untimes;
    TimesBody(x);
    UntimesProduct(x);
    TimesProduct(x);
  }

  lemma Fold24IsInvertible(x: bv32)
    ensures Fold24(Fold24(x)) == x
  {
  }

  lemma Fold13Body(x: bv32)
    ensures Fold13(x) == x ^ (x >> 13) && Unfold13(x) == x ^ (x >> 13) ^ (x >> 26)
  {
  }

  lemma Unfold13OfFold(x: bv32)
    ensures Unfold13(x ^ (x >> 13)) == x
  {
  }

  lemma Fold13OfUnfold(x: bv32)
    ensures Fold13(x ^ (x >> 13) ^ (x >> 26)) == x
  {
  }

  lemma Fold13IsInvertible(x: bv32)
    ensures Unfold13(Fold13(x)) == x && Fold13(Unfold13(x)) == x
  {
    hide Fold13, Unfold13;
    Fold13Body(x);
    Unfold13OfFold(x);
    Fold13OfUnfold(x);
  }

  lemma Fold15Body(x: bv32)
    ensures Fold15(x) == x ^ (x >> 15) && Unfold15(x) == x ^ (x >> 15) ^ (x >> 30)
  {
  }

  lemma Unfold15OfFold(x: bv32)
    ensures Unfold15(x ^ (x >> 15)) == x
  {
  }

  lemma Fold15OfUnfold(x: bv32)
    ensures Fold15(x ^ (x >> 15) ^ (x >> 30)) == x
  {
  }

  lemma Fold15IsInvertible(x: bv32)
    ensures Unfold15(Fold15(x)) == x && Fold15(Unfold15(x)) == x
  {
    hide Fold15, Unfold15;
    Fold15Body(x);
    Unfold15OfFold(x);
    Fold15OfUnfold(x);
  }

  lemma XorCommutes(x: bv32, y: bv32)
    ensures Xor(x, y) == Xor(y, x)
  {
  }

  lemma XorCancels(x: bv32, y: bv32)
    ensures Xor(Xor(x, y), y) == x && Xor(Xor(y, x), y) == x
  {
  }

  /** Mixing a block word loses nothing. */
  lemma MixBlockIsInvertible(k: bv32)
    ensures UnmixBlock(MixBlock(k)) == k && MixBlock(UnmixBlock(k)) == k
  {
    hide Times, Untimes, Fold24;
    TimesIsInvertible(k);
    Fold24IsInvertible(Times(k));
    Fold24IsInvertible(Untimes(k));
    TimesIsInvertible(Fold24(Times(k)));
    TimesIsInvertible(Fold24(Untimes(k)));
  }

  /** Finishing loses nothing. */
  lemma FinishIsInvertible(h: bv32)
    ensures Unfinish(Finish(h)) == h && Finish(Unfinish(h)) == h
  {
    hide Times, Untimes, Fold13, Fold15, Unfold13, Unfold15;
    Fold13IsInvertible(h);
    TimesIsInvertible(Fold13(h));
    Fold15IsInvertible(Times(Fold13(h)));
    Fold15IsInvertible(h);
    TimesIsInvertible(Unfold15(h));
    Fold13IsInvertible(Untimes(Unfold15(h)));
  }

  /** With the block fixed, absorbing it loses nothing of the hash. */
  lemma AbsorbIsInvertible(h: bv32, k: bv32)
    ensures Unabsorb(Absorb(h, k), k) == h && Absorb(Unabsorb(h, k), k) == h
  {
    hide Times, Untimes, MixBlock, Xor;
    XorCancels(Times(h), MixBlock(k));
    TimesIsInvertible(h);
    TimesIsInvertible(Xor(h, MixBlock(k)));
    XorCancels(h, MixBlock(k));
  }

  /** The only block word that takes the hash from `h` to `target`. */
  function Solve(h: bv32, target: bv32): bv32 { UnmixBlock(Xor(target, Times(h))) }

  /** With the hash fixed, absorbing a block loses nothing of the block. */
  lemma AbsorbSolves(h: bv32, k: bv32, target: bv32)
    ensures Absorb(h, k) == target <==> k == Solve(h, target)
  {
    hide Times, MixBlock, UnmixBlock, Xor;
    XorCancels(MixBlock(k), Times(h));
    XorCancels(target, Times(h));
    XorCommutes(Times(h), MixBlock(k));
    MixBlockIsInvertible(k);
    MixBlockIsInvertible(Xor(target, Times(h)));
  }

  /** The hash before block `i` that ends as `h` after all blocks. */
  function BackToBlock(h: bv32, data: Bytes, i: nat): bv32
    requires i <= |data| / 4
    decreases |data| / 4 - i
  {
    if i == |data| / 4 then h else Unabsorb(BackToBlock(h, data, i + 1), Block(data, i))
  }

  lemma {:induction false} BlocksAreInvertible(h: bv32, data: Bytes, i: nat)
    requires i <= |data| / 4
    ensures BackToBlock(FromBlock(h, data, i), data, i) == h
    ensures FromBlock(BackToBlock(h, data, i), data, i) == h
    decreases |data| / 4 - i
  {
    hide Absorb, Unabsorb, Block;
    if i < |data| / 4 {
      var k := Block(data, i);
      BlocksAreInvertible(Absorb(h, k), data, i + 1);
      AbsorbIsInvertible(h, k);
      BlocksAreInvertible(h, data, i + 1);
      AbsorbIsInvertible(BackToBlock(h, data, i + 1), k);
    }
  }

  function Untail(h: bv32, data: Bytes): bv32 {
    if |data| % 4 == 0 then h else Xor(Untimes(h), TailWord(data))
  }

  lemma TailIsInvertible(h: bv32, data: Bytes)
    ensures Untail(Tail(h, data), data) == h && Tail(Untail(h, data), data) == h
  {
    hide Times, Untimes, TailWord, Xor;
    TimesIsInvertible(Xor(h, TailWord(data)));
    TimesIsInvertible(h);
    XorCancels(h, TailWord(data));
    XorCancels(Untimes(h), TailWord(data));
  }

  // ---------- The hash is a bijection in each block ----------

  /** Two keys of one length that have the same bytes from position `from` on. */
  predicate SameFrom(a: Bytes, b: Bytes, from: nat) {
    |a| == |b| && forall p | from <= p < |a| :: a[p] == b[p]
  }

  /** Two keys of one length that have the same bytes up to position `to`. */
  predicate SameUpTo(a: Bytes, b: Bytes, to: nat) {
    |a| == |b| && forall p | 0 <= p < |a| && p < to :: a[p] == b[p]
  }

  lemma {:induction false} SamePrefixSameState(a: Bytes, b: Bytes, n: nat)
    requires 4 * n <= |a| && SameUpTo(a, b, 4 * n)
    ensures AfterBlocks(a, n) == AfterBlocks(b, n)
  {
    hide Absorb, Little, Start;
    if n > 0 {
      SamePrefixSameState(a, b, n - 1);
    }
  }

  lemma {:induction false} SameSuffixSameRest(h: bv32, a: Bytes, b: Bytes, i: nat)
    requires i <= |a| / 4 && SameFrom(a, b, 4 * i)
    ensures FromBlock(h, a, i) == FromBlock(h, b, i)
    decreases |a| / 4 - i
  {
    hide Absorb, Little;
    if i < |a| / 4 {
      SameSuffixSameRest(Absorb(h, Block(a, i)), a, b, i + 1);
    }
  }

  /** The blocks can be taken in two parts. */
  lemma {:induction false} BlocksSplit(data: Bytes, i: nat)
    requires i <= |data| / 4
    ensures FromBlock(AfterBlocks(data, i), data, i) == AfterBlocks(data, |data| / 4)
    decreases |data| / 4 - i
  {
    hide Absorb, Block, Start;
    if i < |data| / 4 {
      BlocksSplit(data, i + 1);
    }
  }

  /** The hash that leaves block `i` when the whole key hashes to `target`. */
  function BackFromHash(data: Bytes, i: nat, target: bv32): bv32
    requires i <= |data| / 4
  {
    BackToBlock(Untail(Unfinish(target), data), data, i)
  }

  lemma HashDeterminesState(data: Bytes, i: nat, target: bv32)
    requires i <= |data| / 4
    ensures Hash(data) == target <==> AfterBlocks(data, i) == BackFromHash(data, i, target)
  {
    hide Finish, Unfinish, Tail, Untail, FromBlock, BackToBlock, AfterBlocks;
    var h, after := AfterBlocks(data, i), AfterBlocks(data, |data| / 4);
    BlocksSplit(data, i);
    BlocksAreInvertible(h, data, i);
    BlocksAreInvertible(Untail(Unfinish(target), data), data, i);
    TailIsInvertible(after, data);
    TailIsInvertible(Unfinish(target), data);
    FinishIsInvertible(Tail(after, data));
    FinishIsInvertible(target);
  }

  /** Exactly one word in block `i` makes the key hash to `target`, whatever its other bytes are. */
  lemma HashDeterminesBlock(data: Bytes, i: nat, target: bv32)
    requires i < |data| / 4
    ensures Hash(data) == target <==>
      Block(data, i) == Solve(AfterBlocks(data, i), BackFromHash(data, i + 1, target))
  {
    hide Hash, BackFromHash, Absorb, Block, Solve, Start;
    HashDeterminesState(data, i + 1, target);
    AbsorbSolves(AfterBlocks(data, i), Block(data, i), BackFromHash(data, i + 1, target));
  }

  lemma SameSuffixSameWayBack(a: Bytes, b: Bytes, i: nat, target: bv32)
    requires i <= |a| / 4 && SameFrom(a, b, 4 * i)
    ensures BackFromHash(a, i, target) == BackFromHash(b, i, target)
  {
    hide Unfinish, FromBlock, BackToBlock, Untimes, Little, Xor;
    var h := Untail(Unfinish(target), a);
    assert h == Untail(Unfinish(target), b);
    var x := BackToBlock(h, a, i);
    BlocksAreInvertible(h, a, i);
    SameSuffixSameRest(x, a, b, i);
    BlocksAreInvertible(x, b, i);
  }

  lemma LittleIsInjective(a0: bv8, a1: bv8, a2: bv8, a3: bv8, b0: bv8, b1: bv8, b2: bv8, b3: bv8)
    requires Little(a0, a1, a2, a3) == Little(b0, b1, b2, b3)
    ensures a0 == b0 && a1 == b1 && a2 == b2 && a3 == b3
  {
  }

  lemma LittleIsSurjective(k: bv32) returns (b0: bv8, b1: bv8, b2: bv8, b3: bv8)
    ensures Little(b0, b1, b2, b3) == k
  {
    b0, b1 := (k & 0xff) as bv8, ((k >> 8) & 0xff) as bv8;
    b2, b3 := ((k >> 16) & 0xff) as bv8, (k >> 24) as bv8;
  }

  /** Two different keys of one length that agree outside one aligned block never collide. */
  lemma BlocksSeparate(a: Bytes, b: Bytes, i: nat)
    requires i < |a| / 4 && SameUpTo(a, b, 4 * i) && SameFrom(a, b, 4 * i + 4)
    requires a != b
    ensures Hash(a) != Hash(b)
  {
    hide Hash, BackFromHash, AfterBlocks, Solve, Little;
    if Hash(a) == Hash(b) {
      var target := Hash(a);
      HashDeterminesBlock(a, i, target);
      HashDeterminesBlock(b, i, target);
      SamePrefixSameState(a, b, i);
      SameSuffixSameWayBack(a, b, i + 1, target);
      var p := 4 * i;
      LittleIsInjective(a[p], a[p + 1], a[p + 2], a[p + 3], b[p], b[p + 1], b[p + 2], b[p + 3]);
      assert false;
    }
  }

  lemma TailWordIsInjective(a: Bytes, b: Bytes)
    requires SameUpTo(a, b, |a| / 4 * 4) && TailWord(a) == TailWord(b)
    ensures a == b
  {
    hide Little;
    var t := |a| / 4 * 4;
    match |a| % 4
    case 0 =>
    case 1 => LittleIsInjective(a[t], 0, 0, 0, b[t], 0, 0, 0);
    case 2 => LittleIsInjective(a[t], a[t + 1], 0, 0, b[t], b[t + 1], 0, 0);
    case _ => LittleIsInjective(a[t], a[t + 1], a[t + 2], 0, b[t], b[t + 1], b[t + 2], 0);
  }

  lemma XorIsInjective(h: bv32, x: bv32, y: bv32)
    requires Xor(h, x) == Xor(h, y)
    ensures x == y
  {
  }

  /** Nor do two different keys of one length that agree on all the aligned blocks. */
  lemma TailsSeparate(a: Bytes, b: Bytes)
    requires SameUpTo(a, b, |a| / 4 * 4) && a != b
    ensures Hash(a) != Hash(b)
  {
    hide Finish, Unfinish, Times, Untimes, TailWord, AfterBlocks, Xor;
    SamePrefixSameState(a, b, |a| / 4);
    var h := AfterBlocks(a, |a| / 4);
    FinishIsInvertible(Tail(h, a));
    FinishIsInvertible(Tail(h, b));
    if Hash(a) == Hash(b) && |a| % 4 != 0 {
      TimesIsInvertible(Xor(h, TailWord(a)));
      TimesIsInvertible(Xor(h, TailWord(b)));
      XorIsInjective(h, TailWord(a), TailWord(b));
      TailWordIsInjective(a, b);
    }
  }

  function WithBlock(data: Bytes, i: nat, b0: bv8, b1: bv8, b2: bv8, b3: bv8): (r: Bytes)
    requires i < |data| / 4
    ensures |r| == |data|
  {
    data[4 * i := b0][4 * i + 1 := b1][4 * i + 2 := b2][4 * i + 3 := b3]
  }

  /** Every hash is reached by choosing the bytes of any one block. */
  lemma EveryHashIsReached(data: Bytes, i: nat, target: bv32)
    returns (b0: bv8, b1: bv8, b2: bv8, b3: bv8)
    requires i < |data| / 4
    ensures Hash(WithBlock(data, i, b0, b1, b2, b3)) == target
  {
    hide Hash, BackFromHash, AfterBlocks, Solve, Little;
    b0, b1, b2, b3 := LittleIsSurjective(Solve(AfterBlocks(data, i), BackFromHash(data, i + 1, target)));
    var key := WithBlock(data, i, b0, b1, b2, b3);
    SamePrefixSameState(data, key, i);
    SameSuffixSameWayBack(data, key, i + 1, target);
    HashDeterminesBlock(key, i, target);
  }

  // ---------- The program ----------

  lemma XorBody(x: bv32, y: bv32)
    ensures Xor(x, y) == x ^ y
  {
  }

  lemma Fold24Body(x: bv32)
    ensures Fold24(x) == x ^ (x >> 24)
  {
  }

  lemma XorAssociates(x: bv32, y: bv32, z: bv32)
    ensures Xor(Xor(x, y), z) == Xor(x, Xor(y, z))
  {
  }

  lemma LittleOfTail(b0: bv8, b1: bv8, b2: bv8)
    ensures Little(b0, 0, 0, 0) == b0 as bv32
    ensures Little(b0, b1, 0, 0) == Xor(Shifted8(b1), b0 as bv32)
    ensures Little(b0, b1, b2, 0) == Xor(Shifted16(b2), Xor(Shifted8(b1), b0 as bv32))
  {
  }

  method MixStep(h: bv32, word: bv32) returns (h': bv32)
    ensures h' == Absorb(h, word)
  {
    hide Times, Fold24, Xor;
    var k := word;
    TimesBody(k);
    k := k * 0x5bd1e995;
    Fold24Body(k);
    k := k ^ (k >> 24);
    TimesBody(k);
    k := k * 0x5bd1e995;
    TimesBody(h);
    h' := h * 0x5bd1e995;
    XorBody(h', k);
    h' := h' ^ k;
  }

  function Shifted8(b: bv8): bv32 { (b as bv32) << 8 }

  function Shifted16(b: bv8): bv32 { (b as bv32) << 16 }

  /** Taking the tail bytes in one at a time takes in the tail word. */
  lemma TailBytes(h: bv32, b0: bv8, b1: bv8, b2: bv8)
    ensures Xor(h, b0 as bv32) == Xor(h, Little(b0, 0, 0, 0))
    ensures Xor(Xor(h, Shifted8(b1)), b0 as bv32) == Xor(h, Little(b0, b1, 0, 0))
    ensures Xor(Xor(Xor(h, Shifted16(b2)), Shifted8(b1)), b0 as bv32) == Xor(h, Little(b0, b1, b2, 0))
  {
    hide Little, Xor, Shifted8, Shifted16;
    LittleOfTail(b0, b1, b2);
    XorAssociates(h, Shifted8(b1), b0 as bv32);
    XorAssociates(Xor(h, Shifted16(b2)), Shifted8(b1), b0 as bv32);
    XorAssociates(h, Shifted16(b2), Xor(Shifted8(b1), b0 as bv32));
  }

  /** The fall-through switch over the bytes that no block holds. */
  method TailStep(h: bv32, data: Bytes) returns (h': bv32)
    ensures h' == Tail(h, data)
  {
    hide Times, Xor, Little, Shifted8, Shifted16;
    var tail := |data| / 4 * 4;
    var rest := |data| % 4;
    h' := h;
    if rest >= 1 {
      TailBytes(h, data[tail], if rest >= 2 then data[tail + 1] else 0, if rest >= 3 then data[tail + 2] else 0);
    }
    if rest >= 3 {
      h' := Xor(h', Shifted16(data[tail + 2]));
    }
    if rest >= 2 {
      h' := Xor(h', Shifted8(data[tail + 1]));
    }
    if rest >= 1 {
      h' := Xor(h', data[tail] as bv32);
      h' := Times(h');
    }
  }

  method FinishStep(h: bv32) returns (h': bv32)
    ensures h' == Finish(h)
  {
    hide Times, Fold13, Fold15;
    Fold13Body(h);
    h' := h ^ (h >> 13);
    TimesBody(h');
    h' := h' * 0x5bd1e995;
    Fold15Body(h');
    h' := h' ^ (h' >> 15);
  }

  /** The block loop, then the tail, then the final mixing. */
  method ComputeHash(data: Bytes) returns (h: bv32)
    ensures h == Hash(data)
  {
    hide Absorb, Tail, Finish, Little;
    h := 0x9747b28c ^ ((|data| % 0x1_0000_0000) as bv32);
    for i := 0 to |data| / 4
      invariant h == AfterBlocks(data, i)
    {
      var k := LittleEndian(data, i);
      h := MixStep(h, k);
    }
    h := TailStep(h, data);
    h := FinishStep(h);
  }

  method LittleEndian(data: Bytes, i: nat) returns (k: bv32)
    requires 4 * i + 4 <= |data|
    ensures k == Block(data, i)
  {
    k := (data[i * 4] as bv32) | ((data[i * 4 + 1] as bv32) << 8) |
         ((data[i * 4 + 2] as bv32) << 16) | ((data[i * 4 + 3] as bv32) << 24);
  }

  // ---------- The hash in full ----------

  /** The hash before the first block. */
  lemma StartInFull(data: Bytes)
    ensures AfterBlocks(data, 0) == 0x9747b28c ^ ((|data| % 0x1_0000_0000) as bv32)
  {
  }

  lemma WordInFull(b0: bv8, b1: bv8, b2: bv8, b3: bv8, k: bv32)
    requires k == (b0 as bv32) | ((b1 as bv32) << 8) | ((b2 as bv32) << 16) | ((b3 as bv32) << 24)
    ensures k == Little(b0, b1, b2, b3)
  {
  }

  lemma AbsorbInFull(h: bv32, k: bv32, k1: bv32, k2: bv32, k3: bv32, h1: bv32)
    requires k1 == k * 0x5bd1e995
    requires k2 == k1 ^ (k1 >> 24)
    requires k3 == k2 * 0x5bd1e995
    requires h1 == h * 0x5bd1e995
    ensures Absorb(h, k) == h1 ^ k3
  {
    hide Times, Fold24, Xor;
    TimesBody(k);
    Fold24Body(k1);
    TimesBody(k2);
    TimesBody(h);
    XorBody(h1, k3);
  }

  /** One block, on the bytes of the key: its word k, the word mixed, and the hash h before it multiplied. */
  lemma BlockInFull(data: Bytes, i: nat, b0: bv8, b1: bv8, b2: bv8, b3: bv8, k: bv32,
                    k1: bv32, k2: bv32, k3: bv32, h: bv32, h1: bv32)
    requires i < |data| / 4
    requires [b0, b1, b2, b3] == data[4 * i..4 * i + 4] && h == AfterBlocks(data, i)
    requires k == (b0 as bv32) | ((b1 as bv32) << 8) | ((b2 as bv32) << 16) | ((b3 as bv32) << 24)
    requires k1 == k * 0x5bd1e995
    requires k2 == k1 ^ (k1 >> 24)
    requires k3 == k2 * 0x5bd1e995
    requires h1 == h * 0x5bd1e995
    ensures AfterBlocks(data, i + 1) == h1 ^ k3
  {
    hide Absorb, Little, Start;
    WordInFull(b0, b1, b2, b3, k);
    AbsorbInFull(h, k, k1, k2, k3, h1);
    assert [b0, b1, b2, b3][0] == data[4 * i] && [b0, b1, b2, b3][1] == data[4 * i + 1];
    assert [b0, b1, b2, b3][2] == data[4 * i + 2] && [b0, b1, b2, b3][3] == data[4 * i + 3];
  }

  lemma FinishInFull(h: bv32, h1: bv32, h2: bv32)
    requires h1 == h ^ (h >> 13)
    requires h2 == h1 * 0x5bd1e995
    ensures Finish(h) == h2 ^ (h2 >> 15)
  {
    hide Times, Fold13, Fold15;
    Fold13Body(h);
    TimesBody(h1);
    Fold15Body(h2);
  }

  /** The bytes past the last block, and zeros where there are none. */
  function Rest(data: Bytes, k: nat): bv8 {
    var i := |data| / 4 * 4 + k;
    if i < |data| then data[i] else 0
  }

  lemma TailWordOfRest(data: Bytes)
    ensures |data| % 4 != 0 ==> TailWord(data) == Little(Rest(data, 0), Rest(data, 1), Rest(data, 2), 0)
  {
    hide Little;
  }

  lemma HashOfRest(h: bv32, data: Bytes, x: bv32, y: bv32)
    requires h == AfterBlocks(data, |data| / 4)
    requires x == Xor(h, Little(Rest(data, 0), Rest(data, 1), Rest(data, 2), 0)) && y == Times(x)
    ensures |data| % 4 == 0 ==> Hash(data) == Finish(h)
    ensures |data| % 4 != 0 ==> Hash(data) == Finish(y)
  {
    hide Times, Xor, Little, TailWord, Rest, AfterBlocks, Finish;
    TailWordOfRest(data);
  }

  /** The last bytes of a key, as the program folds them into the hash h of the blocks: the byte 2 past the
      last block shifted by 16, the byte 1 past it by 8, and the byte after it. */
  lemma HashInFull(data: Bytes, b0: bv8, b1: bv8, b2: bv8, h: bv32,
                   s1: bv32, s2: bv32, x1: bv32, x2: bv32, x: bv32, y: bv32)
    requires h == AfterBlocks(data, |data| / 4)
    requires b0 == Rest(data, 0) && b1 == Rest(data, 1) && b2 == Rest(data, 2)
    requires s1 == (b1 as bv32) << 8 && s2 == (b2 as bv32) << 16
    requires x2 == h ^ s2 && x1 == x2 ^ s1 && x == x1 ^ (b0 as bv32)
    requires y == x * 0x5bd1e995
    ensures |data| % 4 == 0 ==> Hash(data) == Finish(h)
    ensures |data| % 4 != 0 ==> Hash(data) == Finish(y)
  {
    hide Times, Xor, Little, Finish, AfterBlocks, Rest, Hash;
    TailInFull(h, b0, b1, b2, s1, s2, x1, x2, x);
    TimesIs(x, y);
    HashOfRest(h, data, x, y);
  }

  lemma TimesIs(x: bv32, y: bv32)
    requires y == x * 0x5bd1e995
    ensures y == Times(x)
  {
  }

  lemma ShiftedBody(b: bv8)
    ensures Shifted8(b) == (b as bv32) << 8 && Shifted16(b) == (b as bv32) << 16
  {
  }

  lemma TailInFull(h: bv32, b0: bv8, b1: bv8, b2: bv8, s1: bv32, s2: bv32, x1: bv32, x2: bv32, x: bv32)
    requires s1 == (b1 as bv32) << 8 && s2 == (b2 as bv32) << 16
    requires x2 == h ^ s2 && x1 == x2 ^ s1 && x == x1 ^ (b0 as bv32)
    ensures Xor(h, Little(b0, b1, b2, 0)) == x
  {
    hide Xor, Little, Shifted8, Shifted16;
    TailBytes(h, b0, b1, b2);
    ShiftedBody(b1);
    ShiftedBody(b2);
    XorBody(h, s2);
    XorBody(x2, s1);
    XorBody(x1, b0 as bv32);
  }

  // ---------- Reference values ----------

  lemma LengthWords()
    ensures LengthWord(3) == 3 && LengthWord(6) == 6 && LengthWord(8) == 8 && LengthWord(9) == 9
  {
    assert 3 % 0x1_0000_0000 == 3 && 6 % 0x1_0000_0000 == 6;
    assert 8 % 0x1_0000_0000 == 8 && 9 % 0x1_0000_0000 == 9;
    assert (3 as bv32) == 3;
    assert (6 as bv32) == 6;
    assert (8 as bv32) == 8;
    assert (9 as bv32) == 9;
  }

  /** The hash of "foobar": one block and a tail of two bytes. */
  lemma ReferenceHashFoobar(key: Bytes)
    requires key == [0x66, 0x6f, 0x6f, 0x62, 0x61, 0x72]
    ensures Hash(key) == 0xd0e47bbe
  {
    hide Absorb, Finish, Little, Times, Xor, Start;
    ReferenceFoobar();
    assert AfterBlocks(key, 0) == 0x9747b28a;
  }

  lemma ReferenceFoobar()
    ensures Start(6) == 0x9747b28a
    ensures Little(0x66, 0x6f, 0x6f, 0x62) == 0x626f6f66 && Absorb(0x9747b28a, 0x626f6f66) == 0xb27c60b
    ensures Times(Xor(0xb27c60b, Little(0x61, 0x72, 0, 0))) == 0x99da7bb2
    ensures Finish(0x99da7bb2) == 0xd0e47bbe
  {
    hide LengthWord;
    LengthWords();
  }

  /** The hash of "abc": a tail of three bytes alone. */
  lemma ReferenceHashAbc(key: Bytes)
    requires key == [0x61, 0x62, 0x63]
    ensures Hash(key) == 0x1c94221b
  {
    hide Absorb, Finish, Little, Times, Xor, Start;
    ReferenceAbc();
  }

  lemma ReferenceAbc()
    ensures Start(3) == 0x9747b28f
    ensures Times(Xor(0x9747b28f, Little(0x61, 0x62, 0x63, 0))) == 0xa6e43886
    ensures Finish(0xa6e43886) == 0x1c94221b
  {
    hide LengthWord;
    LengthWords();
  }

  /** The hash of "testtest": two blocks and no tail. */
  lemma ReferenceHashTesttest(key: Bytes)
    requires key == [0x74, 0x65, 0x73, 0x74, 0x74, 0x65, 0x73, 0x74]
    ensures Hash(key) == 0x30d445eb
  {
    hide Absorb, Finish, Little, Times, Xor, Start;
    ReferenceTesttest();
    assert AfterBlocks(key, 0) == 0x9747b284;
    assert AfterBlocks(key, 1) == 0xd5f434b6;
  }

  lemma ReferenceTesttest()
    ensures Start(8) == 0x9747b284
    ensures Little(0x74, 0x65, 0x73, 0x74) == 0x74736574 && Absorb(0x9747b284, 0x74736574) == 0xd5f434b6
    ensures Little(0x74, 0x65, 0x73, 0x74) == 0x74736574 && Absorb(0xd5f434b6, 0x74736574) == 0xa7bf6d8c
    ensures Finish(0xa7bf6d8c) == 0x30d445eb
  {
    hide LengthWord;
    LengthWords();
  }

  /** The hash of "partition": two blocks and a tail of one byte. */
  lemma ReferenceHashPartition(key: Bytes)
    requires key == [0x70, 0x61, 0x72, 0x74, 0x69, 0x74, 0x69, 0x6f, 0x6e]
    ensures Hash(key) == 0x64521b02
  {
    hide Absorb, Finish, Little, Times, Xor, Start;
    ReferencePartition();
    assert AfterBlocks(key, 0) == 0x9747b285;
    assert AfterBlocks(key, 1) == 0x9bee8ef8;
  }

  lemma ReferencePartition()
    ensures Start(9) == 0x9747b285
    ensures Little(0x70, 0x61, 0x72, 0x74) == 0x74726170 && Absorb(0x9747b285, 0x74726170) == 0x9bee8ef8
    ensures Little(0x69, 0x74, 0x69, 0x6f) == 0x6f697469 && Absorb(0x9bee8ef8, 0x6f697469) == 0xef382769
    ensures Times(Xor(0xef382769, Little(0x6e, 0, 0, 0))) == 0xb0eb1613
    ensures Finish(0xb0eb1613) == 0x64521b02
  {
    hide LengthWord;
    LengthWords();
  }

  // ---------- The partition ----------

  function Unsigned31(h: bv32): bv32 { h & 0x7fffffff }

  /** The partition of a key: the hash without its sign bit, modulo the number of partitions. */
  function Partition(data: Bytes, partitions: int): int
    requires partitions != 0
  {
    (Unsigned31(Hash(data)) as int) % partitions
  }

  method ComputePartition(data: Bytes, partitions: int) returns (p: int)
    requires 0 < partitions < 0x8000_0000
    ensures p == Partition(data, partitions) && 0 <= p < partitions
  {
    hide Hash;
    var h := ComputeHash(data);
    p := ((h & 0x7fffffff) as int) % partitions;
  }

  /** The partition as a number: a hash from 2^31 on counts without its sign bit. */
  lemma PartitionInFull(data: Bytes, partitions: int, h: bv32)
    requires partitions > 0
    requires h == if Hash(data) < 0x8000_0000 then Hash(data) else Hash(data) - 0x8000_0000
    ensures Partition(data, partitions) == (h as int) % partitions
  {
    hide Hash, Unsigned31;
    if Hash(data) < 0x8000_0000 {
      KeepsSmall(Hash(data));
    } else {
      DropsSignBit(Hash(data));
    }
  }

  /** Masking the sign bit takes 2^31 off a hash from there on. */
  lemma KeepsSmall(h: bv32)
    requires h < 0x8000_0000
    ensures Unsigned31(h) == h
  {
  }

  lemma DropsSignBit(h: bv32)
    requires h >= 0x8000_0000
    ensures Unsigned31(h) == h - 0x8000_0000
  {
  }

  lemma SmallIsUnsigned31(p: bv32)
    requires p as int < 0x8000_0000
    ensures Unsigned31(p) == p
  {
  }

  lemma SmallModulo(x: int, n: int)
    requires 0 <= x < n
    ensures x % n == x
  {
  }

  /** Every partition is reached from every block of a key, whatever its other bytes are. */
  lemma EveryPartitionIsReached(data: Bytes, i: nat, partitions: int, p: bv32)
    returns (b0: bv8, b1: bv8, b2: bv8, b3: bv8)
    requires i < |data| / 4 && p as int < partitions < 0x8000_0000
    ensures Partition(WithBlock(data, i, b0, b1, b2, b3), partitions) == p as int
  {
    hide Hash, Unsigned31;
    b0, b1, b2, b3 := EveryHashIsReached(data, i, p);
    SmallIsUnsigned31(p);
    SmallModulo(p as int, partitions);
  }
}
