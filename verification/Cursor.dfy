// The reverse-binary cursor of dictScan, ordered by the number its mirror image spells.
module Cursor {
  import opened Arithmetic
  import opened Words

  // The order in which the cursor visits the buckets.
  function Rank(v: Word): nat { Number(Reverse(v), 64) }

  function Succ(v: Word): Word { v + 1 }

  function Union(v: Word, w: Word): Word { v | w }

  // Set the unmasked bits, then increment the mirror image.
  function NextCursor(v: Word, m: Word): Word {
    Reverse(Succ(Reverse(Union(v, !m))))
  }

  // The cursor has bits that only the larger of two masks covers.
  predicate BitsBetween(v: Word, m0: Word, m1: Word) { v & (m0 ^ m1) != 0 }

  method AdvanceCursor(cursor: Word, m: Word) returns (v: Word)
    ensures v == NextCursor(cursor, m)
  {
    hide Reverse;
    v := cursor | !m;
    v := Rev(v);
    v := v + 1;
    v := Rev(v);
  }

  // ------------------------------------------------------------------ words as numbers

  lemma {:induction false} NumberBound(x: Word, n: nat)
    ensures Number(x, n) < Pow2(n)
    decreases n
  {
    hide Half, Bit;
    if n > 0 {
      NumberBound(Half(x), n - 1);
      BitIsBit(x);
    }
  }

  lemma BitIsBit(x: Word)
    ensures Bit(x) <= 1
  {
  }

  lemma SuccessorOfEven(x: Word)
    requires Bit(x) == 0
    ensures Half(Succ(x)) == Half(x) && Bit(Succ(x)) == 1
  {
  }

  // Without the top bit, which drops out, halving an odd successor carries one.
  lemma SuccessorOfOdd(x: Word)
    requires Bit(x) == 1
    ensures Bit(Succ(x)) == 0
    ensures Half(Succ(x)) == Succ(Half(x)) || (Half(Succ(x)) == 0 && Succ(Half(x)) == 0x8000_0000_0000_0000)
  {
  }

  ghost predicate Disjoint(v: Word, m: Word) { v & m == 0 }

  lemma DisjointHalves(v: Word, m: Word)
    requires Disjoint(v, m) && Bit(m) == 1
    ensures Disjoint(Half(v), Half(m)) && Bit(v) == 0
  {
  }

  lemma OddMask(m: Word)
    requires IsMask(m) && m != 0
    ensures Bit(m) == 1
  {
  }

  lemma LowBitsOdd(k: nat)
    requires 1 <= k <= 64
    ensures Bit(LowBits(k)) == 1
  {
    hide Half, Bit, IsMask;
    OnesAfterIsMask(64 - k);
    LowBitsNonZero(k);
    OddMask(LowBits(k));
  }

  lemma {:induction false} NumberOfDisjoint(x: Word, k: nat, n: nat)
    requires n <= k <= 64 && Disjoint(x, LowBits(k))
    ensures Number(x, n) == 0
    decreases n
  {
    hide Half, Bit, Disjoint;
    if n > 0 {
      LowBitsOdd(k);
      DisjointHalves(x, LowBits(k));
      assert Half(LowBits(k)) == LowBits(k - 1);
      NumberOfDisjoint(Half(x), k - 1, n - 1);
    }
  }

  lemma NumberOfTop(n: nat)
    requires n <= 63
    ensures Number(0x8000_0000_0000_0000, n) == 0
  {
    assert LowBits(63) == 0x7FFF_FFFF_FFFF_FFFF;
    assert Disjoint(0x8000_0000_0000_0000, LowBits(63));
    NumberOfDisjoint(0x8000_0000_0000_0000, 63, n);
  }

  // Counting up one, with the carry out of n bits dropped.
  lemma {:induction false} NumberSuccessor(x: Word, n: nat)
    requires n <= 64
    ensures Number(Succ(x), n) == if Number(x, n) == Pow2(n) - 1 then 0 else Number(x, n) + 1
    decreases n
  {
    hide Half, Bit, Succ;
    if n > 0 {
      BitIsBit(x);
      NumberBound(Half(x), n - 1);
      if Bit(x) == 0 {
        SuccessorOfEven(x);
      } else {
        SuccessorOfOdd(x);
        NumberSuccessor(Half(x), n - 1);
        NumberOfZero(n - 1);
        NumberOfTop(n - 1);
      }
    }
  }

  lemma UnionHalves(v: Word, m: Word)
    requires Bit(m) == 1
    ensures Half(Union(v, m)) == Union(Half(v), Half(m)) && Bit(Union(v, m)) == 1
  {
  }

  // Setting the j lowest bits moves to the last number of its block of 2^j numbers.
  lemma {:induction false} NumberOfUnion(x: Word, j: nat, n: nat)
    requires j <= n && j <= 64
    ensures Number(Union(x, LowBits(j)), n) == Number(x, n) - Number(x, n) % Pow2(j) + Pow2(j) - 1
    decreases n
  {
    hide Half, Bit, Union;
    if j == 0 {
      SmallMasks();
      UnionWithZero(x);
    } else {
      LowBitsOdd(j);
      UnionHalves(x, LowBits(j));
      assert Half(LowBits(j)) == LowBits(j - 1);
      NumberOfUnion(Half(x), j - 1, n - 1);
      BitIsBit(x);
      ModOfDouble(Number(Half(x), n - 1), Bit(x), Pow2(j - 1));
    }
  }

  lemma UnionWithZero(x: Word)
    ensures Union(x, 0) == x
  {
  }

  lemma ModOfDouble(a: nat, b: nat, p: nat)
    requires b <= 1 && p >= 1
    ensures (2 * a + b) % (2 * p) == 2 * (a % p) + b
  {
    var q, r := a / p, a % p;
    assert a == p * q + r;
    assert 2 * a + b == (2 * p) * q + (2 * r + b);
    ModUnique(2 * a + b, 2 * p, q, 2 * r + b);
  }

  lemma {:induction false} SameNumberSameBits(x: Word, y: Word, n: nat)
    requires n <= 64 && Number(x, n) == Number(y, n)
    ensures SameUnder(x, y, LowBits(n))
    decreases n
  {
    hide Half, Bit, SameUnder;
    if n == 0 {
      SmallMasks();
      SameUnderZero(x, y);
    } else {
      BitIsBit(x);
      BitIsBit(y);
      assert Half(LowBits(n)) == LowBits(n - 1);
      SameNumberSameBits(Half(x), Half(y), n - 1);
      SameUnderHalves(x, y, LowBits(n));
    }
  }

  ghost predicate SameUnder(x: Word, y: Word, m: Word) { x & m == y & m }

  lemma SameUnderZero(x: Word, y: Word)
    ensures SameUnder(x, y, 0)
  {
  }

  lemma SameUnderHalves(x: Word, y: Word, m: Word)
    requires SameUnder(Half(x), Half(y), Half(m)) && Bit(x) == Bit(y)
    ensures SameUnder(x, y, m)
  {
  }

  lemma SameNumberSameWord(x: Word, y: Word)
    requires Number(x, 64) == Number(y, 64)
    ensures x == y
  {
    hide SameUnder;
    SameNumberSameBits(x, y, 64);
    assert LowBits(64) == ONES;
    SameUnderOnes(x, y);
  }

  lemma SameUnderOnes(x: Word, y: Word)
    requires SameUnder(x, y, ONES)
    ensures x == y
  {
  }

  lemma {:induction false} MultipleHasNoLowBits(x: Word, j: nat, n: nat)
    requires j <= n <= 64 && Number(x, n) % Pow2(j) == 0
    ensures Disjoint(x, LowBits(j))
    decreases n
  {
    hide Half, Bit, Disjoint;
    if j == 0 {
      SmallMasks();
      DisjointFromZero(x);
    } else {
      BitIsBit(x);
      ModOfDouble(Number(Half(x), n - 1), Bit(x), Pow2(j - 1));
      assert Half(LowBits(j)) == LowBits(j - 1);
      MultipleHasNoLowBits(Half(x), j - 1, n - 1);
      DisjointFromHalves(x, LowBits(j));
    }
  }

  lemma DisjointFromZero(x: Word)
    ensures Disjoint(x, 0)
  {
  }

  lemma DisjointFromHalves(x: Word, m: Word)
    requires Disjoint(Half(x), Half(m)) && Bit(x) == 0
    ensures Disjoint(x, m)
  {
  }

  // ------------------------------------------------------------------ the mirror image of a mask

  // The bits below a masked cursor's own, once mirrored.
  function Mirrored(m: Word): Word { !Reverse(m) }

  function AppendOne(m: Word): Word { (m << 1) | 1 }

  function PrependOne(r: Word): Word { (r >> 1) | 0x8000_0000_0000_0000 }

  lemma ReverseShifted(m: Word)
    ensures Reverse((m << 1) | 1) == (Reverse(m) >> 1) | 0x8000_0000_0000_0000
  {
  }

  lemma ReverseAppendOne(m: Word)
    ensures Reverse(AppendOne(m)) == PrependOne(Reverse(m))
  {
    hide Reverse;
    ReverseShifted(m);
  }

  lemma ComplementHalf(r: Word)
    ensures Half(!r) == !PrependOne(r)
  {
  }

  lemma MirroredAppendOne(m: Word)
    ensures Mirrored(AppendOne(m)) == Half(Mirrored(m))
  {
    hide Reverse, Half, AppendOne, PrependOne;
    ReverseAppendOne(m);
    ComplementHalf(Reverse(m));
  }

  lemma MirroredZero()
    ensures Mirrored(0) == ONES
  {
  }

  lemma {:induction false} MirroredLowBits(k: nat)
    requires k <= 64
    ensures Mirrored(LowBits(k)) == LowBits(64 - k)
    decreases k
  {
    hide Half, Reverse, Mirrored;
    if k == 0 {
      SmallMasks();
      MirroredZero();
    } else {
      MirroredLowBits(k - 1);
      NextLowBits(k - 1);
      MirroredAppendOne(LowBits(k - 1));
      assert LowBits(64 - k) == Half(LowBits(64 - (k - 1)));
    }
  }

  lemma MirroredUnion(v: Word, m: Word)
    ensures Reverse(Union(v, !m)) == Union(Reverse(v), Mirrored(m))
  {
  }

  lemma SameBucketIfSameBlock(v: Word, h: Word, m: Word)
    requires Union(Reverse(v), Mirrored(m)) == Union(Reverse(h), Mirrored(m))
    ensures SameSlot(v, h, m)
  {
  }

  lemma NoMaskedBits(n: Word, m0: Word, m1: Word)
    requires Disjoint(Reverse(n), Mirrored(m0)) && Within(m0, m1)
    ensures !BitsBetween(n, m0, m1)
  {
  }

  lemma RankInjective(v: Word, w: Word)
    requires Rank(v) == Rank(w)
    ensures v == w
  {
    hide Reverse, Number;
    SameNumberSameWord(Reverse(v), Reverse(w));
    ReverseTwice(v);
    ReverseTwice(w);
  }

  lemma RankOfZero()
    ensures Rank(0) == 0
  {
    hide Number;
    assert Reverse(0) == 0;
    NumberOfZero(64);
  }

  // ------------------------------------------------------------------ one table

  // The first rank of the bucket of rank r in a table of 2^k buckets.
  function BlockStart(r: nat, k: nat): int
    requires k <= 64
  {
    r - r % Pow2(64 - k)
  }

  lemma RankBound(v: Word)
    ensures Rank(v) < Pow2(64)
  {
    hide Reverse, Pow2;
    NumberBound(Reverse(v), 64);
  }

  // The next cursor is the first rank of the next bucket, or 0 after the last bucket.
  lemma RankOfNext(v: Word, k: nat)
    requires k <= 64
    ensures
      var end := BlockStart(Rank(v), k) + Pow2(64 - k);
      var next := NextCursor(v, LowBits(k));
      && end > Rank(v)
      && (next == 0 <==> end == Pow2(64))
      && (next != 0 ==> Rank(next) == end)
  {
    hide Reverse, Number, Pow2, LowBits, NextCursor, Rank;
    NextRank(v, k);
    RankOfZero();
    if Rank(NextCursor(v, LowBits(k))) == 0 {
      RankInjective(NextCursor(v, LowBits(k)), 0);
    }
  }

  lemma NextRank(v: Word, k: nat)
    requires k <= 64
    ensures
      var end := BlockStart(Rank(v), k) + Pow2(64 - k);
      end > Rank(v) && Rank(NextCursor(v, LowBits(k))) == if end == Pow2(64) then 0 else end
  {
    hide Reverse, Number, Pow2, Mirrored, Union, Succ, LowBits;
    var m := LowBits(k);
    var w := Union(Reverse(v), Mirrored(m));
    MirroredUnion(v, m);
    MirroredLowBits(k);
    NumberOfUnion(Reverse(v), 64 - k, 64);
    NumberSuccessor(w, 64);
    ReverseTwice(Succ(w));
    ModBelow(Rank(v), Pow2(64 - k));
  }

  // The cursor moves forward until it wraps to 0.
  lemma CursorAdvances(v: Word, k: nat)
    requires k <= 64
    ensures NextCursor(v, LowBits(k)) == 0 || Rank(NextCursor(v, LowBits(k))) > Rank(v)
  {
    hide *;
    RankOfNext(v, k);
  }

  lemma SameBlockSameBucket(v: Word, h: Word, k: nat)
    requires k <= 64 && BlockStart(Rank(v), k) == BlockStart(Rank(h), k)
    ensures SameSlot(v, h, LowBits(k))
  {
    hide Reverse, Number, Pow2, Mirrored, Union, LowBits, SameSlot;
    MirroredLowBits(k);
    NumberOfUnion(Reverse(v), 64 - k, 64);
    NumberOfUnion(Reverse(h), 64 - k, 64);
    SameNumberSameWord(Union(Reverse(v), LowBits(64 - k)), Union(Reverse(h), LowBits(64 - k)));
    SameBucketIfSameBlock(v, h, LowBits(k));
  }

  lemma BlocksInOrder(a: nat, b: nat, p: nat)
    requires p >= 1 && a <= b && a - a % p != b - b % p
    ensures a - a % p + p <= b - b % p <= b
  {
    DivModExact(a, p);
    DivModExact(b, p);
    MulDistributes(p, b / p, a / p);
    MulDistributes(p, a / p, b / p);
    if b / p > a / p {
      MulAtLeast(p, b / p - a / p);
    } else if b / p < a / p {
      MulAtLeast(p, a / p - b / p);
    }
  }

  // A bucket not behind the cursor and not the cursor's own begins where the own bucket ends, or later.
  lemma OtherBucketAhead(v: Word, k: nat, h: Word)
    requires k <= 64 && Rank(v) <= Rank(h) && !SameSlot(v, h, LowBits(k))
    ensures BlockStart(Rank(v), k) + Pow2(64 - k) <= Rank(h) < Pow2(64)
  {
    hide Reverse, Number, Pow2, Rank, LowBits, SameSlot;
    RankBound(h);
    if BlockStart(Rank(v), k) == BlockStart(Rank(h), k) {
      SameBlockSameBucket(v, h, k);
    } else {
      BlocksInOrder(Rank(v), Rank(h), Pow2(64 - k));
    }
  }

  // Such a bucket is still ahead of the next cursor.
  lemma CursorPasses(v: Word, k: nat, h: Word)
    requires k <= 64 && Rank(v) <= Rank(h) && !SameSlot(v, h, LowBits(k))
    ensures NextCursor(v, LowBits(k)) != 0
    ensures Rank(NextCursor(v, LowBits(k))) <= Rank(h)
  {
    hide Reverse, Number, Pow2, Rank, LowBits, NextCursor, BlockStart, SameSlot;
    RankOfNext(v, k);
    OtherBucketAhead(v, k, h);
  }

  // ------------------------------------------------------------------ two tables

  // The end of a block of the larger table, seen from the smaller table.
  lemma EndWithinBlock(r: nat, k0: nat, k1: nat)
    requires k0 <= k1 <= 64
    ensures
      var end := BlockStart(r, k1) + Pow2(64 - k1);
      var end0 := BlockStart(r, k0) + Pow2(64 - k0);
      && r < end <= end0
      && (end < end0 ==> BlockStart(end, k0) == BlockStart(r, k0))
      && (end == end0 ==> end % Pow2(64 - k0) == 0)
  {
    hide Pow2;
    var p0, p1 := Pow2(64 - k0), Pow2(64 - k1);
    Pow2Sum(64 - k1, k1 - k0);
    BlocksNest(r, p1, Pow2(k1 - k0));
    ModBelow(r, p1);
    BlockEnd(r, p0, BlockStart(r, k1) + p1);
  }

  // One step through the larger table leaves the bucket of the smaller table
  // only when no bit between the two masks is left.
  lemma StaysInBucket(u: Word, k0: nat, k1: nat)
    requires k0 <= k1 <= 64
    ensures
      var next := NextCursor(u, LowBits(k1));
      var end0 := BlockStart(Rank(u), k0) + Pow2(64 - k0);
      && (BitsBetween(next, LowBits(k0), LowBits(k1)) ==>
            next != 0 && BlockStart(Rank(next), k0) == BlockStart(Rank(u), k0))
      && (next != 0 ==> Rank(u) < Rank(next) <= end0)
      && (next == 0 ==> end0 >= Pow2(64))
  {
    hide Reverse, Number, Pow2, Rank, LowBits, NextCursor, BlockStart, BitsBetween;
    var next := NextCursor(u, LowBits(k1));
    RankOfNext(u, k1);
    EndWithinBlock(Rank(u), k0, k1);
    if next == 0 {
      NothingLeft(LowBits(k0), LowBits(k1));
    } else if Rank(next) % Pow2(64 - k0) == 0 {
      NoBitsBetween(next, k0, k1);
    }
  }

  lemma NothingLeft(m0: Word, m1: Word)
    ensures !BitsBetween(0, m0, m1)
  {
  }

  lemma NoBitsBetween(next: Word, k0: nat, k1: nat)
    requires k0 <= k1 <= 64 && Rank(next) % Pow2(64 - k0) == 0
    ensures !BitsBetween(next, LowBits(k0), LowBits(k1))
  {
    hide Reverse, Number, Pow2, LowBits, Mirrored, Disjoint, Within, BitsBetween;
    MultipleHasNoLowBits(Reverse(next), 64 - k0, 64);
    MirroredLowBits(k0);
    MaskWithin(k0, k1);
    NoMaskedBits(next, LowBits(k0), LowBits(k1));
  }
}
