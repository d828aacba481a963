// A scan of a dictionary that does not change: as many calls as the smaller table has buckets, and every entry once.
module ScanExact {
  import opened Arithmetic
  import opened Words
  import opened Cursor
  import opened DictState
  import opened Dict
  import opened DictScan

  // ------------------------------------------------------------------ cursors and blocks

  // Words without the j lowest bits are multiples of 2^j.
  lemma {:induction false} DisjointIsMultiple(x: Word, j: nat, n: nat)
    requires j <= n <= 64 && Disjoint(x, LowBits(j))
    ensures Number(x, n) % Pow2(j) == 0
    decreases n
  {
    hide Half, Bit, Disjoint;
    if j > 0 {
      LowBitsOdd(j);
      DisjointHalves(x, LowBits(j));
      assert Half(LowBits(j)) == LowBits(j - 1);
      DisjointIsMultiple(Half(x), j - 1, n - 1);
      ModOfDouble(Number(Half(x), n - 1), Bit(x), Pow2(j - 1));
    }
  }

  lemma NoBitsLeft(n: Word, m0: Word, m1: Word)
    requires Disjoint(Reverse(n), Mirrored(m1)) && Within(m0, m1) && !BitsBetween(n, m0, m1)
    ensures Disjoint(Reverse(n), Mirrored(m0))
  {
  }

  // At the start of a bucket of the larger table no bit between the masks is set only at the start of one of the smaller.
  lemma StopsAtStart(next: Word, k0: nat, k1: nat)
    requires k0 <= k1 <= 64 && Rank(next) % Pow2(64 - k1) == 0 && !BitsBetween(next, LowBits(k0), LowBits(k1))
    ensures Rank(next) % Pow2(64 - k0) == 0
  {
    hide Reverse, Number, Pow2, LowBits, Mirrored, Disjoint, Within, BitsBetween;
    MultipleHasNoLowBits(Reverse(next), 64 - k1, 64);
    MirroredLowBits(k1);
    MirroredLowBits(k0);
    MaskWithin(k0, k1);
    NoBitsLeft(next, LowBits(k0), LowBits(k1));
    DisjointIsMultiple(Reverse(next), 64 - k0, 64);
  }

  function Masked(v: Word, m: Word): Word { v & m }

  lemma ReverseMasked(v: Word, m: Word)
    ensures Reverse(Masked(v, m)) == Masked(Reverse(v), Reverse(m))
  {
  }

  lemma MaskedSame(v: Word, h: Word, m: Word)
    requires SameSlot(v, h, m)
    ensures Masked(v, m) == Masked(h, m)
  {
  }

  lemma MaskedUnion(x: Word, y: Word, r: Word)
    requires Masked(x, r) == Masked(y, r)
    ensures Union(x, !r) == Union(y, !r)
  {
  }

  lemma SameBucketUnion(v: Word, h: Word, m: Word)
    requires SameSlot(v, h, m)
    ensures Union(Reverse(v), Mirrored(m)) == Union(Reverse(h), Mirrored(m))
  {
    hide Reverse, Union, Masked, SameSlot;
    MaskedSame(v, h, m);
    ReverseMasked(v, m);
    ReverseMasked(h, m);
    MaskedUnion(Reverse(v), Reverse(h), Reverse(m));
  }

  lemma SameBucketSameBlock(v: Word, h: Word, k: nat)
    requires k <= 64 && SameSlot(v, h, LowBits(k))
    ensures BlockStart(Rank(v), k) == BlockStart(Rank(h), k)
  {
    hide Reverse, Number, Pow2, Mirrored, Union, LowBits, SameSlot;
    SameBucketUnion(v, h, LowBits(k));
    MirroredLowBits(k);
    NumberOfUnion(Reverse(v), 64 - k, 64);
    NumberOfUnion(Reverse(h), 64 - k, 64);
  }

  lemma SameIndexSameSlot(v: Word, h: Word, m: Word)
    requires Slot(v, m) == Slot(h, m)
    ensures SameSlot(v, h, m)
  {
    SameNumberSameWord(v & m, h & m);
  }

  // A bucket holds the hashes whose mirror images lie in one block.
  lemma SlotsTellBlocks(v: Word, h: Word, k: nat)
    requires k <= 64
    ensures Slot(v, LowBits(k)) == Slot(h, LowBits(k)) <==> BlockStart(Rank(v), k) == BlockStart(Rank(h), k)
  {
    hide Rank, LowBits, SameSlot, Slot, BlockStart;
    if Slot(v, LowBits(k)) == Slot(h, LowBits(k)) {
      SameIndexSameSlot(v, h, LowBits(k));
      SameBucketSameBlock(v, h, k);
    } else if BlockStart(Rank(v), k) == BlockStart(Rank(h), k) {
      SameBlockSameBucket(v, h, k);
      SameSlotSame(v, h, LowBits(k));
    }
  }

  lemma InBlock(r: nat, h: nat, p: nat)
    requires p >= 1 && r % p == 0
    ensures h - h % p == r <==> r <= h < r + p
  {
    DivModExact(r, p);
    DivModExact(h, p);
    if r <= h < r + p {
      ModUnique(h, p, r / p, h - r);
    }
  }

  // From the start of a block on, its hashes are those below its end.
  lemma InsideBlock(v: Word, h: Word, k: nat)
    requires k <= 64 && Rank(v) % Pow2(64 - k) == 0
    ensures Slot(v, LowBits(k)) == Slot(h, LowBits(k)) <==> Rank(v) <= Rank(h) < Rank(v) + Pow2(64 - k)
  {
    hide Rank, LowBits, Slot, Pow2;
    SlotsTellBlocks(v, h, k);
    InBlock(Rank(v), Rank(h), Pow2(64 - k));
  }

  // ------------------------------------------------------------------ one call

  // Where the block of the smaller table ends.
  function End(r: nat, k: nat): int
    requires k <= 64
  {
    BlockStart(r, k) + Pow2(64 - k)
  }

  // The cursor stands at `end`; 0 is the end of everything.
  predicate StandsAt(v: Word, end: int) { if v == 0 then end == Pow2(64) else Rank(v) == end }

  // The sweep ends where the block of the smaller table does.
  lemma {:induction false} SweepEnds(c: Chains, v: Word, k0: nat, k1: nat)
    requires k0 <= k1 <= 64
    ensures StandsAt(Sweep(c, v, k0, k1).1, End(Rank(v), k0))
    decreases Pow2(64) - Rank(v)
  {
    hide Slot, LowBits, Rank, NextCursor, BlockStart, Pow2, BitsBetween, Bucket;
    SweepUnfolds(c, v, k0, k1, []);
    StaysInBucket(v, k0, k1);
    var next := NextCursor(v, LowBits(k1));
    if BitsBetween(next, LowBits(k0), LowBits(k1)) {
      SweepEnds(c, next, k0, k1);
    } else {
      EndOfStep(v, k0, k1);
    }
  }

  lemma EndOfStep(v: Word, k0: nat, k1: nat)
    requires k0 <= k1 <= 64 && !BitsBetween(NextCursor(v, LowBits(k1)), LowBits(k0), LowBits(k1))
    ensures StandsAt(NextCursor(v, LowBits(k1)), End(Rank(v), k0))
  {
    hide LowBits, Rank, NextCursor, Pow2, BitsBetween;
    var next := NextCursor(v, LowBits(k1));
    var r, p0, p1 := Rank(v), Pow2(64 - k0), Pow2(64 - k1);
    RankOfNext(v, k1);
    EndWithinBlock(r, k0, k1);
    RankBound(v);
    WholeEnd(r, k0);
    if next != 0 {
      DivModExact(r, p1);
      MulDistributes(p1, r / p1, 1);
      ModUnique(Rank(next), p1, r / p1 + 1, 0);
      StopsAtStart(next, k0, k1);
      BlockEnd(r, p0, Rank(next));
    }
  }

  // Blocks end within the range of words.
  lemma WholeEnd(r: nat, k: nat)
    requires k <= 64 && r < Pow2(64)
    ensures End(r, k) <= Pow2(64)
  {
    hide Pow2;
    Pow2Sum(64 - k, k);
    LastBlockFits(r, Pow2(64 - k), Pow2(k));
  }

  // The entries of a table whose mirrored hashes lie from one rank on to another.
  ghost predicate Ranged(hash: Hash, c: Chains, k: nat, e: Entry, from: int, to: int) {
    k <= 62 && e in Bucket(c, HomesOf(hash)(e.key, k)) && from <= Rank(hash(e.key)) < to
  }

  // One bucket, from its start on.
  lemma BucketRange(hash: Hash, c: Chains, k: nat, nodes: set<Entry>, v: Word, e: Entry)
    requires k <= 62 && Homed(HomesOf(hash), c, k, nodes) && Rank(v) % Pow2(64 - k) == 0
    ensures e in Bucket(c, Slot(v, LowBits(k))) <==> Ranged(hash, c, k, e, Rank(v), Rank(v) + Pow2(64 - k))
  {
    hide Rank, LowBits, Slot, Pow2;
    InsideBlock(v, hash(e.key), k);
    SlotIsHome(hash, e.key, k);
  }

  lemma {:induction false} SweepRange(hash: Hash, c: Chains, k0: nat, k1: nat, nodes: set<Entry>, v: Word)
    requires k0 <= k1 <= 62 && Homed(HomesOf(hash), c, k1, nodes) && Rank(v) % Pow2(64 - k1) == 0
    ensures var met := Sweep(c, v, k0, k1).0;
      Distinct(met) && forall e :: e in met <==> Ranged(hash, c, k1, e, Rank(v), End(Rank(v), k0))
    decreases Pow2(64) - Rank(v)
  {
    hide Slot, LowBits, Rank, NextCursor, BlockStart, Pow2, BitsBetween, Bucket, HomesOf, Homed, Ranged, Distinct;
    var r, p1 := Rank(v), Pow2(64 - k1);
    var here, next := Bucket(c, Slot(v, LowBits(k1))), NextCursor(v, LowBits(k1));
    SweepUnfolds(c, v, k0, k1, []);
    StaysInBucket(v, k0, k1);
    BucketDistinct(hash, c, k1, nodes, Slot(v, LowBits(k1)));
    StartOfNext(v, k1);
    var rest := if BitsBetween(next, LowBits(k0), LowBits(k1)) then Sweep(c, next, k0, k1).0 else [];
    assert Sweep(c, v, k0, k1).0 == here + rest;
    forall e
      ensures e in here <==> Ranged(hash, c, k1, e, r, r + p1)
    {
      BucketRange(hash, c, k1, nodes, v, e);
    }
    if BitsBetween(next, LowBits(k0), LowBits(k1)) {
      SweepRange(hash, c, k0, k1, nodes, next);
    } else {
      EndOfStep(v, k0, k1);
      NoneRanged(hash, c, k1, r + p1, End(r, k0));
      NoneTwice();
    }
    RangesJoin(hash, c, k1, r, r + p1, End(r, k0), here, rest);
  }

  lemma BucketDistinct(hash: Hash, c: Chains, k: nat, nodes: set<Entry>, i: nat)
    requires Homed(HomesOf(hash), c, k, nodes)
    ensures Distinct(Bucket(c, i))
  {
    hide HomesOf;
  }

  lemma NoneTwice()
    ensures Distinct([])
  {
  }

  lemma NoneRanged(hash: Hash, c: Chains, k: nat, from: int, to: int)
    requires from >= to
    ensures forall e :: !Ranged(hash, c, k, e, from, to)
  {
  }

  // The start of a block of the larger table, its end, and what comes next.
  lemma StartOfNext(v: Word, k: nat)
    requires k <= 62 && Rank(v) % Pow2(64 - k) == 0
    ensures StandsAt(NextCursor(v, LowBits(k)), Rank(v) + Pow2(64 - k))
    ensures NextCursor(v, LowBits(k)) != 0 ==> Rank(NextCursor(v, LowBits(k))) % Pow2(64 - k) == 0
  {
    hide LowBits, Rank, NextCursor, Pow2;
    var r, p := Rank(v), Pow2(64 - k);
    RankOfNext(v, k);
    DivModExact(r, p);
    MulDistributes(p, r / p, 1);
    ModUnique(r + p, p, r / p + 1, 0);
  }

  lemma RangesJoin(hash: Hash, c: Chains, k: nat, a: int, b: int, d: int, here: seq<Entry>, rest: seq<Entry>)
    requires Distinct(here) && Distinct(rest) && a <= b <= d
    requires forall e :: e in here <==> Ranged(hash, c, k, e, a, b)
    requires forall e :: e in rest <==> Ranged(hash, c, k, e, b, d)
    ensures Distinct(here + rest)
    ensures forall e :: e in here + rest <==> Ranged(hash, c, k, e, a, d)
  {
    hide Rank, HomesOf, Bucket, Distinct;
    assert forall e :: e in here ==> e !in rest;
    DistinctJoin(here, rest);
    assert forall e :: e in here + rest <==> e in here || e in rest;
  }

  lemma DistinctJoin(a: seq<Entry>, b: seq<Entry>)
    requires Distinct(a) && Distinct(b) && forall e :: e in a ==> e !in b
    ensures Distinct(a + b)
  {
    var s := a + b;
    forall i, j | 0 <= i < j < |s|
      ensures s[i] != s[j]
    {
      if i < |a| <= j {
        assert a[i] in a && b[j - |a|] in b;
      }
    }
  }

  // The size of the smaller table, or of the only one.
  function Smaller(s: State): nat { if Rehashing(s) && s.k1 < s.k0 then s.k1 else s.k0 }

  // What a call from the start of a block hands out, if the table holds entries: those of the block.
  ghost predicate Exactly(hash: Hash, s: State, met: seq<Entry>, from: int, to: int) {
    && Distinct(met)
    && (forall e :: e in met ==> e in s.nodes && from <= Rank(hash(e.key)) < to)
    && (forall e :: e in s.nodes && from <= Rank(hash(e.key)) < to ==> e in met)
  }

  // The mirrored cursor after a call is the end of the block of the smaller table that holds the mirrored cursor.
  lemma StepEnds(hash: Hash, same: Compare, s: State, v: Word)
    requires WellFormed(HomesOf(hash), same, s) && s.nodes != {} && s.k0 <= 62 && s.k1 <= 62
    ensures StandsAt(ScanStep(s, v).1, End(Rank(v), Smaller(s)))
  {
    hide Slot, LowBits, Rank, Pow2, Bucket, NextCursor, WellFormed, HomesOf;
    if !Rehashing(s) {
      RankOfNext(v, s.k0);
    } else if s.k0 > s.k1 {
      SweepEnds(s.c0, v, s.k1, s.k0);
    } else {
      SweepEnds(s.c1, v, s.k0, s.k1);
    }
  }

  // From the start of a block on, exactly the entries of the block are handed out, each once.
  lemma StepExactly(hash: Hash, same: Compare, s: State, v: Word)
    requires WellFormed(HomesOf(hash), same, s) && s.nodes != {} && s.k0 <= 62 && s.k1 <= 62
    requires Rank(v) % Pow2(64 - Smaller(s)) == 0
    ensures Exactly(hash, s, ScanStep(s, v).0, Rank(v), End(Rank(v), Smaller(s)))
  {
    hide Slot, LowBits, Rank, Pow2, Bucket, NextCursor, WellFormed, HomesOf, Homed, Exactly, Sweep;
    HomedOf(HomesOf(hash), same, s);
    if !Rehashing(s) {
      OneExactly(hash, same, s, v);
    } else if s.k0 > s.k1 {
      BothExactly(hash, same, s, v, s.c1, s.k1, s.c0, s.k0);
    } else {
      BothExactly(hash, same, s, v, s.c0, s.k0, s.c1, s.k1);
    }
  }

  lemma HomedOf(home: Homes, same: Compare, s: State)
    requires WellFormed(home, same, s)
    ensures Homed(home, s.c0, s.k0, s.nodes) && Homed(home, s.c1, s.k1, s.nodes)
  {
  }

  lemma OneExactly(hash: Hash, same: Compare, s: State, v: Word)
    requires WellFormed(HomesOf(hash), same, s) && !Rehashing(s) && s.k0 <= 62
    requires Rank(v) % Pow2(64 - s.k0) == 0
    ensures Exactly(hash, s, Bucket(s.c0, Slot(v, LowBits(s.k0))), Rank(v), End(Rank(v), s.k0))
  {
    hide Slot, LowBits, Rank, Pow2, WellFormed, HomesOf, Homed, Bucket, Distinct;
    HomedOf(HomesOf(hash), same, s);
    BucketDistinct(hash, s.c0, s.k0, s.nodes, Slot(v, LowBits(s.k0)));
    forall e: Entry
      ensures e in Bucket(s.c0, Slot(v, LowBits(s.k0)))
        <==> e in s.nodes && Rank(v) <= Rank(hash(e.key)) < End(Rank(v), s.k0)
    {
      BucketRange(hash, s.c0, s.k0, s.nodes, v, e);
      WhereIs(hash, same, s, e);
      assert Ranged(hash, s.c0, s.k0, e, Rank(v), End(Rank(v), s.k0))
        <==> e in s.nodes && Rank(v) <= Rank(hash(e.key)) < End(Rank(v), s.k0);
    }
    assert Distinct(Bucket(s.c0, Slot(v, LowBits(s.k0))));
  }

  // Where an entry is.
  lemma WhereIs(hash: Hash, same: Compare, s: State, e: Entry)
    requires WellFormed(HomesOf(hash), same, s)
    ensures var (a, b) := (e in Bucket(s.c0, HomesOf(hash)(e.key, s.k0)), e in Bucket(s.c1, HomesOf(hash)(e.key, s.k1)));
      !(a && b) && (e in s.nodes <==> a || b) && (b ==> Rehashing(s))
  {
    hide HomesOf;
    EntryFacts(HomesOf(hash), same, s, e);
  }

  lemma BothExactly(hash: Hash, same: Compare, s: State, v: Word, small: Chains, k0: nat, large: Chains, k1: nat)
    requires WellFormed(HomesOf(hash), same, s) && k0 <= k1 <= 62 && Rank(v) % Pow2(64 - k0) == 0
    requires (small, k0, large, k1) == (s.c0, s.k0, s.c1, s.k1) || (small, k0, large, k1) == (s.c1, s.k1, s.c0, s.k0)
    ensures Exactly(hash, s, ScanBoth(small, k0, large, k1, v).0, Rank(v), End(Rank(v), k0))
  {
    hide Slot, LowBits, Rank, Pow2, WellFormed, HomesOf, Homed, Bucket, Distinct, Sweep;
    HomedOf(HomesOf(hash), same, s);
    var r, end := Rank(v), End(Rank(v), k0);
    var here, rest := Bucket(small, Slot(v, LowBits(k0))), Sweep(large, v, k0, k1).0;
    BucketDistinct(hash, small, k0, s.nodes, Slot(v, LowBits(k0)));
    StartOfBoth(r, k0, k1);
    SweepRange(hash, large, k0, k1, s.nodes, v);
    forall e | e in here
      ensures e !in rest
    {
      BothRanged(hash, same, s, v, small, k0, large, k1, e);
    }
    DistinctJoin(here, rest);
    forall e | e in here + rest
      ensures e in s.nodes && r <= Rank(hash(e.key)) < end
    {
      BothRanged(hash, same, s, v, small, k0, large, k1, e);
    }
    forall e | e in s.nodes && r <= Rank(hash(e.key)) < end
      ensures e in here + rest
    {
      BothRanged(hash, same, s, v, small, k0, large, k1, e);
    }
  }

  lemma BothRanged(hash: Hash, same: Compare, s: State, v: Word, small: Chains, k0: nat, large: Chains, k1: nat,
                   e: Entry)
    requires WellFormed(HomesOf(hash), same, s) && k0 <= k1 <= 62 && Rank(v) % Pow2(64 - k0) == 0
    requires (small, k0, large, k1) == (s.c0, s.k0, s.c1, s.k1) || (small, k0, large, k1) == (s.c1, s.k1, s.c0, s.k0)
    ensures var (here, rest) := (e in Bucket(small, Slot(v, LowBits(k0))), e in Sweep(large, v, k0, k1).0);
      !(here && rest) && (here || rest <==> e in s.nodes && Rank(v) <= Rank(hash(e.key)) < End(Rank(v), k0))
  {
    hide Slot, LowBits, Rank, Pow2, WellFormed, HomesOf, Homed, Bucket, Distinct, Sweep;
    HomedOf(HomesOf(hash), same, s);
    StartOfBoth(Rank(v), k0, k1);
    BucketRange(hash, small, k0, s.nodes, v, e);
    SweepRange(hash, large, k0, k1, s.nodes, v);
    WhereIs(hash, same, s, e);
  }

  lemma StartOfBoth(r: nat, k0: nat, k1: nat)
    requires k0 <= k1 <= 64 && r % Pow2(64 - k0) == 0
    ensures r % Pow2(64 - k1) == 0
  {
    hide Pow2;
    var p0, p1, q := Pow2(64 - k0), Pow2(64 - k1), Pow2(k1 - k0);
    Pow2Sum(64 - k1, k1 - k0);
    DivModExact(r, p0);
    MulAssociative(p1, q, r / p0);
    ModUnique(r, p1, q * (r / p0), 0);
  }

  // ------------------------------------------------------------------ a whole scan

  // The cursor after n calls, and what they have handed out.
  ghost function CursorAfter(s: State, v: Word, n: nat): Word
    requires s.k0 <= 62 && s.k1 <= 62
    decreases n
  {
    if n == 0 then v else CursorAfter(s, ScanStep(s, v).1, n - 1)
  }

  ghost function Handed(s: State, v: Word, n: nat): seq<Entry>
    requires s.k0 <= 62 && s.k1 <= 62
    decreases n
  {
    if n == 0 then [] else ScanStep(s, v).0 + Handed(s, ScanStep(s, v).1, n - 1)
  }

  // From the start of block i on, n calls pass n blocks.
  lemma {:induction false} CallsExactly(hash: Hash, same: Compare, s: State, v: Word, i: nat, n: nat)
    requires WellFormed(HomesOf(hash), same, s) && s.nodes != {} && s.k0 <= 62 && s.k1 <= 62
    requires i + n <= Pow2(Smaller(s)) && Rank(v) == Pow2(64 - Smaller(s)) * i
    ensures var p := Pow2(64 - Smaller(s));
      && (n > 0 ==> StandsAt(CursorAfter(s, v, n), p * (i + n))) && Exactly(hash, s, Handed(s, v, n), p * i, p * (i + n))
    decreases n
  {
    hide Slot, LowBits, Rank, Pow2, WellFormed, HomesOf, Exactly, ScanStep, End, StandsAt;
    var k := Smaller(s);
    var p := Pow2(64 - k);
    if n == 0 {
      NothingExactly(hash, s, p * i);
    } else {
      var (met, next) := ScanStep(s, v);
      ModUnique(Rank(v), p, i, 0);
      EndOfBlock(Rank(v), k, i);
      StepEnds(hash, same, s, v);
      StepExactly(hash, same, s, v);
      if n == 1 {
        NothingExactly(hash, s, p * (i + 1));
      } else {
        Inside(next, k, i + 1);
        CallsExactly(hash, same, s, next, i + 1, n - 1);
      }
      MulMonotone(p, i, i + 1);
      MulMonotone(p, i + 1, i + n);
      ExactlyJoin(hash, s, met, Handed(s, next, n - 1), p * i, p * (i + 1), p * (i + n));
    }
  }

  lemma NothingExactly(hash: Hash, s: State, r: int)
    ensures Exactly(hash, s, [], r, r)
  {
  }

  lemma EndOfBlock(r: nat, k: nat, i: nat)
    requires k <= 64 && r == Pow2(64 - k) * i && r % Pow2(64 - k) == 0
    ensures End(r, k) == Pow2(64 - k) * (i + 1)
  {
    hide Pow2;
    MulDistributes(Pow2(64 - k), i, 1);
  }

  // A cursor at the start of a block that is not the last end is not 0.
  lemma Inside(v: Word, k: nat, i: nat)
    requires k <= 64 && StandsAt(v, Pow2(64 - k) * i) && i < Pow2(k)
    ensures v != 0 && Rank(v) == Pow2(64 - k) * i
  {
    hide Pow2, Rank;
    var p := Pow2(64 - k);
    Pow2Sum(64 - k, k);
    MulMonotone(p, i + 1, Pow2(k));
    MulDistributes(p, i, 1);
  }

  lemma ExactlyJoin(hash: Hash, s: State, a: seq<Entry>, b: seq<Entry>, i: int, j: int, k: int)
    requires Exactly(hash, s, a, i, j) && Exactly(hash, s, b, j, k) && i <= j <= k
    ensures Exactly(hash, s, a + b, i, k)
  {
    hide Rank, Distinct;
    DistinctJoin(a, b);
    assert forall e :: e in a + b <==> e in a || e in b;
  }

  // How many calls a scan takes while the dictionary does not change.
  function Calls(s: State): nat { if s.nodes == {} then 1 else Pow2(Smaller(s)) }

  // The cursor comes back to 0 after exactly as many calls as the smaller table has buckets.
  lemma ScanTakes(hash: Hash, same: Compare, s: State, n: nat)
    requires WellFormed(HomesOf(hash), same, s) && s.k0 <= 62 && s.k1 <= 62 && 0 < n <= Calls(s)
    ensures CursorAfter(s, 0, n) == 0 <==> n == Calls(s)
  {
    hide Slot, LowBits, Rank, Pow2, WellFormed, HomesOf, Exactly, ScanStep, CursorAfter;
    if s.nodes == {} {
      OneCall(s);
      NothingMet(s);
    } else {
      var k := Smaller(s);
      RankOfZero();
      CallsExactly(hash, same, s, 0, 0, n);
      if n < Pow2(k) {
        Inside(CursorAfter(s, 0, n), k, n);
      } else {
        Pow2Sum(64 - k, k);
        RankBound(CursorAfter(s, 0, n));
      }
    }
  }

  // By then every entry has been handed out exactly once.
  lemma ScanHandsOut(hash: Hash, same: Compare, s: State)
    requires WellFormed(HomesOf(hash), same, s) && s.k0 <= 62 && s.k1 <= 62
    ensures multiset(Handed(s, 0, Calls(s))) == multiset(s.nodes)
  {
    hide Slot, LowBits, Rank, Pow2, WellFormed, HomesOf, Distinct, ScanStep, Handed;
    var all := Handed(s, 0, Calls(s));
    if s.nodes == {} {
      OneCall(s);
      NothingMet(s);
    } else {
      var k := Smaller(s);
      RankOfZero();
      CallsExactly(hash, same, s, 0, 0, Pow2(k));
      Pow2Sum(64 - k, k);
      forall e: Entry
        ensures e in all <==> e in s.nodes
      {
        RankBound(hash(e.key));
      }
      OnceEach(all, s.nodes);
    }
  }

  lemma NothingMet(s: State)
    requires s.nodes == {} && s.k0 <= 62 && s.k1 <= 62
    ensures ScanStep(s, 0) == ([], 0)
  {
  }

  lemma OnceEach(a: seq<Entry>, nodes: set<Entry>)
    requires Distinct(a) && forall e :: e in a <==> e in nodes
    ensures multiset(a) == multiset(nodes)
  {
    forall e: Entry
      ensures multiset(a)[e] == multiset(nodes)[e]
    {
      OnceIn(a, e);
    }
  }

  lemma {:induction false} OnceIn(a: seq<Entry>, e: Entry)
    requires Distinct(a)
    ensures multiset(a)[e] == if e in a then 1 else 0
  {
    if a != [] {
      assert a == [a[0]] + a[1..];
      assert forall i :: 0 <= i < |a| - 1 ==> a[1..][i] == a[i + 1];
      OnceIn(a[1..], e);
    }
  }

  // A whole scan, as callers loop over dictScan until it returns 0.
  method ScanAll(d: Dict) returns (all: seq<Entry>, calls: nat)
    requires d.Valid()
    ensures calls == Calls(d.s) && multiset(all) == multiset(d.s.nodes)
  {
    hide Slot, HomesOf, LowBits, WellFormed, GoodKeys, HoldsBut, Pow2, Rank, ScanStep, Calls, CursorAfter, Handed;
    var v: Word;
    all, v := Scan(d, 0);
    calls := 1;
    OneCall(d.s);
    while v != 0
      invariant 0 < calls <= Calls(d.s) && v == CursorAfter(d.s, 0, calls) && all == Handed(d.s, 0, calls)
      invariant d.Valid()
      modifies {}
      decreases Calls(d.s) - calls
    {
      ScanTakes(d.hash, d.same, d.s, calls);
      OneMore(d.s, 0, calls);
      var met;
      met, v := Scan(d, v);
      all := all + met;
      calls := calls + 1;
    }
    ScanTakes(d.hash, d.same, d.s, calls);
    ScanHandsOut(d.hash, d.same, d.s);
  }

  lemma OneCall(s: State)
    requires s.k0 <= 62 && s.k1 <= 62
    ensures Calls(s) >= 1 && CursorAfter(s, 0, 1) == ScanStep(s, 0).1 && Handed(s, 0, 1) == ScanStep(s, 0).0
  {
    hide ScanStep;
    assert CursorAfter(s, 0, 1) == CursorAfter(s, ScanStep(s, 0).1, 0);
    assert Handed(s, 0, 1) == ScanStep(s, 0).0 + Handed(s, ScanStep(s, 0).1, 0);
  }

  lemma {:induction false} OneMore(s: State, v: Word, n: nat)
    requires s.k0 <= 62 && s.k1 <= 62
    ensures CursorAfter(s, v, n + 1) == ScanStep(s, CursorAfter(s, v, n)).1
    ensures Handed(s, v, n + 1) == Handed(s, v, n) + ScanStep(s, CursorAfter(s, v, n)).0
    decreases n
  {
    hide ScanStep;
    var (met, next) := ScanStep(s, v);
    if n > 0 {
      OneMore(s, next, n - 1);
      assert Handed(s, v, n + 1) == met + Handed(s, next, n);
    } else {
      assert CursorAfter(s, v, 1) == CursorAfter(s, next, 0);
      assert Handed(s, v, 1) == met + Handed(s, next, 0);
    }
  }
}
