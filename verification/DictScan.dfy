// dictScan: the stateless scan, and why it misses nothing while the tables change between calls.
module DictScan {
  import opened Words
  import opened Cursor
  import opened DictState
  import opened Dict

  // The entries of the larger table met from cursor v on, and the cursor after them.
  ghost function Sweep(c: Chains, v: Word, k0: nat, k1: nat): (seq<Entry>, Word)
    requires k0 <= k1 <= 64
    decreases Pow2(64) - Rank(v)
  {
    var here := Bucket(c, Slot(v, LowBits(k1)));
    var next := NextCursor(v, LowBits(k1));
    if !BitsBetween(next, LowBits(k0), LowBits(k1)) then
      (here, next)
    else
      StaysInBucket(v, k0, k1);
      RankBound(v);
      RankBound(next);
      var rest := Sweep(c, next, k0, k1);
      (here + rest.0, rest.1)
  }

  // Both tables, the smaller one first.
  ghost function ScanBoth(small: Chains, k0: nat, large: Chains, k1: nat, v: Word): (seq<Entry>, Word)
    requires k0 <= k1 <= 64
  {
    var rest := Sweep(large, v, k0, k1);
    (Bucket(small, Slot(v, LowBits(k0))) + rest.0, rest.1)
  }

  // What one call hands to the callback, in order, and the cursor it returns.
  ghost function ScanStep(s: State, v: Word): (seq<Entry>, Word)
    requires s.k0 <= 62 && s.k1 <= 62
  {
    if s.nodes == {} then ([], 0)
    else if !Rehashing(s) then (Bucket(s.c0, Slot(v, LowBits(s.k0))), NextCursor(v, LowBits(s.k0)))
    else if s.k0 > s.k1 then ScanBoth(s.c1, s.k1, s.c0, s.k0, v)
    else ScanBoth(s.c0, s.k0, s.c1, s.k1, v)
  }

  method EmitChain(head: Entry?, ghost c: seq<Entry>) returns (emitted: seq<Entry>)
    requires Linked(head, c)
    ensures emitted == c
  {
    emitted := [];
    var de := head;
    while de != null
      invariant |emitted| <= |c| && emitted == c[..|emitted|] && de == At(c, |emitted|)
      decreases |c| - |emitted|
    {
      emitted := emitted + [de];
      de := de.next;
    }
  }

  method EmitBucket(t: Table, v: Word, ghost c: Chains, ghost k: nat, ghost nodes: set<Entry>)
    returns (emitted: seq<Entry>)
    requires HoldsBut(t, c, k, nodes, -1) && t.buckets != null && |c| == Pow2(k)
    ensures emitted == Bucket(c, Slot(v, LowBits(k)))
  {
    hide Slot, LowBits, Linked, Total;
    SizedBy(t, c, k, nodes, -1);
    SlotBelow(v, k);
    emitted := EmitChain(t.buckets[Slot(v, t.sizemask)], c[Slot(v, LowBits(k))]);
  }

  method EmitBoth(small: Table, large: Table, cursor: Word, ghost c0: Chains, ghost k0: nat,
                  ghost c1: Chains, ghost k1: nat, ghost nodes: set<Entry>)
    returns (emitted: seq<Entry>, v: Word)
    requires k0 <= k1 <= 62 && |c0| == Pow2(k0) && |c1| == Pow2(k1)
    requires HoldsBut(small, c0, k0, nodes, -1) && HoldsBut(large, c1, k1, nodes, -1)
    requires small.buckets != null && large.buckets != null
    ensures (emitted, v) == ScanBoth(c0, k0, c1, k1, cursor)
  {
    hide Slot, LowBits, HoldsBut, Pow2, Rank, Reverse, Number, NextCursor, Sweep, Bucket, BlockStart, BitsBetween;
    SizedBy(small, c0, k0, nodes, -1);
    SizedBy(large, c1, k1, nodes, -1);
    v := cursor;
    emitted := EmitBucket(small, v, c0, k0, nodes);
    ghost var (all, end) := ScanBoth(c0, k0, c1, k1, cursor);
    var more := true;
    while more
      invariant more ==> emitted + Sweep(c1, v, k0, k1).0 == all && Sweep(c1, v, k0, k1).1 == end
      invariant !more ==> emitted == all && v == end
      decreases more, Pow2(64) - Rank(v)
    {
      SweepUnfolds(c1, v, k0, k1, emitted);
      var bucket := EmitBucket(large, v, c1, k1, nodes);
      emitted := emitted + bucket;
      v := AdvanceCursor(v, large.sizemask);
      more := BitsBetween(v, small.sizemask, large.sizemask);
    }
  }

  lemma SweepUnfolds(c: Chains, v: Word, k0: nat, k1: nat, emitted: seq<Entry>)
    requires k0 <= k1 <= 64
    ensures
      var here := Bucket(c, Slot(v, LowBits(k1)));
      var next := NextCursor(v, LowBits(k1));
      if !BitsBetween(next, LowBits(k0), LowBits(k1)) then
        Sweep(c, v, k0, k1) == (here, next)
      else
        && Rank(v) < Rank(next) < Pow2(64)
        && Sweep(c, v, k0, k1).1 == Sweep(c, next, k0, k1).1
        && emitted + Sweep(c, v, k0, k1).0 == (emitted + here) + Sweep(c, next, k0, k1).0
  {
    hide Slot, LowBits, Rank, NextCursor, BlockStart, Pow2, BitsBetween;
    StaysInBucket(v, k0, k1);
    RankBound(NextCursor(v, LowBits(k1)));
  }

  method Scan(d: Dict, cursor: Word) returns (emitted: seq<Entry>, v: Word)
    requires d.Valid()
    ensures d.Valid() && d.s.k0 <= 62 && d.s.k1 <= 62 && (emitted, v) == ScanStep(d.s, cursor)
  {
    hide Slot, HomesOf, LowBits, WellFormed, GoodKeys, HoldsBut, Pow2, Total, ScanBoth, NextCursor;
    LayoutOf(HomesOf(d.hash), d.same, d.s);
    UsedOf(HomesOf(d.hash), d.same, d.s);
    SizedBy(d.ht0, d.s.c0, d.s.k0, d.s.nodes, -1);
    SizedBy(d.ht1, d.s.c1, d.s.k1, d.s.nodes, -1);
    if d.ht0.used + d.ht1.used == 0 {
      return [], 0;
    }
    SomethingThere(HomesOf(d.hash), d.same, d.s);
    if d.rehashidx == -1 {
      emitted := EmitBucket(d.ht0, cursor, d.s.c0, d.s.k0, d.s.nodes);
      v := AdvanceCursor(cursor, d.ht0.sizemask);
    } else {
      SizesInOrder(d.s.k0, d.s.k1);
      if d.ht0.size > d.ht1.size {
        emitted, v := EmitBoth(d.ht1, d.ht0, cursor, d.s.c1, d.s.k1, d.s.c0, d.s.k0, d.s.nodes);
      } else {
        emitted, v := EmitBoth(d.ht0, d.ht1, cursor, d.s.c0, d.s.k0, d.s.c1, d.s.k1, d.s.nodes);
      }
    }
  }

  lemma SizesInOrder(j: nat, k: nat)
    ensures Pow2(j) > Pow2(k) <==> j > k
  {
    if j > k {
      Pow2Increases(k, j);
    } else if j < k {
      Pow2Increases(j, k);
    }
  }

  // ------------------------------------------------------------------ one call

  // An entry of the larger table at or after the cursor is met, or is not passed over.
  lemma {:induction false} SweepCovers(c: Chains, v: Word, k0: nat, k1: nat, h: Word, e: Entry)
    requires k0 <= k1 <= 64
    requires e in Bucket(c, Slot(h, LowBits(k1))) && Rank(v) <= Rank(h)
    ensures
      var (met, next) := Sweep(c, v, k0, k1);
      e in met || (next != 0 && Rank(next) <= Rank(h))
    decreases Pow2(64) - Rank(v)
  {
    hide Slot, SameSlot, LowBits, Rank, NextCursor, BlockStart, Pow2, BitsBetween, Bucket;
    SweepUnfolds(c, v, k0, k1, []);
    if SameSlot(v, h, LowBits(k1)) {
      SameSlotSame(v, h, LowBits(k1));
    } else {
      CursorPasses(v, k1, h);
      var next := NextCursor(v, LowBits(k1));
      if BitsBetween(next, LowBits(k0), LowBits(k1)) {
        SweepCovers(c, next, k0, k1, h, e);
      }
    }
  }

  // The sweep stops no later than where the bucket of the smaller table ends.
  lemma {:induction false} SweepStops(c: Chains, v: Word, k0: nat, k1: nat)
    requires k0 <= k1 <= 64
    ensures
      var next := Sweep(c, v, k0, k1).1;
      var end := BlockStart(Rank(v), k0) + Pow2(64 - k0);
      if next == 0 then end >= Pow2(64) else Rank(v) < Rank(next) <= end
    decreases Pow2(64) - Rank(v)
  {
    hide Slot, SameSlot, LowBits, Rank, NextCursor, BlockStart, Pow2, BitsBetween, Bucket;
    SweepUnfolds(c, v, k0, k1, []);
    StaysInBucket(v, k0, k1);
    var next := NextCursor(v, LowBits(k1));
    if BitsBetween(next, LowBits(k0), LowBits(k1)) {
      SweepStops(c, next, k0, k1);
    }
  }

  lemma ScanBothCovers(small: Chains, k0: nat, large: Chains, k1: nat, v: Word, h: Word, e: Entry)
    requires k0 <= k1 <= 64 && Rank(v) <= Rank(h)
    requires e in Bucket(small, Slot(h, LowBits(k0))) || e in Bucket(large, Slot(h, LowBits(k1)))
    ensures
      var (met, next) := ScanBoth(small, k0, large, k1, v);
      e in met || (next != 0 && Rank(next) <= Rank(h))
  {
    hide Slot, SameSlot, LowBits, Rank, BlockStart, Pow2, Bucket;
    if e in Bucket(large, Slot(h, LowBits(k1))) {
      SweepCovers(large, v, k0, k1, h, e);
    } else if SameSlot(v, h, LowBits(k0)) {
      SameSlotSame(v, h, LowBits(k0));
    } else {
      OtherBucketAhead(v, k0, h);
      SweepStops(large, v, k0, k1);
    }
  }

  lemma ScanOneCovers(c: Chains, k: nat, v: Word, h: Word, e: Entry)
    requires k <= 64 && Rank(v) <= Rank(h) && e in Bucket(c, Slot(h, LowBits(k)))
    ensures
      var next := NextCursor(v, LowBits(k));
      e in Bucket(c, Slot(v, LowBits(k))) || (next != 0 && Rank(next) <= Rank(h))
  {
    hide Slot, SameSlot, LowBits, Rank, Bucket, NextCursor;
    if SameSlot(v, h, LowBits(k)) {
      SameSlotSame(v, h, LowBits(k));
    } else {
      CursorPasses(v, k, h);
    }
  }

  lemma ScanAnyCovers(s: State, v: Word, h: Word, e: Entry)
    requires s.k0 <= 62 && s.k1 <= 62 && e in s.nodes && Rank(v) <= Rank(h)
    requires e in Bucket(s.c0, Slot(h, LowBits(s.k0)))
             || (Rehashing(s) && e in Bucket(s.c1, Slot(h, LowBits(s.k1))))
    ensures
      var (met, next) := ScanStep(s, v);
      e in met || (next != 0 && Rank(next) <= Rank(h))
  {
    hide Slot, SameSlot, LowBits, Rank, Bucket, NextCursor, ScanBoth;
    if !Rehashing(s) {
      ScanOneCovers(s.c0, s.k0, v, h, e);
    } else if s.k0 > s.k1 {
      ScanBothCovers(s.c1, s.k1, s.c0, s.k0, v, h, e);
    } else {
      ScanBothCovers(s.c0, s.k0, s.c1, s.k1, v, h, e);
    }
  }

  // Every entry at or after the cursor is handed out, or is still at or after the next cursor.
  lemma ScanStepCovers(hash: Hash, same: Compare, s: State, v: Word, e: Entry)
    requires WellFormed(HomesOf(hash), same, s) && e in s.nodes && Rank(v) <= Rank(hash(e.key))
    requires s.k0 <= 62 && s.k1 <= 62
    ensures
      var (met, next) := ScanStep(s, v);
      e in met || (next != 0 && Rank(next) <= Rank(hash(e.key)))
  {
    hide Slot, LowBits, Rank, Bucket, ScanStep, WellFormed, HomesOf;
    PlaceOf(HomesOf(hash), same, s, e);
    SlotIsHome(hash, e.key, s.k0);
    SlotIsHome(hash, e.key, s.k1);
    ScanAnyCovers(s, v, hash(e.key), e);
  }

  // The mirror image of the cursor increases until the cursor wraps to 0.
  lemma ScanStepAdvances(s: State, v: Word)
    requires s.k0 <= 62 && s.k1 <= 62
    ensures ScanStep(s, v).1 == 0 || Rank(ScanStep(s, v).1) > Rank(v)
  {
    hide Slot, LowBits, Rank, BlockStart, Pow2, Bucket, NextCursor;
    if s.nodes != {} {
      if !Rehashing(s) {
        CursorAdvances(v, s.k0);
      } else if s.k0 > s.k1 {
        SweepStops(s.c0, v, s.k1, s.k0);
      } else {
        SweepStops(s.c1, v, s.k0, s.k1);
      }
    }
  }

  // ------------------------------------------------------------------ a whole scan

  // shapes[i] is the dictionary at call i: between two calls anything may have happened to it.
  // cursors[i] is the cursor call i is given and cursors[i + 1] the one it returns.
  ghost predicate ScanRun(hash: Hash, same: Compare, shapes: seq<State>, cursors: seq<Word>) {
    && |cursors| == |shapes| + 1
    && cursors[0] == 0
    && forall i :: 0 <= i < |shapes| ==>
         && WellFormed(HomesOf(hash), same, shapes[i])
         && shapes[i].k0 <= 62 && shapes[i].k1 <= 62
         && cursors[i + 1] == ScanStep(shapes[i], cursors[i]).1
  }

  ghost predicate Emitted(shapes: seq<State>, cursors: seq<Word>, i: nat, key: Key) {
    && i < |shapes| && i < |cursors|
    && shapes[i].k0 <= 62 && shapes[i].k1 <= 62
    && key in shapes[i].entries && shapes[i].entries[key] in ScanStep(shapes[i], cursors[i]).0
  }

  // A key present at every call and not yet handed out is still ahead of the cursor.
  lemma {:induction false} StillAhead(hash: Hash, same: Compare, shapes: seq<State>, cursors: seq<Word>, key: Key,
                                      n: nat)
    requires ScanRun(hash, same, shapes, cursors) && n <= |shapes|
    requires forall i :: 0 <= i < |shapes| ==> key in shapes[i].entries
    requires forall i: nat :: i < n ==> !Emitted(shapes, cursors, i, key)
    ensures Rank(cursors[n]) <= Rank(hash(key)) && (n > 0 ==> cursors[n] != 0)
    decreases n
  {
    hide Rank, ScanStep, WellFormed, HomesOf;
    if n == 0 {
      RankOfZero();
    } else {
      StillAhead(hash, same, shapes, cursors, key, n - 1);
      var s := shapes[n - 1];
      UsedOf(HomesOf(hash), same, s);
      assert !Emitted(shapes, cursors, n - 1, key);
      ScanStepCovers(hash, same, s, cursors[n - 1], s.entries[key]);
    }
  }

  // The guarantee of a scan: from cursor 0 until 0 comes back, a key that was present at
  // every call has been handed to the callback.
  lemma ScanGuarantee(hash: Hash, same: Compare, shapes: seq<State>, cursors: seq<Word>, key: Key)
    requires ScanRun(hash, same, shapes, cursors) && |shapes| > 0 && cursors[|shapes|] == 0
    requires forall i :: 0 <= i < |shapes| ==> key in shapes[i].entries
    ensures exists i: nat :: i < |shapes| && Emitted(shapes, cursors, i, key)
  {
    hide ScanRun, Emitted;
    assert |cursors| == |shapes| + 1 by {
      RunLength(hash, same, shapes, cursors);
    }
    if forall i: nat :: i < |shapes| ==> !Emitted(shapes, cursors, i, key) {
      StillAhead(hash, same, shapes, cursors, key, |shapes|);
    }
  }

  lemma RunLength(hash: Hash, same: Compare, shapes: seq<State>, cursors: seq<Word>)
    requires ScanRun(hash, same, shapes, cursors)
    ensures |cursors| == |shapes| + 1
  {
  }

  // A scan that has not come back to 0 has made fewer calls than the rank of its cursor allows.
  lemma {:induction false} ScanEnds(hash: Hash, same: Compare, shapes: seq<State>, cursors: seq<Word>, n: nat)
    requires ScanRun(hash, same, shapes, cursors) && n <= |shapes|
    requires forall i :: 1 <= i <= n ==> cursors[i] != 0
    ensures n <= Rank(cursors[n]) < Pow2(64)
    decreases n
  {
    hide Rank, ScanStep, WellFormed, HomesOf, Pow2;
    RankBound(cursors[n]);
    if n > 0 {
      ScanEnds(hash, same, shapes, cursors, n - 1);
      ScanStepAdvances(shapes[n - 1], cursors[n - 1]);
    }
  }
}
