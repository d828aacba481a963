// The dictionary itself: two bucket arrays of linked entries, changed in place.
// The ghost field `s` says which chains the links spell out.
module Dict {
  import opened Words
  import opened DictState

  datatype Table = Table(buckets: array?<Entry?>, size: nat, sizemask: Word, used: nat)

  const NO_TABLE := Table(null, 0, 0, 0)
  const INITIAL_SIZE: nat := 4
  const FORCE_RESIZE_RATIO: nat := 5

  function HomesOf(hash: Hash): Homes {
    (key: Key, k: nat) => if k <= 62 then Slot(hash(key), LowBits(k)) else 0
  }

  lemma HomesOfGood(hash: Hash)
    ensures GoodHomes(HomesOf(hash))
  {
    hide Slot;
    forall key: Key, k: nat | k <= 62
      ensures HomesOf(hash)(key, k) < Pow2(k)
    {
      SlotBelow(hash(key), k);
    }
  }

  lemma SlotIsHome(hash: Hash, key: Key, k: nat)
    requires k <= 62
    ensures Slot(hash(key), LowBits(k)) == HomesOf(hash)(key, k)
  {
  }

  function At(c: seq<Entry>, j: nat): Entry? {
    if j < |c| then c[j] else null
  }

  // Following `next` from head visits exactly the entries of c.
  ghost predicate Linked(head: Entry?, c: seq<Entry>)
    reads c`next
  {
    head == At(c, 0) && forall j :: 0 <= j < |c| ==> c[j].next == At(c, j + 1)
  }

  lemma LinkedTail(head: Entry?, c: seq<Entry>)
    requires Linked(head, c) && c != []
    ensures head == c[0] && Linked(c[0].next, c[1..])
  {
  }

  lemma LinkedCons(e: Entry, c: seq<Entry>)
    requires Linked(e.next, c)
    ensures Linked(e, [e] + c)
  {
  }

  ghost predicate Owned(c: Chains, nodes: set<Entry>) {
    forall i, e :: 0 <= i < |c| && e in c[i] ==> e in nodes
  }

  ghost predicate Sized(t: Table, c: Chains, k: nat) {
    if t.buckets == null then t == NO_TABLE && c == []
    else
      && c != [] && k <= 62
      && t.buckets.Length == |c| == t.size
      && t.sizemask == LowBits(k)
      && t.used == Total(c)
  }

  // Table t holds the chains c, except perhaps in bucket `skip`.
  ghost predicate HoldsBut(t: Table, c: Chains, k: nat, nodes: set<Entry>, skip: int)
    reads t.buckets, nodes`next
  {
    && Sized(t, c, k)
    && Owned(c, nodes)
    && forall i :: 0 <= i < |c| && i != skip ==> Linked(t.buckets[i], c[i])
  }

  lemma SizedBy(t: Table, c: Chains, k: nat, nodes: set<Entry>, skip: int)
    requires HoldsBut(t, c, k, nodes, skip)
    ensures Sized(t, c, k) && t.used == Total(c)
  {
  }

  // Links e in front of bucket h of table t; the other table, with the chains d, is left alone.
  method PushFront(t: Table, h: nat, e: Entry,
                   ghost c: Chains, ghost k: nat, ghost nodes: set<Entry>, ghost more: set<Entry>,
                   ghost other: Table, ghost d: Chains, ghost j: nat, ghost skip: int)
    requires HoldsBut(t, c, k, nodes, -1) && h < |c| && Nowhere(e, c, -1)
    requires HoldsBut(other, d, j, nodes, skip) && Nowhere(e, d, skip)
    requires nodes <= more && e in more
    requires other.buckets != t.buckets
    modifies t.buckets, e`next
    ensures HoldsBut(t.(used := t.used + 1), c[h := [e] + c[h]], k, more, -1)
    ensures HoldsBut(other, d, j, more, skip)
  {
    hide Total, Linked;
    e.next := t.buckets[h];
    t.buckets[h] := e;
    LinkedCons(e, c[h]);
    TotalUpdate(c, h, [e] + c[h]);
  }

  // Chain i is not looked at, so its first entry may be forgotten.
  lemma PopSkipped(t: Table, c: Chains, k: nat, nodes: set<Entry>, i: nat)
    requires HoldsBut(t, c, k, nodes, i) && i < |c| && c[i] != []
    ensures t.used >= 1
    ensures HoldsBut(t.(used := t.used - 1), c[i := c[i][1..]], k, nodes, i)
  {
    hide Total, Linked;
    TotalUpdate(c, i, c[i][1..]);
  }

  lemma LayoutOf(home: Homes, same: Compare, s: State)
    requires WellFormed(home, same, s)
    ensures Layout(s)
  {
  }

  // Everything about the entry about to move that does not depend on the links.
  lemma MoveFacts(hash: Hash, same: Compare, s: State, i: nat)
    requires WellFormed(HomesOf(hash), same, s) && Rehashing(s) && i < |s.c0| && s.c0[i] != []
    ensures
      var home := HomesOf(hash);
      var e := s.c0[i][0];
      var t := MoveHead(home, s, i);
      && Slot(hash(e.key), LowBits(s.k1)) == home(e.key, s.k1) < |s.c1|
      && WellFormed(home, same, t)
      && t.c0 == s.c0[i := s.c0[i][1..]] && t.k0 == s.k0
      && t.c1 == s.c1[home(e.key, s.k1) := [e] + s.c1[home(e.key, s.k1)]] && t.k1 == s.k1
      && t.rehashidx == s.rehashidx && t.nodes == s.nodes && t.entries == s.entries
      && e in s.nodes && Nowhere(e, s.c0, i) && Nowhere(e, s.c1, -1) && e !in s.c0[i][1..]
  {
    hide Slot, HomesOf, GoodHomes, WellFormed;
    var home := HomesOf(hash);
    LayoutOf(home, same, s);
    HomesOfGood(hash);
    MoveHeadKeeps(home, same, s, i);
    HeadStandsAlone(home, same, s, i);
    SlotIsHome(hash, s.c0[i][0].key, s.k1);
  }

  // Moves the first entry of bucket i of t0, reached through de, to t1.
  method MoveEntry(hash: Hash, ghost same: Compare, t0: Table, t1: Table, ghost i: nat, de: Entry, ghost s: State)
    returns (nextde: Entry?)
    requires WellFormed(HomesOf(hash), same, s) && Rehashing(s)
    requires HoldsBut(t0, s.c0, s.k0, s.nodes, i) && HoldsBut(t1, s.c1, s.k1, s.nodes, -1)
    requires t0.buckets != t1.buckets
    requires i < |s.c0| && s.c0[i] != [] && Linked(de, s.c0[i])
    modifies t1.buckets, de`next
    ensures t0.used >= 1
    ensures
      var t := MoveHead(HomesOf(hash), s, i);
      && HoldsBut(t0.(used := t0.used - 1), t.c0, t.k0, t.nodes, i)
      && HoldsBut(t1.(used := t1.used + 1), t.c1, t.k1, t.nodes, -1)
      && i < |t.c0| && Linked(nextde, t.c0[i])
  {
    hide Slot, HomesOf, WellFormed, Linked, HoldsBut, MoveHead, Nowhere;
    SizedBy(t0, s.c0, s.k0, s.nodes, i);
    SizedBy(t1, s.c1, s.k1, s.nodes, -1);
    LinkedTail(de, s.c0[i]);
    MoveFacts(hash, same, s, i);
    nextde := de.next;
    var h := Slot(hash(de.key), t1.sizemask);
    PushFront(t1, h, de, s.c1, s.k1, s.nodes, s.nodes, t0, s.c0, s.k0, i);
    PopSkipped(t0, s.c0, s.k0, s.nodes, i);
  }

  // Moves every entry of bucket i of a to b.
  method MoveBucket(hash: Hash, ghost same: Compare, a: Table, b: Table, i: nat, ghost s: State)
    returns (t0: Table, t1: Table, ghost t: State)
    requires WellFormed(HomesOf(hash), same, s) && Rehashing(s) && i < |s.c0|
    requires HoldsBut(a, s.c0, s.k0, s.nodes, -1) && HoldsBut(b, s.c1, s.k1, s.nodes, -1)
    requires a.buckets != b.buckets
    modifies a.buckets, b.buckets, s.nodes`next
    ensures WellFormed(HomesOf(hash), same, t)
    ensures HoldsBut(t0, t.c0, t.k0, t.nodes, -1) && HoldsBut(t1, t.c1, t.k1, t.nodes, -1)
    ensures t0.buckets == a.buckets && t1.buckets == b.buckets
    ensures |t.c0| == |s.c0| && t.c0[i] == [] && t.rehashidx == s.rehashidx
    ensures forall j :: 0 <= j < |s.c0| && j != i ==> t.c0[j] == s.c0[j]
    ensures t.nodes == s.nodes && t.entries == s.entries
  {
    hide Slot, HomesOf, GoodHomes, WellFormed, GoodKeys, Total, MoveHead, Linked;
    t0, t1, t := a, b, s;
    var de := t0.buckets[i];
    LinkedEmpty(de, t.c0[i]);
    while de != null
      invariant WellFormed(HomesOf(hash), same, t) && t.rehashidx == s.rehashidx && i < |t.c0| == |s.c0|
      invariant HoldsBut(t0, t.c0, t.k0, t.nodes, i) && HoldsBut(t1, t.c1, t.k1, t.nodes, -1)
      invariant t0.buckets == a.buckets && t1.buckets == b.buckets
      invariant t.nodes == s.nodes && t.entries == s.entries
      invariant forall j :: 0 <= j < |s.c0| && j != i ==> t.c0[j] == s.c0[j]
      invariant Linked(de, t.c0[i]) && (de == null <==> t.c0[i] == [])
      decreases |t.c0[i]|
    {
      LinkedTail(de, t.c0[i]);
      MoveFacts(hash, same, t, i);
      de := MoveEntry(hash, same, t0, t1, i, de, t);
      t0 := t0.(used := t0.used - 1);
      t1 := t1.(used := t1.used + 1);
      t := MoveHead(HomesOf(hash), t, i);
      LinkedEmpty(de, t.c0[i]);
    }
    t0.buckets[i] := null;
    LinkedNull();
  }

  lemma LinkedEmpty(head: Entry?, c: seq<Entry>)
    requires Linked(head, c)
    ensures head == null <==> c == []
  {
  }

  lemma LinkedNull()
    ensures Linked(null, [])
  {
  }

  // Looks for the next bucket to move; gives up after `visits` empty ones.
  method NextBucket(t0: Table, start: nat, visits: nat, ghost s: State)
    returns (i: nat, visitsLeft: nat, stop: bool)
    requires HoldsBut(t0, s.c0, s.k0, s.nodes, -1) && Layout(s)
    requires Rehashing(s) && start == s.rehashidx && t0.used > 0 && visits > 0
    ensures start <= i <= |s.c0| && forall j :: start <= j < i ==> s.c0[j] == []
    ensures if stop then i > start && visitsLeft == 0 else i < |s.c0| && s.c0[i] != [] && visitsLeft > 0
    ensures visitsLeft == visits - (i - start)
  {
    hide Total, Linked;
    i, visitsLeft := start, visits;
    SomeChainLeft(s.(rehashidx := i));
    while t0.buckets[i] == null
      invariant start <= i < |s.c0| && visitsLeft > 0 && visitsLeft == visits - (i - start)
      invariant forall j :: 0 <= j < i ==> s.c0[j] == []
      decreases |s.c0| - i
    {
      LinkedEmpty(t0.buckets[i], s.c0[i]);
      i := i + 1;
      visitsLeft := visitsLeft - 1;
      if visitsLeft == 0 {
        return i, visitsLeft, true;
      }
      SomeChainLeft(s.(rehashidx := i));
    }
    LinkedEmpty(t0.buckets[i], s.c0[i]);
    return i, visitsLeft, false;
  }

  // While entries are left in ht[0], the migration has not reached its end.
  lemma SomeChainLeft(s: State)
    requires Total(s.c0) > 0 && forall j :: 0 <= j < s.rehashidx <= |s.c0| ==> s.c0[j] == []
    requires s.rehashidx <= |s.c0|
    ensures s.rehashidx < |s.c0|
  {
    TotalZero(s.c0);
  }

  // One round of the migration: passes the empty buckets up to the next full one and moves that one, unless the
  // visits run out on the way.
  method Round(hash: Hash, ghost same: Compare, a: Table, b: Table, i: nat, visits: nat, ghost s: State)
    returns (t0: Table, t1: Table, idx: nat, visitsLeft: nat, stop: bool, ghost t: State)
    requires WellFormed(HomesOf(hash), same, s) && Rehashing(s) && i == s.rehashidx && a.used > 0 && visits > 0
    requires HoldsBut(a, s.c0, s.k0, s.nodes, -1) && HoldsBut(b, s.c1, s.k1, s.nodes, -1)
    requires a.buckets != b.buckets
    modifies a.buckets, b.buckets, s.nodes`next
    ensures WellFormed(HomesOf(hash), same, t) && Rehashing(t) && idx == t.rehashidx && idx > i
    ensures HoldsBut(t0, t.c0, t.k0, t.nodes, -1) && HoldsBut(t1, t.c1, t.k1, t.nodes, -1)
    ensures t.nodes == s.nodes && t.entries == s.entries
    ensures t0.buckets == a.buckets && t1.buckets == b.buckets
    ensures |t.c0| == |s.c0| && Passes(s.c0, i, idx, stop) && t.c0[idx..] == s.c0[idx..]
    ensures if stop then visitsLeft == 0 && idx - i == visits
            else visitsLeft > 0 && visitsLeft == visits - (idx - 1 - i)
  {
    hide Slot, HomesOf, GoodHomes, WellFormed, Total, Linked, Homed;
    ghost var home := HomesOf(hash);
    LayoutOf(home, same, s);
    idx, visitsLeft, stop := NextBucket(a, i, visits, s);
    SkipKeeps(home, same, s, idx);
    t0, t1, t := a, b, s.(rehashidx := idx);
    if !stop {
      t0, t1, t := MoveBucket(hash, same, a, b, idx, t);
      LayoutOf(home, same, t);
      SkipKeeps(home, same, t, idx + 1);
      idx := idx + 1;
      t := t.(rehashidx := idx);
    }
  }

  // At most n buckets move from a to b, and at most 10 * n empty ones are passed.
  method Migrate(hash: Hash, ghost same: Compare, a: Table, b: Table, start: nat, n: nat, ghost s: State)
    returns (t0: Table, t1: Table, idx: int, more: bool, ghost t: State)
    requires WellFormed(HomesOf(hash), same, s) && Rehashing(s) && start == s.rehashidx
    requires HoldsBut(a, s.c0, s.k0, s.nodes, -1) && HoldsBut(b, s.c1, s.k1, s.nodes, -1)
    requires a.buckets != b.buckets
    modifies a.buckets, b.buckets, s.nodes`next
    ensures WellFormed(HomesOf(hash), same, t) && idx == t.rehashidx
    ensures HoldsBut(t0, t.c0, t.k0, t.nodes, -1) && HoldsBut(t1, t.c1, t.k1, t.nodes, -1)
    ensures t.nodes == s.nodes && t.entries == s.entries
    ensures more <==> Rehashing(t)
    ensures if more then t0.buckets == a.buckets && t1.buckets == b.buckets
            else t0.buckets == b.buckets && t1.buckets == null
    ensures more ==> Progress(s.c0, s.rehashidx, t.rehashidx, n)
    ensures !more ==> start <= |s.c0| && Filled(s.c0, start, |s.c0|) <= n
  {
    hide Slot, HomesOf, GoodHomes, WellFormed, Total, Linked, Homed, Passes, Filled;
    ghost var home := HomesOf(hash);
    LayoutOf(home, same, s);
    t0, t1, t := a, b, s;
    var i: nat := start;
    var emptyVisits: nat := n * 10;
    var left: nat := n;
    FilledNone(s.c0, start);
    while left != 0 && t0.used != 0
      invariant WellFormed(home, same, t) && Rehashing(t) && i == t.rehashidx
      invariant HoldsBut(t0, t.c0, t.k0, t.nodes, -1) && HoldsBut(t1, t.c1, t.k1, t.nodes, -1)
      invariant t.nodes == s.nodes && t.entries == s.entries
      invariant t0.buckets == a.buckets && t1.buckets == b.buckets
      invariant left <= n && start <= i <= |s.c0| == |t.c0| && (left > 0 ==> emptyVisits > 0)
      invariant Filled(s.c0, start, i) == n - left && i - start - (n - left) == 10 * n - emptyVisits
      invariant t.c0[i..] == s.c0[i..]
    {
      left := left - 1;
      ghost var c := t.c0;
      ghost var from := i;
      var stop;
      t0, t1, i, emptyVisits, stop, t := Round(hash, same, t0, t1, i, emptyVisits, t);
      FilledByRound(s.c0, c, start, from, i, stop);
      LayoutOf(home, same, t);
      if stop {
        return t0, t1, i, true, t;
      }
    }
    idx, more := i, true;
    if t0.used == 0 {
      NothingLeft(s.c0, t, start, i);
      LayoutOf(home, same, t);
      FinishKeeps(home, same, t);
      t0, t1, idx, more, t := t1, NO_TABLE, -1, false, Finish(t);
    }
  }

  // Once ht[0] holds nothing, the buckets still ahead were empty from the start.
  lemma NothingLeft(c0: Chains, t: State, start: nat, i: nat)
    requires Total(t.c0) == 0 && start <= i <= |c0| == |t.c0| && t.c0[i..] == c0[i..]
    ensures Filled(c0, start, |c0|) == Filled(c0, start, i)
  {
    TotalZero(t.c0);
    forall m | i <= m < |c0|
      ensures c0[m] == []
    {
      assert c0[m] == c0[i..][m - i] == t.c0[i..][m - i] == t.c0[m];
    }
    FilledSkip(c0, start, i, |c0|);
  }

  // The least table size that holds `size` entries.
  ghost predicate LeastPower(size: nat, k: nat) {
    k >= 2 && Pow2(k) >= size && (k > 2 ==> Pow2(k - 1) < size)
  }

  const LONG_MAX: nat := 0x7fff_ffff_ffff_ffff

  // _dictNextPower, with the mask that goes with the size. Beyond 2^63 no power of two is an unsigned long, and the
  // result is smaller than the size.
  method NextPower(size: nat) returns (i: nat, mask: Word, ghost k: nat)
    requires size <= 2 * LONG_MAX + 1
    ensures 2 <= k <= 63 && i == Pow2(k) && mask == LowBits(k)
    ensures if size <= LONG_MAX + 1 then LeastPower(size, k) else i == LONG_MAX + 1
    ensures size <= Pow2(62) ==> k <= 62
  {
    hide LowBits, Pow2;
    LongMax();
    if size >= LONG_MAX {
      return LONG_MAX + 1, 0x7fff_ffff_ffff_ffff, 63;
    }
    i, mask, k := INITIAL_SIZE, 3, 2;
    SmallMasks();
    FirstPower();
    while i < size
      invariant 2 <= k <= 63 && i == Pow2(k) && mask == LowBits(k)
      invariant k > 2 ==> Pow2(k - 1) < size
      decreases 63 - k
    {
      NextPow2(k);
      NextLowBits(k);
      i, mask, k := i * 2, (mask << 1) | 1, k + 1;
    }
  }

  lemma FirstPower()
    ensures Pow2(2) == INITIAL_SIZE
  {
  }

  lemma NextPow2(k: nat)
    ensures Pow2(k + 1) == 2 * Pow2(k)
  {
  }

  lemma BytePower()
    ensures Pow2(7) == 128 && Pow2(8) == 256
  {
  }

  lemma LongMax()
    ensures Pow2(63) == LONG_MAX + 1 && LowBits(63) == 0x7fff_ffff_ffff_ffff && Pow2(62) == LONG_MAX / 2 + 1
  {
    hide Pow2, LowBits;
    TopMask();
    BytePower();
    Pow2Sum(8, 7);
    assert Pow2(15) == 256 * 128;
    Pow2Sum(8, 8);
    assert Pow2(16) == 256 * 256;
    Pow2Sum(16, 15);
    assert Pow2(31) == 65536 * 32768;
    Pow2Sum(16, 16);
    assert Pow2(32) == 65536 * 65536;
    Pow2Sum(32, 31);
    assert Pow2(63) == 4294967296 * 2147483648;
    NextPow2(62);
  }

  lemma TopMask()
    ensures LowBits(63) == 0x7fff_ffff_ffff_ffff
  {
  }

  // A number of entries as an int.
  function AsInt(n: nat): int {
    var low := n % 0x1_0000_0000;
    if low < 0x8000_0000 then low else low - 0x1_0000_0000
  }

  // The size that dictResize asks for.
  function Minimal(n: nat): (m: nat)
    ensures INITIAL_SIZE <= m < 0x8000_0000
  {
    if AsInt(n) < INITIAL_SIZE then INITIAL_SIZE else AsInt(n)
  }

  // It is the number of entries, or four if that is more, exactly below 2^31 entries. From there on it is smaller, and
  // a resize is refused.
  lemma MinimalExactly(n: nat)
    ensures Minimal(n) == (if n < INITIAL_SIZE then INITIAL_SIZE else n) <==> n < 0x8000_0000
    ensures n <= Minimal(n) <==> n < 0x8000_0000
  {
    if n < 0x8000_0000 {
      assert n % 0x1_0000_0000 == n;
    }
  }

  // A new table of 2^k empty buckets.
  method NewTable(size: nat, mask: Word, ghost k: nat, ghost nodes: set<Entry>) returns (t: Table)
    requires 2 <= k <= 62 && size == Pow2(k) && mask == LowBits(k)
    ensures t.buckets != null && fresh(t.buckets) && t.size == size
    ensures HoldsBut(t, EmptyChains(Pow2(k)), k, nodes, -1)
  {
    hide Linked, Total, LowBits;
    var buckets := new Entry?[size](_ => null);
    t := Table(buckets, size, mask, 0);
    LinkedNull();
    EmptyTotal(Pow2(k));
  }

  lemma EmptyTotal(n: nat)
    ensures Total(EmptyChains(n)) == 0
  {
    TotalZero(EmptyChains(n));
  }

  // Looks through one chain for a key; `prev` is the entry before the one found.
  method FindInChain(head: Entry?, same: Compare, key: Key, ghost c: seq<Entry>)
    returns (he: Entry?, prev: Entry?, ghost j: nat)
    requires Linked(head, c) && same(key, key)
    ensures he == null ==> forall x :: x in c ==> !same(key, x.key)
    ensures he != null ==> j < |c| && he == c[j] && same(key, he.key)
    ensures he != null ==> prev == if j == 0 then null else c[j - 1]
  {
    he, prev, j := head, null, 0;
    while he != null
      invariant j <= |c| && he == At(c, j)
      invariant prev == if j == 0 then null else c[j - 1]
      invariant forall i :: 0 <= i < j ==> !same(key, c[i].key)
      decreases |c| - j
    {
      if key == he.key || same(key, he.key) {
        return;
      }
      prev, he, j := he, he.next, j + 1;
    }
  }

  // Looks for a key in the bucket that its hash selects in one table.
  method LocateIn(hash: Hash, same: Compare, t: Table, key: Key,
                  ghost c: Chains, ghost k: nat, ghost nodes: set<Entry>)
    returns (he: Entry?, prev: Entry?, idx: nat, ghost j: nat)
    requires same(key, key) && t.buckets != null && |c| == Pow2(k)
    requires HoldsBut(t, c, k, nodes, -1)
    ensures idx == HomesOf(hash)(key, k) < |c|
    ensures he == null ==> forall x :: x in c[idx] ==> !same(key, x.key)
    ensures he != null ==> j < |c[idx]| && he == c[idx][j] && same(key, he.key)
    ensures he != null ==> prev == if j == 0 then null else c[idx][j - 1]
  {
    hide Slot, HomesOf, Total, Linked, LowBits;
    SizedBy(t, c, k, nodes, -1);
    SlotIsHome(hash, key, k);
    HomesOfGood(hash);
    idx := Slot(hash(key), t.sizemask);
    he, prev, j := FindInChain(t.buckets[idx], same, key, c[idx]);
  }

  // Looks for a key in ht[0] and, while a migration is on, in ht[1].
  method Locate(hash: Hash, same: Compare, t0: Table, t1: Table, rehashing: bool, key: Key, ghost s: State)
    returns (he: Entry?, prev: Entry?, table: nat, idx: nat, ghost j: nat)
    requires GoodKeys(hash, same) && WellFormed(HomesOf(hash), same, s) && s.c0 != []
    requires HoldsBut(t0, s.c0, s.k0, s.nodes, -1) && HoldsBut(t1, s.c1, s.k1, s.nodes, -1)
    requires rehashing <==> Rehashing(s)
    ensures he == null <==> Absent(same, s.entries, key)
    ensures table <= 1 && (Rehashing(s) || table == 0) && (he == null && Rehashing(s) ==> table == 1)
    ensures idx == HomesOf(hash)(key, Size(s, table)) < |Chain(s, table)|
    ensures he != null ==> FoundAt(same, s, key, he, prev, table, idx, j)
  {
    hide Slot, HomesOf, GoodHomes, WellFormed, GoodKeys, HoldsBut, Absent;
    LayoutOf(HomesOf(hash), same, s);
    SizedBy(t0, s.c0, s.k0, s.nodes, -1);
    SizedBy(t1, s.c1, s.k1, s.nodes, -1);
    SameAsItself(hash, same, key);
    table := 0;
    he, prev, idx, j := LocateIn(hash, same, t0, key, s.c0, s.k0, s.nodes);
    ghost var idx0 := idx;
    if he == null && rehashing {
      table := 1;
      he, prev, idx, j := LocateIn(hash, same, t1, key, s.c1, s.k1, s.nodes);
    }
    if he != null {
      FoundIsPresent(hash, same, s, key, table, idx, j);
    } else {
      NotFoundIsAbsent(hash, same, s, key);
    }
  }

  // he is position j of chain idx of the table; prev is the entry before it.
  ghost predicate FoundAt(same: Compare, s: State, key: Key, he: Entry, prev: Entry?, table: nat, idx: nat, j: nat) {
    && same(key, he.key) && he in s.nodes
    && idx < |Chain(s, table)| && j < |Chain(s, table)[idx]| && he == Chain(s, table)[idx][j]
    && prev == if j == 0 then null else Chain(s, table)[idx][j - 1]
  }

  lemma SameAsItself(hash: Hash, same: Compare, key: Key)
    requires GoodKeys(hash, same)
    ensures same(key, key)
  {
  }

  lemma SameHome(hash: Hash, same: Compare, a: Key, b: Key, k: nat)
    requires GoodKeys(hash, same) && same(a, b)
    ensures HomesOf(hash)(a, k) == HomesOf(hash)(b, k)
  {
    hide Slot;
  }

  lemma FoundIsPresent(hash: Hash, same: Compare, s: State, key: Key, table: nat, i: nat, j: nat)
    requires WellFormed(HomesOf(hash), same, s) && table <= 1
    requires i < |Chain(s, table)| && j < |Chain(s, table)[i]| && same(key, Chain(s, table)[i][j].key)
    ensures Chain(s, table)[i][j] in s.nodes
    ensures !Absent(same, s.entries, key)
  {
    hide HomesOf, Total;
    var x := Chain(s, table)[i][j];
    assert x in Chain(s, table)[i];
    assert x.key in s.entries;
  }

  lemma NotFoundIsAbsent(hash: Hash, same: Compare, s: State, key: Key)
    requires GoodKeys(hash, same) && WellFormed(HomesOf(hash), same, s)
    requires forall x :: x in Bucket(s.c0, HomesOf(hash)(key, s.k0)) ==> !same(key, x.key)
    requires forall x :: x in Bucket(s.c1, HomesOf(hash)(key, s.k1)) ==> !same(key, x.key)
    ensures Absent(same, s.entries, key)
  {
    hide Total, HomesOf, GoodKeys;
    forall k | k in s.entries
      ensures !same(key, k)
    {
      var x := s.entries[k];
      assert In(HomesOf(hash), s.c0, s.k0, x) || In(HomesOf(hash), s.c1, s.k1, x);
      if same(key, k) {
        SameHome(hash, same, key, k, s.k0);
        SameHome(hash, same, key, k, s.k1);
      }
    }
  }

  // Puts a new entry in front of its chain of the newest table.
  method InsertFront(hash: Hash, ghost same: Compare, a: Table, b: Table, rehashing: bool, idx: nat, e: Entry,
                     ghost s: State)
    returns (t0: Table, t1: Table, ghost t: State)
    requires GoodKeys(hash, same) && WellFormed(HomesOf(hash), same, s) && s.c0 != []
    requires HoldsBut(a, s.c0, s.k0, s.nodes, -1) && HoldsBut(b, s.c1, s.k1, s.nodes, -1)
    requires a.buckets != b.buckets && (rehashing <==> Rehashing(s)) && Absent(same, s.entries, e.key)
    requires idx == HomesOf(hash)(e.key, if rehashing then s.k1 else s.k0)
    modifies a.buckets, b.buckets, e`next
    ensures t == Insert(HomesOf(hash), s, e) && WellFormed(HomesOf(hash), same, t)
    ensures HoldsBut(t0, t.c0, t.k0, t.nodes, -1) && HoldsBut(t1, t.c1, t.k1, t.nodes, -1)
    ensures t0.buckets == a.buckets && t1.buckets == b.buckets
    ensures t.rehashidx == s.rehashidx && t.nodes == s.nodes + {e} && t.entries == s.entries[e.key := e]
  {
    hide Slot, HomesOf, GoodHomes, WellFormed, GoodKeys, HoldsBut, Absent;
    ghost var home := HomesOf(hash);
    HomesOfGood(hash);
    SameIsEquivalence(hash, same);
    InsertKeeps(home, same, s, e);
    InsertNowhere(home, same, s, e);
    t0, t1, t := a, b, Insert(home, s, e);
    if rehashing {
      PushFront(t1, idx, e, s.c1, s.k1, s.nodes, t.nodes, t0, s.c0, s.k0, -1);
      t1 := t1.(used := t1.used + 1);
    } else {
      PushFront(t0, idx, e, s.c0, s.k0, s.nodes, t.nodes, t1, s.c1, s.k1, -1);
      t0 := t0.(used := t0.used + 1);
    }
  }

  lemma SameIsEquivalence(hash: Hash, same: Compare)
    requires GoodKeys(hash, same)
    ensures forall a :: same(a, a)
    ensures forall a, b :: same(a, b) ==> same(b, a)
  {
  }

  lemma InsertNowhere(home: Homes, same: Compare, s: State, e: Entry)
    requires WellFormed(home, same, s) && Absent(same, s.entries, e.key) && same(e.key, e.key)
    ensures Nowhere(e, s.c0, -1) && Nowhere(e, s.c1, -1)
  {
  }

  // The entry before e is linked to the entry after it.
  method Bypass(head: Entry?, prev: Entry, e: Entry, ghost c: seq<Entry>, ghost j: nat)
    requires Linked(head, c) && Distinct(c) && 1 <= j < |c| && e == c[j] && prev == c[j - 1]
    modifies prev`next
    ensures Linked(head, DropAt(c, j))
  {
    prev.next := e.next;
  }

  // Unlinks e, position j of chain h of table t; the other table, with the chains d, is left alone.
  method Unlink(t: Table, h: nat, e: Entry, prev: Entry?,
                ghost c: Chains, ghost k: nat, ghost nodes: set<Entry>, ghost j: nat,
                ghost other: Table, ghost d: Chains, ghost l: nat)
    requires HoldsBut(t, c, k, nodes, -1) && h < |c| && j < |c[h]| && e == c[h][j]
    requires prev == if j == 0 then null else c[h][j - 1]
    requires HoldsBut(other, d, l, nodes, -1) && other.buckets != t.buckets
    requires Distinct(c[h]) && Nowhere(e, c, h) && Nowhere(e, d, -1)
    requires prev != null ==> Nowhere(prev, c, h) && Nowhere(prev, d, -1)
    modifies t.buckets, (if prev == null then {} else {prev})`next
    ensures t.used >= 1
    ensures HoldsBut(t.(used := t.used - 1), c[h := DropAt(c[h], j)], k, nodes - {e}, -1)
    ensures HoldsBut(other, d, l, nodes - {e}, -1)
  {
    hide Total, Linked, DropAt, Distinct;
    DropAtMembers(c[h], j);
    if prev != null {
      Bypass(t.buckets[h], prev, e, c[h], j);
    } else {
      LinkedTail(t.buckets[h], c[h]);
      DropFirst(c[h]);
      t.buckets[h] := e.next;
    }
    TotalUpdate(c, h, DropAt(c[h], j));
    DropAtLength(c[h], j);
    OwnedDrop(c, nodes, h, j);
  }

  lemma OwnedDrop(c: Chains, nodes: set<Entry>, h: nat, j: nat)
    requires Owned(c, nodes) && h < |c| && j < |c[h]| && Distinct(c[h]) && Nowhere(c[h][j], c, h)
    ensures Owned(c[h := DropAt(c[h], j)], nodes - {c[h][j]})
  {
    DropAtMembers(c[h], j);
    var d := c[h := DropAt(c[h], j)];
    forall i, x | 0 <= i < |d| && x in d[i]
      ensures x in nodes - {c[h][j]}
    {
      assert x in c[i];
    }
  }

  lemma DropFirst(c: seq<Entry>)
    requires c != []
    ensures DropAt(c, 0) == c[1..]
  {
  }

  lemma DropAtLength(c: seq<Entry>, j: nat)
    requires j < |c|
    ensures |DropAt(c, j)| == |c| - 1
  {
  }

  class Dict {
    const hash: Hash
    const same: Compare
    var ht0: Table
    var ht1: Table
    var rehashidx: int
    var iterators: nat
    var canResize: bool
    ghost var s: State

    // The links and counts of both tables spell out a well-formed shape.
    ghost predicate Valid()
      reads this, ht0.buckets, ht1.buckets, s.nodes`next
    {
      && GoodKeys(hash, same)
      && WellFormed(HomesOf(hash), same, s)
      && rehashidx == s.rehashidx
      && HoldsBut(ht0, s.c0, s.k0, s.nodes, -1)
      && HoldsBut(ht1, s.c1, s.k1, s.nodes, -1)
      && (ht0.buckets != null ==> ht0.buckets != ht1.buckets)
    }

    constructor (hash: Hash, same: Compare)
      requires GoodKeys(hash, same)
      ensures Valid() && this.hash == hash && this.same == same
      ensures s == EMPTY && iterators == 0
    {
      hide GoodKeys, HomesOf, WellFormed;
      this.hash, this.same := hash, same;
      ht0, ht1, rehashidx, iterators, canResize := NO_TABLE, NO_TABLE, -1, 0, true;
      s := EMPTY;
      EmptyIsWellFormed(HomesOf(hash), same);
    }

    // ---------------------------------------------------------------- migration
    method Rehash(n: nat) returns (more: bool)
      requires Valid()
      modifies this`ht0, this`ht1, this`rehashidx, this`s, ht0.buckets, ht1.buckets, s.nodes`next
      ensures Valid() && s.nodes == old(s.nodes) && s.entries == old(s.entries)
      ensures more <==> Rehashing(s)
      ensures !old(Rehashing(s)) ==> s == old(s)
      ensures more ==> Progress(old(s.c0), old(s.rehashidx), s.rehashidx, n)
      ensures old(Rehashing(s)) && !more ==>
        0 <= old(s.rehashidx) <= |old(s.c0)| && Filled(old(s.c0), old(s.rehashidx), |old(s.c0)|) <= n
      ensures ht0.buckets in old({ht0.buckets, ht1.buckets}) && ht1.buckets in old({ht0.buckets, ht1.buckets, null})
    {
      hide Slot, HomesOf, GoodHomes, WellFormed, GoodKeys, HoldsBut;
      if rehashidx == -1 {
        return false;
      }
      LayoutOf(HomesOf(hash), same, s);
      SizedBy(ht0, s.c0, s.k0, s.nodes, -1);
      SizedBy(ht1, s.c1, s.k1, s.nodes, -1);
      ht0, ht1, rehashidx, more, s := Migrate(hash, same, ht0, ht1, rehashidx, n, s);
    }

    // A step of migration, unless a safe iterator is at work.
    method RehashStep()
      requires Valid()
      modifies this`ht0, this`ht1, this`rehashidx, this`s, ht0.buckets, ht1.buckets, s.nodes`next
      ensures Valid() && s.nodes == old(s.nodes) && s.entries == old(s.entries)
      ensures Contents() == old(Contents())
      ensures iterators != 0 || !old(Rehashing(s)) ==> s == old(s)
      ensures iterators == 0 && Rehashing(s) ==> Progress(old(s.c0), old(s.rehashidx), s.rehashidx, 1)
      ensures ht0.buckets in old({ht0.buckets, ht1.buckets}) && ht1.buckets in old({ht0.buckets, ht1.buckets, null})
    {
      hide Valid, HomesOf;
      if iterators == 0 {
        var _ := Rehash(1);
      }
    }

    // ---------------------------------------------------------------- growth

    method Expand(size: nat) returns (ok: bool)
      requires Valid() && size <= Pow2(62)
      modifies this`ht0, this`ht1, this`rehashidx, this`s
      ensures Valid() && s.nodes == old(s.nodes) && s.entries == old(s.entries)
      ensures ok <==> !old(Rehashing(s)) && |s.entries| <= size && !(old(s.c0) != [] && LeastPower(size, old(s.k0)))
      ensures if ok then exists k :: LeastPower(size, k) && k <= 62 && s == Grow(old(s), k) else s == old(s)
      ensures ht0.buckets == old(ht0.buckets) || fresh(ht0.buckets)
      ensures ht1.buckets == old(ht1.buckets) || fresh(ht1.buckets)
    {
      hide Slot, HomesOf, GoodHomes, WellFormed, GoodKeys, Total, HoldsBut, LowBits, Pow2, LeastPower, EmptyChains;
      ghost var home := HomesOf(hash);
      LayoutOf(home, same, s);
      SizedBy(ht0, s.c0, s.k0, s.nodes, -1);
      SizedBy(ht1, s.c1, s.k1, s.nodes, -1);
      UsedOf(home, same, s);
      if rehashidx != -1 || ht0.used > size {
        return false;
      }
      var realsize, mask;
      ghost var k;
      LongMax();
      realsize, mask, k := NextPower(size);
      LeastPowerUnique(size, k, s.k0);
      if realsize == ht0.size {
        return false;
      }
      var n := NewTable(realsize, mask, k, s.nodes);
      GrowKeeps(home, same, s, k);
      if ht0.buckets == null {
        ht0 := n;
      } else {
        ht1, rehashidx := n, 0;
      }
      s := Grow(s, k);
      return true;
    }

    // Shrinks or grows to the least size that holds the entries.
    method Resize() returns (ok: bool)
      requires Valid()
      modifies this`ht0, this`ht1, this`rehashidx, this`s
      ensures Valid() && s.nodes == old(s.nodes) && s.entries == old(s.entries)
      ensures var minimal := Minimal(|s.entries|);
        && (ok <==> old(canResize) && !old(Rehashing(s)) && |s.entries| <= minimal
                    && !(old(s.c0) != [] && LeastPower(minimal, old(s.k0))))
        && if ok then exists k :: LeastPower(minimal, k) && s == Grow(old(s), k) else s == old(s)
    {
      hide Slot, HomesOf, WellFormed, GoodKeys, Total, HoldsBut, Pow2, LeastPower, EmptyChains;
      if !canResize || rehashidx != -1 {
        return false;
      }
      SizedBy(ht0, s.c0, s.k0, s.nodes, -1);
      UsedOf(HomesOf(hash), same, s);
      LongMax();
      var minimal := AsInt(ht0.used);
      if minimal < INITIAL_SIZE {
        minimal := INITIAL_SIZE;
      }
      ok := Expand(minimal);
    }

    // No larger table is called for: one is under way, or there are fewer entries than buckets, or resizing is off and
    // there are not yet more than five entries to a bucket.
    static ghost predicate Enough(s: State, canResize: bool) {
      || Rehashing(s)
      || (s.c0 != [] && (|s.entries| < |s.c0| || (!canResize && |s.entries| / |s.c0| <= FORCE_RESIZE_RATIO)))
    }

    // There is room to double the table.
    ghost predicate Room()
      reads this
    {
      2 * |s.entries| <= Pow2(62)
    }

    method ExpandIfNeeded() returns (ok: bool)
      requires Valid() && Room()
      modifies this`ht0, this`ht1, this`rehashidx, this`s
      ensures ok
      ensures Valid() && Grown(old(s), s) && s.c0 != []
      ensures if Enough(old(s), canResize) then s == old(s)
              else
                var size := if old(s.c0) == [] then INITIAL_SIZE else 2 * |old(s.entries)|;
                exists k :: LeastPower(size, k) && s == Grow(old(s), k)
      ensures s.nodes == old(s.nodes) && s.entries == old(s.entries)
      ensures ht0.buckets == old(ht0.buckets) || fresh(ht0.buckets)
      ensures ht1.buckets == old(ht1.buckets) || fresh(ht1.buckets)
    {
      hide Slot, HomesOf, WellFormed, GoodKeys, Total, HoldsBut, Pow2, LeastPower, EmptyChains, Grown;
      LayoutOf(HomesOf(hash), same, s);
      SizedBy(ht0, s.c0, s.k0, s.nodes, -1);
      UsedOf(HomesOf(hash), same, s);
      GrownNot(s);
      if rehashidx != -1 {
        return true;
      }
      if ht0.size == 0 {
        FourFits();
        ok := Expand(INITIAL_SIZE);
        GrownBy(INITIAL_SIZE, old(s), s);
        return;
      }
      if ht0.used >= ht0.size && (canResize || ht0.used / ht0.size > FORCE_RESIZE_RATIO) {
        var doubled := ht0.used * 2;
        NotLeast(doubled, s.k0);
        ok := Expand(doubled);
        GrownBy(doubled, old(s), s);
        return;
      }
      return true;
    }

    // ---------------------------------------------------------------- operations on the map

    // The map the dictionary stands for.
    ghost function Contents(): map<Key, Val>
      reads this, s.nodes
    {
      map k | k in s.entries && s.entries[k] in s.nodes :: s.entries[k].val
    }

    lemma ContentsOf()
      requires Valid()
      ensures Contents().Keys == s.entries.Keys
      ensures forall k :: k in Contents() ==> s.entries[k] in s.nodes && s.entries[k].key == k
      ensures forall e :: e in s.nodes ==> e.key in Contents() && Contents()[e.key] == e.val && s.entries[e.key] == e
      ensures forall key :: Absent(same, s.entries, key) <==> Absent(same, Contents(), key)
      ensures |Contents()| == ht0.used + ht1.used
    {
      hide HomesOf, WellFormed, GoodKeys, Total, Linked;
      UsedOf(HomesOf(hash), same, s);
      SizedBy(ht0, s.c0, s.k0, s.nodes, -1);
      SizedBy(ht1, s.c1, s.k1, s.nodes, -1);
      assert |Contents()| == |Contents().Keys|;
      assert |s.entries| == |s.entries.Keys|;
    }

    // The new entry of an absent key, in bucket idx of the newest table.
    method NewEntry(key: Key, idx: nat) returns (entry: Entry)
      requires Valid() && s.c0 != [] && Absent(same, s.entries, key)
      requires idx == HomesOf(hash)(key, if Rehashing(s) then s.k1 else s.k0)
      modifies this`ht0, this`ht1, this`s, ht0.buckets, ht1.buckets
      ensures Valid() && fresh(entry) && entry.key == key
      ensures s == Insert(HomesOf(hash), old(s), entry)
      ensures s.nodes == old(s.nodes) + {entry} && s.entries == old(s.entries)[key := entry]
    {
      hide Slot, HomesOf, WellFormed, GoodKeys, HoldsBut, Absent, Insert;
      SizedBy(ht0, s.c0, s.k0, s.nodes, -1);
      entry := new Entry(key);
      ht0, ht1, s := InsertFront(hash, same, ht0, ht1, rehashidx != -1, idx, entry, s);
    }

    method AddEntry(key: Key, idx: nat) returns (entry: Entry)
      requires Valid() && s.c0 != [] && Absent(same, s.entries, key)
      requires idx == HomesOf(hash)(key, if Rehashing(s) then s.k1 else s.k0)
      modifies this`ht0, this`ht1, this`s, ht0.buckets, ht1.buckets
      ensures Valid() && fresh(entry) && entry.key == key
      ensures s == Insert(HomesOf(hash), old(s), entry)
      ensures s.nodes == old(s.nodes) + {entry} && s.entries == old(s.entries)[key := entry]
      ensures Contents() == old(Contents())[key := entry.val]
    {
      hide Valid, HomesOf, Absent, Insert;
      ContentsOf();
      entry := NewEntry(key, idx);
    }

    // Where the entry of a key is, or the bucket for a new one.
    method KeyIndex(key: Key) returns (existing: Entry?, idx: nat)
      requires Valid() && Room()
      modifies this`ht0, this`ht1, this`rehashidx, this`s
      ensures Valid() && Grown(old(s), s) && s.c0 != []
      ensures s.nodes == old(s.nodes) && s.entries == old(s.entries) && Contents() == old(Contents())
      ensures ht0.buckets == old(ht0.buckets) || fresh(ht0.buckets)
      ensures ht1.buckets == old(ht1.buckets) || fresh(ht1.buckets)
      ensures existing == null <==> Absent(same, s.entries, key)
      ensures existing != null ==> existing in s.nodes && same(key, existing.key)
      ensures existing == null ==> idx == HomesOf(hash)(key, if Rehashing(s) then s.k1 else s.k0)
    {
      hide Slot, HomesOf, WellFormed, GoodKeys, Total, HoldsBut, Pow2, LeastPower, EmptyChains, Absent, Grown;
      var _ := ExpandIfNeeded();
      var prev, table;
      ghost var j;
      existing, prev, table, idx, j := Locate(hash, same, ht0, ht1, rehashidx != -1, key, s);
    }

    // Adds an entry for the key unless there is one already.
    method AddRaw(key: Key) returns (entry: Entry?, existing: Entry?)
      requires Valid() && Room()
      modifies this`ht0, this`ht1, this`rehashidx, this`s, ht0.buckets, ht1.buckets, s.nodes`next
      ensures Valid()
      ensures entry == null <==> !Absent(same, old(Contents()), key)
      ensures entry == null ==>
                && existing != null && existing in s.nodes && same(key, existing.key)
                && s.nodes == old(s.nodes) && s.entries == old(s.entries)
                && existing.key in Contents() && Contents() == old(Contents())
      ensures entry != null ==>
                && existing == null && fresh(entry) && entry.key == key
                && s.nodes == old(s.nodes) + {entry} && s.entries == old(s.entries)[key := entry]
                && Contents() == old(Contents())[key := entry.val]
      ensures old(iterators) != 0 ==> Added(HomesOf(hash), same, old(s), s)
    {
      hide Valid, HomesOf, Absent, Grown, Insert, Contents, Added;
      ContentsOf();
      if rehashidx != -1 {
        RehashStep();
      }
      var idx;
      existing, idx := KeyIndex(key);
      ContentsOf();
      ghost var g := s;
      if existing != null {
        AddedBy(HomesOf(hash), same, old(s), g, s, null);
        return null, existing;
      }
      entry := AddEntry(key, idx);
      AddedBy(HomesOf(hash), same, old(s), g, s, entry);
    }

    method SetVal(entry: Entry, val: Val)
      requires Valid() && entry in s.nodes
      modifies entry`val
      ensures Valid()
      ensures Contents() == old(Contents())[entry.key := val]
    {
      hide HomesOf, WellFormed, GoodKeys, Linked, Total;
      ContentsOf();
      entry.val := val;
    }

    method Add(key: Key, val: Val) returns (ok: bool)
      requires Valid() && Room()
      modifies this`ht0, this`ht1, this`rehashidx, this`s, ht0.buckets, ht1.buckets, s.nodes`next
      ensures Valid()
      ensures ok <==> Absent(same, old(Contents()), key)
      ensures Contents() == if ok then old(Contents())[key := val] else old(Contents())
      ensures old(iterators) != 0 ==> Added(HomesOf(hash), same, old(s), s)
    {
      hide Valid, Insert, Grown, Absent, Contents, HomesOf, Added;
      var entry, existing := AddRaw(key);
      if entry == null {
        return false;
      }
      SetVal(entry, val);
      return true;
    }

    // Adds the pair, or gives the key that is there already its new value.
    method Replace(key: Key, val: Val) returns (added: bool)
      requires Valid() && Room()
      modifies this`ht0, this`ht1, this`rehashidx, this`s, ht0.buckets, ht1.buckets, s.nodes
      ensures Valid()
      ensures added <==> Absent(same, old(Contents()), key)
      ensures added ==> Contents() == old(Contents())[key := val]
      ensures !added ==> exists k :: k in old(Contents()) && same(key, k) && Contents() == old(Contents())[k := val]
      ensures old(iterators) != 0 ==> Added(HomesOf(hash), same, old(s), s)
    {
      hide Valid, Insert, Grown, Absent, Contents, HomesOf, Added;
      var entry, existing := AddRaw(key);
      if entry != null {
        SetVal(entry, val);
        return true;
      }
      SetVal(existing, val);
      return false;
    }

    method Find(key: Key) returns (he: Entry?)
      requires Valid()
      modifies this`ht0, this`ht1, this`rehashidx, this`s, ht0.buckets, ht1.buckets, s.nodes`next
      ensures Valid() && s.nodes == old(s.nodes) && s.entries == old(s.entries)
      ensures Contents() == old(Contents())
      ensures he == null <==> Absent(same, Contents(), key)
      ensures he != null ==> he in s.nodes && same(key, he.key) && he.key in Contents() && he.val == Contents()[he.key]
      ensures iterators != 0 ==> s == old(s)
    {
      hide Valid, HomesOf, Absent, FoundAt;
      var prev, table, idx;
      ghost var j;
      he, prev, table, idx, j := Search(key);
      FoundInContents(key, he, prev, table, idx, j);
    }

    lemma FoundInContents(key: Key, he: Entry?, prev: Entry?, table: nat, idx: nat, j: nat)
      requires Valid()
      requires he != null ==> FoundAt(same, s, key, he, prev, table, idx, j)
      ensures he != null ==> he in s.nodes && same(key, he.key) && he.key in Contents() && he.val == Contents()[he.key]
    {
      hide Valid, HomesOf;
      ContentsOf();
    }

    // Unlinks the entry of a key; the caller may go on using the entry.
    method GenericDelete(key: Key) returns (he: Entry?)
      requires Valid()
      modifies this`ht0, this`ht1, this`rehashidx, this`s, ht0.buckets, ht1.buckets, s.nodes`next
      ensures Valid()
      ensures he == null <==> Absent(same, old(Contents()), key)
      ensures he == null ==> s.nodes == old(s.nodes) && Contents() == old(Contents())
      ensures he != null ==>
                && he in old(s.nodes) && same(key, he.key)
                && s.nodes == old(s.nodes) - {he} && Contents() == old(Contents()) - {he.key}
      ensures old(iterators) != 0 ==> if he == null then s == old(s) else Removed(old(s), s, he)
    {
      hide Valid, HomesOf, Absent, Removed, Contents;
      var prev, table, idx;
      ghost var j;
      he, prev, table, idx, j := Search(key);
      if he != null {
        Cut(key, he, prev, table, idx, j);
      }
    }

    // The search of dictFind and dictGenericDelete.
    method Search(key: Key) returns (he: Entry?, prev: Entry?, table: nat, idx: nat, ghost j: nat)
      requires Valid()
      modifies this`ht0, this`ht1, this`rehashidx, this`s, ht0.buckets, ht1.buckets, s.nodes`next
      ensures Valid() && s.nodes == old(s.nodes) && s.entries == old(s.entries)
      ensures Contents() == old(Contents())
      ensures he == null <==> Absent(same, Contents(), key)
      ensures he != null ==> table <= 1 && FoundAt(same, s, key, he, prev, table, idx, j)
      ensures iterators != 0 ==> s == old(s)
      ensures ht0.buckets in old({ht0.buckets, ht1.buckets}) && ht1.buckets in old({ht0.buckets, ht1.buckets, null})
    {
      hide Slot, HomesOf, WellFormed, GoodKeys, Total, HoldsBut, Absent, FoundAt;
      he, prev, table, idx, j := null, null, 0, 0, 0;
      ContentsOf();
      if ht0.used + ht1.used == 0 {
        NothingThere(same, Contents(), key);
        return;
      }
      if rehashidx != -1 {
        RehashStep();
      }
      SomethingThere(HomesOf(hash), same, s);
      he, prev, table, idx, j := Locate(hash, same, ht0, ht1, rehashidx != -1, key, s);
      ContentsOf();
    }

    // Unlinks an entry that was found.
    method CutLinks(ghost key: Key, he: Entry, prev: Entry?, table: nat, idx: nat, ghost j: nat)
      requires Valid() && table <= 1 && FoundAt(same, s, key, he, prev, table, idx, j)
      modifies this`ht0, this`ht1, this`s, ht0.buckets, ht1.buckets, s.nodes`next
      ensures Valid() && s.nodes == old(s.nodes) - {he} && s.entries == Without(old(s.entries), he.key)
      ensures Removed(old(s), s, he)
    {
      hide Slot, HomesOf, WellFormed, GoodKeys, HoldsBut, Remove, Absent, FoundAt, Removed, Without;
      RemovedThere(same, s, key, he, prev, table, idx, j);
      SizedBy(ht0, s.c0, s.k0, s.nodes, -1);
      ht0, ht1, s := UnlinkAt(hash, same, ht0, ht1, key, he, prev, table, idx, j, s);
    }

    method Cut(ghost key: Key, he: Entry, prev: Entry?, table: nat, idx: nat, ghost j: nat)
      requires Valid() && table <= 1 && FoundAt(same, s, key, he, prev, table, idx, j)
      modifies this`ht0, this`ht1, this`s, ht0.buckets, ht1.buckets, s.nodes`next
      ensures Valid() && s.nodes == old(s.nodes) - {he} && Contents() == old(Contents()) - {he.key}
      ensures Removed(old(s), s, he)
    {
      hide HomesOf, WellFormed, GoodKeys, HoldsBut, Remove, Absent, FoundAt, Removed;
      ContentsOf();
      ghost var m := Contents() - {he.key};
      CutLinks(key, he, prev, table, idx, j);
      ContentsAre(m);
    }

    lemma ContentsAre(m: map<Key, Val>)
      requires m.Keys == s.entries.Keys
      requires forall k :: k in m ==> s.entries[k] in s.nodes && s.entries[k].val == m[k]
      ensures Contents() == m
    {
    }
  }

  lemma RemovedThere(same: Compare, s: State, key: Key, he: Entry, prev: Entry?, table: nat, idx: nat, j: nat)
    requires table <= 1 && FoundAt(same, s, key, he, prev, table, idx, j)
    ensures idx < |Chain(s, table)| && j < |Chain(s, table)[idx]| && Removed(s, Remove(s, table, idx, j), he)
  {
    hide Remove;
  }

  method UnlinkAt(ghost hash: Hash, ghost same: Compare, a: Table, b: Table, ghost key: Key,
                  he: Entry, prev: Entry?, table: nat, idx: nat, ghost j: nat, ghost s: State)
    returns (t0: Table, t1: Table, ghost t: State)
    requires WellFormed(HomesOf(hash), same, s)
    requires HoldsBut(a, s.c0, s.k0, s.nodes, -1) && HoldsBut(b, s.c1, s.k1, s.nodes, -1)
    requires a.buckets != null ==> a.buckets != b.buckets
    requires table <= 1 && FoundAt(same, s, key, he, prev, table, idx, j)
    modifies a.buckets, b.buckets, s.nodes`next
    ensures t == Remove(s, table, idx, j) && WellFormed(HomesOf(hash), same, t)
    ensures HoldsBut(t0, t.c0, t.k0, t.nodes, -1) && HoldsBut(t1, t.c1, t.k1, t.nodes, -1)
    ensures t0.buckets == a.buckets && t1.buckets == b.buckets
    ensures t.rehashidx == s.rehashidx && t.nodes == s.nodes - {he} && t.entries == Without(s.entries, he.key)
  {
    hide HomesOf, WellFormed, HoldsBut, Without, DropAt, Distinct, Nowhere;
    SizedBy(a, s.c0, s.k0, s.nodes, -1);
    SizedBy(b, s.c1, s.k1, s.nodes, -1);
    PositionAlone(HomesOf(hash), same, s, table, idx, he);
    if prev != null {
      PositionAlone(HomesOf(hash), same, s, table, idx, prev);
    }
    RemoveKeeps(HomesOf(hash), same, s, table, idx, j);
    t0, t1, t := a, b, Remove(s, table, idx, j);
    if table == 0 {
      Unlink(t0, idx, he, prev, s.c0, s.k0, s.nodes, j, t1, s.c1, s.k1);
      t0 := t0.(used := t0.used - 1);
    } else {
      Unlink(t1, idx, he, prev, s.c1, s.k1, s.nodes, j, t0, s.c0, s.k0);
      t1 := t1.(used := t1.used - 1);
    }
  }

  lemma NothingThere<T>(same: Compare, m: map<Key, T>, key: Key)
    requires |m| == 0
    ensures Absent(same, m, key)
  {
  }

  lemma SomethingThere(home: Homes, same: Compare, s: State)
    requires WellFormed(home, same, s) && |s.nodes| > 0
    ensures s.c0 != []
  {
    hide Total;
    if s.c0 == [] {
      NothingPlaced(home, same, s);
    }
  }

  lemma AddedBy(home: Homes, same: Compare, s: State, g: State, t: State, e: Entry?)
    requires e == null ==> t == g
    requires e != null ==> e in t.nodes && g.c0 != [] && Absent(same, g.entries, e.key) && t == Insert(home, g, e)
    ensures Grown(s, g) ==> Added(home, same, s, t)
  {
    hide Absent;
  }

  lemma FourFits()
    ensures INITIAL_SIZE <= Pow2(62)
  {
    Pow2Increases(2, 62);
  }

  lemma NotLeast(size: nat, k: nat)
    requires size >= 2 * Pow2(k)
    ensures !LeastPower(size, k)
  {
  }

  // What a successful Expand does to the shape.
  lemma GrownBy(size: nat, s: State, t: State)
    requires !Rehashing(s) && (s.c0 != [] ==> !LeastPower(size, s.k0))
    requires exists k :: LeastPower(size, k) && k <= 62 && t == Grow(s, k)
    ensures Grown(s, t) && t.c0 != []
  {
    var k :| LeastPower(size, k) && k <= 62 && t == Grow(s, k);
    assert MayGrow(s, k);
  }

  lemma LeastPowerUnique(size: nat, j: nat, k: nat)
    requires LeastPower(size, j)
    ensures Pow2(j) == Pow2(k) <==> j == k
    ensures LeastPower(size, k) <==> j == k
  {
    hide Pow2;
    if j < k {
      Pow2Increases(j, k);
      if j < k - 1 {
        Pow2Increases(j, k - 1);
      }
    } else if k < j {
      Pow2Increases(k, j);
      if k < j - 1 {
        Pow2Increases(k, j - 1);
      }
    }
  }
}
