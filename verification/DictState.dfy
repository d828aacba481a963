// The shape of a dictionary: which entry sits in which chain of which table,
// and the map from keys to entries that the chains stand for.
module DictState {
  import opened Words

  type Key(==, !new)
  type Val(==, 0)

  class Entry {
    const key: Key
    var val: Val
    var next: Entry?

    constructor (k: Key)
      ensures key == k
    {
      key, next := k, null;
    }
  }

  type Hash = Key -> Word
  type Compare = (Key, Key) -> bool
  type Chains = seq<seq<Entry>>

  // Equal keys have equal hashes.
  ghost predicate GoodKeys(hash: Hash, same: Compare) {
    && (forall a :: same(a, a))
    && (forall a, b :: same(a, b) ==> same(b, a))
    && (forall a, b, c :: same(a, b) && same(b, c) ==> same(a, c))
    && (forall a, b :: same(a, b) ==> hash(a) == hash(b))
  }

  // The bucket of a key in a table of 2^k buckets.
  type Homes = (Key, nat) -> nat

  ghost predicate GoodHomes(home: Homes) {
    forall key, k: nat :: k <= 62 ==> home(key, k) < Pow2(k)
  }

  function Bucket(c: Chains, i: nat): seq<Entry> {
    if i < |c| then c[i] else []
  }

  function Total(c: Chains): nat {
    if c == [] then 0 else Total(c[..|c| - 1]) + |c[|c| - 1]|
  }

  ghost predicate Distinct(s: seq<Entry>) {
    forall i, j :: 0 <= i < j < |s| ==> s[i] != s[j]
  }

  // c0, k0: the chains and the size 2^k0 of ht[0]; c1, k1: those of ht[1];
  // nodes: all entries; entries: the entry of every key present.
  datatype State = State(c0: Chains, k0: nat, c1: Chains, k1: nat, rehashidx: int,
                         nodes: set<Entry>, entries: map<Key, Entry>)

  ghost predicate In(home: Homes, c: Chains, k: nat, e: Entry)
  {
    e in Bucket(c, home(e.key, k))
  }

  ghost predicate SizeOk(c: Chains, k: nat) {
    2 <= k <= 62 && |c| == Pow2(k)
  }

  ghost predicate Homed(home: Homes, c: Chains, k: nat, nodes: set<Entry>) {
    && (forall i, e :: 0 <= i < |c| && e in c[i] ==> home(e.key, k) == i && e in nodes)
    && (forall i :: 0 <= i < |c| ==> Distinct(c[i]))
  }

  predicate Rehashing(s: State) { s.rehashidx != -1 }

  // Sizes, and the progress of a migration: the chains below rehashidx are empty.
  ghost predicate Layout(s: State) {
    && s.k0 <= 62 && s.k1 <= 62
    && (s.c0 != [] ==> SizeOk(s.c0, s.k0))
    && (s.c0 == [] ==> s.rehashidx == -1)
    && (s.rehashidx == -1 ==> s.c1 == [])
    && (s.rehashidx != -1 ==>
          && SizeOk(s.c1, s.k1) && s.k0 != s.k1
          && 0 <= s.rehashidx <= |s.c0|
          && forall i :: 0 <= i < s.rehashidx ==> s.c0[i] == [])
  }

  // No entry is in both tables.
  ghost predicate Apart(home: Homes, s: State) {
    forall i, e :: 0 <= i < |s.c1| && e in s.c1[i] ==> !In(home, s.c0, s.k0, e)
  }

  // Every entry is in one of the tables.
  ghost predicate Covered(home: Homes, s: State) {
    forall e :: e in s.nodes ==> In(home, s.c0, s.k0, e) || In(home, s.c1, s.k1, e)
  }

  ghost predicate Keyed(nodes: set<Entry>, entries: map<Key, Entry>) {
    && (forall e :: e in nodes ==> e.key in entries && entries[e.key] == e)
    && (forall k :: k in entries ==> entries[k] in nodes && entries[k].key == k)
  }

  ghost predicate Unlike(same: Compare, entries: map<Key, Entry>) {
    forall a, b :: a in entries && b in entries && same(a, b) ==> a == b
  }

  ghost predicate Counted(s: State) {
    Total(s.c0) + Total(s.c1) == |s.nodes| == |s.entries|
  }

  ghost predicate WellFormed(home: Homes, same: Compare, s: State) {
    && Layout(s)
    && Homed(home, s.c0, s.k0, s.nodes)
    && Homed(home, s.c1, s.k1, s.nodes)
    && Apart(home, s)
    && Covered(home, s)
    && Keyed(s.nodes, s.entries)
    && Unlike(same, s.entries)
    && Counted(s)
  }

  lemma ApartMeans(home: Homes, s: State)
    requires Homed(home, s.c1, s.k1, s.nodes)
    ensures Apart(home, s) <==> forall e: Entry :: !(In(home, s.c0, s.k0, e) && In(home, s.c1, s.k1, e))
  {
    if !Apart(home, s) {
      var i, e :| 0 <= i < |s.c1| && e in s.c1[i] && In(home, s.c0, s.k0, e);
      assert In(home, s.c1, s.k1, e);
    }
  }

  // ------------------------------------------------------------------ totals

  lemma {:induction false} TotalUpdate(c: Chains, i: nat, b: seq<Entry>)
    requires i < |c|
    ensures Total(c[i := b]) == Total(c) - |c[i]| + |b|
    ensures Total(c) >= |c[i]|
  {
    var n := |c| - 1;
    if i == n {
      assert c[i := b][..n] == c[..n];
    } else {
      TotalUpdate(c[..n], i, b);
      assert c[i := b][..n] == c[..n][i := b];
    }
  }

  lemma {:induction false} TotalZero(c: Chains)
    ensures Total(c) == 0 <==> forall i :: 0 <= i < |c| ==> c[i] == []
  {
    if c != [] {
      TotalZero(c[..|c| - 1]);
      assert forall i :: 0 <= i < |c| - 1 ==> c[..|c| - 1][i] == c[i];
    }
  }

  const EMPTY: State := State([], 0, [], 0, -1, {}, map[])

  lemma EmptyIsWellFormed(home: Homes, same: Compare)
    ensures WellFormed(home, same, EMPTY)
  {
  }

  // ------------------------------------------------------------------ steps on the shape

  function Push(home: Homes, c: Chains, k: nat, e: Entry): Chains {
    var h := home(e.key, k);
    if h < |c| then c[h := [e] + c[h]] else c
  }

  // Moving the first entry of chain i of ht[0] in front of its chain of ht[1].
  function MoveHead(home: Homes, s: State, i: nat): State
    requires i < |s.c0| && s.c0[i] != []
  {
    s.(c0 := s.c0[i := s.c0[i][1..]], c1 := Push(home, s.c1, s.k1, s.c0[i][0]))
  }

  lemma HomedTail(home: Homes, c: Chains, k: nat, nodes: set<Entry>, i: nat)
    requires Homed(home, c, k, nodes) && i < |c| && c[i] != []
    ensures Homed(home, c[i := c[i][1..]], k, nodes)
    ensures forall x: Entry :: In(home, c[i := c[i][1..]], k, x) <==> In(home, c, k, x) && x != c[i][0]
  {
    assert c[i] == [c[i][0]] + c[i][1..];
  }

  lemma HomedPush(home: Homes, c: Chains, k: nat, nodes: set<Entry>, e: Entry)
    requires Homed(home, c, k, nodes) && home(e.key, k) < |c| && !In(home, c, k, e)
    requires e in nodes
    ensures Homed(home, Push(home, c, k, e), k, nodes)
    ensures forall x: Entry :: In(home, Push(home, c, k, e), k, x) <==> In(home, c, k, x) || x == e
  {
  }

  lemma HeadPlace(home: Homes, same: Compare, s: State, i: nat)
    requires GoodHomes(home) && WellFormed(home, same, s) && Rehashing(s)
    requires i < |s.c0| && s.c0[i] != []
    ensures
      var e := s.c0[i][0];
      e in s.nodes && In(home, s.c0, s.k0, e) && !In(home, s.c1, s.k1, e) && home(e.key, s.k1) < |s.c1|
  {
    assert s.c0[i][0] in s.c0[i];
    assert In(home, s.c0, s.k0, s.c0[i][0]);
  }

  lemma MoveHeadKeeps(home: Homes, same: Compare, s: State, i: nat)
    requires GoodHomes(home) && WellFormed(home, same, s) && Rehashing(s)
    requires i < |s.c0| && s.c0[i] != []
    ensures home(s.c0[i][0].key, s.k1) < |s.c1|
    ensures WellFormed(home, same, MoveHead(home, s, i))
    ensures Total(MoveHead(home, s, i).c0) == Total(s.c0) - 1
    ensures Total(MoveHead(home, s, i).c1) == Total(s.c1) + 1
  {
    hide Homed, In, Total, GoodHomes, Keyed, Unlike;
    var e := s.c0[i][0];
    var h := home(e.key, s.k1);
    HeadPlace(home, same, s, i);
    HomedTail(home, s.c0, s.k0, s.nodes, i);
    HomedPush(home, s.c1, s.k1, s.nodes, e);
    TotalUpdate(s.c0, i, s.c0[i][1..]);
    TotalUpdate(s.c1, h, [e] + s.c1[h]);
    ApartMeans(home, s);
    ApartMeans(home, MoveHead(home, s, i));
  }

  ghost predicate Nowhere(e: Entry, c: Chains, skip: int) {
    forall i :: 0 <= i < |c| && i != skip ==> e !in c[i]
  }

  // The first entry of chain i of ht[0] stands nowhere else.
  lemma HeadStandsAlone(home: Homes, same: Compare, s: State, i: nat)
    requires WellFormed(home, same, s) && i < |s.c0| && s.c0[i] != []
    ensures
      var e := s.c0[i][0];
      && e in s.nodes
      && (forall j :: 1 <= j < |s.c0[i]| ==> s.c0[i][j] != e)
      && Nowhere(e, s.c0, i)
      && Nowhere(e, s.c1, -1)
  {
    assert s.c0[i][0] in s.c0[i];
    assert In(home, s.c0, s.k0, s.c0[i][0]);
  }

  // How many buckets from i to j are not empty.
  function Filled(c: Chains, i: nat, j: nat): nat
    requires j <= |c|
  {
    if j <= i then 0 else Filled(c, i, j - 1) + if c[j - 1] != [] then 1 else 0
  }

  lemma {:induction false} FilledSkip(c: Chains, i: nat, j: nat, k: nat)
    requires i <= j <= k <= |c| && forall m :: j <= m < k ==> c[m] == []
    ensures Filled(c, i, k) == Filled(c, i, j)
    decreases k
  {
    if j < k {
      FilledSkip(c, i, j, k - 1);
    }
  }

  lemma FilledNone(c: Chains, i: nat)
    requires i <= |c|
    ensures Filled(c, i, i) == 0
  {
  }

  // Buckets i to j are empty, but for the last one when `stop` is false.
  predicate Passes(c: Chains, i: nat, j: nat, stop: bool) {
    i < j <= |c| && (forall m :: i <= m < j - 1 ==> c[m] == []) && (c[j - 1] == [] <==> stop)
  }

  lemma FilledByRound(c0: Chains, c: Chains, start: nat, i: nat, j: nat, stop: bool)
    requires start <= i <= |c0| == |c| && c[i..] == c0[i..] && Passes(c, i, j, stop)
    ensures c[j..] == c0[j..]
    ensures Filled(c0, start, j) == Filled(c0, start, i) + if stop then 0 else 1
  {
    forall m | i <= m < |c|
      ensures c0[m] == c[m]
    {
      assert c0[m] == c0[i..][m - i] == c[i..][m - i] == c[m];
    }
    FilledSkip(c0, start, i, j - 1);
  }

  // From bucket i to bucket j the work that n rounds allow has been done: n buckets moved, or 10 * n empty ones met.
  predicate Progress(c: Chains, i: nat, j: nat, n: nat) {
    && i <= j <= |c| && Filled(c, i, j) <= n && j - i - Filled(c, i, j) <= 10 * n
    && (Filled(c, i, j) == n || j - i - Filled(c, i, j) == 10 * n)
  }

  // Passing empty buckets of ht[0].
  lemma SkipKeeps(home: Homes, same: Compare, s: State, i: nat)
    requires WellFormed(home, same, s) && Rehashing(s) && s.rehashidx <= i <= |s.c0|
    requires forall j :: s.rehashidx <= j < i ==> s.c0[j] == []
    ensures WellFormed(home, same, s.(rehashidx := i))
  {
  }

  // ht[1] takes the place of ht[0] once ht[0] is empty.
  function Finish(s: State): State {
    State(s.c1, s.k1, [], 0, -1, s.nodes, s.entries)
  }

  lemma FinishKeeps(home: Homes, same: Compare, s: State)
    requires WellFormed(home, same, s) && Rehashing(s) && Total(s.c0) == 0
    ensures WellFormed(home, same, Finish(s))
  {
    TotalZero(s.c0);
    forall e: Entry
      ensures !In(home, s.c0, s.k0, e)
    {
    }
  }

  function EmptyChains(n: nat): (c: Chains)
    ensures |c| == n && forall i :: 0 <= i < n ==> c[i] == []
  {
    seq(n, i => [])
  }

  // A table of 2^k buckets is put in place: as ht[0] the first time, as ht[1] later.
  function Grow(s: State, k: nat): State {
    if s.c0 == [] then s.(c0 := EmptyChains(Pow2(k)), k0 := k)
    else s.(c1 := EmptyChains(Pow2(k)), k1 := k, rehashidx := 0)
  }

  lemma EmptyChainsHold(home: Homes, n: nat, k: nat, nodes: set<Entry>)
    ensures Homed(home, EmptyChains(n), k, nodes)
    ensures forall e: Entry :: !In(home, EmptyChains(n), k, e)
    ensures Total(EmptyChains(n)) == 0
  {
    TotalZero(EmptyChains(n));
  }

  lemma GrowKeeps(home: Homes, same: Compare, s: State, k: nat)
    requires WellFormed(home, same, s) && !Rehashing(s) && 2 <= k <= 62 && (s.c0 != [] ==> k != s.k0)
    ensures WellFormed(home, same, Grow(s, k))
    ensures Total(Grow(s, k).c0) == Total(s.c0) && Total(Grow(s, k).c1) == 0
  {
    EmptyChainsHold(home, Pow2(k), k, s.nodes);
    if s.c0 == [] {
      NothingPlaced(home, same, s);
    } else {
      assert Covered(home, Grow(s, k));
    }
  }

  lemma NothingPlaced(home: Homes, same: Compare, s: State)
    requires WellFormed(home, same, s) && s.c0 == []
    ensures s.nodes == {} && s.entries == map[]
  {
  }

  // A new entry goes in front of its chain in the newest table.
  function Insert(home: Homes, s: State, e: Entry): State
  {
    var t := s.(nodes := s.nodes + {e}, entries := s.entries[e.key := e]);
    if Rehashing(s) then t.(c1 := Push(home, s.c1, s.k1, e)) else t.(c0 := Push(home, s.c0, s.k0, e))
  }

  // No key of the map equals this one.
  ghost predicate Absent<T>(same: Compare, m: map<Key, T>, key: Key) {
    forall k :: k in m ==> !same(key, k)
  }

  lemma AbsentIsNowhere(home: Homes, same: Compare, s: State, e: Entry)
    requires WellFormed(home, same, s) && Absent(same, s.entries, e.key) && same(e.key, e.key)
    ensures e.key !in s.entries && e !in s.nodes
    ensures !In(home, s.c0, s.k0, e) && !In(home, s.c1, s.k1, e)
    ensures Homed(home, s.c0, s.k0, s.nodes + {e})
    ensures Homed(home, s.c1, s.k1, s.nodes + {e})
  {
  }

  lemma InsertUnlike(same: Compare, s: State, e: Entry)
    requires Unlike(same, s.entries) && Absent(same, s.entries, e.key)
    requires forall a, b :: same(a, b) ==> same(b, a)
    ensures Unlike(same, s.entries[e.key := e])
  {
  }

  ghost predicate Fits(home: Homes, s: State, e: Entry) {
    home(e.key, if Rehashing(s) then s.k1 else s.k0) < |if Rehashing(s) then s.c1 else s.c0|
  }

  lemma InsertPlaces(home: Homes, same: Compare, s: State, e: Entry)
    requires GoodHomes(home) && WellFormed(home, same, s) && s.c0 != []
    requires Absent(same, s.entries, e.key) && same(e.key, e.key)
    ensures Fits(home, s, e)
    ensures
      var t := Insert(home, s, e);
      && Layout(t)
      && Homed(home, t.c0, t.k0, t.nodes)
      && Homed(home, t.c1, t.k1, t.nodes)
      && (forall x: Entry :: In(home, t.c0, t.k0, x) <==> In(home, s.c0, s.k0, x) || (x == e && !Rehashing(s)))
      && (forall x: Entry :: In(home, t.c1, t.k1, x) <==> In(home, s.c1, s.k1, x) || (x == e && Rehashing(s)))
      && Total(t.c0) + Total(t.c1) == Total(s.c0) + Total(s.c1) + 1
  {
    var nodes := s.nodes + {e};
    AbsentIsNowhere(home, same, s, e);
    if Rehashing(s) {
      HomedPush(home, s.c1, s.k1, nodes, e);
      TotalUpdate(s.c1, home(e.key, s.k1), [e] + s.c1[home(e.key, s.k1)]);
    } else {
      HomedPush(home, s.c0, s.k0, nodes, e);
      TotalUpdate(s.c0, home(e.key, s.k0), [e] + s.c0[home(e.key, s.k0)]);
    }
  }

  lemma InsertKeeps(home: Homes, same: Compare, s: State, e: Entry)
    requires GoodHomes(home) && WellFormed(home, same, s) && s.c0 != []
    requires Absent(same, s.entries, e.key) && same(e.key, e.key)
    requires forall a, b :: same(a, b) ==> same(b, a)
    ensures Fits(home, s, e)
    ensures WellFormed(home, same, Insert(home, s, e))
    ensures Total(Insert(home, s, e).c0) + Total(Insert(home, s, e).c1) == Total(s.c0) + Total(s.c1) + 1
  {
    hide Homed, In, GoodHomes, Layout, Total, Push, Covered, Keyed, Unlike;
    var t := Insert(home, s, e);
    InsertPlaces(home, same, s, e);
    AbsentIsNowhere(home, same, s, e);
    InsertCovered(home, same, s, e);
    InsertUnlike(same, s, e);
    ApartMeans(home, s);
    ApartMeans(home, t);
  }

  lemma InsertCovered(home: Homes, same: Compare, s: State, e: Entry)
    requires GoodHomes(home) && WellFormed(home, same, s) && s.c0 != []
    requires Absent(same, s.entries, e.key) && same(e.key, e.key)
    ensures
      var t := Insert(home, s, e);
      Covered(home, t) && Keyed(t.nodes, t.entries)
  {
    hide Homed, In, GoodHomes, Layout, Total, Push;
    InsertPlaces(home, same, s, e);
    AbsentIsNowhere(home, same, s, e);
  }

  function DropAt(s: seq<Entry>, j: nat): seq<Entry>
    requires j < |s|
  {
    s[..j] + s[j + 1..]
  }

  function Without(entries: map<Key, Entry>, key: Key): map<Key, Entry> {
    entries - {key}
  }

  lemma WithoutSize(entries: map<Key, Entry>, key: Key)
    requires key in entries
    ensures |Without(entries, key)| == |entries| - 1
  {
    assert Without(entries, key).Keys == entries.Keys - {key};
    assert |Without(entries, key)| == |Without(entries, key).Keys|;
    assert |entries| == |entries.Keys|;
  }

  function Chain(s: State, table: nat): Chains {
    if table == 0 then s.c0 else s.c1
  }

  function Size(s: State, table: nat): nat {
    if table == 0 then s.k0 else s.k1
  }

  // Position j of chain i of one table is unlinked.
  function Remove(s: State, table: nat, i: nat, j: nat): State
    requires i < |Chain(s, table)| && j < |Chain(s, table)[i]|
  {
    var c := Chain(s, table);
    var t := s.(nodes := s.nodes - {c[i][j]}, entries := Without(s.entries, c[i][j].key));
    if table == 0 then t.(c0 := c[i := DropAt(c[i], j)]) else t.(c1 := c[i := DropAt(c[i], j)])
  }

  lemma DropAtMembers(s: seq<Entry>, j: nat)
    requires Distinct(s) && j < |s|
    ensures Distinct(DropAt(s, j))
    ensures forall x :: x in DropAt(s, j) <==> x in s && x != s[j]
  {
    assert s == s[..j] + [s[j]] + s[j + 1..];
  }

  lemma HomedDrop(home: Homes, c: Chains, k: nat, nodes: set<Entry>, i: nat, j: nat)
    requires Homed(home, c, k, nodes) && i < |c| && j < |c[i]|
    ensures Homed(home, c[i := DropAt(c[i], j)], k, nodes - {c[i][j]})
    ensures forall x: Entry :: In(home, c[i := DropAt(c[i], j)], k, x) <==> In(home, c, k, x) && x != c[i][j]
  {
    DropAtMembers(c[i], j);
  }

  lemma HomedWithout(home: Homes, c: Chains, k: nat, nodes: set<Entry>, e: Entry)
    requires Homed(home, c, k, nodes) && !In(home, c, k, e)
    ensures Homed(home, c, k, nodes - {e})
  {
  }

  lemma RemovePlaces(home: Homes, same: Compare, s: State, table: nat, i: nat, j: nat)
    requires WellFormed(home, same, s) && table <= 1
    requires i < |Chain(s, table)| && j < |Chain(s, table)[i]|
    ensures
      var e := Chain(s, table)[i][j];
      var t := Remove(s, table, i, j);
      && e in s.nodes
      && Homed(home, t.c0, t.k0, t.nodes)
      && Homed(home, t.c1, t.k1, t.nodes)
      && (forall x: Entry :: In(home, t.c0, t.k0, x) <==> In(home, s.c0, s.k0, x) && x != e)
      && (forall x: Entry :: In(home, t.c1, t.k1, x) <==> In(home, s.c1, s.k1, x) && x != e)
  {
    var c := Chain(s, table);
    var e := c[i][j];
    assert e in c[i];
    assert In(home, c, Size(s, table), e);
    HomedDrop(home, c, Size(s, table), s.nodes, i, j);
    if table == 0 {
      HomedWithout(home, s.c1, s.k1, s.nodes, e);
    } else {
      HomedWithout(home, s.c0, s.k0, s.nodes, e);
    }
  }

  lemma RemoveKeeps(home: Homes, same: Compare, s: State, table: nat, i: nat, j: nat)
    requires WellFormed(home, same, s) && table <= 1
    requires i < |Chain(s, table)| && j < |Chain(s, table)[i]|
    ensures WellFormed(home, same, Remove(s, table, i, j))
    ensures Total(Chain(Remove(s, table, i, j), table)) == Total(Chain(s, table)) - 1
  {
    hide Homed, In, Total, Without, Covered, Unlike;
    var c := Chain(s, table);
    var t := Remove(s, table, i, j);
    RemovePlaces(home, same, s, table, i, j);
    RemoveCovered(home, same, s, table, i, j);
    TotalUpdate(c, i, DropAt(c[i], j));
    ApartMeans(home, s);
    ApartMeans(home, t);
    WithoutSize(s.entries, c[i][j].key);
  }

  lemma RemoveCovered(home: Homes, same: Compare, s: State, table: nat, i: nat, j: nat)
    requires WellFormed(home, same, s) && table <= 1
    requires i < |Chain(s, table)| && j < |Chain(s, table)[i]|
    ensures
      var t := Remove(s, table, i, j);
      Covered(home, t) && Keyed(t.nodes, t.entries) && Unlike(same, t.entries)
  {
    hide Homed, In, Total;
    RemovePlaces(home, same, s, table, i, j);
  }

  // An entry stands at one position only.
  lemma PositionAlone(home: Homes, same: Compare, s: State, table: nat, i: nat, x: Entry)
    requires WellFormed(home, same, s) && table <= 1
    requires i < |Chain(s, table)| && x in Chain(s, table)[i]
    ensures x in s.nodes && Distinct(Chain(s, table)[i])
    ensures Nowhere(x, Chain(s, table), i) && Nowhere(x, Chain(s, 1 - table), -1)
  {
    hide Total, Counted, Keyed, Unlike, Covered, Layout;
    assert In(home, Chain(s, table), Size(s, table), x);
    ApartMeans(home, s);
  }

  // Where an entry is, and where it is not.
  lemma EntryFacts(home: Homes, same: Compare, s: State, e: Entry)
    requires WellFormed(home, same, s)
    ensures !(In(home, s.c0, s.k0, e) && In(home, s.c1, s.k1, e))
    ensures e in s.nodes <==> In(home, s.c0, s.k0, e) || In(home, s.c1, s.k1, e)
    ensures In(home, s.c1, s.k1, e) ==> Rehashing(s)
    ensures forall i: nat :: i < |s.c0| ==> (e in s.c0[i] <==> In(home, s.c0, s.k0, e) && home(e.key, s.k0) == i)
    ensures forall i: nat :: i < |s.c1| ==> (e in s.c1[i] <==> In(home, s.c1, s.k1, e) && home(e.key, s.k1) == i)
    ensures In(home, s.c0, s.k0, e) ==> home(e.key, s.k0) < |s.c0|
    ensures In(home, s.c1, s.k1, e) ==> home(e.key, s.k1) < |s.c1|
  {
    hide Keyed, Unlike, Counted, Total;
    ApartMeans(home, s);
  }

  lemma ChainDistinct(home: Homes, same: Compare, s: State, table: nat, i: nat)
    requires WellFormed(home, same, s) && table <= 1 && i < |Chain(s, table)|
    ensures Distinct(Chain(s, table)[i])
  {
    hide Total;
  }

  // A table of 2^k buckets may be put in place; k == 0 stands for leaving the tables alone.
  ghost predicate MayGrow(s: State, k: nat) {
    k == 0 || (!Rehashing(s) && 2 <= k <= 62 && (s.c0 != [] ==> k != s.k0))
  }

  function GrowTo(s: State, k: nat): State {
    if k == 0 then s else Grow(s, k)
  }

  ghost predicate Grown(s: State, t: State) {
    exists k: nat :: MayGrow(s, k) && t == GrowTo(s, k)
  }

  lemma GrownNot(s: State)
    ensures Grown(s, s)
  {
    assert MayGrow(s, 0);
  }

  lemma UsedOf(home: Homes, same: Compare, s: State)
    requires WellFormed(home, same, s)
    ensures Total(s.c0) + Total(s.c1) == |s.nodes| == |s.entries|
    ensures !Rehashing(s) ==> Total(s.c1) == 0
    ensures forall k :: k in s.entries ==> s.entries[k] in s.nodes && s.entries[k].key == k
    ensures forall x :: x in s.nodes ==> x.key in s.entries && s.entries[x.key] == x
  {
    hide Homed, Apart, Covered, Unlike;
  }

  lemma PlaceOf(home: Homes, same: Compare, s: State, e: Entry)
    requires WellFormed(home, same, s) && e in s.nodes
    ensures s.k0 <= 62 && s.k1 <= 62
    ensures e in Bucket(s.c0, home(e.key, s.k0)) || (Rehashing(s) && e in Bucket(s.c1, home(e.key, s.k1)))
  {
    hide Homed, Apart, Keyed, Unlike, Counted, Total;
    assert In(home, s.c0, s.k0, e) || In(home, s.c1, s.k1, e);
  }

  // What adding a key may do while no bucket moves.
  ghost predicate Added(home: Homes, same: Compare, s: State, t: State) {
    exists k: nat :: MayGrow(s, k) && (t == GrowTo(s, k) || AddedTo(home, same, GrowTo(s, k), t))
  }

  ghost predicate AddedTo(home: Homes, same: Compare, g: State, t: State) {
    g.c0 != [] && exists e :: e in t.nodes && Absent(same, g.entries, e.key) && t == Insert(home, g, e)
  }

  // t is s without the entry e.
  ghost predicate Removed(s: State, t: State, e: Entry) {
    exists table: nat, i: nat, j: nat ::
      && table <= 1 && i < |Chain(s, table)| && j < |Chain(s, table)[i]| && Chain(s, table)[i][j] == e
      && t == Remove(s, table, i, j)
  }
}
