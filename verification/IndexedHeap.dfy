// The binary heap whose elements know their slots.
module IndexedHeap {
  // ------------------------------------------------------------------ order

  ghost predicate Preorder<K(!new)>(cmp: (K, K) -> int) {
    && (forall x, y :: cmp(x, y) > 0 <==> cmp(y, x) < 0)
    && (forall x, y, z :: cmp(x, y) >= 0 && cmp(y, z) >= 0 ==> cmp(x, z) >= 0)
  }

  // The comparisons of ztl_heap.c on what the keys hold: for the least first, and for the largest.
  function LeastFirst(x: int, y: int): int { if x == y then 0 else if x < y then 1 else -1 }

  function LargestFirst(x: int, y: int): int { if x == y then 0 else if x < y then -1 else 1 }

  // Both are orders, and what no key is above is the least one and the largest one.
  lemma ComparisonsAreOrders(top: int, keys: set<int>)
    ensures Preorder(LeastFirst) && Preorder(LargestFirst)
    ensures (forall k :: k in keys ==> LeastFirst(top, k) >= 0) <==> forall k :: k in keys ==> top <= k
    ensures (forall k :: k in keys ==> LargestFirst(top, k) >= 0) <==> forall k :: k in keys ==> top >= k
  {
    if forall k :: k in keys ==> LeastFirst(top, k) >= 0 {
      forall k | k in keys
        ensures top <= k
      {
        assert LeastFirst(top, k) >= 0;
      }
    }
    if forall k :: k in keys ==> LargestFirst(top, k) >= 0 {
      forall k | k in keys
        ensures top >= k
      {
        assert LargestFirst(top, k) >= 0;
      }
    }
  }

  // Slots count from 1. The element at slot k is not above the one at its parent.
  predicate Under<K>(cmp: (K, K) -> int, s: seq<K>, k: nat)
    requires 2 <= k <= |s|
  {
    cmp(s[k / 2 - 1], s[k - 1]) >= 0
  }

  predicate Ordered<K>(cmp: (K, K) -> int, s: seq<K>) {
    forall k :: 2 <= k <= |s| ==> Under(cmp, s, k)
  }

  // Slot i may be out of order with its parent and its children; all else is in order, also across it.
  predicate HoleAt<K>(cmp: (K, K) -> int, s: seq<K>, i: nat)
    requires 1 <= i <= |s|
  {
    && (forall k :: 2 <= k <= |s| && k != i && k / 2 != i ==> Under(cmp, s, k))
    && (forall k :: 2 <= k <= |s| && k / 2 == i >= 2 ==> cmp(s[i / 2 - 1], s[k - 1]) >= 0)
  }

  predicate OverChildren<K>(cmp: (K, K) -> int, s: seq<K>, i: nat) {
    forall k :: 2 <= k <= |s| && k / 2 == i ==> Under(cmp, s, k)
  }

  function Swapped<T>(s: seq<T>, i: nat, j: nat): (r: seq<T>)
    requires 1 <= i <= |s| && 1 <= j <= |s|
    ensures |r| == |s| && multiset(r) == multiset(s)
    ensures forall k :: 0 <= k < |s| ==> r[k] == if k == i - 1 then s[j - 1] else if k == j - 1 then s[i - 1] else s[k]
  {
    s[i - 1 := s[j - 1]][j - 1 := s[i - 1]]
  }

  lemma Above<K(!new)>(cmp: (K, K) -> int, x: K, y: K, z: K)
    requires Preorder(cmp)
    ensures cmp(x, y) >= 0 && cmp(y, z) >= 0 ==> cmp(x, z) >= 0
    ensures cmp(x, y) < 0 <==> cmp(y, x) > 0
    ensures cmp(x, x) == 0
  {
  }

  // One round of bubble_up, slot by slot.
  lemma UpPair<K(!new)>(cmp: (K, K) -> int, s: seq<K>, i: nat, k: nat)
    requires Preorder(cmp) && 2 <= i <= |s| && HoleAt(cmp, s, i) && !Under(cmp, s, i) && 2 <= k <= |s|
    ensures k != i / 2 && k / 2 != i / 2 ==> Under(cmp, Swapped(s, i / 2, i), k)
    ensures k / 2 == i / 2 && OverChildren(cmp, s, i) ==> Under(cmp, Swapped(s, i / 2, i), k)
    ensures k / 2 == i / 2 >= 2 ==> cmp(Swapped(s, i / 2, i)[i / 2 / 2 - 1], Swapped(s, i / 2, i)[k - 1]) >= 0
  {
    hide Preorder;
    var p := i / 2;
    assert p >= 2 ==> Under(cmp, s, p);
    assert k != i && k / 2 != i ==> Under(cmp, s, k);
    assert k / 2 == i ==> cmp(s[p - 1], s[k - 1]) >= 0;
    Above(cmp, s[p - 1], s[i - 1], s[i - 1]);
    Above(cmp, s[i - 1], s[p - 1], s[k - 1]);
    if p >= 2 {
      Above(cmp, s[p / 2 - 1], s[p - 1], s[k - 1]);
    }
  }

  lemma UpKeeps<K(!new)>(cmp: (K, K) -> int, s: seq<K>, i: nat)
    requires Preorder(cmp) && 2 <= i <= |s| && HoleAt(cmp, s, i) && !Under(cmp, s, i)
    ensures HoleAt(cmp, Swapped(s, i / 2, i), i / 2)
    ensures OverChildren(cmp, s, i) ==> OverChildren(cmp, Swapped(s, i / 2, i), i / 2)
  {
    hide Preorder, Swapped, Under;
    forall k | 2 <= k <= |s|
      ensures k != i / 2 && k / 2 != i / 2 ==> Under(cmp, Swapped(s, i / 2, i), k)
      ensures k / 2 == i / 2 && OverChildren(cmp, s, i) ==> Under(cmp, Swapped(s, i / 2, i), k)
      ensures k / 2 == i / 2 >= 2 ==> cmp(Swapped(s, i / 2, i)[i / 2 / 2 - 1], Swapped(s, i / 2, i)[k - 1]) >= 0
    {
      UpPair(cmp, s, i, k);
    }
  }

  lemma Joined<K>(es: seq<Elem?<K>>, e: Elem<K>)
    requires Present(es) && NoDup(es) && e !in es
    ensures Present(es + [e]) && NoDup(es + [e]) && Keys(es + [e]) == Keys(es) + [e.key]
    ensures Bag(es + [e]) == Bag(es) + multiset{e}
  {
  }

  // Nothing is out of order below the hole: it is in order altogether.
  lemma Closed<K>(cmp: (K, K) -> int, s: seq<K>, i: nat)
    requires 1 <= i <= |s| && HoleAt(cmp, s, i) && OverChildren(cmp, s, i) && (i >= 2 ==> Under(cmp, s, i))
    ensures Ordered(cmp, s)
  {
    forall k | 2 <= k <= |s|
      ensures Under(cmp, s, k)
    {
      if k != i && k / 2 != i {
      }
    }
  }

  // One round of max_heapify: the greater child m comes up.
  lemma DownKeeps<K(!new)>(cmp: (K, K) -> int, s: seq<K>, i: nat, m: nat)
    requires Preorder(cmp) && 1 <= i < m <= |s| && m / 2 == i && HoleAt(cmp, s, i) && (i >= 2 ==> Under(cmp, s, i))
    requires !Under(cmp, s, m) && forall k :: 2 <= k <= |s| && k / 2 == i ==> cmp(s[m - 1], s[k - 1]) >= 0
    ensures HoleAt(cmp, Swapped(s, i, m), m) && Under(cmp, Swapped(s, i, m), m)
  {
    var r := Swapped(s, i, m);
    forall k | 2 <= k <= |s| && k != m && k / 2 != m
      ensures Under(cmp, r, k)
    {
      if k / 2 == i {
        assert r[k / 2 - 1] == s[m - 1] && r[k - 1] == s[k - 1];
      } else if k == i {
        assert cmp(s[i / 2 - 1], s[m - 1]) >= 0;
      } else {
        assert Under(cmp, s, k);
      }
    }
    forall k | 2 <= k <= |s| && k / 2 == m
      ensures cmp(r[m / 2 - 1], r[k - 1]) >= 0
    {
      assert Under(cmp, s, k);
    }
  }

  // The slot among i and its children that max_heapify brings up.
  function Greatest<K>(cmp: (K, K) -> int, s: seq<K>, i: nat): (m: nat)
    requires 1 <= i <= |s|
    ensures 1 <= m <= |s|
  {
    var l, r := 2 * i, 2 * i + 1;
    var m := if l <= |s| && cmp(s[l - 1], s[i - 1]) > 0 then l else i;
    if r <= |s| && cmp(s[r - 1], s[m - 1]) > 0 then r else m
  }

  lemma GreatestIsTop<K(!new)>(cmp: (K, K) -> int, s: seq<K>, i: nat)
    requires Preorder(cmp) && 1 <= i <= |s|
    ensures var m := Greatest(cmp, s, i);
      && (m != i ==> m / 2 == i && cmp(s[i - 1], s[m - 1]) < 0)
      && forall k :: 2 <= k <= |s| && k / 2 == i ==> cmp(s[m - 1], s[k - 1]) >= 0
  {
    hide Preorder;
    var l, r := 2 * i, 2 * i + 1;
    if l <= |s| {
      var x, y := s[i - 1], s[l - 1];
      Above(cmp, x, y, y);
      Above(cmp, y, y, y);
      if r <= |s| {
        var z := s[r - 1];
        Above(cmp, z, z, z);
        Above(cmp, x, z, z);
        Above(cmp, y, z, z);
        Above(cmp, z, y, x);
        Above(cmp, z, x, y);
        Above(cmp, x, z, y);
        Above(cmp, z, x, x);
      }
    }
    assert forall k :: k / 2 == i ==> k == l || k == r;
  }

  lemma GreatestKeeps<K(!new)>(cmp: (K, K) -> int, s: seq<K>, i: nat)
    requires Preorder(cmp) && 1 <= i <= |s| && HoleAt(cmp, s, i) && (i >= 2 ==> Under(cmp, s, i))
    ensures var m := Greatest(cmp, s, i);
      if m == i then Ordered(cmp, s) else i < m && HoleAt(cmp, Swapped(s, i, m), m) && Under(cmp, Swapped(s, i, m), m)
  {
    hide Preorder, Swapped, Greatest;
    GreatestIsTop(cmp, s, i);
    if Greatest(cmp, s, i) == i {
      Closed(cmp, s, i);
    } else {
      DownKeeps(cmp, s, i, Greatest(cmp, s, i));
    }
  }

  // The root is above everything.
  lemma {:induction false} RootIsMax<K(!new)>(cmp: (K, K) -> int, s: seq<K>, k: nat)
    requires Preorder(cmp) && Ordered(cmp, s) && 1 <= k <= |s|
    ensures cmp(s[0], s[k - 1]) >= 0
    decreases k
  {
    if k >= 2 {
      RootIsMax(cmp, s, k / 2);
      assert Under(cmp, s, k);
    } else {
      assert cmp(s[0], s[0]) == 0;
    }
  }

  // ------------------------------------------------------------------ the heap

  class Elem<K> {
    const key: K
    var index: nat

    constructor (key: K)
      ensures this.key == key && index == 0
    {
      this.key := key;
      index := 0;
    }
  }

  predicate Present<K>(es: seq<Elem?<K>>) { forall k :: 0 <= k < |es| ==> es[k] != null }

  predicate NoDup<K(==)>(es: seq<Elem?<K>>) { forall a, b :: 0 <= a < b < |es| ==> es[a] != es[b] }

  function Keys<K>(es: seq<Elem?<K>>): (ks: seq<K>)
    requires Present(es)
    ensures |ks| == |es| && forall k :: 0 <= k < |es| ==> ks[k] == es[k].key
  {
    seq(|es|, k requires 0 <= k < |es| => es[k].key)
  }

  // The elements, each as often as it occurs.
  function Bag<K>(es: seq<Elem?<K>>): multiset<Elem?<K>> { multiset(es) }

  class Heap<K(!new)> {
    const cmp: (K, K) -> int
    const indexed: bool
    var h: array<Elem?<K>>
    var curr: nat

    // Holds at least the elements of the heap.
    ghost var elems: set<Elem<K>>

    // Slots up to n hold distinct elements, each of which knows its slot.
    ghost predicate Filled(n: nat)
      reads this`h, this`elems, h, elems`index
    {
      && n <= h.Length && Present(h[..n]) && NoDup(h[..n])
      && (forall k :: 0 <= k < n ==> h[k] in elems && (indexed ==> h[k].index == k + 1))
    }

    ghost function Contents(): seq<Elem?<K>>
      requires curr <= h.Length
      reads this`h, this`curr, h
    {
      h[..curr]
    }

    ghost predicate Valid()
      reads this`h, this`elems, this`curr, h, elems`index
    {
      Preorder(cmp) && Filled(curr) && Ordered(cmp, Keys(Contents()))
    }

    // heap_swap
    method Swap(i: nat, j: nat, ghost n: nat)
      requires Filled(n) && 1 <= i <= n && 1 <= j <= n
      modifies h, elems`index
      ensures Filled(n) && h[..n] == Swapped(old(h[..n]), i, j) && h[n..] == old(h[n..])
    {
      var x, y := h[i - 1], h[j - 1];
      h[i - 1] := y;
      if indexed {
        y.index := i;
      }
      h[j - 1] := x;
      if indexed {
        x.index := j;
      }
    }

    // bubble_up, over the first n slots
    method BubbleUp(i0: nat, ghost n: nat) returns (i: nat)
      requires Preorder(cmp) && Filled(n) && 1 <= i0 <= n && HoleAt(cmp, Keys(h[..n]), i0)
      modifies h, elems`index
      ensures Filled(n) && 1 <= i <= i0 && Bag(h[..n]) == old(Bag(h[..n])) && h[n..] == old(h[n..])
      ensures HoleAt(cmp, Keys(h[..n]), i) && (i >= 2 ==> Under(cmp, Keys(h[..n]), i))
      ensures old(OverChildren(cmp, Keys(h[..n]), i0)) ==> OverChildren(cmp, Keys(h[..n]), i)
      ensures old(i0 >= 2 ==> Under(cmp, Keys(h[..n]), i0)) ==> i == i0 && h[..n] == old(h[..n])
    {
      hide Preorder, HoleAt, OverChildren, Swapped, Bag, NoDup;
      i := i0;
      ghost var was := h[..n];
      while i > 1 && cmp(h[i / 2 - 1].key, h[i - 1].key) < 0
        invariant Filled(n) && 1 <= i <= i0 && Bag(h[..n]) == Bag(was) && h[n..] == old(h[n..])
        invariant HoleAt(cmp, Keys(h[..n]), i)
        invariant OverChildren(cmp, Keys(was), i0) ==> OverChildren(cmp, Keys(h[..n]), i)
        invariant (i0 >= 2 ==> Under(cmp, Keys(was), i0)) ==> i == i0 && h[..n] == was
      {
        UpKeeps(cmp, Keys(h[..n]), i);
        KeysSwapped(h[..n], i / 2, i);
        Swap(i / 2, i, n);
        i := i / 2;
      }
    }

    // max_heapify
    method MaxHeapify(i0: nat)
      requires Preorder(cmp) && Filled(curr) && 1 <= i0
      requires if i0 <= curr then HoleAt(cmp, Keys(Contents()), i0) && (i0 >= 2 ==> Under(cmp, Keys(Contents()), i0))
               else Ordered(cmp, Keys(Contents()))
      modifies h, elems`index
      ensures Valid() && Bag(Contents()) == old(Bag(Contents())) && h[curr..] == old(h[curr..])
    {
      hide Preorder, HoleAt, Under, Ordered, Swapped, Bag, NoDup, Greatest;
      var i := i0;
      while true
        invariant Filled(curr) && 1 <= i && Bag(Contents()) == old(Bag(Contents())) && h[curr..] == old(h[curr..])
        invariant if i <= curr then HoleAt(cmp, Keys(Contents()), i) && (i >= 2 ==> Under(cmp, Keys(Contents()), i))
                  else Ordered(cmp, Keys(Contents()))
        decreases curr - i
      {
        var max := Choose(i);
        if i <= curr {
          GreatestKeeps(cmp, Keys(h[..curr]), i);
        }
        if max == i {
          break;
        }
        KeysSwapped(h[..curr], i, max);
        Swap(i, max, curr);
        i := max;
      }
    }

    // heap_new
    constructor (height: int, indexed: bool, cmp: (K, K) -> int)
      requires Preorder(cmp)
      ensures Valid() && curr == 0 && this.cmp == cmp && this.indexed == indexed && elems == {} && fresh(h)
    {
      this.cmp := cmp;
      this.indexed := indexed;
      h := new Elem?<K>[2 * (if height <= 0 then 8 else height) - 1](_ => null);
      curr := 0;
      elems := {};
    }

    // grow_heap
    method Grow()
      requires Valid()
      modifies this`h
      ensures Valid() && Contents() == old(Contents()) && fresh(h) && h.Length == 2 * old(h.Length) + 1
    {
      var bigger := new Elem?<K>[2 * h.Length + 1](_ => null);
      for i := 0 to h.Length
        invariant bigger[..i] == h[..i]
        modifies bigger
      {
        bigger[i] := h[i];
      }
      assert bigger[..curr] == bigger[..h.Length][..curr];
      assert h[..curr] == h[..h.Length][..curr];
      h := bigger;
    }

    // heap_push
    method Push(elem: Elem<K>)
      requires Valid() && elem !in Contents()
      modifies this`h, this`curr, this`elems, h, elems`index, elem`index
      ensures Valid() && Bag(Contents()) == old(Bag(Contents())) + multiset{elem}
      ensures elems == old(elems) + {elem} && (h == old(h) || fresh(h))
    {
      hide Preorder, Ordered, HoleAt, OverChildren, Under, Bag, NoDup;
      if curr == h.Length {
        Grow();
      }
      PutLast(elem);
      var i := BubbleUp(curr, curr);
      Closed(cmp, Keys(Contents()), i);
    }

    // Its first half: the element joins as the last.
    method PutLast(elem: Elem<K>)
      requires Valid() && elem !in Contents() && curr < h.Length
      modifies this`curr, this`elems, h, elems`index, elem`index
      ensures curr == old(curr) + 1 && Preorder(cmp) && Filled(curr) && elems == old(elems) + {elem}
      ensures HoleAt(cmp, Keys(Contents()), curr) && OverChildren(cmp, Keys(Contents()), curr)
      ensures Bag(Contents()) == old(Bag(Contents())) + multiset{elem}
    {
      hide Preorder, Ordered, HoleAt, OverChildren, Under, Bag, NoDup;
      ghost var es := Contents();
      h[curr] := elem;
      curr := curr + 1;
      if indexed {
        elem.index := curr;
      }
      elems := elems + {elem};
      Joined(es, elem);
      NewLast(cmp, Keys(es), elem.key);
      ghost var e: Elem?<K> := elem;
      assert Contents() == es + [e];
    }

    // _heap_remove
    method RemoveAt(i: nat) returns (ret: Elem?<K>)
      requires Valid() && i >= 1
      modifies this`curr, h, elems`index
      ensures Valid()
      ensures i > old(curr) ==> ret == null && Contents() == old(Contents())
      ensures i <= old(curr) ==> ret == old(Contents())[i - 1]
      ensures i <= old(curr) ==> Bag(Contents()) == old(Bag(Contents())) - multiset{ret}
    {
      hide Preorder, Ordered, HoleAt, OverChildren, Under, Bag, NoDup;
      if i > curr {
        return null;
      }
      ret := TakeOut(i);
      ghost var n := if i <= curr then curr else i;
      ghost var es := h[..n];
      var j := BubbleUp(i, n);
      assert i > curr ==> Contents() == es[..curr];
      MaxHeapify(j);
    }

    // Its first half: the last element takes the place of the one that leaves.
    method TakeOut(i: nat) returns (ret: Elem<K>)
      requires Valid() && 1 <= i <= curr
      modifies this`curr, h, elems`index
      ensures curr == old(curr) - 1 && ret == old(Contents())[i - 1] && Preorder(cmp)
      ensures Bag(Contents()) == old(Bag(Contents())) - multiset{ret}
      ensures var n := if i <= curr then curr else i;
        Filled(n) && HoleAt(cmp, Keys(h[..n]), i) && (n == i >= 2 && i > curr ==> Under(cmp, Keys(h[..n]), i))
      ensures i > curr ==> Filled(curr) && Ordered(cmp, Keys(Contents()))
    {
      hide Preorder, Ordered, HoleAt, OverChildren, Under, Bag, Refilled;
      ghost var es := Contents();
      BagWithout(es, i);
      ret := h[i - 1];
      MoveLast(i);
      curr := curr - 1;
      if i <= curr {
        LastMoved(cmp, Keys(es), i);
        RefilledKeys(es, i);
      } else {
        WithoutLast(cmp, Keys(es));
        assert Contents() == es[..curr];
        assert Keys(es[..curr]) == Keys(es)[..curr];
      }
    }

    // heap_set of the last element at slot i
    method MoveLast(i: nat)
      requires Filled(curr) && 1 <= i <= curr
      modifies h, elems`index
      ensures i == curr ==> Filled(curr) && h[..curr] == old(h[..curr])
      ensures Filled(curr - 1) && h[..curr - 1] == if i == curr then old(h[..curr - 1]) else Refilled(old(h[..curr]), i)
    {
      hide Preorder, Ordered;
      var last := h[curr - 1];
      h[i - 1] := last;
      if indexed {
        last.index := i;
      }
    }

    // heap_pop: something that nothing is above.
    method Pop() returns (ret: Elem?<K>)
      requires Valid()
      modifies this`curr, h, elems`index
      ensures Valid() && (ret == null <==> old(curr) == 0)
      ensures ret == null ==> Contents() == old(Contents())
      ensures ret != null ==> ret in old(Contents()) && Bag(Contents()) == old(Bag(Contents())) - multiset{ret}
      ensures ret != null ==> forall e :: e in old(Contents()) ==> e != null && cmp(ret.key, e.key) >= 0
    {
      ghost var es := Contents();
      if curr > 0 {
        forall e | e in es
          ensures e != null && cmp(es[0].key, e.key) >= 0
        {
          var k :| 0 <= k < |es| && es[k] == e;
          RootIsMax(cmp, Keys(es), k + 1);
        }
      }
      ret := RemoveAt(1);
    }

    // heap_remove: the element at the slot that elem has stored, which is elem itself if it is in the heap.
    method Remove(elem: Elem<K>) returns (ret: Elem?<K>)
      requires Valid()
      modifies this`curr, h, elems`index
      ensures Valid()
      ensures indexed && elem in old(Contents()) ==>
        ret == elem && Bag(Contents()) == old(Bag(Contents())) - multiset{ret}
      ensures indexed && 1 <= old(elem.index) <= old(curr) ==>
        ret == old(Contents())[old(elem.index) - 1] && Bag(Contents()) == old(Bag(Contents())) - multiset{ret}
      ensures !indexed || old(elem.index) == 0 || old(elem.index) > old(curr) ==>
        ret == null && Contents() == old(Contents())
    {
      var i := if indexed then elem.index else 0;
      if i == 0 {
        return null;
      }
      ret := RemoveAt(i);
    }

    // Its choice; behind the last element there is none.
    method Choose(i: nat) returns (max: nat)
      requires Filled(curr) && 1 <= i
      ensures max == if i <= curr then Greatest(cmp, Keys(Contents()), i) else i
    {
      hide NoDup;
      ghost var s := Keys(Contents());
      var l, r := 2 * i, 2 * i + 1;
      max := if l <= curr && cmp(h[l - 1].key, h[i - 1].key) > 0 then l else i;
      assert l <= curr ==> s[l - 1] == h[l - 1].key && s[i - 1] == h[i - 1].key;
      if r <= curr && cmp(h[r - 1].key, h[max - 1].key) > 0 {
        max := r;
      }
    }
  }

  // A new last slot.
  lemma NewLast<K>(cmp: (K, K) -> int, s: seq<K>, k: K)
    requires Ordered(cmp, s)
    ensures HoleAt(cmp, s + [k], |s| + 1) && OverChildren(cmp, s + [k], |s| + 1)
  {
    forall n | 2 <= n <= |s|
      ensures Under(cmp, s + [k], n)
    {
      assert Under(cmp, s, n);
    }
  }

  // The last element takes the place of the one at slot i.
  function Refilled<T>(es: seq<T>, i: nat): (r: seq<T>)
    requires 1 <= i < |es|
    ensures |r| == |es| - 1
    ensures forall k :: 0 <= k < |r| ==> r[k] == if k == i - 1 then es[|es| - 1] else es[k]
  {
    es[..|es| - 1][i - 1 := es[|es| - 1]]
  }

  lemma LastMoved<K(!new)>(cmp: (K, K) -> int, s: seq<K>, i: nat)
    requires Preorder(cmp) && Ordered(cmp, s) && 1 <= i < |s|
    ensures HoleAt(cmp, Refilled(s, i), i)
  {
    hide Preorder;
    var r := Refilled(s, i);
    forall k | 2 <= k <= |r|
      ensures k != i && k / 2 != i ==> Under(cmp, r, k)
      ensures k / 2 == i >= 2 ==> cmp(r[i / 2 - 1], r[k - 1]) >= 0
    {
      assert Under(cmp, s, k);
      if k / 2 == i >= 2 {
        assert Under(cmp, s, i);
        Above(cmp, s[i / 2 - 1], s[i - 1], s[k - 1]);
      }
    }
  }

  // The last slot goes.
  lemma WithoutLast<K>(cmp: (K, K) -> int, s: seq<K>)
    requires Ordered(cmp, s) && s != []
    ensures Ordered(cmp, s[..|s| - 1]) && HoleAt(cmp, s, |s|) && (|s| >= 2 ==> Under(cmp, s, |s|))
  {
    var r := s[..|s| - 1];
    forall k | 2 <= k <= |r|
      ensures Under(cmp, r, k)
    {
      assert Under(cmp, s, k);
    }
  }

  lemma RefilledKeys<K>(es: seq<Elem?<K>>, i: nat)
    requires 1 <= i < |es| && Present(es)
    ensures Present(Refilled(es, i)) && Keys(Refilled(es, i)) == Refilled(Keys(es), i)
  {
  }

  lemma BagWithout<K>(es: seq<Elem?<K>>, i: nat)
    requires 1 <= i <= |es|
    ensures i < |es| ==> Bag(Refilled(es, i)) == Bag(es) - multiset{es[i - 1]}
    ensures i == |es| ==> Bag(es[..|es| - 1]) == Bag(es) - multiset{es[i - 1]}
  {
    var last := |es| - 1;
    assert es == es[..last] + [es[last]];
  }

  lemma KeysSwapped<K>(es: seq<Elem?<K>>, i: nat, j: nat)
    requires Present(es) && 1 <= i <= |es| && 1 <= j <= |es|
    ensures Present(Swapped(es, i, j)) && Keys(Swapped(es, i, j)) == Swapped(Keys(es), i, j)
    ensures Bag(Swapped(es, i, j)) == Bag(es)
  {
  }
}
