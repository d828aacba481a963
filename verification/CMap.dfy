// The map over the tree: a multimap from keys to values, with a list of nodes to use again.
module CMap {
  import opened RbShape
  import opened RbHeap
  import opened RbInsert
  import opened RbTrees

  const INVALID_VALUE := -1

  function KeyLess(a: Key, b: Key): bool { a < b }

  lemma KeysAreOrdered(keys: set<Key>)
    ensures WeakOrder(KeyLess, keys)
  {
  }

  datatype Pair = Pair(key: Key, value: int)

  ghost function Pairs(s: seq<Node>): (r: seq<Pair>)
    reads (set n | n in s)`key, (set n | n in s)`udata
    ensures |r| == |s|
    ensures forall i :: 0 <= i < |s| ==> s[i] in s && r[i] == Pair(s[i].key, s[i].udata)
  {
    if s == [] then [] else
      assert s[0] in s && forall n :: n in s[1..] ==> n in s;
      [Pair(s[0].key, s[0].udata)] + Pairs(s[1..])
  }

  lemma PairsJoin(a: seq<Node>, b: seq<Node>)
    ensures Pairs(a + b) == Pairs(a) + Pairs(b)
  {
    hide Pairs;
    forall i | 0 <= i < |a + b|
      ensures Pairs(a + b)[i] == (Pairs(a) + Pairs(b))[i]
    {
      if i < |a| {
        assert (a + b)[i] == a[i];
      } else {
        assert (a + b)[i] == b[i - |a|];
      }
    }
  }

  // The free nodes, linked by their right fields.
  ghost predicate IsList(head: Node?, list: seq<Node>)
    reads (set n | n in list)`right
  {
    && head == (if list == [] then null else list[0])
    && (forall i :: 0 <= i < |list| ==> list[i] in list && list[i].right == Following(list, i))
  }

  ghost function Following(list: seq<Node>, i: nat): Node? {
    if i + 1 < |list| then list[i + 1] else null
  }

  lemma Popped(head: Node?, list: seq<Node>)
    requires IsList(head, list) && head != null
    ensures list != [] && head == list[0] && IsList(head.right, list[1..])
  {
    var rest := list[1..];
    assert list[0].right == Following(list, 0);
    forall i | 0 <= i < |rest|
      ensures rest[i] in rest && rest[i].right == Following(rest, i)
    {
      assert list[i + 1].right == Following(list, i + 1);
    }
  }

  lemma BelongsHere(order: seq<Node>, node: Node, k: nat)
    requires k <= |order| && Between(KeyLess, node.key, order[..k], order[k..])
    ensures Belongs(Pairs(order), node.key, k)
  {
    var pairs := Pairs(order);
    forall i | 0 <= i < |order|
      ensures if i < k then pairs[i].key <= node.key else node.key < pairs[i].key
    {
      if i < k {
        assert order[i] == order[..k][i] && order[i] in order[..k];
      } else {
        assert order[i] == order[k..][i - k] && order[i] in order[k..];
      }
    }
  }

  lemma AddedPair(order: seq<Node>, node: Node, k: nat)
    requires k <= |order|
    ensures Pairs(order[..k] + [node] + order[k..]) ==
      Pairs(order)[..k] + [Pair(node.key, node.udata)] + Pairs(order)[k..]
  {
    hide Pairs;
    PairsJoin(order[..k] + [node], order[k..]);
    PairsJoin(order[..k], [node]);
    PairsOfOne(node);
    PairsCut(order, k);
  }

  lemma PairsOfOne(node: Node)
    ensures Pairs([node]) == [Pair(node.key, node.udata)]
  {
  }

  lemma PairsCut(s: seq<Node>, k: nat)
    requires k <= |s|
    ensures Pairs(s)[..k] == Pairs(s[..k]) && Pairs(s)[k..] == Pairs(s[k..])
  {
    hide Pairs;
    assert s[..k] + s[k..] == s;
    PairsJoin(s[..k], s[k..]);
    SplitAt(Pairs(s[..k]), Pairs(s[k..]));
  }

  lemma SplitAt(a: seq<Pair>, b: seq<Pair>)
    ensures (a + b)[..|a|] == a && (a + b)[|a|..] == b
  {
  }

  lemma Pushed(head: Node?, list: seq<Node>, node: Node)
    requires IsList(head, list) && node.right == head
    ensures IsList(node, [node] + list)
  {
  }

  ghost predicate NoTwice(s: seq<Node>) { forall i, j :: 0 <= i < j < |s| ==> s[i] != s[j] }

  // Where a pair with this key belongs.
  ghost predicate Belongs(pairs: seq<Pair>, key: Key, k: nat) {
    && k <= |pairs|
    && (forall i :: 0 <= i < k ==> pairs[i].key <= key)
    && (forall i :: k <= i < |pairs| ==> key < pairs[i].key)
  }

  class Map {
    const tree: RbTree
    var idles: Node?
    var size: int
    ghost var free: seq<Node>

    ghost predicate Valid()
      reads this, tree, tree.nodes, tree.sentinel, free
    {
      && tree.Valid() && tree.less == KeyLess && size == |tree.Order()|
      && IsList(idles, free) && NoTwice(free)
      && forall n :: n in free ==> n !in tree.nodes && n != tree.sentinel
    }

    // The pairs of the map in order of keys; pairs with equal keys in the order they were added.
    ghost function Contents(): seq<Pair>
      reads this, tree, set n | n in tree.Order()
    {
      Pairs(tree.Order())
    }

    // cmap_create
    constructor (reserve: nat)
      ensures Valid() && Contents() == [] && |free| == reserve && fresh(tree) && fresh(free) && fresh(tree.sentinel)
    {
      hide Scene, RedBlack, Sorted, All, InOrder, IsList, NoTwice;
      var t := new RbTree(KeyLess);
      tree := t;
      size := 0;
      var head: Node? := null;
      ghost var list: seq<Node> := [];
      NoneFree();
      for i := 0 to reserve
        invariant fresh(t) && fresh(t.sentinel) && t.Valid() && t.nodes == {} && t.Order() == [] && t.less == KeyLess
        invariant |list| == i && IsList(head, list) && NoTwice(list) && fresh(list) && t.sentinel !in list
      {
        var n := new Node();
        n.right := head;
        Pushed(head, list, n);
        OnceMore(n, list);
        head, list := n, [n] + list;
      }
      idles := head;
      free := list;
      new;
      assert t == tree;
    }

    // cmap_add_ex
    method AddNode(key: Key, node: Node) returns (ghost k: nat)
      requires Valid() && node !in tree.nodes && node != tree.sentinel && node !in free
      modifies this`size, tree`root, tree`shape, tree`reds, tree`nodes
      modifies tree.nodes`left, tree.nodes`right, tree.nodes`parent, tree.nodes`color
      modifies node`left, node`right, node`parent, node`color, node`key
      ensures Valid() && tree.nodes == old(tree.nodes) + {node}
      ensures Belongs(old(Contents()), key, k)
      ensures Contents() == old(Contents())[..k] + [Pair(key, node.udata)] + old(Contents())[k..]
    {
      hide Scene, RedBlack, Sorted, All, InOrder, Between, KeysOf, Pairs, Belongs, WeakOrder, IsList, NoTwice;
      ghost var order := tree.Order();
      size := size + 1;
      node.key := key;
      KeysAreOrdered(KeysOf(tree.nodes) + {key});
      k := tree.Insert(node);
      BelongsHere(order, node, k);
      AddedPair(order, node, k);
    }

    // cmap_add: a free node is used again, or a new one made.
    method Add(key: Key, value: int) returns (ghost k: nat)
      requires Valid()
      modifies this, tree, tree.nodes, free
      ensures Valid() && Belongs(old(Contents()), key, k)
      ensures Contents() == old(Contents())[..k] + [Pair(key, value)] + old(Contents())[k..]
      ensures free == if old(free) == [] then [] else old(free)[1..]
    {
      hide Scene, RedBlack, Sorted, All, InOrder, Pairs, Belongs, IsList, NoTwice;
      var node := TakeNode();
      node.udata := value;
      k := AddNode(key, node);
    }

    // A node from the free list, or a new one.
    method TakeNode() returns (node: Node)
      requires Valid()
      modifies this`idles, this`free, free
      ensures Valid() && node !in tree.nodes && node != tree.sentinel && node !in free
      ensures Contents() == old(Contents()) && free == if old(free) == [] then [] else old(free)[1..]
      ensures if old(free) == [] then fresh(node) else node == old(free)[0]
    {
      hide Scene, RedBlack, Sorted, All, InOrder, Pairs, IsList;
      NodesInView(tree.shape, [], tree.reds, tree.sentinel, tree.root, tree.nodes);
      if idles != null {
        Popped(idles, free);
        node := idles;
        idles := idles.right;
        HeadOnce(free);
        free := free[1..];
        node.left := null;
        node.right := null;
        node.parent := null;
      } else {
        EmptyList(idles, free);
        node := new Node();
      }
    }

    // cmap_find_ex
    method FindNode(key: Key) returns (node: Node?)
      requires Valid()
      ensures node != null ==> node in tree.nodes && node in tree.Order() && node.key == key
      ensures node == null <==> Absent(Contents(), key)
    {
      hide Scene, RedBlack, Sorted, All, InOrder, Pairs, IsList, Absent;
      NodesInView(tree.shape, [], tree.reds, tree.sentinel, tree.root, tree.nodes);
      node := tree.Find(key);
      AbsentKey(tree.Order(), key);
    }

    // cmap_find: the value of a pair with the key.
    method Find(key: Key) returns (value: int)
      requires Valid()
      ensures if Absent(Contents(), key) then value == INVALID_VALUE else Pair(key, value) in Contents()
    {
      var node := FindNode(key);
      if node != null {
        PairOf(tree.Order(), node);
        return node.udata;
      }
      value := INVALID_VALUE;
    }

    method Count(key: Key) returns (found: bool)
      requires Valid()
      ensures found <==> !Absent(Contents(), key)
    {
      var node := FindNode(key);
      found := node != null;
    }

    // cmap_del: one pair with the key goes, and its node is free.
    method Del(key: Key) returns (value: int, ghost k: nat)
      requires Valid()
      modifies this, tree, tree.nodes, tree.sentinel
      ensures Valid()
      ensures old(Absent(Contents(), key)) ==>
        value == INVALID_VALUE && Contents() == old(Contents()) && free == old(free)
      ensures !old(Absent(Contents(), key)) ==>
        && k < |old(Contents())| && old(Contents())[k] == Pair(key, value)
        && Contents() == old(Contents())[..k] + old(Contents())[k + 1..]
        && |free| == |old(free)| + 1
    {
      hide Scene, RedBlack, Sorted, All, InOrder, Pairs, IsList, Absent;
      value, k := INVALID_VALUE, 0;
      var node := FindNode(key);
      if node != null {
        ghost var order := tree.Order();
        NodesInView(tree.shape, [], tree.reds, tree.sentinel, tree.root, tree.nodes);
        ghost var pairs := Pairs(order);
        value := node.udata;
        k := DelNode(node);
        Shelve(node);
      }
    }

    // Puts a node in front of the free list.
    method Shelve(node: Node)
      requires Valid() && node !in tree.nodes && node != tree.sentinel && node !in free
      modifies this`idles, this`free, node`right
      ensures Valid() && Contents() == old(Contents()) && free == [node] + old(free)
    {
      hide Scene, RedBlack, Sorted, All, InOrder, Pairs, IsList;
      NodesInView(tree.shape, [], tree.reds, tree.sentinel, tree.root, tree.nodes);
      node.right := idles;
      Pushed(idles, free, node);
      idles, free := node, [node] + free;
    }

    // cmap_del_ex
    method DelNode(node: Node) returns (ghost k: nat)
      requires Valid() && node in tree.nodes
      modifies this`size, tree`root, tree`shape, tree`reds, tree`nodes
      modifies tree.nodes`left, tree.nodes`right, tree.nodes`parent, tree.nodes`color
      modifies tree.sentinel`parent, tree.sentinel`color, node`key
      ensures Valid() && tree.nodes == old(tree.nodes) - {node}
      ensures k < |old(Contents())| && old(Contents())[k] == old(Pair(node.key, node.udata))
      ensures Contents() == old(Contents())[..k] + old(Contents())[k + 1..]
    {
      hide Scene, RedBlack, Sorted, All, InOrder, Pairs, IsList;
      NodesInView(tree.shape, [], tree.reds, tree.sentinel, tree.root, tree.nodes);
      ghost var order := tree.Order();
      forall i | 0 <= i < |order|
        ensures Pairs(order[..i] + order[i + 1..]) == Pairs(order)[..i] + Pairs(order)[i + 1..]
      {
        PairsWithout(order, i);
      }
      k := tree.Delete(node);
      size := size - 1;
    }

    // cmap_clear: the nodes are not put on the free list.
    method Clear()
      requires Valid()
      modifies this`size, tree, tree.nodes, tree.sentinel
      ensures Valid() && Contents() == [] && size == 0 && free == old(free)
    {
      hide Scene, RedBlack, Sorted, All, InOrder, Pairs, IsList;
      ghost var nodes := tree.nodes;
      while tree.root != tree.sentinel
        invariant tree.Valid() && tree.less == KeyLess && tree.nodes <= nodes
        invariant IsList(idles, free) && forall n :: n in free ==> n !in nodes
        decreases tree.nodes
      {
        Rooted(tree.shape, tree.reds, tree.sentinel, tree.root, tree.nodes);
        ghost var k := tree.Delete(tree.root);
      }
      Rooted(tree.shape, tree.reds, tree.sentinel, tree.root, tree.nodes);
      size := 0;
    }
  }

  ghost predicate Absent(pairs: seq<Pair>, key: Key) { forall p :: p in pairs ==> p.key != key }

  lemma AbsentKey(s: seq<Node>, key: Key)
    ensures Absent(Pairs(s), key) <==> forall n :: n in s ==> n.key != key
  {
    forall n | n in s
      ensures Pair(n.key, n.udata) in Pairs(s)
    {
      PairOf(s, n);
    }
  }

  lemma PairOf(s: seq<Node>, n: Node)
    requires n in s
    ensures Pair(n.key, n.udata) in Pairs(s)
  {
    var i :| 0 <= i < |s| && s[i] == n;
    assert Pairs(s)[i] == Pair(n.key, n.udata);
  }

  lemma PairsWithout(s: seq<Node>, k: nat)
    requires k < |s|
    ensures Pairs(s[..k] + s[k + 1..]) == Pairs(s)[..k] + Pairs(s)[k + 1..]
  {
    hide Pairs;
    PairsJoin(s[..k], s[k + 1..]);
    PairsCut(s, k);
    PairsCut(s, k + 1);
  }

  lemma HeadOnce(s: seq<Node>)
    requires NoTwice(s) && s != []
    ensures s[0] !in s[1..] && NoTwice(s[1..]) && s[0] in s && forall n :: n in s[1..] ==> n in s
  {
  }

  lemma NoneFree()
    ensures IsList(null, []) && NoTwice([])
  {
  }

  lemma OnceMore(node: Node, s: seq<Node>)
    requires NoTwice(s) && node !in s
    ensures NoTwice([node] + s)
  {
  }

  lemma EmptyList(head: Node?, list: seq<Node>)
    requires IsList(head, list)
    ensures head == null <==> list == []
  {
  }
}
