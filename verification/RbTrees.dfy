// The tree as its users see it: a sequence of nodes sorted by key, in a red-black tree of low height.
module RbTrees {
  import opened Arithmetic
  import opened RbShape
  import opened RbHeap
  import opened RbInsert
  import opened RbShort
  import opened RbDelete
  import Words

  // ------------------------------------------------------------------ height

  function Height<T>(t: Tree<T>): nat {
    match t
    case Leaf => 0
    case Branch(l, _, r) => 1 + if Height(l) >= Height(r) then Height(l) else Height(r)
  }

  // Black nodes alone make the tree this big.
  lemma {:induction false} BigEnough<T>(t: Tree<T>, reds: set<T>)
    requires Balanced(t, reds)
    ensures BlackHeight(t, reds) >= 1 && |InOrder(t)| + 1 >= Words.Pow2(BlackHeight(t, reds) - 1)
  {
    match t
    case Leaf =>
    case Branch(l, n, r) =>
      BigEnough(l, reds);
      BigEnough(r, reds);
  }

  // At most every other node is red.
  lemma {:induction false} LowEnough<T>(t: Tree<T>, reds: set<T>)
    requires Balanced(t, reds)
    ensures BlackHeight(t, reds) >= 1
    ensures Height(t) <= 2 * (BlackHeight(t, reds) - 1) + if IsBlack(t, reds) then 0 else 1
  {
    match t
    case Leaf =>
    case Branch(l, n, r) =>
      LowEnough(l, reds);
      LowEnough(r, reds);
  }

  lemma {:induction false} PowMonotone(a: nat, b: nat)
    requires a <= b
    ensures Words.Pow2(a) <= Words.Pow2(b)
    decreases b
  {
    if a < b {
      PowMonotone(a, b - 1);
    }
  }

  // The height is at most 2 * log2(n + 1).
  lemma HeightBound<T>(t: Tree<T>, reds: set<T>)
    requires RedBlack(t, reds)
    ensures var n := |InOrder(t)|; Words.Pow2(Height(t)) <= (n + 1) * (n + 1)
  {
    BigEnough(t, reds);
    LowEnough(t, reds);
    hide Balanced, BlackHeight, InOrder, Height, Words.Pow2;
    var b, n := BlackHeight(t, reds) - 1, |InOrder(t)|;
    PowMonotone(Height(t), b + b);
    Words.Pow2Sum(b, b);
    SquareMonotone(Words.Pow2(b), n + 1);
  }

  lemma SquareMonotone(a: nat, b: nat)
    requires a <= b
    ensures a * a <= b * b
  {
    MulMonotone(a, a, b);
    MulMonotone(b, a, b);
  }

  // ------------------------------------------------------------------ the tree

  lemma EmptyTree(nil: Node)
    requires !nil.color
    ensures Scene(Leaf, [], {}, nil, nil, nil, {}) && RedBlack<Node>(Leaf, {})
    ensures All<Node>(Leaf, []) == {} && InOrder<Node>(Leaf) == []
  {
    AllOfWhole<Node>(Leaf);
    Alone(Leaf, nil, nil);
  }

  lemma NodesInView(shape: Tree<Node>, path: seq<Step<Node>>, reds: set<Node>, nil: Node, root: Node, nodes: set<Node>)
    requires path == [] && Scene(shape, path, reds, nil, root, root, nodes)
    ensures All(shape, []) == nodes && Proper(shape) && nil !in nodes
    ensures forall n :: n in InOrder(shape) <==> n in nodes
  {
    AllOfWhole(shape);
    NodesAreListed(shape);
  }

  lemma SortedWithout(less: (Key, Key) -> bool, s: seq<Node>, k: nat)
    requires Sorted(less, s) && k < |s|
    ensures Sorted(less, s[..k] + s[k + 1..])
  {
  }

  // The nodes come in order without repetition.
  lemma {:induction false} Distinct(t: Tree<Node>)
    requires Proper(t)
    ensures forall i, j :: 0 <= i < j < |InOrder(t)| ==> InOrder(t)[i] != InOrder(t)[j]
  {
    match t
    case Leaf =>
    case Branch(l, n, r) =>
      Distinct(l);
      Distinct(r);
      Listed(l, n);
      Listed(r, n);
      forall m | m in InOrder(l)
        ensures m !in InOrder(r)
      {
        Listed(l, m);
        Listed(r, m);
      }
      DistinctParts(InOrder(l), n, InOrder(r));
  }

  lemma DistinctParts(l: seq<Node>, n: Node, r: seq<Node>)
    requires forall i, j :: 0 <= i < j < |l| ==> l[i] != l[j]
    requires forall i, j :: 0 <= i < j < |r| ==> r[i] != r[j]
    requires n !in l && n !in r && forall m :: m in l ==> m !in r
    ensures var s := l + [n] + r; forall i, j :: 0 <= i < j < |s| ==> s[i] != s[j]
  {
    var s := l + [n] + r;
    forall i, j | 0 <= i < j < |s|
      ensures s[i] != s[j]
    {
      if i < |l| {
        assert s[i] in l;
        assert j < |l| || s[j] == n || s[j] in r;
      } else {
        assert j > |l| && s[j] == r[j - |l| - 1];
        assert i == |l| || s[i] == r[i - |l| - 1];
      }
    }
  }

  // rbtree_t, with the comparison that its insert function uses.
  class RbTree {
    var root: Node
    const sentinel: Node
    const less: (Key, Key) -> bool
    ghost var shape: Tree<Node>
    ghost var reds: set<Node>
    ghost var nodes: set<Node>

    // A red-black tree of the nodes, sorted.
    ghost predicate Valid()
      reads this, nodes, sentinel
    {
      && All(shape, []) == nodes && (forall n :: n in InOrder(shape) ==> n in nodes)
      && Scene(shape, [], reds, sentinel, root, root, nodes) && RedBlack(shape, reds)
      && Sorted(less, InOrder(shape))
    }

    ghost function Order(): seq<Node>
      reads this
    {
      InOrder(shape)
    }

    // rbtree_init
    constructor (less: (Key, Key) -> bool)
      ensures Valid() && this.less == less && nodes == {} && Order() == [] && fresh(sentinel)
    {
      var s := new Node();
      sentinel := s;
      root := s;
      this.less := less;
      shape, reds, nodes := Leaf, {}, {};
      new;
      hide RedBlack;
      EmptyTree(sentinel);
    }

    method Insert(node: Node) returns (ghost k: nat)
      requires Valid() && node !in nodes && node != sentinel && WeakOrder(less, KeysOf(nodes) + {node.key})
      modifies this`root, this`shape, this`reds, this`nodes
      modifies nodes`left, nodes`right, nodes`parent, nodes`color, node`left, node`right, node`parent, node`color
      ensures Valid() && nodes == old(nodes) + {node}
      ensures k <= |old(Order())| && Order() == old(Order())[..k] + [node] + old(Order())[k..]
      ensures Between(less, node.key, old(Order())[..k], old(Order())[k..])
    {
      hide Scene, RedBlack, Sorted, Between, InOrder, WeakOrder, KeysOf;
      NodesInView(shape, [], reds, sentinel, root, nodes);
      var newRoot;
      ghost var whole, tint;
      newRoot, whole, tint, k := RbInsert.Insert(root, node, sentinel, less, shape, reds, nodes);
      NodesInView(whole, [], tint, sentinel, newRoot, nodes + {node});
      root, shape, reds, nodes := newRoot, whole, tint, nodes + {node};
    }

    method Delete(node: Node) returns (ghost k: nat)
      requires Valid() && node in nodes
      modifies this`root, this`shape, this`reds, this`nodes
      modifies nodes`left, nodes`right, nodes`parent, nodes`color, sentinel`parent, sentinel`color, node`key
      ensures Valid() && nodes == old(nodes) - {node}
      ensures k < |old(Order())| && old(Order())[k] == node
      ensures Order() == old(Order())[..k] + old(Order())[k + 1..]
      ensures node.left == node.right == node.parent == null && node.key == 0
    {
      ghost var order := Order();
      hide Scene, RedBlack, Sorted, InOrder;
      NodesInView(shape, [], reds, sentinel, root, nodes);
      forall i | 0 <= i < |order|
        ensures Sorted(less, order[..i] + order[i + 1..])
      {
        SortedWithout(less, order, i);
      }
      var newRoot;
      ghost var whole, tint;
      newRoot, whole, tint, k := RbDelete.Delete(root, node, sentinel, shape, reds, nodes);
      NodesInView(whole, [], tint, sentinel, newRoot, nodes - {node});
      assert Sorted(less, order[..k] + order[k + 1..]);
      root, shape, reds, nodes := newRoot, whole, tint, nodes - {node};
    }

    // The first node in order: ztl_evtimer_min.
    method First() returns (node: Node?)
      requires Valid()
      ensures node == null <==> Order() == []
      ensures node != null ==> node in nodes && Order()[0] == node
      ensures node == null <==> root == sentinel
    {
      hide RedBlack, Sorted, InOrder, Scene;
      NodesInView(shape, [], reds, sentinel, root, nodes);
      Rooted(shape, reds, sentinel, root, nodes);
      if root == sentinel {
        return null;
      }
      ghost var sub, lefts;
      node, sub, lefts := Min(root, sentinel, shape);
      assert Order()[0] == node;
    }

    // _rbtree_find: some node with the key, if there is one.
    method Find(key: Key) returns (node: Node?)
      requires Valid() && forall a, b :: less(a, b) <==> a < b
      ensures node != null ==> node in nodes && node.key == key
      ensures node == null ==> forall n :: n in nodes ==> n.key != key
    {
      hide RedBlack, Sorted, InOrder, Scene, Focus, All;
      NodesInView(shape, [], reds, sentinel, root, nodes);
      Rooted(shape, reds, sentinel, root, nodes);
      node := root;
      ghost var t, path := shape, [];
      assert forall n :: n in nodes && n.key == key ==> n in InOrder(t);
      while node != null && node != sentinel
        invariant node != null && Focus(t, path, sentinel, root, node) && All(t, path) == nodes
        invariant node == sentinel <==> t.Leaf?
        invariant t.Branch? ==> t.node == node && node in nodes
        invariant Sorted(less, InOrder(t))
        invariant forall n :: n in nodes && n.key == key ==> n in InOrder(t)
        decreases t
      {
        if node.key == key {
          return node;
        }
        FindStep(less, t, path, key, sentinel, root, node, nodes);
        if node.key < key {
          node := node.right;
          t, path := t.right, [Step(false, t.node, t.left)] + path;
        } else {
          node := node.left;
          t, path := t.left, [Step(true, t.node, t.right)] + path;
        }
      }
      Nothing(t);
      node := null;
    }
  }

  lemma Rooted(shape: Tree<Node>, reds: set<Node>, nil: Node, root: Node, nodes: set<Node>)
    requires Scene(shape, [], reds, nil, root, root, nodes)
    ensures Focus(shape, [], nil, root, root) && (root == nil <==> shape.Leaf?)
      && (root == nil <==> InOrder(shape) == [])
    ensures shape.Branch? ==> shape.node == root && root in nodes
  {
    HoldsTop(shape, nil, root);
    if shape.Branch? {
      TopInside(shape);
      NotNil(shape, [], nil, root, root);
    }
  }

  lemma Nothing(t: Tree<Node>)
    ensures t.Leaf? ==> InOrder(t) == []
  {
  }

  // A node whose key is not the one looked for: one side is left to search.
  lemma FindStep(less: (Key, Key) -> bool, t: Tree<Node>, path: seq<Step<Node>>, key: Key, nil: Node, root: Node,
                 n: Node, nodes: set<Node>)
    requires Focus(t, path, nil, root, n) && t.Branch? && t.node == n && All(t, path) == nodes
    requires Sorted(less, InOrder(t)) && (forall a, b :: less(a, b) <==> a < b) && n.key != key
    ensures var isLeft := !(n.key < key);
      var side, far := if isLeft then t.left else t.right, if isLeft then t.right else t.left;
      var p := if isLeft then n.left else n.right;
      && p != null && Focus(side, [Step(isLeft, n, far)] + path, nil, root, p)
      && All(side, [Step(isLeft, n, far)] + path) == nodes
      && (p == nil <==> side.Leaf?) && (side.Branch? ==> side.node == p && p in nodes)
      && Sorted(less, InOrder(side))
      && forall m :: m in InOrder(t) && m.key == key ==> m in InOrder(side)
  {
    var isLeft := !(n.key < key);
    var side, far := if isLeft then t.left else t.right, if isLeft then t.right else t.left;
    KeysAside(less, t.left, n, t.right, key);
    hide Focus, All, Sorted;
    FocusDown(isLeft, side, n, far, path, nil, root);
    OverOrder(side, Step(isLeft, n, far), path);
    LinkDown(t, path, nil, root, n);
    NotNil(side, [Step(isLeft, n, far)] + path, nil, root, if isLeft then n.left else n.right);
    NilOutside(side, [Step(isLeft, n, far)] + path, nil, root, if isLeft then n.left else n.right);
  }

  lemma NilOutside(t: Tree<Node>, path: seq<Step<Node>>, nil: Node, root: Node, p: Node?)
    requires Focus(t, path, nil, root, p)
    ensures nil !in All(t, path)
  {
  }

  lemma KeysAside(less: (Key, Key) -> bool, l: Tree<Node>, n: Node, r: Tree<Node>, key: Key)
    requires Sorted(less, InOrder(Branch(l, n, r))) && (forall a, b :: less(a, b) <==> a < b) && n.key != key
    ensures Sorted(less, InOrder(l)) && Sorted(less, InOrder(r))
    ensures forall m :: m in InOrder(Branch(l, n, r)) && m.key == key ==>
      m in (if n.key < key then InOrder(r) else InOrder(l))
  {
    var a, b := InOrder(l), InOrder(r);
    assert InOrder(Branch(l, n, r)) == a + [n] + b;
    assert a + [n] + b == [] + (a + [n] + b) + [];
    SortedParts(less, [], a, n, b, []);
    SortedHalves(less, a, n, b);
  }

  lemma SortedHalves(less: (Key, Key) -> bool, a: seq<Node>, n: Node, b: seq<Node>)
    requires Sorted(less, a + [n] + b)
    ensures Sorted(less, a) && Sorted(less, b)
  {
    var s := a + [n] + b;
    assert forall i :: 0 <= i < |a| ==> a[i] == s[i];
    assert forall i :: 0 <= i < |b| ==> b[i] == s[|a| + 1 + i];
  }
}
