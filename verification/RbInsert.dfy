// Insertion: a search for the place, a red leaf, and the way up that mends the colours.
module RbInsert {
  import opened RbShape
  import opened RbHeap

  // ------------------------------------------------------------------ order of keys

  // The comparison is a strict weak order among these keys.
  ghost predicate WeakOrder(less: (Key, Key) -> bool, keys: set<Key>) {
    && (forall a, b :: a in keys && b in keys && less(a, b) ==> !less(b, a))
    && (forall a, b, c :: a in keys && b in keys && c in keys && less(a, c) ==> less(a, b) || less(b, c))
  }

  ghost function KeysOf(nodes: set<Node>): set<Key>
    reads nodes`key
  {
    set n | n in nodes :: n.key
  }

  ghost predicate Sorted(less: (Key, Key) -> bool, s: seq<Node>)
    reads (set n | n in s)`key
  {
    forall i, j :: 0 <= i < j < |s| ==> !less(s[j].key, s[i].key)
  }

  // A new key belongs behind all keys of `before` and ahead of all keys of `after`: equal keys come first.
  ghost predicate Between(less: (Key, Key) -> bool, key: Key, before: seq<Node>, after: seq<Node>)
    reads (set n | n in before)`key, (set n | n in after)`key
  {
    && (forall n :: n in before ==> !less(key, n.key))
    && (forall n :: n in after ==> less(key, n.key))
  }

  lemma SortedParts(less: (Key, Key) -> bool, b: seq<Node>, l: seq<Node>, n: Node, r: seq<Node>, a: seq<Node>)
    requires Sorted(less, b + (l + [n] + r) + a)
    ensures forall m :: m in r ==> !less(m.key, n.key)
    ensures forall m :: m in l ==> !less(n.key, m.key)
  {
    var s := b + (l + [n] + r) + a;
    var k := |b| + |l|;
    assert s[k] == n;
    forall m | m in r
      ensures !less(m.key, n.key)
    {
      var j :| 0 <= j < |r| && r[j] == m;
      assert s[k + 1 + j] == m;
    }
    forall m | m in l
      ensures !less(n.key, m.key)
    {
      var j :| 0 <= j < |l| && l[j] == m;
      assert s[|b| + j] == m;
    }
  }

  lemma BetweenLeft(less: (Key, Key) -> bool, key: Key, b: seq<Node>, n: Node, r: seq<Node>, a: seq<Node>,
                    keys: set<Key>)
    requires Between(less, key, b, a) && less(key, n.key) && forall m :: m in r ==> !less(m.key, n.key)
    requires WeakOrder(less, keys) && key in keys && n.key in keys && forall m :: m in r ==> m.key in keys
    ensures Between(less, key, b, [n] + r + a)
  {
  }

  lemma BetweenRight(less: (Key, Key) -> bool, key: Key, b: seq<Node>, l: seq<Node>, n: Node, a: seq<Node>,
                     keys: set<Key>)
    requires Between(less, key, b, a) && !less(key, n.key) && forall m :: m in l ==> !less(n.key, m.key)
    requires WeakOrder(less, keys) && key in keys && n.key in keys && forall m :: m in l ==> m.key in keys
    ensures Between(less, key, b + (l + [n]), a)
  {
  }

  lemma KeysListed(l: Tree<Node>, n: Node, r: Tree<Node>, path: seq<Step<Node>>, nodes: set<Node>)
    requires All(Branch(l, n, r), path) <= nodes
    ensures n.key in KeysOf(nodes)
    ensures forall m :: m in InOrder(l) ==> m.key in KeysOf(nodes)
    ensures forall m :: m in InOrder(r) ==> m.key in KeysOf(nodes)
  {
    hide *;
    NodesBelow(l, n, r, path);
    NodeKey(n, nodes);
    forall m | m in InOrder(l)
      ensures m.key in KeysOf(nodes)
    {
      Listed(l, m);
      NodeKey(m, nodes);
    }
    forall m | m in InOrder(r)
      ensures m.key in KeysOf(nodes)
    {
      Listed(r, m);
      NodeKey(m, nodes);
    }
  }

  lemma NodesBelow(l: Tree<Node>, n: Node, r: Tree<Node>, path: seq<Step<Node>>)
    ensures Nodes(l) <= All(Branch(l, n, r), path) && Nodes(r) <= All(Branch(l, n, r), path)
    ensures n in All(Branch(l, n, r), path)
  {
  }

  lemma NodeKey(n: Node, nodes: set<Node>)
    requires n in nodes
    ensures n.key in KeysOf(nodes)
  {
  }

  lemma AroundBranch(l: Tree<Node>, n: Node, r: Tree<Node>, path: seq<Step<Node>>)
    ensures Order(Branch(l, n, r), path) == Before(path) + (InOrder(l) + [n] + InOrder(r)) + After(path)
    ensures Before([Step(true, n, r)] + path) == Before(path)
    ensures After([Step(true, n, r)] + path) == [n] + InOrder(r) + After(path)
    ensures Before([Step(false, n, l)] + path) == Before(path) + (InOrder(l) + [n])
    ensures After([Step(false, n, l)] + path) == After(path)
  {
    assert ([Step(true, n, r)] + path)[1..] == path && ([Step(false, n, l)] + path)[1..] == path;
  }

  // Going left or right of n keeps the new key between what lies before and what lies after.
  lemma BetweenStep(less: (Key, Key) -> bool, key: Key, l: Tree<Node>, n: Node, r: Tree<Node>, path: seq<Step<Node>>,
                    nodes: set<Node>)
    requires Sorted(less, Order(Branch(l, n, r), path)) && Between(less, key, Before(path), After(path))
    requires All(Branch(l, n, r), path) <= nodes && WeakOrder(less, KeysOf(nodes) + {key})
    ensures less(key, n.key) ==>
      Between(less, key, Before([Step(true, n, r)] + path), After([Step(true, n, r)] + path))
    ensures !less(key, n.key) ==>
      Between(less, key, Before([Step(false, n, l)] + path), After([Step(false, n, l)] + path))
  {
    hide *;
    AroundBranch(l, n, r, path);
    SortedParts(less, Before(path), InOrder(l), n, InOrder(r), After(path));
    KeysListed(l, n, r, path, nodes);
    var keys := KeysOf(nodes) + {key};
    if less(key, n.key) {
      BetweenLeft(less, key, Before(path), n, InOrder(r), After(path), keys);
    } else {
      BetweenRight(less, key, Before(path), InOrder(l), n, After(path), keys);
    }
  }

  // ------------------------------------------------------------------ colours

  // The colours in memory.
  ghost predicate Painted(nodes: set<Node>, reds: set<Node>, nil: Node)
    reads nodes`color, nil`color
  {
    !nil.color && nil !in nodes && reds <= nodes && forall n :: n in nodes ==> (n.color <==> n in reds)
  }

  // A tree of `nodes`, all of it in view from p.
  ghost predicate Scene(t: Tree<Node>, path: seq<Step<Node>>, reds: set<Node>, nil: Node, root: Node, p: Node?,
                        nodes: set<Node>)
    reads All(t, path), nodes`color, nil`color
  {
    Focus(t, path, nil, root, p) && All(t, path) == nodes && Painted(nodes, reds, nil)
  }

  // What a red node with a red parent can see.
  lemma RiseReady(t: Tree<Node>, s: Step<Node>, g: Step<Node>, rest: seq<Step<Node>>, reds: set<Node>, nil: Node,
                  root: Node, node: Node, nodes: set<Node>)
    requires Scene(t, [s, g] + rest, reds, nil, root, node, nodes)
    requires Rising(t, [s, g] + rest, reds) && s.node in reds
    ensures node.parent == s.node && s.node.parent == g.node && node != root && node in nodes
    ensures t.Branch? && node == t.node && (s.isLeft <==> node == s.node.left) && (!s.isLeft <==> node == s.node.right)
    ensures g.isLeft <==> s.node == g.node.left
    ensures (if g.isLeft then g.node.right else g.node.left) == TopOf(g.other, nil)
    ensures TopOf(g.other, nil).color <==> !IsBlack(g.other, reds)
    ensures s.node in nodes && g.node in nodes && (g.other.Branch? ==> g.other.node in nodes)
    ensures g.other.Branch? ==> TopOf(g.other, nil) == g.other.node
    ensures Focus(Over(s, t), [g] + rest, nil, root, s.node)
    ensures Focus(Over(g, Over(s, t)), rest, nil, root, g.node)
    ensures All(Over(s, t), [g] + rest) == nodes && All(Over(g, Over(s, t)), rest) == nodes
    ensures g.node !in reds && Apart(t, [s, g] + rest)
  {
    var path := [s, g] + rest;
    View(t, path, nil, root, node);
    assert path[1..] == [g] + rest && ([g] + rest)[1..] == rest;
    FocusUp(t, path, nil, root, node);
    ApartUp(t, path);
    View(Over(s, t), [g] + rest, nil, root, s.node);
    FocusUp(Over(s, t), [g] + rest, nil, root, s.node);
    ApartUp(Over(s, t), [g] + rest);
    Children(Over(g, Over(s, t)), nil);
    RisingStuck(t, path, reds);
    InSight(t, s, g, rest, nodes);
  }

  lemma InSight(t: Tree<Node>, s: Step<Node>, g: Step<Node>, rest: seq<Step<Node>>, nodes: set<Node>)
    requires All(Over(g, Over(s, t)), rest) == nodes
    ensures s.node in nodes && g.node in nodes && (g.other.Branch? ==> g.other.node in nodes)
  {
    assert s.node in Nodes(Over(s, t));
    assert Nodes(Over(g, Over(s, t))) == Nodes(Over(s, t)) + {g.node} + Nodes(g.other);
  }

  // ------------------------------------------------------------------ the way up

  lemma LinkDown(t: Tree<Node>, path: seq<Step<Node>>, nil: Node, root: Node, p: Node?)
    requires Focus(t, path, nil, root, p) && t.Branch?
    ensures t.node.left == TopOf(t.left, nil) && t.node.right == TopOf(t.right, nil)
  {
    Children(t, nil);
  }

  lemma RiseTurned(t: Tree<Node>, s: Step<Node>, g: Step<Node>, rest: seq<Step<Node>>, reds: set<Node>)
    requires Rising(t, [s, g] + rest, reds) && s.node in reds
    ensures Rising(InnerTurned(t, s), [InnerStep(t, s), g] + rest, reds)
    ensures Order(InnerTurned(t, s), [InnerStep(t, s), g] + rest) == Order(t, [s, g] + rest)
    ensures All(InnerTurned(t, s), [InnerStep(t, s), g] + rest) == All(t, [s, g] + rest)
    ensures InnerStep(t, s).node in reds && InnerStep(t, s).isLeft == !s.isLeft
    ensures [InnerStep(t, s), g] + rest == [InnerStep(t, s)] + ([g] + rest)
  {
    TwoSteps(s, g, rest);
    TwoSteps(InnerStep(t, s), g, rest);
    RiseInner(t, s, [g] + rest, reds);
    InnerOrder(t, s, [g] + rest);
  }

  // Parent and uncle black, grandparent red.
  method RecolourUncle(root: Node, nil: Node, at: Node, temp: Node, ghost t: Tree<Node>, ghost s: Step<Node>,
                       ghost g: Step<Node>, ghost rest: seq<Step<Node>>, ghost reds: set<Node>, ghost nodes: set<Node>)
    returns (node: Node)
    requires Scene(t, [s, g] + rest, reds, nil, root, at, nodes) && Rising(t, [s, g] + rest, reds) && s.node in reds
    requires temp == TopOf(g.other, nil) && temp.color
    modifies nodes`color
    ensures g.other.Branch?
    ensures var tint := reds - {s.node, g.other.node} + {g.node};
      && Scene(Over(g, Over(s, t)), rest, tint, nil, root, node, nodes)
      && Rising(Over(g, Over(s, t)), rest, tint)
      && Order(Over(g, Over(s, t)), rest) == Order(t, [s, g] + rest)
  {
    hide Focus, All, Order, Rising, Apart, TopOf, Over;
    RiseReady(t, s, g, rest, reds, nil, root, at, nodes);
    node := at;
    node.parent.color := false;
    temp.color := false;
    node.parent.parent.color := true;
    node := node.parent.parent;
    RisePastUncle(t, s, g, rest, reds, reds - {s.node, g.other.node} + {g.node});
    UncleOrder(t, s, g, rest);
  }

  method InnerLeft(root: Node, nil: Node, node: Node, ghost t: Tree<Node>, ghost s: Step<Node>, ghost g: Step<Node>,
                   ghost rest: seq<Step<Node>>, ghost reds: set<Node>, ghost nodes: set<Node>)
    returns (newRoot: Node)
    requires t.Branch? && Scene(t, [s, g] + rest, reds, nil, root, t.node, nodes)
    requires Rising(t, [s, g] + rest, reds) && s.node in reds
    requires !s.isLeft && node == s.node
    modifies nodes`left, nodes`right, nodes`parent
    ensures Scene(InnerTurned(t, s), [InnerStep(t, s), g] + rest, reds, nil, newRoot, node, nodes)
    ensures Rising(InnerTurned(t, s), [InnerStep(t, s), g] + rest, reds)
    ensures Order(InnerTurned(t, s), [InnerStep(t, s), g] + rest) == Order(t, [s, g] + rest)
    ensures InnerStep(t, s).node in reds && InnerStep(t, s).isLeft == !s.isLeft
  {
    hide Focus, All, Order, Rising, Apart;
    RiseReady(t, s, g, rest, reds, nil, root, t.node, nodes);
    newRoot := LeftRotate(root, nil, node, s.other, t.left, t.node, t.right, [g] + rest, nodes);
    FocusDown(true, InnerTurned(t, s), t.node, t.right, [g] + rest, nil, newRoot);
    LinkDown(Join(true, InnerTurned(t, s), t.node, t.right), [g] + rest, nil, newRoot, t.node);
    RiseTurned(t, s, g, rest, reds);
  }

  method InnerRight(root: Node, nil: Node, node: Node, ghost t: Tree<Node>, ghost s: Step<Node>, ghost g: Step<Node>,
                   ghost rest: seq<Step<Node>>, ghost reds: set<Node>, ghost nodes: set<Node>)
    returns (newRoot: Node)
    requires t.Branch? && Scene(t, [s, g] + rest, reds, nil, root, t.node, nodes)
    requires Rising(t, [s, g] + rest, reds) && s.node in reds
    requires s.isLeft && node == s.node
    modifies nodes`left, nodes`right, nodes`parent
    ensures Scene(InnerTurned(t, s), [InnerStep(t, s), g] + rest, reds, nil, newRoot, node, nodes)
    ensures Rising(InnerTurned(t, s), [InnerStep(t, s), g] + rest, reds)
    ensures Order(InnerTurned(t, s), [InnerStep(t, s), g] + rest) == Order(t, [s, g] + rest)
    ensures InnerStep(t, s).node in reds && InnerStep(t, s).isLeft == !s.isLeft
  {
    hide Focus, All, Order, Rising, Apart;
    RiseReady(t, s, g, rest, reds, nil, root, t.node, nodes);
    newRoot := RightRotate(root, nil, node, t.left, t.node, t.right, s.other, [g] + rest, nodes);
    FocusDown(false, InnerTurned(t, s), t.node, t.left, [g] + rest, nil, newRoot);
    LinkDown(Join(false, InnerTurned(t, s), t.node, t.left), [g] + rest, nil, newRoot, t.node);
    RiseTurned(t, s, g, rest, reds);
  }

  // Parent black, grandparent red, and the parent over the grandparent.
  method OuterRight(root: Node, nil: Node, node: Node, ghost t: Tree<Node>, ghost s: Step<Node>, ghost g: Step<Node>,
                   ghost rest: seq<Step<Node>>, ghost reds: set<Node>, ghost nodes: set<Node>)
    returns (newRoot: Node)
    requires Scene(t, [s, g] + rest, reds, nil, root, node, nodes) && Rising(t, [s, g] + rest, reds) && s.node in reds
    requires s.isLeft && g.isLeft && IsBlack(g.other, reds)
    modifies nodes`left, nodes`right, nodes`parent, nodes`color
    ensures Scene(t, [OuterStep(s, g)] + rest, reds - {s.node} + {g.node}, nil, newRoot, node, nodes)
    ensures Rising(t, [OuterStep(s, g)] + rest, reds - {s.node} + {g.node})
    ensures Order(t, [OuterStep(s, g)] + rest) == Order(t, [s, g] + rest)
  {
    hide Focus, All, Order, Rising, Apart, IsBlack;
    RiseReady(t, s, g, rest, reds, nil, root, node, nodes);
    node.parent.color := false;
    node.parent.parent.color := true;
    newRoot := RightRotate(root, nil, node.parent.parent, t, s.node, s.other, g.other, rest, nodes);
    FocusDown(true, t, s.node, OuterStep(s, g).other, rest, nil, newRoot);
    LinkDown(Over(OuterStep(s, g), t), rest, nil, newRoot, s.node);
    RiseOuter(t, s, g, rest, reds, reds - {s.node} + {g.node});
    OuterOrder(t, s, g, rest);
  }

  // Parent black, grandparent red, and the parent over the grandparent.
  method OuterLeft(root: Node, nil: Node, node: Node, ghost t: Tree<Node>, ghost s: Step<Node>, ghost g: Step<Node>,
                   ghost rest: seq<Step<Node>>, ghost reds: set<Node>, ghost nodes: set<Node>)
    returns (newRoot: Node)
    requires Scene(t, [s, g] + rest, reds, nil, root, node, nodes) && Rising(t, [s, g] + rest, reds) && s.node in reds
    requires !s.isLeft && !g.isLeft && IsBlack(g.other, reds)
    modifies nodes`left, nodes`right, nodes`parent, nodes`color
    ensures Scene(t, [OuterStep(s, g)] + rest, reds - {s.node} + {g.node}, nil, newRoot, node, nodes)
    ensures Rising(t, [OuterStep(s, g)] + rest, reds - {s.node} + {g.node})
    ensures Order(t, [OuterStep(s, g)] + rest) == Order(t, [s, g] + rest)
  {
    hide Focus, All, Order, Rising, Apart, IsBlack;
    RiseReady(t, s, g, rest, reds, nil, root, node, nodes);
    node.parent.color := false;
    node.parent.parent.color := true;
    newRoot := LeftRotate(root, nil, node.parent.parent, g.other, s.other, s.node, t, rest, nodes);
    FocusDown(false, t, s.node, OuterStep(s, g).other, rest, nil, newRoot);
    LinkDown(Over(OuterStep(s, g), t), rest, nil, newRoot, s.node);
    RiseOuter(t, s, g, rest, reds, reds - {s.node} + {g.node});
    OuterOrder(t, s, g, rest);
  }

  // The left branch of the loop.
  method RiseLeft(root: Node, nil: Node, at: Node, ghost t: Tree<Node>, ghost path: seq<Step<Node>>,
                  ghost reds: set<Node>, ghost nodes: set<Node>)
    returns (newRoot: Node, node: Node, ghost now: Tree<Node>, ghost way: seq<Step<Node>>, ghost tint: set<Node>)
    requires Scene(t, path, reds, nil, root, at, nodes) && Rising(t, path, reds)
    requires |path| >= 2 && path[0].node in reds && path[1].isLeft
    modifies nodes`left, nodes`right, nodes`parent, nodes`color
    ensures Scene(now, way, tint, nil, newRoot, node, nodes) && Rising(now, way, tint)
    ensures Order(now, way) == Order(t, path) && |way| < |path|
  {
    ghost var s, g, rest := path[0], path[1], path[2..];
    assert path == [s, g] + rest;
    hide Scene, Order, Rising, OuterStep, InnerTurned, InnerStep, IsBlack;
    RiseReady(t, s, g, rest, reds, nil, root, at, nodes);
    node := at;
    newRoot := root;
    var temp := node.parent.parent.right;
    if temp.color {
      node := RecolourUncle(root, nil, node, temp, t, s, g, rest, reds, nodes);
      now, way, tint := Over(g, Over(s, t)), rest, reds - {s.node, g.other.node} + {g.node};
    } else {
      now := t;
      ghost var s' := s;
      if node == node.parent.right {
        node := node.parent;
        newRoot := InnerLeft(root, nil, node, t, s, g, rest, reds, nodes);
        now, s' := InnerTurned(t, s), InnerStep(t, s);
      }
      newRoot := OuterRight(newRoot, nil, node, now, s', g, rest, reds, nodes);
      way, tint := [OuterStep(s', g)] + rest, reds - {s'.node} + {g.node};
    }
  }

  // The right branch of the loop.
  method RiseRight(root: Node, nil: Node, at: Node, ghost t: Tree<Node>, ghost path: seq<Step<Node>>,
                  ghost reds: set<Node>, ghost nodes: set<Node>)
    returns (newRoot: Node, node: Node, ghost now: Tree<Node>, ghost way: seq<Step<Node>>, ghost tint: set<Node>)
    requires Scene(t, path, reds, nil, root, at, nodes) && Rising(t, path, reds)
    requires |path| >= 2 && path[0].node in reds && !path[1].isLeft
    modifies nodes`left, nodes`right, nodes`parent, nodes`color
    ensures Scene(now, way, tint, nil, newRoot, node, nodes) && Rising(now, way, tint)
    ensures Order(now, way) == Order(t, path) && |way| < |path|
  {
    ghost var s, g, rest := path[0], path[1], path[2..];
    assert path == [s, g] + rest;
    hide Scene, Order, Rising, OuterStep, InnerTurned, InnerStep, IsBlack;
    RiseReady(t, s, g, rest, reds, nil, root, at, nodes);
    node := at;
    newRoot := root;
    var temp := node.parent.parent.left;
    if temp.color {
      node := RecolourUncle(root, nil, node, temp, t, s, g, rest, reds, nodes);
      now, way, tint := Over(g, Over(s, t)), rest, reds - {s.node, g.other.node} + {g.node};
    } else {
      now := t;
      ghost var s' := s;
      if node == node.parent.left {
        node := node.parent;
        newRoot := InnerRight(root, nil, node, t, s, g, rest, reds, nodes);
        now, s' := InnerTurned(t, s), InnerStep(t, s);
      }
      newRoot := OuterLeft(newRoot, nil, node, now, s', g, rest, reds, nodes);
      way, tint := [OuterStep(s', g)] + rest, reds - {s'.node} + {g.node};
    }
  }

  // ------------------------------------------------------------------ the loop

  lemma {:induction false} RootIsBlack(path: seq<Step<Node>>, h: nat, reds: set<Node>, nil: Node, root: Node, p: Node?)
    requires HoldsPath(path, nil, root, p) && BalancedPath(path, h, reds) && path != []
    ensures root !in reds
  {
    if path[1..] == [] {
      assert root == path[0].node;
    } else {
      RootIsBlack(path[1..], h + if path[0].node in reds then 0 else 1, reds, nil, root, path[0].node);
    }
  }

  // What the loop's tests see.
  lemma LoopReady(t: Tree<Node>, path: seq<Step<Node>>, reds: set<Node>, nil: Node, root: Node, node: Node,
                  nodes: set<Node>)
    requires Scene(t, path, reds, nil, root, node, nodes) && Rising(t, path, reds)
    ensures t.Branch? && node == t.node && (node == root <==> path == []) && root in nodes && Apart(t, path)
    ensures path != [] ==>
      && node.parent == path[0].node && (path[0].node.color <==> path[0].node in reds) && root !in reds
    ensures path != [] && path[0].node in reds ==>
      && |path| >= 2 && path[0].node.parent == path[1].node
      && (path[1].isLeft <==> path[0].node == path[1].node.left)
  {
    View(t, path, nil, root, node);
    RootOnPath(path, nil, root, node);
    if path != [] {
      RootIsBlack(path, BlackHeight(t, reds), reds, nil, root, node);
      if path[0].node in reds {
        RisingStuck(t, path, reds);
        assert path == [path[0], path[1]] + path[2..];
        RiseReady(t, path[0], path[1], path[2..], reds, nil, root, node, nodes);
      }
    }
  }

  lemma WholeScene(t: Tree<Node>, path: seq<Step<Node>>, reds: set<Node>, nil: Node, root: Node, p: Node?,
                   nodes: set<Node>)
    requires Scene(t, path, reds, nil, root, p, nodes)
    ensures Scene(Plug(t, path), [], reds, nil, root, root, nodes)
    ensures InOrder(Plug(t, path)) == Order(t, path)
  {
    FocusWhole(t, path, nil, root, p);
    OrderOfWhole(t, path);
  }

  // The loop of rbtree_insert.
  method Rebalance(root: Node, nil: Node, at: Node, ghost t: Tree<Node>, ghost path: seq<Step<Node>>,
                   ghost reds: set<Node>, ghost nodes: set<Node>)
    returns (newRoot: Node, ghost whole: Tree<Node>, ghost tint: set<Node>)
    requires Scene(t, path, reds, nil, root, at, nodes) && Rising(t, path, reds)
    modifies nodes`left, nodes`right, nodes`parent, nodes`color
    ensures Scene(whole, [], tint, nil, newRoot, newRoot, nodes) && RedBlack(whole, tint)
    ensures InOrder(whole) == Order(t, path)
  {
    hide Focus, Rising, Order, InOrder, RedBlack, Plug, All, Apart;
    newRoot := root;
    var node := at;
    ghost var now, way;
    now, way, tint := t, path, reds;
    LoopReady(now, way, tint, nil, newRoot, node, nodes);
    while node != newRoot && node.parent.color
      invariant Scene(now, way, tint, nil, newRoot, node, nodes) && Rising(now, way, tint)
      invariant Order(now, way) == Order(t, path)
      invariant node != newRoot ==> node.parent != null
      decreases |way|
    {
      LoopReady(now, way, tint, nil, newRoot, node, nodes);
      if node.parent == node.parent.parent.left {
        newRoot, node, now, way, tint := RiseLeft(newRoot, nil, node, now, way, tint, nodes);
      } else {
        newRoot, node, now, way, tint := RiseRight(newRoot, nil, node, now, way, tint, nodes);
      }
      LoopReady(now, way, tint, nil, newRoot, node, nodes);
    }
    LoopReady(now, way, tint, nil, newRoot, node, nodes);
    Risen(now, way, tint, newRoot);
    newRoot.color := false;
    tint := tint - {newRoot};
    whole := Plug(now, way);
    WholeScene(now, way, tint, nil, newRoot, node, nodes);
  }

  // ------------------------------------------------------------------ the search for the place

  // The subtree on one side, and the step that leads back up from it.
  ghost function Toward(isLeft: bool, t: Tree<Node>): Tree<Node>
    requires t.Branch?
  {
    if isLeft then t.left else t.right
  }

  ghost function StepBack(isLeft: bool, t: Tree<Node>): Step<Node>
    requires t.Branch?
  {
    Step(isLeft, t.node, Toward(!isLeft, t))
  }

  // One step down: the same tree and the same order, seen from a place further down.
  lemma GoDown(isLeft: bool, t: Tree<Node>, path: seq<Step<Node>>, nil: Node, root: Node)
    requires t.Branch? && Focus(t, path, nil, root, t.node)
    ensures Focus(Toward(isLeft, t), [StepBack(isLeft, t)] + path, nil, root,
      if isLeft then t.node.left else t.node.right)
    ensures All(Toward(isLeft, t), [StepBack(isLeft, t)] + path) == All(t, path)
  {
    hide Focus, Order;
    var s := StepBack(isLeft, t);
    assert ([s] + path)[1..] == path;
    FocusDown(isLeft, Toward(isLeft, t), t.node, s.other, path, nil, root);
    LinkDown(t, path, nil, root, t.node);
  }

  lemma SameFromBelow(isLeft: bool, t: Tree<Node>, path: seq<Step<Node>>)
    requires t.Branch?
    ensures Plug(Toward(isLeft, t), [StepBack(isLeft, t)] + path) == Plug(t, path)
    ensures Order(Toward(isLeft, t), [StepBack(isLeft, t)] + path) == Order(t, path)
  {
    hide Order;
    var s := StepBack(isLeft, t);
    assert ([s] + path)[1..] == path;
    OverOrder(Toward(isLeft, t), s, path);
  }

  // The comparison tells on which side the key belongs.
  lemma BelongsBelow(less: (Key, Key) -> bool, key: Key, isLeft: bool, t: Tree<Node>, path: seq<Step<Node>>,
                     nodes: set<Node>)
    requires t.Branch? && All(t, path) == nodes && (isLeft <==> less(key, t.node.key))
    requires Sorted(less, Order(t, path)) && Between(less, key, Before(path), After(path))
    requires WeakOrder(less, KeysOf(nodes) + {key})
    ensures var way := [StepBack(isLeft, t)] + path; Between(less, key, Before(way), After(way))
  {
    hide Sorted, Between, WeakOrder, KeysOf, Order, All, Before, After;
    BetweenStep(less, key, t.left, t.node, t.right, path, nodes);
  }

  lemma NotNil(t: Tree<Node>, path: seq<Step<Node>>, nil: Node, root: Node, p: Node?)
    requires Focus(t, path, nil, root, p)
    ensures t.Branch? ==> t.node != nil && t.node in All(t, path)
    ensures p == TopOf(t, nil)
  {
    HoldsTop(t, nil, p);
  }

  // A leaf takes the place of the sentinel.
  method HangLeaf(temp: Node, isLeft: bool, node: Node, nil: Node, ghost root: Node, ghost path: seq<Step<Node>>)
    requires Focus(Leaf, path, nil, root, nil) && path != [] && path[0].node == temp && path[0].isLeft == isLeft
    requires node != nil && node !in PathNodes(path)
    modifies temp`left, temp`right, node`left, node`right, node`parent, node`color
    ensures Focus(Branch(Leaf, node, Leaf), path, nil, root, node) && node.color && temp.color == old(temp.color)
  {
    hide *;
    HangReady(path, nil, root, node);
    Sides(path[0]);
    if isLeft {
      temp.left := node;
    } else {
      temp.right := node;
    }
    node.parent := temp;
    node.left := nil;
    node.right := nil;
    node.color := true;
    Sides(path[0]);
    ClosePath(path, nil, root, node);
    Sprout(path, nil, root, node);
  }

  lemma HangReady(path: seq<Step<Node>>, nil: Node, root: Node, node: Node)
    requires Focus(Leaf, path, nil, root, nil) && path != [] && node != nil && node !in PathNodes(path)
    ensures var s, rest := path[0], path[1..];
      && s.node != node && s.node != nil && nil !in PathNodes(path) && Apart(Branch(Leaf, node, Leaf), path)
      && Near(s) == nil && Holds(s.other, nil, Far(s)) && Under(s.other, s.node)
      && (rest != [] ==> s.node.parent == path[1].node) && HoldsPath(rest, nil, root, s.node)
      && s.node !in Nodes(s.other) && s.node !in PathNodes(rest) && Inner(s.other) <= Nodes(s.other)
      && node !in Nodes(s.other) && node !in PathNodes(rest)
  {
    OpenPath(path, nil, root, nil);
  }

  lemma Sides(s: Step<Node>)
    ensures Near(s) == if s.isLeft then s.node.left else s.node.right
    ensures Far(s) == if s.isLeft then s.node.right else s.node.left
  {
  }

  lemma Sprout(path: seq<Step<Node>>, nil: Node, root: Node, node: Node)
    requires node.left == nil && node.right == nil && node != nil && nil !in PathNodes(path)
    requires HoldsPath(path, nil, root, node) && (path != [] ==> node.parent == path[0].node)
    requires Apart(Branch(Leaf, node, Leaf), path)
    ensures Focus(Branch(Leaf, node, Leaf), path, nil, root, node)
  {
  }

  // The search of rbtree_insert_value: the node to hang the new one from, and on which side.
  method SeekPlace(root: Node, nil: Node, less: (Key, Key) -> bool, key: Key, ghost shape: Tree<Node>,
                   ghost nodes: set<Node>)
    returns (temp: Node, goLeft: bool, ghost path: seq<Step<Node>>)
    requires Focus(shape, [], nil, root, root) && All(shape, []) == nodes && root != nil
    requires Sorted(less, InOrder(shape)) && WeakOrder(less, KeysOf(nodes) + {key})
    ensures Focus(Leaf, path, nil, root, nil) && All(Leaf, path) == nodes && Plug(Leaf, path) == shape
    ensures path != [] && path[0].node == temp && path[0].isLeft == goLeft
    ensures Between(less, key, Before(path), After(path))
  {
    hide Focus, Sorted, Between, WeakOrder, KeysOf, Order, All, Plug, Before, After, InOrder;
    Start(less, key, shape, nil, root);
    ghost var sub := shape;
    path := [];
    var p := root;
    temp, goLeft := root, false;
    while p != nil
      invariant Focus(sub, path, nil, root, p) && All(sub, path) == nodes
      invariant p == TopOf(sub, nil) && (sub.Branch? ==> sub.node != nil)
      invariant Plug(sub, path) == shape && Order(sub, path) == Order(shape, [])
      invariant Between(less, key, Before(path), After(path)) && Sorted(less, Order(sub, path))
      invariant p != root || path != [] ==> path != [] && path[0].node == temp && path[0].isLeft == goLeft
      modifies {}
      decreases sub
    {
      temp := p;
      goLeft := less(key, temp.key);
      p := if goLeft then temp.left else temp.right;
      GoDown(goLeft, sub, path, nil, root);
      SameFromBelow(goLeft, sub, path);
      BelongsBelow(less, key, goLeft, sub, path, nodes);
      sub, path := Toward(goLeft, sub), [StepBack(goLeft, sub)] + path;
      NotNil(sub, path, nil, root, p);
    }
  }

  // rbtree_insert_value, and rbtree_insert_timer_value, which compares with wrap-around.
  method InsertValue(root: Node, node: Node, nil: Node, less: (Key, Key) -> bool, ghost shape: Tree<Node>,
                     ghost reds: set<Node>, ghost nodes: set<Node>)
    returns (ghost path: seq<Step<Node>>)
    requires Scene(shape, [], reds, nil, root, root, nodes) && root != nil && node !in nodes && node != nil
    requires Sorted(less, InOrder(shape)) && WeakOrder(less, KeysOf(nodes) + {node.key})
    modifies nodes`left, nodes`right, node`left, node`right, node`parent, node`color
    ensures Scene(Branch(Leaf, node, Leaf), path, reds + {node}, nil, root, node, nodes + {node})
    ensures Plug(Leaf, path) == shape && Between(less, node.key, Before(path), After(path))
    ensures Apart(Branch(Leaf, node, Leaf), path) && All(Branch(Leaf, node, Leaf), path) == nodes + {node}
    ensures (forall n :: n in Before(path) ==> n in nodes) && (forall n :: n in After(path) ==> n in nodes)
  {
    hide Focus, Sorted, Between, WeakOrder, KeysOf, Order, All, Plug, Before, After;
    var temp, goLeft;
    temp, goLeft, path := SeekPlace(root, nil, less, node.key, shape, nodes);
    Bare(path, nodes);
    HangLeaf(temp, goLeft, node, nil, root, path);
    Bearing(node, path, nodes);
    ApartHere(Branch(Leaf, node, Leaf), path, nil, root, node);
  }

  lemma ApartHere(t: Tree<Node>, path: seq<Step<Node>>, nil: Node, root: Node, p: Node?)
    requires Focus(t, path, nil, root, p)
    ensures Apart(t, path)
  {
  }

  lemma Start(less: (Key, Key) -> bool, key: Key, shape: Tree<Node>, nil: Node, root: Node)
    requires Focus(shape, [], nil, root, root) && Sorted(less, InOrder(shape))
    ensures Sorted(less, Order(shape, [])) && Between(less, key, Before([]), After([])) && Plug(shape, []) == shape
    ensures root == TopOf(shape, nil)
  {
    assert Order(shape, []) == InOrder(shape);
    HoldsTop(shape, nil, root);
  }

  lemma Bare(path: seq<Step<Node>>, nodes: set<Node>)
    requires All(Leaf, path) == nodes
    ensures PathNodes(path) == nodes && (path != [] ==> path[0].node in nodes)
    ensures (forall n :: n in Before(path) ==> n in nodes) && (forall n :: n in After(path) ==> n in nodes)
  {
    forall n | n in Before(path)
      ensures n in nodes
    {
      OnPath(path, n);
    }
    forall n | n in After(path)
      ensures n in nodes
    {
      OnPath(path, n);
    }
  }

  lemma Bearing(node: Node, path: seq<Step<Node>>, nodes: set<Node>)
    requires PathNodes(path) == nodes
    ensures All(Branch(Leaf, node, Leaf), path) == nodes + {node}
  {
    assert Nodes(Branch(Leaf, node, Leaf)) == {node};
  }

  // ------------------------------------------------------------------ rbtree_insert

  lemma LeafRises(node: Node, path: seq<Step<Node>>, shape: Tree<Node>, reds: set<Node>, nodes: set<Node>)
    requires Plug(Leaf, path) == shape && RedBlack(shape, reds) && node !in nodes
    requires All(Branch(Leaf, node, Leaf), path) == nodes + {node} && Apart(Branch(Leaf, node, Leaf), path)
    ensures Rising(Branch(Leaf, node, Leaf), path, reds + {node})
  {
    assert node in Nodes(Branch(Leaf, node, Leaf));
    BalancedParts(Leaf, path, reds);
    SamePathColours(path, 1, reds, reds + {node});
  }

  lemma InsertedOrder(node: Node, path: seq<Step<Node>>, shape: Tree<Node>)
    requires Plug(Leaf, path) == shape
    ensures InOrder(shape) == Before(path) + After(path)
    ensures Order(Branch(Leaf, node, Leaf), path) == Before(path) + [node] + After(path)
  {
    OrderOfWhole(Leaf, path);
    assert InOrder(Branch(Leaf, node, Leaf)) == [node];
  }

  lemma StillSorted(less: (Key, Key) -> bool, b: seq<Node>, node: Node, a: seq<Node>, keys: set<Key>)
    requires Sorted(less, b + a) && Between(less, node.key, b, a) && WeakOrder(less, keys) && node.key in keys
    requires forall n :: n in b + a ==> n.key in keys
    ensures Sorted(less, b + [node] + a)
  {
    var s := b + [node] + a;
    forall i, j | 0 <= i < j < |s|
      ensures !less(s[j].key, s[i].key)
    {
      if j < |b| {
        assert (b + a)[i] == s[i] && (b + a)[j] == s[j];
      } else if j == |b| {
        assert s[i] in b;
      } else {
        assert s[j] == (b + a)[j - 1] && s[j] in a && s[j] in b + a;
        if i < |b| {
          assert s[i] == (b + a)[i];
        } else if i > |b| {
          assert s[i] == (b + a)[i - 1];
        }
      }
    }
  }

  lemma OwnKey(node: Node, nodes: set<Node>)
    ensures KeysOf(nodes + {node}) == KeysOf(nodes) + {node.key}
  {
    assert node.key in KeysOf(nodes + {node});
    forall n | n in nodes
      ensures n.key in KeysOf(nodes + {node})
    {
    }
  }

  lemma KeysOfOrder(shape: Tree<Node>, nodes: set<Node>)
    requires Nodes(shape) <= nodes
    ensures forall n :: n in InOrder(shape) ==> n.key in KeysOf(nodes)
  {
    NodesAreListed(shape);
  }

  // rbtree_insert: the node goes between the keys that are not greater and those that are.
  method Insert(root: Node, node: Node, nil: Node, less: (Key, Key) -> bool, ghost shape: Tree<Node>,
                ghost reds: set<Node>, ghost nodes: set<Node>)
    returns (newRoot: Node, ghost whole: Tree<Node>, ghost tint: set<Node>, ghost k: nat)
    requires Scene(shape, [], reds, nil, root, root, nodes) && RedBlack(shape, reds)
    requires node !in nodes && node != nil
    requires Sorted(less, InOrder(shape)) && WeakOrder(less, KeysOf(nodes) + {node.key})
    modifies nodes`left, nodes`right, nodes`parent, nodes`color, node`left, node`right, node`parent, node`color
    ensures Scene(whole, [], tint, nil, newRoot, newRoot, nodes + {node}) && RedBlack(whole, tint)
    ensures k <= |InOrder(shape)| && InOrder(whole) == InOrder(shape)[..k] + [node] + InOrder(shape)[k..]
    ensures Between(less, node.key, InOrder(shape)[..k], InOrder(shape)[k..]) && Sorted(less, InOrder(whole))
  {
    hide *;
    EmptyScene(less, shape, reds, nil, root, nodes);
    if root == nil {
      node.parent := null;
      node.left := nil;
      node.right := nil;
      node.color := false;
      newRoot := node;
      whole, tint, k := Branch(Leaf, node, Leaf), {}, 0;
      OnlyScene(less, node, nil);
      assert nodes + {node} == {node};
      assert InOrder(whole) == InOrder(shape)[..k] + [node] + InOrder(shape)[k..];
    } else {
      ghost var path := InsertValue(root, node, nil, less, shape, reds, nodes);
      LeafRises(node, path, shape, reds, nodes);
      newRoot, whole, tint := Rebalance(root, nil, node, Branch(Leaf, node, Leaf), path, reds + {node}, nodes + {node});
      InsertedOrder(node, path, shape);
      k := |Before(path)|;
      assert InOrder(shape)[..k] == Before(path) && InOrder(shape)[k..] == After(path);
      KeysOfOrder(shape, nodes);
      OwnKey(node, nodes);
      StillSorted(less, Before(path), node, After(path), KeysOf(nodes) + {node.key});
    }
  }

  lemma EmptyScene(less: (Key, Key) -> bool, shape: Tree<Node>, reds: set<Node>, nil: Node, root: Node,
                   nodes: set<Node>)
    requires Scene(shape, [], reds, nil, root, root, nodes)
    ensures root == nil ==> shape == Leaf && InOrder(shape) == [] && nodes == {} && !nil.color
    ensures Nodes(shape) == nodes && forall n :: n in InOrder(shape) ==> n in nodes
    ensures nil !in nodes
  {
    HoldsTop(shape, nil, root);
    AllOfWhole(shape);
  }

  lemma OnlyScene(less: (Key, Key) -> bool, node: Node, nil: Node)
    requires node.left == node.right == nil && !node.color && !nil.color && node != nil
    ensures var t := Branch(Leaf, node, Leaf);
      && Scene(t, [], {}, nil, node, node, {node}) && RedBlack(t, {})
      && InOrder(t) == [node] && Sorted(less, InOrder(t)) && Between(less, node.key, [], [])
  {
    var t := Branch(Leaf, node, Leaf);
    AllOfWhole(t);
    assert Nodes(t) == {node} && InOrder(t) == [node];
    var path: seq<Step<Node>> := [];
    RootOnly(nil, node);
    assert PathNodes(path) == {} && Apart(t, path);
    Sprout(path, nil, node, node);
  }
}
