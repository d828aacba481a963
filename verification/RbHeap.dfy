// Red-black trees in memory: nodes with links both ways and a sentinel for the missing children.
module RbHeap {
  import opened RbShape

  // Keys are 64-bit unsigned words.
  const KEYS: nat := 0x1_0000_0000_0000_0000

  type Key = k: int | 0 <= k < KEYS

  class Node {
    var key: Key
    var left: Node?
    var right: Node?
    var parent: Node?
    var color: bool    // true is red
    var udata: int

    constructor ()
      ensures key == 0 && left == null && right == null && parent == null && !color && udata == 0
    {
      key := 0;
      left := null;
      right := null;
      parent := null;
      color := false;
      udata := 0;
    }
  }

  // The parent link of t's top node, if there is one.
  ghost predicate Under(t: Tree<Node>, n: Node)
    reads Nodes(t)`parent
  {
    t.Branch? ==> t.node in Nodes(t) && t.node.parent == n
  }

  ghost function Inner(t: Tree<Node>): set<Node> { if t.Leaf? then {} else Nodes(t.left) + Nodes(t.right) }

  // p is the top of t in memory. The parent link of the top is not looked at.
  ghost predicate Holds(t: Tree<Node>, nil: Node, p: Node?)
    reads Nodes(t)`left, Nodes(t)`right, Inner(t)`parent
  {
    match t
    case Leaf => p == nil
    case Branch(l, n, r) =>
      && n in Nodes(t) && Nodes(l) <= Inner(t) <= Nodes(t) && Nodes(r) <= Inner(t)
      && p == n && Under(l, n) && Under(r, n)
      && Holds(l, nil, n.left) && Holds(r, nil, n.right)
  }

  // The way up from p to the root, with what hangs off it. The root's own parent link is not looked at.
  ghost predicate HoldsPath(path: seq<Step<Node>>, nil: Node, root: Node, p: Node?)
    reads PathNodes(path)`left, PathNodes(path)`right, PathNodes(path)`parent
  {
    if path == [] then p == root
    else
      var s := path[0];
      && s.node in PathNodes(path) && Nodes(s.other) <= PathNodes(path) && PathNodes(path[1..]) <= PathNodes(path)
      && (if s.isLeft then s.node.left else s.node.right) == p
      && Holds(s.other, nil, if s.isLeft then s.node.right else s.node.left)
      && Under(s.other, s.node)
      && (path[1..] != [] ==> s.node.parent == path[1].node)
      && HoldsPath(path[1..], nil, root, s.node)
  }

  // The tree rooted at `root`, seen from the place where p is.
  ghost predicate Focus(t: Tree<Node>, path: seq<Step<Node>>, nil: Node, root: Node, p: Node?)
    reads All(t, path)`left, All(t, path)`right, All(t, path)`parent
  {
    && Apart(t, path) && nil !in All(t, path)
    && Holds(t, nil, p) && HoldsPath(path, nil, root, p)
    && (path != [] ==> Under(t, path[0].node))
  }

  lemma FocusUp(t: Tree<Node>, path: seq<Step<Node>>, nil: Node, root: Node, p: Node?)
    requires Focus(t, path, nil, root, p) && path != []
    ensures Focus(Over(path[0], t), path[1..], nil, root, path[0].node)
  {
    ApartUp(t, path);
  }

  lemma FocusDown(isLeft: bool, t: Tree<Node>, n: Node, o: Tree<Node>, path: seq<Step<Node>>, nil: Node, root: Node)
    requires Focus(Join(isLeft, t, n, o), path, nil, root, n)
    ensures Focus(t, [Step(isLeft, n, o)] + path, nil, root, if isLeft then n.left else n.right)
  {
    var down := [Step(isLeft, n, o)] + path;
    assert down[1..] == path && down[0] == Step(isLeft, n, o);
    ApartUp(t, down);
  }

  lemma FocusAtRoot(t: Tree<Node>, path: seq<Step<Node>>, nil: Node, root: Node, p: Node?)
    requires Focus(t, path, nil, root, p)
    ensures path == [] ==> p == root
  {
  }

  lemma {:induction false} FocusWhole(t: Tree<Node>, path: seq<Step<Node>>, nil: Node, root: Node, p: Node?)
    requires Focus(t, path, nil, root, p)
    ensures Focus(Plug(t, path), [], nil, root, root)
    ensures Nodes(Plug(t, path)) == All(t, path)
    decreases |path|
  {
    hide Focus;
    if path == [] {
      FocusAtRoot(t, path, nil, root, p);
    } else {
      FocusUp(t, path, nil, root, p);
      ApartUp(t, path);
      FocusWhole(Over(path[0], t), path[1..], nil, root, path[0].node);
    }
  }

  // The node that p's parent link reaches, if any.
  ghost function Upward(path: seq<Step<Node>>): set<Node> { if path == [] then {} else {path[0].node} }

  ghost function Tops(t: Tree<Node>): set<Node> { if t.Leaf? then {} else {t.node} }

  ghost function TopOf(t: Tree<Node>, nil: Node): Node { if t.Leaf? then nil else t.node }

  lemma {:induction false} RootOnPath(path: seq<Step<Node>>, nil: Node, root: Node, p: Node?)
    requires HoldsPath(path, nil, root, p)
    ensures path != [] ==> root in PathNodes(path)
  {
    if path != [] {
      RootOnPath(path[1..], nil, root, path[0].node);
    }
  }

  lemma HoldsTop(t: Tree<Node>, nil: Node, p: Node?)
    requires Holds(t, nil, p)
    ensures p == TopOf(t, nil)
  {
  }

  // The sides of a node: the link on which the place hangs, and the other one.
  ghost function Near(s: Step<Node>): Node?
    reads s.node
  {
    if s.isLeft then s.node.left else s.node.right
  }

  ghost function Far(s: Step<Node>): Node?
    reads s.node
  {
    if s.isLeft then s.node.right else s.node.left
  }

  lemma OpenPath(path: seq<Step<Node>>, nil: Node, root: Node, p: Node?)
    requires HoldsPath(path, nil, root, p) && path != [] && ProperPath(path)
    ensures Near(path[0]) == p && Holds(path[0].other, nil, Far(path[0])) && Under(path[0].other, path[0].node)
    ensures path[1..] != [] ==> path[0].node.parent == path[1].node
    ensures HoldsPath(path[1..], nil, root, path[0].node)
    ensures PathNodes(path) == {path[0].node} + Nodes(path[0].other) + PathNodes(path[1..])
    ensures path[0].node !in Nodes(path[0].other) && path[0].node !in PathNodes(path[1..])
  {
  }

  lemma ClosePath(path: seq<Step<Node>>, nil: Node, root: Node, p: Node?)
    requires path != []
    requires Near(path[0]) == p && Holds(path[0].other, nil, Far(path[0])) && Under(path[0].other, path[0].node)
    requires path[1..] != [] ==> path[0].node.parent == path[1].node
    requires HoldsPath(path[1..], nil, root, path[0].node)
    ensures HoldsPath(path, nil, root, p)
  {
  }

  // What a node in the tree can see.
  lemma View(t: Tree<Node>, path: seq<Step<Node>>, nil: Node, root: Node, n: Node)
    requires Focus(t, path, nil, root, n) && t.Branch?
    ensures n == t.node && n in Nodes(t)
    ensures n == root <==> path == []
    ensures path != [] ==>
      && n.parent == path[0].node && path[0].node != n
      && (path[0].isLeft <==> n == path[0].node.left)
      && (!path[0].isLeft <==> n == path[0].node.right)
  {
    RootOnPath(path, nil, root, n);
    if path != [] {
      HoldsTop(path[0].other, nil, if path[0].isLeft then path[0].node.right else path[0].node.left);
    }
  }

  lemma Children(t: Tree<Node>, nil: Node)
    requires t.Branch? && Holds(t, nil, t.node)
    ensures Holds(t.left, nil, t.node.left) && Holds(t.right, nil, t.node.right)
    ensures Under(t.left, t.node) && Under(t.right, t.node)
    ensures t.node.left == TopOf(t.left, nil) && t.node.right == TopOf(t.right, nil)
  {
    HoldsTop(t.left, nil, t.node.left);
    HoldsTop(t.right, nil, t.node.right);
  }

  lemma Parent(l: Tree<Node>, n: Node, r: Tree<Node>, nil: Node)
    requires Holds(l, nil, n.left) && Holds(r, nil, n.right) && Under(l, n) && Under(r, n)
    ensures Holds(Branch(l, n, r), nil, n)
  {
  }

  lemma Refocus(t: Tree<Node>, path: seq<Step<Node>>, nil: Node, root: Node, p: Node?)
    requires Apart(t, path) && nil !in All(t, path) && Holds(t, nil, p)
    requires HoldsPath(path, nil, root, p) && (path != [] ==> Under(t, path[0].node))
    ensures Focus(t, path, nil, root, p)
  {
  }

  lemma UnderTop(t: Tree<Node>, up: Node)
    requires t.Branch? ==> t.node.parent == up
    ensures Under(t, up)
  {
  }

  // The link that led to `node` leads to `temp`.
  method Replace(root: Node, node: Node, temp: Node, ghost path: seq<Step<Node>>, ghost nil: Node)
    returns (newRoot: Node)
    requires HoldsPath(path, nil, root, node) && ProperPath(path)
    requires node == root <==> path == []
    requires path != [] ==> node.parent == path[0].node && (path[0].isLeft <==> node == path[0].node.left)
    modifies Upward(path)`left, Upward(path)`right
    ensures HoldsPath(path, nil, newRoot, temp)
  {
    if path != [] {
      OpenPath(path, nil, root, node);
    } else {
      RootOnly(nil, temp);
    }
    hide *;
    newRoot := root;
    if node == root {
      newRoot := temp;
    } else if node == node.parent.left {
      node.parent.left := temp;
    } else {
      node.parent.right := temp;
    }
    if path != [] {
      ClosePath(path, nil, newRoot, temp);
    }
  }

  lemma RootOnly(nil: Node, root: Node)
    ensures HoldsPath([], nil, root, root)
  {
  }

  // The parts of a tree about to be rotated do not overlap.
  lemma Separate(a: Tree<Node>, x: Node, b: Tree<Node>, y: Node, c: Tree<Node>)
    requires Proper(Branch(a, x, Branch(b, y, c)))
    ensures x != y && Proper(a) && Proper(b) && Proper(c)
    ensures Nodes(a) !! {x, y} && Nodes(b) !! {x, y} && Nodes(c) !! {x, y}
    ensures Nodes(a) !! Nodes(b) && Nodes(a) !! Nodes(c) && Nodes(b) !! Nodes(c)
    ensures Nodes(Branch(a, x, Branch(b, y, c))) == Nodes(a) + Nodes(b) + Nodes(c) + {x, y}
  {
    assert Proper(Branch(b, y, c)) && y in Nodes(Branch(b, y, c));
    assert Nodes(Branch(b, y, c)) == Nodes(b) + {y} + Nodes(c);
  }

  lemma Top(t: Tree<Node>, nil: Node)
    requires Proper(t) && nil !in Nodes(t)
    ensures TopOf(t, nil) == nil <==> t.Leaf?
    ensures t.Branch? ==> TopOf(t, nil) == t.node && Tops(t) == {t.node} && t.node in Nodes(t) && t.node !in Inner(t)
    ensures Inner(t) <= Nodes(t)
  {
  }

  lemma PathTop(path: seq<Step<Node>>)
    ensures Upward(path) <= PathNodes(path)
    ensures forall n :: n in Upward(path) ==> n in PathNodes(path)
    ensures path != [] ==> path[0].node in Upward(path)
  {
  }

  // Writing one of the links that a rotation changes leaves the rest as it is: the middle part has the sentinel or a
  // node of its own at the top, and no part holds x, y, that top or the node that the upward link leads to.
  ghost predicate Unmixed(a: Tree<Node>, x: Node, b: Tree<Node>, y: Node, c: Tree<Node>, path: seq<Step<Node>>,
                          nil: Node, nodes: set<Node>)
  {
    && ProperPath(path)
    && x != y && TopOf(b, nil) != x && TopOf(b, nil) != y
    && (if b.Leaf? then TopOf(b, nil) == nil
        else TopOf(b, nil) != nil && TopOf(b, nil) == b.node && b.node in nodes)
    && (forall o :: o in Nodes(a) ==> o in nodes && o != x && o != y && o != TopOf(b, nil) && o !in Upward(path))
    && (forall o :: o in Nodes(c) ==> o in nodes && o != x && o != y && o != TopOf(b, nil) && o !in Upward(path))
    && (forall o :: o in Nodes(b) ==> o in nodes && o != x && o != y && o !in Upward(path))
    && (forall o :: o in PathNodes(path) ==> o in nodes && o != x && o != y && o != TopOf(b, nil))
    && Inner(b) <= Nodes(b) && TopOf(b, nil) !in Inner(b) && Inner(a) <= Nodes(a) && Inner(c) <= Nodes(c)
    && x in nodes && y in nodes && Upward(path) <= PathNodes(path)
  }

  lemma UnmixedParts(a: Tree<Node>, x: Node, b: Tree<Node>, y: Node, c: Tree<Node>, path: seq<Step<Node>>,
                     nil: Node, nodes: set<Node>)
    requires Apart(Branch(a, x, Branch(b, y, c)), path)
    requires nil !in All(Branch(a, x, Branch(b, y, c)), path)
    requires All(Branch(a, x, Branch(b, y, c)), path) <= nodes
    ensures Unmixed(a, x, b, y, c, path, nil, nodes)
  {
    var t := Branch(a, x, Branch(b, y, c));
    Separate(a, x, b, y, c);
    Top(a, nil);
    Top(b, nil);
    Top(c, nil);
    PathTop(path);
    assert Nodes(t) <= nodes && PathNodes(path) <= nodes && Nodes(t) !! PathNodes(path) && nil !in Nodes(t);
  }

  // What a rotation of y over x relies on.
  lemma LeftReady(root: Node, nil: Node, a: Tree<Node>, x: Node, b: Tree<Node>, y: Node, c: Tree<Node>,
                  path: seq<Step<Node>>, nodes: set<Node>)
    requires Focus(Branch(a, x, Branch(b, y, c)), path, nil, root, x)
    requires All(Branch(a, x, Branch(b, y, c)), path) <= nodes
    ensures x.right == y && y.left == TopOf(b, nil)
    ensures Holds(a, nil, x.left) && Holds(b, nil, y.left) && Holds(c, nil, y.right) && HoldsPath(path, nil, root, x)
    ensures Under(a, x) && Under(c, y)
    ensures x == root <==> path == []
    ensures path != [] ==> x.parent == path[0].node && (path[0].isLeft <==> x == path[0].node.left)
    ensures Unmixed(a, x, b, y, c, path, nil, nodes)
    ensures Apart(Branch(Branch(a, x, b), y, c), path) && nil !in All(Branch(Branch(a, x, b), y, c), path)
  {
    var t := Branch(a, x, Branch(b, y, c));
    View(t, path, nil, root, x);
    Children(t, nil);
    Children(t.right, nil);
    RotationApart(a, x, b, y, c, path);
    UnmixedParts(a, x, b, y, c, path, nil, nodes);
  }

  method LeftRotate(root: Node, nil: Node, node: Node, ghost a: Tree<Node>, ghost b: Tree<Node>, ghost y: Node,
                    ghost c: Tree<Node>, ghost path: seq<Step<Node>>, ghost nodes: set<Node>)
    returns (newRoot: Node)
    requires Focus(Branch(a, node, Branch(b, y, c)), path, nil, root, node)
    requires All(Branch(a, node, Branch(b, y, c)), path) <= nodes
    modifies nodes`left, nodes`right, nodes`parent
    ensures Focus(Branch(Branch(a, node, b), y, c), path, nil, newRoot, y)
  {
    hide Focus, Holds, HoldsPath, Under, Apart, All, Nodes, PathNodes, TopOf, Inner, Upward, ProperPath;
    LeftReady(root, nil, a, node, b, y, c, path, nodes);
    var temp: Node := node.right;
    node.right := temp.left;
    if temp.left != nil {
      temp.left.parent := node;
    }
    temp.parent := node.parent;
    UnderTop(b, node);
    newRoot := Replace(root, node, temp, path, nil);
    temp.left := node;
    node.parent := temp;
    Rotated(a, node, b, y, c, path, nil, newRoot);
  }

  method RightRotate(root: Node, nil: Node, node: Node, ghost a: Tree<Node>, ghost x: Node, ghost b: Tree<Node>,
                     ghost c: Tree<Node>, ghost path: seq<Step<Node>>, ghost nodes: set<Node>)
    returns (newRoot: Node)
    requires Focus(Branch(Branch(a, x, b), node, c), path, nil, root, node)
    requires All(Branch(Branch(a, x, b), node, c), path) <= nodes
    modifies nodes`left, nodes`right, nodes`parent
    ensures Focus(Branch(a, x, Branch(b, node, c)), path, nil, newRoot, x)
  {
    hide Focus, Holds, HoldsPath, Under, Apart, All, Nodes, PathNodes, TopOf, Inner, Upward, ProperPath;
    RightReady(root, nil, a, x, b, node, c, path, nodes);
    var temp: Node := node.left;
    node.left := temp.right;
    if temp.right != nil {
      temp.right.parent := node;
    }
    temp.parent := node.parent;
    UnderTop(b, node);
    newRoot := Replace(root, node, temp, path, nil);
    temp.right := node;
    node.parent := temp;
    RotatedRight(a, x, b, node, c, path, nil, newRoot);
  }

  // What a rotation of x over y relies on.
  lemma RightReady(root: Node, nil: Node, a: Tree<Node>, x: Node, b: Tree<Node>, y: Node, c: Tree<Node>,
                   path: seq<Step<Node>>, nodes: set<Node>)
    requires Focus(Branch(Branch(a, x, b), y, c), path, nil, root, y)
    requires All(Branch(Branch(a, x, b), y, c), path) <= nodes
    ensures y.left == x && x.right == TopOf(b, nil)
    ensures Holds(a, nil, x.left) && Holds(b, nil, x.right) && Holds(c, nil, y.right) && HoldsPath(path, nil, root, y)
    ensures Under(a, x) && Under(c, y)
    ensures y == root <==> path == []
    ensures path != [] ==> y.parent == path[0].node && (path[0].isLeft <==> y == path[0].node.left)
    ensures Unmixed(a, x, b, y, c, path, nil, nodes)
    ensures Apart(Branch(a, x, Branch(b, y, c)), path) && nil !in All(Branch(a, x, Branch(b, y, c)), path)
  {
    var t := Branch(Branch(a, x, b), y, c);
    View(t, path, nil, root, y);
    Children(t, nil);
    Children(t.left, nil);
    RotationApart(a, x, b, y, c, path);
    UnmixedParts(a, x, b, y, c, path, nil, nodes);
  }

  lemma Rotated(a: Tree<Node>, x: Node, b: Tree<Node>, y: Node, c: Tree<Node>, path: seq<Step<Node>>, nil: Node,
                root: Node)
    requires Holds(a, nil, x.left) && Holds(b, nil, x.right) && Holds(c, nil, y.right)
    requires Under(a, x) && Under(b, x) && Under(c, y) && y.left == x && x.parent == y
    requires HoldsPath(path, nil, root, y) && (path != [] ==> y.parent == path[0].node)
    requires Apart(Branch(Branch(a, x, b), y, c), path) && nil !in All(Branch(Branch(a, x, b), y, c), path)
    ensures Focus(Branch(Branch(a, x, b), y, c), path, nil, root, y)
  {
    hide *;
    var t := Branch(Branch(a, x, b), y, c);
    UnderTop(t.left, y);
    Parent(a, x, b, nil);
    Parent(t.left, y, c, nil);
    if path != [] {
      UnderTop(t, path[0].node);
    }
    Refocus(t, path, nil, root, y);
  }

  lemma RotatedRight(a: Tree<Node>, x: Node, b: Tree<Node>, y: Node, c: Tree<Node>, path: seq<Step<Node>>, nil: Node,
                     root: Node)
    requires Holds(a, nil, x.left) && Holds(b, nil, y.left) && Holds(c, nil, y.right)
    requires Under(a, x) && Under(b, y) && Under(c, y) && x.right == y && y.parent == x
    requires HoldsPath(path, nil, root, x) && (path != [] ==> x.parent == path[0].node)
    requires Apart(Branch(a, x, Branch(b, y, c)), path) && nil !in All(Branch(a, x, Branch(b, y, c)), path)
    ensures Focus(Branch(a, x, Branch(b, y, c)), path, nil, root, x)
  {
    hide *;
    var t := Branch(a, x, Branch(b, y, c));
    UnderTop(t.right, x);
    Parent(b, y, c, nil);
    Parent(a, x, t.right, nil);
    if path != [] {
      UnderTop(t, path[0].node);
    }
    Refocus(t, path, nil, root, x);
  }
}
