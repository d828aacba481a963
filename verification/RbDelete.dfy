// Deletion: the node, or its successor, leaves its place, and the way up mends the colours.
module RbDelete {
  import opened RbShape
  import opened RbShort
  import opened RbHeap
  import opened RbInsert

  // The parent link of the place, which the sentinel has too while it holds the place.
  ghost predicate Linked(path: seq<Step<Node>>, temp: Node)
    reads temp`parent
  {
    path != [] ==> temp.parent == path[0].node
  }

  // The place at temp is one black node short.
  ghost predicate Missing(t: Tree<Node>, path: seq<Step<Node>>, reds: set<Node>, nil: Node, root: Node, temp: Node,
                          nodes: set<Node>)
    reads All(t, path), nodes`color, nil`color, temp`parent
  {
    Scene(t, path, reds, nil, root, temp, nodes) && Short(t, path, reds) && Linked(path, temp)
  }

  lemma StillLinked(t: Tree<Node>, path: seq<Step<Node>>, nil: Node, root: Node, temp: Node)
    requires Focus(t, path, nil, root, temp) && path != []
    requires t.Leaf? ==> temp.parent == path[0].node
    ensures Linked(path, temp)
  {
  }

  // What a short place can see.
  lemma MissingReady(t: Tree<Node>, s: Step<Node>, rest: seq<Step<Node>>, reds: set<Node>, nil: Node, root: Node,
                     temp: Node, nodes: set<Node>)
    requires Missing(t, [s] + rest, reds, nil, root, temp, nodes) && IsBlack(t, reds)
    ensures temp.parent == s.node && s.node in nodes && temp == TopOf(t, nil) && (temp in nodes <==> t.Branch?)
    ensures s.other.Branch? && Far(s) == s.other.node && s.other.node in nodes && s.other.node != s.node
    ensures s.isLeft <==> temp == s.node.left
    ensures s.other.node.color <==> !IsBlack(s.other, reds)
    ensures s.other.node.left == TopOf(s.other.left, nil) && s.other.node.right == TopOf(s.other.right, nil)
    ensures TopOf(s.other.left, nil).color <==> !IsBlack(s.other.left, reds)
    ensures TopOf(s.other.right, nil).color <==> !IsBlack(s.other.right, reds)
    ensures !IsBlack(s.other.left, reds) ==> s.other.left.node in nodes && TopOf(s.other.left, nil) == s.other.left.node
    ensures !IsBlack(s.other.right, reds) ==>
      s.other.right.node in nodes && TopOf(s.other.right, nil) == s.other.right.node
    ensures Focus(Over(s, t), rest, nil, root, s.node) && All(Over(s, t), rest) == nodes
    ensures Focus(s.other, [Across(t, s)] + rest, nil, root, s.other.node)
      && All(s.other, [Across(t, s)] + rest) == nodes
    ensures Apart(t, [s] + rest)
  {
    var path := [s] + rest;
    assert path[1..] == rest && path[0] == s;
    FocusUp(t, path, nil, root, temp);
    ApartUp(t, path);
    ShortSibling(t, s, rest, reds);
    HoldsTop(t, nil, temp);
    Children(Over(s, t), nil);
    Children(s.other, nil);
    FocusDown(!s.isLeft, s.other, s.node, t, rest, nil, root);
    OverOrder(s.other, Across(t, s), rest);
    InNodes(t, s, rest, nodes);
  }

  lemma InNodes(t: Tree<Node>, s: Step<Node>, rest: seq<Step<Node>>, nodes: set<Node>)
    requires All(t, [s] + rest) == nodes && s.other.Branch? && Apart(t, [s] + rest)
    ensures s.node in nodes && s.other.node in nodes && s.node != s.other.node && Nodes(t) <= nodes
    ensures s.other.left.Branch? ==> s.other.left.node in nodes
    ensures s.other.right.Branch? ==> s.other.right.node in nodes
    ensures t.Branch? ==> t.node in nodes && t.node !in Nodes(s.other)
  {
    assert ([s] + rest)[1..] == rest;
    assert s.other.node in Nodes(s.other);
  }

  // A red sibling.
  method RedLeft(root: Node, nil: Node, temp: Node, w: Node, ghost t: Tree<Node>, ghost s: Step<Node>,
                 ghost rest: seq<Step<Node>>, ghost reds: set<Node>, ghost nodes: set<Node>)
    returns (newRoot: Node)
    requires Missing(t, [s] + rest, reds, nil, root, temp, nodes) && IsBlack(t, reds) && s.isLeft
    requires w == Far(s) && w.color
    modifies nodes`left, nodes`right, nodes`parent, nodes`color
    ensures s.other.Branch?
    ensures var tint := reds - {s.other.node} + {s.node};
      && Missing(t, RedTurned(s) + rest, tint, nil, newRoot, temp, nodes) && IsBlack(t, tint)
      && IsBlack(Nearer(s), tint) && s.node in tint
    ensures Order(t, RedTurned(s) + rest) == Order(t, [s] + rest)
  {
    hide Focus, All, Order, Short, Apart, Nodes, Balanced, BlackHeight;
    MissingReady(t, s, rest, reds, nil, root, temp, nodes);
    w.color := false;
    temp.parent.color := true;
    newRoot := LeftRotate(root, nil, temp.parent, t, Nearer(s), w, Farther(s), rest, nodes);
    ShortRed(t, s, rest, reds, reds - {s.other.node} + {s.node});
    RedTurnedOrder(t, s, rest);
    FocusDown(true, Over(RedTurned(s)[0], t), w, Farther(s), rest, nil, newRoot);
    LinkDown(Over(RedTurned(s)[1], Over(RedTurned(s)[0], t)), rest, nil, newRoot, w);
    FocusDown(true, t, s.node, Nearer(s), [RedTurned(s)[1]] + rest, nil, newRoot);
    LinkDown(Over(RedTurned(s)[0], t), [RedTurned(s)[1]] + rest, nil, newRoot, s.node);
    TwoSteps(RedTurned(s)[0], RedTurned(s)[1], rest);
    StillLinked(t, RedTurned(s) + rest, nil, newRoot, temp);
  }

  // A red sibling.
  method RedRight(root: Node, nil: Node, temp: Node, w: Node, ghost t: Tree<Node>, ghost s: Step<Node>,
                 ghost rest: seq<Step<Node>>, ghost reds: set<Node>, ghost nodes: set<Node>)
    returns (newRoot: Node)
    requires Missing(t, [s] + rest, reds, nil, root, temp, nodes) && IsBlack(t, reds) && !s.isLeft
    requires w == Far(s) && w.color
    modifies nodes`left, nodes`right, nodes`parent, nodes`color
    ensures s.other.Branch?
    ensures var tint := reds - {s.other.node} + {s.node};
      && Missing(t, RedTurned(s) + rest, tint, nil, newRoot, temp, nodes) && IsBlack(t, tint)
      && IsBlack(Nearer(s), tint) && s.node in tint
    ensures Order(t, RedTurned(s) + rest) == Order(t, [s] + rest)
  {
    hide Focus, All, Order, Short, Apart, Nodes, Balanced, BlackHeight;
    MissingReady(t, s, rest, reds, nil, root, temp, nodes);
    w.color := false;
    temp.parent.color := true;
    newRoot := RightRotate(root, nil, temp.parent, Farther(s), w, Nearer(s), t, rest, nodes);
    ShortRed(t, s, rest, reds, reds - {s.other.node} + {s.node});
    RedTurnedOrder(t, s, rest);
    FocusDown(false, Over(RedTurned(s)[0], t), w, Farther(s), rest, nil, newRoot);
    LinkDown(Over(RedTurned(s)[1], Over(RedTurned(s)[0], t)), rest, nil, newRoot, w);
    FocusDown(false, t, s.node, Nearer(s), [RedTurned(s)[1]] + rest, nil, newRoot);
    LinkDown(Over(RedTurned(s)[0], t), [RedTurned(s)[1]] + rest, nil, newRoot, s.node);
    TwoSteps(RedTurned(s)[0], RedTurned(s)[1], rest);
    StillLinked(t, RedTurned(s) + rest, nil, newRoot, temp);
  }

  // A black sibling whose near child is red and far child black.
  method NearLeft(root: Node, nil: Node, temp: Node, w: Node, ghost t: Tree<Node>, ghost s: Step<Node>,
                  ghost rest: seq<Step<Node>>, ghost reds: set<Node>, ghost nodes: set<Node>)
    returns (newRoot: Node)
    requires Missing(t, [s] + rest, reds, nil, root, temp, nodes) && IsBlack(t, reds) && s.isLeft
    requires s.other.Branch? && w == s.other.node && IsBlack(s.other, reds)
    requires IsBlack(Farther(s), reds) && !IsBlack(Nearer(s), reds)
    modifies nodes`left, nodes`right, nodes`parent, nodes`color
    ensures var tint := reds - {Nearer(s).node} + {s.other.node};
      && Missing(t, [NearTurned(s)] + rest, tint, nil, newRoot, temp, nodes) && IsBlack(t, tint)
      && IsBlack(NearTurned(s).other, tint) && !IsBlack(Farther(NearTurned(s)), tint)
    ensures Order(t, [NearTurned(s)] + rest) == Order(t, [s] + rest)
  {
    hide Focus, All, Order, Short, Apart, Nodes, Balanced, BlackHeight;
    MissingReady(t, s, rest, reds, nil, root, temp, nodes);
    w.left.color := false;
    w.color := true;
    newRoot := RightRotate(root, nil, w, s.other.left.left, s.other.left.node, s.other.left.right, s.other.right,
      [Across(t, s)] + rest, nodes);
    ShortNear(t, s, rest, reds, reds - {Nearer(s).node} + {s.other.node});
    NearTurnedOrder(t, s, rest);
    var across := [Across(t, s)] + rest;
    assert across[1..] == rest;
    FocusUp(NearTurned(s).other, across, nil, newRoot, Nearer(s).node);
    FocusDown(true, t, s.node, NearTurned(s).other, rest, nil, newRoot);
    LinkDown(Over(NearTurned(s), t), rest, nil, newRoot, s.node);
    StillLinked(t, [NearTurned(s)] + rest, nil, newRoot, temp);
  }

  // A black sibling whose near child is red and far child black.
  method NearRight(root: Node, nil: Node, temp: Node, w: Node, ghost t: Tree<Node>, ghost s: Step<Node>,
                  ghost rest: seq<Step<Node>>, ghost reds: set<Node>, ghost nodes: set<Node>)
    returns (newRoot: Node)
    requires Missing(t, [s] + rest, reds, nil, root, temp, nodes) && IsBlack(t, reds) && !s.isLeft
    requires s.other.Branch? && w == s.other.node && IsBlack(s.other, reds)
    requires IsBlack(Farther(s), reds) && !IsBlack(Nearer(s), reds)
    modifies nodes`left, nodes`right, nodes`parent, nodes`color
    ensures var tint := reds - {Nearer(s).node} + {s.other.node};
      && Missing(t, [NearTurned(s)] + rest, tint, nil, newRoot, temp, nodes) && IsBlack(t, tint)
      && IsBlack(NearTurned(s).other, tint) && !IsBlack(Farther(NearTurned(s)), tint)
    ensures Order(t, [NearTurned(s)] + rest) == Order(t, [s] + rest)
  {
    hide Focus, All, Order, Short, Apart, Nodes, Balanced, BlackHeight;
    MissingReady(t, s, rest, reds, nil, root, temp, nodes);
    w.right.color := false;
    w.color := true;
    newRoot := LeftRotate(root, nil, w, s.other.left, s.other.right.left, s.other.right.node, s.other.right.right,
      [Across(t, s)] + rest, nodes);
    ShortNear(t, s, rest, reds, reds - {Nearer(s).node} + {s.other.node});
    NearTurnedOrder(t, s, rest);
    var across := [Across(t, s)] + rest;
    assert across[1..] == rest;
    FocusUp(NearTurned(s).other, across, nil, newRoot, Nearer(s).node);
    FocusDown(false, t, s.node, NearTurned(s).other, rest, nil, newRoot);
    LinkDown(Over(NearTurned(s), t), rest, nil, newRoot, s.node);
    StillLinked(t, [NearTurned(s)] + rest, nil, newRoot, temp);
  }

  // A black sibling whose far child is red.
  method FarLeft(root: Node, nil: Node, temp: Node, w: Node, ghost t: Tree<Node>, ghost s: Step<Node>,
                 ghost rest: seq<Step<Node>>, ghost reds: set<Node>, ghost nodes: set<Node>)
    returns (newRoot: Node)
    requires Missing(t, [s] + rest, reds, nil, root, temp, nodes) && IsBlack(t, reds) && s.isLeft
    requires s.other.Branch? && w == s.other.node && IsBlack(s.other, reds) && !IsBlack(Farther(s), reds)
    modifies nodes`left, nodes`right, nodes`parent, nodes`color
    ensures var tint := reds - {s.node, Farther(s).node} + if s.node in reds then {s.other.node} else {};
      && Scene(FarTurned(t, s), rest, tint, nil, newRoot, w, nodes)
      && RedBlack(Plug(FarTurned(t, s), rest), tint)
    ensures Order(FarTurned(t, s), rest) == Order(t, [s] + rest)
  {
    hide Focus, All, Order, Short, Apart, Nodes, Balanced, BlackHeight, RedBlack, Plug;
    MissingReady(t, s, rest, reds, nil, root, temp, nodes);
    w.color := temp.parent.color;
    temp.parent.color := false;
    w.right.color := false;
    newRoot := LeftRotate(root, nil, temp.parent, t, Nearer(s), w, Farther(s), rest, nodes);
    ShortFar(t, s, rest, reds, reds - {s.node, Farther(s).node} + if s.node in reds then {s.other.node} else {});
    FarTurnedOrder(t, s, rest);
  }

  // A black sibling whose far child is red.
  method FarRight(root: Node, nil: Node, temp: Node, w: Node, ghost t: Tree<Node>, ghost s: Step<Node>,
                 ghost rest: seq<Step<Node>>, ghost reds: set<Node>, ghost nodes: set<Node>)
    returns (newRoot: Node)
    requires Missing(t, [s] + rest, reds, nil, root, temp, nodes) && IsBlack(t, reds) && !s.isLeft
    requires s.other.Branch? && w == s.other.node && IsBlack(s.other, reds) && !IsBlack(Farther(s), reds)
    modifies nodes`left, nodes`right, nodes`parent, nodes`color
    ensures var tint := reds - {s.node, Farther(s).node} + if s.node in reds then {s.other.node} else {};
      && Scene(FarTurned(t, s), rest, tint, nil, newRoot, w, nodes)
      && RedBlack(Plug(FarTurned(t, s), rest), tint)
    ensures Order(FarTurned(t, s), rest) == Order(t, [s] + rest)
  {
    hide Focus, All, Order, Short, Apart, Nodes, Balanced, BlackHeight, RedBlack, Plug;
    MissingReady(t, s, rest, reds, nil, root, temp, nodes);
    w.color := temp.parent.color;
    temp.parent.color := false;
    w.left.color := false;
    newRoot := RightRotate(root, nil, temp.parent, Farther(s), w, Nearer(s), t, rest, nodes);
    ShortFar(t, s, rest, reds, reds - {s.node, Farther(s).node} + if s.node in reds then {s.other.node} else {});
    FarTurnedOrder(t, s, rest);
  }

  // A black sibling with black children: it turns red, and the shortage moves up.
  method PassUp(root: Node, nil: Node, temp: Node, w: Node, ghost t: Tree<Node>, ghost s: Step<Node>,
                ghost rest: seq<Step<Node>>, ghost reds: set<Node>, ghost nodes: set<Node>)
    returns (up: Node)
    requires Missing(t, [s] + rest, reds, nil, root, temp, nodes) && IsBlack(t, reds)
    requires s.other.Branch? && w == s.other.node && IsBlack(s.other, reds)
    requires IsBlack(s.other.left, reds) && IsBlack(s.other.right, reds)
    modifies nodes`color
    ensures Missing(Over(s, t), rest, reds + {s.other.node}, nil, root, up, nodes)
    ensures IsBlack(Over(s, t), reds + {s.other.node}) <==> s.node !in reds
    ensures Order(Over(s, t), rest) == Order(t, [s] + rest)
  {
    hide Focus, All, Order, Short, Apart, Nodes, Balanced, BlackHeight;
    MissingReady(t, s, rest, reds, nil, root, temp, nodes);
    w.color := true;
    up := temp.parent;
    ShortAbove(t, s, rest, reds, reds + {s.other.node});
    OverOrder(t, s, rest);
    if rest != [] {
      StillLinked(Over(s, t), rest, nil, root, up);
    }
  }

  function Measure(way: seq<Step<Node>>, t: Tree<Node>, reds: set<Node>): nat {
    2 * |way| + if IsBlack(t, reds) then 1 else 0
  }

  lemma WholeMissing(t: Tree<Node>, path: seq<Step<Node>>, reds: set<Node>, nil: Node, root: Node, p: Node,
                     nodes: set<Node>)
    requires Scene(t, path, reds, nil, root, p, nodes) && RedBlack(Plug(t, path), reds)
    ensures Missing(Plug(t, path), [], reds, nil, root, root, nodes) && Measure([], Plug(t, path), reds) == 1
    ensures Order(Plug(t, path), []) == Order(t, path)
  {
    hide Focus, Short, RedBlack;
    WholeScene(t, path, reds, nil, root, p, nodes);
    NothingShort(Plug(t, path), reds);
  }

  // The left branch of the loop.
  method LowerLeft(root: Node, nil: Node, at: Node, ghost t: Tree<Node>, ghost path: seq<Step<Node>>,
                   ghost reds: set<Node>, ghost nodes: set<Node>)
    returns (newRoot: Node, temp: Node, ghost now: Tree<Node>, ghost way: seq<Step<Node>>, ghost tint: set<Node>)
    requires Missing(t, path, reds, nil, root, at, nodes) && IsBlack(t, reds) && path != [] && path[0].isLeft
    modifies nodes`left, nodes`right, nodes`parent, nodes`color
    ensures Missing(now, way, tint, nil, newRoot, temp, nodes)
    ensures Order(now, way) == Order(t, path) && Measure(way, now, tint) < Measure(path, t, reds)
  {
    ghost var s, rest := path[0], path[1..];
    assert path == [s] + rest;
    hide Missing, Order, All, Nodes, RedBlack, Plug, Apart, Focus;
    MissingReady(t, s, rest, reds, nil, root, at, nodes);
    newRoot, temp, tint := root, at, reds;
    var w: Node := temp.parent.right;
    if w.color {
      newRoot := RedLeft(newRoot, nil, temp, w, t, s, rest, tint, nodes);
      TwoSteps(RedTurned(s)[0], RedTurned(s)[1], rest);
      tint := tint - {s.other.node} + {s.node};
      rest, s := [RedTurned(s)[1]] + rest, RedTurned(s)[0];
      MissingReady(t, s, rest, tint, nil, newRoot, temp, nodes);
      w := temp.parent.right;
    }
    if !w.left.color && !w.right.color {
      temp := PassUp(newRoot, nil, temp, w, t, s, rest, tint, nodes);
      now, way, tint := Over(s, t), rest, tint + {s.other.node};
    } else {
      if !w.right.color {
        newRoot := NearLeft(newRoot, nil, temp, w, t, s, rest, tint, nodes);
        tint := tint - {Nearer(s).node} + {s.other.node};
        s := NearTurned(s);
        MissingReady(t, s, rest, tint, nil, newRoot, temp, nodes);
        w := temp.parent.right;
      }
      newRoot := FarLeft(newRoot, nil, temp, w, t, s, rest, tint, nodes);
      tint := tint - {s.node, Farther(s).node} + if s.node in tint then {s.other.node} else {};
      WholeMissing(FarTurned(t, s), rest, tint, nil, newRoot, w, nodes);
      now, way, temp := Plug(FarTurned(t, s), rest), [], newRoot;
    }
  }

  // The right branch of the loop.
  method LowerRight(root: Node, nil: Node, at: Node, ghost t: Tree<Node>, ghost path: seq<Step<Node>>,
                   ghost reds: set<Node>, ghost nodes: set<Node>)
    returns (newRoot: Node, temp: Node, ghost now: Tree<Node>, ghost way: seq<Step<Node>>, ghost tint: set<Node>)
    requires Missing(t, path, reds, nil, root, at, nodes) && IsBlack(t, reds) && path != [] && !path[0].isLeft
    modifies nodes`left, nodes`right, nodes`parent, nodes`color
    ensures Missing(now, way, tint, nil, newRoot, temp, nodes)
    ensures Order(now, way) == Order(t, path) && Measure(way, now, tint) < Measure(path, t, reds)
  {
    ghost var s, rest := path[0], path[1..];
    assert path == [s] + rest;
    hide Missing, Order, All, Nodes, RedBlack, Plug, Apart, Focus;
    MissingReady(t, s, rest, reds, nil, root, at, nodes);
    newRoot, temp, tint := root, at, reds;
    var w: Node := temp.parent.left;
    if w.color {
      newRoot := RedRight(newRoot, nil, temp, w, t, s, rest, tint, nodes);
      TwoSteps(RedTurned(s)[0], RedTurned(s)[1], rest);
      tint := tint - {s.other.node} + {s.node};
      rest, s := [RedTurned(s)[1]] + rest, RedTurned(s)[0];
      MissingReady(t, s, rest, tint, nil, newRoot, temp, nodes);
      w := temp.parent.left;
    }
    if !w.left.color && !w.right.color {
      temp := PassUp(newRoot, nil, temp, w, t, s, rest, tint, nodes);
      now, way, tint := Over(s, t), rest, tint + {s.other.node};
    } else {
      if !w.left.color {
        newRoot := NearRight(newRoot, nil, temp, w, t, s, rest, tint, nodes);
        tint := tint - {Nearer(s).node} + {s.other.node};
        s := NearTurned(s);
        MissingReady(t, s, rest, tint, nil, newRoot, temp, nodes);
        w := temp.parent.left;
      }
      newRoot := FarRight(newRoot, nil, temp, w, t, s, rest, tint, nodes);
      tint := tint - {s.node, Farther(s).node} + if s.node in tint then {s.other.node} else {};
      WholeMissing(FarTurned(t, s), rest, tint, nil, newRoot, w, nodes);
      now, way, temp := Plug(FarTurned(t, s), rest), [], newRoot;
    }
  }

  // What the loop's tests see.
  lemma LowerReady(t: Tree<Node>, path: seq<Step<Node>>, reds: set<Node>, nil: Node, root: Node, temp: Node,
                   nodes: set<Node>)
    requires Missing(t, path, reds, nil, root, temp, nodes)
    ensures (temp == root <==> path == []) && (temp.color <==> !IsBlack(t, reds)) && Apart(t, path)
    ensures temp == TopOf(t, nil) && (t.Branch? ==> t.node in nodes)
    ensures path != [] ==> temp.parent == path[0].node
    ensures path != [] && IsBlack(t, reds) ==> (path[0].isLeft <==> temp == path[0].node.left)
  {
    HoldsTop(t, nil, temp);
    RootOnPath(path, nil, root, temp);
    if path != [] && IsBlack(t, reds) {
      assert path == [path[0]] + path[1..];
      MissingReady(t, path[0], path[1..], reds, nil, root, temp, nodes);
    }
  }

  // The loop of rbtree_delete.
  method Fixup(root: Node, nil: Node, at: Node, ghost t: Tree<Node>, ghost path: seq<Step<Node>>,
               ghost reds: set<Node>, ghost nodes: set<Node>)
    returns (newRoot: Node, ghost whole: Tree<Node>, ghost tint: set<Node>)
    requires Missing(t, path, reds, nil, root, at, nodes)
    modifies nodes`left, nodes`right, nodes`parent, nodes`color, nil`color
    ensures Scene(whole, [], tint, nil, newRoot, newRoot, nodes) && RedBlack(whole, tint)
    ensures InOrder(whole) == Order(t, path)
  {
    hide Focus, Short, Order, InOrder, RedBlack, Plug, All, Apart, TopOf;
    newRoot := root;
    var temp := at;
    ghost var now, way;
    now, way, tint := t, path, reds;
    LowerReady(now, way, tint, nil, newRoot, temp, nodes);
    while temp != newRoot && !temp.color
      invariant Missing(now, way, tint, nil, newRoot, temp, nodes)
      invariant Order(now, way) == Order(t, path)
      decreases Measure(way, now, tint)
    {
      LowerReady(now, way, tint, nil, newRoot, temp, nodes);
      if temp == temp.parent.left {
        newRoot, temp, now, way, tint := LowerLeft(newRoot, nil, temp, now, way, tint, nodes);
      } else {
        newRoot, temp, now, way, tint := LowerRight(newRoot, nil, temp, now, way, tint, nodes);
      }
    }
    LowerReady(now, way, tint, nil, newRoot, temp, nodes);
    ShortEnds(now, way, tint);
    Blackened(now, nil, temp);
    temp.color := false;
    tint := tint - TopSet(now);
    whole := Plug(now, way);
    WholeScene(now, way, tint, nil, newRoot, temp, nodes);
  }

  lemma Blackened(t: Tree<Node>, nil: Node, temp: Node)
    requires temp == TopOf(t, nil)
    ensures if t.Leaf? then temp == nil && TopSet(t) == {} else temp == t.node && TopSet(t) == {temp}
  {
  }

  // ------------------------------------------------------------------ finding nodes

  // Where a node of the tree is.
  lemma {:induction false} Locate(t: Tree<Node>, path: seq<Step<Node>>, nil: Node, root: Node, p: Node?, node: Node)
    returns (sub: Tree<Node>, way: seq<Step<Node>>)
    requires Focus(t, path, nil, root, p) && node in Nodes(t)
    ensures Focus(sub, way, nil, root, node) && sub.Branch? && sub.node == node
    ensures Plug(sub, way) == Plug(t, path) && All(sub, way) == All(t, path)
    decreases t
  {
    hide Focus, All, Plug;
    NotNil(t, path, nil, root, p);
    if t.node == node {
      sub, way := t, path;
    } else {
      var isLeft := node in Nodes(t.left);
      var child, other := if isLeft then t.left else t.right, if isLeft then t.right else t.left;
      FocusDown(isLeft, child, t.node, other, path, nil, root);
      OverOrder(child, Step(isLeft, t.node, other), path);
      PlugOver(child, Step(isLeft, t.node, other), path);
      sub, way := Locate(child, [Step(isLeft, t.node, other)] + path, nil, root,
        if isLeft then t.node.left else t.node.right, node);
    }
  }

  lemma PlugOver(t: Tree<Node>, s: Step<Node>, path: seq<Step<Node>>)
    ensures Plug(t, [s] + path) == Plug(Over(s, t), path)
  {
    assert ([s] + path)[1..] == path;
  }

  lemma {:induction false} LeftsBefore(lefts: seq<Step<Node>>)
    requires forall i :: 0 <= i < |lefts| ==> lefts[i].isLeft
    ensures Before(lefts) == []
  {
    if lefts != [] {
      LeftsBefore(lefts[1..]);
    }
  }

  // rbtree_min: the first node in order.
  method Min(at: Node, nil: Node, ghost t: Tree<Node>)
    returns (node: Node, ghost sub: Tree<Node>, ghost lefts: seq<Step<Node>>)
    requires Focus(t, [], nil, at, at) && t.Branch?
    ensures Focus(sub, lefts, nil, at, node) && sub.Branch? && sub.left.Leaf? && node == sub.node
    ensures Plug(sub, lefts) == t && forall i :: 0 <= i < |lefts| ==> lefts[i].isLeft
    ensures InOrder(t) != [] && InOrder(t)[0] == node
  {
    hide Focus, Plug, InOrder;
    node := at;
    sub, lefts := t, [];
    LinkDown(sub, lefts, nil, at, node);
    NotNil(sub, lefts, nil, at, node);
    PlugNothing(t);
    while node.left != nil
      invariant Focus(sub, lefts, nil, at, node) && sub.Branch? && node == sub.node && node.left == TopOf(sub.left, nil)
      invariant Plug(sub, lefts) == t && forall i :: 0 <= i < |lefts| ==> lefts[i].isLeft
      decreases sub
    {
      FocusDown(true, sub.left, node, sub.right, lefts, nil, at);
      PlugOver(sub.left, Step(true, node, sub.right), lefts);
      node := node.left;
      sub, lefts := sub.left, [Step(true, sub.node, sub.right)] + lefts;
      LinkDown(sub, lefts, nil, at, node);
    }
    NoneLeft(sub, lefts, nil, at, node);
    FirstInOrder(sub, lefts);
  }

  lemma PlugNothing(t: Tree<Node>)
    ensures Plug(t, []) == t
  {
  }

  lemma NoneLeft(t: Tree<Node>, path: seq<Step<Node>>, nil: Node, root: Node, p: Node)
    requires Focus(t, path, nil, root, p) && t.Branch? && TopOf(t.left, nil) == nil
    ensures t.left.Leaf?
  {
    assert Nodes(t) == Nodes(t.left) + {t.node} + Nodes(t.right) && Proper(t.left);
    Top(t.left, nil);
  }

  lemma FirstInOrder(sub: Tree<Node>, lefts: seq<Step<Node>>)
    requires sub.Branch? && sub.left.Leaf? && forall i :: 0 <= i < |lefts| ==> lefts[i].isLeft
    ensures InOrder(Plug(sub, lefts)) == [sub.node] + InOrder(sub.right) + After(lefts)
    ensures InOrder(Plug(sub.right, lefts)) == InOrder(sub.right) + After(lefts)
  {
    hide *;
    LeftsBefore(lefts);
    OrderOfWhole(sub, lefts);
    OrderOfWhole(sub.right, lefts);
    OrderAfter(sub, lefts);
    OrderAfter(sub.right, lefts);
    LeftmostOrder(sub);
  }

  lemma OrderAfter(t: Tree<Node>, lefts: seq<Step<Node>>)
    requires Before(lefts) == []
    ensures Order(t, lefts) == InOrder(t) + After(lefts)
  {
    assert [] + InOrder(t) == InOrder(t);
  }

  lemma LeftmostOrder(t: Tree<Node>)
    requires t.Branch? && t.left.Leaf?
    ensures InOrder(t) == [t.node] + InOrder(t.right)
  {
  }

  // ------------------------------------------------------------------ taking a node out of its place

  lemma DetachReady(t: Tree<Node>, c: Tree<Node>, path: seq<Step<Node>>, nil: Node, root: Node, node: Node, temp: Node)
    requires Focus(t, path, nil, root, node) && OnlyChild(t, c) && path != [] && temp == TopOf(c, nil)
    ensures var s, rest := path[0], path[1..];
      && node == t.node && node.parent == s.node && (s.isLeft <==> node == s.node.left)
      && Holds(c, nil, temp) && Holds(s.other, nil, Far(s)) && Under(s.other, s.node)
      && (rest != [] ==> s.node.parent == path[1].node) && HoldsPath(rest, nil, root, s.node)
      && s.node !in Nodes(s.other) && s.node !in PathNodes(rest) && Inner(s.other) <= Nodes(s.other)
      && s.node !in Nodes(c) && temp !in Inner(c) && Inner(c) <= Nodes(c)
      && temp !in Nodes(s.other) && temp !in PathNodes(rest) && temp != s.node
      && Apart(c, path) && nil !in All(c, path)
  {
    View(t, path, nil, root, node);
    OpenPath(path, nil, root, node);
    ApartWithout(t, c, path);
    Children(t, nil);
    HoldsTop(t, nil, node);
    ProperTop(t, c);
    assert temp in Nodes(c) + {nil};
  }

  lemma ProperTop(t: Tree<Node>, c: Tree<Node>)
    requires Proper(t) && OnlyChild(t, c)
    ensures Proper(c) && (c.Branch? ==> c.node in Nodes(c) && c.node !in Inner(c)) && Inner(c) <= Nodes(c)
  {
  }

  // The node has no other child than temp, and is not the root.
  method Detach(root: Node, nil: Node, node: Node, temp: Node, ghost t: Tree<Node>, ghost c: Tree<Node>,
                ghost path: seq<Step<Node>>)
    requires Focus(t, path, nil, root, node) && OnlyChild(t, c) && path != [] && temp == TopOf(c, nil)
    modifies path[0].node`left, path[0].node`right, temp`parent
    ensures Focus(c, path, nil, root, temp) && Linked(path, temp)
  {
    hide *;
    DetachReady(t, c, path, nil, root, node, temp);
    Sides(path[0]);
    if node == node.parent.left {
      node.parent.left := temp;
    } else {
      node.parent.right := temp;
    }
    temp.parent := node.parent;
    Sides(path[0]);
    ClosePath(path, nil, root, temp);
    Detached(c, path, nil, root, temp);
  }

  lemma Detached(c: Tree<Node>, path: seq<Step<Node>>, nil: Node, root: Node, temp: Node)
    requires Holds(c, nil, temp) && HoldsPath(path, nil, root, temp) && path != [] && temp.parent == path[0].node
    requires Apart(c, path) && nil !in All(c, path)
    ensures Focus(c, path, nil, root, temp) && Linked(path, temp)
  {
    HoldsTop(c, nil, temp);
  }

  // ------------------------------------------------------------------ the successor takes the node's place

  // A node with its surroundings, but for the parent links of its children.
  ghost predicate Site(l: Tree<Node>, n: Node, r: Tree<Node>, path: seq<Step<Node>>, nil: Node, root: Node)
    reads n, Nodes(l), Nodes(r), PathNodes(path)
  {
    && Holds(l, nil, n.left) && Holds(r, nil, n.right) && HoldsPath(path, nil, root, n)
    && (n == root <==> path == [])
    && (path != [] ==>
          path[0].node in PathNodes(path) && n.parent == path[0].node && (path[0].isLeft <==> n == path[0].node.left))
  }

  lemma SiteOf(l: Tree<Node>, n: Node, r: Tree<Node>, path: seq<Step<Node>>, nil: Node, root: Node, nodes: set<Node>)
    requires Focus(Branch(l, n, r), path, nil, root, n) && All(Branch(l, n, r), path) == nodes
    ensures Site(l, n, r, path, nil, root) && Under(r, n)
    ensures Focus(r, [], nil, n.right, n.right) && n.left == TopOf(l, nil) && n.right == TopOf(r, nil)
    ensures n in nodes && Nodes(l) <= nodes && Nodes(r) <= nodes && PathNodes(path) <= nodes && nil !in nodes
    ensures n !in Nodes(l) && n !in Nodes(r) && n !in PathNodes(path)
    ensures Nodes(l) !! Nodes(r) && Nodes(r) !! PathNodes(path) && Inner(l) <= Nodes(l) && Inner(r) <= Nodes(r)
  {
    View(Branch(l, n, r), path, nil, root, n);
    Children(Branch(l, n, r), nil);
    AllOfWhole(r);
    RootOnly(nil, n.right);
    Alone(r, nil, n.right);
  }

  lemma Alone(t: Tree<Node>, nil: Node, p: Node)
    requires Holds(t, nil, p) && Proper(t) && nil !in Nodes(t)
    ensures Focus(t, [], nil, p, p)
  {
    AllOfWhole(t);
    RootOnly(nil, p);
    var path: seq<Step<Node>> := [];
    assert PathNodes(path) == {} && ProperPath(path);
  }

  lemma WholeHolds(t: Tree<Node>, path: seq<Step<Node>>, nil: Node, root: Node, p: Node?)
    requires Focus(t, path, nil, root, p)
    ensures Holds(Plug(t, path), nil, root)
  {
    FocusWhole(t, path, nil, root, p);
  }

  lemma HeirPlace(sub: Tree<Node>, lefts: seq<Step<Node>>, nil: Node, top: Node, subst: Node, n: Node)
    requires Focus(sub, lefts, nil, top, subst) && Under(Plug(sub, lefts), n) && n !in Nodes(Plug(sub, lefts))
    requires sub.Branch?
    ensures subst.parent == n <==> lefts == []
    ensures lefts == [] ==> subst == top && sub == Plug(sub, lefts)
    ensures lefts != [] ==> lefts[0].node in Nodes(Plug(sub, lefts)) && subst.parent == lefts[0].node
    ensures subst in Nodes(Plug(sub, lefts))
  {
    ApartWhole(sub, lefts);
    View(sub, lefts, nil, top, subst);
  }

  // The successor leaves its place; temp moves up.
  method CutHeir(nil: Node, node: Node, subst: Node, temp: Node, ghost root: Node, ghost l: Tree<Node>,
                 ghost sub: Tree<Node>, ghost lefts: seq<Step<Node>>, ghost path: seq<Step<Node>>,
                 ghost nodes: set<Node>)
    requires Focus(Branch(l, node, Plug(sub, lefts)), path, nil, root, node)
    requires All(Branch(l, node, Plug(sub, lefts)), path) == nodes
    requires sub.Branch? && node.right != null
    requires Focus(sub, lefts, nil, node.right, subst) && OnlyChild(sub, sub.right) && temp == TopOf(sub.right, nil)
    modifies nodes`left, nodes`right, temp`parent
    ensures Site(l, node, Plug(sub.right, lefts), path, nil, root)
    ensures temp.parent == if lefts == [] then subst else lefts[0].node
  {
    hide Focus, Holds, HoldsPath, Under, Nodes, PathNodes, All, TopOf, Inner, Plug, OnlyChild, Apart, Proper;
    ghost var r := Plug(sub, lefts);
    SiteOf(l, node, r, path, nil, root, nodes);
    HeirPlace(sub, lefts, nil, node.right, subst, node);
    HeirBelow(l, node, sub, lefts, path, nil, root, subst, temp);
    if subst.parent == node {
      // subst is the right child, as it came from there
      subst.parent.right := temp;
      temp.parent := subst;
    } else {
      Detach(node.right, nil, subst, temp, sub, sub.right, lefts);
      WholeHolds(sub.right, lefts, nil, node.right, temp);
    }
  }

  lemma HeirBelow(l: Tree<Node>, node: Node, sub: Tree<Node>, lefts: seq<Step<Node>>, path: seq<Step<Node>>, nil: Node,
                  root: Node, subst: Node, temp: Node)
    requires Focus(Branch(l, node, Plug(sub, lefts)), path, nil, root, node)
    requires sub.Branch? && node.right != null
    requires Focus(sub, lefts, nil, node.right, subst) && OnlyChild(sub, sub.right) && temp == TopOf(sub.right, nil)
    ensures temp !in Nodes(l) && temp !in PathNodes(path) && temp != node && temp !in Inner(sub.right)
    ensures Inner(sub.right) <= Nodes(sub.right) <= Nodes(Plug(sub, lefts)) && Holds(sub.right, nil, temp)
    ensures TopOf(l, nil) != subst && (lefts == [] ==> Plug(sub.right, lefts) == sub.right)
  {
    LinkDown(Branch(l, node, Plug(sub, lefts)), path, nil, root, node);
    ApartWhole(sub, lefts);
    ProperTop(sub, sub.right);
    NotNil(sub, lefts, nil, node.right, subst);
    Children(sub, nil);
    HeirSides(l, node, Plug(sub, lefts), path, nil);
    assert Nodes(sub) == Nodes(sub.left) + {sub.node} + Nodes(sub.right);
  }

  lemma HeirSides(l: Tree<Node>, node: Node, r: Tree<Node>, path: seq<Step<Node>>, nil: Node)
    requires Apart(Branch(l, node, r), path) && nil !in All(Branch(l, node, r), path)
    ensures {node} + Nodes(l) + PathNodes(path) !! Nodes(r) + {nil}
    ensures TopOf(l, nil) in Nodes(l) + {nil}
  {
    assert Nodes(Branch(l, node, r)) == Nodes(l) + {node} + Nodes(r);
  }

  // The successor takes over the node's links and colour.
  method TakePlace(root: Node, nil: Node, node: Node, subst: Node, ghost l: Tree<Node>, ghost r: Tree<Node>,
                   ghost path: seq<Step<Node>>, ghost nodes: set<Node>)
    returns (newRoot: Node)
    requires Site(l, node, r, path, nil, root) && node !in All(Branch(l, subst, r), path)
    requires Apart(Branch(l, subst, r), path) && All(Branch(l, subst, r), path) <= nodes && node in nodes
      && nil !in nodes
    modifies nodes`left, nodes`right, nodes`parent, subst`color
    ensures Focus(Branch(l, subst, r), path, nil, newRoot, subst) && subst.color == node.color
  {
    hide Focus, Holds, HoldsPath, Under, Nodes, PathNodes, All, TopOf, Inner, Plug, Apart, Proper, Upward, ProperPath;
    PlaceReady(l, subst, r, path, nil, node, nodes);
    subst.left := node.left;
    subst.right := node.right;
    subst.parent := node.parent;
    subst.color := node.color;
    newRoot := Replace(root, node, subst, path, nil);
    Adopt(newRoot, nil, node, subst, l, r, path, nodes);
  }

  // Its children learn of their new parent.
  method Adopt(root: Node, nil: Node, ghost node: Node, subst: Node, ghost l: Tree<Node>, ghost r: Tree<Node>,
               ghost path: seq<Step<Node>>, ghost nodes: set<Node>)
    requires Holds(l, nil, subst.left) && Holds(r, nil, subst.right) && HoldsPath(path, nil, root, subst)
    requires path != [] ==> subst.parent == path[0].node
    requires Apart(Branch(l, subst, r), path) && All(Branch(l, subst, r), path) <= nodes && nil !in nodes
    requires node !in All(Branch(l, subst, r), path)
    modifies nodes`parent
    ensures Focus(Branch(l, subst, r), path, nil, root, subst)
  {
    hide Focus, Holds, HoldsPath, Under, Nodes, PathNodes, All, TopOf, Inner, Plug, Apart, Proper, Upward, ProperPath;
    PlaceReady(l, subst, r, path, nil, node, nodes);
    HoldsTop(l, nil, subst.left);
    HoldsTop(r, nil, subst.right);
    if subst.left != nil {
      subst.left.parent := subst;
    }
    if subst.right != nil {
      subst.right.parent := subst;
    }
    Placed(l, subst, r, path, nil, root);
  }

  lemma Placed(l: Tree<Node>, n: Node, r: Tree<Node>, path: seq<Step<Node>>, nil: Node, root: Node)
    requires Holds(l, nil, n.left) && Holds(r, nil, n.right) && HoldsPath(path, nil, root, n)
    requires (l.Branch? ==> l.node.parent == n) && (r.Branch? ==> r.node.parent == n)
    requires path != [] ==> n.parent == path[0].node
    requires Apart(Branch(l, n, r), path) && nil !in All(Branch(l, n, r), path)
    ensures Focus(Branch(l, n, r), path, nil, root, n)
  {
    hide *;
    UnderTop(l, n);
    UnderTop(r, n);
    Parent(l, n, r, nil);
    if path != [] {
      UnderTop(Branch(l, n, r), path[0].node);
    }
    Refocus(Branch(l, n, r), path, nil, root, n);
  }

  // All of s is among the nodes and none of it among those about to change.
  ghost predicate Clear(s: set<Node>, nodes: set<Node>, hands: set<Node>) {
    forall o :: o in s ==> o in nodes && o !in hands
  }

  ghost predicate TopFacts(t: Tree<Node>, nil: Node) {
    && Inner(t) <= Nodes(t)
    && if t.Leaf? then TopOf(t, nil) == nil
       else TopOf(t, nil) == t.node && t.node in Nodes(t) && t.node !in Inner(t)
  }

  lemma PlaceReady(l: Tree<Node>, n: Node, r: Tree<Node>, path: seq<Step<Node>>, nil: Node, node: Node,
                   nodes: set<Node>)
    requires Apart(Branch(l, n, r), path) && All(Branch(l, n, r), path) <= nodes && nil !in nodes
    requires node !in All(Branch(l, n, r), path)
    ensures ProperPath(path) && Upward(path) <= PathNodes(path) && n in nodes && n != node
    ensures Clear(Nodes(l), nodes, {n, node, TopOf(r, nil)} + Upward(path))
    ensures Clear(Nodes(r), nodes, {n, node, TopOf(l, nil)} + Upward(path))
    ensures Clear(PathNodes(path), nodes, {n, node, TopOf(l, nil), TopOf(r, nil)})
    ensures TopFacts(l, nil) && TopFacts(r, nil)
  {
    assert n in Nodes(Branch(l, n, r)) && Proper(l) && Proper(r);
    PathTop(path);
    LeftClear(l, n, r, path, nil, node, nodes);
    RightClear(l, n, r, path, nil, node, nodes);
    PathClear(l, n, r, path, nil, node, nodes);
  }

  lemma LeftClear(l: Tree<Node>, n: Node, r: Tree<Node>, path: seq<Step<Node>>, nil: Node, node: Node, nodes: set<Node>)
    requires Apart(Branch(l, n, r), path) && All(Branch(l, n, r), path) <= nodes && nil !in nodes
    requires node !in All(Branch(l, n, r), path)
    ensures Clear(Nodes(l), nodes, {n, node, TopOf(r, nil)} + Upward(path))
  {
    forall o | o in Nodes(l)
      ensures o in nodes && o !in {n, node, TopOf(r, nil)} + Upward(path)
    {
      PlaceMember(l, n, r, path, nodes, node, nil, o);
    }
  }

  lemma RightClear(l: Tree<Node>, n: Node, r: Tree<Node>, path: seq<Step<Node>>, nil: Node, node: Node,
                   nodes: set<Node>)
    requires Apart(Branch(l, n, r), path) && All(Branch(l, n, r), path) <= nodes && nil !in nodes
    requires node !in All(Branch(l, n, r), path)
    ensures Clear(Nodes(r), nodes, {n, node, TopOf(l, nil)} + Upward(path))
  {
    forall o | o in Nodes(r)
      ensures o in nodes && o !in {n, node, TopOf(l, nil)} + Upward(path)
    {
      PlaceMember(l, n, r, path, nodes, node, nil, o);
    }
  }

  lemma PathClear(l: Tree<Node>, n: Node, r: Tree<Node>, path: seq<Step<Node>>, nil: Node, node: Node, nodes: set<Node>)
    requires Apart(Branch(l, n, r), path) && All(Branch(l, n, r), path) <= nodes && nil !in nodes
    requires node !in All(Branch(l, n, r), path)
    ensures Clear(PathNodes(path), nodes, {n, node, TopOf(l, nil), TopOf(r, nil)})
  {
    forall o | o in PathNodes(path)
      ensures o in nodes && o !in {n, node, TopOf(l, nil), TopOf(r, nil)}
    {
      PlaceMember(l, n, r, path, nodes, node, nil, o);
    }
  }

  lemma PlaceMember(l: Tree<Node>, n: Node, r: Tree<Node>, path: seq<Step<Node>>, nodes: set<Node>, node: Node,
                    nil: Node, o: Node)
    requires Apart(Branch(l, n, r), path) && All(Branch(l, n, r), path) <= nodes && node !in All(Branch(l, n, r), path)
    requires o in Nodes(l) || o in Nodes(r) || o in PathNodes(path)
    requires nil !in nodes
    ensures o in nodes && o != n && o != node
    ensures o in Nodes(l) ==> o !in Upward(path) && o != TopOf(r, nil)
    ensures o in Nodes(r) ==> o !in Upward(path) && o != TopOf(l, nil)
    ensures o in PathNodes(path) ==> o != TopOf(l, nil) && o != TopOf(r, nil)
  {
    assert Proper(l) && Proper(r);
    assert o in All(Branch(l, n, r), path);
  }

  // From the heir's new place back down to where it left.
  lemma {:induction false} FocusDownAll(t: Tree<Node>, a: seq<Step<Node>>, b: seq<Step<Node>>, nil: Node, root: Node)
    requires Focus(Plug(t, a), b, nil, root, TopOf(Plug(t, a), nil))
    ensures Focus(t, a + b, nil, root, TopOf(t, nil))
    decreases |a|
  {
    if a == [] {
      assert a + b == b;
    } else {
      var s, more := a[0], a[1..];
      hide Focus, TopOf;
      assert a + b == [s] + (more + b);
      FocusDownAll(Over(s, t), more, b, nil, root);
      TopOver(s, t, nil);
      FocusDown(s.isLeft, t, s.node, s.other, more + b, nil, root);
      LinkDown(Over(s, t), more + b, nil, root, s.node);
    }
  }

  lemma TopOver(s: Step<Node>, t: Tree<Node>, nil: Node)
    ensures TopOf(Over(s, t), nil) == s.node
  {
  }

  // ------------------------------------------------------------------ rbtree_delete

  // The root has at most one child: the child becomes the root. Its parent link stays as it was.
  lemma NewRoot(t: Tree<Node>, c: Tree<Node>, nil: Node, root: Node, temp: Node, reds: set<Node>, nodes: set<Node>)
    requires Focus(t, [], nil, root, root) && OnlyChild(t, c) && All(t, []) == nodes && RedBlack(t, reds)
    requires temp == TopOf(c, nil)
    ensures Focus(c, [], nil, temp, temp) && All(c, []) == nodes - {t.node} && t.node in nodes
    ensures RedBlack(c, reds - {t.node} - TopSet(c))
    ensures if c.Leaf? then temp == nil && TopSet(c) == {} else TopSet(c) == {temp} && temp in nodes
  {
    AllOfWhole(t);
    AllOfWhole(c);
    RootTaken(t, c, reds);
    HoldsTop(t, nil, root);
    Children(t, nil);
    Alone(c, nil, temp);
  }

  // The scratch links of a removed node.
  method Clear0(node: Node)
    modifies node`left, node`right, node`parent, node`key
    ensures node.left == node.right == node.parent == null && node.key == 0
  {
    node.left := null;
    node.right := null;
    node.parent := null;
    node.key := 0;
  }

  // The last part: the removed node was red, or the way up is mended.
  method Settle(root: Node, nil: Node, temp: Node, red: bool, ghost c: Tree<Node>, ghost path: seq<Step<Node>>,
                ghost reds: set<Node>, ghost nodes: set<Node>)
    returns (newRoot: Node, ghost whole: Tree<Node>, ghost tint: set<Node>)
    requires Scene(c, path, reds, nil, root, temp, nodes) && Linked(path, temp)
    requires if red then Balanced(c, reds) && IsBlack(c, reds) && BalancedPath(path, BlackHeight(c, reds), reds)
             else Short(c, path, reds)
    modifies nodes`left, nodes`right, nodes`parent, nodes`color, nil`color
    ensures Scene(whole, [], tint, nil, newRoot, newRoot, nodes) && RedBlack(whole, tint)
    ensures InOrder(whole) == Order(c, path)
  {
    if red {
      hide Focus, Short, Order, InOrder, Plug, All, Balanced, BalancedPath, BlackHeight;
      newRoot, whole, tint := root, Plug(c, path), reds;
      BalancedWhole(c, path, reds);
      WholeScene(c, path, reds, nil, root, temp, nodes);
    } else {
      hide Focus, Short, Order, InOrder, Plug, All, Balanced, BalancedPath, BlackHeight, RedBlack;
      newRoot, whole, tint := Fixup(root, nil, temp, c, path, reds, nodes);
    }
  }

  // What rbtree_delete knows of the node it is given.
  lemma DeleteReady(shape: Tree<Node>, reds: set<Node>, nil: Node, root: Node, node: Node, nodes: set<Node>)
    returns (t: Tree<Node>, path: seq<Step<Node>>)
    requires Scene(shape, [], reds, nil, root, root, nodes) && RedBlack(shape, reds) && node in nodes
    ensures Focus(t, path, nil, root, node) && All(t, path) == nodes && t.Branch? && t.node == node && Apart(t, path)
    ensures Plug(t, path) == shape && Order(t, path) == InOrder(shape) && node != nil && nil !in nodes
    ensures Balanced(t, reds) && BalancedPath(path, BlackHeight(t, reds), reds)
    ensures path == [] <==> node == root
    ensures node.left == TopOf(t.left, nil) && node.right == TopOf(t.right, nil)
    ensures (TopOf(t.left, nil) == nil <==> t.left.Leaf?) && (TopOf(t.right, nil) == nil <==> t.right.Leaf?)
  {
    AllOfWhole(shape);
    t, path := Locate(shape, [], nil, root, root, node);
    PlugNothing(shape);
    OrderOfWhole(t, path);
    BalancedParts(t, path, reds);
    View(t, path, nil, root, node);
    LinkDown(t, path, nil, root, node);
    BranchTops(t, nil);
  }

  lemma BranchTops(t: Tree<Node>, nil: Node)
    requires t.Branch? && nil !in Nodes(t)
    ensures (TopOf(t.left, nil) == nil <==> t.left.Leaf?) && (TopOf(t.right, nil) == nil <==> t.right.Leaf?)
  {
    if t.left.Branch? {
      TopInside(t.left);
    }
    if t.right.Branch? {
      TopInside(t.right);
    }
  }

  // The node has at most one child and is not the root.
  method DeleteOne(root: Node, nil: Node, node: Node, temp: Node, ghost t: Tree<Node>, ghost c: Tree<Node>,
                   ghost path: seq<Step<Node>>, ghost reds: set<Node>, ghost nodes: set<Node>)
    returns (newRoot: Node, ghost whole: Tree<Node>, ghost tint: set<Node>)
    requires Scene(t, path, reds, nil, root, node, nodes) && OnlyChild(t, c) && path != [] && temp == TopOf(c, nil)
    requires Balanced(t, reds) && BalancedPath(path, BlackHeight(t, reds), reds) && Apart(t, path) && t.node == node
    requires node in nodes
    modifies nodes`left, nodes`right, nodes`parent, nodes`color, nil`parent, nil`color, node`key
    ensures Scene(whole, [], tint, nil, newRoot, newRoot, nodes - {node}) && RedBlack(whole, tint)
    ensures InOrder(whole) == Order(c, path)
    ensures node.left == node.right == node.parent == null && node.key == 0
  {
    hide Focus, Short, Order, InOrder, RedBlack, Plug, All, Apart, TopOf, Balanced, BalancedPath, BlackHeight, IsBlack;
    TakenOut(t, c, path, reds);
    ApartWithout(t, c, path);
    ApartHere(t, path, nil, root, node);
    OneReady(t, c, path, nil, nodes, temp);
    assert node !in reds ==> reds - {node} == reds;
    var red := node.color;
    Detach(root, nil, node, temp, t, c, path);
    Clear0(node);
    newRoot, whole, tint := Settle(root, nil, temp, red, c, path, reds - {node}, nodes - {node});
  }

  lemma OneReady(t: Tree<Node>, c: Tree<Node>, path: seq<Step<Node>>, nil: Node, nodes: set<Node>, temp: Node)
    requires Apart(t, path) && OnlyChild(t, c) && path != [] && temp == TopOf(c, nil) && All(t, path) == nodes
    ensures temp in nodes - {t.node} + {nil} && path[0].node in nodes - {t.node} && t.node in nodes
    ensures forall o :: o in All(c, path) <==> o in nodes && o != t.node
  {
    ApartWithout(t, c, path);
    if c.Branch? {
      TopInside(c);
    }
  }

  lemma HeirOrder(l: Tree<Node>, node: Node, sub: Tree<Node>, lefts: seq<Step<Node>>, path: seq<Step<Node>>)
    returns (k: nat)
    requires sub.Branch? && sub.left.Leaf? && forall i :: 0 <= i < |lefts| ==> lefts[i].isLeft
    ensures var order := Order(Branch(l, node, Plug(sub, lefts)), path);
      && k < |order| && order[k] == node
      && Order(Branch(l, sub.node, Plug(sub.right, lefts)), path) == order[..k] + order[k + 1..]
  {
    hide *;
    FirstInOrder(sub, lefts);
    LeftmostOrder(sub);
    var r, r' := InOrder(Plug(sub, lefts)), InOrder(Plug(sub.right, lefts));
    var before := Before(path) + InOrder(l);
    k := |before|;
    AroundNode(l, node, Plug(sub, lefts), path);
    AroundNode(l, sub.node, Plug(sub.right, lefts), path);
    CutOut(before, node, r + After(path));
    Shifted(before, sub.node, r', After(path));
  }

  lemma Shifted(b: seq<Node>, n: Node, r: seq<Node>, a: seq<Node>)
    ensures b + [n] + (r + a) == b + ([n] + r + a)
  {
  }

  lemma CutOut(b: seq<Node>, n: Node, a: seq<Node>)
    ensures var s := b + [n] + a; s[|b|] == n && s[..|b|] == b && s[|b| + 1..] == a
  {
  }

  lemma Regrouped(b: seq<Node>, l: seq<Node>, n: Node, r: seq<Node>, a: seq<Node>)
    ensures b + (l + [n] + r) + a == (b + l) + [n] + (r + a)
  {
  }

  lemma AroundNode(l: Tree<Node>, n: Node, r: Tree<Node>, path: seq<Step<Node>>)
    ensures Order(Branch(l, n, r), path) == (Before(path) + InOrder(l)) + [n] + (InOrder(r) + After(path))
  {
    hide *;
    AroundBranch(l, n, r, path);
    Regrouped(Before(path), InOrder(l), n, InOrder(r), After(path));
  }

  // All that changes hands when the heir takes over.
  lemma HeirReady(l: Tree<Node>, node: Node, sub: Tree<Node>, lefts: seq<Step<Node>>, path: seq<Step<Node>>, nil: Node,
                  nodes: set<Node>, temp: Node)
    requires Apart(Branch(l, node, Plug(sub, lefts)), path) && sub.Branch? && sub.left.Leaf?
    requires All(Branch(l, node, Plug(sub, lefts)), path) == nodes && nil !in nodes && temp == TopOf(sub.right, nil)
    ensures Apart(Branch(l, sub.node, Plug(sub.right, lefts)), path)
    ensures All(Branch(l, sub.node, Plug(sub.right, lefts)), path) == nodes - {node}
    ensures node in nodes && sub.node in nodes && sub.node != node && temp in nodes - {node} + {nil}
    ensures temp == nil <==> sub.right.Leaf?
  {
    HeirApart(l, node, sub, lefts, path);
    ApartWhole(sub.right, lefts);
    TopInside(Branch(l, node, Plug(sub, lefts)));
    TopInside(Branch(l, sub.node, Plug(sub.right, lefts)));
    if sub.right.Branch? {
      TopInside(sub.right);
    }
  }

  // With the heir in place, the way back down to where it left.
  lemma HeirDown(l: Tree<Node>, heir: Node, c: Tree<Node>, lefts: seq<Step<Node>>, path: seq<Step<Node>>, nil: Node,
                 root: Node, temp: Node)
    requires Focus(Branch(l, heir, Plug(c, lefts)), path, nil, root, heir) && temp == TopOf(c, nil)
    requires c.Leaf? ==> temp.parent == if lefts == [] then heir else lefts[0].node
    ensures var way := lefts + [Step(false, heir, l)] + path;
      && Focus(c, way, nil, root, temp) && Linked(way, temp)
      && Order(c, way) == Order(Branch(l, heir, Plug(c, lefts)), path)
      && All(c, way) == All(Branch(l, heir, Plug(c, lefts)), path)
  {
    hide Focus, Order, All, TopOf, Plug;
    var s, r := Step(false, heir, l), Plug(c, lefts);
    FocusDown(false, r, heir, l, path, nil, root);
    LinkDown(Branch(l, heir, r), path, nil, root, heir);
    FocusDownAll(c, lefts, [s] + path, nil, root);
    assert lefts + [s] + path == lefts + ([s] + path);
    StillLinked(c, lefts + [s] + path, nil, root, temp);
    WayDown(l, heir, c, lefts, path);
    OrderOfWhole(c, lefts + [s] + path);
    OrderOfWhole(Branch(l, heir, r), path);
    ApartWhole(c, lefts + [s] + path);
    ApartWhole(Branch(l, heir, r), path);
  }

  // The node has two children: its successor takes its place.
  method DeleteTwo(root: Node, nil: Node, node: Node, subst: Node, temp: Node, ghost l: Tree<Node>,
                   ghost sub: Tree<Node>, ghost lefts: seq<Step<Node>>, ghost path: seq<Step<Node>>,
                   ghost reds: set<Node>, ghost nodes: set<Node>)
    returns (newRoot: Node, ghost whole: Tree<Node>, ghost tint: set<Node>)
    requires Scene(Branch(l, node, Plug(sub, lefts)), path, reds, nil, root, node, nodes)
    requires sub.Branch? && sub.left.Leaf? && node.right != null && subst == sub.node
    requires Focus(sub, lefts, nil, node.right, subst) && temp == TopOf(sub.right, nil)
    requires RedBlack(Plug(Branch(l, node, Plug(sub, lefts)), path), reds)
    modifies nodes`left, nodes`right, nodes`parent, nodes`color, nil`parent, nil`color, node`key
    ensures Scene(whole, [], tint, nil, newRoot, newRoot, nodes - {node}) && RedBlack(whole, tint)
    ensures InOrder(whole) == Order(Branch(l, subst, Plug(sub.right, lefts)), path)
    ensures node.left == node.right == node.parent == null && node.key == 0
  {
    hide Focus, Short, Order, InOrder, RedBlack, Plug, All, Apart, TopOf, Balanced, BalancedPath, BlackHeight, IsBlack,
         Site;
    ApartHere(Branch(l, node, Plug(sub, lefts)), path, nil, root, node);
    HeirReady(l, node, sub, lefts, path, nil, nodes, temp);
    Succeeded(l, node, sub, lefts, path, reds);
    var red := subst.color;
    CutHeir(nil, node, subst, temp, root, l, sub, lefts, path, nodes);
    newRoot := TakePlace(root, nil, node, subst, l, Plug(sub.right, lefts), path, nodes);
    Clear0(node);
    HeirDown(l, subst, sub.right, lefts, path, nil, newRoot, temp);
    newRoot, whole, tint := Settle(newRoot, nil, temp, red, sub.right, lefts + [Step(false, subst, l)] + path,
      Inherited(reds, node, subst), nodes - {node});
  }

  // rbtree_delete: exactly that node goes, wherever it is, and the others keep their order.
  method Delete(root: Node, node: Node, nil: Node, ghost shape: Tree<Node>, ghost reds: set<Node>,
                ghost nodes: set<Node>)
    returns (newRoot: Node, ghost whole: Tree<Node>, ghost tint: set<Node>, ghost k: nat)
    requires Scene(shape, [], reds, nil, root, root, nodes) && RedBlack(shape, reds) && node in nodes
    modifies nodes`left, nodes`right, nodes`parent, nodes`color, nil`parent, nil`color, node`key
    ensures Scene(whole, [], tint, nil, newRoot, newRoot, nodes - {node}) && RedBlack(whole, tint)
    ensures k < |InOrder(shape)| && InOrder(shape)[k] == node
    ensures InOrder(whole) == InOrder(shape)[..k] + InOrder(shape)[k + 1..]
    ensures node.left == node.right == node.parent == null && node.key == 0
  {
    hide Focus, Order, InOrder, RedBlack, Plug, All, Apart, TopOf, Balanced, BalancedPath, BlackHeight;
    ghost var t, path := DeleteReady(shape, reds, nil, root, node, nodes);
    ghost var c;
    var subst: Node;
    var temp: Node?;
    if node.left == nil {
      temp := node.right;
      subst := node;
      c := t.right;
    } else if node.right == nil {
      temp := node.left;
      subst := node;
      c := t.left;
    } else {
      ghost var sub, lefts;
      SiteOf(t.left, node, t.right, path, nil, root, nodes);
      subst, sub, lefts := Min(node.right, nil, t.right);
      temp := if subst.left != nil then subst.left else subst.right;
      MinReady(sub, lefts, nil, node.right, subst);
      k := HeirOrder(t.left, node, sub, lefts, path);
      newRoot, whole, tint := DeleteTwo(root, nil, node, subst, temp, t.left, sub, lefts, path, reds, nodes);
      return;
    }
    k := OrderWithout(t, c, path);
    if subst == root {
      PlugNothing(t);
      NewRoot(t, c, nil, root, temp, reds, nodes);
      OrderOfAll(c);
      newRoot := temp;
      temp.color := false;
      whole, tint := c, reds - {node} - TopSet(c);
      Clear0(node);
    } else {
      newRoot, whole, tint := DeleteOne(root, nil, node, temp, t, c, path, reds, nodes);
    }
  }

  lemma MinReady(sub: Tree<Node>, lefts: seq<Step<Node>>, nil: Node, root: Node, subst: Node)
    requires Focus(sub, lefts, nil, root, subst) && sub.Branch? && sub.left.Leaf?
    ensures subst == sub.node && subst.left == nil && subst.right == TopOf(sub.right, nil)
  {
    LinkDown(sub, lefts, nil, root, subst);
    NotNil(sub, lefts, nil, root, subst);
  }

  lemma OrderOfAll(t: Tree<Node>)
    ensures Order(t, []) == InOrder(t)
  {
    OrderOfWhole(t, []);
  }
}
