// Binary trees seen from one of their places: the shapes that a red-black tree moves through.
module RbShape {
  datatype Tree<T> = Leaf | Branch(left: Tree<T>, node: T, right: Tree<T>)

  // One step of the way from a place up to the root: the place hangs left or right of `node`, whose
  // other child is `other`.
  datatype Step<T> = Step(isLeft: bool, node: T, other: Tree<T>)

  function Join<T>(isLeft: bool, t: Tree<T>, node: T, other: Tree<T>): Tree<T> {
    if isLeft then Branch(t, node, other) else Branch(other, node, t)
  }

  function Over<T>(s: Step<T>, t: Tree<T>): Tree<T> { Join(s.isLeft, t, s.node, s.other) }

  // The whole tree with t at the place that `path` leads up from.
  function Plug<T>(t: Tree<T>, path: seq<Step<T>>): Tree<T>
    decreases |path|
  {
    if path == [] then t else Plug(Over(path[0], t), path[1..])
  }

  // ------------------------------------------------------------------ order

  function InOrder<T>(t: Tree<T>): seq<T> {
    match t
    case Leaf => []
    case Branch(l, n, r) => InOrder(l) + [n] + InOrder(r)
  }

  // What comes before, and after, the place.
  function Before<T>(path: seq<Step<T>>): seq<T> {
    if path == [] then []
    else Before(path[1..]) + if path[0].isLeft then [] else InOrder(path[0].other) + [path[0].node]
  }

  function After<T>(path: seq<Step<T>>): seq<T> {
    if path == [] then []
    else (if path[0].isLeft then [path[0].node] + InOrder(path[0].other) else []) + After(path[1..])
  }

  function Order<T>(t: Tree<T>, path: seq<Step<T>>): seq<T> { Before(path) + InOrder(t) + After(path) }

  lemma OrderUp<T>(t: Tree<T>, path: seq<Step<T>>)
    requires path != []
    ensures Order(t, path) == Order(Over(path[0], t), path[1..])
  {
    var s, b, a := path[0], Before(path[1..]), After(path[1..]);
    if s.isLeft {
      assert Before(path) == b;
      Reassociate(b, InOrder(t), [s.node], InOrder(s.other), a);
    } else {
      assert After(path) == a;
      Reassociate(b, InOrder(s.other), [s.node], InOrder(t), a);
    }
  }

  lemma Reassociate<T>(b: seq<T>, l: seq<T>, n: seq<T>, r: seq<T>, a: seq<T>)
    ensures b + (l + n + r) + a == b + l + (n + r + a)
    ensures b + (l + n + r) + a == (b + (l + n)) + r + a
  {
  }

  lemma {:induction false} OrderOfWhole<T>(t: Tree<T>, path: seq<Step<T>>)
    ensures InOrder(Plug(t, path)) == Order(t, path)
    decreases |path|
  {
    if path != [] {
      OrderUp(t, path);
      OrderOfWhole(Over(path[0], t), path[1..]);
    }
  }

  lemma RotationKeepsOrder<T>(a: Tree<T>, x: T, b: Tree<T>, y: T, c: Tree<T>, path: seq<Step<T>>)
    ensures Order(Branch(a, x, Branch(b, y, c)), path) == Order(Branch(Branch(a, x, b), y, c), path)
  {
    assert InOrder(Branch(a, x, Branch(b, y, c))) == InOrder(a) + [x] + InOrder(b) + [y] + InOrder(c);
    assert InOrder(Branch(Branch(a, x, b), y, c)) == InOrder(a) + [x] + InOrder(b) + [y] + InOrder(c);
  }

  // ------------------------------------------------------------------ no node twice

  function Nodes<T>(t: Tree<T>): set<T> {
    match t
    case Leaf => {}
    case Branch(l, n, r) => Nodes(l) + {n} + Nodes(r)
  }

  function PathNodes<T>(path: seq<Step<T>>): set<T> {
    if path == [] then {} else {path[0].node} + Nodes(path[0].other) + PathNodes(path[1..])
  }

  ghost predicate Proper<T>(t: Tree<T>) {
    match t
    case Leaf => true
    case Branch(l, n, r) =>
      n !in Nodes(l) && n !in Nodes(r) && Nodes(l) !! Nodes(r) && Proper(l) && Proper(r)
  }

  ghost predicate ProperPath<T>(path: seq<Step<T>>) {
    path == [] ||
    var s := path[0];
    && s.node !in Nodes(s.other) && Proper(s.other)
    && s.node !in PathNodes(path[1..]) && Nodes(s.other) !! PathNodes(path[1..])
    && ProperPath(path[1..])
  }

  ghost predicate Apart<T>(t: Tree<T>, path: seq<Step<T>>) {
    Proper(t) && ProperPath(path) && Nodes(t) !! PathNodes(path)
  }

  function All<T>(t: Tree<T>, path: seq<Step<T>>): set<T> { Nodes(t) + PathNodes(path) }

  lemma ApartUp<T>(t: Tree<T>, path: seq<Step<T>>)
    requires path != []
    ensures Apart(t, path) <==> Apart(Over(path[0], t), path[1..])
    ensures All(t, path) == All(Over(path[0], t), path[1..])
  {
  }

  lemma RotationApart<T>(a: Tree<T>, x: T, b: Tree<T>, y: T, c: Tree<T>, path: seq<Step<T>>)
    ensures Apart(Branch(a, x, Branch(b, y, c)), path) <==> Apart(Branch(Branch(a, x, b), y, c), path)
    ensures All(Branch(a, x, Branch(b, y, c)), path) == All(Branch(Branch(a, x, b), y, c), path)
  {
    assert Nodes(Branch(b, y, c)) == Nodes(b) + {y} + Nodes(c);
    assert Nodes(Branch(a, x, b)) == Nodes(a) + {x} + Nodes(b);
    assert Proper(Branch(b, y, c)) <==>
      Proper(b) && Proper(c) && y !in Nodes(b) && y !in Nodes(c) && Nodes(b) !! Nodes(c);
    assert Proper(Branch(a, x, b)) <==>
      Proper(a) && Proper(b) && x !in Nodes(a) && x !in Nodes(b) && Nodes(a) !! Nodes(b);
  }

  lemma {:induction false} NodesAreListed<T>(t: Tree<T>)
    ensures forall n :: n in Nodes(t) <==> n in InOrder(t)
  {
    match t
    case Leaf =>
    case Branch(l, n, r) =>
      NodesAreListed(l);
      NodesAreListed(r);
  }

  lemma {:induction false} PathNodesAreListed<T>(path: seq<Step<T>>)
    ensures forall n :: n in PathNodes(path) <==> n in Before(path) || n in After(path)
  {
    if path == [] {
      assert Before(path) == [] && After(path) == [];
    } else {
      var s, rest := path[0], path[1..];
      PathNodesAreListed(rest);
      NodesAreListed(s.other);
      assert PathNodes(path) == {s.node} + Nodes(s.other) + PathNodes(rest);
      assert Before(path) == Before(rest) + if s.isLeft then [] else InOrder(s.other) + [s.node];
      assert After(path) == (if s.isLeft then [s.node] + InOrder(s.other) else []) + After(rest);
    }
  }

  lemma Listed<T>(t: Tree<T>, n: T)
    ensures n in Nodes(t) <==> n in InOrder(t)
  {
    NodesAreListed(t);
  }

  lemma AllOfWhole<T>(t: Tree<T>)
    ensures All(t, []) == Nodes(t) && (forall n :: n in InOrder(t) ==> n in Nodes(t))
  {
    var path: seq<Step<T>> := [];
    assert PathNodes(path) == {};
    NodesAreListed(t);
  }

  lemma OnPath<T>(path: seq<Step<T>>, n: T)
    ensures n in Before(path) || n in After(path) <==> n in PathNodes(path)
  {
    PathNodesAreListed(path);
  }

  // ------------------------------------------------------------------ red and black

  predicate IsBlack<T(==)>(t: Tree<T>, reds: set<T>) { t.Leaf? || t.node !in reds }

  function BlackHeight<T>(t: Tree<T>, reds: set<T>): nat {
    match t
    case Leaf => 1
    case Branch(l, n, _) => BlackHeight(l, reds) + if n in reds then 0 else 1
  }

  // No red node has a red child, and all ways down cross as many black nodes.
  ghost predicate Balanced<T>(t: Tree<T>, reds: set<T>) {
    match t
    case Leaf => true
    case Branch(l, n, r) =>
      && Balanced(l, reds) && Balanced(r, reds) && BlackHeight(l, reds) == BlackHeight(r, reds)
      && (n in reds ==> IsBlack(l, reds) && IsBlack(r, reds))
  }

  // All is well around the place, provided that what hangs there has black height h; the root is black.
  ghost predicate BalancedPath<T>(path: seq<Step<T>>, h: nat, reds: set<T>) {
    path == [] ||
    var s := path[0];
    && Balanced(s.other, reds) && BlackHeight(s.other, reds) == h
    && (s.node in reds ==> IsBlack(s.other, reds) && path[1..] != [] && path[1].node !in reds)
    && BalancedPath(path[1..], h + if s.node in reds then 0 else 1, reds)
  }

  ghost predicate RedBlack<T>(t: Tree<T>, reds: set<T>) { Balanced(t, reds) && IsBlack(t, reds) }

  lemma {:induction false} SameColours<T>(t: Tree<T>, reds: set<T>, now: set<T>)
    requires forall n :: n in Nodes(t) ==> (n in reds <==> n in now)
    ensures BlackHeight(t, reds) == BlackHeight(t, now)
    ensures Balanced(t, reds) == Balanced(t, now) && IsBlack(t, reds) == IsBlack(t, now)
  {
    match t
    case Leaf =>
    case Branch(l, n, r) =>
      SameColours(l, reds, now);
      SameColours(r, reds, now);
  }

  lemma {:induction false} SamePathColours<T>(path: seq<Step<T>>, h: nat, reds: set<T>, now: set<T>)
    requires forall n :: n in PathNodes(path) ==> (n in reds <==> n in now)
    ensures BalancedPath(path, h, reds) == BalancedPath(path, h, now)
  {
    if path != [] {
      SameColours(path[0].other, reds, now);
      SamePathColours(path[1..], h + if path[0].node in reds then 0 else 1, reds, now);
    }
  }

  // A balanced place in balanced surroundings: the whole tree is balanced.
  lemma {:induction false} BalancedWhole<T>(t: Tree<T>, path: seq<Step<T>>, reds: set<T>)
    requires Balanced(t, reds) && BalancedPath(path, BlackHeight(t, reds), reds)
    requires IsBlack(t, reds) || (path != [] && path[0].node !in reds)
    ensures RedBlack(Plug(t, path), reds)
    decreases |path|
  {
    if path != [] {
      BalancedWhole(Over(path[0], t), path[1..], reds);
    }
  }

  // And back: any place in a red-black tree is balanced in balanced surroundings.
  lemma {:induction false} BalancedParts<T>(t: Tree<T>, path: seq<Step<T>>, reds: set<T>)
    requires RedBlack(Plug(t, path), reds)
    ensures Balanced(t, reds) && BalancedPath(path, BlackHeight(t, reds), reds)
    ensures IsBlack(t, reds) || (path != [] && path[0].node !in reds)
    decreases |path|
  {
    if path != [] {
      BalancedParts(Over(path[0], t), path[1..], reds);
    }
  }

  // ------------------------------------------------------------------ after an insertion

  // The place holds a red node, which may have a red parent; all else is balanced.
  ghost predicate Rising<T>(t: Tree<T>, path: seq<Step<T>>, reds: set<T>) {
    t.Branch? && t.node in reds && Balanced(t, reds) && BalancedPath(path, BlackHeight(t, reds), reds)
  }

  lemma RisingStuck<T>(t: Tree<T>, path: seq<Step<T>>, reds: set<T>)
    requires Rising(t, path, reds) && path != [] && path[0].node in reds
    ensures |path| >= 2 && path[1].node !in reds && IsBlack(path[0].other, reds)
  {
    assert path[1..] != [];
  }

  // One step of a path.
  lemma BalancedStep<T>(s: Step<T>, rest: seq<Step<T>>, h: nat, reds: set<T>)
    ensures BalancedPath([s] + rest, h, reds) <==>
      && Balanced(s.other, reds) && BlackHeight(s.other, reds) == h
      && (s.node in reds ==> IsBlack(s.other, reds) && rest != [] && rest[0].node !in reds)
      && BalancedPath(rest, h + if s.node in reds then 0 else 1, reds)
  {
    assert ([s] + rest)[1..] == rest;
  }

  lemma TwoSteps<T>(s: Step<T>, g: Step<T>, rest: seq<Step<T>>)
    ensures [s, g] + rest == [s] + ([g] + rest)
  {
  }

  lemma ApartStep<T>(t: Tree<T>, s: Step<T>, rest: seq<Step<T>>)
    requires Apart(t, [s] + rest)
    ensures Apart(Over(s, t), rest) && Proper(s.other)
    ensures Nodes(Over(s, t)) == Nodes(t) + {s.node} + Nodes(s.other)
    ensures s.node !in Nodes(t) && s.node !in Nodes(s.other) && Nodes(t) !! Nodes(s.other)
    ensures Nodes(Over(s, t)) !! PathNodes(rest)
  {
    assert ([s] + rest)[1..] == rest;
    ApartUp(t, [s] + rest);
  }

  lemma ApartTwo<T>(t: Tree<T>, s: Step<T>, g: Step<T>, rest: seq<Step<T>>)
    requires Apart(t, [s, g] + rest)
    ensures s.node != g.node && Nodes(t) !! {s.node, g.node} && Nodes(s.other) !! {s.node, g.node}
    ensures Nodes(g.other) !! {s.node, g.node} && PathNodes(rest) !! {s.node, g.node}
    ensures Nodes(g.other) !! Nodes(t) && Nodes(g.other) !! Nodes(s.other) && Nodes(g.other) !! PathNodes(rest)
    ensures Proper(g.other)
  {
    hide Apart, Proper, Nodes, PathNodes, Over;
    TwoSteps(s, g, rest);
    ApartStep(t, s, [g] + rest);
    ApartStep(Over(s, t), g, rest);
  }

  // A red uncle: parent and uncle turn black, the grandparent red, and the trouble moves up two steps.
  lemma RisePastUncle<T>(t: Tree<T>, s: Step<T>, g: Step<T>, rest: seq<Step<T>>, reds: set<T>, now: set<T>)
    requires Apart(t, [s, g] + rest) && Rising(t, [s, g] + rest, reds) && s.node in reds
    requires !IsBlack(g.other, reds) && now == reds - {s.node, g.other.node} + {g.node}
    ensures Rising(Over(g, Over(s, t)), rest, now)
  {
    TwoSteps(s, g, rest);
    BalancedStep(s, [g] + rest, BlackHeight(t, reds), reds);
    BalancedStep(g, rest, BlackHeight(t, reds), reds);
    ApartTwo(t, s, g, rest);
    SameColours(t, reds, now);
    SameColours(s.other, reds, now);
    SameColours(g.other.left, reds, now);
    SameColours(g.other.right, reds, now);
    SamePathColours(rest, BlackHeight(t, reds) + 1, reds, now);
    assert Balanced(Over(s, t), now) && IsBlack(Over(s, t), now);
    assert Balanced(g.other, now) && IsBlack(g.other, now);
  }

  // The place is an inner grandchild: a rotation makes it an outer one.
  function InnerTurned<T>(t: Tree<T>, s: Step<T>): Tree<T>
    requires t.Branch?
  {
    if s.isLeft then Branch(t.right, s.node, s.other) else Branch(s.other, s.node, t.left)
  }

  function InnerStep<T>(t: Tree<T>, s: Step<T>): Step<T>
    requires t.Branch?
  {
    Step(!s.isLeft, t.node, if s.isLeft then t.left else t.right)
  }

  lemma OverOrder<T>(t: Tree<T>, s: Step<T>, rest: seq<Step<T>>)
    ensures Order(t, [s] + rest) == Order(Over(s, t), rest)
    ensures All(t, [s] + rest) == All(Over(s, t), rest)
  {
    assert ([s] + rest)[1..] == rest;
    OrderUp(t, [s] + rest);
    ApartUp(t, [s] + rest);
  }

  lemma InnerOrder<T>(t: Tree<T>, s: Step<T>, rest: seq<Step<T>>)
    requires t.Branch?
    ensures Order(InnerTurned(t, s), [InnerStep(t, s)] + rest) == Order(t, [s] + rest)
    ensures All(InnerTurned(t, s), [InnerStep(t, s)] + rest) == All(t, [s] + rest)
  {
    hide Order, All;
    OverOrder(t, s, rest);
    OverOrder(InnerTurned(t, s), InnerStep(t, s), rest);
    if s.isLeft {
      RotationKeepsOrder(t.left, t.node, t.right, s.node, s.other, rest);
      RotationApart(t.left, t.node, t.right, s.node, s.other, rest);
    } else {
      RotationKeepsOrder(s.other, s.node, t.left, t.node, t.right, rest);
      RotationApart(s.other, s.node, t.left, t.node, t.right, rest);
    }
  }

  lemma RiseInner<T>(t: Tree<T>, s: Step<T>, rest: seq<Step<T>>, reds: set<T>)
    requires Rising(t, [s] + rest, reds) && s.node in reds
    ensures Rising(InnerTurned(t, s), [InnerStep(t, s)] + rest, reds)
  {
    assert ([s] + rest)[1..] == rest && ([InnerStep(t, s)] + rest)[1..] == rest;
  }

  // An outer grandchild and a black uncle: a rotation of parent over grandparent ends the trouble.
  function OuterStep<T>(s: Step<T>, g: Step<T>): Step<T> {
    Step(g.isLeft, s.node, Join(g.isLeft, s.other, g.node, g.other))
  }

  lemma OuterOrder<T>(t: Tree<T>, s: Step<T>, g: Step<T>, rest: seq<Step<T>>)
    requires s.isLeft == g.isLeft
    ensures Order(t, [OuterStep(s, g)] + rest) == Order(t, [s, g] + rest)
    ensures All(t, [OuterStep(s, g)] + rest) == All(t, [s, g] + rest)
  {
    hide Order, All;
    TwoSteps(s, g, rest);
    OverOrder(t, s, [g] + rest);
    OverOrder(Over(s, t), g, rest);
    OverOrder(t, OuterStep(s, g), rest);
    if g.isLeft {
      RotationKeepsOrder(t, s.node, s.other, g.node, g.other, rest);
      RotationApart(t, s.node, s.other, g.node, g.other, rest);
    } else {
      RotationKeepsOrder(g.other, g.node, s.other, s.node, t, rest);
      RotationApart(g.other, g.node, s.other, s.node, t, rest);
    }
  }

  lemma UncleOrder<T>(t: Tree<T>, s: Step<T>, g: Step<T>, rest: seq<Step<T>>)
    ensures Order(Over(g, Over(s, t)), rest) == Order(t, [s, g] + rest)
    ensures All(Over(g, Over(s, t)), rest) == All(t, [s, g] + rest)
  {
    TwoSteps(s, g, rest);
    OverOrder(t, s, [g] + rest);
    OverOrder(Over(s, t), g, rest);
  }

  lemma RiseOuter<T>(t: Tree<T>, s: Step<T>, g: Step<T>, rest: seq<Step<T>>, reds: set<T>, now: set<T>)
    requires Apart(t, [s, g] + rest) && Rising(t, [s, g] + rest, reds) && s.node in reds
    requires IsBlack(g.other, reds) && now == reds - {s.node} + {g.node}
    ensures Rising(t, [OuterStep(s, g)] + rest, now) && s.node !in now
  {
    TwoSteps(s, g, rest);
    BalancedStep(s, [g] + rest, BlackHeight(t, reds), reds);
    BalancedStep(g, rest, BlackHeight(t, reds), reds);
    BalancedStep(OuterStep(s, g), rest, BlackHeight(t, now), now);
    ApartTwo(t, s, g, rest);
    SameColours(t, reds, now);
    SameColours(s.other, reds, now);
    SameColours(g.other, reds, now);
    SamePathColours(rest, BlackHeight(t, reds) + 1, reds, now);
  }

  // With the root black again, the tree is red-black.
  lemma Risen<T>(t: Tree<T>, path: seq<Step<T>>, reds: set<T>, root: T)
    requires Apart(t, path) && Rising(t, path, reds) && (path != [] ==> path[0].node !in reds)
    requires path == [] ==> root == t.node
    requires path != [] ==> root !in reds
    ensures RedBlack(Plug(t, path), reds - {root})
  {
    if path == [] {
      SameColours(t.left, reds, reds - {root});
      SameColours(t.right, reds, reds - {root});
    } else {
      BalancedWhole(t, path, reds);
      assert reds - {root} == reds;
    }
  }
}
