// After a deletion one place may be a black node short: what the way up does about it.
module RbShort {
  import opened RbShape

  function TopSet<T>(t: Tree<T>): set<T> { if t.Leaf? then {} else {t.node} }

  // The place is one black node short, but would be balanced with a black top; all else is balanced.
  ghost predicate Short<T>(t: Tree<T>, path: seq<Step<T>>, reds: set<T>) {
    Balanced(t, reds - TopSet(t)) && BalancedPath(path, BlackHeight(t, reds) + 1, reds)
  }

  function Nearer<T>(s: Step<T>): Tree<T>
    requires s.other.Branch?
  {
    if s.isLeft then s.other.left else s.other.right
  }

  function Farther<T>(s: Step<T>): Tree<T>
    requires s.other.Branch?
  {
    if s.isLeft then s.other.right else s.other.left
  }

  // Beside a black place that is short there is a sibling.
  lemma ShortSibling<T>(t: Tree<T>, s: Step<T>, rest: seq<Step<T>>, reds: set<T>)
    requires Short(t, [s] + rest, reds) && IsBlack(t, reds)
    ensures s.other.Branch? && Balanced(s.other, reds) && BlackHeight(s.other, reds) == BlackHeight(t, reds) + 1
    ensures Balanced(t, reds)
    ensures s.node in reds ==> IsBlack(s.other, reds) && rest != [] && rest[0].node !in reds
    ensures BalancedPath(rest, BlackHeight(t, reds) + if s.node in reds then 1 else 2, reds)
  {
    BalancedStep(s, rest, BlackHeight(t, reds) + 1, reds);
    assert reds - TopSet(t) == reds;
  }

  // A red sibling: it turns black, the parent red, and is rotated over the parent.
  function RedTurned<T>(s: Step<T>): seq<Step<T>>
    requires s.other.Branch?
  {
    [Step(s.isLeft, s.node, Nearer(s)), Step(s.isLeft, s.other.node, Farther(s))]
  }

  lemma ShortRed<T>(t: Tree<T>, s: Step<T>, rest: seq<Step<T>>, reds: set<T>, now: set<T>)
    requires Apart(t, [s] + rest) && Short(t, [s] + rest, reds) && IsBlack(t, reds)
    requires !IsBlack(s.other, reds) && now == reds - {s.other.node} + {s.node}
    ensures Short(t, RedTurned(s) + rest, now) && IsBlack(t, now) && s.node in now
    ensures IsBlack(Nearer(s), now)
  {
    ShortSibling(t, s, rest, reds);
    ApartSibling(t, s, rest);
    SameColours(t, reds, now);
    SameColours(Nearer(s), reds, now);
    SameColours(Farther(s), reds, now);
    var h := BlackHeight(t, reds);
    SamePathColours(rest, h + 2, reds, now);
    TwoSteps(RedTurned(s)[0], RedTurned(s)[1], rest);
    BalancedStep(RedTurned(s)[1], rest, h + 1, now);
    BalancedStep(RedTurned(s)[0], [RedTurned(s)[1]] + rest, h + 1, now);
    assert now - TopSet(t) == now;
  }

  lemma ApartSibling<T>(t: Tree<T>, s: Step<T>, rest: seq<Step<T>>)
    requires Apart(t, [s] + rest) && s.other.Branch?
    ensures var w := s.other.node;
      && w != s.node && {w, s.node} !! Nodes(t) && {w, s.node} !! PathNodes(rest)
      && {w, s.node} !! Nodes(s.other.left) && {w, s.node} !! Nodes(s.other.right)
      && Nodes(s.other.left) !! Nodes(s.other.right)
      && Nodes(s.other.left) !! Nodes(t) && Nodes(s.other.right) !! Nodes(t)
      && Nodes(s.other.left) !! PathNodes(rest) && Nodes(s.other.right) !! PathNodes(rest)
    ensures Proper(s.other.left) && Proper(s.other.right)
    ensures Nodes(s.other) == Nodes(s.other.left) + {s.other.node} + Nodes(s.other.right)
  {
    ApartStep(t, s, rest);
  }

  // A black sibling with black children: it turns red, and the parent's place is short instead.
  lemma ShortAbove<T>(t: Tree<T>, s: Step<T>, rest: seq<Step<T>>, reds: set<T>, now: set<T>)
    requires Apart(t, [s] + rest) && Short(t, [s] + rest, reds) && IsBlack(t, reds) && s.other.Branch?
    requires IsBlack(s.other, reds) && IsBlack(s.other.left, reds) && IsBlack(s.other.right, reds)
    requires now == reds + {s.other.node}
    ensures Short(Over(s, t), rest, now) && (s.node in now <==> s.node in reds)
  {
    ShortSibling(t, s, rest, reds);
    ApartSibling(t, s, rest);
    SameColours(t, reds, now - {s.node});
    SameColours(t, reds, now);
    SameColours(s.other.left, reds, now - {s.node});
    SameColours(s.other.right, reds, now - {s.node});
    SameColours(s.other.left, reds, now);
    SameColours(s.other.right, reds, now);
    SamePathColours(rest, BlackHeight(t, reds) + if s.node in reds then 1 else 2, reds, now);
  }

  // The far nephew black and the near one red: a rotation of the sibling makes the far one red.
  function NearTurned<T>(s: Step<T>): Step<T>
    requires s.other.Branch? && Nearer(s).Branch?
  {
    var w, n := s.other.node, Nearer(s);
    s.(other := if s.isLeft then Branch(n.left, n.node, Branch(n.right, w, s.other.right))
                else Branch(Branch(s.other.left, w, n.left), n.node, n.right))
  }

  lemma NearBalanced<T>(t: Tree<T>, s: Step<T>, rest: seq<Step<T>>, reds: set<T>, now: set<T>)
    requires Apart(t, [s] + rest) && Balanced(s.other, reds)
    requires s.other.Branch? && IsBlack(s.other, reds) && IsBlack(Farther(s), reds) && !IsBlack(Nearer(s), reds)
    requires now == reds - {Nearer(s).node} + {s.other.node}
    ensures var w := NearTurned(s).other;
      && Balanced(w, now) && BlackHeight(w, now) == BlackHeight(s.other, reds)
      && w.Branch? && IsBlack(w, now) && !IsBlack(Farther(NearTurned(s)), now)
  {
    var n := Nearer(s);
    ApartSibling(t, s, rest);
    SameColours(n.left, reds, now);
    SameColours(n.right, reds, now);
    SameColours(Farther(s), reds, now);
  }

  lemma ShortNear<T>(t: Tree<T>, s: Step<T>, rest: seq<Step<T>>, reds: set<T>, now: set<T>)
    requires Apart(t, [s] + rest) && Short(t, [s] + rest, reds) && IsBlack(t, reds)
    requires s.other.Branch? && IsBlack(s.other, reds) && IsBlack(Farther(s), reds) && !IsBlack(Nearer(s), reds)
    requires now == reds - {Nearer(s).node} + {s.other.node}
    ensures Short(t, [NearTurned(s)] + rest, now) && IsBlack(t, now)
    ensures NearTurned(s).other.Branch? && IsBlack(NearTurned(s).other, now) && !IsBlack(Farther(NearTurned(s)), now)
  {
    ShortSibling(t, s, rest, reds);
    NearBalanced(t, s, rest, reds, now);
    ApartSibling(t, s, rest);
    TopInside(Nearer(s));
    hide Apart, Balanced, BlackHeight, BalancedPath, Nodes, PathNodes, Proper;
    SameColours(t, reds, now);
    SamePathColours(rest, BlackHeight(t, reds) + if s.node in reds then 1 else 2, reds, now);
    BalancedStep(NearTurned(s), rest, BlackHeight(t, reds) + 1, now);
    assert now - TopSet(t) == now;
  }

  // The far nephew red: the sibling goes over the parent with its colour, and nothing is short any more.
  function FarTurned<T>(t: Tree<T>, s: Step<T>): Tree<T>
    requires s.other.Branch?
  {
    Join(s.isLeft, Join(s.isLeft, t, s.node, Nearer(s)), s.other.node, Farther(s))
  }

  lemma FarBalanced<T>(t: Tree<T>, s: Step<T>, rest: seq<Step<T>>, reds: set<T>, now: set<T>)
    requires Apart(t, [s] + rest) && Short(t, [s] + rest, reds) && IsBlack(t, reds)
    requires s.other.Branch? && IsBlack(s.other, reds) && !IsBlack(Farther(s), reds)
    requires now == reds - {s.node, Farther(s).node} + if s.node in reds then {s.other.node} else {}
    ensures Balanced(FarTurned(t, s), now)
    ensures BlackHeight(FarTurned(t, s), now) == BlackHeight(t, reds) + if s.node in reds then 1 else 2
  {
    var f := Farther(s);
    ShortSibling(t, s, rest, reds);
    ApartSibling(t, s, rest);
    SameColours(t, reds, now);
    SameColours(Nearer(s), reds, now);
    SameColours(f.left, reds, now);
    SameColours(f.right, reds, now);
    assert Balanced(Join(s.isLeft, t, s.node, Nearer(s)), now) && Balanced(f, now);
  }

  lemma ShortFar<T>(t: Tree<T>, s: Step<T>, rest: seq<Step<T>>, reds: set<T>, now: set<T>)
    requires Apart(t, [s] + rest) && Short(t, [s] + rest, reds) && IsBlack(t, reds)
    requires s.other.Branch? && IsBlack(s.other, reds) && !IsBlack(Farther(s), reds)
    requires now == reds - {s.node, Farther(s).node} + if s.node in reds then {s.other.node} else {}
    ensures RedBlack(Plug(FarTurned(t, s), rest), now)
  {
    FarBalanced(t, s, rest, reds, now);
    ShortSibling(t, s, rest, reds);
    ApartSibling(t, s, rest);
    hide Short, Balanced, BlackHeight, BalancedPath, Nodes, PathNodes, Apart, Proper, Plug;
    var h := BlackHeight(t, reds) + if s.node in reds then 1 else 2;
    assert Farther(s).node in Nodes(Farther(s)) by {
      TopInside(Farther(s));
    }
    SamePathColours(rest, h, reds, now);
    BalancedWhole(FarTurned(t, s), rest, now);
  }

  lemma TopInside<T>(t: Tree<T>)
    requires t.Branch?
    ensures t.node in Nodes(t)
  {
  }

  lemma NothingShort<T>(t: Tree<T>, reds: set<T>)
    requires RedBlack(t, reds)
    ensures Short(t, [], reds) && IsBlack(t, reds)
  {
    assert reds - TopSet(t) == reds;
  }

  // Where the shortage ends: at the root, or at a red node, which turns black.
  lemma ShortEnds<T>(t: Tree<T>, path: seq<Step<T>>, reds: set<T>)
    requires Apart(t, path) && Short(t, path, reds) && (path == [] || !IsBlack(t, reds))
    ensures RedBlack(Plug(t, path), reds - TopSet(t))
  {
    var now := reds - TopSet(t);
    if t.Branch? {
      SameColours(t.left, reds, now);
      SameColours(t.right, reds, now);
      SamePathColours(path, BlackHeight(t, reds) + 1, reds, now);
    }
    if path != [] {
      BalancedWhole(t, path, now);
    }
  }

  // ------------------------------------------------------------------ none of this moves a key

  lemma RedTurnedOrder<T>(t: Tree<T>, s: Step<T>, rest: seq<Step<T>>)
    requires s.other.Branch?
    ensures Order(t, RedTurned(s) + rest) == Order(t, [s] + rest)
    ensures All(t, RedTurned(s) + rest) == All(t, [s] + rest)
  {
    hide Order, All;
    var upper, lower := RedTurned(s)[1], RedTurned(s)[0];
    TwoSteps(lower, upper, rest);
    OverOrder(t, s, rest);
    OverOrder(t, lower, [upper] + rest);
    OverOrder(Over(lower, t), upper, rest);
    FarTurnedOrder(t, s, rest);
  }

  lemma FarTurnedOrder<T>(t: Tree<T>, s: Step<T>, rest: seq<Step<T>>)
    requires s.other.Branch?
    ensures Order(FarTurned(t, s), rest) == Order(t, [s] + rest)
    ensures All(FarTurned(t, s), rest) == All(t, [s] + rest)
  {
    hide Order, All;
    OverOrder(t, s, rest);
    if s.isLeft {
      RotationKeepsOrder(t, s.node, Nearer(s), s.other.node, Farther(s), rest);
      RotationApart(t, s.node, Nearer(s), s.other.node, Farther(s), rest);
    } else {
      RotationKeepsOrder(Farther(s), s.other.node, Nearer(s), s.node, t, rest);
      RotationApart(Farther(s), s.other.node, Nearer(s), s.node, t, rest);
    }
  }

  // The step seen from the sibling: t hangs on the other side.
  function Across<T>(t: Tree<T>, s: Step<T>): Step<T> { Step(!s.isLeft, s.node, t) }

  lemma NearTurnedOrder<T>(t: Tree<T>, s: Step<T>, rest: seq<Step<T>>)
    requires s.other.Branch? && Nearer(s).Branch?
    ensures Order(t, [NearTurned(s)] + rest) == Order(t, [s] + rest)
    ensures All(t, [NearTurned(s)] + rest) == All(t, [s] + rest)
  {
    hide Order, All;
    var across := [Across(t, s)] + rest;
    var w, n := s.other, Nearer(s);
    OverOrder(t, s, rest);
    OverOrder(w, Across(t, s), rest);
    OverOrder(t, NearTurned(s), rest);
    OverOrder(NearTurned(s).other, Across(t, s), rest);
    if s.isLeft {
      RotationKeepsOrder(n.left, n.node, n.right, w.node, w.right, across);
      RotationApart(n.left, n.node, n.right, w.node, w.right, across);
    } else {
      RotationKeepsOrder(w.left, w.node, n.left, n.node, n.right, across);
      RotationApart(w.left, w.node, n.left, n.node, n.right, across);
    }
  }

  // ------------------------------------------------------------------ taking a node out

  // t has the child c and no other.
  ghost predicate OnlyChild<T>(t: Tree<T>, c: Tree<T>) {
    t.Branch? && ((t.left.Leaf? && c == t.right) || (t.right.Leaf? && c == t.left))
  }

  lemma ApartWithout<T>(t: Tree<T>, c: Tree<T>, path: seq<Step<T>>)
    requires Apart(t, path) && OnlyChild(t, c)
    ensures Apart(c, path) && All(c, path) == All(t, path) - {t.node} && Nodes(c) <= Nodes(t)
    ensures t.node in Nodes(t) && t.node !in Nodes(c) && t.node !in PathNodes(path)
  {
  }

  lemma OrderWithout<T>(t: Tree<T>, c: Tree<T>, path: seq<Step<T>>) returns (k: nat)
    requires OnlyChild(t, c)
    ensures k < |Order(t, path)| && Order(t, path)[k] == t.node
    ensures Order(c, path) == Order(t, path)[..k] + Order(t, path)[k + 1..]
  {
    var b, a := Before(path), After(path);
    if t.left.Leaf? && c == t.right {
      k := |b|;
      assert InOrder(t) == [t.node] + InOrder(c);
      assert Order(t, path) == b + [t.node] + (InOrder(c) + a);
    } else {
      k := |b| + |InOrder(c)|;
      assert InOrder(t) == InOrder(c) + [t.node];
      assert Order(t, path) == (b + InOrder(c)) + [t.node] + a;
    }
  }

  // A red node has no single child; where a black one was, the place is short.
  lemma TakenOut<T>(t: Tree<T>, c: Tree<T>, path: seq<Step<T>>, reds: set<T>)
    requires Apart(t, path) && OnlyChild(t, c)
    requires Balanced(t, reds) && BalancedPath(path, BlackHeight(t, reds), reds)
    ensures t.node in reds ==>
      && Balanced(c, reds - {t.node}) && IsBlack(c, reds - {t.node})
      && BalancedPath(path, BlackHeight(c, reds - {t.node}), reds - {t.node})
    ensures t.node !in reds ==> Short(c, path, reds)
  {
    ApartWithout(t, c, path);
    SameColours(c, reds, reds - {t.node});
    SamePathColours(path, BlackHeight(t, reds), reds, reds - {t.node});
    SameBut(c, reds);
  }

  lemma SameBut<T>(t: Tree<T>, reds: set<T>)
    requires Balanced(t, reds) && Proper(t)
    ensures Balanced(t, reds - TopSet(t))
  {
    if t.Branch? {
      SameColours(t.left, reds, reds - {t.node});
      SameColours(t.right, reds, reds - {t.node});
    }
  }

  // The root with at most one child: the child becomes the root, and black.
  lemma RootTaken<T>(t: Tree<T>, c: Tree<T>, reds: set<T>)
    requires Proper(t) && OnlyChild(t, c) && RedBlack(t, reds)
    ensures RedBlack(c, reds - {t.node} - TopSet(c)) && Proper(c) && Nodes(c) == Nodes(t) - {t.node}
  {
    SameColours(c, reds, reds - {t.node});
    SameBut(c, reds - {t.node});
  }

  // ------------------------------------------------------------------ the successor takes the node's place

  lemma {:induction false} PlugAppend<T>(t: Tree<T>, a: seq<Step<T>>, b: seq<Step<T>>)
    ensures Plug(t, a + b) == Plug(Plug(t, a), b)
    decreases |a|
  {
    if a == [] {
      assert a + b == b;
    } else {
      assert (a + b)[1..] == a[1..] + b;
      PlugAppend(Over(a[0], t), a[1..], b);
    }
  }

  lemma {:induction false} ApartWhole<T>(t: Tree<T>, path: seq<Step<T>>)
    ensures Apart(t, path) <==> Proper(Plug(t, path))
    ensures Nodes(Plug(t, path)) == All(t, path)
    decreases |path|
  {
    if path == [] {
      AllOfWhole(t);
    } else {
      ApartUp(t, path);
      ApartWhole(Over(path[0], t), path[1..]);
    }
  }

  // Renaming one node of a path, with its colour.
  lemma {:induction false} Renamed<T>(ways: seq<Step<T>>, s: Step<T>, heir: T, rest: seq<Step<T>>, h: nat, reds: set<T>,
                                     now: set<T>)
    requires BalancedPath(ways + [s] + rest, h, reds)
    requires forall n :: n in PathNodes(ways) + Nodes(s.other) + PathNodes(rest) ==> (n in reds <==> n in now)
    requires s.node in reds <==> heir in now
    ensures BalancedPath(ways + [s.(node := heir)] + rest, h, now)
    decreases |ways|
  {
    var s' := s.(node := heir);
    if ways == [] {
      assert ways + [s] + rest == [s] + rest && ways + [s'] + rest == [s'] + rest;
      BalancedStep(s, rest, h, reds);
      BalancedStep(s', rest, h, now);
      SameColours(s.other, reds, now);
      SamePathColours(rest, h + if s.node in reds then 0 else 1, reds, now);
      assert rest != [] ==> rest[0].node in PathNodes(rest);
    } else {
      var w, more := ways[0], ways[1..];
      assert ways + [s] + rest == [w] + (more + [s] + rest);
      assert ways + [s'] + rest == [w] + (more + [s'] + rest);
      BalancedStep(w, more + [s] + rest, h, reds);
      BalancedStep(w, more + [s'] + rest, h, now);
      SameColours(w.other, reds, now);
      assert PathNodes(ways) == {w.node} + Nodes(w.other) + PathNodes(more);
      assert more != [] ==> more[0].node in PathNodes(more);
      Renamed(more, s, heir, rest, h + if w.node in reds then 0 else 1, reds, now);
    }
  }

  // The colours once the successor has taken the node's place and colour.
  function Inherited<T>(reds: set<T>, node: T, heir: T): set<T> {
    reds - {node, heir} + if node in reds then {heir} else {}
  }

  lemma WayDown<T>(l: Tree<T>, node: T, sub: Tree<T>, lefts: seq<Step<T>>, path: seq<Step<T>>)
    ensures Plug(sub, lefts + [Step(false, node, l)] + path) == Plug(Branch(l, node, Plug(sub, lefts)), path)
  {
    var s := Step(false, node, l);
    assert lefts + [s] + path == lefts + ([s] + path) && ([s] + path)[1..] == path;
    PlugAppend(sub, lefts, [s] + path);
  }

  lemma HeirApart<T>(l: Tree<T>, node: T, sub: Tree<T>, lefts: seq<Step<T>>, path: seq<Step<T>>)
    requires Apart(Branch(l, node, Plug(sub, lefts)), path) && sub.Branch? && sub.left.Leaf?
    ensures var heir := sub.node;
      && node != heir && {node, heir} !! Nodes(l) && {node, heir} !! PathNodes(path)
      && {node, heir} !! Nodes(sub.right) && {node, heir} !! PathNodes(lefts)
      && Nodes(Plug(sub, lefts)) == {heir} + Nodes(Plug(sub.right, lefts)) && heir !in Nodes(Plug(sub.right, lefts))
    ensures Apart(sub, lefts) && Apart(Branch(l, sub.node, Plug(sub.right, lefts)), path)
    ensures All(Branch(l, sub.node, Plug(sub.right, lefts)), path) == All(Branch(l, node, Plug(sub, lefts)),
      path) - {node}
  {
    ApartWhole(sub, lefts);
    ApartWithout(sub, sub.right, lefts);
    ApartWhole(sub.right, lefts);
  }

  lemma Succeeded<T>(l: Tree<T>, node: T, sub: Tree<T>, lefts: seq<Step<T>>, path: seq<Step<T>>, reds: set<T>)
    requires Apart(Branch(l, node, Plug(sub, lefts)), path) && sub.Branch? && sub.left.Leaf?
    requires RedBlack(Plug(Branch(l, node, Plug(sub, lefts)), path), reds)
    ensures var now, way := Inherited(reds, node, sub.node), lefts + [Step(false, sub.node, l)] + path;
      if sub.node in reds then
        Balanced(sub.right, now) && IsBlack(sub.right, now) && BalancedPath(way, BlackHeight(sub.right, now), now)
      else Short(sub.right, way, now)
  {
    var heir, now := sub.node, Inherited(reds, node, sub.node);
    var s := Step(false, node, l);
    WayDown(l, node, sub, lefts, path);
    BalancedParts(sub, lefts + [s] + path, reds);
    HeirApart(l, node, sub, lefts, path);
    ProperParts(sub, lefts);
    TopOnly(sub, reds);
    hide Apart, Balanced, BalancedPath, BlackHeight, RedBlack, Plug, Nodes, PathNodes, Proper;
    SameColours(sub.right, reds, now);
    Renamed(lefts, s, heir, path, BlackHeight(sub, reds), reds, now);
    SameBut(sub.right, now);
  }

  lemma TopOnly<T>(t: Tree<T>, reds: set<T>)
    requires Balanced(t, reds) && t.Branch? && t.left.Leaf?
    ensures Balanced(t.right, reds) && (t.node in reds ==> IsBlack(t.right, reds))
    ensures BlackHeight(t, reds) == BlackHeight(t.right, reds) + if t.node in reds then 0 else 1
  {
  }

  lemma ProperParts<T>(t: Tree<T>, path: seq<Step<T>>)
    requires Apart(t, path) && t.Branch?
    ensures Proper(t.right)
  {
  }
}
