// Timers in a tree ordered with wrap-around, and the loop that fires those that are due.
module EvTimer {
  import opened RbShape
  import opened RbHeap
  import opened RbInsert
  import opened RbTrees

  const HALF: nat := KEYS / 2
  const WORD32: nat := 0x1_0000_0000
  const ERR_INVALID_PARAM := -1004
  const ERR_EMPTY := -1014
  const LAZY_DELAY := 300

  // ------------------------------------------------------------------ unsigned words and their signed reading

  type Millis = t: int | 0 <= t < WORD32

  function Minus(a: Key, b: Key): Key { if a >= b then a - b else a - b + KEYS }

  function Plus(a: Key, t: Millis): Key { if a + t < KEYS then a + t else a + t - KEYS }

  function Signed(k: Key): int { if k < HALF then k else k - KEYS }

  // (int) of a 64-bit value
  function Truncated(x: int): int {
    var low := x % WORD32;
    if low < WORD32 / 2 then low else low - WORD32
  }

  // The comparison of rbtree_insert_timer_value.
  function WrapLess(a: Key, b: Key): bool { Signed(Minus(a, b)) < 0 }

  // All these times lie within half the range of the clock, counted from base.
  ghost predicate InWindow(base: Key, keys: set<Key>) {
    forall k :: k in keys ==> Minus(k, base) < HALF
  }

  // In a window the wrapping comparison is the order of the times counted from its base.
  lemma WrapLessInWindow(a: Key, b: Key, base: Key)
    requires Minus(a, base) < HALF && Minus(b, base) < HALF
    ensures WrapLess(a, b) <==> Minus(a, base) < Minus(b, base)
  {
  }

  lemma WindowIsOrdered(base: Key, keys: set<Key>)
    requires InWindow(base, keys)
    ensures WeakOrder(WrapLess, keys)
  {
    forall a, b | a in keys && b in keys
      ensures WrapLess(a, b) <==> Minus(a, base) < Minus(b, base)
    {
      WrapLessInWindow(a, b, base);
    }
  }

  // Keys in order have a first one.
  lemma {:induction false} FirstKey(less: (Key, Key) -> bool, keys: set<Key>) returns (m: Key)
    requires keys != {} && WeakOrder(less, keys)
    ensures m in keys && forall k :: k in keys ==> !less(k, m)
    decreases keys
  {
    var x :| x in keys;
    assert !less(x, x);
    m := x;
    var rest := keys - {x};
    assert forall k :: k in keys ==> k == x || k in rest;
    if rest != {} {
      m := FirstKey(less, rest);
      if less(x, m) {
        forall k | k in rest
          ensures !less(k, x)
        {
          assert less(x, k) || less(k, m);
        }
        m := x;
      }
    }
  }

  // The first key is the base of a window.
  lemma FirstIsBase(m: Key, keys: set<Key>)
    requires forall k :: k in keys ==> !WrapLess(k, m)
    ensures InWindow(m, keys)
  {
  }

  // The wrapping comparison orders exactly the keys that lie in a window.
  lemma OrderedExactlyInWindow(keys: set<Key>)
    ensures WeakOrder(WrapLess, keys) <==> exists base :: InWindow(base, keys)
  {
    if WeakOrder(WrapLess, keys) {
      if keys == {} {
        assert InWindow(0, keys);
      } else {
        var m := FirstKey(WrapLess, keys);
        FirstIsBase(m, keys);
      }
    } else {
      forall base | InWindow(base, keys)
        ensures false
      {
        WindowIsOrdered(base, keys);
      }
    }
  }

  // Two keys half the range apart are each before the other.
  lemma WrapLessOpposite(a: Key)
    ensures WrapLess(a, Minus(a, HALF)) && WrapLess(Minus(a, HALF), a)
  {
  }

  // Without a window it is not even an order: three times may each be before the next.
  lemma WrapLessCircle() returns (a: Key, b: Key, c: Key)
    ensures WrapLess(a, b) && WrapLess(b, c) && WrapLess(c, a)
  {
    a, b, c := 0, KEYS / 3, 2 * (KEYS / 3);
  }

  // A deadline at or before now.
  predicate Due(key: Key, now: Key) { Signed(Minus(key, now)) <= 0 }

  lemma DueIs(key: Key, now: Key)
    ensures Due(key, now) <==> !(Signed(Minus(key, now)) > 0)
  {
  }

  lemma DueInWindow(key: Key, now: Key, base: Key)
    requires Minus(key, base) < HALF && Minus(now, base) < HALF
    ensures Due(key, now) <==> Minus(key, base) <= Minus(now, base)
  {
  }

  // A timer armed now is later than all that are due.
  lemma ArmedLater(now: Key, t: Millis, base: Key)
    requires Minus(now, base) + WORD32 <= HALF && t > 0
    ensures Minus(Plus(now, t), base) == Minus(now, base) + t
    ensures !Due(Plus(now, t), now)
  {
  }

  // Whether a timer that is set is left as it is: the difference is cut to 32 bits before it is compared.
  predicate KeepsOld(key: Key, old_: Key) {
    -LAZY_DELAY < Truncated(Signed(Minus(key, old_))) < LAZY_DELAY
  }

  predicate Close(d: int) { -LAZY_DELAY < d < LAZY_DELAY }

  // A timer that is set is left as it is exactly if the new deadline is close, unless the new deadline is not close but
  // comes within 300 of the old one once the difference is cut to 32 bits.
  lemma KeepsOldExactly(key: Key, old_: Key)
    ensures var d := Signed(Minus(key, old_));
      (KeepsOld(key, old_) <==> Close(d)) <==> Close(d) || LAZY_DELAY <= d % WORD32 <= WORD32 - LAZY_DELAY
  {
  }

  // For a pending timer with `left` to go: what a caller can look at before it sets the timer to t.
  lemma KeepsOldPending(now: Key, t: Millis, left: Millis)
    ensures Signed(Minus(Plus(now, t), Plus(now, left))) == t - left
    ensures (KeepsOld(Plus(now, t), Plus(now, left)) <==> Close(t - left))
      <==> LAZY_DELAY - WORD32 <= t - left <= WORD32 - LAZY_DELAY
  {
    KeepsOldExactly(Plus(now, t), Plus(now, left));
  }

  // A timer that was set to ZTL_TIMER_INFINITE is left as it is when it is set to 100.
  lemma InfiniteStays(now: Key)
    ensures KeepsOld(Plus(now, 100), Plus(now, WORD32 - 1)) && !Close(100 - (WORD32 - 1))
  {
  }

  class Timers {
    const tree: RbTree
    var lastTime: Key
    var count: int

    ghost predicate Valid()
      reads this, tree, tree.nodes, tree.sentinel
    {
      tree.Valid() && tree.less == WrapLess
    }

    constructor ()
      ensures Valid() && tree.nodes == {} && lastTime == 0 && count == 0
    {
      tree := new RbTree(WrapLess);
      lastTime := 0;
      count := 0;
    }

    method UpdateTime(currtime: Key)
      modifies this`lastTime
      ensures lastTime == currtime
    {
      lastTime := currtime;
    }

    // A timer outside the tree goes in behind all that are not later.
    method Arm(timer: Node, key: Key, ghost base: Key) returns (ghost k: nat)
      requires Valid() && timer !in tree.nodes && timer != tree.sentinel
      requires InWindow(base, KeysOf(tree.nodes) + {key})
      modifies tree`root, tree`shape, tree`reds, tree`nodes
      modifies tree.nodes`left, tree.nodes`right, tree.nodes`parent, tree.nodes`color
      modifies timer`left, timer`right, timer`parent, timer`color, timer`key
      ensures Valid() && tree.nodes == old(tree.nodes) + {timer} && timer.key == key
      ensures k <= |old(tree.Order())| && tree.Order() == old(tree.Order())[..k] + [timer] + old(tree.Order())[k..]
      ensures Between(WrapLess, key, old(tree.Order())[..k], old(tree.Order())[k..])
    {
      timer.key := key;
      WindowIsOrdered(base, KeysOf(tree.nodes) + {key});
      k := tree.Insert(timer);
    }

    method Add(timer: Node, timeout: Millis, timerset: bool, ghost base: Key)
      returns (r: int, ghost k: nat)
      requires Valid() && timer != tree.sentinel && (timerset <==> timer in tree.nodes)
      requires InWindow(base, KeysOf(tree.nodes) + {Plus(lastTime, timeout)})
      modifies this`count, tree`root, tree`shape, tree`reds, tree`nodes
      modifies tree.nodes`left, tree.nodes`right, tree.nodes`parent, tree.nodes`color
      modifies tree.sentinel`parent, tree.sentinel`color
      modifies timer`left, timer`right, timer`parent, timer`color, timer`key
      ensures Valid()
      ensures r == if timeout == 0 then ERR_INVALID_PARAM
                   else if timerset && KeepsOld(Plus(lastTime, timeout), old(timer.key)) then 1 else 0
      ensures r != 0 ==>
        tree.Order() == old(tree.Order()) && timer.key == old(timer.key) && tree.nodes == old(tree.nodes)
      ensures r == 0 ==>
        && tree.nodes == old(tree.nodes) + {timer} && timer.key == Plus(lastTime, timeout)
        && var rest := Without(old(tree.Order()), timer);
        && k <= |rest| && tree.Order() == rest[..k] + [timer] + rest[k..]
        && Between(WrapLess, timer.key, rest[..k], rest[k..])
    {
      hide KeysOf, InWindow, Between, KeepsOld, Plus, Without, Scene, RedBlack, Sorted, All, InOrder;
      if timeout == 0 {
        return ERR_INVALID_PARAM, 0;
      }
      var key := Plus(lastTime, timeout);
      ghost var keys := KeysOf(tree.nodes);
      KeysIn(tree.nodes);
      if timerset {
        if KeepsOld(key, timer.key) {
          return 1, 0;
        }
        ghost var order := tree.Order();
        ghost var i := tree.Delete(timer);
        count := (count - 1) % WORD32;
        OthersOut(order, timer, i);
      }
      NarrowWindow(base, keys + {key}, tree.nodes, key);
      Strangers(tree);
      WithoutStranger(tree.Order(), timer);
      k := Arm(timer, key, base);
      count := (count + 1) % WORD32;
      r := 0;
    }

    method Del(timer: Node)
      requires Valid() && timer in tree.nodes
      modifies this`count, tree`root, tree`shape, tree`reds, tree`nodes
      modifies tree.nodes`left, tree.nodes`right, tree.nodes`parent, tree.nodes`color
      modifies tree.sentinel`parent, tree.sentinel`color, timer`key
      ensures Valid() && tree.nodes == old(tree.nodes) - {timer}
      ensures tree.Order() == Without(old(tree.Order()), timer)
    {
      hide Scene, RedBlack, Sorted, All, InOrder, Without;
      ghost var order := tree.Order();
      ghost var i := tree.Delete(timer);
      count := (count - 1) % WORD32;
      OthersOut(order, timer, i);
      Strangers(tree);
      WithoutStranger(tree.Order(), timer);
    }

    // The time left, counted from lastTime whatever currtime says.
    method MinMs(currtime: Key) returns (r: int)
      requires Valid()
      ensures r == if tree.Order() == [] then -1 else Signed(Minus(tree.Order()[0].key, lastTime))
    {
      var node := tree.First();
      if node == null {
        return -1;
      }
      r := Signed(Minus(node.key, lastTime));
    }

    // Takes the first timer out.
    method Fire(node: Node)
      requires Valid() && node in tree.nodes && tree.Order() != [] && tree.Order()[0] == node
      modifies tree`root, tree`shape, tree`reds, tree`nodes
      modifies tree.nodes`left, tree.nodes`right, tree.nodes`parent, tree.nodes`color
      modifies tree.sentinel`parent, tree.sentinel`color, node`key
      ensures Valid() && tree.nodes == old(tree.nodes) - {node} && tree.Order() == old(tree.Order())[1..]
      ensures node !in tree.Order()
    {
      hide Scene, RedBlack, Sorted, All, InOrder;
      ghost var order := tree.Order();
      ghost var k := tree.Delete(node);
      Strangers(tree);
      FirstOut(order, node, k);
    }

    // The agenda in the tree: what is due comes first, and everything lies in the window.
    ghost predicate OnAgenda(s: Agenda, timers: set<Node>, base: Key)
      reads this, tree, tree.nodes, tree.sentinel
    {
      && Valid() && tree.nodes <= timers && tree.sentinel !in timers && s.keys == Deadlines(tree.nodes)
      && Waits(s.due, tree.Order(), s.keys, lastTime) && InView(base, s.keys) && Minus(lastTime, base) + WORD32 <= HALF
    }

    // The loop of ztl_evtimer_expire. plan says what the handler does when a timer fires: it may arm and delete any
    // timers, set or not, as long as it says rightly which are set and deletes only those.
    method Expire(currtime: Key, plan: Node -> seq<Action>, ghost timers: set<Node>, ghost base: Key)
      returns (r: int, ghost fired: seq<Node>)
      requires Valid() && tree.nodes <= timers && tree.sentinel !in timers
      requires InWindow(base, KeysOf(tree.nodes)) && Minus(currtime, base) + WORD32 <= HALF
      requires Planned(Due0(tree.Order(), Deadlines(tree.nodes), currtime), plan, timers, currtime)
      modifies this`lastTime, this`count, tree`root, tree`shape, tree`reds, tree`nodes
      modifies timers, tree.sentinel
      ensures Valid() && tree.nodes <= timers && lastTime == currtime
      ensures var s := old(Due0(tree.Order(), Deadlines(tree.nodes), currtime));
        && s.due <= old(tree.Order())
        && (forall n :: n in old(tree.nodes) ==> (n in s.due <==> Due(old(n.key), currtime)))
        && (fired, Deadlines(tree.nodes)) == Expiry(s, plan, currtime)
      ensures forall n :: n in tree.nodes ==> !Due(n.key, currtime)
      ensures r == if tree.Order() == [] then ERR_EMPTY else Truncated(Signed(Minus(tree.Order()[0].key, currtime)))
    {
      hide Scene, RedBlack, Sorted, All, InOrder, KeysOf, InWindow, Minus, Signed, Truncated, Due, Deadlines, WrapLess,
           Waits, InView, Expiry, Planned, Due0, DidAll, Fired;
      ghost var s := Due0(tree.Order(), Deadlines(tree.nodes), currtime);
      ghost var s0 := s;
      DueAtFirst(tree, currtime, base);
      lastTime := currtime;
      fired := [];
      ExpiryStart(s, plan, currtime);
      while true
        invariant OnAgenda(s, timers, base) && lastTime == currtime && Planned(s, plan, timers, currtime)
        invariant Expiry(s0, plan, currtime) == (fired + Expiry(s, plan, currtime).0, Expiry(s, plan, currtime).1)
        decreases |s.due|
      {
        RootTells(tree);
        if tree.root == tree.sentinel {
          r := ERR_EMPTY;
          break;
        }
        var node: Node := tree.First();
        DueIs(node.key, lastTime);
        WaitsFirst(s, tree.Order(), tree.nodes, lastTime);
        if Signed(Minus(node.key, lastTime)) > 0 {
          r := Truncated(Signed(Minus(node.key, lastTime)));
          break;
        }
        ExpiryStep(s, fired, plan, timers, currtime);
        FireOne(node, plan(node), s, timers, base);
        fired := fired + [node];
        s := DidAll(Fired(s), plan(node), currtime);
      }
      ExpiryEnd(s, fired, tree.Order(), tree.nodes, plan, currtime);
      Strangers(tree);
    }

    // One round: the first timer goes, and its handler is called.
    method FireOne(node: Node, actions: seq<Action>, ghost s: Agenda, ghost timers: set<Node>, ghost base: Key)
      requires OnAgenda(s, timers, base) && s.due != [] && node == s.due[0]
      requires Rightly(Fired(s), actions, timers, lastTime)
      modifies this`count, tree`root, tree`shape, tree`reds, tree`nodes
      modifies timers, tree.sentinel
      ensures OnAgenda(DidAll(Fired(s), actions, lastTime), timers, base)
    {
      hide Scene, RedBlack, Sorted, All, InOrder, Deadlines, Waits, InView, DidAll, Did, Rightly, Right, Minus;
      ghost var order := tree.Order();
      WaitsHead(s, order, lastTime);
      Strangers(tree);
      DeadlinesOf(tree.nodes);
      Fire(node);
      WaitsFire(s, order, lastTime, base);
      DeadlinesWithout(s.keys, tree.nodes, node);
      ghost var now := Fired(s);
      for i := 0 to |actions|
        invariant OnAgenda(now, timers, base) && lastTime == old(lastTime)
        invariant DidAll(Fired(s), actions, lastTime) == DidAll(now, actions[i..], lastTime)
        invariant Rightly(now, actions[i..], timers, lastTime)
      {
        DidNext(now, actions, i, timers, lastTime);
        Perform(actions[i], now, timers, base);
        now := Did(now, actions[i], lastTime);
      }
      assert DidAll(now, actions[|actions|..], lastTime) == now by {
        DidNothing(now, actions, lastTime);
      }
    }

    // One call of a handler.
    method Perform(a: Action, ghost s: Agenda, ghost timers: set<Node>, ghost base: Key)
      requires OnAgenda(s, timers, base) && Right(s, a, timers)
      modifies this`count, tree`root, tree`shape, tree`reds, tree`nodes
      modifies timers, tree.sentinel
      ensures OnAgenda(Did(s, a, lastTime), timers, base)
    {
      match a
      case Arm(timer, timeout, timerset) =>
        Set(timer, timeout, timerset, s, timers, base);
      case Drop(timer) =>
        hide Scene, RedBlack, Sorted, All, InOrder, Deadlines, Waits, InView, Minus, Without;
        DeadlinesOf(tree.nodes);
        Strangers(tree);
        WaitsWithout(s, tree.Order(), timer, lastTime, base);
        Del(timer);
        DeadlinesWithout(s.keys, tree.nodes, timer);
    }

    method Set(timer: Node, timeout: Millis, timerset: bool, ghost s: Agenda, ghost timers: set<Node>, ghost base: Key)
      requires OnAgenda(s, timers, base) && Right(s, Action.Arm(timer, timeout, timerset), timers)
      modifies this`count, tree`root, tree`shape, tree`reds, tree`nodes
      modifies timers, tree.sentinel
      ensures OnAgenda(Did(s, Action.Arm(timer, timeout, timerset), lastTime), timers, base)
    {
      hide Scene, RedBlack, Sorted, All, InOrder, Deadlines, Waits, InView, Minus, Without, Plus, KeepsOld, KeysOf,
           InWindow, Between, WrapLess, Due;
      ghost var nodes, order, keys := tree.nodes, tree.Order(), s.keys;
      ghost var key := Plus(lastTime, timeout);
      DeadlinesOf(nodes);
      Strangers(tree);
      ViewWith(base, nodes, lastTime, timeout);
      var r, k := Add(timer, timeout, timerset, base);
      if r == 0 {
        DeadlinesPut(keys, nodes, tree.nodes, timer, key);
        ghost var rest := Without(order, timer);
        WithoutMembers(order, timer);
        KeysBehind(rest, k, keys, key);
        WaitsPut(s, order, keys, timer, k, lastTime, timeout, base);
      } else {
        DeadlinesStay(keys, nodes);
      }
    }
  }

  // The order without one node.
  ghost function Without(s: seq<Node>, n: Node): seq<Node> {
    if s == [] then [] else (if s[0] == n then [] else [s[0]]) + Without(s[1..], n)
  }

  lemma FirstOut(s: seq<Node>, n: Node, k: nat)
    requires k < |s| && s[0] == n
    ensures k == 0 || n in s[..k] + s[k + 1..]
    ensures s[..0] + s[1..] == s[1..]
  {
    if k > 0 {
      assert (s[..k] + s[k + 1..])[0] == n;
    }
  }

  lemma {:induction false} WithoutSum(a: seq<Node>, b: seq<Node>, n: Node)
    ensures Without(a + b, n) == Without(a, n) + Without(b, n)
  {
    if a == [] {
      assert a + b == b;
    } else {
      assert (a + b)[1..] == a[1..] + b;
      WithoutSum(a[1..], b, n);
    }
  }

  lemma {:induction false} WithoutStranger(s: seq<Node>, n: Node)
    requires n !in s
    ensures Without(s, n) == s
  {
    if s != [] {
      WithoutStranger(s[1..], n);
    }
  }

  lemma OthersOut(s: seq<Node>, n: Node, i: nat)
    requires i < |s| && s[i] == n
    ensures Without(s, n) == Without(s[..i] + s[i + 1..], n)
  {
    assert s == s[..i] + ([n] + s[i + 1..]);
    WithoutSum(s[..i], [n] + s[i + 1..], n);
    WithoutSum([n], s[i + 1..], n);
    WithoutSum(s[..i], s[i + 1..], n);
    assert Without([n], n) == [];
  }

  lemma RootTells(tree: RbTree)
    requires tree.Valid()
    ensures tree.root == tree.sentinel <==> tree.Order() == []
  {
    Rooted(tree.shape, tree.reds, tree.sentinel, tree.root, tree.nodes);
  }

  lemma Strangers(tree: RbTree)
    requires tree.Valid()
    ensures (forall n :: n in tree.Order() <==> n in tree.nodes) && tree.sentinel !in tree.nodes
    ensures tree.root == tree.sentinel <==> tree.Order() == []
  {
    NodesInView(tree.shape, [], tree.reds, tree.sentinel, tree.root, tree.nodes);
    Rooted(tree.shape, tree.reds, tree.sentinel, tree.root, tree.nodes);
  }

  lemma KeysIn(nodes: set<Node>)
    ensures forall n :: n in nodes ==> n.key in KeysOf(nodes)
  {
  }

  // Fewer keys lie in the window too.
  lemma NarrowWindow(base: Key, keys: set<Key>, nodes: set<Node>, key: Key)
    requires InWindow(base, keys) && key in keys && forall n :: n in nodes ==> n.key in keys
    ensures InWindow(base, KeysOf(nodes) + {key})
  {
  }

  ghost function Deadlines(nodes: set<Node>): map<Node, Key>
    reads nodes`key
  {
    map n | n in nodes :: n.key
  }

  lemma DeadlinesOf(nodes: set<Node>)
    ensures Deadlines(nodes).Keys == nodes && forall n :: n in nodes ==> Deadlines(nodes)[n] == n.key
  {
  }

  // ------------------------------------------------------------------ what handlers do

  // A call that a handler makes: ztl_evtimer_add, or ztl_evtimer_del.
  datatype Action = Arm(timer: Node, timeout: Millis, timerset: bool) | Drop(timer: Node)

  // The timers that are due and have not fired, in order, and the deadlines of all timers in the tree.
  datatype Agenda = Agenda(due: seq<Node>, keys: map<Node, Key>)

  // The caller says rightly whether the timer is set, and deletes only timers that are.
  ghost predicate Right(s: Agenda, a: Action, timers: set<Node>) {
    a.timer in timers && match a case Arm(x, _, timerset) => timerset <==> x in s.keys case Drop(x) => x in s.keys
  }

  // A timer that is moved or deleted is not due any longer.
  ghost function Did(s: Agenda, a: Action, now: Key): (r: Agenda)
    ensures |r.due| <= |s.due|
  {
    WithoutShorter(s.due, a.timer);
    match a
    case Arm(x, t, _) =>
      if t == 0 || (x in s.keys && KeepsOld(Plus(now, t), s.keys[x])) then s
      else Agenda(Without(s.due, x), s.keys[x := Plus(now, t)])
    case Drop(x) => Agenda(Without(s.due, x), s.keys - {x})
  }

  ghost function DidAll(s: Agenda, actions: seq<Action>, now: Key): (r: Agenda)
    ensures |r.due| <= |s.due|
    decreases |actions|
  {
    if actions == [] then s else DidAll(Did(s, actions[0], now), actions[1..], now)
  }

  ghost predicate Rightly(s: Agenda, actions: seq<Action>, timers: set<Node>, now: Key)
    decreases |actions|
  {
    actions == [] || (Right(s, actions[0], timers) && Rightly(Did(s, actions[0], now), actions[1..], timers, now))
  }

  // The first timer has left the tree.
  ghost function Fired(s: Agenda): (r: Agenda)
    requires s.due != []
    ensures |r.due| < |s.due|
  {
    Agenda(s.due[1..], s.keys - {s.due[0]})
  }

  // Which timers fire, and the deadlines afterwards.
  ghost function Expiry(s: Agenda, plan: Node -> seq<Action>, now: Key): (seq<Node>, map<Node, Key>)
    decreases |s.due|
  {
    if s.due == [] then ([], s.keys)
    else
      var (fired, keys) := Expiry(DidAll(Fired(s), plan(s.due[0]), now), plan, now);
      ([s.due[0]] + fired, keys)
  }

  ghost predicate Planned(s: Agenda, plan: Node -> seq<Action>, timers: set<Node>, now: Key)
    decreases |s.due|
  {
    s.due == [] || (Rightly(Fired(s), plan(s.due[0]), timers, now)
                    && Planned(DidAll(Fired(s), plan(s.due[0]), now), plan, timers, now))
  }

  // What is due when the loop begins.
  ghost function Due0(order: seq<Node>, keys: map<Node, Key>, now: Key): Agenda {
    Agenda(DueOf(order, keys, now), keys)
  }

  ghost function DueOf(order: seq<Node>, keys: map<Node, Key>, now: Key): seq<Node> {
    if order == [] || order[0] !in keys || !Due(keys[order[0]], now) then []
    else [order[0]] + DueOf(order[1..], keys, now)
  }

  // Those that are due come first in the order.
  ghost predicate Waits(due: seq<Node>, order: seq<Node>, keys: map<Node, Key>, now: Key) {
    && due <= order && (forall n :: n in due ==> n in keys && Due(keys[n], now))
    && (forall n :: n in order[|due|..] ==> n in keys && !Due(keys[n], now))
  }

  ghost predicate InView(base: Key, keys: map<Node, Key>) { forall n :: n in keys ==> Minus(keys[n], base) < HALF }

  lemma ExpiryStart(s: Agenda, plan: Node -> seq<Action>, now: Key)
    ensures Expiry(s, plan, now) == ([] + Expiry(s, plan, now).0, Expiry(s, plan, now).1)
  {
    assert [] + Expiry(s, plan, now).0 == Expiry(s, plan, now).0;
  }

  lemma ExpiryStep(s: Agenda, fired: seq<Node>, plan: Node -> seq<Action>, timers: set<Node>, now: Key)
    requires s.due != [] && Planned(s, plan, timers, now)
    ensures var next := DidAll(Fired(s), plan(s.due[0]), now);
      && |next.due| < |s.due| && Planned(next, plan, timers, now) && Rightly(Fired(s), plan(s.due[0]), timers, now)
      && fired + Expiry(s, plan, now).0 == fired + [s.due[0]] + Expiry(next, plan, now).0
      && Expiry(s, plan, now).1 == Expiry(next, plan, now).1
  {
    hide DidAll, Rightly;
  }

  lemma ExpiryEnd(s: Agenda, fired: seq<Node>, order: seq<Node>, nodes: set<Node>, plan: Node -> seq<Action>, now: Key)
    requires Waits(s.due, order, s.keys, now) && s.keys == Deadlines(nodes)
    requires order == [] || !Due(order[0].key, now)
    requires order != [] ==> order[0] in nodes
    ensures s.due == [] && fired + Expiry(s, plan, now).0 == fired && Expiry(s, plan, now).1 == s.keys
    ensures forall n :: n in order && n in nodes ==> !Due(n.key, now)
  {
    WaitsFirst(s, order, nodes, now);
    assert order[0..] == order;
  }

  lemma WaitsFirst(s: Agenda, order: seq<Node>, nodes: set<Node>, now: Key)
    requires Waits(s.due, order, s.keys, now) && s.keys == Deadlines(nodes) && (order != [] ==> order[0] in nodes)
    ensures s.due != [] <==> order != [] && Due(order[0].key, now)
    ensures s.due != [] ==> s.due[0] == order[0]
  {
    DeadlinesOf(nodes);
    if order == [] {
    } else if s.due == [] {
      assert order[0] in order[|s.due|..];
    } else {
      assert s.due[0] in s.due;
    }
  }

  lemma WaitsHead(s: Agenda, order: seq<Node>, now: Key)
    requires Waits(s.due, order, s.keys, now) && s.due != []
    ensures order != [] && order[0] == s.due[0]
  {
  }

  lemma WaitsFire(s: Agenda, order: seq<Node>, now: Key, base: Key)
    requires Waits(s.due, order, s.keys, now) && s.due != [] && InView(base, s.keys)
    requires order[0] !in order[1..]
    ensures Waits(Fired(s).due, order[1..], Fired(s).keys, now) && InView(base, Fired(s).keys)
  {
    hide InView;
    var rest, due := order[1..], s.due[1..];
    assert rest[|due|..] == order[|s.due|..];
    assert due <= rest;
    assert forall n :: n in due ==> n in s.due && n in rest;
    assert forall n :: n in rest[|due|..] ==> n in rest;
    ViewLess(base, s.keys, s.due[0]);
  }

  lemma ViewLess(base: Key, keys: map<Node, Key>, n: Node)
    requires InView(base, keys)
    ensures InView(base, keys - {n})
  {
  }

  lemma WaitsWithout(s: Agenda, order: seq<Node>, x: Node, now: Key, base: Key)
    requires Waits(s.due, order, s.keys, now) && InView(base, s.keys)
    ensures Waits(Without(s.due, x), Without(order, x), s.keys - {x}, now) && InView(base, s.keys - {x})
  {
    hide InView, Without, Due;
    var tail := order[|s.due|..];
    assert order == s.due + tail;
    WithoutSum(s.due, tail, x);
    assert Without(order, x)[|Without(s.due, x)|..] == Without(tail, x);
    assert Without(s.due, x) <= Without(order, x);
    forall n | n in Without(s.due, x)
      ensures n in s.keys - {x} && Due((s.keys - {x})[n], now)
    {
      WithoutMember(s.due, x, n);
    }
    forall n | n in Without(tail, x)
      ensures n in s.keys - {x} && !Due((s.keys - {x})[n], now)
    {
      WithoutMember(tail, x, n);
    }
    ViewLess(base, s.keys, x);
  }

  // A timer armed now goes in behind those that are due.
  lemma WaitsPut(s: Agenda, order: seq<Node>, keys: map<Node, Key>, x: Node, k: nat, now: Key, t: Millis, base: Key)
    requires Waits(s.due, order, s.keys, now) && InView(base, s.keys) && keys == s.keys && t > 0
    requires Minus(now, base) + WORD32 <= HALF
    requires k <= |Without(order, x)|
    requires forall n :: n in Without(order, x)[k..] ==> n in keys && WrapLess(Plus(now, t), keys[n])
    ensures var rest := Without(order, x);
      Waits(Without(s.due, x), rest[..k] + [x] + rest[k..], keys[x := Plus(now, t)], now)
    ensures InView(base, keys[x := Plus(now, t)])
  {
    hide Waits, InView, Plus, Minus, Without;
    ArmedLater(now, t, base);
    WaitsWithout(s, order, x, now, base);
    ViewMore(base, keys, x, Plus(now, t));
    BehindDue(Without(s.due, x), Without(order, x), keys, x, k, now, t, base);
    WithoutMembers(order, x);
    PutBehind(Without(s.due, x), Without(order, x), keys - {x}, x, k, now, Plus(now, t));
    assert (keys - {x})[x := Plus(now, t)] == keys[x := Plus(now, t)];
  }

  lemma ViewMore(base: Key, keys: map<Node, Key>, x: Node, key: Key)
    requires InView(base, keys) && Minus(key, base) < HALF
    ensures InView(base, keys[x := key])
  {
  }

  lemma BehindDue(due: seq<Node>, rest: seq<Node>, keys: map<Node, Key>, x: Node, k: nat, now: Key, t: Millis,
                  base: Key)
    requires Waits(due, rest, keys - {x}, now) && InView(base, keys) && k <= |rest| && t > 0
    requires Minus(now, base) + WORD32 <= HALF
    requires forall n :: n in rest[k..] ==> n in keys && WrapLess(Plus(now, t), keys[n])
    ensures k >= |due|
  {
    if k < |due| {
      var n := due[k];
      assert n == rest[k] && n in rest[k..] && n in due;
      ArmedLater(now, t, base);
      DueInWindow(keys[n], now, base);
      WrapLessInWindow(Plus(now, t), keys[n], base);
    }
  }

  lemma PutBehind(due: seq<Node>, rest: seq<Node>, keys: map<Node, Key>, x: Node, k: nat, now: Key, key: Key)
    requires Waits(due, rest, keys, now) && |due| <= k <= |rest| && x !in rest && !Due(key, now)
    ensures Waits(due, rest[..k] + [x] + rest[k..], keys[x := key], now)
  {
    hide Due;
    var next := rest[..k] + [x] + rest[k..];
    assert next[|due|..] == rest[|due|..][..k - |due|] + [x] + rest[|due|..][k - |due|..];
    assert next[..|due|] == rest[..|due|];
    forall n | n in due
      ensures n in keys[x := key] && Due(keys[x := key][n], now)
    {
      assert n in rest;
    }
    forall n | n in next[|due|..]
      ensures n in keys[x := key] && !Due(keys[x := key][n], now)
    {
      if n != x {
        assert n in rest[|due|..];
      }
    }
  }

  lemma {:induction false} WithoutMember(s: seq<Node>, x: Node, n: Node)
    ensures n in Without(s, x) <==> n in s && n != x
  {
    if s != [] {
      WithoutMember(s[1..], x, n);
    }
  }

  lemma WithoutMembers(s: seq<Node>, x: Node)
    ensures forall n :: n in Without(s, x) <==> n in s && n != x
  {
    forall n: Node
      ensures n in Without(s, x) <==> n in s && n != x
    {
      WithoutMember(s, x, n);
    }
  }

  lemma {:induction false} WithoutShorter(s: seq<Node>, x: Node)
    ensures |Without(s, x)| <= |s|
  {
    if s != [] {
      WithoutShorter(s[1..], x);
    }
  }

  lemma DidNext(s: Agenda, actions: seq<Action>, i: nat, timers: set<Node>, now: Key)
    requires i < |actions| && Rightly(s, actions[i..], timers, now)
    ensures Right(s, actions[i], timers) && Rightly(Did(s, actions[i], now), actions[i + 1..], timers, now)
    ensures DidAll(s, actions[i..], now) == DidAll(Did(s, actions[i], now), actions[i + 1..], now)
  {
    hide Did, Right;
    assert actions[i..][1..] == actions[i + 1..];
  }

  lemma DidNothing(s: Agenda, actions: seq<Action>, now: Key)
    ensures DidAll(s, actions[|actions|..], now) == s
  {
  }

  lemma DeadlinesWithout(keys: map<Node, Key>, nodes: set<Node>, x: Node)
    requires keys.Keys == nodes + {x} && x !in nodes && forall n :: n in nodes ==> n.key == keys[n]
    ensures Deadlines(nodes) == keys - {x}
  {
  }

  lemma DeadlinesPut(keys: map<Node, Key>, nodes: set<Node>, next: set<Node>, x: Node, key: Key)
    requires keys.Keys == nodes && next == nodes + {x} && x.key == key
    requires forall n :: n in nodes && n != x ==> n.key == keys[n]
    ensures Deadlines(next) == keys[x := key]
  {
  }

  lemma DeadlinesStay(keys: map<Node, Key>, nodes: set<Node>)
    requires keys.Keys == nodes && forall n :: n in nodes ==> n.key == keys[n]
    ensures Deadlines(nodes) == keys
  {
  }

  lemma KeysBehind(s: seq<Node>, k: nat, keys: map<Node, Key>, key: Key)
    requires k <= |s| && Between(WrapLess, key, s[..k], s[k..]) && forall n :: n in s ==> n in keys && n.key == keys[n]
    ensures forall n :: n in s[k..] ==> n in keys && WrapLess(key, keys[n])
  {
    hide WrapLess;
  }

  lemma ViewWith(base: Key, nodes: set<Node>, now: Key, t: Millis)
    requires InView(base, Deadlines(nodes)) && Minus(now, base) + WORD32 <= HALF
    ensures InWindow(base, KeysOf(nodes) + {Plus(now, t)})
  {
    forall n | n in nodes
      ensures Minus(n.key, base) < HALF
    {
      assert n in Deadlines(nodes);
    }
    if t > 0 {
      ArmedLater(now, t, base);
    }
  }

  // When the loop begins, exactly those that are due wait.
  lemma DueAtFirst(tree: RbTree, now: Key, base: Key)
    requires tree.Valid() && tree.less == WrapLess
    requires InWindow(base, KeysOf(tree.nodes)) && Minus(now, base) + WORD32 <= HALF
    ensures var s := Due0(tree.Order(), Deadlines(tree.nodes), now);
      && s.keys == Deadlines(tree.nodes) && s.due <= tree.Order() && Waits(s.due, tree.Order(), s.keys, now)
      && InView(base, s.keys) && forall n :: n in tree.nodes ==> (n in s.due <==> Due(n.key, now))
  {
    hide Due, Scene, RedBlack, All, Minus;
    Strangers(tree);
    DeadlinesOf(tree.nodes);
    var order, keys := tree.Order(), Deadlines(tree.nodes);
    DueLater(order, tree.nodes, now, base);
    DueOfWaits(order, keys, now);
    hide Sorted, InOrder, DueOf, Waits;
    forall n | n in tree.nodes
      ensures Minus(keys[n], base) < HALF && (n in DueOf(order, keys, now) <==> Due(n.key, now))
    {
      KeysIn(tree.nodes);
      WaitsDue(DueOf(order, keys, now), order, keys, n, now);
    }
  }

  lemma WaitsDue(due: seq<Node>, order: seq<Node>, keys: map<Node, Key>, n: Node, now: Key)
    requires Waits(due, order, keys, now) && n in order
    ensures n in keys && (n in due <==> Due(keys[n], now))
  {
    hide Due;
    assert order == due + order[|due|..];
  }

  // ------------------------------------------------------------------ which timers fire

  ghost predicate Concerns(actions: seq<Action>, n: Node) { exists a :: a in actions && a.timer == n }

  // The elements of f come in d, in that order.
  ghost predicate Picked(f: seq<Node>, d: seq<Node>) {
    f == [] || (d != [] && ((f[0] == d[0] && Picked(f[1..], d[1..])) || Picked(f, d[1..])))
  }

  lemma {:induction false} PickedAll(d: seq<Node>)
    ensures Picked(d, d)
  {
    if d != [] {
      PickedAll(d[1..]);
    }
  }

  lemma {:induction false} PickedTrans(a: seq<Node>, b: seq<Node>, c: seq<Node>)
    requires Picked(a, b) && Picked(b, c)
    ensures Picked(a, c)
    decreases |b| + |c|
  {
    if a != [] {
      if b[0] == c[0] && Picked(b[1..], c[1..]) {
        if a[0] == b[0] && Picked(a[1..], b[1..]) {
          PickedTrans(a[1..], b[1..], c[1..]);
        } else {
          PickedTrans(a, b[1..], c[1..]);
        }
      } else {
        PickedTrans(a, b, c[1..]);
      }
    }
  }

  lemma {:induction false} PickedWithout(d: seq<Node>, x: Node)
    ensures Picked(Without(d, x), d)
  {
    if d != [] {
      PickedWithout(d[1..], x);
      var w := Without(d[1..], x);
      if d[0] != x {
        assert Without(d, x) == [d[0]] + w && Without(d, x)[1..] == w;
      } else {
        assert Without(d, x) == w;
      }
    }
  }

  lemma {:induction false} PickedDid(s: Agenda, actions: seq<Action>, now: Key)
    ensures Picked(DidAll(s, actions, now).due, s.due)
    decreases |actions|
  {
    hide Without;
    PickedAll(s.due);
    if actions != [] {
      var t := Did(s, actions[0], now);
      PickedDid(t, actions[1..], now);
      PickedWithout(s.due, actions[0].timer);
      PickedTrans(DidAll(t, actions[1..], now).due, t.due, s.due);
    }
  }

  lemma {:induction false} PickedIn(f: seq<Node>, d: seq<Node>, n: Node)
    requires Picked(f, d) && n in f
    ensures n in d
    decreases |d|
  {
    if f[0] == d[0] && Picked(f[1..], d[1..]) {
      if n != f[0] {
        PickedIn(f[1..], d[1..], n);
      }
    } else {
      PickedIn(f, d[1..], n);
    }
  }

  lemma {:induction false} PickedOnce(f: seq<Node>, d: seq<Node>)
    requires Picked(f, d) && Once(d)
    ensures Once(f)
    decreases |d|
  {
    if f != [] {
      assert forall i :: 0 <= i < |d| - 1 ==> d[1..][i] == d[i + 1];
      if f[0] == d[0] && Picked(f[1..], d[1..]) {
        PickedOnce(f[1..], d[1..]);
        if f[0] in f[1..] {
          PickedIn(f[1..], d[1..], f[0]);
        }
        assert forall i :: 0 < i < |f| ==> f[i] == f[1..][i - 1];
      } else {
        PickedOnce(f, d[1..]);
      }
    }
  }

  // Timers fire in the order of their deadlines, each once: ties in the order in which they were armed.
  lemma {:induction false} FiresInOrder(s: Agenda, plan: Node -> seq<Action>, now: Key)
    ensures Picked(Expiry(s, plan, now).0, s.due) && (Once(s.due) ==> Once(Expiry(s, plan, now).0))
    decreases |s.due|
  {
    PicksDue(s, plan, now);
    if Once(s.due) {
      PickedOnce(Expiry(s, plan, now).0, s.due);
    }
  }

  lemma {:induction false} PicksDue(s: Agenda, plan: Node -> seq<Action>, now: Key)
    ensures Picked(Expiry(s, plan, now).0, s.due)
    decreases |s.due|
  {
    if s.due != [] {
      hide DidAll;
      var t := DidAll(Fired(s), plan(s.due[0]), now);
      var f := Expiry(t, plan, now).0;
      PicksDue(t, plan, now);
      PickedDid(Fired(s), plan(s.due[0]), now);
      PickedTrans(f, t.due, s.due[1..]);
      assert ([s.due[0]] + f)[1..] == f;
    }
  }

  // A timer that no call concerns is due as before, and has the deadline it had.
  lemma {:induction false} DidOthers(s: Agenda, actions: seq<Action>, n: Node, now: Key)
    requires !Concerns(actions, n)
    ensures var r := DidAll(s, actions, now);
      && (n in r.due <==> n in s.due) && (n in r.keys <==> n in s.keys) && (n in s.keys ==> r.keys[n] == s.keys[n])
    decreases |actions|
  {
    if actions != [] {
      assert actions[0] in actions && actions[0].timer != n;
      WithoutMember(s.due, actions[0].timer, n);
      assert forall a :: a in actions[1..] ==> a in actions;
      DidOthers(Did(s, actions[0], now), actions[1..], n, now);
    }
  }

  // A timer that is due fires, unless the handler of one that fired before moved or deleted it.
  lemma {:induction false} FiresUnlessTouched(s: Agenda, plan: Node -> seq<Action>, n: Node, now: Key)
    requires n in s.due
    ensures n in Expiry(s, plan, now).0 || exists f :: f in Expiry(s, plan, now).0 && Concerns(plan(f), n)
    decreases |s.due|
  {
    hide DidAll;
    var x := s.due[0];
    var t := DidAll(Fired(s), plan(x), now);
    assert Expiry(s, plan, now).0 == [x] + Expiry(t, plan, now).0;
    if n != x {
      if Concerns(plan(x), n) {
        assert x in Expiry(s, plan, now).0;
      } else {
        DidOthers(Fired(s), plan(x), n, now);
        FiresUnlessTouched(t, plan, n, now);
        if n !in Expiry(t, plan, now).0 {
          var f :| f in Expiry(t, plan, now).0 && Concerns(plan(f), n);
          assert f in Expiry(s, plan, now).0;
        }
      }
    }
  }

  // A timer that did not fire and that no handler called concerns is in the tree as before.
  lemma {:induction false} StaysUnlessTouched(s: Agenda, plan: Node -> seq<Action>, n: Node, now: Key)
    requires var fired := Expiry(s, plan, now).0; n !in fired && forall f :: f in fired ==> !Concerns(plan(f), n)
    ensures var keys := Expiry(s, plan, now).1;
      (n in keys <==> n in s.keys) && (n in s.keys ==> keys[n] == s.keys[n])
    decreases |s.due|
  {
    if s.due != [] {
      hide DidAll;
      var x := s.due[0];
      var t := DidAll(Fired(s), plan(x), now);
      assert Expiry(s, plan, now).0 == [x] + Expiry(t, plan, now).0;
      assert x in Expiry(s, plan, now).0;
      DidOthers(Fired(s), plan(x), n, now);
      StaysUnlessTouched(t, plan, n, now);
    }
  }

  ghost predicate Once(d: seq<Node>) { forall i, j :: 0 <= i < j < |d| ==> d[i] != d[j] }

  // No handler touches a timer that is due and has not fired.
  ghost predicate Minds(plan: Node -> seq<Action>, due: seq<Node>) {
    forall i, j :: 0 <= i < j < |due| ==> !Concerns(plan(due[i]), due[j])
  }

  lemma {:induction false} DidDue(s: Agenda, actions: seq<Action>, now: Key)
    requires forall n :: n in s.due ==> !Concerns(actions, n)
    ensures DidAll(s, actions, now).due == s.due
    decreases |actions|
  {
    if actions != [] {
      var x := actions[0].timer;
      assert actions[0] in actions;
      assert x !in s.due;
      WithoutStranger(s.due, x);
      forall n | n in s.due
        ensures !Concerns(actions[1..], n)
      {
        assert forall a :: a in actions[1..] ==> a in actions;
      }
      DidDue(Did(s, actions[0], now), actions[1..], now);
    }
  }

  // Then exactly those that are due fire, whatever other timers the handlers arm and delete.
  lemma {:induction false} AllFire(s: Agenda, plan: Node -> seq<Action>, now: Key)
    requires Minds(plan, s.due)
    ensures Expiry(s, plan, now).0 == s.due
    decreases |s.due|
  {
    if s.due != [] {
      hide DidAll;
      var x, rest := s.due[0], s.due[1..];
      forall n | n in rest
        ensures !Concerns(plan(x), n)
      {
        var j :| 0 <= j < |rest| && rest[j] == n;
        assert s.due[j + 1] == n;
      }
      DidDue(Fired(s), plan(x), now);
      assert forall i :: 0 <= i < |rest| ==> rest[i] == s.due[i + 1];
      AllFire(DidAll(Fired(s), plan(x), now), plan, now);
    }
  }

  // The timers that their handlers arm again.
  ghost function Rearms(rearm: Node -> Millis, n: Node): seq<Action> {
    if rearm(n) > 0 then [Arm(n, rearm(n), false)] else []
  }

  // Those armed again have their new deadlines, the others that were due are gone.
  ghost predicate Rearmed(keys: map<Node, Key>, was: map<Node, Key>, due: seq<Node>, rearm: Node -> Millis, now: Key) {
    && keys.Keys <= was.Keys && (forall n :: n in was ==> (n in keys <==> (n in due ==> rearm(n) > 0)))
    && (forall n :: n in keys ==> keys[n] == if n in due then Plus(now, rearm(n)) else was[n])
  }

  ghost predicate OnlyRearms(s: Agenda, plan: Node -> seq<Action>, rearm: Node -> Millis) {
    Once(s.due) && forall n :: n in s.due ==> n in s.keys && plan(n) == Rearms(rearm, n)
  }

  lemma StillOnly(s: Agenda, plan: Node -> seq<Action>, rearm: Node -> Millis, now: Key)
    requires s.due != [] && OnlyRearms(s, plan, rearm)
    ensures s.due[0] !in s.due[1..] && s.due[0] in s.keys && plan(s.due[0]) == Rearms(rearm, s.due[0])
    ensures OnlyRearms(DidAll(Fired(s), plan(s.due[0]), now), plan, rearm)
  {
    hide Plus, DidAll, Rearms;
    var x, rest := s.due[0], s.due[1..];
    assert forall i :: 0 <= i < |rest| ==> rest[i] == s.due[i + 1];
    assert x in s.due;
    RearmedOne(s, rearm, now);
    assert forall n :: n in rest ==> n in s.due && n != x;
  }

  // If handlers do no more than that.
  lemma {:induction false} ArmedAgain(s: Agenda, plan: Node -> seq<Action>, rearm: Node -> Millis, now: Key)
    requires OnlyRearms(s, plan, rearm)
    ensures Expiry(s, plan, now).0 == s.due && Rearmed(Expiry(s, plan, now).1, s.keys, s.due, rearm, now)
    decreases |s.due|
  {
    if s.due != [] {
      hide Plus, Rearmed, DidAll, Rearms, OnlyRearms;
      StillOnly(s, plan, rearm, now);
      RearmedOne(s, rearm, now);
      var t := DidAll(Fired(s), plan(s.due[0]), now);
      ArmedAgain(t, plan, rearm, now);
      RearmedMore(Expiry(t, plan, now).1, t.keys, s, rearm, now);
    }
  }

  lemma RearmedMore(keys: map<Node, Key>, was: map<Node, Key>, s: Agenda, rearm: Node -> Millis, now: Key)
    requires s.due != [] && s.due[0] !in s.due[1..] && s.due[0] in s.keys
    requires Rearmed(keys, was, s.due[1..], rearm, now)
    requires var x := s.due[0];
      was == if rearm(x) > 0 then (s.keys - {x})[x := Plus(now, rearm(x))] else s.keys - {x}
    ensures Rearmed(keys, s.keys, s.due, rearm, now)
  {
    hide Plus;
    assert forall n :: n in s.due <==> n == s.due[0] || n in s.due[1..];
  }

  lemma RearmedOne(s: Agenda, rearm: Node -> Millis, now: Key)
    requires s.due != [] && s.due[0] !in s.due[1..]
    ensures var (x, t) := (s.due[0], DidAll(Fired(s), Rearms(rearm, s.due[0]), now));
      && t.due == s.due[1..]
      && t.keys == if rearm(x) > 0 then (s.keys - {x})[x := Plus(now, rearm(x))] else s.keys - {x}
  {
    hide Plus;
    var x := s.due[0];
    WithoutStranger(s.due[1..], x);
    if rearm(x) > 0 {
      var a := Arm(x, rearm(x), false);
      assert [a][1..] == [];
      assert DidAll(Fired(s), [a], now) == DidAll(Did(Fired(s), a, now), [], now);
    }
  }

  // Behind a timer that is not due none is.
  lemma DueLater(order: seq<Node>, nodes: set<Node>, now: Key, base: Key)
    requires Sorted(WrapLess, order) && InWindow(base, KeysOf(nodes)) && Minus(now, base) < HALF
    requires forall n :: n in order ==> n in nodes
    ensures forall i, j :: 0 <= i < j < |order| && Due(order[j].key, now) ==> Due(order[i].key, now)
  {
    forall i, j | 0 <= i < j < |order| && Due(order[j].key, now)
      ensures Due(order[i].key, now)
    {
      assert order[i] in order && order[j] in order && order[i].key in KeysOf(nodes) && order[j].key in KeysOf(nodes);
      DueInWindow(order[i].key, now, base);
      DueInWindow(order[j].key, now, base);
      WrapLessInWindow(order[j].key, order[i].key, base);
    }
  }

  lemma {:induction false} DueOfWaits(order: seq<Node>, keys: map<Node, Key>, now: Key)
    requires forall n :: n in order ==> n in keys
    requires forall i, j :: 0 <= i < j < |order| && Due(keys[order[j]], now) ==> Due(keys[order[i]], now)
    ensures Waits(DueOf(order, keys, now), order, keys, now)
  {
    hide Due;
    if order != [] && Due(keys[order[0]], now) {
      var rest := order[1..];
      assert forall i :: 0 <= i < |rest| ==> rest[i] == order[i + 1];
      DueOfWaits(rest, keys, now);
      var due := DueOf(order, keys, now);
      assert order[|due|..] == rest[|due| - 1..];
      assert due == [order[0]] + DueOf(rest, keys, now);
    }
  }

  // ------------------------------------------------------------------ the times that MinMs and Expire return

  // The time that ztl_evtimer_min_ms is documented to count from: last_time if it is given 0.
  function CountsFrom(now: Key, last: Key): Key { if now == 0 then last else now }

  // What it returns is what it promises exactly if it is given 0 or last_time.
  lemma MinMsExactly(first: Key, now: Key, last: Key)
    ensures Signed(Minus(first, last)) == Signed(Minus(first, CountsFrom(now, last))) <==> now == 0 || now == last
  {
  }

  // Ten milliseconds after the last update it is ten too many.
  lemma MinMsLate(last: Key, d: Millis)
    requires 0 < last && last + WORD32 < HALF && d >= 10
    ensures Signed(Minus(last + d, last)) == d && Signed(Minus(last + d, CountsFrom(last + 10, last))) == d - 10
  {
  }

  // Cutting the delay to an int keeps it exactly when it is below 2^31; timeouts of up to 2^32 - 1 are accepted.
  lemma DelayKept(d: int)
    requires 0 <= d < HALF
    ensures Truncated(d) == d <==> d < WORD32 / 2
  {
    if d < WORD32 / 2 {
      assert d % WORD32 == d;
    }
  }

  // The first timer has the smallest time left.
  lemma FirstIsSoonest(tree: RbTree, now: Key, base: Key)
    requires tree.Valid() && tree.less == WrapLess && tree.Order() != []
    requires InWindow(base, KeysOf(tree.nodes)) && Minus(now, base) < HALF
    ensures forall n :: n in tree.nodes ==> Signed(Minus(tree.Order()[0].key, now)) <= Signed(Minus(n.key, now))
  {
    var s := tree.Order();
    forall n | n in tree.nodes
      ensures Signed(Minus(s[0].key, now)) <= Signed(Minus(n.key, now))
    {
      Strangers(tree);
      var j :| 0 <= j < |s| && s[j] == n;
      assert s[0] in s && s[0].key in KeysOf(tree.nodes) && n.key in KeysOf(tree.nodes);
      WrapLessInWindow(n.key, s[0].key, base);
      SignedInWindow(s[0].key, now, base);
      SignedInWindow(n.key, now, base);
    }
  }

  lemma SignedInWindow(key: Key, now: Key, base: Key)
    requires Minus(key, base) < HALF && Minus(now, base) < HALF
    ensures Signed(Minus(key, now)) == Minus(key, base) - Minus(now, base)
  {
  }
}
