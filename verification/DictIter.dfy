// Safe iterators: while one is at work no bucket moves, so every entry that stays is returned once.
module DictIter {
  import opened Words
  import opened DictState
  import opened Dict

  // Where an iterator stands: in bucket `index` of a table, with `rest` of its chain still to return.
  datatype Position = Position(table: nat, index: int, rest: seq<Entry>)

  const START := Position(0, -1, [])

  datatype Step = Returned(e: Entry, at: Position) | Ended(at: Position)

  // The next non-empty bucket after the position.
  ghost function NextBucketFrom(s: State, p: Position): Step
    requires p.index >= -1
    decreases p.table == 0, |Chain(s, p.table)| - p.index
  {
    var i := p.index + 1;
    if i < |Chain(s, p.table)| then
      var c := Chain(s, p.table)[i];
      if c != [] then Returned(c[0], Position(p.table, i, c[1..]))
      else NextBucketFrom(s, Position(p.table, i, []))
    else if Rehashing(s) && p.table == 0 then
      var c := Bucket(s.c1, 0);
      if c != [] then Returned(c[0], Position(1, 0, c[1..]))
      else NextBucketFrom(s, Position(1, 0, []))
    else
      Ended(Position(p.table, i, []))
  }

  // What dictNext returns, and where it leaves the iterator.
  ghost function NextStep(s: State, p: Position): Step
    requires p.index >= -1
  {
    if p.rest != [] then Returned(p.rest[0], p.(rest := p.rest[1..])) else NextBucketFrom(s, p)
  }

  // The position makes sense in the current shape.
  ghost predicate Stands(s: State, p: Position) {
    && p.index >= -1 && p.table <= 1
    && (p.table == 1 ==> Rehashing(s))
    && (p.rest != [] ==>
          && 0 <= p.index < |Chain(s, p.table)|
          && Suffix(p.rest, Chain(s, p.table)[p.index]))
  }

  ghost predicate Suffix(rest: seq<Entry>, c: seq<Entry>) {
    |rest| <= |c| && c[|c| - |rest|..] == rest
  }

  lemma SuffixLinked(head: Entry?, c: seq<Entry>, rest: seq<Entry>)
    requires Linked(head, c) && Suffix(rest, c)
    ensures Linked(At(rest, 0), rest)
  {
    var k := |c| - |rest|;
    assert forall j :: 0 <= j < |rest| ==> rest[j] == c[k + j];
  }

  lemma RestLinked(t: Table, c: Chains, k: nat, nodes: set<Entry>, i: nat, rest: seq<Entry>)
    requires HoldsBut(t, c, k, nodes, -1) && i < |c| && Suffix(rest, c[i])
    ensures t.buckets != null && i < t.buckets.Length && Linked(At(rest, 0), rest)
  {
    hide Total;
    SuffixLinked(t.buckets[i], c[i], rest);
  }

  // The head of bucket i, and the entries behind it.
  method OpenBucket(t: Table, i: nat, ghost c: Chains, ghost k: nat, ghost nodes: set<Entry>) returns (head: Entry?)
    requires HoldsBut(t, c, k, nodes, -1) && i < |c|
    ensures head == At(c[i], 0) && Linked(head, c[i])
  {
    head := t.buckets[i];
  }

  // The loop of dictNext.
  method Advance(t0: Table, t1: Table, rehashing: bool, table: nat, index: int, entry: Entry?, nextEntry: Entry?,
                 ghost s: State, ghost rest: seq<Entry>)
    returns (table': nat, index': int, entry': Entry?, nextEntry': Entry?, ghost rest': seq<Entry>)
    requires HoldsBut(t0, s.c0, s.k0, s.nodes, -1) && HoldsBut(t1, s.c1, s.k1, s.nodes, -1)
    requires Layout(s) && (rehashing <==> Rehashing(s)) && Stands(s, Position(table, index, rest))
    requires entry == null ==> rest == []
    requires entry != null ==> nextEntry == At(rest, 0) && Linked(nextEntry, rest)
    ensures
      var at := Position(table', index', rest');
      && Stands(s, at)
      && NextStep(s, Position(table, index, rest)) == (if entry' == null then Ended(at) else Returned(entry', at))
      && (entry' == null ==> rest' == [])
      && (entry' != null ==> nextEntry' == At(rest', 0))
  {
    hide HoldsBut, Linked, Total;
    SizedBy(t0, s.c0, s.k0, s.nodes, -1);
    SizedBy(t1, s.c1, s.k1, s.nodes, -1);
    table', index', entry', nextEntry', rest' := table, index, entry, nextEntry, rest;
    while true
      invariant Stands(s, Position(table', index', rest'))
      invariant NextStep(s, Position(table', index', rest')) == NextStep(s, Position(table, index, rest))
      invariant entry' == null ==> rest' == []
      invariant entry' != null ==> nextEntry' == At(rest', 0) && Linked(nextEntry', rest')
      decreases table' == 0, |Chain(s, table')| - index', entry' != null
    {
      ghost var c := rest';
      if entry' == null {
        var ht := if table' == 0 then t0 else t1;
        index' := index' + 1;
        if index' >= ht.size {
          if rehashing && table' == 0 {
            table', index' := 1, 0;
            ht := t1;
          } else {
            return;
          }
        }
        c := Chain(s, table')[index'];
        if table' == 0 {
          entry' := OpenBucket(t0, index', s.c0, s.k0, s.nodes);
        } else {
          entry' := OpenBucket(t1, index', s.c1, s.k1, s.nodes);
        }
      } else {
        entry' := nextEntry';
      }
      if entry' != null {
        LinkedTail(entry', c);
        LinkedHead(c[0].next, c[1..]);
        nextEntry', rest' := entry'.next, c[1..];
        return;
      }
    }
  }

  lemma LinkedHead(head: Entry?, c: seq<Entry>)
    requires Linked(head, c)
    ensures head == At(c, 0)
  {
  }

  class SafeIterator {
    const d: Dict
    var table: nat
    var index: int
    var entry: Entry?
    var nextEntry: Entry?
    ghost var rest: seq<Entry>

    ghost function Pos(): Position
      reads this
    {
      Position(table, index, rest)
    }

    ghost predicate Valid()
      reads this, d, d.ht0.buckets, d.ht1.buckets, d.s.nodes`next
    {
      && d.Valid()
      && Stands(d.s, Pos())
      && (entry == null ==> rest == [])
      && (entry != null ==> nextEntry == At(rest, 0))
      && (!(index == -1 && table == 0) ==> d.iterators > 0)
    }

    constructor (d: Dict)
      requires d.Valid()
      ensures Valid() && this.d == d && Pos() == START && entry == null
    {
      this.d := d;
      table, index, entry, nextEntry, rest := 0, -1, null, null, [];
    }

    // The count at the first step.
    method Begin()
      requires Valid()
      modifies d`iterators
      ensures Valid() && d.iterators == old(d.iterators) + 1
    {
      hide HomesOf, WellFormed, GoodKeys, HoldsBut, Stands;
      assert d.ht0.buckets as object? != d && d.ht1.buckets as object? != d;
      d.iterators := d.iterators + 1;
    }

    // The rest of the chain hangs from the link that was saved.
    lemma NextLinked()
      requires Valid()
      ensures Layout(d.s) && (entry != null ==> Linked(nextEntry, rest)) && (d.rehashidx != -1 <==> Rehashing(d.s))
      ensures HoldsBut(d.ht0, d.s.c0, d.s.k0, d.s.nodes, -1) && HoldsBut(d.ht1, d.s.c1, d.s.k1, d.s.nodes, -1)
      ensures Pos() == START <==> index == -1 && table == 0
    {
      hide HomesOf, WellFormed, GoodKeys, HoldsBut, Linked;
      LayoutOf(HomesOf(d.hash), d.same, d.s);
      if rest != [] {
        if table == 0 {
          RestLinked(d.ht0, d.s.c0, d.s.k0, d.s.nodes, index, rest);
        } else {
          RestLinked(d.ht1, d.s.c1, d.s.k1, d.s.nodes, index, rest);
        }
      } else {
        LinkedNull();
      }
    }

    method Next() returns (e: Entry?)
      requires Valid()
      modifies this, d`iterators
      ensures Valid() && d.s == old(d.s)
      ensures d.iterators == old(d.iterators) + (if old(Pos()) == START then 1 else 0)
      ensures
        match NextStep(d.s, old(Pos()))
        case Returned(x, p) => e == x && entry == x && Pos() == p
        case Ended(p) => e == null && entry == null && Pos() == p
    {
      hide HomesOf, WellFormed, GoodKeys, HoldsBut, Linked, NextStep, Layout, Stands, Dict.Valid;
      NextLinked();
      if index == -1 && table == 0 {
        Begin();
        NextLinked();
      }
      assert d.ht0.buckets as object? != this && d.ht1.buckets as object? != this;
      table, index, entry, nextEntry, rest :=
        Advance(d.ht0, d.ht1, d.rehashidx != -1, table, index, entry, nextEntry, d.s, rest);
      return entry;
    }

    // The bookkeeping of dictReleaseIterator.
    method Release()
      requires Valid()
      modifies d`iterators
      ensures d.Valid() && d.iterators == old(d.iterators) - (if Pos() == START then 0 else 1)
    {
      hide HomesOf, WellFormed, GoodKeys, HoldsBut, Stands;
      NextLinked();
      assert d.ht0.buckets as object? != d && d.ht1.buckets as object? != d;
      if !(index == -1 && table == 0) {
        d.iterators := d.iterators - 1;
      }
    }
  }

  // ------------------------------------------------------------------ what is still to come

  // The iterator will come to e if nothing changes.
  ghost predicate Ahead(home: Homes, s: State, p: Position, e: Entry) {
    || e in p.rest
    || (In(home, Chain(s, p.table), Size(s, p.table), e) && home(e.key, Size(s, p.table)) > p.index)
    || (p.table == 0 && In(home, s.c1, s.k1, e))
  }

  // e is not ahead once it has been returned, and nothing else is passed over.
  ghost predicate Consumes(home: Homes, s: State, p: Position, step: Step, e: Entry) {
    match step
    case Returned(x, q) =>
      && Stands(s, q) && x in s.nodes && !Ahead(home, s, q, x)
      && (Ahead(home, s, p, e) <==> Ahead(home, s, q, e) || e == x)
    case Ended(q) => Stands(s, q) && !Ahead(home, s, p, e) && !Ahead(home, s, q, e)
  }

  // Opening chain i of a table, the first bucket not yet passed.
  lemma OpenConsumes(home: Homes, same: Compare, s: State, p: Position, table: nat, i: nat, e: Entry)
    requires WellFormed(home, same, s) && e in s.nodes && Stands(s, p) && p.rest == []
    requires table <= 1 && i < |Chain(s, table)| && (table == 1 ==> Rehashing(s))
    requires (table == p.table && i == p.index + 1) || (p.table == 0 && table == 1 && i == 0 && p.index + 1 >= |s.c0|)
    ensures
      var c := Chain(s, table)[i];
      if c != [] then Consumes(home, s, p, Returned(c[0], Position(table, i, c[1..])), e)
      else
        && Stands(s, Position(table, i, []))
        && (Ahead(home, s, p, e) <==> Ahead(home, s, Position(table, i, []), e))
  {
    hide WellFormed, In;
    EntryFacts(home, same, s, e);
    ChainDistinct(home, same, s, table, i);
    var c := Chain(s, table)[i];
    if c != [] {
      assert c[0] in c;
      EntryFacts(home, same, s, c[0]);
      assert c == [c[0]] + c[1..];
    }
  }

  lemma {:induction false} NextBucketConsumes(home: Homes, same: Compare, s: State, p: Position, e: Entry)
    requires WellFormed(home, same, s) && e in s.nodes && Stands(s, p) && p.rest == []
    ensures Consumes(home, s, p, NextBucketFrom(s, p), e)
    decreases p.table == 0, |Chain(s, p.table)| - p.index
  {
    hide WellFormed, In, Ahead;
    var i := p.index + 1;
    if i < |Chain(s, p.table)| {
      OpenConsumes(home, same, s, p, p.table, i, e);
      if Chain(s, p.table)[i] == [] {
        NextBucketConsumes(home, same, s, Position(p.table, i, []), e);
      }
    } else if Rehashing(s) && p.table == 0 {
      SecondTableNotEmpty(home, same, s);
      OpenConsumes(home, same, s, p, 1, 0, e);
      if s.c1[0] == [] {
        NextBucketConsumes(home, same, s, Position(1, 0, []), e);
      }
    } else {
      NothingAhead(home, same, s, p, e);
    }
  }

  lemma SecondTableNotEmpty(home: Homes, same: Compare, s: State)
    requires WellFormed(home, same, s) && Rehashing(s)
    ensures |s.c1| > 0
  {
    hide Total;
  }

  lemma NothingAhead(home: Homes, same: Compare, s: State, p: Position, e: Entry)
    requires WellFormed(home, same, s) && e in s.nodes && Stands(s, p) && p.rest == []
    requires p.index + 1 >= |Chain(s, p.table)| && (Rehashing(s) ==> p.table == 1)
    ensures !Ahead(home, s, p, e) && !Ahead(home, s, p.(index := p.index + 1), e)
  {
    hide WellFormed, In;
    EntryFacts(home, same, s, e);
  }

  lemma RestConsumes(home: Homes, same: Compare, s: State, p: Position, e: Entry)
    requires WellFormed(home, same, s) && e in s.nodes && Stands(s, p) && p.rest != []
    ensures Consumes(home, s, p, Returned(p.rest[0], p.(rest := p.rest[1..])), e)
  {
    hide WellFormed, In;
    var c := Chain(s, p.table)[p.index];
    var x := p.rest[0];
    var k := |c| - |p.rest|;
    assert x == c[k] && c[k + 1..] == p.rest[1..];
    assert x in c;
    EntryFacts(home, same, s, e);
    EntryFacts(home, same, s, x);
    ChainDistinct(home, same, s, p.table, p.index);
    assert p.rest == [x] + p.rest[1..];
  }

  lemma NextConsumes(home: Homes, same: Compare, s: State, p: Position, e: Entry)
    requires WellFormed(home, same, s) && e in s.nodes && Stands(s, p)
    ensures Consumes(home, s, p, NextStep(s, p), e)
  {
    hide WellFormed, Consumes, Stands;
    if p.rest != [] {
      RestConsumes(home, same, s, p, e);
    } else {
      NextBucketConsumes(home, same, s, p, e);
    }
  }

  // ------------------------------------------------------------------ changes while an iterator is at work

  // The operations allowed: lookups, adding a key, and unlinking the entry returned last.
  ghost predicate Change(home: Homes, same: Compare, s: State, t: State, last: Entry?) {
    t == s || Added(home, same, s, t) || (last != null && Removed(s, t, last))
  }

  lemma GrowKeepsAhead(home: Homes, same: Compare, s: State, k: nat, p: Position, e: Entry)
    requires WellFormed(home, same, s) && e in s.nodes && MayGrow(s, k) && Stands(s, p)
    ensures WellFormed(home, same, GrowTo(s, k)) && GrowTo(s, k).nodes == s.nodes
    ensures Stands(GrowTo(s, k), p)
    ensures Ahead(home, s, p, e) <==> Ahead(home, GrowTo(s, k), p, e)
  {
    hide WellFormed, In, Pow2;
    if k != 0 {
      GrowKeeps(home, same, s, k);
      EntryFacts(home, same, s, e);
      EntryFacts(home, same, GrowTo(s, k), e);
      LayoutOf(home, same, s);
    }
  }

  lemma InsertKeepsAhead(home: Homes, same: Compare, s: State, x: Entry, p: Position, e: Entry)
    requires GoodHomes(home) && WellFormed(home, same, s) && s.c0 != [] && e in s.nodes && Stands(s, p)
    requires Absent(same, s.entries, x.key) && same(x.key, x.key)
    ensures Stands(Insert(home, s, x), p)
    ensures Ahead(home, s, p, e) <==> Ahead(home, Insert(home, s, x), p, e)
  {
    hide WellFormed, In, Absent, GoodHomes, Homed, Layout, Total;
    InsertPlaces(home, same, s, x);
    InsertNowhere(home, same, s, x);
    AbsentIsNowhere(home, same, s, x);
    InsertStands(home, s, x, p);
  }

  lemma InsertStands(home: Homes, s: State, x: Entry, p: Position)
    requires Stands(s, p)
    ensures Stands(Insert(home, s, x), p)
  {
    if p.rest != [] {
      var c := Chain(s, p.table)[p.index];
      var d := [x] + c;
      assert d[|d| - |p.rest|..] == c[|c| - |p.rest|..];
    }
  }

  lemma RemoveKeepsAhead(home: Homes, same: Compare, s: State, table: nat, i: nat, j: nat, p: Position, e: Entry)
    requires WellFormed(home, same, s) && table <= 1 && i < |Chain(s, table)| && j < |Chain(s, table)[i]|
    requires e in s.nodes && e != Chain(s, table)[i][j] && Chain(s, table)[i][j] !in p.rest && Stands(s, p)
    ensures Stands(Remove(s, table, i, j), p)
    ensures Ahead(home, s, p, e) <==> Ahead(home, Remove(s, table, i, j), p, e)
  {
    hide WellFormed, In, Homed;
    RemovePlaces(home, same, s, table, i, j);
    RemoveStands(s, table, i, j, p);
  }

  lemma RemoveStands(s: State, table: nat, i: nat, j: nat, p: Position)
    requires table <= 1 && i < |Chain(s, table)| && j < |Chain(s, table)[i]|
    requires Chain(s, table)[i][j] !in p.rest && Stands(s, p)
    ensures Stands(Remove(s, table, i, j), p)
  {
    if p.rest != [] && p.table == table && p.index == i {
      var c := Chain(s, table)[i];
      var d := DropAt(c, j);
      var k := |c| - |p.rest|;
      assert forall l :: k <= l < |c| ==> c[l] == p.rest[l - k];
      assert d[|d| - |p.rest|..] == c[k..];
    }
  }

  lemma ChangeKeepsAhead(hash: Hash, same: Compare, s: State, t: State, last: Entry?, p: Position, e: Entry)
    requires GoodKeys(hash, same) && WellFormed(HomesOf(hash), same, s)
    requires Change(HomesOf(hash), same, s, t, last)
    requires e in s.nodes && e in t.nodes && Stands(s, p) && (last != null ==> last !in p.rest)
    ensures Stands(t, p)
    ensures Ahead(HomesOf(hash), s, p, e) <==> Ahead(HomesOf(hash), t, p, e)
  {
    hide GoodKeys, HomesOf, WellFormed, GoodHomes, Stands, Ahead, MayGrow, Insert, Absent, Remove, GrowTo;
    var home := HomesOf(hash);
    HomesOfGood(hash);
    if t != s {
      if Added(home, same, s, t) {
        var k: nat :| MayGrow(s, k) && (t == GrowTo(s, k) || AddedTo(home, same, GrowTo(s, k), t));
        var g := GrowTo(s, k);
        GrowKeepsAhead(home, same, s, k, p, e);
        if t != g {
          var x :| x in t.nodes && Absent(same, g.entries, x.key) && t == Insert(home, g, x);
          SameAsItself(hash, same, x.key);
          InsertKeepsAhead(home, same, g, x, p, e);
        }
      } else {
        var table: nat, i: nat, j: nat :|
          && table <= 1 && i < |Chain(s, table)| && j < |Chain(s, table)[i]| && Chain(s, table)[i][j] == last
          && t == Remove(s, table, i, j);
        RemovedIsGone(s, table, i, j);
        RemoveKeepsAhead(home, same, s, table, i, j, p, e);
      }
    }
  }

  lemma RemovedIsGone(s: State, table: nat, i: nat, j: nat)
    requires i < |Chain(s, table)| && j < |Chain(s, table)[i]|
    ensures Chain(s, table)[i][j] !in Remove(s, table, i, j).nodes
  {
  }

  // ------------------------------------------------------------------ a whole iteration

  // What is seen between two moments: dictNext is called, or the dictionary changes.
  datatype Event = Gave(e: Entry) | GaveNothing | Changed

  // The shape, the iterator, and the entry it returned last.
  datatype Moment = Moment(s: State, p: Position, last: Entry?)

  ghost predicate Follows(home: Homes, same: Compare, m: Moment, ev: Event, n: Moment) {
    && Stands(m.s, m.p)
    && match ev
       case Changed => n.p == m.p && n.last == m.last && Change(home, same, m.s, n.s, m.last)
       case Gave(e) => n.s == m.s && n.last == e && NextStep(m.s, m.p) == Returned(e, n.p)
       case GaveNothing => n.s == m.s && n.last == null && NextStep(m.s, m.p) == Ended(n.p)
  }

  // A run that begins with a new iterator.
  ghost predicate Iteration(hash: Hash, same: Compare, moments: seq<Moment>, events: seq<Event>) {
    && |moments| == |events| + 1
    && moments[0].p == START && moments[0].last == null
    && (forall i :: 0 <= i < |moments| ==> WellFormed(HomesOf(hash), same, moments[i].s))
    && (forall i :: 0 <= i < |events| ==> Follows(HomesOf(hash), same, moments[i], events[i], moments[i + 1]))
  }

  // How often e was returned.
  function Times(events: seq<Event>, e: Entry): nat {
    if events == [] then 0
    else Times(events[..|events| - 1], e) + (if events[|events| - 1] == Gave(e) then 1 else 0)
  }

  // What an iteration keeps: an entry that stays is ahead until it is returned, once.
  lemma {:induction false} ReturnedOrAhead(hash: Hash, same: Compare, moments: seq<Moment>, events: seq<Event>,
                                           e: Entry, n: nat)
    requires GoodKeys(hash, same) && Iteration(hash, same, moments, events) && n <= |events|
    requires forall i :: 0 <= i < |moments| ==> e in moments[i].s.nodes
    ensures Stands(moments[n].s, moments[n].p)
    ensures moments[n].last != null ==> moments[n].last !in moments[n].p.rest
    ensures Times(events[..n], e) == if Ahead(HomesOf(hash), moments[n].s, moments[n].p, e) then 0 else 1
    decreases n
  {
    hide GoodKeys, HomesOf, WellFormed, NextStep, Change;
    var home := HomesOf(hash);
    if n == 0 {
      AheadAtStart(home, same, moments[0].s, e);
    } else {
      ReturnedOrAhead(hash, same, moments, events, e, n - 1);
      var m, ev := moments[n - 1], events[n - 1];
      assert Follows(home, same, m, ev, moments[n]);
      assert events[..n][..n - 1] == events[..n - 1];
      if ev.Changed? {
        ChangeKeepsAhead(hash, same, m.s, moments[n].s, m.last, m.p, e);
      } else {
        NextConsumes(home, same, m.s, m.p, e);
      }
    }
  }

  lemma AheadAtStart(home: Homes, same: Compare, s: State, e: Entry)
    requires WellFormed(home, same, s) && e in s.nodes
    ensures Stands(s, START) && Ahead(home, s, START, e)
  {
    hide WellFormed, In;
    EntryFacts(home, same, s, e);
  }

  // The guarantee of a safe iterator: by the time dictNext returns nothing, every entry
  // that stayed in the dictionary has been returned exactly once.
  lemma ExactlyOnce(hash: Hash, same: Compare, moments: seq<Moment>, events: seq<Event>, e: Entry)
    requires GoodKeys(hash, same) && Iteration(hash, same, moments, events)
    requires events != [] && events[|events| - 1] == GaveNothing
    requires forall i :: 0 <= i < |moments| ==> e in moments[i].s.nodes
    ensures Times(events, e) == 1
  {
    hide GoodKeys, HomesOf, WellFormed, NextStep, Change, Ahead, Stands;
    var n := |events|;
    ReturnedOrAhead(hash, same, moments, events, e, n);
    ReturnedOrAhead(hash, same, moments, events, e, n - 1);
    var m := moments[n - 1];
    assert Follows(HomesOf(hash), same, m, events[n - 1], moments[n]);
    NextConsumes(HomesOf(hash), same, m.s, m.p, e);
    assert events[..n] == events;
  }
}
