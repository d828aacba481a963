// The lock-free ring, as steps of threads that interleave at every access to shared memory.
module LfQueue {
  import opened Arithmetic

  // ------------------------------------------------------------------ shared memory and threads

  // Where a thread is: in lfqueue_push
  //   Wanting    before it reads wtindex         SawWrite  before it reads rdindex
  //   NotFull    before the CAS on wtindex       Filling   k words of the slot copied; then the CAS on maxreadindex
  // and in lfqueue_pop
  //   Seeking    before it reads rdindex         SawRead   before it reads maxreadindex
  //   Copying    some words of the slot copied; then the CAS on rdindex
  // An idle thread has what its last call returned.
  datatype Local<W> =
    | Idle(last: Return<W>)
    | Wanting(v: seq<W>)
    | SawWrite(v: seq<W>, cw: nat)
    | NotFull(v: seq<W>, cw: nat)
    | Filling(v: seq<W>, cw: nat, k: nat)
    | Seeking
    | SawRead(cr: nat)
    | Copying(cr: nat, buf: seq<W>)

  // -1 from either call, 0 from a push, and 0 from a pop with the element copied out.
  datatype Return<W> = NoCall | Refused | Accepted | Taken(v: seq<W>)

  datatype Queue<W> = Queue(size: nat, words: nat, rd: nat, wt: nat, mx: nat, slots: seq<seq<W>>,
                            threads: seq<Local<W>>)

  datatype Event<W> = Push(v: seq<W>) | Pop | Go

  // TO_INDEX(idx + 1, size)
  function Next(idx: nat, size: nat): nat { if idx + 1 < size then idx + 1 else idx + 1 - size }

  predicate LocalFits<W>(l: Local<W>, size: nat, words: nat) {
    match l
    case Wanting(v) => |v| == words
    case SawWrite(v, cw) => |v| == words && cw < size
    case NotFull(v, cw) => |v| == words && cw < size
    case Filling(v, cw, k) => |v| == words && cw < size && k <= words
    case SawRead(cr) => cr < size
    case Copying(cr, buf) => cr < size && |buf| <= words
    case _ => true
  }

  predicate Fits<W>(q: Queue<W>) {
    && |q.slots| == q.size && (forall i :: 0 <= i < q.size ==> |q.slots[i]| == q.words)
    && (forall t :: 0 <= t < |q.threads| ==> LocalFits(q.threads[t], q.size, q.words))
  }

  predicate Shaped<W>(q: Queue<W>) { 1 <= q.size && q.rd < q.size && q.wt < q.size && q.mx < q.size && Fits(q) }

  // One atomic step of thread t.
  function Step<W>(q: Queue<W>, t: nat, e: Event<W>): Queue<W>
    requires Fits(q) && t < |q.threads|
  {
    assert LocalFits(q.threads[t], q.size, q.words);
    match q.threads[t]
    case Idle(_) =>
      if e.Push? && |e.v| == q.words then q.(threads := q.threads[t := Wanting(e.v)])
      else if e.Pop? then q.(threads := q.threads[t := Seeking])
      else q
    case Wanting(v) => q.(threads := q.threads[t := SawWrite(v, q.wt)])
    case SawWrite(v, cw) =>
      if Next(cw, q.size) == q.rd then q.(threads := q.threads[t := Idle(Refused)])
      else q.(threads := q.threads[t := NotFull(v, cw)])
    case NotFull(v, cw) =>
      if q.wt == cw then q.(wt := Next(cw, q.size), threads := q.threads[t := Filling(v, cw, 0)])
      else q.(threads := q.threads[t := Wanting(v)])
    case Filling(v, cw, k) =>
      if k < q.words then
        q.(slots := q.slots[cw := q.slots[cw][k := v[k]]], threads := q.threads[t := Filling(v, cw, k + 1)])
      else if q.mx == cw then q.(mx := Next(cw, q.size), threads := q.threads[t := Idle(Accepted)])
      else q
    case Seeking => q.(threads := q.threads[t := SawRead(q.rd)])
    case SawRead(cr) =>
      if cr == q.mx then q.(threads := q.threads[t := Idle(Refused)])
      else q.(threads := q.threads[t := Copying(cr, [])])
    case Copying(cr, buf) =>
      if |buf| < q.words then q.(threads := q.threads[t := Copying(cr, buf + [q.slots[cr][|buf|]])])
      else if q.rd == cr then q.(rd := Next(cr, q.size), threads := q.threads[t := Idle(Taken(buf))])
      else q.(threads := q.threads[t := Seeking])
  }

  // ------------------------------------------------------------------ what a run has done

  // The counters without wrap-around; the elements in the order their slots were reserved, and in the order
  // they were taken, and the threads that did it; for each taken element the count of the slot it was copied from;
  // and for each thread the count behind the index it read last. No step looks at these.
  datatype History<W> = History(read: nat, max: nat, write: nat, pushed: seq<seq<W>>, popped: seq<seq<W>>,
                                took: seq<nat>, marks: seq<nat>, pushers: seq<nat>, poppers: seq<nat>)

  predicate Reserves<W>(q: Queue<W>, t: nat)
    requires t < |q.threads|
  {
    q.threads[t].NotFull? && q.wt == q.threads[t].cw
  }

  predicate Publishes<W>(q: Queue<W>, t: nat)
    requires t < |q.threads|
  {
    q.threads[t].Filling? && q.threads[t].k >= q.words && q.mx == q.threads[t].cw
  }

  predicate Takes<W>(q: Queue<W>, t: nat)
    requires t < |q.threads|
  {
    q.threads[t].Copying? && |q.threads[t].buf| >= q.words && q.rd == q.threads[t].cr
  }

  function Record<W>(q: Queue<W>, h: History<W>, t: nat): History<W>
    requires t < |q.threads| == |h.marks|
  {
    if q.threads[t].Wanting? then h.(marks := h.marks[t := h.write])
    else if q.threads[t].Seeking? then h.(marks := h.marks[t := h.read])
    else if Reserves(q, t) then
      h.(write := h.write + 1, pushed := h.pushed + [q.threads[t].v], pushers := h.pushers + [t])
    else if Publishes(q, t) then h.(max := h.max + 1)
    else if Takes(q, t) then
      h.(read := h.read + 1, popped := h.popped + [q.threads[t].buf], took := h.took + [h.marks[t]],
         poppers := h.poppers + [t])
    else h
  }

  // The thread's CAS succeeds although the index went all the way round since the thread read it.
  predicate Lapped<W>(q: Queue<W>, h: History<W>, t: nat)
    requires t < |q.threads| == |h.marks|
  {
    || (Reserves(q, t) && h.write >= h.marks[t] + q.size)
    || (Takes(q, t) && h.read >= h.marks[t] + q.size)
  }

  // ------------------------------------------------------------------ indices and counts

  function Wrapped(c: nat, size: nat): (r: nat)
    requires size >= 1
    ensures r < size
  {
    c % size
  }

  lemma WrappedNext(c: nat, size: nat)
    requires size >= 1
    ensures Next(Wrapped(c, size), size) == Wrapped(c + 1, size)
  {
    DivModExact(c, size);
    NextRemainder(c, size, c / size, c % size);
  }

  lemma NextRemainder(c: nat, size: nat, q: nat, r: nat)
    requires r < size && c == size * q + r
    ensures (c + 1) % size == Next(r, size)
  {
    if r + 1 < size {
      ModUnique(c + 1, size, q, r + 1);
    } else {
      MulDistributes(size, q, 1);
      ModUnique(c + 1, size, q + 1, 0);
    }
  }

  lemma WrappedApart(a: nat, b: nat, size: nat)
    requires size >= 1 && a <= b < a + size && Wrapped(a, size) == Wrapped(b, size)
    ensures a == b
  {
    DivModExact(a, size);
    DivModExact(b, size);
    MulDistributes(size, b / size, a / size);
    if b / size > a / size {
      MulAtLeast(size, b / size - a / size);
    } else if b / size < a / size {
      MulDistributes(size, a / size, b / size);
      MulAtLeast(size, a / size - b / size);
    }
  }

  // ------------------------------------------------------------------ the invariant

  ghost predicate Counted<W>(q: Queue<W>, h: History<W>) {
    && q.size >= 1 && Fits(q) && |h.marks| == |q.threads|
    && q.rd == Wrapped(h.read, q.size) && q.mx == Wrapped(h.max, q.size) && q.wt == Wrapped(h.write, q.size)
    && h.read <= h.max <= h.write <= h.read + q.size - 1
    && |h.pushed| == |h.pushers| == h.write && (forall c :: 0 <= c < h.write ==> |h.pushed[c]| == q.words)
  }

  // What has been taken is what was pushed first, each element from its own slot.
  ghost predicate Fifo<W>(h: History<W>) {
    && h.read <= |h.pushed| && h.popped == h.pushed[..h.read]
    && |h.took| == |h.poppers| == h.read && forall c :: 0 <= c < h.read ==> h.took[c] == c
  }

  ghost predicate Stored<W>(q: Queue<W>, h: History<W>)
    requires Counted(q, h)
  {
    forall c :: h.read <= c < h.max ==> q.slots[Wrapped(c, q.size)] == h.pushed[c]
  }

  ghost predicate Sound<W>(q: Queue<W>, h: History<W>, t: nat)
    requires Counted(q, h) && t < |q.threads|
  {
    var m := h.marks[t];
    match q.threads[t]
    case SawWrite(v, cw) => m <= h.write && cw == Wrapped(m, q.size)
    case NotFull(v, cw) =>
      m <= h.write && cw == Wrapped(m, q.size) && (m == h.write ==> h.write + 1 <= h.read + q.size - 1)
    case Filling(v, cw, k) =>
      && h.max <= m < h.write && cw == Wrapped(m, q.size)
      && h.pushed[m] == v && q.slots[cw][..k] == v[..k]
    case SawRead(cr) => m <= h.read && cr == Wrapped(m, q.size)
    case Copying(cr, buf) =>
      m <= h.read && cr == Wrapped(m, q.size) && (m == h.read ==> m < h.max && buf == h.pushed[m][..|buf|])
    case _ => true
  }

  ghost predicate Owners<W>(q: Queue<W>, h: History<W>)
    requires |h.marks| == |q.threads|
  {
    forall s, t :: 0 <= s < |q.threads| && 0 <= t < |q.threads| && s != t && q.threads[s].Filling?
      && q.threads[t].Filling?
      ==> h.marks[s] != h.marks[t]
  }

  ghost predicate Inv<W>(q: Queue<W>, h: History<W>) {
    && Counted(q, h) && Fifo(h) && Stored(q, h) && Owners(q, h)
    && forall t :: 0 <= t < |q.threads| ==> Sound(q, h, t)
  }

  // ------------------------------------------------------------------ every step keeps it

  // Steps that change nothing but the thread itself.
  lemma KeepsAlone<W>(q: Queue<W>, h: History<W>, t: nat, l: Local<W>, m: nat)
    requires Inv(q, h) && t < |q.threads|
    requires (l.Filling? ==> q.threads[t].Filling? && m == h.marks[t])
    requires var q', h' := q.(threads := q.threads[t := l]), h.(marks := h.marks[t := m]);
      Counted(q', h') ==> Sound(q', h', t)
    requires Fits(q.(threads := q.threads[t := l]))
    ensures Inv(q.(threads := q.threads[t := l]), h.(marks := h.marks[t := m]))
  {
    hide Wrapped;
    var q', h' := q.(threads := q.threads[t := l]), h.(marks := h.marks[t := m]);
    forall s | 0 <= s < |q'.threads|
      ensures Sound(q', h', s)
    {
      assert Sound(q, h, s);
    }
  }

  lemma FitsAlone<W>(q: Queue<W>, t: nat, l: Local<W>)
    requires Fits(q) && t < |q.threads| && LocalFits(l, q.size, q.words)
    ensures Fits(q.(threads := q.threads[t := l]))
  {
  }

  // A thread's own state after a step that neither copies into a slot nor wins a CAS.
  function Alone<W>(q: Queue<W>, t: nat, e: Event<W>): Local<W>
    requires Fits(q) && t < |q.threads|
  {
    Step(q, t, e).threads[t]
  }

  predicate Quiet<W>(q: Queue<W>, t: nat)
    requires t < |q.threads|
  {
    !Reserves(q, t) && !Takes(q, t) && !(q.threads[t].Filling? && (q.threads[t].k < q.words || Publishes(q, t)))
  }

  function MarkAfter<W>(q: Queue<W>, h: History<W>, t: nat): nat
    requires t < |q.threads| == |h.marks|
  {
    if q.threads[t].Wanting? then h.write else if q.threads[t].Seeking? then h.read else h.marks[t]
  }

  lemma QuietStep<W>(q: Queue<W>, h: History<W>, t: nat, e: Event<W>)
    requires Fits(q) && t < |q.threads| == |h.marks| && Quiet(q, t)
    ensures Step(q, t, e) == q.(threads := q.threads[t := Alone(q, t, e)])
    ensures Record(q, h, t) == h.(marks := h.marks[t := MarkAfter(q, h, t)])
  {
    assert LocalFits(q.threads[t], q.size, q.words);
    assert q.threads[t := q.threads[t]] == q.threads && h.marks[t := h.marks[t]] == h.marks;
  }

  // A ring in which one more slot would meet rdindex looks full.
  lemma LooksFull(c: nat, r: nat, size: nat)
    requires size >= 1 && c + 1 == r + size
    ensures Next(Wrapped(c, size), size) == Wrapped(r, size)
  {
    WrappedNext(c, size);
    ModOfSum(r, size, 1);
  }

  lemma NextWord<W>(v: seq<W>, k: nat)
    requires k < |v|
    ensures v[..k + 1] == v[..k] + [v[k]]
  {
  }

  lemma QuietSound<W>(q: Queue<W>, h: History<W>, t: nat, e: Event<W>)
    requires Inv(q, h) && t < |q.threads| && Quiet(q, t)
    requires q.rd < q.size && q.wt < q.size
    ensures LocalFits(Alone(q, t, e), q.size, q.words)
    ensures Alone(q, t, e).Filling? ==> q.threads[t].Filling? && MarkAfter(q, h, t) == h.marks[t]
    ensures var q', h' := Step(q, t, e), Record(q, h, t); Counted(q', h') ==> Sound(q', h', t)
  {
    hide Wrapped;
    assert Sound(q, h, t) && LocalFits(q.threads[t], q.size, q.words);
    QuietStep(q, h, t, e);
    var m := h.marks[t];
    match q.threads[t]
    case SawWrite(_, cw) =>
      if m == h.write && h.write + 1 > h.read + q.size - 1 {
        LooksFull(m, h.read, q.size);
      }
    case Copying(cr, buf) =>
      if m == h.read && |buf| < q.words {
        assert q.slots[Wrapped(m, q.size)] == h.pushed[m];
        NextWord(h.pushed[m], |buf|);
      }
    case _ =>
  }

  lemma KeepsQuiet<W>(q: Queue<W>, h: History<W>, t: nat, e: Event<W>)
    requires Inv(q, h) && t < |q.threads| && Quiet(q, t)
    ensures Inv(Step(q, t, e), Record(q, h, t))
  {
    hide Inv, Step, Record, Sound, Fits, LocalFits, Alone, MarkAfter;
    Ranges(q, h);
    QuietStep(q, h, t, e);
    QuietSound(q, h, t, e);
    FitsAlone(q, t, Alone(q, t, e));
    KeepsAlone(q, h, t, Alone(q, t, e), MarkAfter(q, h, t));
  }

  lemma Ranges<W>(q: Queue<W>, h: History<W>)
    requires Inv(q, h)
    ensures Counted(q, h) && q.rd < q.size && q.wt < q.size && q.mx < q.size
  {
  }

  // ------------------------------------------------------------------ the steps that count

  lemma KeepsReserve<W>(q: Queue<W>, h: History<W>, t: nat)
    requires Inv(q, h) && t < |q.threads| && Reserves(q, t) && h.marks[t] == h.write
    ensures Inv(Step(q, t, Go), Record(q, h, t))
  {
    hide Wrapped;
    assert Sound(q, h, t) && LocalFits(q.threads[t], q.size, q.words);
    WrappedNext(h.write, q.size);
    var q', h' := Step(q, t, Go), Record(q, h, t);
    assert h'.pushed[..h.read] == h.pushed[..h.read];
    assert Fits(q') && Counted(q', h');
    forall s | 0 <= s < |q'.threads|
      ensures Sound(q', h', s)
      ensures s != t && q.threads[s].Filling? ==> h.marks[s] < h.write
    {
      assert Sound(q, h, s);
    }
  }

  lemma KeepsPublish<W>(q: Queue<W>, h: History<W>, t: nat)
    requires Inv(q, h) && t < |q.threads| && Publishes(q, t)
    ensures Inv(Step(q, t, Go), Record(q, h, t))
  {
    hide Wrapped;
    assert Sound(q, h, t) && LocalFits(q.threads[t], q.size, q.words);
    var m := h.marks[t];
    WrappedApart(h.max, m, q.size);
    WrappedNext(m, q.size);
    var q', h' := Step(q, t, Go), Record(q, h, t);
    assert q.slots[Wrapped(m, q.size)] == h.pushed[m];
    assert Fits(q') && Counted(q', h');
    forall s | 0 <= s < |q'.threads|
      ensures Sound(q', h', s)
    {
      assert Sound(q, h, s);
    }
  }

  lemma KeepsTake<W>(q: Queue<W>, h: History<W>, t: nat)
    requires Inv(q, h) && t < |q.threads| && Takes(q, t) && h.marks[t] == h.read
    ensures Inv(Step(q, t, Go), Record(q, h, t))
  {
    hide Wrapped;
    assert Sound(q, h, t) && LocalFits(q.threads[t], q.size, q.words);
    WrappedNext(h.read, q.size);
    var q', h' := Step(q, t, Go), Record(q, h, t);
    NextWord(h.pushed, h.read);
    assert h.pushed[h.read] == q.threads[t].buf;
    assert Fits(q') && Counted(q', h') && Fifo(h');
    forall s | 0 <= s < |q'.threads|
      ensures Sound(q', h', s)
    {
      assert Sound(q, h, s);
    }
  }

  // A word copied into a reserved slot touches no slot that is reserved by another or holds an element.
  lemma KeepsFill<W>(q: Queue<W>, h: History<W>, t: nat)
    requires Inv(q, h) && t < |q.threads| && q.threads[t].Filling? && q.threads[t].k < q.words
    ensures Inv(Step(q, t, Go), Record(q, h, t))
  {
    hide Wrapped;
    assert Sound(q, h, t) && LocalFits(q.threads[t], q.size, q.words);
    var m, v, cw, k := h.marks[t], q.threads[t].v, q.threads[t].cw, q.threads[t].k;
    var q', h' := Step(q, t, Go), Record(q, h, t);
    NextWord(v, k);
    NextWord(q'.slots[cw], k);
    assert q'.slots[cw][..k] == q.slots[cw][..k];
    assert Fits(q') && Counted(q', h');
    forall c | h.read <= c < h.write && c != m
      ensures Wrapped(c, q.size) != cw
    {
      if Wrapped(c, q.size) == cw {
        if c < m {
          WrappedApart(c, m, q.size);
        } else {
          WrappedApart(m, c, q.size);
        }
      }
    }
    forall s | 0 <= s < |q'.threads|
      ensures Sound(q', h', s)
    {
      assert Sound(q, h, s);
    }
  }

  // ------------------------------------------------------------------ runs

  // No step is lapped: nothing more is needed for it to keep the invariant.
  lemma Keeps<W>(q: Queue<W>, h: History<W>, t: nat, e: Event<W>)
    requires Inv(q, h) && t < |q.threads| && !Lapped(q, h, t)
    ensures Inv(Step(q, t, e), Record(q, h, t))
  {
    assert Sound(q, h, t);
    if Reserves(q, t) {
      WrappedApart(h.marks[t], h.write, q.size);
      KeepsReserve(q, h, t);
    } else if Takes(q, t) {
      WrappedApart(h.marks[t], h.read, q.size);
      KeepsTake(q, h, t);
    } else if Publishes(q, t) {
      KeepsPublish(q, h, t);
    } else if q.threads[t].Filling? && q.threads[t].k < q.words {
      KeepsFill(q, h, t);
    } else {
      KeepsQuiet(q, h, t, e);
    }
  }

  lemma StepShaped<W>(q: Queue<W>, t: nat, e: Event<W>)
    requires Shaped(q) && t < |q.threads|
    ensures Shaped(Step(q, t, e)) && |Step(q, t, e).threads| == |q.threads|
    ensures Step(q, t, e).size == q.size && Step(q, t, e).words == q.words
  {
    var q' := Step(q, t, e);
    StepLocal(q, t, e);
    forall s | 0 <= s < |q'.threads|
      ensures LocalFits(q'.threads[s], q'.size, q'.words)
    {
      assert LocalFits(q.threads[s], q.size, q.words);
    }
  }

  lemma StepLocal<W>(q: Queue<W>, t: nat, e: Event<W>)
    requires Shaped(q) && t < |q.threads|
    ensures var q' := Step(q, t, e);
      && q'.size == q.size && q'.words == q.words && q'.rd < q.size && q'.wt < q.size && q'.mx < q.size
      && q'.threads == q.threads[t := q'.threads[t]] && LocalFits(q'.threads[t], q.size, q.words)
      && |q'.slots| == q.size && forall i :: 0 <= i < q.size ==> |q'.slots[i]| == q.words
  {
    assert LocalFits(q.threads[t], q.size, q.words);
    assert q.threads[t := q.threads[t]] == q.threads;
  }

  datatype Action<W> = Action(t: nat, e: Event<W>)

  predicate Schedules<W>(sched: seq<Action<W>>, n: nat) { forall i :: 0 <= i < |sched| ==> sched[i].t < n }

  // The state after the steps of a schedule.
  function Run<W>(q: Queue<W>, h: History<W>, sched: seq<Action<W>>): (r: (Queue<W>, History<W>))
    requires Shaped(q) && |h.marks| == |q.threads| && Schedules(sched, |q.threads|)
    ensures Shaped(r.0) && |r.1.marks| == |r.0.threads| == |q.threads|
    decreases |sched|
  {
    if sched == [] then (q, h)
    else
      var a := sched[0];
      StepShaped(q, a.t, a.e);
      Run(Step(q, a.t, a.e), Record(q, h, a.t), sched[1..])
  }

  // No thread is overtaken by a full lap between reading an index and winning the CAS on it.
  predicate Unlapped<W>(q: Queue<W>, h: History<W>, sched: seq<Action<W>>)
    requires Shaped(q) && |h.marks| == |q.threads| && Schedules(sched, |q.threads|)
    decreases |sched|
  {
    sched == [] ||
    var a := sched[0];
    StepShaped(q, a.t, a.e);
    !Lapped(q, h, a.t) && Unlapped(Step(q, a.t, a.e), Record(q, h, a.t), sched[1..])
  }

  // The queue as created, with n threads about to use it; the memory behind it may hold anything.
  function Created<W>(size: nat, words: nat, n: nat, slots: seq<seq<W>>): Queue<W> {
    Queue(size, words, 0, 0, 0, slots, seq(n, _ => Idle(NoCall)))
  }

  function Fresh<W>(n: nat): History<W> { History(0, 0, 0, [], [], [], seq(n, _ => 0), [], []) }

  lemma CreatedInv<W>(size: nat, words: nat, n: nat, slots: seq<seq<W>>)
    requires size >= 1 && |slots| == size && forall i :: 0 <= i < size ==> |slots[i]| == words
    ensures Shaped(Created(size, words, n, slots)) && Inv(Created(size, words, n, slots), Fresh(n))
  {
    ModUnique(0, size, 0, 0);
  }

  lemma {:induction false} RunKeeps<W>(q: Queue<W>, h: History<W>, sched: seq<Action<W>>)
    requires Shaped(q) && Inv(q, h) && Schedules(sched, |q.threads|) && Unlapped(q, h, sched)
    ensures Inv(Run(q, h, sched).0, Run(q, h, sched).1)
    decreases |sched|
  {
    if sched != [] {
      var a := sched[0];
      hide Inv, Step, Record, Lapped, Shaped;
      StepShaped(q, a.t, a.e);
      Sizes(q, h);
      Keeps(q, h, a.t, a.e);
      RunKeeps(Step(q, a.t, a.e), Record(q, h, a.t), sched[1..]);
    }
  }

  lemma Sizes<W>(q: Queue<W>, h: History<W>)
    requires Inv(q, h)
    ensures |h.marks| == |q.threads| && h.read <= h.max <= h.write <= h.read + q.size - 1 && |h.pushed| == h.write
    ensures h.popped == h.pushed[..h.read] && |h.took| == h.read && forall c :: 0 <= c < h.read ==> h.took[c] == c
  {
  }

  // Any number of producers and consumers: what is taken is what was pushed, first in, first out.
  lemma FirstInFirstOut<W>(size: nat, words: nat, n: nat, slots: seq<seq<W>>, sched: seq<Action<W>>)
    requires size >= 1 && |slots| == size && forall i :: 0 <= i < size ==> |slots[i]| == words
    requires Schedules(sched, n) && Shaped(Created(size, words, n, slots))
    requires Unlapped(Created(size, words, n, slots), Fresh(n), sched)
    ensures var h := Run(Created(size, words, n, slots), Fresh(n), sched).1;
      && |h.pushed| == h.write && h.read <= |h.pushed| && h.popped == h.pushed[..h.read]
      && h.read <= h.max <= h.write <= h.read + size - 1
  {
    CreatedInv(size, words, n, slots);
    RunKeeps(Created(size, words, n, slots), Fresh(n), sched);
    RunSize(Created(size, words, n, slots), Fresh(n), sched);
    var r := Run(Created(size, words, n, slots), Fresh(n), sched);
    Sizes(r.0, r.1);
  }

  lemma {:induction false} RunSize<W>(q: Queue<W>, h: History<W>, sched: seq<Action<W>>)
    requires Shaped(q) && |h.marks| == |q.threads| && Schedules(sched, |q.threads|)
    ensures Run(q, h, sched).0.size == q.size && Run(q, h, sched).0.words == q.words
    decreases |sched|
  {
    if sched != [] {
      var a := sched[0];
      hide Step, Record, Shaped;
      StepShaped(q, a.t, a.e);
      RecordMarks(q, h, a.t);
      RunSize(Step(q, a.t, a.e), Record(q, h, a.t), sched[1..]);
    }
  }

  lemma RecordMarks<W>(q: Queue<W>, h: History<W>, t: nat)
    requires t < |q.threads| == |h.marks|
    ensures |Record(q, h, t).marks| == |h.marks|
  {
  }

  // ------------------------------------------------------------------ one producer, one consumer

  // Only thread p pushes and only thread c pops (they may be the same thread).
  predicate Roles<W>(sched: seq<Action<W>>, p: nat, c: nat) {
    forall i :: 0 <= i < |sched| ==> (sched[i].e.Push? ==> sched[i].t == p) && (sched[i].e.Pop? ==> sched[i].t == c)
  }

  ghost predicate InRole<W>(q: Queue<W>, h: History<W>, p: nat, c: nat)
    requires |h.marks| == |q.threads|
  {
    forall t :: 0 <= t < |q.threads| ==>
      match q.threads[t]
      case Idle(_) => true
      case Wanting(_) => t == p
      case SawWrite(_, _) => t == p && h.marks[t] == h.write
      case NotFull(_, _) => t == p && h.marks[t] == h.write
      case Filling(_, _, _) => t == p
      case Seeking => t == c
      case SawRead(_) => t == c && h.marks[t] == h.read
      case Copying(_, _) => t == c && h.marks[t] == h.read
  }

  lemma RoleStep<W>(q: Queue<W>, h: History<W>, t: nat, e: Event<W>, p: nat, c: nat)
    requires Shaped(q) && t < |q.threads| == |h.marks| && InRole(q, h, p, c)
    requires (e.Push? ==> t == p) && (e.Pop? ==> t == c)
    ensures !Lapped(q, h, t)
    ensures |Step(q, t, e).threads| == |Record(q, h, t).marks| && InRole(Step(q, t, e), Record(q, h, t), p, c)
  {
    assert LocalFits(q.threads[t], q.size, q.words);
    StepLocal(q, t, e);
  }

  lemma {:induction false} RolesUnlapped<W>(q: Queue<W>, h: History<W>, sched: seq<Action<W>>, p: nat, c: nat)
    requires Shaped(q) && |h.marks| == |q.threads| && Schedules(sched, |q.threads|)
    requires InRole(q, h, p, c) && Roles(sched, p, c)
    ensures Unlapped(q, h, sched)
    decreases |sched|
  {
    if sched != [] {
      var a := sched[0];
      hide InRole, Step, Record, Lapped, Shaped;
      RoleStep(q, h, a.t, a.e, p, c);
      StepShaped(q, a.t, a.e);
      RecordMarks(q, h, a.t);
      RolesUnlapped(Step(q, a.t, a.e), Record(q, h, a.t), sched[1..], p, c);
    }
  }

  // With one producer and one consumer no hypothesis is left.
  lemma OneToOne<W>(size: nat, words: nat, n: nat, slots: seq<seq<W>>, sched: seq<Action<W>>, p: nat, c: nat)
    requires size >= 1 && |slots| == size && forall i :: 0 <= i < size ==> |slots[i]| == words
    requires Schedules(sched, n) && Shaped(Created(size, words, n, slots)) && Roles(sched, p, c)
    ensures var h := Run(Created(size, words, n, slots), Fresh(n), sched).1;
      && |h.pushed| == h.write && h.read <= |h.pushed| && h.popped == h.pushed[..h.read]
      && h.read <= h.max <= h.write <= h.read + size - 1
  {
    RolesUnlapped(Created(size, words, n, slots), Fresh(n), sched, p, c);
    FirstInFirstOut(size, words, n, slots, sched);
  }

  // ------------------------------------------------------------------ what the hypothesis is worth

  // A successful pop takes the element whose turn it is exactly if it was not lapped.
  lemma TakesInTurn<W>(q: Queue<W>, h: History<W>, t: nat)
    requires Inv(q, h) && t < |q.threads| && Takes(q, t)
    ensures Record(q, h, t).took[h.read] == h.read <==> !Lapped(q, h, t)
  {
    hide Wrapped;
    assert Sound(q, h, t);
    if !Lapped(q, h, t) {
      WrappedApart(h.marks[t], h.read, q.size);
    }
  }

  lemma SameIndex(a: nat, b: nat, size: nat)
    requires size >= 1 && a <= b
    ensures Wrapped(a, size) == Wrapped(b, size) <==> (b - a) % size == 0
  {
    DivModExact(a, size);
    DivModExact(b, size);
    DivModExact(b - a, size);
    if Wrapped(a, size) == Wrapped(b, size) {
      WholeLaps(a, b, size, a / size, b / size, a % size);
    } else if (b - a) % size == 0 {
      MulDistributes(size, a / size, (b - a) / size);
      ModUnique(b, size, a / size + (b - a) / size, a % size);
    }
  }

  lemma WholeLaps(a: nat, b: nat, size: nat, i: nat, k: nat, r: nat)
    requires size >= 1 && a <= b && a == size * i + r && b == size * k + r
    ensures (b - a) % size == 0
  {
    MulDistributes(size, k, i);
    if k < i {
      MulDistributes(size, i, k);
      MulAtLeast(size, i - k);
    }
    ModUnique(b - a, size, k - i, 0);
  }

  // A push gives up exactly if the ring is full, or if the slot it wanted has meanwhile been filled by another thread
  // and emptied again, and rdindex stands right behind it.
  lemma GivesUpFull<W>(q: Queue<W>, h: History<W>, t: nat)
    requires Inv(q, h) && t < |q.threads| && q.threads[t].SawWrite?
    ensures Step(q, t, Go).threads[t].Idle? <==>
      || (h.write == h.read + q.size - 1 && h.marks[t] == h.write)
      || (h.read > h.marks[t] && (h.read - h.marks[t] - 1) % q.size == 0)
  {
    hide Wrapped;
    assert Sound(q, h, t);
    var m := h.marks[t];
    WrappedNext(m, q.size);
    if m < h.read {
      SameIndex(m + 1, h.read, q.size);
    } else {
      SameIndex(h.read, m + 1, q.size);
      ModSmall(m + 1 - h.read, q.size);
    }
  }

  lemma ModSmall(d: nat, size: nat)
    requires 1 <= d <= size
    ensures d % size == 0 <==> d == size
  {
  }

  // A pop gives up exactly if there was nothing published, or if full laps were published while it was at it.
  lemma GivesUpEmpty<W>(q: Queue<W>, h: History<W>, t: nat)
    requires Inv(q, h) && t < |q.threads| && q.threads[t].SawRead?
    ensures Step(q, t, Go).threads[t].Idle? <==>
      || (h.read == h.max && h.marks[t] == h.read)
      || (h.max > h.marks[t] && (h.max - h.marks[t]) % q.size == 0)
  {
    assert Sound(q, h, t);
    SameIndex(h.marks[t], h.max, q.size);
  }

  // lfqueue_size
  function Size<W>(q: Queue<W>): int { if q.wt >= q.rd then q.wt - q.rd else q.size + q.wt - q.rd }

  lemma SizeIsCount<W>(q: Queue<W>, h: History<W>)
    requires Inv(q, h)
    ensures Size(q) == h.write - h.read
    ensures q.wt == q.rd <==> h.write == h.read
  {
    SizeOfWrapped(h.read, h.write, q.size);
  }

  lemma SizeOfWrapped(r: nat, w: nat, size: nat)
    requires size >= 1 && r <= w < r + size
    ensures w - r == if Wrapped(w, size) >= Wrapped(r, size) then Wrapped(w, size) - Wrapped(r, size)
                     else size + Wrapped(w, size) - Wrapped(r, size)
    decreases w - r
  {
    if w == r {
    } else {
      SizeOfWrapped(r, w - 1, size);
      WrappedNext(w - 1, size);
      hide Wrapped;
      if Wrapped(w, size) == Wrapped(r, size) {
        WrappedApart(r, w, size);
      }
    }
  }

  // ------------------------------------------------------------------ runs in which threads are lapped

  lemma RunFirst<W>(q: Queue<W>, h: History<W>, a: Action<W>, rest: seq<Action<W>>)
    requires Shaped(q) && |h.marks| == |q.threads| && Schedules([a] + rest, |q.threads|)
    ensures a.t < |q.threads| && Shaped(Step(q, a.t, a.e)) && |Record(q, h, a.t).marks| == |Step(q, a.t, a.e).threads|
    ensures |Step(q, a.t, a.e).threads| == |q.threads| && Schedules(rest, |q.threads|)
    ensures Run(q, h, [a] + rest) == Run(Step(q, a.t, a.e), Record(q, h, a.t), rest)
  {
    assert ([a] + rest)[0] == a && ([a] + rest)[1..] == rest;
    assert forall i :: 0 <= i < |rest| ==> rest[i] == ([a] + rest)[i + 1];
    StepShaped(q, a.t, a.e);
  }

  lemma {:induction false} RunSplit<W>(q: Queue<W>, h: History<W>, a: seq<Action<W>>, b: seq<Action<W>>)
    requires Shaped(q) && |h.marks| == |q.threads| && Schedules(a, |q.threads|) && Schedules(b, |q.threads|)
    ensures Schedules(a + b, |q.threads|)
    ensures Run(q, h, a + b) == Run(Run(q, h, a).0, Run(q, h, a).1, b)
    decreases |a|
  {
    hide Step, Record, Fits;
    if a == [] {
      assert a + b == b;
    } else {
      assert a + b == [a[0]] + (a[1..] + b) && a == [a[0]] + a[1..];
      RunFirst(q, h, a[0], a[1..] + b);
      RunFirst(q, h, a[0], a[1..]);
      RunSplit(Step(q, a[0].t, a[0].e), Record(q, h, a[0].t), a[1..], b);
    }
  }

  // All the steps of a push of a one-word element, and of a pop.
  function Gos<W>(t: nat, n: nat): (s: seq<Action<W>>)
    ensures |s| == n && forall i :: 0 <= i < n ==> s[i] == Action(t, Go)
  {
    if n == 0 then [] else [Action(t, Go)] + Gos(t, n - 1)
  }

  function Pushes<W>(t: nat, x: W): seq<Action<W>> { [Action(t, Push([x]))] + Gos(t, 5) }

  function Pops<W>(t: nat): seq<Action<W>> { [Action(t, Pop)] + Gos(t, 4) }

  lemma GoOn<W>(q: Queue<W>, h: History<W>, t: nat, n: nat)
    requires Shaped(q) && |h.marks| == |q.threads| && t < |q.threads| && n >= 1
    ensures Schedules(Gos<W>(t, n), |q.threads|) && Schedules(Gos<W>(t, n - 1), |q.threads|)
    ensures Shaped(Step(q, t, Go)) && |Record(q, h, t).marks| == |Step(q, t, Go).threads| == |q.threads|
    ensures Run(q, h, Gos(t, n)) == Run(Step(q, t, Go), Record(q, h, t), Gos(t, n - 1))
  {
    RunFirst(q, h, Action(t, Go), Gos(t, n - 1));
  }

  function AfterPush<W>(s: (Queue<W>, History<W>), t: nat, x: W): (Queue<W>, History<W>)
    requires s.0.wt < |s.0.slots| && t < |s.1.marks| == |s.0.threads|
  {
    var (q, h) := s;
    var n := Next(q.wt, q.size);
    (q.(wt := n, mx := n, slots := q.slots[q.wt := [x]], threads := q.threads[t := Idle(Accepted)]),
     h.(write := h.write + 1, max := h.max + 1, pushed := h.pushed + [[x]], marks := h.marks[t := h.write],
        pushers := h.pushers + [t]))
  }

  function AfterPop<W>(s: (Queue<W>, History<W>), t: nat): (Queue<W>, History<W>)
    requires s.0.rd < |s.0.slots| && t < |s.1.marks| == |s.0.threads|
  {
    var (q, h) := s;
    (q.(rd := Next(q.rd, q.size), threads := q.threads[t := Idle(Taken(q.slots[q.rd]))]),
     h.(read := h.read + 1, popped := h.popped + [q.slots[q.rd]], took := h.took + [h.read],
        marks := h.marks[t := h.read], poppers := h.poppers + [t]))
  }

  function AfterCopy<W>(s: (Queue<W>, History<W>), t: nat): (Queue<W>, History<W>)
    requires s.0.rd < |s.0.slots| && t < |s.1.marks| == |s.0.threads|
  {
    var (q, h) := s;
    (q.(threads := q.threads[t := Copying(q.rd, q.slots[q.rd])]), h.(marks := h.marks[t := h.read]))
  }

  // A thread alone pushes in one go.
  lemma PushAlone<W>(q: Queue<W>, h: History<W>, t: nat, x: W)
    requires Shaped(q) && |h.marks| == |q.threads| && t < |q.threads| && q.words == 1
    requires q.threads[t].Idle? && Next(q.wt, q.size) != q.rd && q.mx == q.wt
    ensures Schedules(Pushes(t, x), |q.threads|)
    ensures Run(q, h, Pushes(t, x)) == AfterPush((q, h), t, x)
  {
    hide Run, Fits;
    RunFirst(q, h, Action(t, Push([x])), Gos(t, 5));
    var q0 := q.(threads := q.threads[t := Wanting([x])]);
    GoOn(q0, h, t, 5);
    var q1, h1 := q.(threads := q.threads[t := SawWrite([x], q.wt)]), h.(marks := h.marks[t := h.write]);
    assert Step(q0, t, Go) == q1 && Record(q0, h, t) == h1;
    GoOn(q1, h1, t, 4);
    var q2 := q.(threads := q.threads[t := NotFull([x], q.wt)]);
    assert Step(q1, t, Go) == q2 && Record(q1, h1, t) == h1;
    PushRest(q, q2, h1, t, x);
  }

  // From the CAS on wtindex on.
  lemma PushRest<W>(q: Queue<W>, q2: Queue<W>, h: History<W>, t: nat, x: W)
    requires Shaped(q) && Shaped(q2) && |h.marks| == |q.threads| && t < |q.threads| && q.words == 1
    requires q.threads[t].Idle? && q.mx == q.wt && q2 == q.(threads := q.threads[t := NotFull([x], q.wt)])
    ensures Schedules(Gos<W>(t, 3), |q.threads|)
    ensures var n := Next(q.wt, q.size);
      Run(q2, h, Gos(t, 3)) ==
        (q.(wt := n, mx := n, slots := q.slots[q.wt := [x]], threads := q.threads[t := Idle(Accepted)]),
         h.(write := h.write + 1, max := h.max + 1, pushed := h.pushed + [[x]], pushers := h.pushers + [t]))
  {
    OneWord(q, x);
    hide Run, Fits;
    GoOn(q2, h, t, 3);
    var n := Next(q.wt, q.size);
    var q3 := q.(wt := n, threads := q.threads[t := Filling([x], q.wt, 0)]);
    var h3 := h.(write := h.write + 1, pushed := h.pushed + [[x]], pushers := h.pushers + [t]);
    assert Step(q2, t, Go) == q3 && Record(q2, h, t) == h3;
    FillRest(q, q3, h3, t, x);
  }

  // From the copying on.
  lemma FillRest<W>(q: Queue<W>, q3: Queue<W>, h: History<W>, t: nat, x: W)
    requires Shaped(q) && Shaped(q3) && |h.marks| == |q.threads| && t < |q.threads| && q.words == 1 && q.mx == q.wt
    requires q3 == q.(wt := Next(q.wt, q.size), threads := q.threads[t := Filling([x], q.wt, 0)])
    ensures Schedules(Gos<W>(t, 2), |q.threads|)
    ensures var n := Next(q.wt, q.size);
      Run(q3, h, Gos(t, 2)) ==
        (q.(wt := n, mx := n, slots := q.slots[q.wt := [x]], threads := q.threads[t := Idle(Accepted)]),
         h.(max := h.max + 1))
  {
    OneWord(q, x);
    hide Run, Fits;
    GoOn(q3, h, t, 2);
    var n := Next(q.wt, q.size);
    var q4 := q.(wt := n, threads := q.threads[t := Filling([x], q.wt, 1)], slots := q.slots[q.wt := [x]]);
    assert Step(q3, t, Go) == q4 && Record(q3, h, t) == h;
    GoOn(q4, h, t, 1);
    assert q4.threads[t := Idle(Accepted)] == q.threads[t := Idle(Accepted)];
    RunNone(Step(q4, t, Go), h.(max := h.max + 1), t);
  }

  lemma OneWord<W>(q: Queue<W>, x: W)
    requires Shaped(q) && q.words == 1
    ensures |q.slots[q.wt]| == 1 && q.slots[q.wt][0 := x] == [x]
  {
    assert |q.slots[q.wt]| == q.words;
  }

  lemma RunNone<W>(q: Queue<W>, h: History<W>, t: nat)
    requires Shaped(q) && |h.marks| == |q.threads| && t < |q.threads|
    ensures Schedules(Gos<W>(t, 0), |q.threads|) && Run(q, h, Gos(t, 0)) == (q, h)
  {
  }

  // A thread alone pops in one go; stopped before its CAS, it holds a copy.
  lemma PopAlone<W>(q: Queue<W>, h: History<W>, t: nat)
    requires Shaped(q) && |h.marks| == |q.threads| && t < |q.threads| && q.words == 1
    requires q.threads[t].Idle? && q.rd != q.mx
    ensures Schedules(Pops<W>(t), |q.threads|)
    ensures Run(q, h, Pops(t)) == AfterPop((q, h), t)
  {
    OneWordRead(q);
    hide Run, Fits;
    CopyAlone(q, h, t, 4);
    var (q3, h1) := AfterCopy((q, h), t);
    GoOn(q3, h1, t, 1);
    assert q3.threads[t := Idle(Taken(q.slots[q.rd]))] == q.threads[t := Idle(Taken(q.slots[q.rd]))];
    assert Step(q3, t, Go) == AfterPop((q, h), t).0;
    assert Record(q3, h1, t) == AfterPop((q, h), t).1;
    RunNone(Step(q3, t, Go), Record(q3, h1, t), t);
  }

  lemma OneWordRead<W>(q: Queue<W>)
    requires Shaped(q) && q.words == 1
    ensures q.rd < |q.slots| && |q.slots[q.rd]| == 1 && q.slots[q.rd] == [q.slots[q.rd][0]]
  {
    assert |q.slots[q.rd]| == q.words;
  }

  lemma CopyAlone<W>(q: Queue<W>, h: History<W>, t: nat, k: nat)
    requires Shaped(q) && |h.marks| == |q.threads| && t < |q.threads| && q.words == 1 && k >= 3
    requires q.threads[t].Idle? && q.rd != q.mx
    ensures Schedules<W>([Action(t, Pop)] + Gos(t, k), |q.threads|) && Schedules(Gos<W>(t, k - 3), |q.threads|)
    ensures Shaped(AfterCopy((q, h), t).0)
    ensures Run(q, h, [Action(t, Pop)] + Gos(t, k))
      == Run(AfterCopy((q, h), t).0, AfterCopy((q, h), t).1, Gos(t, k - 3))
  {
    OneWordRead(q);
    hide Run, Fits;
    RunFirst(q, h, Action(t, Pop), Gos(t, k));
    var q0 := q.(threads := q.threads[t := Seeking]);
    GoOn(q0, h, t, k);
    var q1, h1 := q.(threads := q.threads[t := SawRead(q.rd)]), h.(marks := h.marks[t := h.read]);
    assert Step(q0, t, Go) == q1 && Record(q0, h, t) == h1;
    CopyRest(q, q1, h1, t, k - 1);
  }

  lemma CopyRest<W>(q: Queue<W>, q1: Queue<W>, h: History<W>, t: nat, k: nat)
    requires Shaped(q) && Shaped(q1) && |h.marks| == |q.threads| && t < |q.threads| && q.words == 1 && k >= 2
    requires q.rd != q.mx && q1 == q.(threads := q.threads[t := SawRead(q.rd)])
    ensures Schedules(Gos<W>(t, k), |q.threads|) && Schedules(Gos<W>(t, k - 2), |q.threads|)
    ensures q.rd < |q.slots| && Shaped(q.(threads := q.threads[t := Copying(q.rd, q.slots[q.rd])]))
    ensures Run(q1, h, Gos(t, k)) ==
      Run(q.(threads := q.threads[t := Copying(q.rd, q.slots[q.rd])]), h, Gos(t, k - 2))
  {
    OneWordRead(q);
    hide Run, Fits;
    GoOn(q1, h, t, k);
    var q2 := q.(threads := q.threads[t := Copying(q.rd, [])]);
    assert Step(q1, t, Go) == q2 && Record(q1, h, t) == h;
    GoOn(q2, h, t, k - 1);
    assert [] + [q.slots[q.rd][0]] == q.slots[q.rd];
    assert Step(q2, t, Go) == q.(threads := q.threads[t := Copying(q.rd, q.slots[q.rd])]) && Record(q2, h, t) == h;
  }

  // One more stretch of a run.
  lemma Then<W>(s: (Queue<W>, History<W>), before: seq<Action<W>>, r: (Queue<W>, History<W>), more: seq<Action<W>>)
    requires Shaped(s.0) && |s.1.marks| == |s.0.threads| && Schedules(before, |s.0.threads|)
    requires Run(s.0, s.1, before) == r && Schedules(more, |s.0.threads|)
    ensures Schedules(before + more, |s.0.threads|)
    ensures Run(s.0, s.1, before + more) == Run(r.0, r.1, more)
  {
    RunSplit(s.0, s.1, before, more);
  }

  // A ring of two slots. Thread 1 copies the first element and stops; thread 2 takes it; two more pushes and
  // a pop bring rdindex back; thread 1 then wins its CAS and returns the first element once more.
  lemma LappedPopRepeats<W>(x: W, y: W, z: W) returns (sched: seq<Action<W>>)
    requires x != z
    ensures Schedules(sched, 3) && Shaped(Created(2, 1, 3, [[x], [x]]))
    ensures var h := Run(Created(2, 1, 3, [[x], [x]]), Fresh(3), sched).1;
      && h.pushed == [[x], [y], [z]] && h.popped == [[x], [y], [x]]
      && !(h.popped <= h.pushed)
  {
    hide Run, Fits, Step;
    CreatedInv(2, 1, 3, [[x], [x]]);
    var s0 := (Created(2, 1, 3, [[x], [x]]), Fresh<W>(3));
    PushAlone(s0.0, s0.1, 0, x);
    var s1 := AfterPush(s0, 0, x);
    sched := Pushes(0, x);
    CopyAlone(s1.0, s1.1, 1, 3);
    var s2 := AfterCopy(s1, 1);
    RunNone(s2.0, s2.1, 1);
    Then(s0, sched, s1, [Action(1, Pop)] + Gos(1, 3));
    sched := sched + ([Action(1, Pop)] + Gos(1, 3));
    PopAlone(s2.0, s2.1, 2);
    var s3 := AfterPop(s2, 2);
    Then(s0, sched, s2, Pops(2));
    sched := sched + Pops(2);
    PushAlone(s3.0, s3.1, 0, y);
    var s4 := AfterPush(s3, 0, y);
    Then(s0, sched, s3, Pushes(0, y));
    sched := sched + Pushes(0, y);
    PopAlone(s4.0, s4.1, 2);
    var s5 := AfterPop(s4, 2);
    Then(s0, sched, s4, Pops(2));
    sched := sched + Pops(2);
    PushAlone(s5.0, s5.1, 0, z);
    var s6 := AfterPush(s5, 0, z);
    Then(s0, sched, s5, Pushes(0, z));
    sched := sched + Pushes(0, z);
    GoOn(s6.0, s6.1, 1, 1);
    RunNone(Step(s6.0, 1, Go), Record(s6.0, s6.1, 1), 1);
    Then(s0, sched, s6, Gos(1, 1));
    sched := sched + Gos(1, 1);
    var h := Record(s6.0, s6.1, 1);
    assert h.popped == [[x], [y], [x]] && h.pushed == [[x], [y], [z]];
    assert h.popped[2] != h.pushed[2];
  }
}
