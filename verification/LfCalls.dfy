// Whole calls of the lock-free ring: what a push or a pop has done by the time it returns.
module LfCalls {
  import opened LfQueue

  // ------------------------------------------------------------------ all the states of a run

  type State<W> = (Queue<W>, History<W>)

  ghost predicate Goes<W>(s: State<W>, a: Action<W>, s': State<W>) {
    && Shaped(s.0) && a.t < |s.0.threads| == |s.1.marks| && !Lapped(s.0, s.1, a.t)
    && s' == (Step(s.0, a.t, a.e), Record(s.0, s.1, a.t))
  }

  // run[i] turns into run[i + 1] by the action sched[i], and no thread is lapped.
  ghost predicate Trace<W>(run: seq<State<W>>, sched: seq<Action<W>>) {
    && |run| == |sched| + 1 && Shaped(run[0].0) && Inv(run[0].0, run[0].1)
    && forall i :: 0 <= i < |sched| ==> Goes(run[i], sched[i], run[i + 1])
  }

  // Every schedule in which no thread is lapped has its trace, which ends as the run does.
  lemma {:induction false} TraceOf<W>(q: Queue<W>, h: History<W>, sched: seq<Action<W>>) returns (run: seq<State<W>>)
    requires Shaped(q) && Inv(q, h) && Schedules(sched, |q.threads|) && |h.marks| == |q.threads|
    requires Unlapped(q, h, sched)
    ensures Trace(run, sched) && run[0] == (q, h) && run[|sched|] == Run(q, h, sched)
    decreases |sched|
  {
    hide Inv, Step, Record, Lapped, Fits;
    if sched == [] {
      run := [(q, h)];
    } else {
      var a := sched[0];
      StepShaped(q, a.t, a.e);
      Keeps(q, h, a.t, a.e);
      RecordMarks(q, h, a.t);
      var rest := TraceOf(Step(q, a.t, a.e), Record(q, h, a.t), sched[1..]);
      run := [(q, h)] + rest;
      forall i | 0 <= i < |sched|
        ensures Goes(run[i], sched[i], run[i + 1])
      {
        assert i > 0 ==> Goes(rest[i - 1], sched[1..][i - 1], rest[i]);
      }
    }
  }

  lemma {:induction false} TraceInv<W>(run: seq<State<W>>, sched: seq<Action<W>>, i: nat)
    requires Trace(run, sched) && i < |run|
    ensures Shaped(run[i].0) && Inv(run[i].0, run[i].1) && |run[i].0.threads| == |run[i].1.marks| == |run[0].0.threads|
    ensures run[i].0.size == run[0].0.size && run[i].0.words == run[0].0.words
    decreases i
  {
    hide Inv, Step, Record, Lapped, Shaped;
    if i == 0 {
      Sizes(run[0].0, run[0].1);
    } else {
      TraceInv(run, sched, i - 1);
      assert Goes(run[i - 1], sched[i - 1], run[i]);
      var (q, h) := run[i - 1];
      StepShaped(q, sched[i - 1].t, sched[i - 1].e);
      Keeps(q, h, sched[i - 1].t, sched[i - 1].e);
      RecordMarks(q, h, sched[i - 1].t);
    }
  }

  // ------------------------------------------------------------------ what a thread has done since a count

  predicate None(who: seq<nat>, t: nat, from: nat) { forall c :: from <= c < |who| ==> who[c] != t }

  predicate Only(who: seq<nat>, t: nat, from: nat, m: nat) {
    from <= m < |who| && forall c :: from <= c < |who| ==> (who[c] == t <==> c == m)
  }

  // Thread t is pushing v since the count was n: it has reserved nothing yet, or one slot for v.
  ghost predicate Pushing<W>(s: State<W>, t: nat, v: seq<W>, n: nat)
    requires t < |s.0.threads| == |s.1.marks|
  {
    n <= |s.1.pushers| &&
    match s.0.threads[t]
    case Wanting(w) => w == v && None(s.1.pushers, t, n)
    case SawWrite(w, _) => w == v && None(s.1.pushers, t, n)
    case NotFull(w, _) => w == v && None(s.1.pushers, t, n)
    case Filling(w, _, _) => w == v && Only(s.1.pushers, t, n, s.1.marks[t])
    case _ => false
  }

  ghost predicate Popping<W>(s: State<W>, t: nat, n: nat)
    requires t < |s.0.threads|
  {
    n <= |s.1.poppers| && (s.0.threads[t].Seeking? || s.0.threads[t].SawRead? || s.0.threads[t].Copying?)
    && None(s.1.poppers, t, n)
  }

  // How a push of v may end: its element stands in its place, published by the last step; or the ring looked full.
  ghost predicate PushEnded<W>(s: State<W>, s': State<W>, t: nat, v: seq<W>, n: nat)
    requires t < |s.0.threads| == |s.1.marks| && t < |s'.0.threads| && s.0.size >= 1
  {
    var (h, h') := (s.1, s'.1);
    match s'.0.threads[t]
    case Idle(Accepted) =>
      var m := h.max;
      h' == h.(max := m + 1) && n <= m < |h.pushed| && h.pushed[m] == v && Only(h.pushers, t, n, m)
    case Idle(Refused) =>
      && h' == h && None(h.pushers, t, n)
      && ((h.write == h.read + s.0.size - 1 && h.marks[t] == h.write)
          || (h.read > h.marks[t] && (h.read - h.marks[t] - 1) % s.0.size == 0))
    case _ => false
  }

  // How a pop may end: it has the element whose turn it was; or the ring looked empty.
  ghost predicate PopEnded<W>(s: State<W>, s': State<W>, t: nat, n: nat)
    requires t < |s.0.threads| == |s.1.marks| && t < |s'.0.threads| && s.0.size >= 1
  {
    var (h, h') := (s.1, s'.1);
    match s'.0.threads[t]
    case Idle(Taken(v)) =>
      && h.read < h.max <= |h.pushed| && v == h.pushed[h.read]
      && h'.read == h.read + 1 && h'.popped == h.popped + [v] && h'.pushed == h.pushed
      && Only(h'.poppers, t, n, h.read)
    case Idle(Refused) =>
      && h' == h && None(h.poppers, t, n)
      && ((h.read == h.max && h.marks[t] == h.read)
          || (h.max > h.marks[t] && (h.max - h.marks[t]) % s.0.size == 0))
    case _ => false
  }

  // ------------------------------------------------------------------ step by step

  // Another thread's step.
  lemma OtherStep<W>(s: State<W>, a: Action<W>, s': State<W>, t: nat)
    requires Goes(s, a, s') && t < |s.0.threads| && t != a.t
    ensures |s'.0.threads| == |s'.1.marks| == |s.0.threads|
    ensures s'.0.threads[t] == s.0.threads[t] && s'.1.marks[t] == s.1.marks[t]
    ensures s'.1.pushers == s.1.pushers || s'.1.pushers == s.1.pushers + [a.t]
    ensures s'.1.poppers == s.1.poppers || s'.1.poppers == s.1.poppers + [a.t]
  {
    StepLocal(s.0, a.t, a.e);
  }

  lemma OtherKeeps<W>(s: State<W>, a: Action<W>, s': State<W>, t: nat, v: seq<W>, n: nat)
    requires Goes(s, a, s') && t < |s.0.threads| && t != a.t
    ensures |s'.0.threads| == |s'.1.marks| == |s.0.threads|
    ensures Pushing(s, t, v, n) ==> Pushing(s', t, v, n)
    ensures Popping(s, t, n) ==> Popping(s', t, n)
  {
    hide Step, Record, Lapped, Shaped;
    OtherStep(s, a, s', t);
  }

  // A step of a thread within its push.
  lemma PushStep<W>(s: State<W>, a: Action<W>, s': State<W>, v: seq<W>, n: nat)
    requires Goes(s, a, s') && Inv(s.0, s.1) && Pushing(s, a.t, v, n)
    ensures |s'.0.threads| == |s'.1.marks| == |s.0.threads|
    ensures if s'.0.threads[a.t].Idle? then PushEnded(s, s', a.t, v, n) else Pushing(s', a.t, v, n)
  {
    StepLocal(s.0, a.t, a.e);
    match s.0.threads[a.t]
    case SawWrite(_, _) =>
      StepGo(s, a);
      GivesUpFull(s.0, s.1, a.t);
    case NotFull(_, _) =>
      ReserveMark(s.0, s.1, a.t);
    case Filling(_, _, _) =>
      PublishMark(s.0, s.1, a.t);
    case _ =>
  }

  // What an idle thread is asked matters to no other step.
  lemma StepGo<W>(s: State<W>, a: Action<W>)
    requires Fits(s.0) && a.t < |s.0.threads| && !s.0.threads[a.t].Idle?
    ensures Step(s.0, a.t, a.e) == Step(s.0, a.t, Go)
  {
  }

  lemma ReserveMark<W>(q: Queue<W>, h: History<W>, t: nat)
    requires Inv(q, h) && t < |q.threads| && q.threads[t].NotFull? && !Lapped(q, h, t)
    ensures |h.pushers| == h.write && (Reserves(q, t) ==> h.marks[t] == h.write)
  {
    hide Wrapped;
    assert Sound(q, h, t);
    if Reserves(q, t) {
      WrappedApart(h.marks[t], h.write, q.size);
    }
  }

  lemma PublishMark<W>(q: Queue<W>, h: History<W>, t: nat)
    requires Inv(q, h) && t < |q.threads| && q.threads[t].Filling?
    ensures h.max <= h.marks[t] < |h.pushed| == |h.pushers| && h.pushed[h.marks[t]] == q.threads[t].v
    ensures Publishes(q, t) ==> h.marks[t] == h.max
  {
    hide Wrapped;
    assert Sound(q, h, t);
    if Publishes(q, t) {
      WrappedApart(h.max, h.marks[t], q.size);
    }
  }

  lemma TakeMark<W>(q: Queue<W>, h: History<W>, t: nat)
    requires Inv(q, h) && t < |q.threads| && Takes(q, t) && !Lapped(q, h, t)
    ensures h.marks[t] == h.read < h.max <= |h.pushed| && q.threads[t].buf == h.pushed[h.read]
    ensures |h.poppers| == h.read
  {
    hide Wrapped;
    assert Sound(q, h, t) && LocalFits(q.threads[t], q.size, q.words);
    WrappedApart(h.marks[t], h.read, q.size);
    assert |h.pushed[h.read]| == q.words;
  }

  // A step of a thread within its pop.
  lemma PopStep<W>(s: State<W>, a: Action<W>, s': State<W>, n: nat)
    requires Goes(s, a, s') && Inv(s.0, s.1) && Popping(s, a.t, n)
    ensures |s'.0.threads| == |s'.1.marks| == |s.0.threads|
    ensures if s'.0.threads[a.t].Idle? then PopEnded(s, s', a.t, n) else Popping(s', a.t, n)
  {
    StepLocal(s.0, a.t, a.e);
    if s.0.threads[a.t].SawRead? {
      StepGo(s, a);
      GivesUpEmpty(s.0, s.1, a.t);
    } else if Takes(s.0, a.t) {
      TakeMark(s.0, s.1, a.t);
    }
  }

  // ------------------------------------------------------------------ whole calls

  // From its start at moment i on thread t is in one call.
  predicate Calls<W>(run: seq<State<W>>, t: nat, i: nat, k: nat) {
    i < k < |run| && forall n :: i <= n < k && t < |run[n].0.threads| ==> (run[n].0.threads[t].Idle? <==> n == i)
  }

  lemma PushBegins<W>(s: State<W>, a: Action<W>, s': State<W>)
    requires Goes(s, a, s') && Inv(s.0, s.1) && s.0.threads[a.t].Idle? && a.e.Push? && |a.e.v| == s.0.words
    ensures |s'.0.threads| == |s'.1.marks| == |s.0.threads| && Pushing(s', a.t, a.e.v, s.1.write)
  {
    StepLocal(s.0, a.t, a.e);
  }

  lemma PopBegins<W>(s: State<W>, a: Action<W>, s': State<W>)
    requires Goes(s, a, s') && Inv(s.0, s.1) && s.0.threads[a.t].Idle? && a.e.Pop?
    ensures |s'.0.threads| == |s'.1.marks| == |s.0.threads| && Popping(s', a.t, s.1.read)
  {
    StepLocal(s.0, a.t, a.e);
  }

  // A push, whoever else is at work: it goes on with its element until it returns. It returns 0 by publishing the
  // element, which stands in the queue at the one count that the call has reserved; or it returns -1, with nothing
  // reserved, exactly when the ring looked full. There is no other way out.
  lemma {:induction false} PushCall<W>(run: seq<State<W>>, sched: seq<Action<W>>, i: nat, k: nat)
    requires Trace(run, sched) && i < |sched| && Calls(run, sched[i].t, i, k)
    requires sched[i].t < |run[i].0.threads|
    requires sched[i].e.Push? && |sched[i].e.v| == run[i].0.words
    ensures var t := sched[i].t;
      && t < |run[k - 1].0.threads| == |run[k - 1].1.marks| == |run[k].0.threads| == |run[k].1.marks|
      && run[k - 1].0.size >= 1
      && if run[k].0.threads[t].Idle? then PushEnded(run[k - 1], run[k], t, sched[i].e.v, run[i].1.write)
         else Pushing(run[k], t, sched[i].e.v, run[i].1.write)
    decreases k
  {
    hide Inv, Step, Record, Lapped, Shaped, Pushing, Popping, PushEnded;
    var t, v, n := sched[i].t, sched[i].e.v, run[i].1.write;
    TraceInv(run, sched, k - 1);
    TraceInv(run, sched, k);
    SizeAtLeastOne(run[k - 1]);
    assert Goes(run[k - 1], sched[k - 1], run[k]);
    if k == i + 1 {
      PushBegins(run[i], sched[i], run[k]);
      NotIdle(run[k], t, v, n);
    } else {
      TraceInv(run, sched, i);
      PushCall(run, sched, i, k - 1);
      if sched[k - 1].t == t {
        PushStep(run[k - 1], sched[k - 1], run[k], v, n);
      } else {
        OtherKeeps(run[k - 1], sched[k - 1], run[k], t, v, n);
        NotIdle(run[k], t, v, n);
      }
    }
  }

  lemma SizeAtLeastOne<W>(s: State<W>)
    requires Inv(s.0, s.1)
    ensures s.0.size >= 1
  {
  }

  lemma NotIdle<W>(s: State<W>, t: nat, v: seq<W>, n: nat)
    requires t < |s.0.threads| == |s.1.marks| && (Pushing(s, t, v, n) || Popping(s, t, n))
    ensures !s.0.threads[t].Idle?
  {
  }

  // A pop: it returns 0 with the element whose turn it is, which nobody else gets, and takes no other; or it returns
  // -1, having taken nothing, exactly when the ring looked empty.
  lemma {:induction false} PopCall<W>(run: seq<State<W>>, sched: seq<Action<W>>, i: nat, k: nat)
    requires Trace(run, sched) && i < |sched| && Calls(run, sched[i].t, i, k)
    requires sched[i].t < |run[i].0.threads| && sched[i].e.Pop?
    ensures var t := sched[i].t;
      && t < |run[k - 1].0.threads| == |run[k - 1].1.marks| == |run[k].0.threads| == |run[k].1.marks|
      && run[k - 1].0.size >= 1
      && if run[k].0.threads[t].Idle? then PopEnded(run[k - 1], run[k], t, run[i].1.read)
         else Popping(run[k], t, run[i].1.read)
    decreases k
  {
    hide Inv, Step, Record, Lapped, Shaped, Pushing, Popping, PopEnded;
    var t, n := sched[i].t, run[i].1.read;
    TraceInv(run, sched, k - 1);
    TraceInv(run, sched, k);
    SizeAtLeastOne(run[k - 1]);
    assert Goes(run[k - 1], sched[k - 1], run[k]);
    if k == i + 1 {
      PopBegins(run[i], sched[i], run[k]);
      NotIdle(run[k], t, [], n);
    } else {
      TraceInv(run, sched, i);
      PopCall(run, sched, i, k - 1);
      if sched[k - 1].t == t {
        PopStep(run[k - 1], sched[k - 1], run[k], n);
      } else {
        OtherKeeps(run[k - 1], sched[k - 1], run[k], t, [], n);
        NotIdle(run[k], t, [], n);
      }
    }
  }
}
