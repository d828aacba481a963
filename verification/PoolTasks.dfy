// What becomes of each task given to the thread pool, and which one comes next.
module PoolTasks {
  import opened Common
  import opened Counting
  import opened TaskList
  import opened ThreadPool

  // ------------------------------------------------------------------ what stays

  // What a task was dispatched with stays. So does the place in the order of a task that was listed, and who took it.
  predicate SameCall(j: Job, k: Job) {
    && k.record == j.record && k.func == j.func && k.free1 == j.free1 && k.free2 == j.free2
    && k.priority == j.priority
    && (j.taker.Some? ==> k.taker == j.taker)
    && (j.taker.Some? || j.stage == Queued ==> k.order == j.order)
    && (j.stage == Queued ==> k.stage == Queued || k.taker.Some?)
  }

  predicate Kept(s: State, s': State) {
    |s.jobs| <= |s'.jobs| && forall j :: 0 <= j < |s.jobs| ==> SameCall(s.jobs[j], s'.jobs[j])
  }

  // A task is taken by the thread that takes it out of the list, and by no other step.
  predicate TakenRightly(pc: Pc, j: Job, k: Job) {
    j.taker == None && k.taker.Some? ==>
      && j.stage == Queued
      && (pc.Take? || pc.Unlink? || pc.Drain?)
      && k.taker == Some(if pc.Take? then Worker else if pc.Unlink? then Remover else Releaser)
  }

  predicate Follows(s: State, t: nat, s': State)
    requires t < |s.pcs|
  {
    && Kept(s, s')
    && (forall j :: 0 <= j < |s.jobs| ==> TakenRightly(s.pcs[t], s.jobs[j], s'.jobs[j]))
    && |s'.jobs| == |s.jobs| + (if s.pcs[t].New? then 1 else 0)
  }

  lemma QuietFollows(s: State, t: nat, s': State)
    requires t < |s.pcs| && (QuietStep(s, t, s') || ClientStep(s, t, s'))
    ensures Follows(s, t, s')
  {
    if QuietStep(s, t, s') {
      assert !s.pcs[t].New?;
    }
    hide Next;
  }

  lemma TaskFollows(s: State, t: nat, s': State)
    requires Owned(s) && t < |s.pcs| && TaskStep(s, t, s')
    ensures Follows(s, t, s')
  {
    HandMeans(s, t);
    hide Owned;
  }

  lemma PullFollows(s: State, t: nat, s': State)
    requires Owned(s) && t < |s.pcs| && (TakeStep(s, t, s') || UnlinkStep(s, t, s') || DrainStep(s, t, s'))
    ensures Follows(s, t, s')
  {
    if s.list != [] {
      var i := if s.pcs[t].Unlink? then s.pcs[t].i else 0;
      assert JobAt(s, s.list[i]).stage == Queued;
      assert Home(s, s.content[s.list[i]]);
    }
    hide Owned;
  }

  lemma AppendFollows(s: State, t: nat, s': State)
    requires Owned(s) && t < |s.pcs| && AppendStep(s, t, s')
    ensures Follows(s, t, s')
  {
    HandMeans(s, t);
    hide Owned;
  }

  lemma NewFollows(s: State, t: nat, s': State)
    requires t < |s.pcs| && NewStep(s, t, s')
    ensures Follows(s, t, s')
    ensures var (b, call) := (s'.jobs[|s.jobs|], s.pcs[t]);
      && b.func == call.func && b.free1 == call.free1 && b.free2 == call.free2 && b.priority == call.priority
      && b.stage == Held(t, Fresh)
  {
  }

  lemma StepFollows(s: State, t: nat, s': State)
    requires Owned(s) && Step(s, t, s')
    ensures t < |s.pcs| && Follows(s, t, s')
  {
    hide Owned, Follows, QuietStep, TakeStep, TaskStep, NewStep, AppendStep, UnlinkStep, ClientStep, DrainStep;
    if QuietStep(s, t, s') || ClientStep(s, t, s') {
      QuietFollows(s, t, s');
    } else if TaskStep(s, t, s') {
      TaskFollows(s, t, s');
    } else if NewStep(s, t, s') {
      NewFollows(s, t, s');
    } else if AppendStep(s, t, s') {
      AppendFollows(s, t, s');
    } else {
      PullFollows(s, t, s');
    }
  }

  lemma OnlyNew(s: State, t: nat, s': State)
    requires Step(s, t, s') && s.pcs[t].New?
    ensures NewStep(s, t, s')
  {
    assert Next(s, t) == Blocked;
    hide Next, TaskEnds, Pulled, Enqueued, Allocated, Reused;
  }

  lemma KeptOn(s: State, m: State, e: State)
    requires Kept(s, m) && Kept(m, e)
    ensures Kept(s, e)
  {
    forall j | 0 <= j < |s.jobs|
      ensures SameCall(s.jobs[j], e.jobs[j])
    {
      assert SameCall(s.jobs[j], m.jobs[j]) && SameCall(m.jobs[j], e.jobs[j]);
    }
  }

  lemma KeptSelf(s: State)
    ensures Kept(s, s)
  {
  }

  lemma InvOwned(s: State)
    requires Inv(s)
    ensures Owned(s)
  {
    hide Owned, Disciplined, Alone, InOrder;
  }

  lemma {:induction false} KeptAlong(run: seq<State>, who: seq<nat>, i: nat, k: nat)
    requires History(run, who) && i <= k < |run|
    ensures Kept(run[i], run[k])
    decreases k
  {
    hide Inv, Step, Kept, Init;
    if i == k {
      KeptSelf(run[i]);
    } else {
      KeptAlong(run, who, i, k - 1);
      RunInv(run, who, k - 1);
      InvOwned(run[k - 1]);
      assert Step(run[k - 1], who[k - 1], run[k]);
      StepFollows(run[k - 1], who[k - 1], run[k]);
      KeptOn(run[i], run[k - 1], run[k]);
    }
  }

  // What a dispatch promises. From the moment on at which a thread makes the task of its call there is a job with the
  // function, the flags and the priority of that call. When it is done, the function has been called exactly once if
  // a worker took the task and there is a function, else never, and each of its two parts is freed as asked.
  lemma Dispatched(run: seq<State>, who: seq<nat>, i: nat, k: nat)
    requires History(run, who) && i < |who| && i < k < |run|
    requires who[i] < |run[i].pcs| && run[i].pcs[who[i]].New?
    ensures |run[i].jobs| < |run[k].jobs|
    ensures var (b, call) := (run[k].jobs[|run[i].jobs|], run[i].pcs[who[i]]);
      && b.func == call.func && b.free1 == call.free1 && b.free2 == call.free2 && b.priority == call.priority
      && (b.stage == Done ==>
            && b.taker.Some?
            && b.started == b.ended == One(b.taker == Some(Worker) && call.func != None)
            && b.freed1 == One(call.free1) && b.freed2 == One(call.free2))
  {
    hide Inv, Step;
    RunInv(run, who, i);
    assert Step(run[i], who[i], run[i + 1]);
    OnlyNew(run[i], who[i], run[i + 1]);
    NewFollows(run[i], who[i], run[i + 1]);
    KeptAlong(run, who, i + 1, k);
    RunInv(run, who, k);
    assert SameCall(run[i + 1].jobs[|run[i].jobs|], run[k].jobs[|run[i].jobs|]);
    if run[k].jobs[|run[i].jobs|].stage == Done {
      DoneMeans(run[k], |run[i].jobs|);
    }
  }

  lemma DoneMeans(s: State, j: nat)
    requires Inv(s) && j < |s.jobs| && s.jobs[j].stage == Done
    ensures var b := s.jobs[j];
      && b.taker.Some? && b.started == b.ended == One(Due(b)) && b.freed1 == One(b.free1) && b.freed2 == One(b.free2)
  {
    assert Home(s, j);
  }

  // Every job stems from such a call.
  lemma {:induction false} Stems(run: seq<State>, who: seq<nat>, k: nat, j: nat) returns (i: nat)
    requires History(run, who) && k < |run| && j < |run[k].jobs|
    ensures i < k && who[i] < |run[i].pcs| && run[i].pcs[who[i]].New? && |run[i].jobs| == j
    decreases k
  {
    hide Step, Owned, Disciplined, Alone, InOrder;
    assert k > 0;
    RunInv(run, who, k - 1);
    assert Step(run[k - 1], who[k - 1], run[k]);
    StepFollows(run[k - 1], who[k - 1], run[k]);
    if j < |run[k - 1].jobs| {
      i := Stems(run, who, k - 1, j);
    } else {
      i := k - 1;
    }
  }

  // Who took a task is the call of the thread that took it out of the list, for good: a worker in its loop, a caller
  // of ztl_thrpool_remove or the caller of ztl_thrpool_release.
  lemma TakerIs(run: seq<State>, who: seq<nat>, i: nat, j: nat)
    requires History(run, who) && i < |who| && j < |run[i].jobs|
    ensures who[i] < |run[i].pcs| && j < |run[i + 1].jobs|
    ensures var (b, c, pc) := (run[i].jobs[j], run[i + 1].jobs[j], run[i].pcs[who[i]]);
      && (b.taker.Some? ==> c.taker == b.taker)
      && (b.taker == None && c.taker.Some? ==>
            && b.stage == Queued
            && (match c.taker.value case Worker => pc.Take? case Remover => pc.Unlink? case Releaser => pc.Drain?))
  {
    RunInv(run, who, i);
    hide Owned, Disciplined, Alone, InOrder, Step;
    StepFollows(run[i], who[i], run[i + 1]);
    assert SameCall(run[i].jobs[j], run[i + 1].jobs[j]);
    assert TakenRightly(run[i].pcs[who[i]], run[i].jobs[j], run[i + 1].jobs[j]);
  }

  // ------------------------------------------------------------------ which task comes next

  predicate Ranked(a: Job, b: Job) {
    if b.priority then a.priority && b.order < a.order else a.priority || a.order < b.order
  }

  // Tasks with priority come first, the latest of them in front; behind them the others, the earliest in front.
  predicate Sorted(s: State) {
    && Listed(s)
    && (forall i :: 0 <= i < |s.list| ==> JobAt(s, s.list[i]).order < s.appended)
    && (forall i, k :: 0 <= i < k < |s.list| ==> Ranked(JobAt(s, s.list[i]), JobAt(s, s.list[k])))
  }

  lemma SortedStays(s: State, s': State)
    requires Sorted(s) && Kept(s, s') && Listed(s') && s'.list == s.list && s'.appended == s.appended
    requires forall i :: 0 <= i < |s.list| ==> s.list[i] < |s'.content| && s'.content[s.list[i]] == s.content[s.list[i]]
    ensures Sorted(s')
  {
    assert forall i :: 0 <= i < |s.list| ==>
      var (b, c) := (JobAt(s, s.list[i]), JobAt(s', s.list[i])); SameCall(b, c) && c.order == b.order;
  }

  lemma SortedPull(s: State, s': State, n: nat)
    requires Sorted(s) && Kept(s, s') && Listed(s') && n < |s.list| && s'.list == Without(s.list, n)
    requires s'.appended == s.appended && s'.content == s.content
    ensures Sorted(s')
  {
    assert forall i :: 0 <= i < |s.list| ==>
      var (b, c) := (JobAt(s, s.list[i]), JobAt(s', s.list[i])); SameCall(b, c) && c.order == b.order;
    assert forall i :: 0 <= i < |s'.list| ==> s'.list[i] == s.list[if i < n then i else i + 1];
  }

  lemma SortedAppend(s: State, t: nat, s': State)
    requires Owned(s) && Sorted(s) && t < |s.pcs| && AppendStep(s, t, s') && Listed(s')
    ensures Sorted(s')
  {
    HandMeans(s, t);
    var r := s.pcs[t].r;
    hide Owned;
    assert forall i :: 0 <= i < |s.list| ==>
      s.content[s.list[i]] != s.content[r] && s'.jobs[s.content[s.list[i]]] == s.jobs[s.content[s.list[i]]];
    if JobAt(s, r).priority {
      assert forall i :: 1 <= i < |s'.list| ==> s'.list[i] == s.list[i - 1];
    }
  }

  lemma ListKept(s: State)
    requires Owned(s)
    ensures Listed(s) && Records(s)
  {
  }

  // The list stays, or task n leaves it.
  predicate LessBy(s: State, s': State, n: nat) {
    && s'.appended == s.appended
    && (|| (s'.list == s.list && |s.content| <= |s'.content|
            && forall i :: 0 <= i < |s.list| ==>
                 s.list[i] < |s.content| && s'.content[s.list[i]] == s.content[s.list[i]])
        || (n < |s.list| && s'.list == Without(s.list, n) && s'.content == s.content))
  }

  lemma NewLess(s: State, t: nat, s': State)
    requires Owned(s) && t < |s.pcs| && NewStep(s, t, s')
    ensures LessBy(s, s', |s.list|)
  {
    hide Homes;
  }

  lemma PullLess(s: State, t: nat, s': State)
    requires Owned(s) && t < |s.pcs| && (TakeStep(s, t, s') || UnlinkStep(s, t, s') || DrainStep(s, t, s'))
    ensures LessBy(s, s', if s.list == [] then 0 else if s.pcs[t].Unlink? then s.pcs[t].i else 0)
  {
    hide Homes;
  }

  lemma OtherLess(s: State, t: nat, s': State)
    requires Owned(s) && t < |s.pcs| && (QuietStep(s, t, s') || ClientStep(s, t, s') || TaskStep(s, t, s'))
    ensures LessBy(s, s', |s.list|)
  {
    hide Homes, Next, TaskEnds;
  }

  lemma ListLess(s: State, t: nat, s': State) returns (n: nat)
    requires Owned(s) && t < |s.pcs| && Step(s, t, s') && !AppendStep(s, t, s')
    ensures LessBy(s, s', n)
  {
    hide Owned, LessBy, QuietStep, TakeStep, TaskStep, NewStep, AppendStep, UnlinkStep, ClientStep, DrainStep;
    if NewStep(s, t, s') {
      n := |s.list|;
      NewLess(s, t, s');
    } else if QuietStep(s, t, s') || ClientStep(s, t, s') || TaskStep(s, t, s') {
      n := |s.list|;
      OtherLess(s, t, s');
    } else {
      n := if s.list == [] then 0 else if s.pcs[t].Unlink? then s.pcs[t].i else 0;
      PullLess(s, t, s');
    }
  }

  lemma StepSorted(s: State, t: nat, s': State)
    requires Owned(s) && Owned(s') && Sorted(s) && Step(s, t, s')
    ensures Sorted(s')
  {
    hide Owned, Sorted, Listed, Kept, Step, AppendStep;
    ListKept(s');
    StepFollows(s, t, s');
    if AppendStep(s, t, s') {
      SortedAppend(s, t, s');
    } else {
      var n := ListLess(s, t, s');
      if s'.list == s.list {
        SortedStays(s, s');
      } else {
        SortedPull(s, s', n);
      }
    }
  }

  lemma {:induction false} RunSorted(run: seq<State>, who: seq<nat>, i: nat)
    requires History(run, who) && i < |run|
    ensures Sorted(run[i])
    decreases i
  {
    hide Inv, Step;
    if i > 0 {
      hide Init, Sorted;
      RunSorted(run, who, i - 1);
      RunInv(run, who, i - 1);
      RunInv(run, who, i);
      InvOwned(run[i - 1]);
      InvOwned(run[i]);
      assert Step(run[i - 1], who[i - 1], run[i]);
      StepSorted(run[i - 1], who[i - 1], run[i]);
    }
  }

  // At every moment the list is sorted like that, and a worker that finds a task takes the first one.
  lemma NextTask(run: seq<State>, who: seq<nat>, i: nat)
    requires History(run, who) && i < |who| && who[i] < |run[i].pcs| && run[i].pcs[who[i]].Take? && run[i].list != []
    ensures var (s, s') := (run[i], run[i + 1]);
      && (forall k :: 0 <= k < |s.list| ==> Known(s, s.list[k]))
      && (forall k :: 0 < k < |s.list| ==> Ranked(JobAt(s, s.list[0]), JobAt(s, s.list[k])))
      && s'.list == s.list[1..] && s'.taken == s.taken + [s.content[s.list[0]]]
      && s.content[s.list[0]] < |s'.jobs| && s'.jobs[s.content[s.list[0]]].taker == Some(Worker)
      && s'.jobs[s.content[s.list[0]]].stage == Held(who[i], Taken)
  {
    RunSorted(run, who, i);
    hide Inv;
    assert Step(run[i], who[i], run[i + 1]);
    OnlyTake(run[i], who[i], run[i + 1]);
  }

  lemma OnlyTake(s: State, t: nat, s': State)
    requires Step(s, t, s') && s.pcs[t].Take? && s.list != []
    ensures TakeStep(s, t, s')
  {
    assert Next(s, t) == Blocked;
    hide Next, TaskEnds, Pulled, Enqueued, Allocated, Reused;
  }

  // ------------------------------------------------------------------ what a removal takes

  // The task a removal is about to unlink is the first one with its function behind the head.
  predicate Aims(s: State, u: nat)
    requires u < |s.pcs|
  {
    s.pcs[u].Unlink? ==> Removable(ListedFuncs(s), s.pcs[u].func, 1) == s.pcs[u].i
  }

  predicate OnTarget(s: State) { forall u :: 0 <= u < |s.pcs| ==> Aims(s, u) }

  // No other thread touches the list of one that holds the mutex for its removal.
  lemma HeldStill(s: State, t: nat, s': State, u: nat)
    requires Inv(s) && Step(s, t, s') && u < |s.pcs| && u != t && s.pcs[u].Unlink?
    ensures LessBy(s, s', |s.list|)
  {
    assert s.mutex == Some(u) && !Holding(s.pcs[t]) && s.releasing == None && !Draining(s.pcs[t]) by {
      hide HowMany, Owned, Aimed, InOrder, Step;
      assert Holding(s.pcs[u]) && !AtRest(s.pcs[u]);
    }
    hide Disciplined, Alone, InOrder, Owned, LessBy, QuietStep, TaskStep, NewStep, ClientStep, Pulled, Enqueued;
    if NewStep(s, t, s') {
      NewLess(s, t, s');
    } else {
      OtherLess(s, t, s');
    }
  }

  lemma SameFuncs(s: State, s': State)
    requires Listed(s) && Listed(s') && Kept(s, s') && LessBy(s, s', |s.list|)
    ensures ListedFuncs(s') == ListedFuncs(s)
  {
    forall i | 0 <= i < |s.list|
      ensures ListedFuncs(s')[i] == ListedFuncs(s)[i]
    {
      assert SameCall(JobAt(s, s.list[i]), JobAt(s', s.list[i]));
    }
  }

  // What a thread that moves a task or begins a call does not do.
  predicate Moderate(s: State, t: nat, s': State)
    requires t < |s.pcs|
  {
    && t < |s'.pcs| && !s'.pcs[t].Unlink? && !s'.pcs[t].Leave? && (s'.pcs[t] == Gone ==> s'.destroyed)
    && (s.stop ==> s'.stop)
  }

  lemma ListModerate(s: State, t: nat, s': State)
    requires t < |s.pcs|
    requires TakeStep(s, t, s') || UnlinkStep(s, t, s') || AppendStep(s, t, s') || DrainStep(s, t, s')
    ensures Moderate(s, t, s')
  {
  }

  lemma NewModerate(s: State, t: nat, s': State)
    requires t < |s.pcs| && (NewStep(s, t, s') || ClientStep(s, t, s'))
    ensures Moderate(s, t, s')
  {
  }

  lemma TaskModerate(s: State, t: nat, s': State)
    requires t < |s.pcs| && TaskStep(s, t, s')
    ensures Moderate(s, t, s')
  {
    hide Known;
  }

  lemma StepModerate(s: State, t: nat, s': State)
    requires Step(s, t, s') && !QuietStep(s, t, s')
    ensures Moderate(s, t, s')
  {
    hide Moderate, QuietStep, TakeStep, TaskStep, NewStep, AppendStep, UnlinkStep, ClientStep, DrainStep;
    if TaskStep(s, t, s') {
      TaskModerate(s, t, s');
    } else if NewStep(s, t, s') || ClientStep(s, t, s') {
      NewModerate(s, t, s');
    } else {
      ListModerate(s, t, s');
    }
  }

  // Where a thread stands that is about to unlink, and where it stood.
  lemma Searched(s: State, t: nat, s': State)
    requires Step(s, t, s') && t < |s'.pcs| && s'.pcs[t].Unlink?
    ensures s.pcs[t] == Search(s'.pcs[t].func) && Removable(ListedFuncs(s), s'.pcs[t].func, 1) == s'.pcs[t].i
    ensures s'.list == s.list && s'.content == s.content && s'.jobs == s.jobs
  {
    hide ListedFuncs, Removable, TakeStep, TaskStep, NewStep, AppendStep, UnlinkStep, ClientStep, DrainStep;
    if !QuietStep(s, t, s') {
      StepModerate(s, t, s');
    }
  }

  lemma OthersStay(s: State, t: nat, s': State)
    requires Owned(s) && Step(s, t, s')
    ensures t < |s.pcs| && t < |s'.pcs| && s'.pcs == s.pcs[t := s'.pcs[t]]
  {
    hide Owned, Step;
    Nearer(s, t, s');
  }

  lemma StepOnTarget(s: State, t: nat, s': State)
    requires Inv(s) && Inv(s') && OnTarget(s) && Step(s, t, s')
    ensures OnTarget(s')
  {
    hide Disciplined, Alone, InOrder, Owned, Step, ListedFuncs, Listed, Kept, LessBy, Removable;
    OthersStay(s, t, s');
    ListKept(s);
    ListKept(s');
    StepFollows(s, t, s');
    forall u | 0 <= u < |s'.pcs| && s'.pcs[u].Unlink?
      ensures Aims(s', u)
    {
      if u == t {
        Searched(s, t, s');
        StillFuncs(s, s');
      } else {
        assert Aims(s, u);
        HeldStill(s, t, s', u);
        SameFuncs(s, s');
      }
    }
  }

  lemma StillFuncs(s: State, s': State)
    requires s'.list == s.list && s'.content == s.content && s'.jobs == s.jobs
    ensures ListedFuncs(s') == ListedFuncs(s)
  {
  }

  lemma {:induction false} RunOnTarget(run: seq<State>, who: seq<nat>, i: nat)
    requires History(run, who) && i < |run|
    ensures OnTarget(run[i])
    decreases i
  {
    hide Inv, Step, ListedFuncs, Removable;
    if i > 0 {
      RunOnTarget(run, who, i - 1);
      RunInv(run, who, i - 1);
      RunInv(run, who, i);
      hide OnTarget;
      assert Step(run[i - 1], who[i - 1], run[i]);
      StepOnTarget(run[i - 1], who[i - 1], run[i]);
    }
  }

  // A thread that unlinks a task takes the first one behind the head that has the function asked for. The head stays
  // the head, and the others keep their order.
  lemma RemovesFirstMatch(run: seq<State>, who: seq<nat>, i: nat)
    requires History(run, who) && i < |who| && who[i] < |run[i].pcs| && run[i].pcs[who[i]].Unlink?
    ensures var (s, s', n, func) := (run[i], run[i + 1], run[i].pcs[who[i]].i, run[i].pcs[who[i]].func);
      && 1 <= n < |s.list| && (forall k :: 0 <= k < |s.list| ==> Known(s, s.list[k]))
      && JobAt(s, s.list[n]).func == func && (forall k :: 1 <= k < n ==> JobAt(s, s.list[k]).func != func)
      && s'.list == Without(s.list, n) && s'.taken == s.taken
      && s.content[s.list[n]] < |s'.jobs| && s'.jobs[s.content[s.list[n]]].taker == Some(Remover)
  {
    RunOnTarget(run, who, i);
    RunInv(run, who, i);
    var s, t := run[i], who[i];
    assert Aims(s, t);
    assert forall k :: 0 <= k < |s.list| ==> Known(s, s.list[k]) && ListedFuncs(s)[k] == JobAt(s, s.list[k]).func;
    hide Inv, OnTarget;
    assert Step(s, t, run[i + 1]);
    OnlyUnlink(s, t, run[i + 1]);
  }

  lemma OnlyUnlink(s: State, t: nat, s': State)
    requires Step(s, t, s') && s.pcs[t].Unlink?
    ensures UnlinkStep(s, t, s')
  {
    assert Next(s, t) == Blocked;
    hide Next, TaskEnds, Pulled, Enqueued, Allocated, Reused;
  }

  // A removal searches for the function it was called with, and gives up exactly if no task behind the head has it.
  lemma SearchTells(run: seq<State>, who: seq<nat>, i: nat)
    requires History(run, who) && i < |who| && who[i] < |run[i].pcs|
    ensures who[i] < |run[i + 1].pcs|
    ensures var (s, pc, pc') := (run[i], run[i].pcs[who[i]], run[i + 1].pcs[who[i]]);
      && (pc.RLock? ==> pc' == Search(pc.func))
      && (forall k :: 0 <= k < |s.list| ==> Known(s, s.list[k]))
      && (pc.Search? ==>
            && (pc' == RNone || (pc'.Unlink? && pc'.func == pc.func))
            && (pc' == RNone <==> forall k :: 1 <= k < |s.list| ==> JobAt(s, s.list[k]).func != pc.func))
  {
    RunInv(run, who, i);
    var s, t, s' := run[i], who[i], run[i + 1];
    assert Step(s, t, s');
    assert forall k :: 0 <= k < |s.list| ==> Known(s, s.list[k]) && ListedFuncs(s)[k] == JobAt(s, s.list[k]).func;
    assert Owned(s);
    hide Inv, Owned;
    OthersStay(s, t, s');
    if s.pcs[t].RLock? || s.pcs[t].Search? {
      OnlyQuiet(s, t, s');
    }
    hide Step, ListedFuncs;
  }

  // Where the thread alone decides what comes next, it does that.
  lemma OnlyQuiet(s: State, t: nat, s': State)
    requires Step(s, t, s') && (Next(s, t) != Blocked || s.pcs[t].RLock?)
    ensures QuietStep(s, t, s')
  {
    hide ListedFuncs, Removable, Pulled, Enqueued, Allocated, Reused;
  }

  // ------------------------------------------------------------------ workers leave only when told to stop

  predicate Stopped(s: State, pc: Pc) { pc.Leave? || (pc == Gone && !s.destroyed) ==> s.stop }

  lemma WhoLeaves(s: State, t: nat, s': State)
    requires Step(s, t, s') && t < |s'.pcs|
    ensures s.stop ==> s'.stop
    ensures s'.pcs[t].Leave? ==> s.stop || s.pcs[t].Leave?
    ensures s'.pcs[t] == Gone ==> s.pcs[t].Leave? || s.pcs[t] == Gone || s'.destroyed
    ensures !s.destroyed
  {
    hide ListedFuncs, Removable, TakeStep, TaskStep, NewStep, AppendStep, UnlinkStep, ClientStep, DrainStep;
    if !QuietStep(s, t, s') {
      StepModerate(s, t, s');
    }
  }

  lemma StepStopped(s: State, t: nat, s': State)
    requires Owned(s) && Step(s, t, s')
    requires forall u :: 0 <= u < |s.pcs| ==> Stopped(s, s.pcs[u])
    ensures forall u :: 0 <= u < |s'.pcs| ==> Stopped(s', s'.pcs[u])
  {
    hide Owned, Step;
    OthersStay(s, t, s');
    WhoLeaves(s, t, s');
    assert Stopped(s, s.pcs[t]);
    forall u | 0 <= u < |s'.pcs|
      ensures Stopped(s', s'.pcs[u])
    {
      assert u != t ==> Stopped(s, s.pcs[u]);
    }
  }

  // A worker leaves its loop only after the pool was told to stop.
  lemma {:induction false} LeavesWhenStopped(run: seq<State>, who: seq<nat>, i: nat)
    requires History(run, who) && i < |run|
    ensures forall u :: 0 <= u < |run[i].pcs| ==> Stopped(run[i], run[i].pcs[u])
    decreases i
  {
    hide Owned, Disciplined, Alone, InOrder, Step;
    if i > 0 {
      LeavesWhenStopped(run, who, i - 1);
      RunInv(run, who, i - 1);
      assert Step(run[i - 1], who[i - 1], run[i]);
      StepStopped(run[i - 1], who[i - 1], run[i]);
    }
  }

  // ------------------------------------------------------------------ a worker left alone

  // Thread t makes all the steps.
  ghost predicate By(run: seq<State>, t: nat) {
    |run| >= 1 && forall i :: 0 <= i < |run| - 1 ==> Step(run[i], t, run[i + 1])
  }

  // A worker at the head of its loop, with a task in the list and the mutex free.
  predicate Ready(s: State, t: nat) {
    && t < |s.pcs| && s.pcs[t] == Test && !s.stop && s.mutex == None && s.list != []
    && Known(s, s.list[0])
  }

  lemma Turns(s: State, t: nat, s': State)
    requires Step(s, t, s') && Next(s, t) != Blocked
    ensures s' == (var n := Next(s, t); Go(s, t, n.pc).(mutex := n.mutex, taskn := n.taskn, active := n.active))
  {
    hide Next, TakeStep, TaskStep, NewStep, AppendStep, UnlinkStep, ClientStep, DrainStep;
    OnlyQuiet(s, t, s');
  }

  lemma GoTwice(s: State, t: nat, a: Pc, b: Pc)
    requires t < |s.pcs|
    ensures Go(Go(s, t, a), t, b) == Go(s, t, b)
  {
    assert s.pcs[t := a][t := b] == s.pcs[t := b];
  }

  // The worker locks the mutex, sees that the list is not empty, takes the head, counts it off and unlocks.
  function Fetched(s: State, t: nat): State
    requires t < |s.pcs| && s.list != [] && Known(s, s.list[0])
  {
    var r := s.list[0];
    Mark(Go(s, t, Call(r)), r, JobAt(s, r).(stage := Held(t, Taken), taker := Some(Worker)))
      .(list := s.list[1..], taken := s.taken + [s.content[r]], taskn := s.taskn - 1)
  }

  lemma Fetches(run: seq<State>, t: nat)
    requires By(run, t) && |run| >= 7 && Ready(run[0], t)
    ensures run[6] == Fetched(run[0], t)
  {
    hide Step, ListedFuncs, Removable;
    var s, r := run[0], run[0].list[0];
    Turns(run[0], t, run[1]);
    assert run[1] == Go(s, t, Lock);
    Turns(run[1], t, run[2]);
    GoTwice(s, t, Lock, Look);
    assert run[2] == Go(s, t, Look).(mutex := Some(t));
    Turns(run[2], t, run[3]);
    GoTwice(s, t, Look, Take);
    assert run[3] == Go(s, t, Take).(mutex := Some(t));
    OnlyTake(run[3], t, run[4]);
    GoTwice(s, t, Take, Dec(r));
    var taken := Mark(Go(s, t, Dec(r)), r, JobAt(s, r).(stage := Held(t, Taken), taker := Some(Worker)))
      .(list := s.list[1..], taken := s.taken + [s.content[r]], mutex := Some(t));
    assert Without(s.list, 0) == s.list[1..];
    assert run[4] == taken;
    FetchesOn(s, taken, run[5], run[6], t, r);
  }

  lemma FetchesOn(s: State, taken: State, s5: State, s6: State, t: nat, r: nat)
    requires t < |s.pcs| && s.mutex == None && s.list != [] && r == s.list[0] && Known(s, r)
    requires taken == Mark(Go(s, t, Dec(r)), r, JobAt(s, r).(stage := Held(t, Taken), taker := Some(Worker)))
      .(list := s.list[1..], taken := s.taken + [s.content[r]], mutex := Some(t))
    requires Step(taken, t, s5) && Step(s5, t, s6)
    ensures s6 == Fetched(s, t)
  {
    hide Step, ListedFuncs, Removable;
    Turns(taken, t, s5);
    assert taken.pcs[t := Unlock(Some(r))] == s.pcs[t := Unlock(Some(r))];
    Turns(s5, t, s6);
    assert s5.pcs[t := Call(r)] == s.pcs[t := Call(r)];
  }

  lemma OnlyTask(s: State, t: nat, s': State)
    requires Step(s, t, s') && AtTask(s.pcs[t])
    ensures TaskStep(s, t, s')
  {
    assert Next(s, t) == Blocked;
    hide Next, TaskEnds, Pulled, Enqueued, Allocated, Reused;
  }

  // One step with the task in hand.
  lemma Works(s: State, t: nat, r: nat, pc: Pc, j: Job, s1: State, s2: State)
    requires t < |s.pcs| && Known(s, r) && s1 == Mark(Go(s, t, pc), r, j) && AtTask(pc) && Hand(pc) == Some(r)
    requires Step(s1, t, s2)
    ensures var (pc', j') := TaskEnds(t, pc, j);
      var s' := Mark(Go(s, t, pc'), r, j');
      s2 == if pc.Push? && |s.idle| < s.room then s'.(idle := s.idle + [r]) else s'
  {
    hide Step, TaskEnds;
    OnlyTask(s1, t, s2);
    var (pc', j') := TaskEnds(t, pc, j);
    assert s1.pcs[t := pc'] == s.pcs[t := pc'];
    assert s1.jobs[s.content[r] := j'] == s.jobs[s.content[r] := j'];
  }

  // _release_task, by a worker.
  lemma Releases(s: State, s1: State, s2: State, s3: State, e: State, t: nat, r: nat, j: Job)
    requires t < |s.pcs| && Known(s, r) && s1 == Mark(Go(s, t, Free1(r, Worker)), r, j)
    requires Step(s1, t, s2) && Step(s2, t, s3) && Step(s3, t, e)
    ensures var s' := Mark(Go(s, t, Test), r, j.(stage := Done, freed1 := j.freed1 + One(j.free1),
                                                 freed2 := j.freed2 + One(j.free2)));
      e == if |s.idle| < s.room then s'.(idle := s.idle + [r]) else s'
  {
    hide Step, Mark, Go;
    Works(s, t, r, Free1(r, Worker), j, s1, s2);
    var j1 := j.(stage := Held(t, Half), freed1 := j.freed1 + One(j.free1));
    Works(s, t, r, Free2(r, Worker), j1, s2, s3);
    var j2 := j1.(stage := Held(t, Freed), freed2 := j.freed2 + One(j.free2));
    Works(s, t, r, Push(r, Worker), j2, s3, e);
  }

  // The worker calls the function if there is one, and frees and returns the task.
  lemma Finishes(run: seq<State>, t: nat, r: nat, j: Job)
    requires By(run, t) && t < |run[0].pcs| && Known(run[0], r)
    requires run[0] == Mark(Go(run[0], t, Call(r)), r, j) && |run| == (if j.func == None then 5 else 6)
    ensures var (s, e, n) := (run[0], run[|run| - 1], One(j.func != None));
      var s' := Mark(Go(s, t, Test), r, j.(stage := Done, started := j.started + n, ended := j.ended + n,
                                           freed1 := j.freed1 + One(j.free1), freed2 := j.freed2 + One(j.free2)));
      e == if |s.idle| < s.room then s'.(idle := s.idle + [r]) else s'
  {
    hide Step, Mark, Go;
    var s := run[0];
    Works(s, t, r, Call(r), j, s, run[1]);
    if j.func == None {
      Releases(s, run[1], run[2], run[3], run[4], t, r, j.(stage := Held(t, Over)));
    } else {
      var k := j.(stage := Held(t, Running), started := j.started + 1);
      Works(s, t, r, Run(r), k, run[1], run[2]);
      Releases(s, run[2], run[3], run[4], run[5], t, r, k.(stage := Held(t, Over), ended := j.ended + 1));
    }
  }

  lemma HeadWaits(s: State)
    requires Inv(s) && s.list != [] && Known(s, s.list[0])
    ensures var j := JobAt(s, s.list[0]); j.started == j.ended == j.freed1 == j.freed2 == 0
  {
    assert Home(s, s.content[s.list[0]]);
  }

  // A worker that finds a task in the list and is left alone runs it: eleven steps later, or ten without a function,
  // it stands at the head of its loop again, the task is done, its function has been called once, and the rest of the
  // list and all other jobs are as they were.
  lemma WorkerServes(run: seq<State>, t: nat)
    requires By(run, t) && Inv(run[0]) && Ready(run[0], t)
    requires |run| == (if JobAt(run[0], run[0].list[0]).func == None then 11 else 12)
    ensures var (s, e) := (run[0], run[|run| - 1]);
      var n := s.content[s.list[0]];
      && e.pcs == s.pcs && e.mutex == None && e.list == s.list[1..] && e.taskn == s.taskn - 1
      && |e.jobs| == |s.jobs| && (forall k :: 0 <= k < |s.jobs| && k != n ==> e.jobs[k] == s.jobs[k])
      && var (b, j) := (s.jobs[n], e.jobs[n]);
         && j.func == b.func && j.stage == Done && j.taker == Some(Worker)
         && j.started == j.ended == One(b.func != None)
         && j.freed1 == One(b.free1) && j.freed2 == One(b.free2)
  {
    var s, r := run[0], run[0].list[0];
    hide Inv, Step, Tallied;
    HeadWaits(s);
    Fetches(run, t);
    var f, j := run[6], JobAt(s, r).(stage := Held(t, Taken), taker := Some(Worker));
    assert f == Mark(Go(f, t, Call(r)), r, j) by {
      assert f.pcs[t := Call(r)] == f.pcs && f.jobs[s.content[r] := j] == f.jobs;
    }
    Finishes(run[6..], t, r, j);
    assert f.pcs[t := Test] == s.pcs;
  }
}
