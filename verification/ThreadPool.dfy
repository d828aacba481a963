// The thread pool as interleaved steps of workers, dispatchers, removers and a releaser.
module ThreadPool {
  import opened Common
  import opened TaskList
  import opened Counting

  // ------------------------------------------------------------------ jobs

  // Out of the list, and not on the way into it.
  predicate Dequeued(j: Job) { j.stage == Done || (j.stage.Held? && j.stage.at != Fresh) }

  // Where a task is in its life, for the thread that holds it.
  datatype Phase = Fresh | Taken | Running | Over | Half | Freed

  datatype Stage = Queued | Held(owner: nat, at: Phase) | Done

  // One dispatched task: the record it lives in, what it was dispatched with, what happened to it, and who took it
  // out of the list.
  datatype Job = Job(record: nat, func: Func, free1: bool, free2: bool, priority: bool, order: nat, stage: Stage,
                     started: nat, ended: nat, freed1: nat, freed2: nat, taker: Option<Role>)

  // A task whose function is to be called: a worker has it, and there is a function.
  predicate Due(j: Job) { j.taker == Some(Worker) && j.func != None }

  // What has happened by each stage.
  predicate Tallied(j: Job) {
    var phase := if j.stage.Held? then j.stage.at else if j.stage == Done then Freed else Fresh;
    && (j.taker == None <==> phase == Fresh) && (phase == Taken ==> j.taker == Some(Worker))
    && (phase == Running ==> Due(j))
    && j.started == One(Due(j) && phase != Taken)
    && j.ended == One(Due(j) && phase != Taken && phase != Running)
    && j.freed1 == One(j.free1 && (phase == Half || phase == Freed))
    && j.freed2 == One(j.free2 && phase == Freed)
  }

  // ------------------------------------------------------------------ threads

  datatype Role = Worker | Remover | Releaser

  // The call in which a thread takes a task out of the list.
  function Puller(pc: Pc): Role { if pc.Take? then Worker else if pc.Unlink? then Remover else Releaser }

  // Where a thread stands. r is the record of the task it holds.
  datatype Pc =
    | Client | Created | Gone                         // outside the pool: a client between calls, or a worker to begin
    | Test | Lock | Look | Wait | Take | Leave        // the loop of _thrpool_worker_thread, and _get_task
    | Dec(r: nat) | Unlock(got: Option<nat>) | Call(r: nat) | Run(r: nat)
    | Free1(r: nat, role: Role) | Free2(r: nat, role: Role) | Push(r: nat, role: Role)     // _release_task
    | New(priority: bool, func: Func, free1: bool, free2: bool)                            // the dispatching calls
    | DLock(r: nat) | Append(r: nat) | Count | DUnlock
    | RLock(func: Func) | Search(func: Func) | Unlink(i: nat, func: Func)                  // ztl_thrpool_remove
    | RUnlock(r: nat) | RNone
    | Drain                                                                                // ztl_thrpool_release

  // The record in the hands of a thread.
  function Hand(pc: Pc): Option<nat> {
    match pc
    case Dec(r) => Some(r)
    case Unlock(got) => got
    case Call(r) => Some(r)
    case Run(r) => Some(r)
    case Free1(r, _) => Some(r)
    case Free2(r, _) => Some(r)
    case Push(r, _) => Some(r)
    case DLock(r) => Some(r)
    case Append(r) => Some(r)
    case RUnlock(r) => Some(r)
    case _ => None
  }

  // The phase of its job.
  function At(pc: Pc): Phase {
    match pc
    case Run(_) => Running
    case Free1(_, _) => Over
    case RUnlock(_) => Over
    case Free2(_, _) => Half
    case Push(_, _) => Freed
    case DLock(_) => Fresh
    case Append(_) => Fresh
    case _ => Taken
  }

  predicate Holding(pc: Pc) {
    pc.Look? || pc.Take? || pc.Dec? || pc.Unlock? || pc.Append? || pc.Count? || pc.DUnlock? || pc.Search? || pc.Unlink?
    || pc.RUnlock? || pc.RNone?
  }

  // A worker that has begun and not yet ended.
  predicate Inside(pc: Pc) {
    pc.Test? || pc.Lock? || pc.Look? || pc.Wait? || pc.Take? || pc.Leave? || pc.Dec? || pc.Unlock? || pc.Call?
      || pc.Run?
    || ((pc.Free1? || pc.Free2? || pc.Push?) && pc.role == Worker)
  }

  predicate AtRest(pc: Pc) { pc == Client || pc == Gone }

  // ------------------------------------------------------------------ the pool

  // content is the job that a record carries, or carried last. taken logs the jobs dequeued.
  datatype State = State(content: seq<nat>, jobs: seq<Job>, list: seq<nat>, idle: seq<nat>, pcs: seq<Pc>,
                         mutex: Option<nat>, taskn: int, stop: bool, active: int, taken: seq<nat>, appended: nat,
                         releasing: Option<nat>, destroyed: bool, maxsize: nat, room: nat)

  predicate Known(s: State, r: nat) { r < |s.content| && s.content[r] < |s.jobs| }

  function JobAt(s: State, r: nat): Job
    requires Known(s, r)
  {
    s.jobs[s.content[r]]
  }

  function Go(s: State, t: nat, pc: Pc): State
    requires t < |s.pcs|
  {
    s.(pcs := s.pcs[t := pc])
  }

  function Mark(s: State, r: nat, j: Job): State
    requires Known(s, r)
  {
    s.(jobs := s.jobs[s.content[r] := j])
  }

  // The functions of the listed tasks.
  function ListedFuncs(s: State): (fs: seq<Func>)
    ensures |fs| == |s.list|
  {
    seq(|s.list|, i requires 0 <= i < |s.list| => if Known(s, s.list[i]) then JobAt(s, s.list[i]).func else None)
  }

  // ------------------------------------------------------------------ steps

  // Thread t makes one step.
  predicate Step(s: State, t: nat, s': State) {
    && t < |s.pcs| && !s.destroyed && (s.releasing == None || s.releasing == Some(t))
    && (QuietStep(s, t, s') || TakeStep(s, t, s') || TaskStep(s, t, s') || NewStep(s, t, s') || AppendStep(s, t, s')
        || UnlinkStep(s, t, s') || ClientStep(s, t, s') || DrainStep(s, t, s'))
  }

  // A step that moves no task: where the thread stands next, and what it does to the mutex and the counters.
  datatype Turn = Blocked | Turn(pc: Pc, mutex: Option<nat>, taskn: int, active: int)

  // Waiting for the condition ends by a signal, a broadcast or for no reason; it needs the mutex again.
  function Next(s: State, t: nat): Turn
    requires t < |s.pcs|
  {
    var (m, n, a) := (s.mutex, s.taskn, s.active);
    match s.pcs[t]
    case Created => Turn(Test, m, n, a + 1)
    case Test => Turn(if s.stop then Leave else Lock, m, n, a)
    case Leave => Turn(Gone, m, n, a - 1)
    case Lock => if m == None then Turn(Look, Some(t), n, a) else Blocked
    case Look => if s.list == [] then Turn(Wait, None, n, a) else Turn(Take, m, n, a)
    case Wait => if m == None then Turn(Take, Some(t), n, a) else Blocked
    case Take => if s.list == [] then Turn(Unlock(None), m, n, a) else Blocked
    case Dec(r) => Turn(Unlock(Some(r)), m, n - 1, a)
    case Unlock(got) => Turn(if got == None then Test else Call(got.value), None, n, a)
    case DLock(r) => if m == None then Turn(Append(r), Some(t), n, a) else Blocked
    case Count => Turn(DUnlock, m, n + 1, a)
    case DUnlock => Turn(Client, None, n, a)
    case RLock(func) => if m == None then Turn(Search(func), Some(t), n, a) else Blocked
    case Search(func) =>
      var i := Removable(ListedFuncs(s), func, 1);
      if i == 0 then Turn(RNone, m, n, a) else Turn(Unlink(i, func), m, n - 1, a)
    case RUnlock(r) => Turn(Free1(r, Remover), None, n, a)
    case RNone => Turn(Client, None, n, a)
    case _ => Blocked
  }

  predicate QuietStep(s: State, t: nat, s': State)
    requires t < |s.pcs|
  {
    var n := Next(s, t);
    n != Blocked && s' == Go(s, t, n.pc).(mutex := n.mutex, taskn := n.taskn, active := n.active)
  }

  // _get_head_task
  predicate TakeStep(s: State, t: nat, s': State)
    requires t < |s.pcs|
  {
    && s.pcs[t].Take? && s.list != [] && Known(s, s.list[0])
    && s' == Pulled(s, t, 0, Dec(s.list[0])).(taken := s.taken + [s.content[s.list[0]]])
  }

  // _new_task
  predicate NewStep(s: State, t: nat, s': State)
    requires t < |s.pcs|
  {
    && s.pcs[t].New?
    && var j := NewJob(t, s.pcs[t]);
       s' == Allocated(s, t, j) || (s.idle != [] && s.idle[0] < |s.content| && s' == Reused(s, t, j))
  }

  function NewJob(t: nat, pc: Pc): Job
    requires pc.New?
  {
    Job(0, pc.func, pc.free1, pc.free2, pc.priority, 0, Held(t, Fresh), 0, 0, 0, 0, None)
  }

  // _append_task
  predicate AppendStep(s: State, t: nat, s': State)
    requires t < |s.pcs|
  {
    s.pcs[t].Append? && Known(s, s.pcs[t].r) && s' == Enqueued(s, t, s.pcs[t].r)
  }

  // ztl_thrpool_remove takes the task it found out of the list.
  predicate UnlinkStep(s: State, t: nat, s': State)
    requires t < |s.pcs|
  {
    && s.pcs[t].Unlink? && s.pcs[t].i < |s.list| && Known(s, s.list[s.pcs[t].i])
    && s' == Pulled(s, t, s.pcs[t].i, RUnlock(s.list[s.pcs[t].i]))
  }

  // The loop of ztl_thrpool_release, which takes no lock.
  predicate DrainStep(s: State, t: nat, s': State)
    requires t < |s.pcs|
  {
    && s.pcs[t].Drain?
    && if s.list == [] then s' == Go(s, t, Gone).(destroyed := true)
       else
         Known(s, s.list[0]) && s' == Pulled(s, t, 0, Free1(s.list[0], Releaser))
           .(taken := s.taken + [s.content[s.list[0]]], taskn := s.taskn - 1)
  }

  // The steps of a thread with its own task.
  predicate AtTask(pc: Pc) { pc.Call? || pc.Run? || pc.Free1? || pc.Free2? || pc.Push? }

  // Running the task, and _release_task: where the thread stands next, and what becomes of the job.
  function TaskEnds(t: nat, pc: Pc, j: Job): (Pc, Job)
    requires AtTask(pc)
  {
    match pc
    case Call(r) =>
      if j.func == None then (Free1(r, Worker), j.(stage := Held(t, Over)))
      else (Run(r), j.(started := j.started + 1, stage := Held(t, Running)))
    case Run(r) => (Free1(r, Worker), j.(ended := j.ended + 1, stage := Held(t, Over)))
    case Free1(r, role) => (Free2(r, role), j.(freed1 := j.freed1 + One(j.free1), stage := Held(t, Half)))
    case Free2(r, role) =>
      var k := j.(freed2 := j.freed2 + One(j.free2));
      if role == Releaser then (Drain, k.(stage := Done)) else (Push(r, role), k.(stage := Held(t, Freed)))
    case Push(_, role) => (if role == Worker then Test else Client, j.(stage := Done))
  }

  // A record that does not fit among the idle ones is left in the memory pool.
  predicate TaskStep(s: State, t: nat, s': State)
    requires t < |s.pcs|
  {
    && AtTask(s.pcs[t])
    && var r := Hand(s.pcs[t]).value;
       Known(s, r) && var (pc, j) := TaskEnds(t, s.pcs[t], JobAt(s, r));
       s' == Mark(Go(s, t, pc), r, j)
         .(idle := if s.pcs[t].Push? && |s.idle| < s.room then s.idle + [r] else s.idle)
  }

  // What a client may begin: a dispatch if the list seemed not full, a removal, stopping, or releasing. Releasing
  // follows a completed join, and no other thread may be using the pool.
  predicate ClientStep(s: State, t: nat, s': State)
    requires t < |s.pcs|
  {
    && s.pcs[t] == Client
    && (|| (t < |s'.pcs| && s'.pcs[t].New? && s.taskn < s.maxsize && s' == Go(s, t, s'.pcs[t]))
        || (t < |s'.pcs| && s'.pcs[t].RLock? && s' == Go(s, t, s'.pcs[t]))
        || s' == s.(stop := true)
        || (s.stop && s.active == 0 && (forall u :: 0 <= u < |s.pcs| ==> AtRest(s.pcs[u]))
            && s' == Go(s, t, Drain).(releasing := Some(t))))
  }

  // Task i leaves the list for the hands of thread t.
  function Pulled(s: State, t: nat, i: nat, pc: Pc): State
    requires t < |s.pcs| && i < |s.list| && Known(s, s.list[i])
  {
    Mark(Go(s, t, pc), s.list[i], JobAt(s, s.list[i]).(stage := Held(t, At(pc)), taker := Some(Puller(s.pcs[t]))))
      .(list := Without(s.list, i))
  }

  function Enqueued(s: State, t: nat, r: nat): State
    requires t < |s.pcs| && Known(s, r)
  {
    Mark(Go(s, t, Count), r, JobAt(s, r).(stage := Queued, order := s.appended))
      .(list := Appended(s.list, r, JobAt(s, r).priority), appended := s.appended + 1)
  }

  // _new_task: a record of its own, from the memory pool or from the idle ones.
  function Allocated(s: State, t: nat, j: Job): State
    requires t < |s.pcs|
  {
    var r := |s.content|;
    Go(s, t, DLock(r)).(content := s.content + [|s.jobs|], jobs := s.jobs + [j.(record := r)])
  }

  function Reused(s: State, t: nat, j: Job): State
    requires t < |s.pcs| && s.idle != [] && s.idle[0] < |s.content|
  {
    var r := s.idle[0];
    Go(s, t, DLock(r))
      .(content := s.content[r := |s.jobs|], jobs := s.jobs + [j.(record := r)], idle := s.idle[1..])
  }

  // ------------------------------------------------------------------ who owns what

  predicate NoDup(l: seq<nat>) { forall i, k :: 0 <= i < k < |l| ==> l[i] != l[k] }

  predicate Records(s: State) {
    forall r :: 0 <= r < |s.content| ==> s.content[r] < |s.jobs| && s.jobs[s.content[r]].record == r
  }

  predicate Listed(s: State) {
    NoDup(s.list) && forall i :: 0 <= i < |s.list| ==> Known(s, s.list[i]) && JobAt(s, s.list[i]).stage == Queued
  }

  predicate Resting(s: State) {
    NoDup(s.idle) && forall i :: 0 <= i < |s.idle| ==> Known(s, s.idle[i]) && JobAt(s, s.idle[i]).stage == Done
  }

  predicate Handed(s: State) {
    forall t :: 0 <= t < |s.pcs| && Hand(s.pcs[t]).Some? ==>
      var r := Hand(s.pcs[t]).value; Known(s, r) && JobAt(s, r).stage == Held(t, At(s.pcs[t]))
  }

  // Every job that is not done is in the list or in the hands of one thread.
  predicate Home(s: State, j: nat)
    requires j < |s.jobs|
  {
    var b := s.jobs[j];
    && b.record < |s.content| && Tallied(b)
    && (b.stage == Queued ==> b.record in s.list && s.content[b.record] == j)
    && (b.stage.Held? ==>
          b.stage.owner < |s.pcs| && Hand(s.pcs[b.stage.owner]) == Some(b.record) && s.content[b.record] == j)
  }

  predicate Homes(s: State) { forall j :: 0 <= j < |s.jobs| ==> Home(s, j) }

  predicate Owned(s: State) { Records(s) && Listed(s) && Resting(s) && Handed(s) && Homes(s) }

  // The parts of a state that ownership is about.
  predicate SameStore(s: State, s': State) {
    s'.content == s.content && s'.jobs == s.jobs && s'.list == s.list && s'.idle == s.idle
  }

  lemma OwnedQuiet(s: State, t: nat, s': State)
    requires Owned(s) && SameStore(s, s') && t < |s.pcs| && t < |s'.pcs| && s'.pcs == s.pcs[t := s'.pcs[t]]
    requires Hand(s'.pcs[t]) == Hand(s.pcs[t]) && At(s'.pcs[t]) == At(s.pcs[t])
    ensures Owned(s')
  {
    assert forall j :: 0 <= j < |s.jobs| ==> Home(s, j) ==> Home(s', j);
  }

  // The job of record r, held by t, changes; the rest of the store stays.
  predicate Changed(s: State, t: nat, r: nat, j: Job, s': State) {
    && t < |s.pcs| && t < |s'.pcs| && s'.pcs == s.pcs[t := s'.pcs[t]] && Hand(s.pcs[t]) == Some(r) && Known(s, r)
    && s'.content == s.content && s'.jobs == s.jobs[s.content[r] := j] && j.record == r && Tallied(j)
  }

  lemma OwnedStay(s: State, t: nat, r: nat, j: Job, s': State)
    requires Owned(s) && Changed(s, t, r, j, s') && s'.list == s.list && s'.idle == s.idle
    requires Hand(s'.pcs[t]) == Some(r) && j.stage == Held(t, At(s'.pcs[t]))
    ensures Owned(s')
  {
    forall i | 0 <= i < |s.jobs|
      ensures Home(s', i)
    {
      assert Home(s, i);
    }
  }

  lemma OwnedDrop(s: State, t: nat, r: nat, j: Job, s': State)
    requires Owned(s) && Changed(s, t, r, j, s') && s'.list == s.list && (s'.idle == s.idle || s'.idle == s.idle + [r])
    requires Hand(s'.pcs[t]) == None && j.stage == Done
    ensures Owned(s')
  {
    forall i | 0 <= i < |s.jobs|
      ensures Home(s', i)
    {
      assert Home(s, i);
    }
  }

  lemma OwnedEnqueue(s: State, t: nat, r: nat, j: Job, priority: bool, s': State)
    requires Owned(s) && Changed(s, t, r, j, s') && s'.list == Appended(s.list, r, priority) && s'.idle == s.idle
    requires Hand(s'.pcs[t]) == None && j.stage == Queued
    ensures Owned(s')
  {
    assert priority ==> forall i :: 1 <= i < |s'.list| ==> s'.list[i] == s.list[i - 1];
    assert s'.list[if priority then 0 else |s.list|] == r;
    forall i | 0 <= i < |s.jobs|
      ensures Home(s', i)
    {
      assert Home(s, i);
    }
  }

  lemma OwnedPull(s: State, t: nat, i: nat, s': State)
    requires Owned(s) && t < |s.pcs| && t < |s'.pcs| && s'.pcs == s.pcs[t := s'.pcs[t]] && Hand(s.pcs[t]) == None
    requires i < |s.list| && Known(s, s.list[i]) && Hand(s'.pcs[t]) == Some(s.list[i])
    requires At(s'.pcs[t]) == (if Puller(s.pcs[t]) == Worker then Taken else Over)
    requires s'.content == s.content && s'.list == Without(s.list, i) && s'.idle == s.idle
    requires s'.jobs == s.jobs[s.content[s.list[i]] :=
      JobAt(s, s.list[i]).(stage := Held(t, At(s'.pcs[t])), taker := Some(Puller(s.pcs[t])))]
    ensures Owned(s')
  {
    var r := s.list[i];
    assert forall k :: 0 <= k < |s'.list| ==> s'.list[k] == s.list[if k < i then k else k + 1];
    forall j | 0 <= j < |s.jobs|
      ensures Home(s', j)
    {
      assert Home(s, j);
      if s.jobs[j].stage == Queued && j != s.content[r] {
        var k :| 0 <= k < |s.list| && s.list[k] == s.jobs[j].record;
        assert s'.list[if k < i then k else k - 1] == s.list[k];
      }
    }
  }

  lemma OwnedAllocated(s: State, t: nat, j: Job)
    requires Owned(s) && t < |s.pcs| && Hand(s.pcs[t]) == None && j.stage == Held(t, Fresh) && Tallied(j)
    ensures Owned(Allocated(s, t, j))
  {
    forall i | 0 <= i < |s.jobs|
      ensures Home(Allocated(s, t, j), i)
    {
      assert Home(s, i);
    }
  }

  lemma OwnedReused(s: State, t: nat, j: Job)
    requires Owned(s) && t < |s.pcs| && Hand(s.pcs[t]) == None && j.stage == Held(t, Fresh) && Tallied(j)
    requires s.idle != [] && s.idle[0] < |s.content|
    ensures Owned(Reused(s, t, j))
  {
    forall i | 0 <= i < |s.jobs|
      ensures Home(Reused(s, t, j), i)
    {
      assert Home(s, i);
    }
  }

  // What holding a record says of its job.
  lemma HandMeans(s: State, t: nat)
    requires Owned(s) && t < |s.pcs| && Hand(s.pcs[t]).Some?
    ensures var r := Hand(s.pcs[t]).value;
      && Known(s, r) && JobAt(s, r).stage == Held(t, At(s.pcs[t])) && JobAt(s, r).record == r && Tallied(JobAt(s, r))
  {
    assert Home(s, s.content[Hand(s.pcs[t]).value]);
  }

  lemma TaskEndsWell(t: nat, pc: Pc, j: Job)
    requires AtTask(pc) && j.stage == Held(t, At(pc)) && Tallied(j)
    ensures var (pc', j') := TaskEnds(t, pc, j);
      && Tallied(j') && j'.record == j.record && j'.priority == j.priority && j'.order == j.order && Dequeued(j')
      && (if pc.Push? || Hand(pc') != Hand(pc) then Hand(pc') == None && j'.stage == Done
          else j'.stage == Held(t, At(pc')))
  {
    TaskEndsTallied(t, pc, j);
    hide Tallied;
  }

  lemma TaskEndsTallied(t: nat, pc: Pc, j: Job)
    requires AtTask(pc) && j.stage == Held(t, At(pc)) && Tallied(j)
    ensures Tallied(TaskEnds(t, pc, j).1)
  {
  }

  lemma TaskEndsOutside(t: nat, pc: Pc, j: Job)
    requires AtTask(pc)
    ensures var pc' := TaskEnds(t, pc, j).0;
      !Holding(pc) && !Holding(pc') && Inside(pc') == Inside(pc) && Draining(pc') == Draining(pc)
  {
    hide Tallied;
  }

  lemma TaskStepOwned(s: State, t: nat, s': State)
    requires Owned(s) && t < |s.pcs| && TaskStep(s, t, s')
    ensures Owned(s')
  {
    hide Owned, TaskEnds, Tallied;
    HandMeans(s, t);
    var r := Hand(s.pcs[t]).value;
    var (pc, j) := TaskEnds(t, s.pcs[t], JobAt(s, r));
    TaskEndsWell(t, s.pcs[t], JobAt(s, r));
    if Hand(pc) == None {
      OwnedDrop(s, t, r, j, s');
    } else {
      OwnedStay(s, t, r, j, s');
    }
  }

  lemma NextWell(s: State, t: nat)
    requires t < |s.pcs| && Next(s, t) != Blocked
    ensures var n := Next(s, t);
      && Hand(n.pc) == Hand(s.pcs[t]) && At(n.pc) == At(s.pcs[t])
      && n.taskn == s.taskn + Owed(n.pc) - Owed(s.pcs[t])
      && n.active == s.active + One(Inside(n.pc)) - One(Inside(s.pcs[t]))
      && (n.pc.Unlink? ==> 1 <= n.pc.i < |s.list|)
      && !Draining(n.pc) && !Draining(s.pcs[t])
      && (if Holding(n.pc) && !Holding(s.pcs[t]) then s.mutex == None && n.mutex == Some(t)
          else if Holding(s.pcs[t]) && !Holding(n.pc) then n.mutex == None
          else n.mutex == s.mutex)
  {
    hide ListedFuncs, Removable;
    assert s.pcs[t].Search? ==> var i := Removable(ListedFuncs(s), s.pcs[t].func, 1); i == 0 || 1 <= i < |s.list|;
  }

  lemma QuietStepOwned(s: State, t: nat, s': State)
    requires Owned(s) && t < |s.pcs| && QuietStep(s, t, s')
    ensures Owned(s')
  {
    hide Owned, Next;
    NextWell(s, t);
    OwnedQuiet(s, t, s');
  }

  lemma PullStepOwned(s: State, t: nat, s': State)
    requires Owned(s) && t < |s.pcs| && (TakeStep(s, t, s') || UnlinkStep(s, t, s') || DrainStep(s, t, s'))
    ensures Owned(s')
  {
    hide Owned;
    if s.list == [] {
      OwnedQuiet(s, t, s');
    } else {
      OwnedPull(s, t, if s.pcs[t].Unlink? then s.pcs[t].i else 0, s');
    }
  }

  lemma NewStepOwned(s: State, t: nat, s': State)
    requires Owned(s) && t < |s.pcs| && NewStep(s, t, s')
    ensures Owned(s')
  {
    hide Owned, Allocated, Reused;
    var j := NewJob(t, s.pcs[t]);
    if s' == Allocated(s, t, j) {
      OwnedAllocated(s, t, j);
    } else {
      OwnedReused(s, t, j);
    }
  }

  lemma AppendStepOwned(s: State, t: nat, s': State)
    requires Owned(s) && t < |s.pcs| && AppendStep(s, t, s')
    ensures Owned(s')
  {
    hide Owned;
    HandMeans(s, t);
    var r := s.pcs[t].r;
    OwnedEnqueue(s, t, r, s'.jobs[s.content[r]], JobAt(s, r).priority, s');
  }

  lemma ClientStepOwned(s: State, t: nat, s': State)
    requires Owned(s) && t < |s.pcs| && ClientStep(s, t, s')
    ensures Owned(s')
  {
    hide Owned;
    assert s.pcs == s.pcs[t := s.pcs[t]];
    OwnedQuiet(s, t, s');
  }

  // Steps keep the ownership.
  lemma StepOwned(s: State, t: nat, s': State)
    requires Owned(s) && Step(s, t, s')
    ensures Owned(s')
  {
    hide Owned, QuietStep, TakeStep, TaskStep, NewStep, AppendStep, UnlinkStep, ClientStep, DrainStep;
    if QuietStep(s, t, s') {
      QuietStepOwned(s, t, s');
    } else if TaskStep(s, t, s') {
      TaskStepOwned(s, t, s');
    } else if NewStep(s, t, s') {
      NewStepOwned(s, t, s');
    } else if AppendStep(s, t, s') {
      AppendStepOwned(s, t, s');
    } else if ClientStep(s, t, s') {
      ClientStepOwned(s, t, s');
    } else {
      PullStepOwned(s, t, s');
    }
  }

  // ------------------------------------------------------------------ the mutex, the count and the workers

  predicate Locked(s: State) {
    && (forall t :: 0 <= t < |s.pcs| ==> (Holding(s.pcs[t]) <==> s.mutex == Some(t)))
    && (s.mutex.Some? ==> s.mutex.value < |s.pcs|)
  }

  // What the holder of the mutex has yet to take off the count.
  function Owed(pc: Pc): int { if pc.Dec? then 1 else if pc.Count? || pc.Unlink? then 0 - 1 else 0 }

  function Owing(s: State): int
    requires Locked(s)
  {
    if s.mutex == None then 0 else Owed(s.pcs[s.mutex.value])
  }

  predicate Counted(s: State) { Locked(s) && s.taskn == |s.list| + Owing(s) }

  predicate Aimed(s: State) {
    forall t :: 0 <= t < |s.pcs| && s.pcs[t].Unlink? ==> 1 <= s.pcs[t].i < |s.list|
  }

  // How one thread moves, as far as the mutex, the count and the workers are concerned.
  predicate Moves(s: State, t: nat, s': State) {
    && t < |s.pcs| && t < |s'.pcs| && s'.pcs == s.pcs[t := s'.pcs[t]]
    && (var pc, pc' := s.pcs[t], s'.pcs[t];
        && s'.mutex == (if Holding(pc') then Some(t) else if Holding(pc) then None else s.mutex)
        && (Holding(pc') && !Holding(pc) ==> s.mutex == None)
        && s'.taskn - |s'.list| == s.taskn - |s.list| + Owed(pc') - Owed(pc)
        && s'.active == s.active + One(Inside(pc')) - One(Inside(pc))
        && (pc'.Unlink? ==> 1 <= pc'.i < |s'.list|)
        && (s'.list != s.list ==> Holding(pc) || s.mutex == None))
  }

  predicate Disciplined(s: State) { Counted(s) && Aimed(s) && s.active == HowMany(s.pcs, Inside) }

  lemma MovesKeep(s: State, t: nat, s': State)
    requires Disciplined(s) && Moves(s, t, s')
    ensures Disciplined(s')
  {
    HowManyUpdate(s.pcs, Inside, t, s'.pcs[t]);
  }

  lemma QuietMoves(s: State, t: nat, s': State)
    requires Disciplined(s) && t < |s.pcs| && QuietStep(s, t, s')
    ensures Moves(s, t, s')
  {
    hide Next, HowMany, Aimed;
    NextWell(s, t);
  }

  lemma TaskMoves(s: State, t: nat, s': State)
    requires Owned(s) && Disciplined(s) && t < |s.pcs| && TaskStep(s, t, s')
    ensures Moves(s, t, s')
  {
    hide Owned, TaskEnds, Tallied, HowMany;
    HandMeans(s, t);
    TaskEndsOutside(t, s.pcs[t], JobAt(s, Hand(s.pcs[t]).value));
  }

  lemma ListMoves(s: State, t: nat, s': State)
    requires Disciplined(s) && t < |s.pcs| && (TakeStep(s, t, s') || UnlinkStep(s, t, s') || AppendStep(s, t, s'))
    ensures Moves(s, t, s')
  {
    hide HowMany, Aimed;
  }

  lemma NewMoves(s: State, t: nat, s': State)
    requires Disciplined(s) && t < |s.pcs| && NewStep(s, t, s')
    ensures Moves(s, t, s')
  {
    hide HowMany, Aimed;
  }

  lemma ClientMoves(s: State, t: nat, s': State)
    requires Disciplined(s) && t < |s.pcs| && ClientStep(s, t, s')
    ensures Moves(s, t, s')
  {
    hide HowMany, Aimed;
    assert s.pcs == s.pcs[t := s.pcs[t]];
  }

  lemma DrainMoves(s: State, t: nat, s': State)
    requires Disciplined(s) && Alone(s) && s.releasing == Some(t) && t < |s.pcs| && DrainStep(s, t, s')
    ensures Moves(s, t, s')
  {
    hide HowMany, Aimed;
    assert s.mutex.Some? ==> Holding(s.pcs[s.mutex.value]);
  }

  // ------------------------------------------------------------------ releasing

  predicate Draining(pc: Pc) { pc.Drain? || ((pc.Free1? || pc.Free2?) && pc.role == Releaser) }

  // Once the pool is being released, the releaser is the only thread that uses it.
  predicate Alone(s: State) {
    match s.releasing
    case None => !s.destroyed && forall t :: 0 <= t < |s.pcs| ==> !Draining(s.pcs[t])
    case Some(t) =>
      && t < |s.pcs| && (forall u :: 0 <= u < |s.pcs| && u != t ==> AtRest(s.pcs[u]))
      && (if s.destroyed then s.pcs[t] == Gone && s.list == [] else Draining(s.pcs[t]))
  }

  lemma AloneKept(s: State, t: nat, s': State)
    requires Alone(s) && !s.destroyed && t < |s.pcs| && t < |s'.pcs| && s'.pcs == s.pcs[t := s'.pcs[t]]
    requires s.releasing == None || s.releasing == Some(t)
    requires s'.releasing == s.releasing && !s'.destroyed && Draining(s'.pcs[t]) == Draining(s.pcs[t])
    ensures Alone(s')
  {
  }

  lemma StepAlone(s: State, t: nat, s': State)
    requires Owned(s) && Alone(s) && Step(s, t, s')
    ensures Alone(s')
  {
    hide Alone, Owned, QuietStep, TakeStep, TaskStep, NewStep, AppendStep, UnlinkStep, ClientStep, DrainStep;
    if QuietStep(s, t, s') {
      QuietAlone(s, t, s');
    } else if TaskStep(s, t, s') {
      TaskAlone(s, t, s');
    } else if ClientStep(s, t, s') {
      ClientAlone(s, t, s');
    } else if DrainStep(s, t, s') {
      DrainAlone(s, t, s');
    } else {
      ListAlone(s, t, s');
    }
  }

  lemma QuietAlone(s: State, t: nat, s': State)
    requires Alone(s) && Step(s, t, s') && QuietStep(s, t, s')
    ensures Alone(s')
  {
    hide Alone, Next, TakeStep, TaskStep, NewStep, AppendStep, UnlinkStep, ClientStep, DrainStep;
    NextWell(s, t);
    AloneKept(s, t, s');
  }

  lemma TaskAlone(s: State, t: nat, s': State)
    requires Owned(s) && Alone(s) && Step(s, t, s') && TaskStep(s, t, s')
    ensures Alone(s')
  {
    hide Owned, Alone, TaskEnds, Tallied, QuietStep, TakeStep, NewStep, AppendStep, UnlinkStep, ClientStep, DrainStep;
    HandMeans(s, t);
    TaskEndsOutside(t, s.pcs[t], JobAt(s, Hand(s.pcs[t]).value));
    AloneKept(s, t, s');
  }

  lemma ClientAlone(s: State, t: nat, s': State)
    requires Alone(s) && Step(s, t, s') && ClientStep(s, t, s')
    ensures Alone(s')
  {
    hide QuietStep, TakeStep, TaskStep, NewStep, AppendStep, UnlinkStep, DrainStep;
    assert s.pcs == s.pcs[t := s.pcs[t]];
  }

  lemma DrainAlone(s: State, t: nat, s': State)
    requires Alone(s) && Step(s, t, s') && DrainStep(s, t, s')
    ensures Alone(s')
  {
    hide QuietStep, TakeStep, TaskStep, NewStep, AppendStep, UnlinkStep, ClientStep;
  }

  lemma ListAlone(s: State, t: nat, s': State)
    requires Alone(s) && Step(s, t, s')
    requires TakeStep(s, t, s') || NewStep(s, t, s') || AppendStep(s, t, s') || UnlinkStep(s, t, s')
    ensures Alone(s')
  {
    hide Alone, QuietStep, TaskStep, ClientStep, DrainStep;
    AloneKept(s, t, s');
  }

  lemma StepDisciplined(s: State, t: nat, s': State)
    requires Owned(s) && Disciplined(s) && Alone(s) && Step(s, t, s')
    ensures Disciplined(s')
  {
    hide Owned, Disciplined, Moves, QuietStep, TakeStep, TaskStep, NewStep, AppendStep, UnlinkStep, ClientStep,
      DrainStep;
    if QuietStep(s, t, s') {
      QuietMoves(s, t, s');
    } else if TaskStep(s, t, s') {
      TaskMoves(s, t, s');
    } else if NewStep(s, t, s') {
      NewMoves(s, t, s');
    } else if ClientStep(s, t, s') {
      ClientMoves(s, t, s');
    } else if DrainStep(s, t, s') {
      OnlyReleaserDrains(s, t, s');
      DrainMoves(s, t, s');
    } else {
      ListMoves(s, t, s');
    }
    MovesKeep(s, t, s');
  }

  lemma OnlyReleaserDrains(s: State, t: nat, s': State)
    requires Alone(s) && Step(s, t, s') && DrainStep(s, t, s')
    ensures s.releasing == Some(t)
  {
    hide QuietStep, TakeStep, TaskStep, NewStep, AppendStep, UnlinkStep, ClientStep;
  }

  // ------------------------------------------------------------------ the order of normal tasks

  // The jobs dequeued so far and those in the list, in that order.
  function Line(s: State): (l: seq<nat>)
    ensures |l| == |s.taken| + |s.list|
  {
    s.taken + seq(|s.list|, i requires 0 <= i < |s.list| => if s.list[i] < |s.content| then s.content[s.list[i]] else 0)
  }

  // When a normal job was appended.
  function Ticket(s: State, j: nat): Option<nat> {
    if j < |s.jobs| && !s.jobs[j].priority then Some(s.jobs[j].order) else None
  }

  function Tickets(s: State): (r: seq<Option<nat>>)
    ensures |r| == |Line(s)| && forall i :: 0 <= i < |r| ==> r[i] == Ticket(s, Line(s)[i])
  {
    seq(|Line(s)|, i requires 0 <= i < |Line(s)| => Ticket(s, Line(s)[i]))
  }

  predicate Rising(r: seq<Option<nat>>, bound: nat) {
    && (forall i :: 0 <= i < |r| && r[i].Some? ==> r[i].value < bound)
    && (forall i, k :: 0 <= i < k < |r| && r[i].Some? && r[k].Some? ==> r[i].value < r[k].value)
  }

  predicate InOrder(s: State) {
    && Rising(Tickets(s), s.appended)
    && (forall i :: 0 <= i < |s.taken| ==> s.taken[i] < |s.jobs| && Dequeued(s.jobs[s.taken[i]]))
  }

  // What a job was queued with stays, and no job goes back.
  predicate Lasting(s: State, s': State) {
    && |s.jobs| <= |s'.jobs|
    && forall j :: 0 <= j < |s.jobs| ==>
         && s'.jobs[j].priority == s.jobs[j].priority && s'.jobs[j].order == s.jobs[j].order
         && (Dequeued(s.jobs[j]) ==> Dequeued(s'.jobs[j]))
  }

  // Steps that leave the line alone.
  lemma SameLine(s: State, s': State)
    requires InOrder(s) && Lasting(s, s') && s'.taken == s.taken && s'.list == s.list && s'.appended == s.appended
    requires Listed(s) && |s.content| <= |s'.content|
    requires forall i :: 0 <= i < |s.list| ==> s.list[i] < |s'.content| && s'.content[s.list[i]] == s.content[s.list[i]]
    ensures InOrder(s')
  {
    assert Line(s') == Line(s);
    assert Tickets(s') == Tickets(s);
  }

  lemma RisingEnd(r: seq<Option<nat>>, bound: nat)
    requires Rising(r, bound)
    ensures Rising(r + [Some(bound)], bound + 1)
  {
  }

  lemma RisingMiddle(r: seq<Option<nat>>, bound: nat, n: nat)
    requires Rising(r, bound) && n <= |r|
    ensures Rising(r[..n] + [None] + r[n..], bound + 1)
  {
    var u := r[..n] + [None] + r[n..];
    assert forall i :: 0 <= i < |u| && u[i].Some? ==> i != n && u[i] == r[if i < n then i else i - 1];
  }

  lemma RisingWithout(r: seq<Option<nat>>, bound: nat, n: nat)
    requires Rising(r, bound) && n < |r|
    ensures Rising(Without(r, n), bound)
  {
    var u := Without(r, n);
    assert forall i :: 0 <= i < |u| ==> u[i] == r[if i < n then i else i + 1];
  }

  lemma QuietInOrder(s: State, t: nat, s': State)
    requires Owned(s) && InOrder(s) && t < |s.pcs| && (QuietStep(s, t, s') || ClientStep(s, t, s'))
    ensures InOrder(s')
  {
    hide Next, InOrder, Records, Resting, Handed, Homes;
    SameLine(s, s');
  }

  lemma TaskInOrder(s: State, t: nat, s': State)
    requires Owned(s) && InOrder(s) && t < |s.pcs| && TaskStep(s, t, s')
    ensures InOrder(s')
  {
    hide TaskEnds, Tallied, InOrder, Resting, Homes;
    HandMeans(s, t);
    TaskEndsWell(t, s.pcs[t], JobAt(s, Hand(s.pcs[t]).value));
    SameLine(s, s');
  }

  lemma NewInOrder(s: State, t: nat, s': State)
    requires Owned(s) && InOrder(s) && t < |s.pcs| && NewStep(s, t, s')
    ensures InOrder(s')
  {
    hide InOrder, Tallied, Homes;
    SameLine(s, s');
  }

  lemma TakeInOrder(s: State, t: nat, s': State)
    requires Owned(s) && InOrder(s) && t < |s.pcs| && s.list != [] && (TakeStep(s, t, s') || DrainStep(s, t, s'))
    ensures InOrder(s')
  {
    hide Tallied, Homes, Resting, Handed;
    assert Line(s') == Line(s);
    assert Tickets(s') == Tickets(s);
  }

  lemma UnlinkInOrder(s: State, t: nat, s': State)
    requires Owned(s) && InOrder(s) && t < |s.pcs| && UnlinkStep(s, t, s')
    ensures InOrder(s')
  {
    hide Tallied, Homes, Resting, Handed;
    var n := |s.taken| + s.pcs[t].i;
    assert Line(s') == Without(Line(s), n);
    RisingWithout(Tickets(s), s.appended, n);
    assert Tickets(s') == Without(Tickets(s), n);
  }

  // The job to be appended is not in the line yet.
  lemma NotInLine(s: State, t: nat, r: nat)
    requires Owned(s) && InOrder(s) && t < |s.pcs| && s.pcs[t].Append? && r == s.pcs[t].r
    ensures Known(s, r) && forall i :: 0 <= i < |Line(s)| ==> Line(s)[i] < |s.jobs| && Line(s)[i] != s.content[r]
    ensures JobAt(s, r).stage == Held(t, Fresh)
  {
    HandMeans(s, t);
    hide Tallied, Homes, Resting, Handed, Rising;
  }

  lemma AppendInOrder(s: State, t: nat, s': State)
    requires Owned(s) && InOrder(s) && t < |s.pcs| && AppendStep(s, t, s')
    ensures InOrder(s')
  {
    hide Owned, InOrder, Enqueued;
    if JobAt(s, s.pcs[t].r).priority {
      FirstInOrder(s, t, s');
    } else {
      LastInOrder(s, t, s');
    }
  }

  lemma FirstLine(s: State, t: nat, s': State)
    requires t < |s.pcs| && AppendStep(s, t, s') && JobAt(s, s.pcs[t].r).priority
    ensures Line(s') == Line(s)[..|s.taken|] + [s.content[s.pcs[t].r]] + Line(s)[|s.taken|..]
  {
    assert forall i :: 1 <= i < |s'.list| ==> s'.list[i] == s.list[i - 1];
  }

  // The other jobs keep their tickets, and those that were taken stay taken.
  lemma AppendTickets(s: State, t: nat, s': State)
    requires Owned(s) && InOrder(s) && t < |s.pcs| && AppendStep(s, t, s')
    ensures forall i :: 0 <= i < |Line(s)| ==> Ticket(s', Line(s)[i]) == Ticket(s, Line(s)[i])
    ensures forall i :: 0 <= i < |s.taken| ==> s.taken[i] < |s'.jobs| && Dequeued(s'.jobs[s.taken[i]])
  {
    hide Owned, Rising, Tallied;
    NotInLine(s, t, s.pcs[t].r);
    assert forall i :: 0 <= i < |s.taken| ==> s.taken[i] == Line(s)[i];
  }

  lemma FirstInOrder(s: State, t: nat, s': State)
    requires Owned(s) && InOrder(s) && t < |s.pcs| && AppendStep(s, t, s') && JobAt(s, s.pcs[t].r).priority
    ensures InOrder(s')
  {
    var n := |s.taken|;
    assert Ticket(s', s.content[s.pcs[t].r]) == None;
    AppendTickets(s, t, s');
    FirstLine(s, t, s');
    hide Owned, Rising, Tallied, Line, Ticket;
    RisingMiddle(Tickets(s), s.appended, n);
    assert Tickets(s') == Tickets(s)[..n] + [None] + Tickets(s)[n..];
  }

  lemma LastInOrder(s: State, t: nat, s': State)
    requires Owned(s) && InOrder(s) && t < |s.pcs| && AppendStep(s, t, s') && !JobAt(s, s.pcs[t].r).priority
    ensures InOrder(s')
  {
    hide Owned, Rising, Tallied;
    var rec := s.pcs[t].r;
    NotInLine(s, t, rec);
    assert forall i :: 0 <= i < |s.taken| ==> s.taken[i] == Line(s)[i];
    assert Line(s') == Line(s) + [s.content[rec]];
    RisingEnd(Tickets(s), s.appended);
    assert Tickets(s') == Tickets(s) + [Some(s.appended)];
  }

  lemma StepInOrder(s: State, t: nat, s': State)
    requires Owned(s) && InOrder(s) && Step(s, t, s')
    ensures InOrder(s')
  {
    hide Owned, InOrder, QuietStep, TakeStep, TaskStep, NewStep, AppendStep, UnlinkStep, ClientStep, DrainStep;
    if QuietStep(s, t, s') || ClientStep(s, t, s') {
      QuietInOrder(s, t, s');
    } else if TaskStep(s, t, s') {
      TaskInOrder(s, t, s');
    } else if NewStep(s, t, s') {
      NewInOrder(s, t, s');
    } else if AppendStep(s, t, s') {
      AppendInOrder(s, t, s');
    } else if UnlinkStep(s, t, s') {
      UnlinkInOrder(s, t, s');
    } else if s.list == [] {
      LastDrainInOrder(s, t, s');
    } else {
      TakeInOrder(s, t, s');
    }
  }

  lemma LastDrainInOrder(s: State, t: nat, s': State)
    requires Owned(s) && InOrder(s) && t < |s.pcs| && s.list == [] && (TakeStep(s, t, s') || DrainStep(s, t, s'))
    ensures InOrder(s')
  {
    hide InOrder, Records, Resting, Handed, Homes;
    SameLine(s, s');
  }

  // ------------------------------------------------------------------ runs

  predicate Inv(s: State) { Owned(s) && Disciplined(s) && Alone(s) && InOrder(s) }

  // ztl_thrpool_create: nothing in the pool; the threads are clients and workers yet to begin.
  predicate Init(s: State) {
    && s.content == [] && s.jobs == [] && s.list == [] && s.idle == [] && s.taken == []
    && s.mutex == None && s.taskn == 0 && s.active == 0 && s.releasing == None && !s.destroyed && !s.stop
    && s.maxsize >= 1
    && forall t :: 0 <= t < |s.pcs| ==> s.pcs[t] == Client || s.pcs[t] == Created
  }

  lemma InitInv(s: State)
    requires Init(s)
    ensures Inv(s)
  {
    hide Owned, Disciplined, Alone, InOrder;
    InitOwned(s);
    InitDisciplined(s);
    InitAlone(s);
    InitInOrder(s);
  }

  lemma InitOwned(s: State)
    requires Init(s)
    ensures Owned(s)
  {
  }

  lemma InitDisciplined(s: State)
    requires Init(s)
    ensures Disciplined(s)
  {
    hide HowMany;
    NoneAtAll(s.pcs, Inside);
  }

  lemma InitAlone(s: State)
    requires Init(s)
    ensures Alone(s)
  {
  }

  lemma InitInOrder(s: State)
    requires Init(s)
    ensures InOrder(s)
  {
    assert Tickets(s) == [];
  }

  lemma StepInv(s: State, t: nat, s': State)
    requires Inv(s) && Step(s, t, s')
    ensures Inv(s')
  {
    hide Owned, Disciplined, Alone, InOrder, Step;
    StepOwned(s, t, s');
    StepDisciplined(s, t, s');
    StepAlone(s, t, s');
    StepInOrder(s, t, s');
  }

  // run[i] turns into run[i + 1] by a step of thread who[i].
  predicate History(run: seq<State>, who: seq<nat>) {
    |run| == |who| + 1 && Init(run[0]) && forall i :: 0 <= i < |who| ==> Step(run[i], who[i], run[i + 1])
  }

  lemma {:induction false} RunInv(run: seq<State>, who: seq<nat>, i: nat)
    requires History(run, who) && i < |run|
    ensures Inv(run[i])
    decreases i
  {
    if i == 0 {
      InitInv(run[0]);
    } else {
      hide Inv, Step;
      RunInv(run, who, i - 1);
      StepInv(run[i - 1], who[i - 1], run[i]);
    }
  }

  // At every moment: no task has run twice, none has been freed twice, and none freed before its function ended. By
  // the time it is freed, the function has been called once if a worker took the task, and not at all otherwise.
  lemma AtMostOnce(run: seq<State>, who: seq<nat>, i: nat, j: nat)
    requires History(run, who) && i < |run| && j < |run[i].jobs|
    ensures var b := run[i].jobs[j];
      && b.ended <= b.started <= One(Due(b)) && b.freed1 <= One(b.free1) && b.freed2 <= One(b.free2)
      && (b.freed1 + b.freed2 > 0 || (b.stage.Held? && b.stage.at in {Over, Half, Freed}) || b.stage == Done ==>
            b.started == b.ended == One(Due(b)))
  {
    RunInv(run, who, i);
    assert Home(run[i], j);
  }

  // Once the pool is released every task has been freed, exactly once, and those that workers took have run.
  lemma FreedOnce(run: seq<State>, who: seq<nat>, i: nat, j: nat)
    requires History(run, who) && i < |run| && run[i].destroyed && j < |run[i].jobs|
    ensures var b := run[i].jobs[j];
      && b.stage == Done && b.taker.Some? && b.started == b.ended == One(Due(b))
      && b.freed1 == One(b.free1) && b.freed2 == One(b.free2)
  {
    RunInv(run, who, i);
    assert Home(run[i], j);
  }

  // While no thread is between its calls to the mutex, the count is the number of listed tasks.
  lemma CountIsExact(run: seq<State>, who: seq<nat>, i: nat)
    requires History(run, who) && i < |run| && run[i].mutex == None
    ensures run[i].taskn == |run[i].list|
  {
    RunInv(run, who, i);
  }

  // Normal tasks are dequeued in the order in which they were dispatched.
  lemma DequeuedInOrder(run: seq<State>, who: seq<nat>, i: nat, a: nat, b: nat)
    requires History(run, who) && i < |run| && a < b < |run[i].taken|
    ensures run[i].taken[a] < |run[i].jobs| && run[i].taken[b] < |run[i].jobs|
    ensures var (x, y) := (run[i].jobs[run[i].taken[a]], run[i].jobs[run[i].taken[b]]);
      !x.priority && !y.priority ==> x.order < y.order
  {
    RunInv(run, who, i);
    var s := run[i];
    assert Line(s)[a] == s.taken[a] && Line(s)[b] == s.taken[b];
    assert Tickets(s)[a] == Ticket(s, s.taken[a]) && Tickets(s)[b] == Ticket(s, s.taken[b]);
  }

  // What a join sees: the count is zero exactly if no worker is inside.
  lemma JoinSees(run: seq<State>, who: seq<nat>, i: nat)
    requires History(run, who) && i < |run|
    ensures run[i].active == 0 <==> forall t :: 0 <= t < |run[i].pcs| ==> !Inside(run[i].pcs[t])
  {
    RunInv(run, who, i);
    NoneAtAll(run[i].pcs, Inside);
  }

  // ------------------------------------------------------------------ the limit

  // A dispatcher that has passed the check against the limit and not yet counted its task.
  predicate Dispatching(pc: Pc) { pc.New? || pc.DLock? || pc.Append? || pc.Count? }

  predicate Within(s: State, k: nat) { s.taskn + HowMany(s.pcs, Dispatching) <= s.maxsize - 1 + k }

  // All steps but one do not bring the pool nearer to its limit.
  lemma Nearer(s: State, t: nat, s': State)
    requires Owned(s) && Step(s, t, s')
    ensures t < |s.pcs| && t < |s'.pcs| && s'.pcs == s.pcs[t := s'.pcs[t]] && s'.maxsize == s.maxsize
    ensures s'.taskn + One(Dispatching(s'.pcs[t])) <= s.taskn + One(Dispatching(s.pcs[t]))
      || (s.taskn < s.maxsize && s'.taskn == s.taskn)
  {
    hide Owned, QuietStep, TakeStep, TaskStep, NewStep, AppendStep, UnlinkStep, ClientStep, DrainStep;
    if QuietStep(s, t, s') {
      QuietNearer(s, t, s');
    } else if TaskStep(s, t, s') {
      TaskNearer(s, t, s');
    } else if ClientStep(s, t, s') {
      ClientNearer(s, t, s');
    } else {
      ListNearer(s, t, s');
    }
  }

  lemma QuietNearer(s: State, t: nat, s': State)
    requires t < |s.pcs| && QuietStep(s, t, s')
    ensures t < |s'.pcs| && s'.pcs == s.pcs[t := s'.pcs[t]] && s'.maxsize == s.maxsize
    ensures s'.taskn + One(Dispatching(s'.pcs[t])) <= s.taskn + One(Dispatching(s.pcs[t]))
  {
    hide ListedFuncs, Removable;
    var n := Next(s, t);
    assert n.taskn + One(Dispatching(n.pc)) <= s.taskn + One(Dispatching(s.pcs[t]));
    hide Next;
  }

  lemma TaskNearer(s: State, t: nat, s': State)
    requires Owned(s) && t < |s.pcs| && TaskStep(s, t, s')
    ensures t < |s'.pcs| && s'.pcs == s.pcs[t := s'.pcs[t]] && s'.maxsize == s.maxsize
    ensures s'.taskn + One(Dispatching(s'.pcs[t])) <= s.taskn + One(Dispatching(s.pcs[t]))
  {
    hide Owned;
    var (pc, j) := TaskEnds(t, s.pcs[t], JobAt(s, Hand(s.pcs[t]).value));
    assert !Dispatching(pc) && !Dispatching(s.pcs[t]);
    hide TaskEnds;
  }

  lemma ClientNearer(s: State, t: nat, s': State)
    requires t < |s.pcs| && ClientStep(s, t, s')
    ensures t < |s'.pcs| && s'.pcs == s.pcs[t := s'.pcs[t]] && s'.maxsize == s.maxsize
    ensures s'.taskn + One(Dispatching(s'.pcs[t])) <= s.taskn + One(Dispatching(s.pcs[t]))
      || (s.taskn < s.maxsize && s'.taskn == s.taskn)
  {
    assert s.pcs == s.pcs[t := s.pcs[t]];
  }

  lemma ListNearer(s: State, t: nat, s': State)
    requires t < |s.pcs|
    requires TakeStep(s, t, s') || NewStep(s, t, s') || AppendStep(s, t, s') || UnlinkStep(s, t, s')
      || DrainStep(s, t, s')
    ensures t < |s'.pcs| && s'.pcs == s.pcs[t := s'.pcs[t]] && s'.maxsize == s.maxsize
    ensures s'.taskn + One(Dispatching(s'.pcs[t])) <= s.taskn + One(Dispatching(s.pcs[t]))
  {
  }

  lemma NoneDispatching(s: State)
    requires Init(s)
    ensures HowMany(s.pcs, Dispatching) == 0
  {
    NoneAtAll(s.pcs, Dispatching);
  }

  // With at most k dispatchers at a time, at most k - 1 tasks more than the limit are ever pending.
  lemma {:induction false} NearlyLimited(run: seq<State>, who: seq<nat>, i: nat, k: nat)
    requires History(run, who) && i < |run|
    requires forall n :: 0 <= n <= i ==> HowMany(run[n].pcs, Dispatching) <= k
    ensures run[i].taskn <= run[i].maxsize - 1 + (if k == 0 then 1 else k) && Within(run[i], if k == 0 then 1 else k)
    decreases i
  {
    hide Step, HowMany, Owned, Disciplined, Alone, InOrder, Dispatching;
    if i == 0 {
      NoneDispatching(run[0]);
    } else {
      var s, s', t := run[i - 1], run[i], who[i - 1];
      NearlyLimited(run, who, i - 1, k);
      RunInv(run, who, i - 1);
      assert Step(s, t, s');
      Nearer(s, t, s');
      HowManyUpdate(s.pcs, Dispatching, t, s'.pcs[t]);
    }
  }

  // A run from s to e with at most k dispatchers at a time.
  ghost predicate Leads(s: State, e: State, k: nat) { exists run: seq<State>, who: seq<nat> :: Way(run, who, s, e, k) }

  ghost predicate Way(run: seq<State>, who: seq<nat>, s: State, e: State, k: nat) {
    && |run| == |who| + 1 && run[0] == s && run[|who|] == e
    && (forall i :: 0 <= i < |who| ==> Step(run[i], who[i], run[i + 1]))
    && (forall i :: 0 <= i < |run| ==> HowMany(run[i].pcs, Dispatching) <= k)
  }

  lemma LeadsNowhere(s: State, k: nat)
    requires HowMany(s.pcs, Dispatching) <= k
    ensures Leads(s, s, k)
  {
    hide Step, HowMany;
    assert Way([s], [], s, s, k);
  }

  lemma LeadsOn(s: State, m: State, t: nat, e: State, k: nat)
    requires Leads(s, m, k) && Step(m, t, e) && HowMany(e.pcs, Dispatching) <= k
    ensures Leads(s, e, k)
  {
    hide Step, HowMany;
    var run, who :| Way(run, who, s, m, k);
    assert Way(run + [e], who + [t], s, e, k);
  }

  // Between the calls of k clients: those from a on to b have passed the test, the others are at rest.
  predicate Between(s: State, k: nat, a: nat, b: nat, n: nat, maxsize: nat) {
    && a <= b <= k == |s.pcs| && s.taskn == n && s.maxsize == maxsize
    && s.mutex == None && !s.destroyed && s.releasing == None
    && (forall t :: 0 <= t < k ==> s.pcs[t] == if a <= t < b then CALL else Client)
  }

  const CALL: Pc := New(false, None, false, false)

  lemma {:induction false} CountRange(pcs: seq<Pc>, a: nat, b: nat)
    requires a <= b <= |pcs| && forall t :: 0 <= t < |pcs| ==> (Dispatching(pcs[t]) ==> a <= t < b)
    ensures HowMany(pcs, Dispatching) <= b - a
    decreases b - a
  {
    if a == b {
      NoneAtAll(pcs, Dispatching);
    } else {
      HowManyUpdate(pcs, Dispatching, b - 1, Client);
      CountRange(pcs[b - 1 := Client], a, b - 1);
    }
  }

  // Client b passes the test against the limit.
  lemma Enter(s: State, m: State, k: nat, a: nat, b: nat, n: nat, maxsize: nat, most: nat) returns (e: State)
    requires Leads(s, m, most) && Between(m, k, a, b, n, maxsize) && b < k && n < maxsize && b + 1 - a <= most
    ensures Leads(s, e, most) && Between(e, k, a, b + 1, n, maxsize)
  {
    hide Leads, HowMany, QuietStep, TakeStep, TaskStep, NewStep, AppendStep, UnlinkStep, DrainStep;
    e := Go(m, b, CALL);
    assert ClientStep(m, b, e);
    assert Step(m, b, e);
    CountRange(e.pcs, a, b + 1);
    LeadsOn(s, m, b, e, most);
  }

  // Client a is at pc in its call.
  predicate Amid(s: State, k: nat, a: nat, b: nat, n: nat, maxsize: nat, pc: Pc, mutex: Option<nat>) {
    && a < b <= k == |s.pcs| && s.taskn == n && s.maxsize == maxsize && s.mutex == mutex && !s.destroyed
    && s.releasing == None
    && (forall t :: 0 <= t < k ==> s.pcs[t] == if t == a then pc else if a < t < b then CALL else Client)
  }

  // Client a completes its call.
  lemma Complete(s: State, m: State, k: nat, a: nat, b: nat, n: nat, maxsize: nat, most: nat) returns (e: State)
    requires Leads(s, m, most) && Between(m, k, a, b, n, maxsize) && a < b && b - a <= most
    ensures Leads(s, e, most) && Between(e, k, a + 1, b, n + 1, maxsize)
  {
    hide Leads, HowMany, Step, Amid, Known, Allocated, Enqueued;
    var r := |m.content|;
    var m1 := Makes(m, k, a, b, n, maxsize);
    Busy(s, m, a, m1, k, a, b, n, maxsize, DLock(r), None, most);
    var m2 := Locks(m1, k, a, b, n, maxsize, r);
    Busy(s, m1, a, m2, k, a, b, n, maxsize, Append(r), Some(a), most);
    var m3 := Lists(m2, k, a, b, n, maxsize, r);
    Busy(s, m2, a, m3, k, a, b, n, maxsize, Count, Some(a), most);
    var m4 := Counts(m3, k, a, b, n, maxsize);
    Busy(s, m3, a, m4, k, a, b, n + 1, maxsize, DUnlock, Some(a), most);
    e := Unlocks(m4, k, a, b, n + 1, maxsize);
    Busy(s, m4, a, e, k, a, b, n + 1, maxsize, Client, None, most);
    CallEnds(e, k, a, b, n + 1, maxsize);
  }

  lemma CallEnds(e: State, k: nat, a: nat, b: nat, n: nat, maxsize: nat)
    requires Amid(e, k, a, b, n, maxsize, Client, None)
    ensures Between(e, k, a + 1, b, n, maxsize)
  {
  }

  lemma Busy(s: State, m: State, t: nat, e: State, k: nat, a: nat, b: nat, n: nat, maxsize: nat, pc: Pc,
             mutex: Option<nat>, most: nat)
    requires Leads(s, m, most) && Step(m, t, e) && Amid(e, k, a, b, n, maxsize, pc, mutex) && b - a <= most
    ensures Leads(s, e, most)
  {
    hide Leads, Step, HowMany;
    CountRange(e.pcs, a, b);
    LeadsOn(s, m, t, e, most);
  }

  lemma Makes(m: State, k: nat, a: nat, b: nat, n: nat, maxsize: nat) returns (e: State)
    requires Between(m, k, a, b, n, maxsize) && a < b
    ensures Step(m, a, e) && Amid(e, k, a, b, n, maxsize, DLock(|m.content|), None) && Known(e, |m.content|)
  {
    e := Allocated(m, a, NewJob(a, CALL));
    assert NewStep(m, a, e);
  }

  lemma Locks(m: State, k: nat, a: nat, b: nat, n: nat, maxsize: nat, r: nat) returns (e: State)
    requires Amid(m, k, a, b, n, maxsize, DLock(r), None) && Known(m, r)
    ensures Step(m, a, e) && Amid(e, k, a, b, n, maxsize, Append(r), Some(a)) && Known(e, r)
  {
    e := Go(m, a, Append(r)).(mutex := Some(a));
    assert QuietStep(m, a, e);
  }

  lemma Lists(m: State, k: nat, a: nat, b: nat, n: nat, maxsize: nat, r: nat) returns (e: State)
    requires Amid(m, k, a, b, n, maxsize, Append(r), Some(a)) && Known(m, r)
    ensures Step(m, a, e) && Amid(e, k, a, b, n, maxsize, Count, Some(a))
  {
    e := Enqueued(m, a, r);
    assert AppendStep(m, a, e);
  }

  lemma Counts(m: State, k: nat, a: nat, b: nat, n: nat, maxsize: nat) returns (e: State)
    requires Amid(m, k, a, b, n, maxsize, Count, Some(a))
    ensures Step(m, a, e) && Amid(e, k, a, b, n + 1, maxsize, DUnlock, Some(a))
  {
    e := Go(m, a, DUnlock).(taskn := n + 1);
    assert QuietStep(m, a, e);
  }

  lemma Unlocks(m: State, k: nat, a: nat, b: nat, n: nat, maxsize: nat) returns (e: State)
    requires Amid(m, k, a, b, n, maxsize, DUnlock, Some(a))
    ensures Step(m, a, e) && Amid(e, k, a, b, n, maxsize, Client, None)
  {
    e := Go(m, a, Client).(mutex := None);
    assert QuietStep(m, a, e);
  }

  // One client alone fills the pool up to n tasks.
  lemma {:induction false} FillUp(s: State, k: nat, n: nat, maxsize: nat) returns (e: State)
    requires k >= 1 && n < maxsize && Init(s) && s.maxsize == maxsize && |s.pcs| == k
    requires forall t :: 0 <= t < k ==> s.pcs[t] == Client
    ensures Leads(s, e, k) && Between(e, k, 0, 0, n, maxsize)
    decreases n
  {
    hide Leads, HowMany;
    if n == 0 {
      NoneDispatching(s);
      LeadsNowhere(s, k);
      e := s;
    } else {
      var m := FillUp(s, k, n - 1, maxsize);
      var m1 := Enter(s, m, k, 0, 0, n - 1, maxsize, k);
      e := Complete(s, m1, k, 0, 1, n - 1, maxsize, k);
    }
  }

  // Clients from 0 on to b pass the test while one task may still come.
  lemma {:induction false} AllEnter(s: State, m: State, k: nat, b: nat, n: nat, maxsize: nat) returns (e: State)
    requires Leads(s, m, k) && Between(m, k, 0, 0, n, maxsize) && n < maxsize && b <= k
    ensures Leads(s, e, k) && Between(e, k, 0, b, n, maxsize)
    decreases b
  {
    hide Leads;
    e := m;
    if b > 0 {
      var m1 := AllEnter(s, m, k, b - 1, n, maxsize);
      e := Enter(s, m1, k, 0, b - 1, n, maxsize, k);
    }
  }

  // Clients from 0 on to a complete their calls.
  lemma {:induction false} AllComplete(s: State, m: State, k: nat, a: nat, n: nat, maxsize: nat) returns (e: State)
    requires Leads(s, m, k) && Between(m, k, 0, k, n, maxsize) && a <= k
    ensures Leads(s, e, k) && Between(e, k, a, k, n + a, maxsize)
    decreases a
  {
    hide Leads;
    e := m;
    if a > 0 {
      var m1 := AllComplete(s, m, k, a - 1, n, maxsize);
      e := Complete(s, m1, k, a - 1, k, n + a - 1, maxsize, k);
    }
  }

  // The bound of NearlyLimited is reached, whatever the limit and the number of dispatchers.
  lemma BoundReached(maxsize: nat, k: nat) returns (run: seq<State>, who: seq<nat>)
    requires maxsize >= 1 && k >= 1
    ensures History(run, who) && run[0].maxsize == maxsize
    ensures forall i :: 0 <= i < |run| ==> HowMany(run[i].pcs, Dispatching) <= k
    ensures run[|who|].taskn == maxsize - 1 + k
  {
    hide HowMany, Step;
    var s := State([], [], [], [], seq(k, i => Client), None, 0, false, 0, [], 0, None, false, maxsize, 0);
    var full := FillUp(s, k, maxsize - 1, maxsize);
    var passed := AllEnter(s, full, k, k, maxsize - 1, maxsize);
    var e := AllComplete(s, passed, k, k, maxsize - 1, maxsize);
    run, who :| Way(run, who, s, e, k);
  }

  // All runs of a pool with at most k dispatchers at a time keep to the limit.
  ghost predicate KeepsLimit(maxsize: nat, k: nat) {
    forall run: seq<State>, who: seq<nat> ::
      History(run, who) && run[0].maxsize == maxsize
      && (forall i :: 0 <= i < |run| ==> HowMany(run[i].pcs, Dispatching) <= k)
      ==> run[|who|].taskn <= maxsize
  }

  // They do exactly if only one dispatcher at a time is past its test.
  lemma LimitExactly(maxsize: nat, k: nat)
    requires maxsize >= 1
    ensures KeepsLimit(maxsize, k) <==> k <= 1
  {
    hide HowMany;
    if k <= 1 {
      forall run: seq<State>, who: seq<nat> |
        && History(run, who) && run[0].maxsize == maxsize
        && (forall i :: 0 <= i < |run| ==> HowMany(run[i].pcs, Dispatching) <= k)
        ensures run[|who|].taskn <= maxsize
      {
        NearlyLimited(run, who, |who|, k);
        SameLimit(run, who, |who|);
      }
    } else {
      var run, who := BoundReached(maxsize, k);
    }
  }

  lemma {:induction false} SameLimit(run: seq<State>, who: seq<nat>, i: nat)
    requires History(run, who) && i < |run|
    ensures run[i].maxsize == run[0].maxsize
    decreases i
  {
    hide Step, Owned, Disciplined, Alone, InOrder;
    if i > 0 {
      SameLimit(run, who, i - 1);
      RunInv(run, who, i - 1);
      assert Step(run[i - 1], who[i - 1], run[i]);
      Nearer(run[i - 1], who[i - 1], run[i]);
    }
  }

  // ------------------------------------------------------------------ what can go wrong, and what cannot

  // Only the mutex makes a thread wait.
  lemma NeverStuck(s: State, t: nat)
    requires Inv(s) && t < |s.pcs| && !s.destroyed && (s.releasing == None || s.releasing == Some(t))
      && s.pcs[t] != Gone
    requires s.pcs[t].Lock? || s.pcs[t].Wait? || s.pcs[t].DLock? || s.pcs[t].RLock? ==> s.mutex == None
    ensures exists s' :: Step(s, t, s')
  {
    hide Disciplined, Alone, InOrder;
    var pc, n := s.pcs[t], Next(s, t);
    if Hand(pc).Some? {
      HandMeans(s, t);
    }
    assert forall i :: 0 <= i < |s.list| ==> Known(s, s.list[i]);
    hide Owned, ListedFuncs, Removable;
    if n != Blocked {
      hide Next;
      assert QuietStep(s, t, Go(s, t, n.pc).(mutex := n.mutex, taskn := n.taskn, active := n.active));
      assert Step(s, t, Go(s, t, n.pc).(mutex := n.mutex, taskn := n.taskn, active := n.active));
    } else {
      Moving(s, t);
    }
  }

  lemma Moving(s: State, t: nat)
    requires Inv(s) && t < |s.pcs| && !s.destroyed && (s.releasing == None || s.releasing == Some(t))
      && s.pcs[t] != Gone
    requires !s.pcs[t].Lock? && !s.pcs[t].Wait? && !s.pcs[t].DLock? && !s.pcs[t].RLock? && Next(s, t) == Blocked
    ensures exists s' :: Step(s, t, s')
  {
    ListedKnown(s, t);
    hide Inv, QuietStep, ListedFuncs, Removable;
    match s.pcs[t]
    case Client =>
      assert Step(s, t, s.(stop := true));
    case Take =>
      assert Step(s, t, Pulled(s, t, 0, Dec(s.list[0])).(taken := s.taken + [s.content[s.list[0]]]));
    case New(_, _, _, _) =>
      assert NewStep(s, t, Allocated(s, t, NewJob(t, s.pcs[t])));
      assert Step(s, t, Allocated(s, t, NewJob(t, s.pcs[t])));
    case Append(r) =>
      assert Step(s, t, Enqueued(s, t, r));
    case Unlink(i, _) =>
      assert Step(s, t, Pulled(s, t, i, RUnlock(s.list[i])));
    case Drain =>
      if s.list == [] {
        assert Step(s, t, Go(s, t, Gone).(destroyed := true));
      } else {
        assert Step(s, t, Pulled(s, t, 0, Free1(s.list[0], Releaser))
          .(taken := s.taken + [s.content[s.list[0]]], taskn := s.taskn - 1));
      }
    case _ =>
      TaskMoving(s, t);
  }

  lemma TaskMoving(s: State, t: nat)
    requires t < |s.pcs| && !s.destroyed && (s.releasing == None || s.releasing == Some(t)) && AtTask(s.pcs[t])
    requires Known(s, Hand(s.pcs[t]).value)
    ensures exists s' :: Step(s, t, s')
  {
    hide TaskEnds;
    var r := Hand(s.pcs[t]).value;
    var (pc, j) := TaskEnds(t, s.pcs[t], JobAt(s, r));
    var s' := Mark(Go(s, t, pc), r, j).(idle := if s.pcs[t].Push? && |s.idle| < s.room then s.idle + [r] else s.idle);
    assert TaskStep(s, t, s');
    assert Step(s, t, s');
  }

  lemma ListedKnown(s: State, t: nat)
    requires Inv(s) && t < |s.pcs|
    ensures forall i :: 0 <= i < |s.list| ==> Known(s, s.list[i])
    ensures Hand(s.pcs[t]).Some? ==> Known(s, Hand(s.pcs[t]).value)
    ensures s.pcs[t].Unlink? ==> s.pcs[t].i < |s.list|
  {
    hide InOrder, Alone, HowMany;
  }

  // A join can succeed while a worker that was created has not yet begun: the pool may not be released then.
  lemma JoinTooEarly(s: State)
    requires Init(s) && |s.pcs| == 2 && s.pcs[0] == Client && s.pcs[1] == Created
    ensures var s' := s.(stop := true);
      History([s, s'], [0]) && s'.active == 0 && Step(s', 1, Go(s', 1, Test).(active := 1))
  {
    var s' := s.(stop := true);
    assert ClientStep(s, 0, s');
    assert Step(s, 0, s');
    assert QuietStep(s', 1, Go(s', 1, Test).(active := 1));
  }
}
