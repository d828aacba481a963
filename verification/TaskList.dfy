// The linked task list of the thread pool.
module TaskList {
  import opened Common

  // A function that a task runs: a null pointer is None.
  type Func = Option<nat>

  // A task joins at the end, or at the front if it has priority.
  function Appended<T>(l: seq<T>, x: T, priority: bool): seq<T> {
    if priority then [x] + l else l + [x]
  }

  // The first task behind the head with that function; the head is never considered.
  function Removable(l: seq<Func>, func: Func, i: nat): (r: nat)
    requires 1 <= i
    ensures r == 0 || (i <= r < |l| && l[r] == func)
    ensures forall k :: i <= k < (if r == 0 then |l| else r) ==> l[k] != func
    decreases |l| - i
  {
    if i >= |l| then 0 else if l[i] == func then i else Removable(l, func, i + 1)
  }

  lemma NoneRemovable(l: seq<Func>, func: Func)
    requires |l| <= 1
    ensures Removable(l, func, 1) == 0
  {
  }

  function Without<T>(l: seq<T>, i: nat): seq<T>
    requires i < |l|
  {
    l[..i] + l[i + 1..]
  }

  lemma WithoutPlaces<T>(l: seq<T>, i: nat)
    requires i < |l|
    ensures |Without(l, i)| == |l| - 1
    ensures forall j :: 0 <= j < |l| - 1 ==> Without(l, i)[j] == l[if j < i then j else j + 1]
  {
  }

  class Task {
    var next: Task?
    var func: Func

    constructor (func: Func)
      ensures next == null && this.func == func
    {
      this.next := null;
      this.func := func;
    }
  }

  ghost function Funcs(tasks: seq<Task>): (r: seq<Func>)
    reads tasks
    ensures |r| == |tasks| && forall i :: 0 <= i < |r| ==> r[i] == tasks[i].func
  {
    seq(|tasks|, i requires 0 <= i < |tasks| reads tasks => tasks[i].func)
  }

  // The task at a position, or null behind the last.
  ghost function At(spine: seq<Task>, i: int): Task? {
    if 0 <= i < |spine| then spine[i] else null
  }

  // The link of the task at a position leads to the next one.
  ghost predicate Follows(spine: seq<Task>, i: nat)
    requires i < |spine|
    reads spine
  {
    spine[i].next == At(spine, i + 1)
  }

  class Tasks {
    var head: Task?
    var tail: Task?
    var taskn: nat
    ghost var spine: seq<Task>

    ghost predicate Valid()
      reads this, spine
    {
      && taskn == |spine|
      && (forall i, j :: 0 <= i < j < |spine| ==> spine[i] != spine[j])
      && (forall i :: 0 <= i < |spine| ==> Follows(spine, i))
      && head == At(spine, 0) && tail == At(spine, |spine| - 1)
    }

    constructor ()
      ensures Valid() && spine == []
    {
      head, tail, taskn, spine := null, null, 0, [];
    }

    // _append_task, and the count that follows it
    method Append(task: Task, priority: bool)
      requires Valid() && task !in spine && task.next == null
      modifies this, task`next, (set t | t in spine)`next
      ensures Valid() && spine == Appended(old(spine), task, priority)
    {
      ghost var was := spine;
      if was != [] {
        assert Follows(was, |was| - 1);
      }
      if head == null {
        head, tail := task, task;
      } else if priority {
        task.next := head;
        head := task;
        if tail == null {
          assert false;
        }
      } else {
        tail.next := task;
        tail := task;
      }
      taskn := taskn + 1;
      spine := Appended(spine, task, priority);
      forall i | 0 <= i < |spine|
        ensures Follows(spine, i)
      {
        if priority && i > 0 {
          assert spine[i] == was[i - 1] && old(Follows(was, i - 1));
        } else if !priority && i < |was| {
          assert spine[i] == was[i] && old(Follows(was, i));
        }
      }
    }

    // _get_head_task
    method TakeHead() returns (task: Task?)
      requires Valid()
      modifies this
      ensures Valid()
      ensures old(spine) == [] ==> task == null && spine == []
      ensures old(spine) != [] ==> task == old(spine)[0] && spine == old(spine)[1..]
    {
      task := null;
      if head != null {
        task := head;
        if task == tail {
          tail := null;
        }
        head := head.next;
        taskn := taskn - 1;
        assert Follows(spine, 0);
        spine := spine[1..];
        forall i | 0 <= i < |spine|
          ensures Follows(spine, i)
        {
          assert spine[i] == old(spine)[i + 1] && old(Follows(spine, i + 1));
        }
      }
    }

    // The search of ztl_thrpool_remove.
    method Remove(func: Func) returns (task: Task?)
      requires Valid()
      modifies this, (set t | t in spine)`next
      ensures Valid()
      ensures var i := Removable(old(Funcs(spine)), func, 1);
        if i == 0 then task == null && spine == old(spine)
        else task == old(spine)[i] && spine == Without(old(spine), i)
    {
      hide Without, Removable;
      if head == null {
        NoneRemovable(Funcs(spine), func);
        return null;
      }
      var t, nexttask, k := Search(func);
      if nexttask == null {
        return null;
      }
      Unlink(t, nexttask, k);
      task := nexttask;
    }

    // Its loop: the task found and the one before it, at k.
    method Search(func: Func) returns (t: Task, nexttask: Task?, ghost k: nat)
      requires Valid() && head != null
      ensures k < |spine| && t == spine[k]
      ensures nexttask == null ==> Removable(Funcs(spine), func, 1) == 0
      ensures nexttask != null ==>
        k + 1 < |spine| && nexttask == spine[k + 1] && Removable(Funcs(spine), func, 1) == k + 1
    {
      ghost var fs := Funcs(spine);
      k := 0;
      assert Follows(spine, 0);
      t, nexttask := head, head.next;
      while nexttask != null
        invariant 0 <= k < |spine| && t == spine[k] && nexttask == At(spine, k + 1)
        invariant Removable(fs, func, k + 1) == Removable(fs, func, 1)
        decreases |spine| - k
      {
        assert Follows(spine, k + 1);
        if func == nexttask.func {
          return;
        }
        t, nexttask, k := nexttask, nexttask.next, k + 1;
      }
    }

    // Takes out the task behind the one at k.
    method Unlink(task: Task, nexttask: Task, ghost k: nat)
      requires Valid() && k + 1 < |spine| && task == spine[k] && nexttask == spine[k + 1]
      modifies this, task`next
      ensures Valid() && spine == Without(old(spine), k + 1)
    {
      hide Without;
      ghost var was := spine;
      WithoutPlaces(was, k + 1);
      assert Follows(was, k) && Follows(was, k + 1);
      taskn := taskn - 1;
      task.next := nexttask.next;
      if nexttask == tail {
        tail := task;
      }
      spine := Without(spine, k + 1);
      forall i | 0 <= i < |spine|
        ensures Follows(spine, i)
      {
        if i != k {
          assert spine[i] == was[if i < k then i else i + 1] && old(Follows(was, if i < k then i else i + 1));
        }
      }
    }
  }
}
