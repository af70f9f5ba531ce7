/**
 The thread pool's object: one method for each stretch of code that runs with the
 lock held, each tied to a step of the monitor.
 */
module PoolMonitor {
  import opened Lists
  import opened Options
  import opened PoolSpec
  import opened Sequences

  datatype AddResult = Refused | FullUp | NoMemory | Added
  datatype TakeResult = Idle | Exited | Took(node: Node)

  /** A pool, NULL, or no end to it but following a NULL pointer. */
  datatype CreateResult = Made(pool: Monitor) | Null | NullFollowed

  /**
   Closing unlinks and joins one thread after the other until the list of thread ids
   looks empty, that is until its head points at itself; not `ok` when the entry to
   be unlinked is NULL, as behind a head that was zeroed and never initialised.
   */
  method JoinAll(head: ListHead, ghost xs: seq<ListHead>) returns (ok: bool, joined: seq<ListHead>)
    requires head.next == null || List(head, xs)
    modifies head, set x | x in xs
    ensures ok <==> old(head.next) != null
    ensures ok ==> joined == xs && List(head, [])
    ensures !ok ==> joined == []
  {
    joined := [];
    ghost var left := xs;
    while head.next != head
      invariant head.next == null || (List(head, left) && joined + left == xs)
      invariant head.next == null <==> old(head.next) == null
      invariant head.next == null ==> joined == []
      decreases |left|
    {
      var node := head.next;
      if node == null {
        return false, joined;
      }
      ghost var r := [head] + left;
      Neighbours(r, 0);
      assert left != [] && node == left[0];
      Del(node, r, 1);
      assert Without(r, 1) == [head] + left[1..];
      AsList(head, left[1..]);
      joined := joined + [node];
      left := left[1..];
    }
    ok := true;
    if left != [] {
      Neighbours([head] + left, 0);
    }
  }

  function AddStep(task: Task, atHead: bool, mem: Option<Node>): Step {
    Add(task, atHead, if mem.Some? then mem.value else 0)
  }

  class Monitor {
    var locked: bool
    var queue: seq<Node>
    var free: seq<Node>
    var tasks: map<Node, Task>
    var taskTtl: nat
    var taskMax: nat
    var alive: nat
    var threadMax: nat
    var shutdown: bool

    ghost var view: Pool // the same, and what only the model knows of

    ghost predicate Valid()
      reads this
    {
      queue == view.queue && free == view.free && tasks == view.tasks &&
      taskTtl == view.taskTtl && taskMax == view.taskMax &&
      alive == view.alive && threadMax == view.threadMax && shutdown == view.shutdown
    }

    constructor (threadMax: nat)
      ensures Valid() && view == Init(threadMax, {}) && !locked
    {
      locked, queue, free, tasks := false, [], [], map[];
      taskTtl, taskMax, alive, this.threadMax, shutdown := 0, 0, 0, threadMax, false;
      view := Init(threadMax, {});
    }

    /** One of the first threads. */
    method StartThread(ghost w: Worker)
      requires Valid() && view == Init(threadMax, view.workers) && w !in view.workers
      modifies this`alive, this`view
      ensures Valid() && view == Init(threadMax, old(view).workers + {w})
    {
      alive := alive + 1;
      view := Init(threadMax, view.workers + {w});
    }

    /**
     `made` tells, for each thread to be started, whether the system could make it.
     Thread numbers that are refused send the half-made pool to be closed, and that
     follows a NULL pointer.
     */
    static method Create(threadMin: nat, threadMax: nat, made: seq<Option<Worker>>) returns (r: CreateResult)
      requires |made| == threadMin
      requires forall i, j :: 0 <= i < j < |made| && made[i].Some? && made[j].Some? ==> made[i] != made[j]
      ensures r.NullFollowed? <==> threadMax == 0 || threadMax < threadMin
      ensures !r.Null?
      ensures r.Made? ==> fresh(r.pool) && !r.pool.locked && r.pool.Valid() && Inv(r.pool.view)
      ensures r.Made? ==> r.pool.view == Init(threadMax, StartedBy(made))
      ensures r.Made? ==> exists n: nat :: n <= threadMin && StartedFirst(made, n) && r.pool.alive == n
    {
      if threadMax == 0 || threadMax < threadMin {
        var pids := new ListHead.Zeroed();
        var ok, joined := JoinAll(pids, []);
        return if ok then Null else NullFollowed;
      }
      var p := new Monitor(threadMax);
      ghost var ws := {};
      var i := 0;
      while i < threadMin && made[i].Some?
        invariant 0 <= i <= threadMin && fresh(p) && !p.locked && p.Valid()
        invariant p.threadMax == threadMax && p.view == Init(threadMax, ws) && |ws| == i
        invariant forall k :: i <= k < |made| && made[k].Some? ==> made[k].value !in ws
        invariant forall k :: 0 <= k < i ==> made[k].Some?
        invariant ws + StartedBy(made[i..]) == StartedBy(made)
      {
        StartedOne(made, i);
        p.StartThread(made[i].value);
        ws := ws + {made[i].value};
        i := i + 1;
      }
      InitInv(threadMax, ws);
      assert StartedFirst(made, i);
      return Made(p);
    }

    /** Hangs in a task, in a recycled node if there is one, and lets go of the lock. */
    method PutTask(task: Task, atHead: bool, mem: Option<Node>) returns (done: bool)
      requires locked && Valid()
      modifies this
      ensures done <==> old(free) != [] || mem.Some?
      ensures done ==> view == NextAdd(old(view), task, atHead, if mem.Some? then mem.value else 0)
      ensures !done ==> view == old(view)
      ensures Valid() && (locked <==> !done)
    {
      var node: Node;
      if free != [] {
        node := free[0];
        free := free[1..];
      } else if mem.None? {
        return false;
      } else {
        node := mem.value;
      }
      tasks := tasks[node := task];
      if atHead {
        queue := [node] + queue;
      } else {
        queue := queue + [node];
      }
      taskTtl := taskTtl + 1;
      view := NextAdd(view, task, atHead, if mem.Some? then mem.value else 0);
      locked := false;
      return true;
    }

    /**
     Adds a task, or tells why not. A caller that was made to wait for room comes
     again with `waited` set, and is then not asked for a shutdown any more. When
     there is no memory the lock stays taken.
     */
    method AddTask(task: Task, atHead: bool, mem: Option<Node>, waited: bool) returns (r: AddResult)
      requires !locked && Valid() && Inv(view) && (mem.Some? ==> !Somewhere(view, mem.value))
      modifies this
      ensures r.Refused? <==> old(shutdown) && !waited
      ensures r.FullUp? <==> !r.Refused? && 0 < old(taskMax) <= |old(queue)|
      ensures r.NoMemory? <==> !r.Refused? && !r.FullUp? && old(free) == [] && mem.None?
      ensures r.Added? ==> Enabled(old(view), AddStep(task, atHead, mem))
      ensures r.Added? ==> view == Next(old(view), AddStep(task, atHead, mem))
      ensures r.Added? ==> |queue| == |old(queue)| + 1 && forall n :: n in queue ==> n in tasks
      ensures r.Added? ==> free == if old(free) == [] then [] else old(free)[1..]
      ensures r.Added? && atHead ==> queue[1..] == old(queue) && tasks[queue[0]] == task
      ensures r.Added? && !atHead ==> queue[..|old(queue)|] == old(queue) && tasks[queue[|old(queue)|]] == task
      ensures r.Added? ==> forall n :: n in old(queue) ==> n in old(tasks) && tasks[n] == old(tasks)[n]
      ensures !r.Added? ==> view == old(view)
      ensures Valid() && Inv(view) && (locked <==> r.NoMemory?)
    {
      ghost var was := view;
      locked := true;
      if shutdown && !waited {
        locked := false;
        return Refused;
      }
      if taskMax != 0 && taskTtl >= taskMax {
        locked := false;
        return FullUp;
      }
      if free != [] || mem.Some? {
        StepInv(was, AddStep(task, atHead, mem));
        AddedWhere(was, AddStep(task, atHead, mem));
      }
      var done := PutTask(task, atHead, mem);
      if !done {
        return NoMemory;
      }
      return Added;
    }

    /** A worker comes for a task: it waits, leaves for good, or takes the first one. */
    method TakeTask(ghost w: Worker) returns (r: TakeResult)
      requires !locked && Valid() && Inv(view) && w in view.workers && w !in view.hands
      modifies this
      ensures r.Exited? <==> old(shutdown)
      ensures r.Idle? <==> !old(shutdown) && old(queue) == []
      ensures r.Idle? ==> view == old(view)
      ensures r.Exited? ==> old(alive) > 0 && view == Next(old(view), Exit(w))
      ensures r.Took? ==> Enabled(old(view), Take(w)) && view == Next(old(view), Take(w))
      ensures r.Took? ==> w in view.hands && view.hands[w] == r.node && old(queue) == [r.node] + queue
      ensures r.Exited? ==> alive == old(alive) - 1 && w !in view.workers
      ensures Valid() && Inv(view) && !locked
    {
      ghost var was := view;
      if !shutdown && queue == [] {
        return Idle;
      }
      if shutdown {
        StepInv(was, Exit(w));
        StepCounted(was, Exit(w));
        alive := alive - 1;
        view := Next(view, Exit(w));
        return Exited;
      }
      StepInv(was, Take(w));
      var node := queue[0];
      queue := queue[1..];
      taskTtl := taskTtl - 1;
      view := Next(view, Take(w));
      return Took(node);
    }

    /** What a worker runs, without the lock, is the task as it was given to the pool. */
    method TaskToRun(ghost w: Worker, node: Node) returns (t: Task)
      requires Valid() && Inv(view) && w in view.hands && view.hands[w] == node
      ensures node in view.job && view.job[node] < |view.accepted| && t == view.accepted[view.job[node]]
    {
      assert InUse(view, node);
      t := tasks[node];
    }

    method Recycle(ghost w: Worker, node: Node)
      requires !locked && Valid() && Inv(view) && w in view.hands && view.hands[w] == node
      modifies this
      ensures view == Next(old(view), PoolSpec.Recycle(w)) && Valid() && Inv(view) && !locked
      ensures free == old(free) + [node] && queue == old(queue) && w !in view.hands
      ensures node in old(tasks) && tasks == old(tasks)[node := Task(old(tasks)[node].fun, 0)]
    {
      StepInv(view, PoolSpec.Recycle(w));
      assert InUse(view, node);
      tasks := tasks[node := tasks[node].(arg := 0)];
      free := free + [node];
      view := Next(view, PoolSpec.Recycle(w));
    }

    /** Tries to start one more thread; `created` is the thread the system would make. */
    method ActivityTry(created: Option<Worker>) returns (made: bool)
      requires !locked && Valid() && Inv(view) && (created.Some? ==> created.value !in view.workers)
      modifies this
      ensures view == Next(old(view), Activate(created)) && Valid() && Inv(view) && !locked
      ensures made <==> created.Some? && old(alive) < threadMax && old(alive) <= |old(queue)|
      ensures alive == old(alive) + if made then 1 else 0
      ensures view.workers == old(view).workers + if made then {created.value} else {}
      ensures queue == old(queue) && free == old(free) && tasks == old(tasks)
    {
      StepInv(view, Activate(created));
      if alive >= threadMax || alive > taskTtl || created.None? {
        return false;
      }
      alive := alive + 1;
      view := Next(view, Activate(created));
      return true;
    }

    method SetTaskMax(max: nat) returns (before: nat)
      requires !locked && Valid() && Inv(view)
      modifies this
      ensures view == Next(old(view), SetMax(max)) && Valid() && Inv(view) && !locked
      ensures before == old(taskMax) && taskMax == max && queue == old(queue) && alive == old(alive)
    {
      StepInv(view, SetMax(max));
      before, taskMax := taskMax, max;
      view := Next(view, SetMax(max));
    }

    /** The first thing that closing the pool does. */
    method Close()
      requires !locked && Valid() && Inv(view)
      modifies this
      ensures view == Next(old(view), Shutdown) && Valid() && Inv(view) && !locked
      ensures shutdown && queue == old(queue) && alive == old(alive)
    {
      StepInv(view, Shutdown);
      shutdown := true;
      view := Next(view, Shutdown);
    }
  }

  /** The first `n` threads could be made and the next could not. */
  ghost predicate StartedFirst(made: seq<Option<Worker>>, n: nat)
    requires n <= |made|
  {
    (forall i :: 0 <= i < n ==> made[i].Some?) && (n < |made| ==> made[n].None?)
  }

  /** Threads are started one after the other until the system fails to make one. */
  ghost function StartedBy(made: seq<Option<Worker>>): set<Worker> {
    if made == [] || made[0].None? then {} else {made[0].value} + StartedBy(made[1..])
  }

  lemma StartedOne(made: seq<Option<Worker>>, i: nat)
    requires i < |made| && made[i].Some?
    ensures StartedBy(made[i..]) == {made[i].value} + StartedBy(made[i + 1..])
  {
  }
}
