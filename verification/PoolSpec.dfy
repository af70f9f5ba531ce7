/**
 The thread pool as a monitor: what each critical section does to the task queue,
 the list of recycled nodes and the counters, and what holds over all interleavings.
 */
module PoolSpec {
  import opened Options
  import opened Sequences

  type Node = nat      // the address of a task node
  type Worker = nat
  type Ticket = nat    // the how-manieth task to be accepted

  datatype Task = Task(fun: nat, arg: nat)

  datatype Pool = Pool(
    queue: seq<Node>, free: seq<Node>, hands: map<Worker, Node>,
    tasks: map<Node, Task>,          // what stands in the task nodes
    job: map<Node, Ticket>,          // which accepted task a node in use stands for
    taskTtl: nat, taskMax: nat,
    alive: nat, workers: set<Worker>, // the counter, and the threads there really are
    threadMax: nat, shutdown: bool,
    accepted: seq<Task>,             // the tasks as they were given to the pool
    tailAdded: seq<bool>,            // for each accepted task, whether it was put at the tail
    started: seq<Ticket>)            // tasks in the order in which workers took them

  datatype Step =
    | Add(task: Task, atHead: bool, mem: Node)   // `mem` is what the allocator would give
    | Take(w: Worker)
    | Recycle(w: Worker)
    | Activate(created: Option<Worker>) // None: the thread could not be made
    | Exit(w: Worker)
    | SetMax(max: nat)
    | Shutdown

  function Init(threadMax: nat, workers: set<Worker>): Pool {
    Pool([], [], map[], map[], map[], 0, 0, |workers|, workers, threadMax, false, [], [], [])
  }

  predicate Fresh(s: Pool, mem: Node) {
    mem !in s.queue && mem !in s.free && mem !in s.hands.Values
  }

  /** The conditions that threads wait for, and fresh memory. */
  predicate Enabled(s: Pool, st: Step) {
    match st
    case Add(_, _, mem) => (s.taskMax == 0 || s.taskTtl < s.taskMax) && (s.free == [] ==> Fresh(s, mem))
    case Take(w) => !s.shutdown && s.queue != [] && w in s.workers && w !in s.hands
    case Recycle(w) => w in s.hands
    case Activate(created) => created.Some? ==> created.value !in s.workers
    case Exit(w) => s.shutdown && w in s.workers && w !in s.hands
    case SetMax(_) => true
    case Shutdown => true
  }

  function NextAdd(s: Pool, task: Task, atHead: bool, mem: Node): Pool {
    var n := if s.free != [] then s.free[0] else mem;
    s.(free := if s.free != [] then s.free[1..] else [],
       queue := if atHead then [n] + s.queue else s.queue + [n],
       tasks := s.tasks[n := task],
       job := s.job[n := |s.tailAdded|],
       taskTtl := s.taskTtl + 1,
       accepted := s.accepted + [task],
       tailAdded := s.tailAdded + [!atHead])
  }

  function Next(s: Pool, st: Step): Pool
    requires Enabled(s, st) && (st.Take? ==> s.taskTtl > 0) && (st.Exit? ==> s.alive > 0)
  {
    match st
    case Add(task, atHead, mem) => NextAdd(s, task, atHead, mem)
    case Take(w) =>
      var n := s.queue[0];
      s.(queue := s.queue[1..], taskTtl := s.taskTtl - 1, hands := s.hands[w := n],
         started := if n in s.job then s.started + [s.job[n]] else s.started)
    case Recycle(w) =>
      var n := s.hands[w];
      s.(hands := s.hands - {w}, free := s.free + [n],
         tasks := if n in s.tasks then s.tasks[n := s.tasks[n].(arg := 0)] else s.tasks)
    case Activate(created) =>
      if s.alive >= s.threadMax || s.alive > s.taskTtl || created.None? then s
      else s.(alive := s.alive + 1, workers := s.workers + {created.value})
    case Exit(w) => s.(alive := s.alive - 1, workers := s.workers - {w})
    case SetMax(max) => s.(taskMax := max)
    case Shutdown => s.(shutdown := true)
  }

  // ---------------------------------------------------------------- invariant

  /** Each node is in one place only. */
  ghost predicate OnePlace(s: Pool) {
    NoDup(s.queue) && NoDup(s.free) &&
    (forall w, w' :: w in s.hands && w' in s.hands && w != w' ==> s.hands[w] != s.hands[w']) &&
    (forall n :: n in s.queue ==> n !in s.free) &&
    (forall w :: w in s.hands ==> s.hands[w] !in s.queue && s.hands[w] !in s.free)
  }

  function Jobs(s: Pool): seq<Ticket>
    requires forall n :: n in s.queue ==> n in s.job
  {
    seq(|s.queue|, i requires 0 <= i < |s.queue| => s.job[s.queue[i]])
  }

  /** All tasks in the order in which they are or will be taken, if no more are added. */
  function History(s: Pool): seq<Ticket>
    requires forall n :: n in s.queue ==> n in s.job
  {
    s.started + Jobs(s)
  }

  /** Tasks put at the tail stand in the order of their acceptance. */
  ghost predicate TailInOrder(h: seq<Ticket>, tailAdded: seq<bool>) {
    forall i, j :: 0 <= i < j < |h| && h[i] < |tailAdded| && h[j] < |tailAdded| &&
                   tailAdded[h[i]] && tailAdded[h[j]] ==>
      h[i] < h[j]
  }

  /** An accepted task still waits. */
  ghost predicate Queued(s: Pool, t: Ticket)
    requires forall n :: n in s.queue ==> n in s.job
  {
    exists i :: 0 <= i < |s.queue| && s.job[s.queue[i]] == t
  }

  ghost predicate TasksOk(s: Pool) {
    (forall n :: n in s.queue ==> n in s.job) &&
    NoDup(History(s)) && (forall i :: 0 <= i < |History(s)| ==> History(s)[i] < |s.tailAdded|) &&
    |History(s)| == |s.tailAdded| && TailInOrder(History(s), s.tailAdded) &&
    (forall t :: 0 <= t < |s.tailAdded| ==> t in History(s))
  }

  ghost predicate InUse(s: Pool, n: Node) {
    n in s.queue || n in s.hands.Values
  }

  /** A node in use holds the task that was accepted with it. */
  ghost predicate Carried(s: Pool) {
    |s.accepted| == |s.tailAdded| &&
    forall n :: InUse(s, n) ==>
      n in s.tasks && n in s.job && s.job[n] < |s.accepted| && s.tasks[n] == s.accepted[s.job[n]]
  }

  /** The counters say how long the queue is and how many threads there are. */
  ghost predicate Counted(s: Pool) {
    s.taskTtl == |s.queue| && s.alive == |s.workers| <= s.threadMax && s.hands.Keys <= s.workers
  }

  ghost predicate Inv(s: Pool) {
    OnePlace(s) && Counted(s) && TasksOk(s) && Carried(s)
  }

  lemma InitInv(threadMax: nat, workers: set<Worker>)
    requires |workers| <= threadMax
    ensures Inv(Init(threadMax, workers))
  {
  }

  lemma NoDupSnoc<T>(xs: seq<T>, x: T)
    requires NoDup(xs) && x !in xs
    ensures NoDup(xs + [x]) && NoDup([x] + xs)
  {
  }

  lemma NoDupTail<T>(xs: seq<T>)
    requires NoDup(xs) && xs != []
    ensures NoDup(xs[1..]) && xs[0] !in xs[1..]
  {
  }

  /** Nodes move between the queue, the workers and the free list, and are never in two places. */
  lemma StepPlaces(s: Pool, st: Step)
    requires Inv(s) && Enabled(s, st)
    ensures (st.Exit? ==> s.alive > 0) && OnePlace(Next(s, st))
  {
    match st {
      case Add(task, atHead, mem) =>
        if s.free != [] {
          NoDupTail(s.free);
          assert s.free[0] in s.free;
          NoDupSnoc(s.queue, s.free[0]);
        } else {
          NoDupSnoc(s.queue, mem);
        }
      case Take(w) =>
        NoDupTail(s.queue);
        assert s.queue[0] in s.queue;
      case Recycle(w) =>
        NoDupSnoc(s.free, s.hands[w]);
      case _ =>
    }
  }

  lemma StepCounted(s: Pool, st: Step)
    requires Inv(s) && Enabled(s, st)
    ensures (st.Exit? ==> s.alive > 0) && Counted(Next(s, st))
  {
  }

  lemma AddTasks(s: Pool, task: Task, atHead: bool, mem: Node)
    requires Inv(s) && Enabled(s, Add(task, atHead, mem))
    ensures TasksOk(Next(s, Add(task, atHead, mem)))
  {
    var s' := Next(s, Add(task, atHead, mem));
    var n := if s.free != [] then s.free[0] else mem;
    var t := |s.tailAdded|;
    assert n !in s.queue by {
      if s.free != [] { assert s.free[0] in s.free; }
    }
    if atHead {
      assert Jobs(s') == [t] + Jobs(s);
      InOrderInsert(s.started, t, Jobs(s), s.tailAdded, false);
      AllStillThere(s.started, t, Jobs(s));
    } else {
      assert Jobs(s') == Jobs(s) + [t];
      assert History(s) + [] == History(s);
      assert History(s') == History(s) + ([t] + []);
      InOrderInsert(History(s), t, [], s.tailAdded, true);
      AllStillThere(History(s), t, []);
    }
  }

  lemma StepCarried(s: Pool, st: Step)
    requires Inv(s) && Enabled(s, st)
    ensures (st.Exit? ==> s.alive > 0) && Carried(Next(s, st))
  {
    StepCounted(s, st);
    var s' := Next(s, st);
    forall n | InUse(s', n)
      ensures n in s'.tasks && n in s'.job && s'.job[n] < |s'.accepted| && s'.tasks[n] == s'.accepted[s'.job[n]]
    {
      match st {
        case Add(task, atHead, mem) =>
          var m := if s.free != [] then s.free[0] else mem;
          assert n == m || InUse(s, n);
        case Take(w) =>
          assert s.queue[0] in s.queue;
          assert InUse(s, n);
        case _ =>
          assert InUse(s, n);
      }
    }
  }

  lemma AllStillThere(a: seq<Ticket>, t: Ticket, b: seq<Ticket>)
    requires forall u :: 0 <= u < t ==> u in a + b
    ensures forall u :: 0 <= u < t + 1 ==> u in a + ([t] + b)
  {
    forall u | 0 <= u < t + 1 ensures u in a + ([t] + b) {
      assert u == t || u in a + b;
    }
  }

  lemma TakeTasks(s: Pool, w: Worker)
    requires Inv(s) && Enabled(s, Take(w))
    ensures TasksOk(Next(s, Take(w)))
  {
    var s' := Next(s, Take(w));
    assert Jobs(s) == [s.job[s.queue[0]]] + Jobs(s');
    assert History(s') == History(s);
  }

  lemma StepTasks(s: Pool, st: Step)
    requires Inv(s) && Enabled(s, st)
    ensures TasksOk(Next(s, st))
  {
    var s' := Next(s, st);
    match st {
      case Add(task, atHead, mem) =>
        AddTasks(s, task, atHead, mem);
      case Take(w) =>
        TakeTasks(s, w);
      case _ =>
        assert Jobs(s') == Jobs(s);
    }
  }

  /** A new task goes in anywhere if it is to be counted as put at the head, and last if not. */
  lemma InOrderInsert(a: seq<Ticket>, t: Ticket, b: seq<Ticket>, tailAdded: seq<bool>, tail: bool)
    requires TailInOrder(a + b, tailAdded) && NoDup(a + b) && t == |tailAdded| == |a + b|
    requires forall i :: 0 <= i < |a + b| ==> (a + b)[i] < t
    requires tail ==> b == []
    ensures var h := a + ([t] + b);
            TailInOrder(h, tailAdded + [tail]) && NoDup(h) && (forall i :: 0 <= i < |h| ==> h[i] <= t) && |h| == t + 1
  {
    var g, h, flags := a + b, a + ([t] + b), tailAdded + [tail];
    forall i | 0 <= i < |h|
      ensures h[i] == if i < |a| then g[i] else if i == |a| then t else g[i - 1]
      ensures h[i] <= t
    {
    }
    forall i, j | 0 <= i < j < |h|
      ensures h[i] != h[j]
      ensures h[i] < |flags| && h[j] < |flags| && flags[h[i]] && flags[h[j]] ==> h[i] < h[j]
    {
      var i', j' := if i <= |a| then i else i - 1, if j <= |a| then j else j - 1;
      if i != |a| && j != |a| {
        assert h[i] == g[i'] && h[j] == g[j'] && i' < j';
      }
    }
  }

  lemma StepInv(s: Pool, st: Step)
    requires Inv(s) && Enabled(s, st)
    ensures Inv(Next(s, st))
  {
    StepPlaces(s, st);
    StepCounted(s, st);
    StepTasks(s, st);
    StepCarried(s, st);
  }

  /** A task is put at the head or at the tail of the queue, as asked, in a node of its own. */
  lemma AddedWhere(s: Pool, st: Step)
    requires Inv(s) && Enabled(s, st) && st.Add?
    ensures var s', q := Next(s, st), s.queue;
            |s'.queue| == |q| + 1 && (forall n :: n in s'.queue ==> n in s'.tasks) &&
            (if st.atHead then s'.queue[1..] == q && s'.tasks[s'.queue[0]] == st.task
             else s'.queue[..|q|] == q && s'.tasks[s'.queue[|q|]] == st.task) &&
            forall n :: n in q ==> n in s.tasks && s'.tasks[n] == s.tasks[n]
  {
    var s' := Next(s, st);
    StepInv(s, st);
    forall n | n in s'.queue ensures n in s'.tasks {
      assert InUse(s', n);
    }
    forall n | n in s.queue ensures n in s.tasks && s'.tasks[n] == s.tasks[n] {
      assert InUse(s, n);
      assert s.free != [] ==> s.free[0] in s.free;
    }
  }

  ghost predicate Somewhere(s: Pool, n: Node) {
    InUse(s, n) || n in s.free
  }

  /** No step loses a node, and only an addition that finds none to recycle brings in a new one. */
  lemma StepConserves(s: Pool, st: Step, n: Node)
    requires Inv(s) && Enabled(s, st)
    ensures (st.Exit? ==> s.alive > 0) &&
            (Somewhere(Next(s, st), n) <==> Somewhere(s, n) || (st.Add? && s.free == [] && n == st.mem))
  {
    StepCounted(s, st);
    var s' := Next(s, st);
    match st {
      case Add(_, _, _) =>
        if s.free != [] { assert s.free == [s.free[0]] + s'.free; }
      case Take(w) =>
        assert s.queue == [s.queue[0]] + s'.queue;
        assert s'.hands[w] == s.queue[0];
        if n in s.hands.Values {
          var v :| v in s.hands && s.hands[v] == n;
          assert s'.hands[v] == n;
        }
      case Recycle(w) =>
        if n in s.hands.Values {
          var v :| v in s.hands && s.hands[v] == n;
          if v != w { assert s'.hands[v] == n; }
        }
      case _ =>
    }
  }

  // ---------------------------------------------------------------- runs

  ghost predicate Legal(s: Pool, sts: seq<Step>)
    requires Inv(s)
    decreases |sts|
  {
    sts == [] || (Enabled(s, sts[0]) && (StepInv(s, sts[0]); Legal(Next(s, sts[0]), sts[1..])))
  }

  ghost function Run(s: Pool, sts: seq<Step>): (r: Pool)
    requires Inv(s) && Legal(s, sts)
    ensures Inv(r) && r.threadMax == s.threadMax
    decreases |sts|
  {
    if sts == [] then s
    else
      StepInv(s, sts[0]);
      Run(Next(s, sts[0]), sts[1..])
  }

  lemma TakenNotQueued(s: Pool, i: nat, k: nat)
    requires TasksOk(s) && i < |s.started| && k < |s.queue|
    ensures s.started[i] != s.job[s.queue[k]]
  {
    assert History(s)[i] != History(s)[|s.started| + k];
  }

  /** A task is taken once, and is then no longer in the queue. */
  lemma TakenOnce(s: Pool, t: Ticket)
    requires TasksOk(s) && t in s.started
    ensures NoDup(s.started) && t < |s.tailAdded| && !Queued(s, t)
  {
    var h := History(s);
    assert h[..|s.started|] == s.started;
    var i :| 0 <= i < |s.started| && s.started[i] == t;
    assert h[i] == t;
    forall k | 0 <= k < |s.queue| ensures s.job[s.queue[k]] != t {
      TakenNotQueued(s, i, k);
    }
  }

  /** No accepted task is lost. */
  lemma TakenOrQueued(s: Pool, t: Ticket)
    requires TasksOk(s) && t < |s.tailAdded|
    ensures t in s.started || Queued(s, t)
  {
    var h := History(s);
    assert t in h;
    var k :| 0 <= k < |h| && h[k] == t;
    if k >= |s.started| {
      assert s.job[s.queue[k - |s.started|]] == t;
    }
  }

  /** Workers have taken tail-added tasks in the order of acceptance. */
  lemma TakenInOrder(s: Pool, i: nat, j: nat)
    requires TasksOk(s) && i < j < |s.started|
    ensures s.started[i] < |s.tailAdded| && s.started[j] < |s.tailAdded|
    ensures s.tailAdded[s.started[i]] && s.tailAdded[s.started[j]] ==> s.started[i] < s.started[j]
    // and none that was put at the tail before one of them is still waiting
    ensures forall t :: 0 <= t < s.started[j] && s.tailAdded[t] && s.tailAdded[s.started[j]] ==> t in s.started
  {
    var h := History(s);
    assert h[i] == s.started[i] && h[j] == s.started[j];
    forall t | 0 <= t < s.started[j] && s.tailAdded[t] && s.tailAdded[s.started[j]] ensures t in s.started {
      assert t in h;
      var k :| 0 <= k < |h| && h[k] == t;
      if k < |s.started| {
        assert s.started[k] == t;
      }
    }
  }

  /** A task put at the head is the next one that is taken; so a worker takes the latest of those before any other. */
  lemma HeadNext(s: Pool, task: Task, mem: Node, w: Worker)
    requires Inv(s) && Enabled(s, Add(task, true, mem)) && Enabled(Next(s, Add(task, true, mem)), Take(w))
    ensures var s' := Next(s, Add(task, true, mem));
            Inv(s') && Next(s', Take(w)).started == s.started + [|s.accepted|] &&
            Next(s', Take(w)).hands[w] in s'.tasks && s'.tasks[Next(s', Take(w)).hands[w]] == task &&
            Next(s', Take(w)).queue == s.queue
  {
    StepInv(s, Add(task, true, mem));
    AddedWhere(s, Add(task, true, mem));
  }

  /**
   A worker that finds no shutdown takes the first task of the queue, whatever
   else the pool holds.
   */
  lemma TakesFirst(s: Pool, w: Worker)
    requires Inv(s) && w in s.workers && w !in s.hands
    ensures Enabled(s, Take(w)) <==> !s.shutdown && s.queue != []
    ensures Enabled(s, Take(w)) ==>
              s.queue == [Next(s, Take(w)).hands[w]] + Next(s, Take(w)).queue && w in Next(s, Take(w)).hands &&
              Next(s, Take(w)).started == s.started + [s.job[s.queue[0]]]
  {
  }

  /** The queue keeps within a limit that is set. */
  ghost predicate WithinMax(s: Pool) {
    s.taskMax == 0 || |s.queue| <= s.taskMax
  }

  /** The new limit is not less than what the queue holds. */
  predicate RoomFor(s: Pool, st: Step) {
    st.SetMax? ==> st.max == 0 || |s.queue| <= st.max
  }

  lemma StepWithinMax(s: Pool, st: Step)
    requires Inv(s) && Enabled(s, st) && WithinMax(s)
    ensures WithinMax(Next(s, st)) <==> RoomFor(s, st)
  {
  }

  /** No change of the limit in a run is to less than the queue holds at that moment. */
  ghost predicate NeverLowered(s: Pool, sts: seq<Step>)
    requires Inv(s) && Legal(s, sts)
    decreases |sts|
  {
    sts == [] || (RoomFor(s, sts[0]) && (StepInv(s, sts[0]); NeverLowered(Next(s, sts[0]), sts[1..])))
  }

  lemma {:induction false} RunWithinMax(s: Pool, sts: seq<Step>)
    requires Inv(s) && Legal(s, sts) && WithinMax(s) && NeverLowered(s, sts)
    ensures WithinMax(Run(s, sts))
    decreases |sts|
  {
    if sts != [] {
      StepInv(s, sts[0]);
      StepWithinMax(s, sts[0]);
      RunWithinMax(Next(s, sts[0]), sts[1..]);
    }
  }

  /** A pool with its first threads. */
  ghost function Start(threadMax: nat, workers: set<Worker>): (s: Pool)
    requires |workers| <= threadMax
    ensures Inv(s) && WithinMax(s)
  {
    InitInv(threadMax, workers);
    Init(threadMax, workers)
  }

  /**
   What a state says of tasks: none taken twice, none lost, and those put at the tail
   taken in order of acceptance.
   */
  ghost predicate TasksServed(s: Pool)
    requires TasksOk(s)
  {
    NoDup(s.started) && (forall t :: 0 <= t < |s.tailAdded| ==> (t in s.started <==> !Queued(s, t))) &&
    (forall i, j :: 0 <= i < j < |s.started| ==>
       s.started[i] < |s.tailAdded| && s.started[j] < |s.tailAdded| &&
       (s.tailAdded[s.started[i]] && s.tailAdded[s.started[j]] ==> s.started[i] < s.started[j]))
  }

  lemma Served(s: Pool)
    requires TasksOk(s)
    ensures TasksServed(s)
  {
    assert History(s)[..|s.started|] == s.started;
    forall t | 0 <= t < |s.tailAdded| ensures t in s.started <==> !Queued(s, t) {
      TakenOrQueued(s, t);
      if t in s.started { TakenOnce(s, t); }
    }
    forall i, j | 0 <= i < j < |s.started|
      ensures s.started[i] < |s.tailAdded| && s.started[j] < |s.tailAdded|
      ensures s.tailAdded[s.started[i]] && s.tailAdded[s.started[j]] ==> s.started[i] < s.started[j]
    {
      TakenInOrder(s, i, j);
    }
  }

  /**
   In every reachable state of the pool: each node is in exactly one place, the
   counter is the queue's length, threads stay within their maximum, no task is
   taken twice, every accepted task is either taken or still queued, tasks put at
   the tail were taken in the order of their acceptance, and the queue is within a
   limit that was never set to less than it held.
   */
  lemma PoolSafety(threadMax: nat, workers: set<Worker>, sts: seq<Step>)
    requires |workers| <= threadMax && Legal(Start(threadMax, workers), sts)
    ensures var s := Run(Start(threadMax, workers), sts);
            OnePlace(s) && s.taskTtl == |s.queue| && s.alive == |s.workers| <= threadMax && TasksServed(s)
    ensures NeverLowered(Start(threadMax, workers), sts) ==> WithinMax(Run(Start(threadMax, workers), sts))
  {
    Served(Run(Start(threadMax, workers), sts));
    if NeverLowered(Start(threadMax, workers), sts) {
      RunWithinMax(Start(threadMax, workers), sts);
    }
  }
}
