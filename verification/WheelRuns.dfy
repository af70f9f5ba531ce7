/** Whole runs of the timer: every callback at exactly the times its caller asked for. */
module WheelRuns {
  import opened Arith
  import opened Clock
  import opened Options
  import opened WheelSpec
  import opened DueTimes
  import opened WheelSteps
  import opened WheelFiled
  import opened Sequences

  datatype Op =
    | Pass
    | New(interval: nat, ttl: nat, task: Task, mem: Option<Handle>)
    | Remove(x: Handle)

  /**
   The allocator hands out unused addresses; a deleted timer still hangs on a list, or
   has run out; the clock stays in C `int`.
   */
  ghost predicate Enabled(w: Wheel, op: Op) {
    match op
    case Pass => w.now + 1 < NOW_MAX
    case New(_, _, _, mem) => mem.Some? ==> mem.value !in w.items
    case Remove(x) => RunOut(w, x) || !Free(w, x)
  }

  ghost predicate Ready(w: Wheel) {
    WF(w) && ClockOk(w)
  }

  /** One step; only taken from a ready wheel on which it is enabled. */
  ghost function Step(w: Wheel, op: Op): Wheel {
    if !(Ready(w) && Enabled(w, op)) then w
    else
    match op
    case Pass => Tick(w)
    case New(interval, ttl, task, mem) => Add(w, interval, ttl, task, mem).0
    case Remove(x) => if RunOut(w, x) then Forget(w, x) else var s :| Linked(w, s, x); Delete(w, s, x)
  }

  lemma AddKeeps(w: Wheel, interval: nat, ttl: nat, task: Task, mem: Option<Handle>)
    requires Ready(w) && Enabled(w, New(interval, ttl, task, mem))
    ensures var (r, h) := Add(w, interval, ttl, task, mem);
            WF(r) && r.now == w.now && r.log == w.log &&
            (h.Some? <==> 0 < interval < 20 * 365 * 86_400_000 && task.cb != 0 && mem.Some?) &&
            (h.None? ==> r == w) &&
            (h.Some? ==> h == mem && OthersStay(w, r, h.value) && r.items.Keys == w.items.Keys + {h.value} &&
                         (forall y :: y in w.items ==> r.items[y] == w.items[y]) &&
                         TimerOf(r, h.value) ==
                         On(FirstDue(Item(interval, ttl, 0, 0, 0, 0, 0, task), w.now + interval, w.now),
                                                   interval, ttl, task))
  {
    var (r, h) := Add(w, interval, ttl, task, mem);
    if h.Some? {
      AddedKeeps(w, interval, ttl, task, mem.value);
      var it := Stamped(Item(interval, ttl, 0, 0, 0, 0, 0, task), w.now + interval);
      assert r == Put(w, SlotOf(AddLevel(it), it), mem.value, it);
      assert r.items == w.items[mem.value := it];
    }
  }

  lemma AddedKeeps(w: Wheel, interval: nat, ttl: nat, task: Task, x: Handle)
    requires Ready(w) && x !in w.items && 0 < interval < INTERVAL_MAX
    ensures var it0 := Item(interval, ttl, 0, 0, 0, 0, 0, task);
            var it := Stamped(it0, w.now + interval);
            SlotOf(AddLevel(it), it) in w.lists &&
            var r := Put(w, SlotOf(AddLevel(it), it), x, it);
            WF(r) && OthersStay(w, r, x) && r.items == w.items[x := it] &&
            TimerOf(r, x) == On(FirstDue(it0, w.now + interval, w.now), interval, ttl, task)
  {
    var due := w.now + interval;
    var it := Stamped(Item(interval, ttl, 0, 0, 0, 0, 0, task), due);
    DayFits(due);
    DueAdded(Item(interval, ttl, 0, 0, 0, 0, 0, task), due, w.now);
    assert Free(w, x);
    PutKeeps(w, SlotOf(AddLevel(it), it), x, it);
  }

  lemma DeleteKeeps(w: Wheel, s: Slot, x: Handle)
    requires WF(w) && Linked(w, s, x)
    ensures var r := Delete(w, s, x);
            WF(r) && Free(r, x) && OthersStay(w, r, x) && r.items == w.items - {x} && r.log == w.log && r.now == w.now
  {
    UnlinkKeeps(w, s, x);
    var u, r := Unlink(w, s, x), Delete(w, s, x);
    forall s', y ensures Linked(r, s', y) <==> Linked(u, s', y) {
    }
  }

  lemma ForgetKeeps(w: Wheel, x: Handle)
    requires WF(w) && RunOut(w, x)
    ensures var r := Forget(w, x);
            WF(r) && Free(r, x) && OthersStay(w, r, x) && r.items == w.items - {x} && r.log == w.log && r.now == w.now
  {
    var r := Forget(w, x);
    forall s, y ensures Linked(r, s, y) <==> Linked(w, s, y) {
    }
  }

  lemma {:induction false} RemovedAt(xs: seq<Handle>, x: Handle)
    requires x in xs
    ensures var i := PositionOf(xs, x); i < |xs| && xs[i] == x && Removed(xs, x) == xs[..i] + xs[i + 1..]
  {
    if xs[0] != x {
      RemovedAt(xs[1..], x);
    }
  }

  /** An item just taken off a list leaves its neighbours next to each other. */
  lemma UnlinkLeavesGap(w: Wheel, s: Slot, x: Handle)
    requires Linked(w, s, x)
    ensures var r := Unlink(w, s, x); Adjacent(r, r.gaps[x].before, r.gaps[x].behind)
  {
    var xs, r := w.lists[s], Unlink(w, s, x);
    RemovedAt(xs, x);
    assert NextTo(s, r.lists[s], PositionOf(xs, x), r.gaps[x].before, r.gaps[x].behind);
  }

  /** After its last round a timer can be deleted. */
  lemma RunsOut(w: Wheel, s: Slot, x: Handle)
    requires WF(w) && Linked(w, s, x) && w.items[x].ttl == 1
    ensures RunOut(Fire(w, s, x), x)
  {
    SubmitKeeps(w, s, x);
    var u := w.(log := w.log + [Firing(x, w.items[x].task, w.now)], items := w.items[x := Spent(w.items[x])]);
    assert Linked(u, s, x);
    UnlinkLeavesGap(u, s, x);
  }

  /**
   But not for good: once another timer is hung on the list it was last on, its old
   neighbours are not next to each other any more, and deleting it would put the
   other timer off that list.
   */
  lemma GapFilled(w: Wheel, s: Slot, x: Handle, y: Handle)
    requires WF(w) && RunOut(w, x) && s in w.lists && w.gaps[x].behind == Head(s) && Free(w, y)
    ensures !RunOut(Link(w, s, y), x)
  {
    var a := w.gaps[x].before;
    assert a != Entry(y) by {
      var s', k: nat :| s' in w.lists && k <= |w.lists[s']| && NextTo(s', w.lists[s'], k, a, Head(s));
      assert a == Entry(y) ==> Linked(w, s', y);
    }
  }

  /** A timer deleted, whether it still hangs on a list or has run out. */
  lemma RemoveKeeps(w: Wheel, x: Handle)
    requires Ready(w) && Enabled(w, Remove(x))
    ensures var r := Step(w, Remove(x));
            WF(r) && Free(r, x) && OthersStay(w, r, x) && r.items == w.items - {x} && r.log == w.log && r.now == w.now
  {
    if RunOut(w, x) {
      ForgetKeeps(w, x);
    } else {
      var s :| Linked(w, s, x) && Step(w, Remove(x)) == Delete(w, s, x);
      DeleteKeeps(w, s, x);
    }
  }

  /** Every step keeps the wheel in order. */
  lemma StepReady(w: Wheel, op: Op)
    requires Ready(w) && Enabled(w, op)
    ensures Ready(Step(w, op)) && Step(w, op).now == w.now + if op.Pass? then 1 else 0
  {
    match op {
      case Pass =>
        TickRefines(w, 0);
      case New(interval, ttl, task, mem) =>
        AddKeeps(w, interval, ttl, task, mem);
      case Remove(y) =>
        RemoveKeeps(w, y);
    }
  }

  /** What a step does to the plain timer at `x`: time advances it, and nothing else touches it. */
  ghost predicate Moves(w: Wheel, r: Wheel, op: Op, x: Handle)
    requires WF(w) && WF(r)
  {
    var before := TimerOf(w, x);
    x in r.items &&
    if op.Pass? then
      TimerOf(r, x) == Advance(before, r.now) && FiringsOf(r.log, x) == FiringsOf(w.log, x) + FiresAt(before, x, r.now)
    else
      TimerOf(r, x) == before && FiringsOf(r.log, x) == FiringsOf(w.log, x)
  }

  lemma StepMoves(w: Wheel, op: Op, x: Handle)
    requires Ready(w) && Enabled(w, op) && x in w.items && op != Remove(x)
    ensures Ready(Step(w, op)) && Moves(w, Step(w, op), op, x)
  {
    var r := Step(w, op);
    StepReady(w, op);
    match op {
      case Pass =>
        TickRefines(w, x);
        TickKeepsItems(w);
      case New(interval, ttl, task, mem) =>
        AddKeeps(w, interval, ttl, task, mem);
        UntouchedTimer(w, r, x);
      case Remove(y) =>
        RemoveKeeps(w, y);
        UntouchedTimer(w, r, x);
    }
  }

  lemma TickKeepsItems(w: Wheel)
    requires WF(w)
    ensures Tick(w).items.Keys == w.items.Keys
  {
  }

  ghost predicate Legal(w: Wheel, ops: seq<Op>)
    decreases |ops|
  {
    ops == [] || (Enabled(w, ops[0]) && Legal(Step(w, ops[0]), ops[1..]))
  }

  ghost function Run(w: Wheel, ops: seq<Op>): Wheel
    decreases |ops|
  {
    if ops == [] then w else Run(Step(w, ops[0]), ops[1..])
  }

  /** All that a plain timer does up to time `upto`. */
  function Schedule(tm: Timer, x: Handle, upto: nat): seq<Firing>
    requires tm.On? ==> tm.interval > 0
    decreases if tm.On? && tm.due.Some? then upto - tm.due.value else -1
  {
    if tm.Off? || tm.due.None? || tm.due.value > upto then []
    else [Firing(x, tm.task, tm.due.value)] + Schedule(Advance(tm, tm.due.value), x, upto)
  }

  /** Live timers have a positive interval and are due in the future. */
  lemma TimerAhead(w: Wheel, x: Handle)
    requires WF(w)
    ensures TimerOf(w, x).On? ==> TimerOf(w, x).interval > 0
    ensures TimerOf(w, x).On? && TimerOf(w, x).due.Some? ==> TimerOf(w, x).due.value > w.now
  {
  }

  lemma ScheduleStep(tm: Timer, x: Handle, t: nat, upto: nat)
    requires tm.On? ==> tm.interval > 0
    requires tm.On? && tm.due.Some? ==> tm.due.value >= t
    requires t <= upto
    ensures Schedule(tm, x, upto) == FiresAt(tm, x, t) + Schedule(Advance(tm, t), x, upto)
  {
  }

  /**
   Over any run of ticks, additions and deletions of other timers, a timer fires
   exactly when its plain timer says: never early, late, twice or not at all,
   whatever else shares its slots.
   */
  lemma {:induction false} FiresOnSchedule(w: Wheel, ops: seq<Op>, x: Handle)
    requires Ready(w) && Legal(w, ops) && x in w.items && Remove(x) !in ops
    ensures TimerOf(w, x).On? ==> TimerOf(w, x).interval > 0
    ensures var r := Run(w, ops);
            Ready(r) && w.now <= r.now &&
            FiringsOf(r.log, x) == FiringsOf(w.log, x) + Schedule(TimerOf(w, x), x, r.now)
    decreases |ops|
  {
    TimerAhead(w, x);
    if ops != [] {
      var op := ops[0];
      var w1, r := Step(w, op), Run(w, ops);
      StepReady(w, op);
      StepMoves(w, op, x);
      FiresOnSchedule(w1, ops[1..], x);
      Compose(TimerOf(w, x), TimerOf(w1, x), FiringsOf(w.log, x), FiringsOf(w1.log, x), FiringsOf(r.log, x),
              op.Pass?, w1.now, r.now, x);
    }
  }

  /** The firings of a step and of the rest of the run make up the schedule. */
  lemma Compose(tm: Timer, tm1: Timer, f: seq<Firing>, f1: seq<Firing>, fr: seq<Firing>, pass: bool, t: nat,
                upto: nat, x: Handle)
    requires (tm.On? ==> tm.interval > 0) && (tm1.On? ==> tm1.interval > 0)
    requires pass && tm.On? && tm.due.Some? ==> tm.due.value >= t
    requires t <= upto
    requires tm1 == if pass then Advance(tm, t) else tm
    requires f1 == if pass then f + FiresAt(tm, x, t) else f
    requires fr == f1 + Schedule(tm1, x, upto)
    ensures fr == f + Schedule(tm, x, upto)
  {
    if pass {
      ScheduleStep(tm, x, t, upto);
      Regroup(f, FiresAt(tm, x, t), Schedule(tm1, x, upto));
    }
  }

  // ---------------------------------------------------------------- the schedule in closed form

  /** How often a timer first due at `due` has fired by time `upto`. */
  function Rounds(due: nat, interval: nat, ttl: nat, upto: nat): nat
    requires interval > 0
  {
    if due > upto then 0
    else
      var n := (upto - due) / interval + 1;
      if ttl == 0 || n <= ttl then n else ttl
  }

  lemma RoundsStep(due: nat, interval: nat, ttl: nat, upto: nat)
    requires interval > 0 && due <= upto
    ensures Rounds(due, interval, ttl, upto) ==
            1 + if ttl == 1 then 0 else Rounds(due + interval, interval, if ttl == 0 then 0 else ttl - 1, upto)
  {
    if due + interval <= upto {
      DivMul(upto - due, interval);
      DivLess(upto - due, interval);
    }
  }

  /** The firings of a timer are its deadline and every interval after it, `ttl` times or, for 0, for ever. */
  lemma {:induction false} ScheduleIs(due: nat, interval: nat, ttl: nat, task: Task, x: Handle, upto: nat)
    requires interval > 0
    ensures Schedule(On(Some(due), interval, ttl, task), x, upto)
            == seq(Rounds(due, interval, ttl, upto), (i: nat) => Firing(x, task, due + i * interval))
    decreases if due > upto then 0 else upto - due + 1
  {
    var tm := On(Some(due), interval, ttl, task);
    if due <= upto {
      RoundsStep(due, interval, ttl, upto);
      var n := Rounds(due, interval, ttl, upto);
      var ttl' := if ttl == 0 then 0 else ttl - 1;
      if ttl != 1 {
        ScheduleIs(due + interval, interval, ttl', task, x, upto);
      }
      var rest := Schedule(Advance(tm, due), x, upto);
      assert |rest| == n - 1;
      forall i | 0 <= i < n - 1 ensures rest[i] == Firing(x, task, due + (i + 1) * interval) {
        Later(due, i, interval);
      }
    }
  }

  /**
   A timer added at time T with interval I and ttl k: by the end of any run that
   does not delete it, it has fired at T+I, T+2I, and so on, k times or for ever,
   unless its first deadline clashed, which puts every firing off by one
   revolution of the wheel it hangs on, or, by day, off the clock.
   */
  lemma AddedFires(w: Wheel, interval: nat, ttl: nat, task: Task, x: Handle, ops: seq<Op>)
    requires Ready(w) && x !in w.items && 0 < interval < INTERVAL_MAX && task.cb != 0
    requires Legal(w, [New(interval, ttl, task, Some(x))] + ops) && Remove(x) !in ops
    ensures var r := Run(w, [New(interval, ttl, task, Some(x))] + ops);
            FiringsOf(r.log, x) == FiringsOf(w.log, x) +
              match FirstDue(Item(interval, ttl, 0, 0, 0, 0, 0, task), w.now + interval, w.now)
              case None => []
              case Some(due) => seq(Rounds(due, interval, ttl, r.now), (i: nat) => Firing(x, task, due + i * interval))
  {
    var op := New(interval, ttl, task, Some(x));
    var w1, all := Step(w, op), [op] + ops;
    assert all[1..] == ops;
    AddKeeps(w, interval, ttl, task, Some(x));
    FiresOnSchedule(w1, ops, x);
    var first := FirstDue(Item(interval, ttl, 0, 0, 0, 0, 0, task), w.now + interval, w.now);
    if first.Some? {
      ScheduleIs(first.value, interval, ttl, task, x, Run(w1, ops).now);
    }
  }

  /** The clock may run as long as it stays in C `int`. */
  lemma {:induction false} ClockRuns(w: Wheel, n: nat)
    requires Ready(w) && w.now + n < 0x8000_0000
    ensures Legal(w, seq(n, _ => Pass)) && Run(w, seq(n, _ => Pass)).now == w.now + n
    decreases n
  {
    var ops := seq(n, _ => Pass);
    if n > 0 {
      StepReady(w, Pass);
      assert ops[1..] == seq(n - 1, _ => Pass);
      ClockRuns(Step(w, Pass), n - 1);
    }
  }

  lemma NoClashAtZero(it: Item, due: nat)
    requires 1 <= it.interval < INTERVAL_MAX && due == it.interval
    ensures FirstDue(it, due, 0) == Some(due)
  {
    DayFits(due);
    AddLevelIs(it, due);
  }

  lemma FirstRounds(w: Wheel, w1: Wheel, interval: nat, ttl: nat, task: Task, x: Handle)
    requires Ready(w) && w.now == 0 && x !in w.items && 0 < interval < INTERVAL_MAX && task.cb != 0
    requires w1 == Step(w, New(interval, ttl, task, Some(x)))
    ensures Ready(w1) && w1.now == 0 && x in w1.items && w1.log == w.log
    ensures TimerOf(w1, x) == On(Some(interval), interval, ttl, task)
  {
    StepReady(w, New(interval, ttl, task, Some(x)));
    AddKeeps(w, interval, ttl, task, Some(x));
    NoClashAtZero(Item(interval, ttl, 0, 0, 0, 0, 0, task), interval);
  }

  /** Firings at each multiple of an interval up to a time, or as many as there are rounds. */
  function Multiples(interval: nat, ttl: nat, task: Task, x: Handle, n: nat): seq<Firing>
    requires interval > 0
  {
    var k: nat := n / interval;
    seq(if ttl == 0 || k <= ttl then k else ttl, (i: nat) => Firing(x, task, (i + 1) * interval))
  }

  /**
   A timer added at time 0: after n ticks with nothing else done it has fired at each
   multiple of its interval up to n, or as often as it has rounds.
   */
  lemma OnTimeFromZero(w: Wheel, w1: Wheel, interval: nat, ttl: nat, task: Task, x: Handle, n: nat)
    requires Ready(w) && w.now == 0 && x !in w.items && 0 < interval < INTERVAL_MAX && task.cb != 0 && n < 0x8000_0000
    requires w1 == Step(w, New(interval, ttl, task, Some(x)))
    ensures var r := Run(w1, seq(n, _ => Pass));
            Legal(w1, seq(n, _ => Pass)) && r.now == n &&
            FiringsOf(r.log, x) == FiringsOf(w.log, x) + Multiples(interval, ttl, task, x, n)
  {
    FirstRounds(w, w1, interval, ttl, task, x);
    ClockRuns(w1, n);
    FiresOnSchedule(w1, seq(n, _ => Pass), x);
    ScheduleIs(interval, interval, ttl, task, x, n);
    RoundsFromZero(interval, ttl, n);
    MultiplesAre(interval, task, x, Rounds(interval, interval, ttl, n));
  }

  lemma MultiplesAre(interval: nat, task: Task, x: Handle, k: nat)
    ensures seq(k, (i: nat) => Firing(x, task, interval + i * interval)) ==
            seq(k, (i: nat) => Firing(x, task, (i + 1) * interval))
  {
    forall i: nat | i < k ensures interval + i * interval == (i + 1) * interval {
      Later(0, i, interval);
    }
  }

  lemma RoundsFromZero(interval: nat, ttl: nat, n: nat)
    requires interval > 0
    ensures Rounds(interval, interval, ttl, n) == if ttl == 0 || n / interval <= ttl then n / interval else ttl
  {
    if interval <= n {
      DivMul(n, interval);
      DivLess(n, interval);
    }
  }

  // ---------------------------------------------------------------- where timers hang, over runs

  /** No timer is added at a clashing deadline. */
  ghost predicate Clean(w: Wheel, op: Op) {
    op.New? ==> !Clash(Item(op.interval, op.ttl, 0, 0, 0, 0, 0, op.task), w.now + op.interval, w.now)
  }

  /**
   As long as additions do not clash, every timer on the wheel hangs at the
   highest digit in which its deadline differs from the clock.
   */
  lemma StepFiled(w: Wheel, op: Op)
    requires Ready(w) && Enabled(w, op) && Clean(w, op)
    requires forall x :: Filed(w, x)
    ensures forall x :: Filed(Step(w, op), x)
  {
    var r := Step(w, op);
    forall x ensures Filed(r, x) {
      match op {
        case Pass => TickFiled(w, x);
        case New(interval, ttl, task, mem) => AddFiled(w, interval, ttl, task, mem, x);
        case Remove(y) =>
          RemoveKeeps(w, y);
          assert Filed(w, x);
      }
    }
  }

  /** Every addition of a run is at a deadline that does not clash when it is made. */
  ghost predicate CleanRun(w: Wheel, ops: seq<Op>)
    decreases |ops|
  {
    ops == [] || (Clean(w, ops[0]) && CleanRun(Step(w, ops[0]), ops[1..]))
  }

  /**
   Over a whole run from an empty wheel: the wheel is in order, slot 0 of the four
   lower wheels is empty, and every timer hangs in one place only, at the highest
   digit in which its deadline, still ahead, differs from the clock.
   */
  lemma RunFiled(w: Wheel, ops: seq<Op>)
    requires Ready(w) && (forall s :: s in w.lists ==> w.lists[s] == []) && Legal(w, ops) && CleanRun(w, ops)
    ensures var r := Run(w, ops); Ready(r) && forall x :: Filed(r, x)
    ensures forall s, x :: Linked(Run(w, ops), s, x) && s.level < DAY ==> s.idx != 0
  {
    FiledOn(w, ops);
  }

  lemma {:induction false} FiledOn(w: Wheel, ops: seq<Op>)
    requires Ready(w) && (forall x :: Filed(w, x)) && Legal(w, ops) && CleanRun(w, ops)
    ensures Ready(Run(w, ops)) && forall x :: Filed(Run(w, ops), x)
    decreases |ops|
  {
    if ops != [] {
      StepReady(w, ops[0]);
      StepFiled(w, ops[0]);
      FiledOn(Step(w, ops[0]), ops[1..]);
    }
  }

  lemma NewFiledAt(it0: Item, now: nat)
    requires 0 < it0.interval < INTERVAL_MAX && now < NOW_MAX && !Clash(it0, now + it0.interval, now)
    ensures var it := Stamped(it0, now + it0.interval); FiledAt(SlotOf(AddLevel(it), it), it, now)
  {
    DayFits(now + it0.interval);
    AddIsHighest(it0, now + it0.interval, now);
    StampStamped(it0, now + it0.interval);
  }

  lemma AddedFiled(w: Wheel, interval: nat, ttl: nat, task: Task, x: Handle)
    requires Ready(w) && x !in w.items && 0 < interval < INTERVAL_MAX
    requires !Clash(Item(interval, ttl, 0, 0, 0, 0, 0, task), w.now + interval, w.now)
    ensures var it := Stamped(Item(interval, ttl, 0, 0, 0, 0, 0, task), w.now + interval);
            SlotOf(AddLevel(it), it) in w.lists && Filed(Put(w, SlotOf(AddLevel(it), it), x, it), x)
  {
    var it0 := Item(interval, ttl, 0, 0, 0, 0, 0, task);
    var it := Stamped(it0, w.now + interval);
    AddedKeeps(w, interval, ttl, task, x);
    NewFiledAt(it0, w.now);
    FiledHere(Put(w, SlotOf(AddLevel(it), it), x, it), SlotOf(AddLevel(it), it), x);
  }

  lemma AddFiled(w: Wheel, interval: nat, ttl: nat, task: Task, mem: Option<Handle>, x: Handle)
    requires Ready(w) && Enabled(w, New(interval, ttl, task, mem)) && Clean(w, New(interval, ttl, task, mem))
    requires Filed(w, x)
    ensures Filed(Add(w, interval, ttl, task, mem).0, x)
  {
    var (r, h) := Add(w, interval, ttl, task, mem);
    if h == Some(x) {
      AddedFiled(w, interval, ttl, task, x);
    } else if h.Some? {
      AddedKeeps(w, interval, ttl, task, h.value);
      AddedElsewhere(w, r, h.value, x);
    }
  }

  lemma AddedElsewhere(w: Wheel, r: Wheel, y: Handle, x: Handle)
    requires WF(w) && OthersStay(w, r, y) && x != y && r.now == w.now
    requires (forall z :: z in w.items ==> z in r.items && r.items[z] == w.items[z])
    requires Filed(w, x)
    ensures Filed(r, x)
  {
  }
}
