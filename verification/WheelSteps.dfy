/**
 Each step of the timing wheel against a plain timer: a deadline, an interval and
 a number of rounds left.
 */
module WheelSteps {
  import opened Clock
  import opened Options
  import opened WheelSpec
  import opened DueTimes
  import opened Sequences

  // ---------------------------------------------------------------- list surgery

  lemma {:induction false} RemovedIs(xs: seq<Handle>, x: Handle)
    requires NoDup(xs)
    ensures NoDup(Removed(xs, x))
    ensures forall y :: y in Removed(xs, x) <==> y in xs && y != x
  {
    if xs != [] && xs[0] != x {
      var rest := xs[1..];
      assert xs == [xs[0]] + rest;
      RemovedIs(rest, x);
      assert xs[0] !in rest;
    }
  }

  /** The two wheels hold every timer but `x` in the same places. */
  ghost predicate OthersStay(w: Wheel, w': Wheel, x: Handle) {
    forall s, y :: y != x ==> (Linked(w, s, y) <==> Linked(w', s, y))
  }

  lemma UnlinkKeeps(w: Wheel, s: Slot, x: Handle)
    requires WF(w) && Linked(w, s, x)
    ensures WF(Unlink(w, s, x)) && Free(Unlink(w, s, x), x) && OthersStay(w, Unlink(w, s, x), x)
  {
    var r := Unlink(w, s, x);
    RemovedIs(w.lists[s], x);
    forall s', y ensures Linked(r, s', y) <==> Linked(w, s', y) && y != x {
    }
  }

  lemma LinkKeeps(w: Wheel, s: Slot, x: Handle)
    requires WF(w) && Free(w, x) && x in w.items && Fits(s, w.items[x])
    ensures WF(Link(w, s, x)) && Linked(Link(w, s, x), s, x) && OthersStay(w, Link(w, s, x), x)
  {
    var r := Link(w, s, x);
    assert !Linked(w, s, x);
    forall s', y ensures Linked(r, s', y) <==> Linked(w, s', y) || (s' == s && y == x) {
    }
    forall s' | s' in r.lists ensures NoDup(r.lists[s']) {
      assert NoDup(w.lists[s']);
    }
  }

  lemma SetItemKeeps(w: Wheel, x: Handle, it: Item)
    requires WF(w) && InRange(it)
    requires forall s :: Linked(w, s, x) ==> Fits(s, it)
    ensures WF(w.(items := w.items[x := it]))
    ensures forall s, y :: Linked(w.(items := w.items[x := it]), s, y) <==> Linked(w, s, y)
  {
    var r := w.(items := w.items[x := it]);
    forall s, y ensures Linked(r, s, y) <==> Linked(w, s, y) {
    }
  }

  lemma SetLogKeeps(w: Wheel, log: seq<Firing>)
    requires WF(w)
    ensures WF(w.(log := log))
    ensures forall s, y :: Linked(w.(log := log), s, y) <==> Linked(w, s, y)
  {
    var r := w.(log := log);
    forall s, y ensures Linked(r, s, y) <==> Linked(w, s, y) {
    }
  }

  lemma SetNowKeeps(w: Wheel, now: nat)
    requires WF(w)
    ensures WF(w.(now := now))
    ensures forall s, y :: Linked(w.(now := now), s, y) <==> Linked(w, s, y)
  {
    var r := w.(now := now);
    forall s, y ensures Linked(r, s, y) <==> Linked(w, s, y) {
    }
  }

  // ---------------------------------------------------------------- plain timers

  /** A timer as a caller thinks of it. */
  datatype Timer = Off | On(due: Option<nat>, interval: nat, ttl: nat, task: Task)

  /** What time `t` does to a timer: at its deadline it fires, and starts over unless this was its last round. */
  function Advance(tm: Timer, t: nat): Timer {
    if tm.Off? || tm.due != Some(t) then tm
    else if tm.ttl == 1 then Off
    else tm.(due := Some(t + tm.interval), ttl := if tm.ttl == 0 then 0 else tm.ttl - 1)
  }

  function FiresAt(tm: Timer, x: Handle, t: nat): seq<Firing> {
    if tm.On? && tm.due == Some(t) then [Firing(x, tm.task, t)] else []
  }

  function TimerAt(w: Wheel, s: Slot, x: Handle): Timer
    requires x in w.items && InRange(w.items[x])
  {
    var it := w.items[x];
    On(DueAt(s.level, it, w.now), it.interval, it.ttl, it.task)
  }

  /** The plain timer that an address stands for. */
  ghost function TimerOf(w: Wheel, x: Handle): Timer
    requires WF(w)
  {
    if s :| Linked(w, s, x) then TimerAt(w, s, x) else Off
  }

  lemma TimerOfLinked(w: Wheel, s: Slot, x: Handle)
    requires WF(w) && Linked(w, s, x)
    ensures TimerOf(w, x) == TimerAt(w, s, x)
  {
  }

  function FiringsOf(log: seq<Firing>, x: Handle): seq<Firing> {
    if log == [] then []
    else FiringsOf(log[..|log| - 1], x) + if log[|log| - 1].handle == x then [log[|log| - 1]] else []
  }

  lemma FiringsOfSnoc(log: seq<Firing>, f: Firing, x: Handle)
    ensures FiringsOf(log + [f], x) == FiringsOf(log, x) + if f.handle == x then [f] else []
  {
  }

  // ---------------------------------------------------------------- one visit

  /** The clock, its C `int` sum and the 16-bit day stay in bounds. */
  predicate ClockOk(w: Wheel) { w.now < NOW_MAX }

  lemma DayFits(due: nat)
    requires due < NOW_MAX + INTERVAL_MAX
    ensures due / Unit(DAY) < 0x1_0000
  {
  }

  lemma PutKeeps(w: Wheel, s: Slot, x: Handle, it: Item)
    requires WF(w) && Free(w, x) && InRange(it) && Fits(s, it)
    ensures var r := Put(w, s, x, it);
            WF(r) && OthersStay(w, r, x) && Linked(r, s, x) && r.items == w.items[x := it] &&
            TimerOf(r, x) == TimerAt(r, s, x)
  {
    SetItemKeeps(w, x, it);
    var stored := w.(items := w.items[x := it]);
    forall s' ensures !Linked(stored, s', x) {
      assert !Linked(w, s', x);
    }
    LinkKeeps(stored, s, x);
    TimerOfLinked(Put(w, s, x, it), s, x);
  }

  lemma RefilePuts(w: Wheel, x: Handle, it: Item, s: Slot)
    requires Shape(w) && x in w.items && it == Stamped(w.items[x], w.now + w.items[x].interval)
    requires s == SlotOf(RefileLevel(it, w.now), it)
    ensures s in w.lists && Refile(w, x) == Put(w, s, x, it)
  {
  }

  lemma RefileKeeps(w: Wheel, x: Handle)
    requires WF(w) && ClockOk(w) && Free(w, x) && x in w.items
    ensures var r := Refile(w, x);
            WF(r) && OthersStay(w, r, x) && r.items == w.items[x := r.items[x]] && r.log == w.log &&
            TimerOf(r, x) == On(Some(w.now + w.items[x].interval), w.items[x].interval, w.items[x].ttl, w.items[x].task)
    ensures var r := Refile(w, x); Linked(r, SlotOf(RefileLevel(r.items[x], w.now), r.items[x]), x)
    ensures Refile(w, x).items[x] == Stamped(w.items[x], w.now + w.items[x].interval)
  {
    var due := w.now + w.items[x].interval;
    var it := Stamped(w.items[x], due);
    DayFits(due);
    var s := SlotOf(RefileLevel(it, w.now), it);
    DueRefiled(w.items[x], due, w.now);
    RefilePuts(w, x, it, s);
    PutKeeps(w, s, x, it);
  }

  lemma SubmitKeeps(w: Wheel, s: Slot, x: Handle)
    requires WF(w) && Linked(w, s, x)
    ensures var r, it := Submit(w, s, x), w.items[x];
            WF(r) && OthersStay(w, r, x) && Free(r, x) && r.items == w.items[x := Spent(it)] &&
            r.log == w.log + [Firing(x, it.task, w.now)]
  {
    var it := w.items[x];
    var log := w.log + [Firing(x, it.task, w.now)];
    var fired := w.(log := log);
    var counted := fired.(items := w.items[x := Spent(it)]);
    SetLogKeeps(w, log);
    forall s' | Linked(fired, s', x) ensures Fits(s', Spent(it)) {
      assert Fits(s', it);
    }
    SetItemKeeps(fired, x, Spent(it));
    assert Linked(counted, s, x);
    UnlinkKeeps(counted, s, x);
    var r := Submit(w, s, x);
    assert r == Unlink(counted, s, x);
    forall s', y | y != x ensures Linked(w, s', y) <==> Linked(r, s', y) {
      assert Linked(counted, s', y) <==> Linked(r, s', y);
    }
  }

  lemma FiredAgain(w: Wheel, u: Wheel, x: Handle, it: Item)
    requires WF(u) && ClockOk(u) && Free(u, x) && OthersStay(w, u, x) && it.ttl != 1
    requires u.items == w.items[x := Spent(it)] && u.now == w.now
    ensures var r := Refile(u, x);
            WF(r) && OthersStay(w, r, x) && r.items == w.items[x := r.items[x]] && r.log == u.log &&
            TimerOf(r, x) == Advance(On(Some(w.now), it.interval, it.ttl, it.task), w.now)
  {
    RefileKeeps(u, x);
  }

  lemma FireKeeps(w: Wheel, s: Slot, x: Handle)
    requires WF(w) && ClockOk(w) && Linked(w, s, x)
    ensures var r, it := Fire(w, s, x), w.items[x];
            WF(r) && OthersStay(w, r, x) && r.items == w.items[x := r.items[x]] &&
            r.log == w.log + [Firing(x, it.task, w.now)] &&
            TimerOf(r, x) == Advance(On(Some(w.now), it.interval, it.ttl, it.task), w.now)
  {
    SubmitKeeps(w, s, x);
    if w.items[x].ttl != 1 {
      FiredAgain(w, Submit(w, s, x), x, w.items[x]);
    }
  }

  lemma CascadeKeeps(w: Wheel, s: Slot, x: Handle)
    requires WF(w) && Linked(w, s, x) && CascadeLevel(s.level, w.items[x]).Some?
    requires w.now % Unit(s.level) == 0
    ensures var it := w.items[x];
            var l := CascadeLevel(s.level, it).value;
            var r := Link(Unlink(w, s, x), SlotOf(l, it), x);
            WF(r) && OthersStay(w, r, x) && r.items == w.items && r.log == w.log && Linked(r, SlotOf(l, it), x) &&
            TimerOf(r, x) == On(Some(w.now + Below(it, s.level)), it.interval, it.ttl, it.task)
  {
    var it := w.items[x];
    var l := CascadeLevel(s.level, it).value;
    UnlinkKeeps(w, s, x);
    LinkKeeps(Unlink(w, s, x), SlotOf(l, it), x);
    DueCascade(s.level, it, w.now);
    TimerOfLinked(Link(Unlink(w, s, x), SlotOf(l, it), x), SlotOf(l, it), x);
  }

  /** Whether the wheel of an item has just arrived at the item's slot. */
  predicate Reached(s: Slot, it: Item, t: nat) {
    t % Unit(s.level) == 0 && Digit(s.level, t) == ItemDigit(it, s.level)
  }

  /** The plain timer before and after the clock moves, by where its item hangs. */
  lemma DueOverTick(w: Wheel, s: Slot, x: Handle)
    requires WF(w) && Linked(w, s, x)
    ensures var it, t := w.items[x], w.now + 1;
            if Reached(s, it, t) then DueAt(s.level, it, w.now) == Some(t + Below(it, s.level))
            else DueAt(s.level, it, t) == DueAt(s.level, it, w.now) && DueAt(s.level, it, w.now) != Some(t)
  {
    var it := w.items[x];
    if s.level == DAY {
      DueDay(it, w.now);
    } else if Reached(s, it, w.now + 1) {
      DueArrived(s.level, it, w.now);
    } else {
      DuePassive(s.level, it, w.now);
    }
  }

  /** The same wheel one millisecond ago. */
  ghost function Ago(w: Wheel): Wheel
    requires w.now > 0
  {
    w.(now := w.now - 1)
  }

  lemma AgoKeeps(w: Wheel)
    requires WF(w) && w.now > 0
    ensures WF(Ago(w)) && forall s, y :: Linked(Ago(w), s, y) <==> Linked(w, s, y)
  {
    SetNowKeeps(w, w.now - 1);
  }

  /** What a visit reports of the timer it visits. */
  ghost predicate VisitedWell(w: Wheel, r: Wheel, x: Handle, before: Timer) {
    WF(r) && OthersStay(w, r, x) && x in r.items && r.items == w.items[x := r.items[x]] && r.now == w.now &&
    r.log == w.log + FiresAt(before, x, w.now) &&
    TimerOf(r, x) == Advance(before, w.now)
  }

  /** An item of the day list whose day has not come. */
  predicate Waits(s: Slot, it: Item, t: nat) {
    s.level == DAY && it.d != Digit(DAY, t)
  }

  lemma ArrivedReached(s: Slot, it: Item, t: nat)
    requires Fits(s, it) && s == ArrivalSlot(t)
    ensures Reached(s, it, t) <==> !Waits(s, it, t)
    ensures t % Unit(s.level) == 0
  {
  }

  /** The plain timer of an item that is about to be visited, as it was before the clock moved. */
  lemma BeforeVisit(w: Wheel, s: Slot, x: Handle)
    requires WF(w) && w.now > 0 && Linked(w, s, x) && s == ArrivalSlot(w.now)
    ensures WF(Ago(w)) && w.now % Unit(s.level) == 0
    ensures var it, before := w.items[x], TimerOf(Ago(w), x);
            if Waits(s, it, w.now) then before == TimerAt(w, s, x) && before.due != Some(w.now)
            else before == On(Some(w.now + Below(it, s.level)), it.interval, it.ttl, it.task)
  {
    AgoKeeps(w);
    assert Linked(Ago(w), s, x);
    TimerOfLinked(Ago(w), s, x);
    ArrivedReached(s, w.items[x], w.now);
    DueOverTick(Ago(w), s, x);
  }

  /** One visit does to the item's plain timer what the new time does to it. */
  lemma VisitKeeps(w: Wheel, s: Slot, x: Handle)
    requires WF(w) && w.now > 0 && ClockOk(w) && Linked(w, s, x) && s == ArrivalSlot(w.now)
    ensures WF(Ago(w)) && VisitedWell(w, Visit(w, s, x), x, TimerOf(Ago(w), x))
  {
    var it := w.items[x];
    BeforeVisit(w, s, x);
    if Waits(s, it, w.now) {
      TimerOfLinked(w, s, x);
      assert w.items == w.items[x := it];
    } else if CascadeLevel(s.level, it).Some? {
      CascadeKeeps(w, s, x);
      CascadePositive(s.level, it);
    } else {
      BelowSkips(s.level, it);
      FireKeeps(w, s, x);
    }
  }

  lemma CascadePositive(l: Level, it: Item)
    requires CascadeLevel(l, it).Some?
    ensures Below(it, l) > 0
  {
  }

  // ---------------------------------------------------------------- walks

  /** Nothing about `x` changed. */
  ghost predicate Untouched(w: Wheel, r: Wheel, x: Handle) {
    (forall s :: Linked(w, s, x) <==> Linked(r, s, x)) && r.now == w.now &&
    (x in w.items <==> x in r.items) && (x in w.items ==> w.items[x] == r.items[x]) &&
    FiringsOf(r.log, x) == FiringsOf(w.log, x)
  }

  lemma UntouchedTimer(w: Wheel, r: Wheel, x: Handle)
    requires WF(w) && WF(r) && Untouched(w, r, x)
    ensures TimerOf(r, x) == TimerOf(w, x)
  {
  }

  lemma UntouchedAgo(w: Wheel, r: Wheel, x: Handle)
    requires WF(w) && WF(r) && w.now > 0 && Untouched(w, r, x)
    ensures WF(Ago(w)) && WF(Ago(r)) && Untouched(Ago(w), Ago(r), x)
  {
    AgoKeeps(w);
    AgoKeeps(r);
    forall s ensures Linked(Ago(w), s, x) <==> Linked(Ago(r), s, x) {
      assert Linked(Ago(w), s, x) <==> Linked(w, s, x);
      assert Linked(Ago(r), s, x) <==> Linked(r, s, x);
    }
  }

  lemma LogStep(log: seq<Firing>, tm: Timer, x: Handle, t: nat, y: Handle)
    ensures FiringsOf(log + FiresAt(tm, x, t), y) == FiringsOf(log, y) + if y == x then FiresAt(tm, x, t) else []
  {
    if FiresAt(tm, x, t) != [] {
      FiringsOfSnoc(log, FiresAt(tm, x, t)[0], y);
    } else {
      assert log + [] == log;
    }
  }

  lemma VisitOther(w: Wheel, s: Slot, y: Handle, x: Handle)
    requires WF(w) && w.now > 0 && ClockOk(w) && Linked(w, s, y) && s == ArrivalSlot(w.now) && x != y
    ensures WF(Visit(w, s, y)) && Untouched(w, Visit(w, s, y), x)
  {
    VisitKeeps(w, s, y);
    LogStep(w.log, TimerOf(Ago(w), y), y, w.now, x);
  }

  ghost predicate CanWalk(w: Wheel, s: Slot, todo: seq<Handle>) {
    WF(w) && w.now > 0 && ClockOk(w) && s == ArrivalSlot(w.now) && NoDup(todo) &&
    forall x :: x in todo ==> Linked(w, s, x)
  }

  lemma WalkOn(w: Wheel, s: Slot, todo: seq<Handle>)
    requires CanWalk(w, s, todo) && todo != []
    ensures todo[0] in w.items && todo[0] !in todo[1..]
    ensures CanWalk(Visit(w, s, todo[0]), s, todo[1..])
  {
    VisitKeeps(w, s, todo[0]);
    assert Linked(w, s, todo[0]);
    var r := Visit(w, s, todo[0]);
    forall x | x in todo[1..] ensures Linked(r, s, x) {
      assert Linked(w, s, x);
    }
  }

  lemma {:induction false} WalkOther(w: Wheel, s: Slot, todo: seq<Handle>, x: Handle)
    requires CanWalk(w, s, todo) && x !in todo
    ensures WF(Walk(w, s, todo)) && Untouched(w, Walk(w, s, todo), x)
    decreases |todo|
  {
    if todo != [] {
      assert Linked(w, s, todo[0]);
      WalkOn(w, s, todo);
      VisitOther(w, s, todo[0], x);
      WalkOther(Visit(w, s, todo[0]), s, todo[1..], x);
    }
  }

  lemma {:induction false} WalkSelf(w: Wheel, s: Slot, todo: seq<Handle>, x: Handle)
    requires CanWalk(w, s, todo) && x in todo
    ensures WF(Ago(w)) && WF(Walk(w, s, todo))
    ensures var before := TimerOf(Ago(w), x);
            TimerOf(Walk(w, s, todo), x) == Advance(before, w.now) &&
            FiringsOf(Walk(w, s, todo).log, x) == FiringsOf(w.log, x) + FiresAt(before, x, w.now)
    decreases |todo|
  {
    var y := todo[0];
    assert Linked(w, s, y);
    AgoKeeps(w);
    WalkOn(w, s, todo);
    var r := Visit(w, s, y);
    if x == y {
      VisitKeeps(w, s, x);
      LogStep(w.log, TimerOf(Ago(w), x), x, w.now, x);
      WalkOther(r, s, todo[1..], x);
      UntouchedTimer(r, Walk(r, s, todo[1..]), x);
    } else {
      VisitOther(w, s, y, x);
      UntouchedAgo(w, r, x);
      UntouchedTimer(Ago(w), Ago(r), x);
      assert x in todo[1..];
      WalkSelf(r, s, todo[1..], x);
    }
  }

  // ---------------------------------------------------------------- ticks

  /** An item whose list is not the one emptied at time `t` has not been reached. */
  lemma NotReached(s: Slot, it: Item, t: nat)
    requires Fits(s, it) && s != ArrivalSlot(t)
    ensures !Reached(s, it, t)
  {
    if t % Unit(s.level) == 0 {
      if s.level < Top(t) {
        CoarseImpliesFine(s.level, Top(t), t);
      } else if s.level > Top(t) {
        CoarseImpliesFine(Top(t) + 1, s.level, t);
      }
    }
  }

  /** The clock alone does nothing to a timer that is not on the list emptied. */
  lemma IdleTimer(w: Wheel, x: Handle)
    requires WF(w) && !Linked(w, ArrivalSlot(w.now + 1), x)
    ensures WF(w.(now := w.now + 1)) && TimerOf(w.(now := w.now + 1), x) == TimerOf(w, x)
    ensures TimerOf(w, x).Off? || TimerOf(w, x).due != Some(w.now + 1)
  {
    var w1 := w.(now := w.now + 1);
    SetNowKeeps(w, w.now + 1);
    if s :| Linked(w, s, x) {
      NotReached(s, w.items[x], w.now + 1);
      DueOverTick(w, s, x);
      TimerOfLinked(w, s, x);
      assert Linked(w1, s, x);
      TimerOfLinked(w1, s, x);
    }
  }

  lemma ListedItems(w: Wheel, s: Slot)
    requires WF(w) && s in w.lists
    ensures forall z :: z in w.lists[s] ==> z in w.items
  {
    forall z | z in w.lists[s] ensures z in w.items {
      assert Linked(w, s, z);
    }
  }

  lemma TickStarts(w: Wheel, w1: Wheel, s: Slot)
    requires WF(w) && w1 == w.(now := w.now + 1) && ValidSlot(s)
    ensures s in w.lists && Shape(w1) && w1.lists == w.lists && forall z :: z in w.lists[s] ==> z in w1.items
  {
    ListedItems(w, s);
  }

  lemma TickIs(w: Wheel, w1: Wheel, s: Slot)
    requires WF(w) && w1 == w.(now := w.now + 1) && s == ArrivalSlot(w.now + 1)
    requires s in w1.lists && Shape(w1) && forall z :: z in w1.lists[s] ==> z in w1.items
    ensures Tick(w) == Walk(w1, s, w1.lists[s])
  {
  }

  lemma TickWalks(w: Wheel)
    requires WF(w) && w.now + 1 < NOW_MAX
    ensures var s := ArrivalSlot(w.now + 1);
            CanWalk(w.(now := w.now + 1), s, w.lists[s]) && Ago(w.(now := w.now + 1)) == w
  {
    var s := ArrivalSlot(w.now + 1);
    SetNowKeeps(w, w.now + 1);
    forall y | y in w.lists[s] ensures Linked(w.(now := w.now + 1), s, y) {
    }
  }

  /** A tick leaves every item in a single list and does to each plain timer what the new time does to it. */
  lemma TickRefines(w: Wheel, x: Handle)
    requires WF(w) && w.now + 1 < NOW_MAX
    ensures WF(Tick(w)) && Tick(w).now == w.now + 1
    ensures TimerOf(Tick(w), x) == Advance(TimerOf(w, x), w.now + 1)
    ensures FiringsOf(Tick(w).log, x) == FiringsOf(w.log, x) + FiresAt(TimerOf(w, x), x, w.now + 1)
  {
    var w1 := w.(now := w.now + 1);
    var s := ArrivalSlot(w.now + 1);
    TickWalks(w);
    if x in w.lists[s] {
      WalkSelf(w1, s, w.lists[s], x);
    } else {
      WalkOther(w1, s, w.lists[s], x);
      IdleTimer(w, x);
      UntouchedTimer(w1, Tick(w), x);
    }
  }
}
