/** The timer manager: its five clock indices, list heads and items, changed in place under the mutex. */
module TimerManager {
  import opened Clock
  import opened Options
  import opened WheelSpec
  import opened DueTimes
  import opened WheelSteps
  import opened WheelWalk
  import opened WheelRuns

  /** The search for a set digit, written out as the code's ladder of tests. */
  lemma CascadeLadder(l: Level, it: Item)
    ensures CascadeLevel(l, it) ==
            if l > HOUR && it.h != 0 then Some(HOUR)
            else if l > MIN && it.m != 0 then Some(MIN)
            else if l > SEC && it.s != 0 then Some(SEC)
            else if l > MS && it.ms != 0 then Some(MS)
            else None
  {
  }

  class Manager {
    var lists: map<Slot, seq<Handle>>
    var items: map<Handle, Item>
    var gaps: map<Handle, Gap>
    var msIdx: nat
    var sIdx: nat
    var mIdx: nat
    var hIdx: nat
    var dIdx: nat
    /** Milliseconds since the start, and the callbacks handed to the thread pool so far. */
    ghost var now: nat
    ghost var log: seq<Firing>

    ghost function View(): Wheel
      reads this
    {
      Wheel(now, lists, items, gaps, log)
    }

    /** The five indices are the digits of `now`. */
    ghost predicate ClockWhole()
      reads this
    {
      msIdx == Digit(MS, now) && sIdx == Digit(SEC, now) && mIdx == Digit(MIN, now) && hIdx == Digit(HOUR, now) &&
      dIdx == Digit(DAY, now) && now < NOW_MAX
    }

    ghost predicate Valid()
      reads this
    {
      WF(View()) && ClockWhole()
    }

    constructor ()
      ensures Valid() && now == 0 && items == map[] && log == []
      ensures forall s :: s in lists ==> lists[s] == []
    {
      lists := map l: Level, i: nat | i < 1000 && ValidSlot(Slot(l, i)) :: Slot(l, i) := [];
      items, gaps := map[], map[];
      msIdx, sIdx, mIdx, hIdx, dIdx := 0, 0, 0, 0, 0;
      now, log := 0, [];
      new;
      forall s: Slot ensures s in lists <==> ValidSlot(s) {
        if ValidSlot(s) {
          assert s == Slot(s.level, s.idx) && s.idx < 1000;
        }
      }
    }

    method ListAddTail(x: Handle, s: Slot)
      requires s in lists
      modifies this`lists
      ensures View() == Link(old(View()), s, x)
    {
      lists := lists[s := lists[s] + [x]];
    }

    method ListDel(x: Handle, s: Slot)
      requires s in lists
      modifies this`lists, this`gaps
      ensures View() == Unlink(old(View()), s, x)
    {
      gaps := gaps[x := GapOf(s, lists[s], x)];
      lists := lists[s := Removed(lists[s], x)];
    }

    /** The time the clock shows, as the code sums it, plus an interval. */
    method Deadline(interval: nat) returns (next: nat)
      requires ClockWhole()
      ensures next == now + interval
    {
      DigitsSum(now);
      var sum := msIdx + sIdx * 1000 + mIdx * 1000 * 60 + hIdx * 1000 * 60 * 60 + dIdx * 1000 * 60 * 60 * 24;
      assert sum < NOW_MAX;
      next := sum + interval;
    }

    /** An item with the digits of `next`, divided down step by step. */
    method WriteDigits(it: Item, next: nat) returns (r: Item)
      ensures r == Stamped(it, next)
    {
      DivDiv(next, SEC);
      DivDiv(next, MIN);
      DivDiv(next, HOUR);
      r := it.(ms := next % 1000, s := (next / 1000) % 60, m := ((next / 1000) / 60) % 60,
               h := (((next / 1000) / 60) / 60) % 24, d := ((((next / 1000) / 60) / 60) / 24) % 0x1_0000);
    }

    /** Hangs an item on the highest wheel whose digit is set and differs from the clock's. */
    method File(x: Handle, it: Item)
      requires Shape(View()) && ClockWhole() && InRange(it)
      modifies this`lists
      ensures SlotOf(RefileLevel(it, now), it) in old(lists)
      ensures View() == Link(old(View()), SlotOf(RefileLevel(it, now), it), x)
    {
      if it.d != 0 && it.d != dIdx {
        ListAddTail(x, Slot(DAY, 0));
      } else if it.h != 0 && it.h != hIdx {
        ListAddTail(x, Slot(HOUR, it.h));
      } else if it.m != 0 && it.m != mIdx {
        ListAddTail(x, Slot(MIN, it.m));
      } else if it.s != 0 && it.s != sIdx {
        ListAddTail(x, Slot(SEC, it.s));
      } else {
        ListAddTail(x, Slot(MS, it.ms));
      }
    }

    method Reinsert(x: Handle)
      requires Shape(View()) && ClockWhole() && x in items
      modifies this`lists, this`items
      ensures View() == Refile(old(View()), x)
    {
      var next := Deadline(items[x].interval);
      var it := WriteDigits(items[x], next);
      items := items[x := it];
      File(x, it);
    }

    /** Submit the callback, then unlink the item and put it back if rounds are left. */
    method Expire(s: Slot, x: Handle)
      requires Shape(View()) && ClockWhole() && s in lists && x in items
      modifies this`lists, this`items, this`gaps, this`log
      ensures View() == Fire(old(View()), s, x)
    {
      log := log + [Firing(x, items[x].task, now)];
      if items[x].ttl == 0 {
        assert items == items[x := Spent(items[x])];
        ListDel(x, s);
        assert View() == Submit(old(View()), s, x);
        Reinsert(x);
      } else {
        items := items[x := items[x].(ttl := items[x].ttl - 1)];
        ListDel(x, s);
        assert View() == Submit(old(View()), s, x);
        if items[x].ttl != 0 {
          Reinsert(x);
        }
      }
    }

    /** The loop body of the block for wheel `s.level`: wait, move down, or expire. */
    method VisitNode(s: Slot, x: Handle)
      requires Shape(View()) && ClockWhole() && s in lists && x in items
      modifies this`lists, this`items, this`gaps, this`log
      ensures View() == Visit(old(View()), s, x)
    {
      var it := items[x];
      if s.level == DAY && it.d != dIdx {
        return;
      }
      CascadeLadder(s.level, it);
      if s.level > HOUR && it.h != 0 {
        ListDel(x, s);
        ListAddTail(x, Slot(HOUR, it.h));
      } else if s.level > MIN && it.m != 0 {
        ListDel(x, s);
        ListAddTail(x, Slot(MIN, it.m));
      } else if s.level > SEC && it.s != 0 {
        ListDel(x, s);
        ListAddTail(x, Slot(SEC, it.s));
      } else if s.level > MS && it.ms != 0 {
        ListDel(x, s);
        ListAddTail(x, Slot(MS, it.ms));
      } else {
        Expire(s, x);
      }
    }

    /** A live walk of list `s` is on its way to the state `goal`. */
    ghost predicate UnderWay(s: Slot, kept: seq<Handle>, todo: seq<Handle>, extra: seq<Handle>, node: Option<Handle>,
                             next: Option<Handle>, goal: Wheel)
      reads this
    {
      s in lists && (node.Some? ==> ClockWhole()) && Walking(View(), s, kept, todo, extra, node, next, goal)
    }

    /** The body of the walk, and the next element read ahead. */
    method VisitAndGoOn(s: Slot, node: Handle, next: Option<Handle>, ghost kept: seq<Handle>, ghost todo: seq<Handle>,
                        ghost extra: seq<Handle>, ghost goal: Wheel)
      returns (ahead: Option<Handle>, ghost kept': seq<Handle>, ghost todo': seq<Handle>, ghost extra': seq<Handle>)
      requires UnderWay(s, kept, todo, extra, Some(node), next, goal)
      modifies this`lists, this`items, this`gaps, this`log
      ensures UnderWay(s, kept', todo', extra', next, ahead, goal)
      ensures |todo'| < |todo| || (|todo'| == |todo| && |extra'| < |extra|)
    {
      kept', todo', extra' := WalkingStep(View(), s, kept, todo, extra, Some(node), next, goal);
      VisitNode(s, node);
      ahead := AfterNode(lists[s], next);
    }

    /**
     A safe walk: the next element is read before the body runs, which may unlink
     the current one and append it to the very list being walked. Every item that
     was on the list at the start is visited exactly once.
     */
    method WalkList(s: Slot)
      requires WF(View()) && s in lists
      requires lists[s] == [] || (ClockWhole() && now > 0 && s == ArrivalSlot(now))
      modifies this`lists, this`items, this`gaps, this`log
      ensures WF(View())
      ensures forall x :: x in old(lists[s]) ==> x in old(items)
      ensures View() == Walk(old(View()), s, old(lists[s]))
    {
      WalkStart(View(), s);
      ghost var goal := Walk(View(), s, lists[s]);
      var node := First(lists[s]);
      var next := AfterNode(lists[s], node);
      ghost var todo, kept, extra: seq<Handle> := lists[s], [], [];
      while node.Some?
        invariant UnderWay(s, kept, todo, extra, node, next, goal)
        decreases |todo|, if node.Some? then 1 + |extra| else 0
      {
        var ahead;
        ahead, kept, todo, extra := VisitAndGoOn(s, node.value, next, kept, todo, extra, goal);
        node, next := next, ahead;
      }
    }

    /** One millisecond: each wheel in turn moves on when all below it have wrapped, and its list is walked. */
    method CheckTimeout()
      requires Valid() && now + 1 < NOW_MAX
      modifies this
      ensures Valid() && now == old(now) + 1
      ensures View() == Tick(old(View()))
    {
      ghost var prev := View();
      now := now + 1;
      TurnMs(prev);
      TurnSeconds(prev);
      TurnMinutes(prev);
      TurnHours(prev);
      TurnDays(prev);
      TickArrives(prev);
    }

    /** Between two blocks of a tick: the walk of the highest wheel that moves is done or still to come. */
    ghost predicate MidTick(prev: Wheel, done: bool)
      reads this
    {
      WF(prev) && now == prev.now + 1 < NOW_MAX && View() == if done then Tick(prev) else prev.(now := now)
    }

    method TurnMs(ghost prev: Wheel)
      requires MidTick(prev, false)
      requires msIdx == Digit(MS, now - 1) && sIdx == Digit(SEC, now - 1) && mIdx == Digit(MIN, now - 1)
      requires hIdx == Digit(HOUR, now - 1) && dIdx == Digit(DAY, now - 1)
      modifies this`lists, this`items, this`gaps, this`log, this`msIdx
      ensures MidTick(prev, Top(now) <= MS) && msIdx == Digit(MS, now)
    {
      TurnAll(now - 1);
      msIdx := (msIdx + 1) % 1000;
      WalkArrived(Slot(MS, msIdx), prev, Top(now) == MS);
    }

    method TurnSeconds(ghost prev: Wheel)
      requires MidTick(prev, Top(now) < SEC)
      requires msIdx == Digit(MS, now)
      requires sIdx == Digit(SEC, now - 1) && mIdx == Digit(MIN, now - 1) && hIdx == Digit(HOUR, now - 1)
      requires dIdx == Digit(DAY, now - 1)
      modifies this`lists, this`items, this`gaps, this`log, this`sIdx
      ensures MidTick(prev, Top(now) <= SEC) && sIdx == Digit(SEC, now)
    {
      TurnAll(now - 1);
      if msIdx == 0 {
        sIdx := (sIdx + 1) % 60;
        WalkArrived(Slot(SEC, sIdx), prev, Top(now) == SEC);
      }
    }

    method TurnMinutes(ghost prev: Wheel)
      requires MidTick(prev, Top(now) < MIN)
      requires msIdx == Digit(MS, now) && sIdx == Digit(SEC, now)
      requires mIdx == Digit(MIN, now - 1) && hIdx == Digit(HOUR, now - 1) && dIdx == Digit(DAY, now - 1)
      modifies this`lists, this`items, this`gaps, this`log, this`mIdx
      ensures MidTick(prev, Top(now) <= MIN) && mIdx == Digit(MIN, now)
    {
      TurnAll(now - 1);
      if msIdx == 0 && sIdx == 0 {
        mIdx := (mIdx + 1) % 60;
        WalkArrived(Slot(MIN, mIdx), prev, Top(now) == MIN);
      }
    }

    method TurnHours(ghost prev: Wheel)
      requires MidTick(prev, Top(now) < HOUR)
      requires msIdx == Digit(MS, now) && sIdx == Digit(SEC, now) && mIdx == Digit(MIN, now)
      requires hIdx == Digit(HOUR, now - 1) && dIdx == Digit(DAY, now - 1)
      modifies this`lists, this`items, this`gaps, this`log, this`hIdx
      ensures MidTick(prev, Top(now) <= HOUR) && hIdx == Digit(HOUR, now)
    {
      TurnAll(now - 1);
      if msIdx == 0 && sIdx == 0 && mIdx == 0 {
        hIdx := (hIdx + 1) % 24;
        WalkArrived(Slot(HOUR, hIdx), prev, Top(now) == HOUR);
      }
    }

    method TurnDays(ghost prev: Wheel)
      requires MidTick(prev, Top(now) < DAY)
      requires msIdx == Digit(MS, now) && sIdx == Digit(SEC, now) && mIdx == Digit(MIN, now) && hIdx == Digit(HOUR, now)
      requires dIdx == Digit(DAY, now - 1)
      modifies this`lists, this`items, this`gaps, this`log, this`dIdx
      ensures MidTick(prev, true) && dIdx == Digit(DAY, now)
    {
      TurnAll(now - 1);
      if msIdx == 0 && sIdx == 0 && mIdx == 0 && hIdx == 0 {
        dIdx := dIdx + 1;
        WalkArrived(Slot(DAY, 0), prev, Top(now) == DAY);
      }
    }

    /**
     The walk of a slot that was just reached. On the highest wheel that moved
     (`whole`) it runs against a whole clock; below it, it finds slot 0 empty, so
     that no callback is submitted and no timer re-filed against a half-carried clock.
     */
    method WalkArrived(s: Slot, ghost prev: Wheel, ghost whole: bool)
      requires MidTick(prev, false)
      requires if whole then ClockWhole() && s == ArrivalSlot(now) else s.level < DAY && s.idx == 0
      modifies this`lists, this`items, this`gaps, this`log
      ensures MidTick(prev, whole)
    {
      TickArrives(prev);
      SlotZeroEmpty(View(), s);
      WalkList(s);
    }

    /** Hangs a new item on the highest wheel whose digit is set, whatever the clock shows. */
    method FileNew(x: Handle, it: Item)
      requires Shape(View()) && InRange(it)
      modifies this`lists
      ensures SlotOf(AddLevel(it), it) in old(lists) && View() == Link(old(View()), SlotOf(AddLevel(it), it), x)
    {
      if it.d != 0 {
        ListAddTail(x, Slot(DAY, 0));
      } else if it.h != 0 {
        ListAddTail(x, Slot(HOUR, it.h));
      } else if it.m != 0 {
        ListAddTail(x, Slot(MIN, it.m));
      } else if it.s != 0 {
        ListAddTail(x, Slot(SEC, it.s));
      } else {
        ListAddTail(x, Slot(MS, it.ms));
      }
    }

    /** A new timer; None stands for NULL, both from the allocator and as the answer. */
    method AddDo(millisecond: nat, ttl: nat, task: Task, mem: Option<Handle>) returns (hdl: Option<Handle>)
      requires Shape(View()) && ClockWhole()
      modifies this`lists, this`items
      ensures (View(), hdl) == Add(old(View()), millisecond, ttl, task, mem)
    {
      if millisecond >= INTERVAL_MAX || millisecond == 0 {
        return None;
      }
      if task.cb == 0 {
        return None;
      }
      if mem.None? {
        return None;
      }
      var x := mem.value;
      var next := Deadline(millisecond);
      var it := WriteDigits(Item(millisecond, ttl, 0, 0, 0, 0, 0, task), next);
      items := items[x := it];
      FileNew(x, it);
      hdl := Some(x);
    }

    method AddTimer(millisecond: nat, ttl: nat, task: Task, mem: Option<Handle>) returns (hdl: Option<Handle>)
      requires Valid() && (mem.Some? ==> mem.value !in items)
      modifies this`lists, this`items
      ensures Valid() && (View(), hdl) == Add(old(View()), millisecond, ttl, task, mem)
    {
      AddKeeps(View(), millisecond, ttl, task, mem);
      hdl := AddDo(millisecond, ttl, task, mem);
    }

    /**
     Unlink and free a timer, one that still hangs on the list `s` or one that has
     run out; NULL is an error.
     */
    method DeleteTimer(hdl: Option<Handle>, ghost s: Slot) returns (err: bool)
      requires Valid() && (hdl.Some? ==> Linked(View(), s, hdl.value) || RunOut(View(), hdl.value))
      modifies this`lists, this`items, this`gaps
      ensures Valid() && err == hdl.None?
      ensures View() == if hdl.None? then old(View())
                        else if Linked(old(View()), s, hdl.value) then Delete(old(View()), s, hdl.value)
                        else Forget(old(View()), hdl.value)
    {
      if hdl.None? {
        return true;
      }
      DeletedStays(View(), s, hdl.value);
      ListUnlink(hdl.value, s);
      items, gaps := items - {hdl.value}, gaps - {hdl.value};
      err := false;
    }

    /** `list_del` finds the list by the element itself, and leaves a list whose gap it closes again as it is. */
    method ListUnlink(x: Handle, ghost s: Slot)
      requires WF(View()) && (Linked(View(), s, x) || RunOut(View(), x))
      modifies this`lists
      ensures lists == if Linked(old(View()), s, x) then Unlink(old(View()), s, x).lists else old(lists)
    {
      UnlinkEverywhere(View(), s, x);
      lists := map s' | s' in lists :: Removed(lists[s'], x);
    }
  }

  lemma DeletedStays(w: Wheel, s: Slot, x: Handle)
    requires WF(w) && (Linked(w, s, x) || RunOut(w, x))
    ensures Linked(w, s, x) ==> WF(Delete(w, s, x))
    ensures !Linked(w, s, x) ==> WF(Forget(w, x))
  {
    if Linked(w, s, x) {
      DeleteKeeps(w, s, x);
    } else {
      ForgetKeeps(w, x);
    }
  }

  lemma UnlinkEverywhere(w: Wheel, s: Slot, x: Handle)
    requires WF(w) && (Linked(w, s, x) || Free(w, x))
    ensures (map s' | s' in w.lists :: Removed(w.lists[s'], x)) ==
            if Linked(w, s, x) then Unlink(w, s, x).lists else w.lists
  {
    forall s' | s' in w.lists && (s' != s || !Linked(w, s, x)) ensures Removed(w.lists[s'], x) == w.lists[s'] {
      assert !Linked(w, s', x);
      RemovedAbsent(w.lists[s'], x);
    }
  }

  lemma {:induction false} RemovedAbsent(xs: seq<Handle>, x: Handle)
    requires x !in xs
    ensures Removed(xs, x) == xs
  {
    if xs != [] {
      RemovedAbsent(xs[1..], x);
    }
  }

  /** What walking slot `s` does: everything at the arrival slot, nothing at a slot 0 below it. */
  ghost function Arrive(w: Wheel, s: Slot): Wheel
    requires WF(w)
  {
    if s != ArrivalSlot(w.now) then w
    else
      assert forall x :: x in w.lists[s] ==> Linked(w, s, x);
      Walk(w, s, w.lists[s])
  }

  lemma TickArrives(w: Wheel)
    requires WF(w) && w.now + 1 < NOW_MAX
    ensures var start := w.(now := w.now + 1);
            WF(start) && WF(Tick(w)) && Tick(w).now == start.now && Tick(w) == Arrive(start, ArrivalSlot(start.now))
  {
    SetNowKeeps(w, w.now + 1);
    TickRefines(w, 0);
  }

  lemma SlotZeroEmpty(w: Wheel, s: Slot)
    requires WF(w) && ValidSlot(s)
    ensures s.level < DAY && s.idx == 0 ==> w.lists[s] == []
  {
    if s.level < DAY && s.idx == 0 && w.lists[s] != [] {
      assert Linked(w, s, w.lists[s][0]);
      assert false;
    }
  }

  /** The five indices one millisecond later, in the order in which the code moves them. */
  lemma TurnAll(t: nat)
    ensures Digit(MS, t + 1) == (Digit(MS, t) + 1) % 1000
    ensures Digit(SEC, t + 1) == if Digit(MS, t + 1) == 0 then (Digit(SEC, t) + 1) % 60 else Digit(SEC, t)
    ensures Digit(MIN, t + 1) ==
            if Digit(MS, t + 1) == 0 && Digit(SEC, t + 1) == 0 then (Digit(MIN, t) + 1) % 60 else Digit(MIN, t)
    ensures Digit(HOUR, t + 1) ==
            if Digit(MS, t + 1) == 0 && Digit(SEC, t + 1) == 0 && Digit(MIN, t + 1) == 0
            then (Digit(HOUR, t) + 1) % 24 else Digit(HOUR, t)
    ensures Digit(DAY, t + 1) ==
            if Digit(MS, t + 1) == 0 && Digit(SEC, t + 1) == 0 && Digit(MIN, t + 1) == 0 && Digit(HOUR, t + 1) == 0
            then Digit(DAY, t) + 1 else Digit(DAY, t)
    ensures Top(t + 1) == if Digit(MS, t + 1) != 0 then MS else if Digit(SEC, t + 1) != 0 then SEC
                          else if Digit(MIN, t + 1) != 0 then MIN else if Digit(HOUR, t + 1) != 0 then HOUR else DAY
  {
    Turn(MS, t);
    Turn(SEC, t);
    Turn(MIN, t);
    Turn(HOUR, t);
    Turn(DAY, t);
    Carry(MS, t + 1);
    Carry(SEC, t + 1);
    Carry(MIN, t + 1);
    Carry(HOUR, t + 1);
  }
}
