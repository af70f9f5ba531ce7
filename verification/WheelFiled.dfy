/** Where timers hang: each at the highest digit in which its deadline differs from the clock. */
module WheelFiled {
  import opened Arith
  import opened Clock
  import opened Options
  import opened WheelSpec
  import opened DueTimes
  import opened WheelSteps

  /** Filed as the code means it: the deadline is ahead, and the wheel is the highest on which it differs. */
  ghost predicate FiledAt(s: Slot, it: Item, now: nat) {
    now < Stamp(it) && HighestDiffering(s.level, Stamp(it), now)
  }

  ghost predicate Filed(w: Wheel, x: Handle) {
    forall s :: Linked(w, s, x) ==> x in w.items && FiledAt(s, w.items[x], w.now)
  }

  /** An item's digits are those of its stamp. */
  lemma DigitOfStamp(it: Item, l: Level)
    requires InRange(it)
    ensures Digit(l, Stamp(it)) == ItemDigit(it, l)
  {
    StampOver(it, l);
    if l < DAY {
      StampOver(it, l + 1);
      var u, r := Unit(l), Radix(l);
      var k := Stamp(it) / Unit(l + 1);
      DivDiv(Stamp(it), l);
    }
  }

  lemma {:induction false} StampOver(it: Item, l: Level)
    requires InRange(it)
    ensures Stamp(it) % Unit(l) == Below(it, l)
    ensures l < DAY ==> Stamp(it) / Unit(l) == Stamp(it) / Unit(l + 1) * Radix(l) + ItemDigit(it, l)
    decreases DAY - l
  {
    if l < DAY {
      StampOver(it, l + 1);
      var k := Stamp(it) / Unit(l + 1);
      DivMul(Stamp(it), Unit(l + 1));
      DigitOff(Stamp(it), k, Unit(l), Radix(l), ItemDigit(it, l), Below(it, l));
    } else {
      DivIs(Stamp(it), Unit(DAY), it.d, Below(it, DAY));
    }
  }

  /** Below the day wheel, the slot of a filed item comes next when the clock's count of turns is that of the stamp. */
  lemma FiledTurn(l: Level, it: Item, now: nat)
    requires InRange(it) && FiledAt(Slot(l, 0), it, now) && l < DAY
    ensures DueAt(l, it, now) == Some(Stamp(it) / Unit(l) * Unit(l) + Below(it, l))
  {
    EqualAbove(l + 1, Stamp(it), now);
    SameAbove(l, Stamp(it), now);
    DigitOfStamp(it, l);
    AboveZero(l, Stamp(it), now);
    DueAtIs(l, it, now, Stamp(it) / Unit(l));
  }

  /** A filed item is due at its stamp. */
  lemma FiledDue(s: Slot, it: Item, now: nat)
    requires InRange(it) && FiledAt(s, it, now)
    ensures DueAt(s.level, it, now) == Some(Stamp(it))
  {
    if s.level < DAY {
      FiledTurn(s.level, it, now);
      StampOver(it, s.level);
      DivMul(Stamp(it), Unit(s.level));
    } else {
      DigitOfStamp(it, DAY);
      AboveZero(DAY, Stamp(it), now);
    }
  }

  /** Times that agree on a wheel's count of turns agree on it and on all above. */
  lemma {:induction false} AboveAgree(l: Level, a: nat, b: nat)
    requires a / Unit(l) == b / Unit(l)
    ensures forall j: Level :: l <= j ==> Digit(j, a) == Digit(j, b)
    decreases DAY - l
  {
    if l < DAY {
      DivDiv(a, l);
      DivDiv(b, l);
      AboveAgree(l + 1, a, b);
    }
  }

  /** As long as its slot is not reached, an item stays rightly filed where it is. */
  lemma FiledPassive(s: Slot, it: Item, t: nat)
    requires InRange(it) && FiledAt(s, it, t) && !Reached(s, it, t + 1)
    ensures FiledAt(s, it, t + 1)
  {
    var l, due := s.level, Stamp(it);
    FiledDue(s, it, t);
    if l < DAY {
      DuePassive(l, it, t);
      EqualAbove(l + 1, due, t);
      Between(t, t + 1, due, Unit(l + 1));
      AboveAgree(l + 1, due, t + 1);
    } else {
      DueDay(it, t);
    }
    DigitOfStamp(it, l);
    UnitStep(l, t);
  }

  lemma {:induction false} CascadeZeros(l: Level, it: Item)
    requires CascadeLevel(l, it).Some?
    ensures forall j: Level :: CascadeLevel(l, it).value < j < l ==> ItemDigit(it, j) == 0
  {
    if ItemDigit(it, l - 1) == 0 {
      CascadeZeros(l - 1, it);
    }
  }

  /** When an item's slot is reached, its deadline is ahead by what its lower digits add up to. */
  lemma ReachedDue(s: Slot, it: Item, t: nat)
    requires InRange(it) && t > 0 && FiledAt(s, it, t - 1) && Reached(s, it, t)
    ensures Stamp(it) == t + Below(it, s.level) && Stamp(it) / Unit(s.level) == t / Unit(s.level)
  {
    var l := s.level;
    FiledDue(s, it, t - 1);
    if l < DAY { DueArrived(l, it, t - 1); } else { DueDay(it, t - 1); }
    DivMul(t, Unit(l));
    DivIs(Stamp(it), Unit(l), t / Unit(l), Below(it, l));
  }

  /** Moved down one level, an item is rightly filed again. */
  lemma FiledCascade(s: Slot, it: Item, t: nat)
    requires InRange(it) && t > 0 && FiledAt(s, it, t - 1) && Reached(s, it, t) && CascadeLevel(s.level, it).Some?
    ensures FiledAt(SlotOf(CascadeLevel(s.level, it).value, it), it, t)
  {
    var l, c, due := s.level, CascadeLevel(s.level, it).value, Stamp(it);
    ReachedDue(s, it, t);
    CascadePositive(l, it);
    CascadeZeros(l, it);
    AboveAgree(l, due, t);
    forall j: Level | c <= j ensures j < l ==> Digit(j, t) == 0 && Digit(j, due) == ItemDigit(it, j) {
      if j < l {
        CoarseImpliesFine(j, l, t);
        DigitOfStamp(it, j);
      }
    }
  }

  lemma FiledRefile(it: Item, now: nat)
    requires 1 <= it.interval < INTERVAL_MAX && now < NOW_MAX
    ensures var r := Stamped(it, now + it.interval); FiledAt(SlotOf(RefileLevel(r, now), r), r, now)
  {
    DayFits(now + it.interval);
    RefileIsHighest(it, now + it.interval, now);
    StampStamped(it, now + it.interval);
  }

  // ---------------------------------------------------------------- ticks

  /** To be rightly filed it is enough to be so in one place. */
  lemma FiledHere(w: Wheel, s: Slot, x: Handle)
    requires WF(w) && Linked(w, s, x) && FiledAt(s, w.items[x], w.now)
    ensures Filed(w, x)
  {
  }

  lemma RefileFiled(w: Wheel, x: Handle)
    requires WF(w) && ClockOk(w) && Free(w, x) && x in w.items
    ensures Filed(Refile(w, x), x)
  {
    RefileKeeps(w, x);
    FiledRefile(w.items[x], w.now);
    var it := Stamped(w.items[x], w.now + w.items[x].interval);
    FiledHere(Refile(w, x), SlotOf(RefileLevel(it, w.now), it), x);
  }

  lemma CascadeFiled(w: Wheel, s: Slot, x: Handle)
    requires WF(w) && w.now > 0 && Linked(w, s, x) && FiledAt(s, w.items[x], w.now - 1)
    requires Reached(s, w.items[x], w.now) && CascadeLevel(s.level, w.items[x]).Some?
    ensures var l := SlotOf(CascadeLevel(s.level, w.items[x]).value, w.items[x]);
            l in w.lists && Filed(Link(Unlink(w, s, x), l, x), x)
  {
    var it := w.items[x];
    var l := SlotOf(CascadeLevel(s.level, it).value, it);
    CascadeKeeps(w, s, x);
    FiledCascade(s, it, w.now);
    FiledHere(Link(Unlink(w, s, x), l, x), l, x);
  }

  lemma FireFiled(w: Wheel, s: Slot, x: Handle)
    requires WF(w) && ClockOk(w) && Linked(w, s, x)
    ensures Filed(Fire(w, s, x), x)
  {
    SubmitKeeps(w, s, x);
    if w.items[x].ttl != 1 {
      RefileFiled(Submit(w, s, x), x);
    }
  }

  lemma VisitFiled(w: Wheel, s: Slot, x: Handle)
    requires WF(w) && w.now > 0 && ClockOk(w) && Linked(w, s, x) && s == ArrivalSlot(w.now)
    requires Filed(Ago(w), x)
    ensures Filed(Visit(w, s, x), x)
  {
    var it := w.items[x];
    ArrivedReached(s, it, w.now);
    assert Linked(Ago(w), s, x);
    if Waits(s, it, w.now) {
      FiledPassive(s, it, w.now - 1);
      FiledHere(w, s, x);
    } else if CascadeLevel(s.level, it).Some? {
      CascadeFiled(w, s, x);
    } else {
      FireFiled(w, s, x);
    }
  }

  lemma UntouchedFiled(w: Wheel, r: Wheel, x: Handle)
    requires Untouched(w, r, x) && Filed(w, x)
    ensures Filed(r, x)
  {
  }

  lemma {:induction false} WalkFiled(w: Wheel, s: Slot, todo: seq<Handle>, x: Handle)
    requires CanWalk(w, s, todo) && x in todo && Filed(Ago(w), x)
    ensures Filed(Walk(w, s, todo), x)
    decreases |todo|
  {
    var y := todo[0];
    assert Linked(w, s, y);
    WalkOn(w, s, todo);
    var r := Visit(w, s, y);
    if x == y {
      VisitFiled(w, s, x);
      WalkOther(r, s, todo[1..], x);
      UntouchedFiled(r, Walk(r, s, todo[1..]), x);
    } else {
      VisitOther(w, s, y, x);
      UntouchedAgo(w, r, x);
      UntouchedFiled(Ago(w), Ago(r), x);
      WalkFiled(r, s, todo[1..], x);
    }
  }

  lemma IdleFiled(w: Wheel, x: Handle)
    requires WF(w) && Filed(w, x) && !Linked(w, ArrivalSlot(w.now + 1), x)
    ensures Filed(w.(now := w.now + 1), x)
  {
    var w1 := w.(now := w.now + 1);
    forall s | Linked(w1, s, x) ensures x in w1.items && FiledAt(s, w1.items[x], w1.now) {
      assert Linked(w, s, x);
      NotReached(s, w.items[x], w1.now);
      FiledPassive(s, w.items[x], w.now);
    }
  }

  lemma TickFiledHere(w: Wheel, x: Handle)
    requires WF(w) && w.now + 1 < NOW_MAX && Filed(w, x) && x in w.lists[ArrivalSlot(w.now + 1)]
    ensures Filed(Tick(w), x)
  {
    TickWalks(w);
    WalkFiled(w.(now := w.now + 1), ArrivalSlot(w.now + 1), w.lists[ArrivalSlot(w.now + 1)], x);
  }

  lemma WalkLeaves(w: Wheel, s: Slot, x: Handle)
    requires WF(w) && w.now > 0 && ClockOk(w) && s == ArrivalSlot(w.now) && s in w.lists && x !in w.lists[s]
    requires forall y :: y in w.lists[s] ==> y in w.items
    ensures WF(Walk(w, s, w.lists[s])) && Untouched(w, Walk(w, s, w.lists[s]), x)
  {
    forall y | y in w.lists[s] ensures Linked(w, s, y) {
    }
    WalkOther(w, s, w.lists[s], x);
  }

  lemma TickLeaves(w: Wheel, x: Handle)
    requires WF(w) && w.now + 1 < NOW_MAX && x !in w.lists[ArrivalSlot(w.now + 1)]
    ensures WF(w.(now := w.now + 1)) && WF(Tick(w)) && Untouched(w.(now := w.now + 1), Tick(w), x)
  {
    var w1, s := w.(now := w.now + 1), ArrivalSlot(w.now + 1);
    SetNowKeeps(w, w.now + 1);
    TickStarts(w, w1, s);
    WalkLeaves(w1, s, x);
    TickIs(w, w1, s);
  }

  lemma TickFiledElsewhere(w: Wheel, x: Handle)
    requires WF(w) && w.now + 1 < NOW_MAX && Filed(w, x) && x !in w.lists[ArrivalSlot(w.now + 1)]
    ensures Filed(Tick(w), x)
  {
    TickLeaves(w, x);
    IdleFiled(w, x);
    UntouchedFiled(w.(now := w.now + 1), Tick(w), x);
  }

  /** A tick leaves every rightly filed timer rightly filed. */
  lemma TickFiled(w: Wheel, x: Handle)
    requires WF(w) && w.now + 1 < NOW_MAX && Filed(w, x)
    ensures Filed(Tick(w), x)
  {
    if x in w.lists[ArrivalSlot(w.now + 1)] {
      TickFiledHere(w, x);
    } else {
      TickFiledElsewhere(w, x);
    }
  }
}
