/** When an item on a wheel will fire, and how ticks and placements change that. */
module DueTimes {
  import opened Arith
  import opened Clock
  import opened Options
  import opened WheelSpec

  /** The next turn of wheel `l` after time `t` at which it shows `g`. */
  function NextTurn(l: Level, g: nat, t: nat): (k: nat)
    requires l < DAY && g < Radix(l)
    ensures t / Unit(l) < k <= t / Unit(l) + Radix(l)
  {
    var q := t / Unit(l);
    q + 1 + (g - q - 1) % Radix(l)
  }

  /**
   The time at which an item on wheel `l` fires if nothing touches it: when that
   wheel next shows the item's digit, and the lower digits have passed too. An
   item on the day list whose day is not in the future waits for ever.
   */
  function DueAt(l: Level, it: Item, t: nat): (r: Option<nat>)
    requires InRange(it)
    ensures r.Some? ==> r.value > t
  {
    if l == DAY then
      if it.d > t / Unit(DAY) then Some(Stamp(it)) else None
    else
      DueAfter(l, it, t);
      Some(NextTurn(l, ItemDigit(it, l), t) * Unit(l) + Below(it, l))
  }

  lemma DueAfter(l: Level, it: Item, t: nat)
    requires InRange(it) && l < DAY
    ensures NextTurn(l, ItemDigit(it, l), t) * Unit(l) > t
  {
  }

  /** The residue that wheels count with. */
  lemma NextTurnIs(l: Level, g: nat, t: nat, k: nat)
    requires l < DAY && g < Radix(l)
    requires t / Unit(l) < k <= t / Unit(l) + Radix(l) && k % Radix(l) == g
    ensures NextTurn(l, g, t) == k
  {
    Residue(k, t / Unit(l), g, Radix(l));
  }

  lemma NextTurnShows(l: Level, g: nat, t: nat)
    requires l < DAY && g < Radix(l)
    ensures NextTurn(l, g, t) % Radix(l) == g
  {
    var q, r := t / Unit(l), Radix(l);
    var j := (g - q - 1) / r;
    assert NextTurn(l, g, t) == r * (-j) + g;
    ModUnique(NextTurn(l, g, t), -j, g, r);
  }

  /** A tick that does not bring the item's wheel to the item's slot leaves its due time alone. */
  lemma DuePassive(l: Level, it: Item, t: nat)
    requires InRange(it) && l < DAY
    requires (t + 1) % Unit(l) == 0 ==> Digit(l, t + 1) != ItemDigit(it, l)
    ensures DueAt(l, it, t + 1) == DueAt(l, it, t) && DueAt(l, it, t).value > t + 1
  {
    UnitStep(l, t);
    var g := ItemDigit(it, l);
    var k := NextTurn(l, g, t);
    NextTurnShows(l, g, t);
    if (t + 1) % Unit(l) == 0 {
      assert k != (t + 1) / Unit(l);
    }
    NextTurnIs(l, g, t + 1, k);
    TurnAfter(k, Unit(l), t + 1);
  }

  /** When its wheel arrives at its slot, an item is due after exactly its lower digits. */
  lemma DueArrived(l: Level, it: Item, t: nat)
    requires InRange(it) && l < DAY
    requires (t + 1) % Unit(l) == 0 && Digit(l, t + 1) == ItemDigit(it, l)
    ensures DueAt(l, it, t) == Some(t + 1 + Below(it, l))
  {
    UnitStep(l, t);
    NextTurnIs(l, ItemDigit(it, l), t, (t + 1) / Unit(l));
  }

  /** The day list, at a tick that turns the day. */
  lemma DueDay(it: Item, t: nat)
    requires InRange(it)
    ensures (t + 1) % Unit(DAY) == 0 && it.d == Digit(DAY, t + 1)
            ==> DueAt(DAY, it, t) == Some(t + 1 + Below(it, DAY))
    ensures !((t + 1) % Unit(DAY) == 0 && it.d == Digit(DAY, t + 1))
            ==> DueAt(DAY, it, t + 1) == DueAt(DAY, it, t) && DueAt(DAY, it, t) != Some(t + 1)
  {
  }

  /** Moving an item down to its next set digit keeps its due time. */
  lemma DueCascade(l: Level, it: Item, t: nat)
    requires InRange(it) && t % Unit(l) == 0 && CascadeLevel(l, it).Some?
    ensures DueAt(CascadeLevel(l, it).value, it, t) == Some(t + Below(it, l))
  {
    var c := CascadeLevel(l, it).value;
    BelowSkips(l, it);
    CoarseImpliesFine(c, l, t);
    CoarseImpliesFine(c + 1, l, t);
    var q := t / Unit(c);
    var g := ItemDigit(it, c);
    Multiples(q, Radix(c), g);
    NextTurnIs(c, g, t, q + g);
    assert (q + g) * Unit(c) == t + g * Unit(c);
  }

  /** Nothing set between two levels: the lower sums agree. */
  lemma {:induction false} BelowSkips(l: Level, it: Item)
    ensures CascadeLevel(l, it).None? ==> Below(it, l) == 0
    ensures CascadeLevel(l, it).Some? ==>
              var c := CascadeLevel(l, it).value;
              Below(it, l) == ItemDigit(it, c) * Unit(c) + Below(it, c)
  {
    if l != MS && ItemDigit(it, l - 1) == 0 {
      BelowSkips(l - 1, it);
      assert Below(it, l) == Below(it, l - 1);
    }
  }

  // ---------------------------------------------------------------- placements

  /** The digits of a time add up to it again. */
  lemma {:induction false} BelowStamped(it: Item, t: nat, l: Level)
    ensures Below(Stamped(it, t), l) == t % Unit(l)
  {
    if l != MS {
      BelowStamped(it, t, l - 1);
      SplitMod(t, Unit(l - 1), Radix(l - 1));
    }
  }

  lemma StampedDigit(it: Item, t: nat, l: Level)
    ensures l < DAY ==> ItemDigit(Stamped(it, t), l) == Digit(l, t)
  {
  }

  lemma StampStamped(it: Item, t: nat)
    requires t / Unit(DAY) < 0x1_0000
    ensures Stamp(Stamped(it, t)) == t
  {
    BelowStamped(it, t, DAY);
    DivMul(t, Unit(DAY));
    assert Stamped(it, t).d == t / Unit(DAY);
  }

  lemma DueAtIs(l: Level, it: Item, t: nat, k: nat)
    requires InRange(it) && l < DAY
    requires t / Unit(l) < k <= t / Unit(l) + Radix(l) && k % Radix(l) == ItemDigit(it, l)
    ensures DueAt(l, it, t) == Some(k * Unit(l) + Below(it, l))
  {
    NextTurnIs(l, ItemDigit(it, l), t, k);
  }

  /** Wheel `l` still has to turn, by less than a revolution, to reach time `due`. */
  lemma DueOnTime(l: Level, it: Item, due: nat, t: nat)
    requires 1 <= it.interval < INTERVAL_MAX && l < DAY
    requires t / Unit(l) < due / Unit(l) <= t / Unit(l) + Radix(l)
    ensures DueAt(l, Stamped(it, due), t) == Some(due)
  {
    BelowStamped(it, due, l);
    StampedDigit(it, due, l);
    DueAtIs(l, Stamped(it, due), t, due / Unit(l));
    DivMul(due, Unit(l));
  }

  /** Wheel `l` already shows the digit of `due`: it takes one revolution more. */
  lemma DueLate(l: Level, it: Item, due: nat, t: nat)
    requires 1 <= it.interval < INTERVAL_MAX && l < DAY
    requires t / Unit(l) == due / Unit(l)
    ensures DueAt(l, Stamped(it, due), t) == Some(due + Unit(l + 1))
  {
    var k := due / Unit(l) + Radix(l);
    BelowStamped(it, due, l);
    StampedDigit(it, due, l);
    FullRevolution(due / Unit(l), Radix(l));
    DueAtIs(l, Stamped(it, due), t, k);
    DivMul(due, Unit(l));
    Distribute(due / Unit(l), Radix(l), Unit(l));
  }

  /** Times that agree above wheel `l` are ordered by their digit on it. */
  lemma SameAbove(l: Level, due: nat, t: nat)
    requires l < DAY && t <= due && t / Unit(l + 1) == due / Unit(l + 1)
    ensures Digit(l, t) <= Digit(l, due)
    ensures due / Unit(l) - t / Unit(l) == Digit(l, due) - Digit(l, t)
  {
    DivDiv(due, l);
    DivDiv(t, l);
    assert t / Unit(l) <= due / Unit(l);
  }

  lemma DivDiv(t: nat, l: Level)
    requires l < DAY
    ensures t / Unit(l + 1) == (t / Unit(l)) / Radix(l)
  {
  }

  /** The highest digit in which two times differ. */
  ghost predicate HighestDiffering(l: Level, due: nat, t: nat) {
    Digit(l, due) != Digit(l, t) && forall j: Level :: l < j ==> Digit(j, due) == Digit(j, t)
  }

  /** Equal digits above mean equal times, rounded to the wheel. */
  lemma {:induction false} EqualAbove(l: Level, due: nat, t: nat)
    requires forall j: Level :: l <= j ==> Digit(j, due) == Digit(j, t)
    ensures t / Unit(l) == due / Unit(l)
    decreases DAY - l
  {
    if l < DAY {
      EqualAbove(l + 1, due, t);
      assert Digit(l, due) == Digit(l, t);
      DivDiv(due, l);
      DivDiv(t, l);
    }
  }

  /** The code's search for a wheel finds the highest digit in which the deadline differs from the clock. */
  lemma RefileIsHighest(it: Item, due: nat, t: nat)
    requires t < due && due / Unit(DAY) < 0x1_0000
    ensures HighestDiffering(RefileLevel(Stamped(it, due), t), due, t)
  {
    var l := HighestExists(due, t);
    AboveZero(l, due, t);
    StampedSets(it, due);
  }

  /** What the code's tests of an item's digits read. */
  lemma StampedSets(it: Item, due: nat)
    requires due / Unit(DAY) < 0x1_0000
    ensures var r := Stamped(it, due);
            r.s == Digit(SEC, due) && r.m == Digit(MIN, due) && r.h == Digit(HOUR, due) && r.d == Digit(DAY, due)
  {
  }

  lemma {:induction false} HighestFrom(l: Level, due: nat, t: nat) returns (r: Level)
    requires t < due
    requires forall j: Level :: l < j ==> Digit(j, due) == Digit(j, t)
    ensures HighestDiffering(r, due, t)
  {
    if Digit(l, due) != Digit(l, t) {
      r := l;
    } else if l == MS {
      EqualAbove(MS, due, t);
      assert false;
    } else {
      r := HighestFrom(l - 1, due, t);
    }
  }

  lemma HighestExists(due: nat, t: nat) returns (r: Level)
    requires t < due
    ensures HighestDiffering(r, due, t)
  {
    r := HighestFrom(DAY, due, t);
  }

  /** At the highest digit that differs the later time has the larger one. */
  lemma AboveZero(l: Level, due: nat, t: nat)
    requires t < due && HighestDiffering(l, due, t)
    ensures Digit(l, due) > Digit(l, t)
  {
    if l < DAY {
      EqualAbove(l + 1, due, t);
      SameAbove(l, due, t);
    } else {
      assert Digit(DAY, due) >= Digit(DAY, t);
    }
  }

  /** Filed at the highest differing digit, an item is due exactly at its stamp, and not on slot 0. */
  lemma DueHighest(l: Level, it: Item, due: nat, t: nat)
    requires 1 <= it.interval < INTERVAL_MAX
    requires t < due && due / Unit(DAY) < 0x1_0000 && HighestDiffering(l, due, t)
    ensures DueAt(l, Stamped(it, due), t) == Some(due)
    ensures Digit(l, due) != 0
  {
    if l == DAY {
      StampStamped(it, due);
    } else {
      EqualAbove(l + 1, due, t);
      SameAbove(l, due, t);
      DueOnTime(l, it, due, t);
    }
  }

  // ---------------------------------------------------------------- new timers

  /**
   A new timer is filed by its highest set digit. It clashes when the clock shows
   that very digit already, for then its slot has just gone by.
   */
  predicate Clash(it: Item, due: nat, now: nat) {
    var l := AddLevel(Stamped(it, due));
    l != MS && Digit(l, due) == Digit(l, now)
  }

  lemma AddLevelIs(it: Item, due: nat)
    requires due / Unit(DAY) < 0x1_0000
    ensures var l := AddLevel(Stamped(it, due));
            (forall j: Level :: l < j ==> Digit(j, due) == 0) && (l != MS ==> Digit(l, due) != 0)
  {
  }

  /** Where nothing is set above a wheel, nothing is set there in an earlier time either. */
  lemma ZeroAbove(l: Level, due: nat, t: nat)
    requires t <= due && forall j: Level :: l < j ==> Digit(j, due) == 0
    ensures forall j: Level :: l < j ==> Digit(j, t) == 0
  {
    forall j: Level | l < j ensures Digit(j, t) == 0 {
      forall i: Level | j <= i ensures Digit(i, due) == Digit(i, 0) {
        ZeroDigit(i);
      }
      EqualAbove(j, due, 0);
      assert t / Unit(j) <= due / Unit(j);
    }
  }

  lemma ZeroDigit(l: Level)
    ensures Digit(l, 0) == 0
  {
  }

  /** Adding picks the wheel that re-filing picks exactly when there is no clash. */
  lemma AddAgainstRefile(it: Item, due: nat, now: nat)
    requires now < due && due / Unit(DAY) < 0x1_0000
    ensures AddLevel(Stamped(it, due)) == RefileLevel(Stamped(it, due), now) <==> !Clash(it, due, now)
  {
  }

  lemma AddIsHighest(it: Item, due: nat, now: nat)
    requires now < due && due / Unit(DAY) < 0x1_0000 && !Clash(it, due, now)
    ensures HighestDiffering(AddLevel(Stamped(it, due)), due, now)
  {
    var l := AddLevel(Stamped(it, due));
    AddLevelIs(it, due);
    ZeroAbove(l, due, now);
    if l == MS && Digit(MS, due) == Digit(MS, now) {
      EqualAbove(MS, due, now);
      assert false;
    }
  }

  /** The first firing of a new timer: on time without a clash, otherwise one revolution late or, by day, never. */
  function FirstDue(it: Item, due: nat, now: nat): Option<nat> {
    var l := AddLevel(Stamped(it, due));
    if !Clash(it, due, now) then Some(due)
    else if l < DAY then Some(due + Unit(l + 1))
    else None
  }

  /** At one minute and 1.5 seconds a timer of 100 ms is late by an hour: the minute is set, and the clock shows it. */
  lemma LateByAnHour(task: Task)
    ensures FirstDue(Item(100, 1, 0, 0, 0, 0, 0, task), 61_600, 61_500) == Some(61_600 + 3_600_000)
  {
  }

  /** Half a second into the second day a timer of 100 ms never fires. */
  lemma NeverByDay(task: Task)
    ensures FirstDue(Item(100, 1, 0, 0, 0, 0, 0, task), 86_400_600, 86_400_500) == None
  {
  }

  lemma DueAdded(it: Item, due: nat, now: nat)
    requires 1 <= it.interval < INTERVAL_MAX && now < due && due / Unit(DAY) < 0x1_0000
    ensures var l := AddLevel(Stamped(it, due));
            DueAt(l, Stamped(it, due), now) == FirstDue(it, due, now) &&
            Fits(SlotOf(l, Stamped(it, due)), Stamped(it, due))
  {
    var l := AddLevel(Stamped(it, due));
    AddLevelIs(it, due);
    StampedDigit(it, due, l);
    if !Clash(it, due, now) {
      AddIsHighest(it, due, now);
      DueHighest(l, it, due, now);
    } else {
      ZeroAbove(l, due, now);
      EqualAbove(l, due, now);
      if l < DAY {
        DueLate(l, it, due, now);
      }
    }
  }

  lemma DueRefiled(it: Item, due: nat, now: nat)
    requires 1 <= it.interval < INTERVAL_MAX && now < due && due / Unit(DAY) < 0x1_0000
    ensures var l := RefileLevel(Stamped(it, due), now);
            DueAt(l, Stamped(it, due), now) == Some(due) && Fits(SlotOf(l, Stamped(it, due)), Stamped(it, due))
  {
    var l := RefileLevel(Stamped(it, due), now);
    RefileIsHighest(it, due, now);
    DueHighest(l, it, due, now);
    StampedDigit(it, due, l);
  }
}
