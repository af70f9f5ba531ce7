/** What a walk over a live list needs: how a visit changes the list it is walking. */
module WheelWalk {
  import opened Arith
  import opened Clock
  import opened Options
  import opened WheelSpec
  import opened DueTimes
  import opened WheelSteps
  import opened Sequences

  lemma {:induction false} RemovedMiddle(a: seq<Handle>, x: Handle, b: seq<Handle>)
    requires x !in a
    ensures Removed(a + [x] + b, x) == a + b
  {
    var all := a + [x] + b;
    if a == [] {
      assert all[1..] == b && a + b == b;
    } else {
      assert all[1..] == a[1..] + [x] + b;
      RemovedMiddle(a[1..], x, b);
      assert a + b == [a[0]] + (a[1..] + b);
    }
  }

  /** A timer put back on the list it just left has a later day to wait for. */
  lemma RefiledElsewhere(it: Item, s: Slot, now: nat)
    requires 1 <= it.interval < INTERVAL_MAX && now < NOW_MAX && s == ArrivalSlot(now)
    requires var r := Stamped(it, now + it.interval); SlotOf(RefileLevel(r, now), r) == s
    ensures Waits(s, Stamped(it, now + it.interval), now)
  {
    var due := now + it.interval;
    DayFits(due);
    RefileIsHighest(it, due, now);
    StampedDigit(it, due, s.level);
  }

  lemma NoDupMiddle(a: seq<Handle>, x: Handle, b: seq<Handle>)
    requires NoDup(a + [x] + b)
    ensures x !in a && x !in b
  {
    var all := a + [x] + b;
    assert all[|a|] == x;
    forall i | 0 <= i < |a| ensures a[i] != x {
      assert all[i] == a[i];
    }
    forall i | 0 <= i < |b| ensures b[i] != x {
      assert all[|a| + 1 + i] == b[i];
    }
  }

  /** What `FireList` and `VisitList` say of the walked list. */
  ghost predicate MovedItem(w: Wheel, r: Wheel, s: Slot, x: Handle, rest: seq<Handle>) {
    s in r.lists && x in r.items &&
    (r.lists[s] == rest || (r.lists[s] == rest + [x] && Waits(s, r.items[x], w.now)))
  }

  lemma FireList(w: Wheel, s: Slot, x: Handle)
    requires WF(w) && ClockOk(w) && s == ArrivalSlot(w.now) && Linked(w, s, x)
    ensures MovedItem(w, Fire(w, s, x), s, x, Removed(w.lists[s], x))
  {
    var it, u := w.items[x], Submit(w, s, x);
    assert u.lists[s] == Removed(w.lists[s], x) && u.items[x] == Spent(it);
    if it.ttl != 1 {
      RefileList(u, s, x);
    }
  }

  /** Putting an item back leaves the walked list alone, or appends the item to wait. */
  lemma RefileList(u: Wheel, s: Slot, x: Handle)
    requires Shape(u) && ClockOk(u) && s == ArrivalSlot(u.now) && x in u.items
    ensures s in u.lists && MovedItem(u, Refile(u, x), s, x, u.lists[s])
  {
    var it := u.items[x];
    var r := Stamped(it, u.now + it.interval);
    if SlotOf(RefileLevel(r, u.now), r) == s {
      RefiledElsewhere(it, s, u.now);
    }
  }

  /** The walked list after a visit: the item stays, is gone, or comes back at the tail to wait. */
  lemma VisitList(w: Wheel, s: Slot, x: Handle, a: seq<Handle>, b: seq<Handle>)
    requires WF(w) && ClockOk(w) && s == ArrivalSlot(w.now)
    requires s in w.lists && w.lists[s] == a + [x] + b
    ensures x in w.items && Linked(w, s, x)
    ensures if Waits(s, w.items[x], w.now) then Visit(w, s, x) == w else MovedItem(w, Visit(w, s, x), s, x, a + b)
  {
    assert w.lists[s][|a|] == x;
    assert Linked(w, s, x);
    assert NoDup(w.lists[s]);
    NoDupMiddle(a, x, b);
    RemovedMiddle(a, x, b);
    if !Waits(s, w.items[x], w.now) && CascadeLevel(s.level, w.items[x]).None? {
      FireList(w, s, x);
    }
  }

  /**
   Half-way through a live walk: `kept` has been passed, `todo` was on the list at
   the start and is still to come, `extra` came back at the tail and waits.
   */
  ghost predicate MidWalk(w: Wheel, s: Slot, kept: seq<Handle>, todo: seq<Handle>, extra: seq<Handle>) {
    CanWalk(w, s, todo) && s in w.lists && w.lists[s] == kept + (todo + extra) &&
    forall x :: x in extra ==> x in w.items && Waits(s, w.items[x], w.now)
  }

  lemma MidSplit(w: Wheel, s: Slot, kept: seq<Handle>, todo: seq<Handle>, extra: seq<Handle>)
    requires MidWalk(w, s, kept, todo, extra) && todo + extra != []
    ensures var ahead := todo + extra;
            ahead[0] in w.items && Linked(w, s, ahead[0]) && ahead[0] !in kept && ahead[0] !in ahead[1..] &&
            w.lists[s] == kept + [ahead[0]] + ahead[1..]
  {
    var ahead := todo + extra;
    assert ahead == [ahead[0]] + ahead[1..];
    assert kept + ahead == kept + [ahead[0]] + ahead[1..];
    assert NoDup(w.lists[s]);
    NoDupMiddle(kept, ahead[0], ahead[1..]);
    assert w.lists[s][|kept|] == ahead[0];
    assert Linked(w, s, ahead[0]);
  }

  /** The step when all that was on the list at the start has been visited. */
  lemma MidStepLate(w: Wheel, s: Slot, kept: seq<Handle>, extra: seq<Handle>)
    requires MidWalk(w, s, kept, [], extra) && extra != []
    ensures extra[0] in w.items && Visit(w, s, extra[0]) == w && MidWalk(w, s, kept + [extra[0]], [], extra[1..])
  {
    MidSplit(w, s, kept, [], extra);
    assert [] + extra == extra && [] + extra[1..] == extra[1..];
    VisitList(w, s, extra[0], kept, extra[1..]);
    assert kept + [extra[0]] + extra[1..] == kept + extra;
  }

  /** The step with an item that was on the list at the start. */
  lemma MidStepOn(w: Wheel, s: Slot, kept: seq<Handle>, todo: seq<Handle>, extra: seq<Handle>)
    returns (kept': seq<Handle>, extra': seq<Handle>)
    requires MidWalk(w, s, kept, todo, extra) && todo != []
    ensures todo[0] in w.items && MidWalk(Visit(w, s, todo[0]), s, kept', todo[1..], extra')
    ensures extra' == extra || extra' == extra + [todo[0]]
  {
    MidSplit(w, s, kept, todo, extra);
    var x, rest := todo[0], todo[1..] + extra;
    assert todo + extra == [x] + rest;
    VisitList(w, s, x, kept, rest);
    WalkOn(w, s, todo);
    VisitKeeps(w, s, x);
    var r := Visit(w, s, x);
    if Waits(s, w.items[x], w.now) {
      kept', extra' := kept + [x], extra;
      Regroup(kept, [x], rest);
    } else if r.lists[s] == kept + rest {
      kept', extra' := kept, extra;
    } else {
      kept', extra' := kept, extra + [x];
      assert kept' + (todo[1..] + extra') == kept + rest + [x];
    }
  }

  /** One step of the walk. */
  lemma MidStep(w: Wheel, s: Slot, kept: seq<Handle>, todo: seq<Handle>, extra: seq<Handle>)
    returns (kept': seq<Handle>, todo': seq<Handle>, extra': seq<Handle>)
    requires MidWalk(w, s, kept, todo, extra) && todo + extra != []
    ensures var ahead := todo + extra;
            ahead[0] in w.items && ahead[0] !in kept && w.lists[s] == kept + [ahead[0]] + ahead[1..] &&
            MidWalk(Visit(w, s, ahead[0]), s, kept', todo', extra') &&
            Walk(Visit(w, s, ahead[0]), s, todo') == Walk(w, s, todo) &&
            (todo' + extra' == ahead[1..] || todo' + extra' == ahead[1..] + [ahead[0]]) &&
            todo' == (if todo == [] then [] else todo[1..]) && (todo == [] ==> |extra'| < |extra|)
  {
    MidSplit(w, s, kept, todo, extra);
    if todo == [] {
      assert todo + extra == extra;
      kept', todo', extra' := kept + [extra[0]], [], extra[1..];
      MidStepLate(w, s, kept, extra);
    } else {
      assert todo + extra == [todo[0]] + (todo[1..] + extra);
      todo' := todo[1..];
      kept', extra' := MidStepOn(w, s, kept, todo, extra);
      Regroup(todo', extra, [todo[0]]);
    }
  }

  /** The element after `x`; None is the list head. */
  function Follower(xs: seq<Handle>, x: Handle): Option<Handle>
    requires x in xs
  {
    if xs[0] == x then (if |xs| > 1 then Some(xs[1]) else None) else Follower(xs[1..], x)
  }

  lemma {:induction false} AfterMiddle(a: seq<Handle>, x: Handle, b: seq<Handle>)
    requires x !in a
    ensures x in a + [x] + b
    ensures Follower(a + [x] + b, x) == if b == [] then None else Some(b[0])
  {
    var all := a + [x] + b;
    assert all[|a|] == x;
    if a != [] {
      assert all[1..] == a[1..] + [x] + b;
      AfterMiddle(a[1..], x, b);
    }
  }

  /** A live walk with its cursor `node` and the element `next` read ahead; None is the list head. */
  ghost predicate Cursor(w: Wheel, s: Slot, kept: seq<Handle>, todo: seq<Handle>, extra: seq<Handle>,
                         node: Option<Handle>, next: Option<Handle>)
  {
    if node.None? then todo == []
    else
      MidWalk(w, s, kept, todo, extra) && todo + extra != [] && node == Some((todo + extra)[0]) &&
      next == if |todo + extra| > 1 then Some((todo + extra)[1]) else None
  }

  /** Such a walk is on its way to the state `goal`. */
  ghost predicate Walking(w: Wheel, s: Slot, kept: seq<Handle>, todo: seq<Handle>, extra: seq<Handle>,
                          node: Option<Handle>, next: Option<Handle>, goal: Wheel)
  {
    WF(w) && s in w.lists && (node.Some? ==> node.value in w.items) &&
    Cursor(w, s, kept, todo, extra, node, next) && (forall x :: x in todo ==> x in w.items) && Walk(w, s, todo) == goal
  }

  function First(xs: seq<Handle>): Option<Handle> {
    if xs == [] then None else Some(xs[0])
  }

  function AfterNode(xs: seq<Handle>, node: Option<Handle>): Option<Handle>
    requires node.Some? ==> node.value in xs
  {
    if node.None? then None else Follower(xs, node.value)
  }

  lemma WalkStart(w: Wheel, s: Slot)
    requires WF(w) && s in w.lists
    requires w.lists[s] == [] || (ClockOk(w) && w.now > 0 && s == ArrivalSlot(w.now))
    ensures forall x :: x in w.lists[s] ==> x in w.items
    ensures var xs := w.lists[s];
            Walking(w, s, [], xs, [], First(xs), AfterNode(xs, First(xs)), Walk(w, s, xs))
  {
    var xs := w.lists[s];
    assert forall x :: x in xs ==> Linked(w, s, x);
    if xs != [] {
      assert xs + [] == xs && [] + xs == xs;
      assert CanWalk(w, s, xs);
    }
  }

  lemma WalkingStep(w: Wheel, s: Slot, kept: seq<Handle>, todo: seq<Handle>, extra: seq<Handle>,
                    node: Option<Handle>, next: Option<Handle>, goal: Wheel)
    returns (kept': seq<Handle>, todo': seq<Handle>, extra': seq<Handle>)
    requires Walking(w, s, kept, todo, extra, node, next, goal) && node.Some?
    ensures var r := Visit(w, s, node.value);
            s in r.lists && (next.Some? ==> next.value in r.lists[s]) &&
            Walking(r, s, kept', todo', extra', next, AfterNode(r.lists[s], next), goal)
    ensures |todo'| < |todo| || (|todo'| == |todo| && |extra'| < |extra|)
  {
    kept', todo', extra' := MidStep(w, s, kept, todo, extra);
    var r := Visit(w, s, node.value);
    if next.Some? {
      MidSplit(r, s, kept', todo', extra');
      AfterMiddle(kept', next.value, (todo' + extra')[1..]);
    }
  }

  /** Wheel `l + 1` moves when wheel `l` has moved and shows 0. */
  lemma Carry(l: Level, t: nat)
    requires l < DAY
    ensures t % Unit(l + 1) == 0 <==> t % Unit(l) == 0 && Digit(l, t) == 0
  {
    if t % Unit(l + 1) == 0 {
      FullTurn(l, t);
    } else if t % Unit(l) == 0 && Digit(l, t) == 0 {
      var k := (t / Unit(l)) / Radix(l);
      DivMul(t / Unit(l), Radix(l));
      DivMul(t, Unit(l));
      Reorder(k, Radix(l), Unit(l));
      ModUnique(t, k, 0, Unit(l + 1));
    }
  }

  /** How one wheel moves at a tick. */
  lemma Turn(l: Level, t: nat)
    ensures (t + 1) % Unit(l) != 0 ==> Digit(l, t + 1) == Digit(l, t)
    ensures (t + 1) % Unit(l) == 0 ==>
              Digit(l, t + 1) == if l == DAY then Digit(l, t) + 1 else (Digit(l, t) + 1) % Radix(l)
  {
    UnitStep(l, t);
    if l < DAY {
      AddMod(t / Unit(l), Radix(l));
    }
  }

}
