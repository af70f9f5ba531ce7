/**
 The timing wheel as a function of its state: list heads, timer items and the
 clock, with one function for each thing the timer thread or a caller does to
 them under the mutex.
 */
module WheelSpec {
  import opened Clock
  import opened Options
  import opened Sequences

  /** Intervals at or above twenty years are refused. */
  const INTERVAL_MAX: nat := 630_720_000_000
  /** The clock is summed in C `int`; at this value the sum overflows. */
  const NOW_MAX: nat := 0x8000_0000

  /** The address of a timer item. */
  type Handle = nat

  /** A callback and its argument; callback 0 is NULL. */
  datatype Task = Task(cb: nat, arg: nat)

  datatype Item = Item(interval: nat, ttl: nat, ms: nat, s: nat, m: nat, h: nat, d: nat, task: Task)

  /** The address of a list head: a wheel and a position on it. */
  datatype Slot = Slot(level: Level, idx: nat)

  /** A callback handed to the thread pool. */
  datatype Firing = Firing(handle: Handle, task: Task, time: nat)

  /** What a pointer of the ring leads to: a list head or an item. */
  datatype Place = Head(slot: Slot) | Entry(handle: Handle)

  /** The pointers an item was left with when it was last taken off a list. */
  datatype Gap = Gap(before: Place, behind: Place)

  datatype Wheel = Wheel(now: nat, lists: map<Slot, seq<Handle>>, items: map<Handle, Item>, gaps: map<Handle, Gap>,
                         log: seq<Firing>)

  // ---------------------------------------------------------------- items

  function ItemDigit(it: Item, l: Level): nat {
    if l == MS then it.ms else if l == SEC then it.s else if l == MIN then it.m else if l == HOUR then it.h else it.d
  }

  predicate InRange(it: Item) {
    it.ms < 1000 && it.s < 60 && it.m < 60 && it.h < 24 && 1 <= it.interval < INTERVAL_MAX
  }

  /** What the digits below wheel `l` add up to. */
  function Below(it: Item, l: Level): (b: nat)
    ensures InRange(it) ==> b < Unit(l)
  {
    if l == MS then 0 else ItemDigit(it, l - 1) * Unit(l - 1) + Below(it, l - 1)
  }

  /** The time written on an item. */
  function Stamp(it: Item): nat {
    it.d * Unit(DAY) + Below(it, DAY)
  }

  /** An item with the digits of time `t`; the day is cut to 16 bits. */
  function Stamped(it: Item, t: nat): (r: Item)
    ensures 1 <= it.interval < INTERVAL_MAX ==> InRange(r)
  {
    it.(ms := Digit(MS, t), s := Digit(SEC, t), m := Digit(MIN, t), h := Digit(HOUR, t),
        d := Digit(DAY, t) % 0x1_0000)
  }

  // ---------------------------------------------------------------- placement

  function SlotOf(l: Level, it: Item): Slot {
    Slot(l, if l == DAY then 0 else ItemDigit(it, l))
  }

  /** Where a periodic timer is put back: the highest digit that is set and differs from the clock. */
  function RefileLevel(it: Item, now: nat): (l: Level) {
    if it.d != 0 && it.d != Digit(DAY, now) then DAY
    else if it.h != 0 && it.h != Digit(HOUR, now) then HOUR
    else if it.m != 0 && it.m != Digit(MIN, now) then MIN
    else if it.s != 0 && it.s != Digit(SEC, now) then SEC
    else MS
  }

  /** Where a new timer is put: the highest digit that is set. */
  function AddLevel(it: Item): (l: Level) {
    if it.d != 0 then DAY else if it.h != 0 then HOUR else if it.m != 0 then MIN else if it.s != 0 then SEC else MS
  }

  /** Where a timer moves down to from wheel `l`: the highest digit below that is set, if any. */
  function CascadeLevel(l: Level, it: Item): (r: Option<Level>)
    ensures r.Some? ==> r.value < l && ItemDigit(it, r.value) != 0
  {
    if l == MS then None
    else if ItemDigit(it, l - 1) != 0 then Some(l - 1)
    else CascadeLevel(l - 1, it)
  }

  // ---------------------------------------------------------------- lists

  predicate ValidSlot(s: Slot) {
    s.idx < if s.level == DAY then 1 else Radix(s.level)
  }

  /** Every list head is there, and every item has digits in range. */
  ghost predicate Shape(w: Wheel) {
    (forall s: Slot :: s in w.lists <==> ValidSlot(s)) &&
    (forall x :: x in w.items ==> InRange(w.items[x]))
  }

  function Removed(xs: seq<Handle>, x: Handle): seq<Handle> {
    if xs == [] then [] else if xs[0] == x then xs[1..] else [xs[0]] + Removed(xs[1..], x)
  }

  function Link(w: Wheel, s: Slot, x: Handle): Wheel
    requires s in w.lists
  {
    w.(lists := w.lists[s := w.lists[s] + [x]])
  }

  /** Store an item and link it. */
  function Put(w: Wheel, s: Slot, x: Handle, it: Item): Wheel
    requires s in w.lists
  {
    Link(w.(items := w.items[x := it]), s, x)
  }

  function PositionOf(xs: seq<Handle>, x: Handle): nat {
    if xs == [] || xs[0] == x then 0 else 1 + PositionOf(xs[1..], x)
  }

  /** The ring of the list `xs` at head `s`, starting from the head; after the last entry comes the head again. */
  function PlaceAt(s: Slot, xs: seq<Handle>, k: nat): Place {
    if 0 < k <= |xs| then Entry(xs[k - 1]) else Head(s)
  }

  function GapOf(s: Slot, xs: seq<Handle>, x: Handle): Gap {
    Gap(PlaceAt(s, xs, PositionOf(xs, x)), PlaceAt(s, xs, PositionOf(xs, x) + 2))
  }

  /** Take an item off its list; its own pointers stay as they were. */
  function Unlink(w: Wheel, s: Slot, x: Handle): Wheel
    requires s in w.lists
  {
    w.(lists := w.lists[s := Removed(w.lists[s], x)], gaps := w.gaps[x := GapOf(s, w.lists[s], x)])
  }

  // ---------------------------------------------------------------- invariant

  ghost predicate Linked(w: Wheel, s: Slot, x: Handle) {
    s in w.lists && x in w.lists[s]
  }

  ghost predicate Free(w: Wheel, x: Handle) {
    forall s :: !Linked(w, s, x)
  }

  /** An item may hang on `s`: below the day wheel, on the slot of its digit, and never on slot 0. */
  ghost predicate Fits(s: Slot, it: Item) {
    ValidSlot(s) && s == SlotOf(s.level, it) && (s.level < DAY ==> s.idx != 0)
  }

  ghost predicate WF(w: Wheel) {
    && Shape(w)
    && (forall s :: s in w.lists ==> NoDup(w.lists[s]))
    && (forall s, s', x :: Linked(w, s, x) && Linked(w, s', x) ==> s == s')
    && (forall s, x :: Linked(w, s, x) ==> x in w.items && Fits(s, w.items[x]))
  }

  // ---------------------------------------------------------------- steps

  /** Stamp an item with the present plus its interval and put it on a wheel. */
  ghost function Refile(w: Wheel, x: Handle): (r: Wheel)
    requires Shape(w) && x in w.items
    ensures Shape(r) && r.items.Keys == w.items.Keys && r.now == w.now
  {
    var it := Stamped(w.items[x], w.now + w.items[x].interval);
    Put(w, SlotOf(RefileLevel(it, w.now), it), x, it)
  }

  /** One round less; 0 stands for no limit. */
  function Spent(it: Item): Item {
    if it.ttl == 0 then it else it.(ttl := it.ttl - 1)
  }

  /** Hand the callback over, count the round and unlink the item. */
  ghost function Submit(w: Wheel, s: Slot, x: Handle): (r: Wheel)
    requires Shape(w) && s in w.lists && x in w.items
    ensures Shape(r) && r.items.Keys == w.items.Keys && r.now == w.now
  {
    var it := w.items[x];
    Unlink(w.(log := w.log + [Firing(x, it.task, w.now)], items := w.items[x := Spent(it)]), s, x)
  }

  /** A timer that has run out: submitted, and put back unless this was its last round. */
  ghost function Fire(w: Wheel, s: Slot, x: Handle): (r: Wheel)
    requires Shape(w) && s in w.lists && x in w.items
    ensures Shape(r) && r.items.Keys == w.items.Keys && r.now == w.now
  {
    if w.items[x].ttl == 1 then Submit(w, s, x) else Refile(Submit(w, s, x), x)
  }

  /** What the timer thread does with one item of a list it walks. */
  ghost function Visit(w: Wheel, s: Slot, x: Handle): (r: Wheel)
    requires Shape(w) && s in w.lists && x in w.items
    ensures Shape(r) && r.items.Keys == w.items.Keys && r.now == w.now
  {
    var it := w.items[x];
    if s.level == DAY && it.d != Digit(DAY, w.now) then w
    else
      match CascadeLevel(s.level, it)
      case Some(l) => Link(Unlink(w, s, x), SlotOf(l, it), x)
      case None => Fire(w, s, x)
  }

  /** The items of `todo` visited in order. */
  ghost function Walk(w: Wheel, s: Slot, todo: seq<Handle>): (r: Wheel)
    requires Shape(w) && s in w.lists && forall x :: x in todo ==> x in w.items
    ensures Shape(r) && r.items.Keys == w.items.Keys && r.now == w.now
    decreases |todo|
  {
    if todo == [] then w else Walk(Visit(w, s, todo[0]), s, todo[1..])
  }

  /** The list that the arrival of time `t` empties: on the highest wheel that moved. */
  function ArrivalSlot(t: nat): (s: Slot)
    ensures ValidSlot(s)
  {
    Slot(Top(t), if Top(t) == DAY then 0 else Digit(Top(t), t))
  }

  /** One millisecond. */
  ghost function Tick(w: Wheel): Wheel
    requires WF(w)
  {
    var s := ArrivalSlot(w.now + 1);
    assert forall x :: x in w.lists[s] ==> Linked(w, s, x);
    Walk(w.(now := w.now + 1), s, w.lists[s])
  }

  /** A new timer, at the address the allocator gave; None is the NULL that refuses it. */
  ghost function Add(w: Wheel, interval: nat, ttl: nat, task: Task, mem: Option<Handle>): (Wheel, Option<Handle>)
    requires Shape(w)
  {
    if interval >= INTERVAL_MAX || interval == 0 || task.cb == 0 || mem.None? then (w, None)
    else
      var it := Stamped(Item(interval, ttl, 0, 0, 0, 0, 0, task), w.now + interval);
      (Put(w, SlotOf(AddLevel(it), it), mem.value, it), mem)
  }

  /** A timer unlinked from its list and freed. */
  ghost function Delete(w: Wheel, s: Slot, x: Handle): Wheel
    requires s in w.lists
  {
    Unlink(w, s, x).(items := w.items - {x}, gaps := w.gaps - {x})
  }

  /** One place follows the other on some list. */
  ghost predicate Adjacent(w: Wheel, a: Place, b: Place) {
    exists s, k: nat :: s in w.lists && k <= |w.lists[s]| && NextTo(s, w.lists[s], k, a, b)
  }

  ghost predicate NextTo(s: Slot, xs: seq<Handle>, k: nat, a: Place, b: Place) {
    a == PlaceAt(s, xs, k) && b == PlaceAt(s, xs, k + 1)
  }

  /** A timer that hangs on no list any more, and whose old neighbours still are next to each other. */
  ghost predicate RunOut(w: Wheel, x: Handle) {
    x in w.items && Free(w, x) && x in w.gaps && Adjacent(w, w.gaps[x].before, w.gaps[x].behind)
  }

  /** Such a timer freed: what unlinking it once more writes is there already. */
  function Forget(w: Wheel, x: Handle): Wheel {
    w.(items := w.items - {x}, gaps := w.gaps - {x})
  }
}
