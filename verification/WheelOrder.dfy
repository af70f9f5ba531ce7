/** The order between timers: two that are alike stay in the order in which they were added, and fire in it. */
module WheelOrder {
  import opened Clock
  import opened Options
  import opened WheelSpec
  import opened WheelSteps
  import opened WheelRuns
  import opened Sequences

  // ---------------------------------------------------------------- the two among others

  /** A list without all but `x` and `y`. */
  function Pair(xs: seq<Handle>, x: Handle, y: Handle): seq<Handle> {
    if xs == [] then [] else (if xs[0] == x || xs[0] == y then [xs[0]] else []) + Pair(xs[1..], x, y)
  }

  lemma PairCons(h: Handle, t: seq<Handle>, x: Handle, y: Handle)
    ensures Pair([h] + t, x, y) == (if h == x || h == y then [h] else []) + Pair(t, x, y)
  {
    assert ([h] + t)[1..] == t;
  }

  lemma {:induction false} PairJoin(a: seq<Handle>, b: seq<Handle>, x: Handle, y: Handle)
    ensures Pair(a + b, x, y) == Pair(a, x, y) + Pair(b, x, y)
  {
    if a == [] {
      assert a + b == b;
      assert [] + Pair(b, x, y) == Pair(b, x, y);
    } else {
      var h, t := a[0], a[1..];
      var one := if h == x || h == y then [h] else [];
      Regroup([h], t, b);
      assert a == [h] + t;
      PairCons(h, t, x, y);
      PairCons(h, t + b, x, y);
      PairJoin(t, b, x, y);
      Regroup(one, Pair(t, x, y), Pair(b, x, y));
    }
  }

  lemma RemovedCons(h: Handle, t: seq<Handle>, z: Handle)
    ensures Removed([h] + t, z) == if h == z then t else [h] + Removed(t, z)
  {
    assert ([h] + t)[1..] == t;
  }

  lemma {:induction false} PairRemoved(xs: seq<Handle>, z: Handle, x: Handle, y: Handle)
    ensures Pair(Removed(xs, z), x, y) ==
            if z == x || z == y then Removed(Pair(xs, x, y), z) else Pair(xs, x, y)
  {
    if xs != [] {
      var h, t := xs[0], xs[1..];
      assert xs == [h] + t;
      RemovedCons(h, t, z);
      PairCons(h, t, x, y);
      PairCons(h, Removed(t, z), x, y);
      RemovedCons(h, Pair(t, x, y), z);
      PairRemoved(t, z, x, y);
      assert [] + Pair(t, x, y) == Pair(t, x, y) && [] + Pair(Removed(t, z), x, y) == Pair(Removed(t, z), x, y);
    }
  }

  lemma {:induction false} PairHolds(xs: seq<Handle>, x: Handle, y: Handle)
    ensures forall v :: v in Pair(xs, x, y) <==> v in xs && (v == x || v == y)
  {
    if xs != [] {
      PairHolds(xs[1..], x, y);
      assert xs == [xs[0]] + xs[1..];
    }
  }

  lemma PairNone(xs: seq<Handle>, x: Handle, y: Handle)
    requires x !in xs && y !in xs
    ensures Pair(xs, x, y) == []
  {
    PairHolds(xs, x, y);
    assert Pair(xs, x, y) != [] ==> Pair(xs, x, y)[0] in Pair(xs, x, y);
  }

  /** Of a list with `x` only. */
  lemma {:induction false} PairSolo(xs: seq<Handle>, x: Handle, y: Handle)
    requires NoDup(xs) && x in xs && y !in xs
    ensures Pair(xs, x, y) == [x]
  {
    assert xs == [xs[0]] + xs[1..];
    if xs[0] == x {
      PairNone(xs[1..], x, y);
    } else {
      PairSolo(xs[1..], x, y);
    }
  }

  /** A list that holds both, each once, in three parts. */
  lemma {:induction false} PairSplits(xs: seq<Handle>, v: Handle, x: Handle, y: Handle)
    returns (a: seq<Handle>, b: seq<Handle>)
    requires Pair(xs, x, y) != [] && Pair(xs, x, y)[0] == v
    ensures xs == a + [v] + b && Pair(a, x, y) == [] && Pair(b, x, y) == Pair(xs, x, y)[1..]
  {
    var h, t := xs[0], xs[1..];
    assert xs == [h] + t;
    PairCons(h, t, x, y);
    if h == x || h == y {
      a, b := [], t;
      assert [v] + Pair(t, x, y) == Pair(xs, x, y);
      assert ([v] + Pair(t, x, y))[1..] == Pair(t, x, y);
    } else {
      assert [] + Pair(t, x, y) == Pair(t, x, y);
      a, b := PairSplits(t, v, x, y);
      PairCons(h, a, x, y);
      assert [h] + a + [v] + b == [h] + (a + [v] + b);
      a := [h] + a;
    }
  }

  function Handles(log: seq<Firing>): seq<Handle> {
    seq(|log|, i requires 0 <= i < |log| => log[i].handle)
  }

  function PairLog(log: seq<Firing>, x: Handle, y: Handle): seq<Handle> {
    Pair(Handles(log), x, y)
  }

  lemma PairLogJoin(a: seq<Firing>, b: seq<Firing>, x: Handle, y: Handle)
    ensures PairLog(a + b, x, y) == PairLog(a, x, y) + PairLog(b, x, y)
  {
    assert Handles(a + b) == Handles(a) + Handles(b);
    PairJoin(Handles(a), Handles(b), x, y);
  }

  // ---------------------------------------------------------------- what becomes of an item

  /** An item that is visited stays, goes to the end of a list, or leaves. */
  datatype Fate = Stays | Goes(to: Slot) | Leaves

  predicate FiresNow(s: Slot, it: Item, now: nat) {
    !Waits(s, it, now) && CascadeLevel(s.level, it).None?
  }

  function ItemAfter(s: Slot, it: Item, now: nat): Item {
    if !FiresNow(s, it, now) then it
    else if it.ttl == 1 then Spent(it)
    else Stamped(Spent(it), now + it.interval)
  }

  function FateOf(s: Slot, it: Item, now: nat): Fate {
    if Waits(s, it, now) then Stays
    else if FiresNow(s, it, now) then
      if it.ttl == 1 then Leaves
      else Goes(SlotOf(RefileLevel(ItemAfter(s, it, now), now), ItemAfter(s, it, now)))
    else Goes(SlotOf(CascadeLevel(s.level, it).value, it))
  }

  function ListsAfter(lists: map<Slot, seq<Handle>>, s: Slot, x: Handle, f: Fate): map<Slot, seq<Handle>>
    requires s in lists && (f.Goes? ==> f.to in lists)
  {
    match f
    case Stays => lists
    case Goes(t) =>
      var left := lists[s := Removed(lists[s], x)];
      left[t := left[t] + [x]]
    case Leaves => lists[s := Removed(lists[s], x)]
  }

  /** What a visit does, by the item's fate. */
  ghost predicate Fated(w: Wheel, r: Wheel, s: Slot, x: Handle)
    requires s in w.lists && x in w.items
  {
    var it, f := w.items[x], FateOf(s, w.items[x], w.now);
    (f.Goes? ==> f.to in w.lists) && r.lists == ListsAfter(w.lists, s, x, f) && r.now == w.now &&
    r.items == w.items[x := ItemAfter(s, it, w.now)] &&
    r.log == w.log + if FiresNow(s, it, w.now) then [Firing(x, it.task, w.now)] else []
  }

  lemma RefireFate(w: Wheel, u: Wheel, s: Slot, x: Handle)
    requires Shape(w) && s in w.lists && x in w.items && FiresNow(s, w.items[x], w.now) && w.items[x].ttl != 1
    requires u == Submit(w, s, x)
    ensures Fated(w, Refile(u, x), s, x)
  {
    var it := w.items[x];
    var it' := Stamped(Spent(it), w.now + it.interval);
    RefilePuts(u, x, it', SlotOf(RefileLevel(it', w.now), it'));
    assert w.items[x := Spent(it)][x := it'] == w.items[x := it'];
  }

  lemma FireFate(w: Wheel, s: Slot, x: Handle)
    requires Shape(w) && s in w.lists && x in w.items && FiresNow(s, w.items[x], w.now)
    ensures Fated(w, Fire(w, s, x), s, x)
  {
    if w.items[x].ttl != 1 {
      RefireFate(w, Submit(w, s, x), s, x);
    }
  }

  lemma VisitFate(w: Wheel, s: Slot, x: Handle)
    requires Shape(w) && s in w.lists && x in w.items
    ensures Fated(w, Visit(w, s, x), s, x)
  {
    var it := w.items[x];
    assert w.log + [] == w.log;
    if FiresNow(s, it, w.now) {
      FireFate(w, s, x);
    } else {
      assert w.items[x := it] == w.items;
    }
  }

  /** Two items that differ in their callbacks at most. */
  predicate Alike(a: Item, b: Item) {
    a.(task := b.task) == b
  }

  lemma {:induction false} AlikeCascade(l: Level, a: Item, b: Item)
    requires Alike(a, b)
    ensures CascadeLevel(l, a) == CascadeLevel(l, b)
  {
    if l > MS {
      AlikeCascade(l - 1, a, b);
    }
  }

  lemma AlikeFate(s: Slot, a: Item, b: Item, now: nat)
    requires Alike(a, b)
    ensures FateOf(s, a, now) == FateOf(s, b, now) && (FiresNow(s, a, now) <==> FiresNow(s, b, now))
    ensures Alike(ItemAfter(s, a, now), ItemAfter(s, b, now))
  {
    AlikeCascade(s.level, a, b);
  }

  // ---------------------------------------------------------------- visits

  /** Of the two, `f` hang on `s` in this order, `g` on `t`, and none elsewhere. */
  ghost predicate Spread(w: Wheel, x: Handle, y: Handle, s: Slot, f: seq<Handle>, t: Slot, g: seq<Handle>) {
    forall s' :: s' in w.lists ==> Pair(w.lists[s'], x, y) == if s' == s then f else if s' == t then g else []
  }

  /** Nothing about the two has changed. */
  ghost predicate PairKept(w: Wheel, r: Wheel, x: Handle, y: Handle) {
    r.lists.Keys == w.lists.Keys && (forall s :: s in w.lists ==> Pair(r.lists[s], x, y) == Pair(w.lists[s], x, y)) &&
    (forall v :: v == x || v == y ==>
       (v in w.items <==> v in r.items) && (v in w.items ==> r.items[v] == w.items[v])) &&
    PairLog(r.log, x, y) == PairLog(w.log, x, y) && r.now == w.now
  }

  /** What hangs on a list of the two, of which `p` did, after `v` has met its fate on the list `s`. */
  function PairAfter(p: seq<Handle>, v: Handle, s: Slot, f: Fate, s': Slot): seq<Handle> {
    (if s' == s && !f.Stays? then Removed(p, v) else p) + if f == Goes(s') then [v] else []
  }

  lemma ListsPaired(lists: map<Slot, seq<Handle>>, s: Slot, v: Handle, f: Fate, x: Handle, y: Handle, s': Slot)
    requires s in lists && s' in lists && (f.Goes? ==> f.to in lists)
    ensures s' in ListsAfter(lists, s, v, f)
    ensures Pair(ListsAfter(lists, s, v, f)[s'], x, y) ==
            if v == x || v == y then PairAfter(Pair(lists[s'], x, y), v, s, f, s') else Pair(lists[s'], x, y)
  {
    var xs := if s' == s && !f.Stays? then Removed(lists[s'], v) else lists[s'];
    PairRemoved(lists[s'], v, x, y);
    assert ListsAfter(lists, s, v, f)[s'] == if f == Goes(s') then xs + [v] else xs;
    PairJoin(xs, [v], x, y);
    PairCons(v, [], x, y);
    assert [v] + [] == [v];
  }

  /** The lists after a visit, as far as the two are concerned. */
  lemma PairsVisited(w: Wheel, s: Slot, v: Handle, x: Handle, y: Handle, s': Slot)
    requires Shape(w) && s in w.lists && v in w.items && s' in w.lists
    ensures var p, f := Pair(w.lists[s'], x, y), FateOf(s, w.items[v], w.now);
            s' in Visit(w, s, v).lists &&
            Pair(Visit(w, s, v).lists[s'], x, y) == if v == x || v == y then PairAfter(p, v, s, f, s') else p
  {
    VisitFate(w, s, v);
    ListsPaired(w.lists, s, v, FateOf(s, w.items[v], w.now), x, y, s');
  }

  lemma VisitKeepsPair(w: Wheel, s: Slot, z: Handle, x: Handle, y: Handle)
    requires Shape(w) && s in w.lists && z in w.items && z != x && z != y
    ensures PairKept(w, Visit(w, s, z), x, y)
  {
    VisitFate(w, s, z);
    var r := Visit(w, s, z);
    forall s' | s' in w.lists ensures Pair(r.lists[s'], x, y) == Pair(w.lists[s'], x, y) {
      PairsVisited(w, s, z, x, y, s');
    }
    if FiresNow(s, w.items[z], w.now) {
      var f := Firing(z, w.items[z].task, w.now);
      PairLogJoin(w.log, [f], x, y);
      PairNone(Handles([f]), x, y);
    }
  }

  lemma KeptTwice(u: Wheel, v: Wheel, w: Wheel, x: Handle, y: Handle)
    requires PairKept(u, v, x, y) && PairKept(v, w, x, y)
    ensures PairKept(u, w, x, y)
  {
  }

  lemma {:induction false} WalkKeepsPair(w: Wheel, s: Slot, todo: seq<Handle>, x: Handle, y: Handle)
    requires Shape(w) && s in w.lists && (forall z :: z in todo ==> z in w.items) && Pair(todo, x, y) == []
    ensures PairKept(w, Walk(w, s, todo), x, y)
    decreases |todo|
  {
    if todo != [] {
      var r := Visit(w, s, todo[0]);
      VisitKeepsPair(w, s, todo[0], x, y);
      WalkKeepsPair(r, s, todo[1..], x, y);
      KeptTwice(w, r, Walk(w, s, todo), x, y);
    }
  }

  lemma {:induction false} WalkJoin(w: Wheel, s: Slot, a: seq<Handle>, b: seq<Handle>)
    requires Shape(w) && s in w.lists && forall x :: x in a + b ==> x in w.items
    ensures (forall x :: x in a ==> x in a + b) && forall x :: x in b ==> x in a + b
    ensures Walk(w, s, a + b) == Walk(Walk(w, s, a), s, b)
    decreases |a|
  {
    if a == [] {
      assert a + b == b;
    } else {
      assert (a + b)[0] == a[0] && (a + b)[1..] == a[1..] + b;
      assert forall x :: x in a[1..] + b ==> x in a + b;
      WalkJoin(Visit(w, s, a[0]), s, a[1..], b);
    }
  }

  // ---------------------------------------------------------------- one walk over both

  /** What hangs of the two on a list between their visits, when they have fate `f`. */
  function HalfAt(x: Handle, y: Handle, s: Slot, f: Fate, s': Slot): seq<Handle> {
    PairAfter(if s' == s then [x, y] else [], x, s, f, s')
  }

  ghost predicate HalfWay(w: Wheel, x: Handle, y: Handle, s: Slot, f: Fate) {
    forall s' :: s' in w.lists ==> Pair(w.lists[s'], x, y) == HalfAt(x, y, s, f, s')
  }

  ghost predicate BothDone(w: Wheel, x: Handle, y: Handle, s: Slot, f: Fate) {
    match f
    case Stays => Spread(w, x, y, s, [x, y], s, [])
    case Goes(t) => Spread(w, x, y, t, [x, y], t, [])
    case Leaves => Spread(w, x, y, s, [], s, [])
  }

  lemma VisitFirst(w: Wheel, s: Slot, x: Handle, y: Handle)
    requires Shape(w) && s in w.lists && x in w.items && x != y && Spread(w, x, y, s, [x, y], s, [])
    ensures HalfWay(Visit(w, s, x), x, y, s, FateOf(s, w.items[x], w.now))
  {
    var f := FateOf(s, w.items[x], w.now);
    assert [x, y][1..] == [y];
    forall s' | s' in Visit(w, s, x).lists
      ensures Pair(Visit(w, s, x).lists[s'], x, y) == PairAfter(if s' == s then [x, y] else [], x, s, f, s')
    {
      VisitKeepsSlots(w, s, x);
      PairsVisited(w, s, x, x, y, s');
    }
  }

  lemma VisitKeepsSlots(w: Wheel, s: Slot, x: Handle)
    requires Shape(w) && s in w.lists && x in w.items
    ensures Visit(w, s, x).lists.Keys == w.lists.Keys
  {
    VisitFate(w, s, x);
  }

  lemma SecondAfter(x: Handle, y: Handle, s: Slot, f: Fate, s': Slot)
    requires x != y
    ensures PairAfter(HalfAt(x, y, s, f, s'), y, s, f, s') ==
            match f
            case Stays => if s' == s then [x, y] else []
            case Goes(t) => if s' == t then [x, y] else []
            case Leaves => []
  {
    assert [x, y][1..] == [y] && [y, x][1..] == [x] && [y][1..] == [];
  }

  lemma VisitSecond(w: Wheel, s: Slot, x: Handle, y: Handle)
    requires Shape(w) && s in w.lists && y in w.items && x != y
    requires HalfWay(w, x, y, s, FateOf(s, w.items[y], w.now))
    ensures BothDone(Visit(w, s, y), x, y, s, FateOf(s, w.items[y], w.now))
  {
    var f := FateOf(s, w.items[y], w.now);
    forall s' | s' in Visit(w, s, y).lists
      ensures Pair(Visit(w, s, y).lists[s'], x, y) == PairAfter(HalfAt(x, y, s, f, s'), y, s, f, s')
    {
      VisitKeepsSlots(w, s, y);
      PairsVisited(w, s, y, x, y, s');
    }
    forall s' {
      SecondAfter(x, y, s, f, s');
    }
  }

  /** A walk up to its first visit of one of the two, and on from there. */
  lemma WalkTo(w: Wheel, s: Slot, todo: seq<Handle>, a: seq<Handle>, v: Handle, b: seq<Handle>, x: Handle, y: Handle)
    requires Shape(w) && s in w.lists && (forall z :: z in todo ==> z in w.items)
    requires todo == a + [v] + b && Pair(a, x, y) == []
    ensures (forall z :: z in a ==> z in w.items) && v in w.items && forall z :: z in b ==> z in w.items
    ensures PairKept(w, Walk(w, s, a), x, y)
    ensures Walk(w, s, todo) == Walk(Visit(Walk(w, s, a), s, v), s, b)
  {
    assert todo == a + ([v] + b) && ([v] + b)[0] == v && ([v] + b)[1..] == b;
    assert todo[|a|] == v;
    forall z | z in a || z in b ensures z in todo {
    }
    WalkJoin(w, s, a, [v] + b);
    WalkKeepsPair(w, s, a, x, y);
  }

  lemma LogVisited(w: Wheel, s: Slot, v: Handle, x: Handle, y: Handle)
    requires Shape(w) && s in w.lists && v in w.items && (v == x || v == y)
    ensures PairLog(Visit(w, s, v).log, x, y) ==
            PairLog(w.log, x, y) + if FiresNow(s, w.items[v], w.now) then [v] else []
  {
    VisitFate(w, s, v);
    if FiresNow(s, w.items[v], w.now) {
      var f := Firing(v, w.items[v].task, w.now);
      PairLogJoin(w.log, [f], x, y);
      assert Handles([f]) == [v] + [];
      PairCons(v, [], x, y);
    } else {
      assert PairLog(w.log, x, y) + [] == PairLog(w.log, x, y);
    }
  }

  /** The two as they stand: alike, and both on one list in this order, or both on none. */
  ghost predicate Together(w: Wheel, x: Handle, y: Handle) {
    x != y && x in w.items && y in w.items && Alike(w.items[x], w.items[y]) && exists s :: OnList(w, x, y, s)
  }

  ghost predicate OnList(w: Wheel, x: Handle, y: Handle, s: Slot) {
    Spread(w, x, y, s, [x, y], s, []) || Spread(w, x, y, s, [], s, [])
  }

  /** What a step adds to the firings of the two: both, the first first, or none. */
  ghost predicate InStep(w: Wheel, r: Wheel, x: Handle, y: Handle) {
    PairLog(r.log, x, y) == PairLog(w.log, x, y) + [x, y] || PairLog(r.log, x, y) == PairLog(w.log, x, y)
  }

  /** The walk up to and with the visit of `x`. */
  lemma FirstHalf(w: Wheel, s: Slot, todo: seq<Handle>, x: Handle, y: Handle) returns (u: Wheel, rest: seq<Handle>)
    requires Shape(w) && s in w.lists && (forall z :: z in todo ==> z in w.items) && x != y
    requires Spread(w, x, y, s, [x, y], s, []) && Pair(todo, x, y) == [x, y] && y in w.items
    ensures Shape(u) && u.lists.Keys == w.lists.Keys && u.now == w.now && (forall z :: z in rest ==> z in u.items)
    ensures Walk(w, s, todo) == Walk(u, s, rest) && Pair(rest, x, y) == [y] && x in w.items
    ensures HalfWay(u, x, y, s, FateOf(s, w.items[x], w.now))
    ensures x in u.items && u.items[x] == ItemAfter(s, w.items[x], w.now) && y in u.items && u.items[y] == w.items[y]
    ensures PairLog(u.log, x, y) == PairLog(w.log, x, y) + if FiresNow(s, w.items[x], w.now) then [x] else []
  {
    var a;
    a, rest := PairSplits(todo, x, x, y);
    assert [x, y][1..] == [y];
    WalkTo(w, s, todo, a, x, rest, x, y);
    var w1 := Walk(w, s, a);
    u := Visit(w1, s, x);
    VisitFirst(w1, s, x, y);
    VisitKeepsSlots(w1, s, x);
    VisitFate(w1, s, x);
    LogVisited(w1, s, x, x, y);
  }

  lemma HalfKept(u: Wheel, r: Wheel, s: Slot, f: Fate, x: Handle, y: Handle)
    requires PairKept(u, r, x, y)
    ensures HalfWay(u, x, y, s, f) ==> HalfWay(r, x, y, s, f)
    ensures BothDone(u, x, y, s, f) ==> BothDone(r, x, y, s, f)
  {
  }

  /** The visit of `y`. */
  lemma SecondVisit(u: Wheel, s: Slot, x: Handle, y: Handle) returns (r: Wheel)
    requires Shape(u) && s in u.lists && x != y && x in u.items && y in u.items
    requires HalfWay(u, x, y, s, FateOf(s, u.items[y], u.now))
    ensures r == Visit(u, s, y) && Shape(r) && s in r.lists && r.items.Keys == u.items.Keys
    ensures BothDone(r, x, y, s, FateOf(s, u.items[y], u.now))
    ensures r.items[x] == u.items[x] && r.items[y] == ItemAfter(s, u.items[y], u.now)
    ensures PairLog(r.log, x, y) == PairLog(u.log, x, y) + if FiresNow(s, u.items[y], u.now) then [y] else []
  {
    r := Visit(u, s, y);
    VisitSecond(u, s, x, y);
    VisitFate(u, s, y);
    LogVisited(u, s, y, x, y);
    VisitKeepsSlots(u, s, y);
  }

  /** The walk from there to its end. */
  lemma SecondHalf(u: Wheel, s: Slot, rest: seq<Handle>, x: Handle, y: Handle)
    requires Shape(u) && s in u.lists && (forall z :: z in rest ==> z in u.items) && x != y && x in u.items
    requires Pair(rest, x, y) == [y] && y in u.items && HalfWay(u, x, y, s, FateOf(s, u.items[y], u.now))
    ensures var r := Walk(u, s, rest);
            BothDone(r, x, y, s, FateOf(s, u.items[y], u.now)) && x in r.items && r.items[x] == u.items[x] &&
            y in r.items && r.items[y] == ItemAfter(s, u.items[y], u.now) &&
            PairLog(r.log, x, y) == PairLog(u.log, x, y) + if FiresNow(s, u.items[y], u.now) then [y] else []
  {
    var b, c := PairSplits(rest, y, x, y);
    var f := FateOf(s, u.items[y], u.now);
    WalkTo(u, s, rest, b, y, c, x, y);
    var u1 := Walk(u, s, b);
    HalfKept(u, u1, s, f, x, y);
    var u2 := SecondVisit(u1, s, x, y);
    assert Pair(c, x, y) == [];
    WalkKeepsPair(u2, s, c, x, y);
    HalfKept(u2, Walk(u2, s, c), s, f, x, y);
  }

  lemma DoneTogether(r: Wheel, s: Slot, f: Fate, x: Handle, y: Handle)
    requires x != y && x in r.items && y in r.items && Alike(r.items[x], r.items[y]) && BothDone(r, x, y, s, f)
    ensures Together(r, x, y)
  {
    assert OnList(r, x, y, if f.Goes? then f.to else s);
  }

  lemma BothLogged(a: seq<Handle>, b: seq<Handle>, c: seq<Handle>, fires: bool, x: Handle, y: Handle)
    requires b == a + (if fires then [x] else []) && c == b + if fires then [y] else []
    ensures c == a + [x, y] || c == a
  {
  }

  /** A walk over both fires both, the first first, or none, and leaves them together. */
  lemma WalkBoth(w: Wheel, s: Slot, todo: seq<Handle>, x: Handle, y: Handle)
    requires Shape(w) && s in w.lists && (forall z :: z in todo ==> z in w.items) && x != y
    requires Spread(w, x, y, s, [x, y], s, []) && Pair(todo, x, y) == [x, y]
    requires x in w.items && y in w.items && Alike(w.items[x], w.items[y])
    ensures Together(Walk(w, s, todo), x, y) && InStep(w, Walk(w, s, todo), x, y)
  {
    var u, rest := FirstHalf(w, s, todo, x, y);
    AlikeFate(s, w.items[x], w.items[y], w.now);
    SecondHalf(u, s, rest, x, y);
    DoneTogether(Walk(u, s, rest), s, FateOf(s, w.items[x], w.now), x, y);
    BothLogged(PairLog(w.log, x, y), PairLog(u.log, x, y), PairLog(Walk(u, s, rest).log, x, y),
               FiresNow(s, w.items[x], w.now), x, y);
  }

  // ---------------------------------------------------------------- steps and runs

  lemma TogetherKept(w: Wheel, r: Wheel, x: Handle, y: Handle)
    requires Together(w, x, y) && PairKept(w, r, x, y)
    ensures Together(r, x, y) && InStep(w, r, x, y)
  {
    var s :| OnList(w, x, y, s);
    assert OnList(r, x, y, s);
  }

  lemma TickElsewhere(w: Wheel, w1: Wheel, x: Handle, y: Handle)
    requires WF(w) && w1 == w.(now := w.now + 1) && Pair(w.lists[ArrivalSlot(w.now + 1)], x, y) == []
    ensures PairKept(w1, Tick(w), x, y)
  {
    TickStarts(w, w1, ArrivalSlot(w.now + 1));
    TickIs(w, w1, ArrivalSlot(w.now + 1));
    WalkKeepsPair(w1, ArrivalSlot(w.now + 1), w1.lists[ArrivalSlot(w.now + 1)], x, y);
  }

  lemma TickHere(w: Wheel, s: Slot, x: Handle, y: Handle)
    requires WF(w) && Together(w, x, y) && s == ArrivalSlot(w.now + 1) && Spread(w, x, y, s, [x, y], s, [])
    ensures Together(Tick(w), x, y) && InStep(w, Tick(w), x, y)
  {
    var w1 := w.(now := w.now + 1);
    TickStarts(w, w1, s);
    TickIs(w, w1, s);
    assert Spread(w1, x, y, s, [x, y], s, []);
    WalkBoth(w1, s, w1.lists[s], x, y);
  }

  lemma TickTogether(w: Wheel, x: Handle, y: Handle)
    requires WF(w) && Together(w, x, y)
    ensures Together(Tick(w), x, y) && InStep(w, Tick(w), x, y)
  {
    var s := ArrivalSlot(w.now + 1);
    var s0 :| OnList(w, x, y, s0);
    if Pair(w.lists[s], x, y) == [] {
      TickElsewhere(w, w.(now := w.now + 1), x, y);
      assert OnList(w.(now := w.now + 1), x, y, s0);
      TogetherKept(w.(now := w.now + 1), Tick(w), x, y);
    } else {
      TickHere(w, s, x, y);
    }
  }

  /** Another timer is added or deleted. */
  lemma OtherKeepsPair(w: Wheel, op: Op, x: Handle, y: Handle)
    requires Ready(w) && Enabled(w, op) && !op.Pass? && op != Remove(x) && op != Remove(y)
    requires x in w.items && y in w.items
    ensures PairKept(w, Step(w, op), x, y)
  {
    var r := Step(w, op);
    match op {
      case New(interval, ttl, task, mem) =>
        if Add(w, interval, ttl, task, mem).1.Some? {
          var z := mem.value;
          forall s | s in w.lists ensures Pair(r.lists[s], x, y) == Pair(w.lists[s], x, y) {
            PairJoin(w.lists[s], [z], x, y);
            PairCons(z, [], x, y);
          }
        }
      case Remove(z) =>
        if !RunOut(w, z) {
          var s0 :| Linked(w, s0, z) && r == Delete(w, s0, z);
          forall s | s in w.lists ensures Pair(r.lists[s], x, y) == Pair(w.lists[s], x, y) {
            PairRemoved(w.lists[s], z, x, y);
          }
        }
    }
  }

  lemma StepTogether(w: Wheel, op: Op, x: Handle, y: Handle)
    requires Ready(w) && Enabled(w, op) && Together(w, x, y) && op != Remove(x) && op != Remove(y)
    ensures Together(Step(w, op), x, y) && InStep(w, Step(w, op), x, y)
  {
    if op.Pass? {
      TickTogether(w, x, y);
    } else {
      OtherKeepsPair(w, op, x, y);
      TogetherKept(w, Step(w, op), x, y);
    }
  }

  /** `x` and `y` by turns, as often the one as the other. */
  ghost predicate InTurn(h: seq<Handle>, x: Handle, y: Handle) {
    |h| % 2 == 0 && forall i :: 0 <= i < |h| ==> h[i] == if i % 2 == 0 then x else y
  }

  lemma InTurnMore(h: seq<Handle>, x: Handle, y: Handle)
    requires InTurn(h, x, y)
    ensures InTurn([x, y] + h, x, y)
  {
    var g := [x, y] + h;
    forall i | 0 <= i < |g| ensures g[i] == if i % 2 == 0 then x else y {
      assert i >= 2 ==> g[i] == h[i - 2];
    }
  }

  lemma {:induction false} RunTogether(w: Wheel, ops: seq<Op>, x: Handle, y: Handle) returns (h: seq<Handle>)
    requires Ready(w) && Legal(w, ops) && Together(w, x, y) && Remove(x) !in ops && Remove(y) !in ops
    ensures InTurn(h, x, y) && PairLog(Run(w, ops).log, x, y) == PairLog(w.log, x, y) + h
    decreases |ops|
  {
    if ops == [] {
      h := [];
    } else {
      var w1 := Step(w, ops[0]);
      StepReady(w, ops[0]);
      StepTogether(w, ops[0], x, y);
      h := RunTogether(w1, ops[1..], x, y);
      if PairLog(w1.log, x, y) != PairLog(w.log, x, y) {
        Regroup(PairLog(w.log, x, y), [x, y], h);
        InTurnMore(h, x, y);
        h := [x, y] + h;
      }
    }
  }

  // ---------------------------------------------------------------- two timers added

  lemma {:induction false} RunJoin(w: Wheel, a: seq<Op>, b: seq<Op>)
    ensures Legal(w, a + b) <==> Legal(w, a) && Legal(Run(w, a), b)
    ensures Run(w, a + b) == Run(Run(w, a), b)
    decreases |a|
  {
    if a == [] {
      assert a + b == b;
    } else {
      RunJoin(Step(w, a[0]), a[1..], b);
      assert (a + b)[1..] == a[1..] + b;
    }
  }

  /** A new timer of no callback, for the clock to be written on. */
  function Blank(interval: nat, ttl: nat, task: Task): Item {
    Item(interval, ttl, 0, 0, 0, 0, 0, task)
  }

  /** Where a timer added now hangs. */
  ghost predicate Hung(w: Wheel, x: Handle, interval: nat, ttl: nat, task: Task, now: nat) {
    var it := Stamped(Blank(interval, ttl, task), now + interval);
    x in w.items && w.items[x] == it && Linked(w, SlotOf(AddLevel(it), it), x)
  }

  lemma AddedHangs(w: Wheel, interval: nat, ttl: nat, task: Task, x: Handle)
    requires Ready(w) && x !in w.items && 0 < interval < INTERVAL_MAX && task.cb != 0
    ensures var r := Step(w, New(interval, ttl, task, Some(x)));
            Ready(r) && Hung(r, x, interval, ttl, task, w.now) && r.now == w.now && r.log == w.log
  {
    StepReady(w, New(interval, ttl, task, Some(x)));
    AddedKeeps(w, interval, ttl, task, x);
  }

  /** While the clock stands, a timer hangs where it was put, and nothing fires. */
  lemma StandsStill(w: Wheel, op: Op, x: Handle, interval: nat, ttl: nat, task: Task, now: nat)
    requires Ready(w) && Enabled(w, op) && Hung(w, x, interval, ttl, task, now) && op != Remove(x) && !op.Pass?
    ensures var r := Step(w, op);
            Ready(r) && Hung(r, x, interval, ttl, task, now) && r.now == w.now && r.log == w.log
  {
    StepReady(w, op);
    match op {
      case New(i, k, t, mem) =>
        AddKeeps(w, i, k, t, mem);
      case Remove(z) =>
        RemoveKeeps(w, z);
    }
  }

  lemma {:induction false} StandsOn(w: Wheel, ops: seq<Op>, x: Handle, interval: nat, ttl: nat, task: Task, now: nat)
    requires Ready(w) && Legal(w, ops) && Hung(w, x, interval, ttl, task, now)
    requires Remove(x) !in ops && Pass !in ops
    ensures var r := Run(w, ops);
            Ready(r) && Hung(r, x, interval, ttl, task, now) && r.now == w.now && r.log == w.log
    decreases |ops|
  {
    if ops != [] {
      StandsStill(w, ops[0], x, interval, ttl, task, now);
      StandsOn(Step(w, ops[0]), ops[1..], x, interval, ttl, task, now);
    }
  }

  /** A timer like one that was added at the same time comes to hang behind it. */
  lemma AddedBehind(w: Wheel, x: Handle, y: Handle, interval: nat, ttl: nat, task: Task, task': Task)
    requires Ready(w) && Hung(w, x, interval, ttl, task, w.now) && y !in w.items
    requires 0 < interval < INTERVAL_MAX && task'.cb != 0
    ensures Together(Step(w, New(interval, ttl, task', Some(y))), x, y)
  {
    var it, it' := Stamped(Blank(interval, ttl, task), w.now + interval),
                   Stamped(Blank(interval, ttl, task'), w.now + interval);
    var s, r := SlotOf(AddLevel(it), it), Step(w, New(interval, ttl, task', Some(y)));
    assert r == Put(w, s, y, it');
    forall s' | s' in w.lists ensures Pair(r.lists[s'], x, y) == if s' == s then [x, y] else [] {
      SlotPairs(w, s, s', x, y);
      PairJoin(w.lists[s], [y], x, y);
      PairCons(y, [], x, y);
    }
    assert OnList(r, x, y, s);
  }

  lemma SlotPairs(w: Wheel, s: Slot, s': Slot, x: Handle, y: Handle)
    requires WF(w) && Linked(w, s, x) && y !in w.items && s' in w.lists
    ensures Pair(w.lists[s'], x, y) == if s' == s then [x] else []
  {
    assert !Linked(w, s', y);
    if s' == s {
      PairSolo(w.lists[s], x, y);
    } else {
      assert !Linked(w, s', x);
      PairNone(w.lists[s'], x, y);
    }
  }

  // ---------------------------------------------------------------- on the log alone

  lemma LogSnoc(log: seq<Firing>, x: Handle, y: Handle)
    requires log != []
    ensures var h := log[|log| - 1].handle;
            PairLog(log, x, y) == PairLog(log[..|log| - 1], x, y) + if h == x || h == y then [h] else []
  {
    var m := |log| - 1;
    assert log == log[..m] + [log[m]];
    PairLogJoin(log[..m], [log[m]], x, y);
    assert Handles([log[m]]) == [log[m].handle] + [];
    PairCons(log[m].handle, [], x, y);
  }

  /** Which firing of the log is the how-manieth of the two. */
  lemma {:induction false} Locate(log: seq<Firing>, n: nat, x: Handle, y: Handle) returns (i: nat)
    requires n < |PairLog(log, x, y)|
    ensures i < |log| && log[i].handle == PairLog(log, x, y)[n] && |PairLog(log[..i], x, y)| == n
    decreases |log|
  {
    var m := |log| - 1;
    LogSnoc(log, x, y);
    if n < |PairLog(log[..m], x, y)| {
      i := Locate(log[..m], n, x, y);
      assert log[..m][..i] == log[..i];
    } else {
      i := m;
    }
  }

  lemma {:induction false} CountedIn(log: seq<Firing>, v: Handle, x: Handle, y: Handle)
    requires v == x || v == y
    ensures |FiringsOf(log, v)| == multiset(PairLog(log, x, y))[v]
    decreases |log|
  {
    if log != [] {
      LogSnoc(log, x, y);
      CountedIn(log[..|log| - 1], v, x, y);
    }
  }

  lemma {:induction false} TurnsCounted(h: seq<Handle>, n: nat, x: Handle, y: Handle)
    requires InTurn(h, x, y) && n <= |h| && x != y
    ensures multiset(h[..n])[x] == (n + 1) / 2 && multiset(h[..n])[y] == n / 2
    decreases n
  {
    if n > 0 {
      TurnsCounted(h, n - 1, x, y);
      assert h[..n] == h[..n - 1] + [h[n - 1]];
    }
  }

  /** What a part of the log holds of the two. */
  lemma PartOfTurns(log: seq<Firing>, n: nat, x: Handle, y: Handle)
    requires n <= |log| && x != y && InTurn(PairLog(log, x, y), x, y)
    ensures var k, p := |PairLog(log[..n], x, y)|, PairLog(log, x, y);
            k <= |p| && PairLog(log[..n], x, y) == p[..k] &&
            |FiringsOf(log[..n], x)| == (k + 1) / 2 && |FiringsOf(log[..n], y)| == k / 2 &&
            (n < |log| && (log[n].handle == x || log[n].handle == y) ==> k < |p| && p[k] == log[n].handle)
  {
    var a, b := log[..n], log[n..];
    assert log == a + b;
    PairLogJoin(a, b, x, y);
    TurnsCounted(PairLog(log, x, y), |PairLog(a, x, y)|, x, y);
    CountedIn(a, x, x, y);
    CountedIn(a, y, x, y);
    if n < |log| {
      assert Handles(b) == [log[n].handle] + Handles(b[1..]);
      PairCons(log[n].handle, Handles(b[1..]), x, y);
    }
  }

  /** The how-manieth firing of `y` stands behind the same firing of `x`. */
  lemma FirstComes(log: seq<Firing>, j: nat, x: Handle, y: Handle) returns (i: nat)
    requires x != y && InTurn(PairLog(log, x, y), x, y) && j < |log| && log[j].handle == y
    ensures i < j && log[i].handle == x && |FiringsOf(log[..i], x)| == |FiringsOf(log[..j], y)|
  {
    PartOfTurns(log, j, x, y);
    var k := |PairLog(log[..j], x, y)|;
    assert k % 2 == 1;
    i := Locate(log[..j], k - 1, x, y);
    assert log[..j][..i] == log[..i];
    PartOfTurns(log, i, x, y);
  }

  /** A run only adds to the log. */
  lemma {:induction false} WalkLogs(w: Wheel, s: Slot, todo: seq<Handle>)
    requires Shape(w) && s in w.lists && forall x :: x in todo ==> x in w.items
    ensures w.log <= Walk(w, s, todo).log
    decreases |todo|
  {
    if todo != [] {
      VisitFate(w, s, todo[0]);
      WalkLogs(Visit(w, s, todo[0]), s, todo[1..]);
    }
  }

  lemma StepLogs(w: Wheel, op: Op)
    requires Ready(w) && Enabled(w, op)
    ensures w.log <= Step(w, op).log
  {
    match op {
      case Pass =>
        TickStarts(w, w.(now := w.now + 1), ArrivalSlot(w.now + 1));
        TickIs(w, w.(now := w.now + 1), ArrivalSlot(w.now + 1));
        WalkLogs(w.(now := w.now + 1), ArrivalSlot(w.now + 1), w.lists[ArrivalSlot(w.now + 1)]);
      case New(interval, ttl, task, mem) =>
        AddKeeps(w, interval, ttl, task, mem);
      case Remove(z) =>
        RemoveKeeps(w, z);
    }
  }

  lemma {:induction false} RunLogs(w: Wheel, ops: seq<Op>)
    requires Ready(w) && Legal(w, ops)
    ensures w.log <= Run(w, ops).log
    decreases |ops|
  {
    if ops != [] {
      StepReady(w, ops[0]);
      StepLogs(w, ops[0]);
      RunLogs(Step(w, ops[0]), ops[1..]);
    }
  }

  lemma RunInTurn(w: Wheel, ops: seq<Op>, x: Handle, y: Handle)
    requires Ready(w) && Legal(w, ops) && Together(w, x, y) && Remove(x) !in ops && Remove(y) !in ops
    ensures w.log <= Run(w, ops).log && InTurn(PairLog(Run(w, ops).log[|w.log|..], x, y), x, y)
  {
    var h := RunTogether(w, ops, x, y);
    RunLogs(w, ops);
    var log := Run(w, ops).log;
    assert log == w.log + log[|w.log|..];
    PairLogJoin(w.log, log[|w.log|..], x, y);
    assert (PairLog(w.log, x, y) + h)[|PairLog(w.log, x, y)|..] == h;
    assert PairLog(log, x, y)[|PairLog(w.log, x, y)|..] == PairLog(log[|w.log|..], x, y);
  }

  /**
   Two timers added one after the other while the clock stands, with the same
   interval and number of rounds: over every run that deletes neither, they fire by
   turns, the first to be added first, whatever else is added, deleted and fired, and
   wherever they are moved down and put back on the way.
   */
  lemma FireByTurns(w: Wheel, interval: nat, ttl: nat, task: Task, task': Task, x: Handle, y: Handle, mid: seq<Op>,
                    rest: seq<Op>)
    requires Ready(w) && x !in w.items && 0 < interval < INTERVAL_MAX && task.cb != 0 && task'.cb != 0
    requires Legal(w, [New(interval, ttl, task, Some(x))] + mid + [New(interval, ttl, task', Some(y))] + rest)
    requires Pass !in mid && Remove(x) !in mid && Remove(x) !in rest && Remove(y) !in rest
    ensures var r := Run(w, [New(interval, ttl, task, Some(x))] + mid + [New(interval, ttl, task', Some(y))] + rest);
            w.log <= r.log && InTurn(PairLog(r.log[|w.log|..], x, y), x, y) &&
            // in other words, the k-th firing of the second comes after the k-th of the first
            var late := r.log[|w.log|..];
            forall j :: 0 <= j < |late| && late[j].handle == y ==>
              exists i :: 0 <= i < j && late[i].handle == x && |FiringsOf(late[..i], x)| == |FiringsOf(late[..j], y)|
  {
    var a, b := New(interval, ttl, task, Some(x)), New(interval, ttl, task', Some(y));
    RunJoin(w, [a] + mid + [b], rest);
    RunJoin(w, [a] + mid, [b]);
    RunJoin(w, [a], mid);
    assert [a][1..] == [] && [b][1..] == [];
    var w1 := Step(w, a);
    assert Run(w, [a]) == w1;
    AddedHangs(w, interval, ttl, task, x);
    StandsOn(w1, mid, x, interval, ttl, task, w.now);
    var w2 := Run(w1, mid);
    var w3 := Step(w2, b);
    assert Run(w2, [b]) == w3 && Enabled(w2, b);
    AddedHangs(w2, interval, ttl, task', y);
    AddedBehind(w2, x, y, interval, ttl, task, task');
    RunInTurn(w3, rest, x, y);
    var late := Run(w3, rest).log[|w.log|..];
    forall j | 0 <= j < |late| && late[j].handle == y
      ensures exists i :: 0 <= i < j && late[i].handle == x && |FiringsOf(late[..i], x)| == |FiringsOf(late[..j], y)|
    {
      var i := FirstComes(late, j, x, y);
    }
  }
}
