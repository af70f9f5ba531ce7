/** The skip list itself, its nodes rewritten in place. */
module SkipList {
  import opened Options
  import opened Pointers
  import opened SkipOrder
  import opened SkipLinks
  import opened SkipTable
  import opened SkipRank
  import opened SkipGood
  import opened Sequences

  class SkipList<T(==,!new)> {
    const cmp: Compare<T>
    /** The nodes that are allocated, by address. */
    var mem: Memory<T>
    var header: Ptr
    var tail: Ptr
    var length: nat
    var level: nat
    /** The header and, behind it, all nodes in the order of level 0. */
    ghost var nodes: seq<Ptr>

    ghost function Tab(): Table
      requires InMemory(nodes, mem)
      reads this
    {
      TableOf(nodes, mem)
    }

    ghost function Hs(): Heights
      requires InMemory(nodes, mem)
      reads this
    {
      HeightsOf(Tab())
    }

    ghost function Backs(): seq<Ptr>
      requires InMemory(nodes, mem)
      reads this
    {
      BacksOf(nodes, mem)
    }

    /** The elements, in order. */
    ghost function Elements(): (es: seq<Entry<T>>)
      requires Named(nodes, mem)
      reads this
    {
      ElementsOf(nodes, mem)
    }

    /** The levels in use link the nodes as their heights say. */
    ghost predicate Woven()
      reads this
    {
      Named(nodes, mem) && header == nodes[0] && Linked(nodes, Tab(), level)
    }

    ghost predicate Valid()
      reads this
    {
      Framed(mem, nodes, header, tail, length, level) && Ordered(cmp, mem, nodes)
    }

    constructor (cmp: Compare<T>, h: Ptr)
      requires TotalOrder(cmp) && h != NULL
      ensures Valid() && Elements() == [] && this.cmp == cmp && mem.Keys == {h}
    {
      this.cmp := cmp;
      mem := map[h := Node(0.0, None, NULL, seq(MAXLEVEL, _ => Level(NULL, 0)))];
      header := h;
      tail, length, level := NULL, 0, 1;
      nodes := [h];
    }

    /** How far a test reaches: the number of elements that pass it. */
    ghost function Reach(pass: Entry<T> -> bool): (k: nat)
      requires Named(nodes, mem)
      reads this
      ensures k < |nodes|
    {
      Passing(Elements(), pass)
    }

    // -------------------------------------------------------------- searching

    /** To the right along level `i`, as long as the next element passes the test. */
    method WalkRight(x0: Ptr, r0: nat, i: nat, pass: Entry<T> -> bool) returns (x: Ptr, r: nat)
      requires Woven() && Downward(Elements(), pass) && i < level
      requires r0 <= Reach(pass) && x0 == nodes[r0] && Hs()[r0] > i
      ensures LastUpTo(Hs(), Reach(pass), i, r) && x == nodes[r]
    {
      ghost var tab, k := Tab(), Reach(pass);
      x, r := x0, r0;
      LinkLeads(nodes, mem, tab, level, r, i, pass);
      while mem[x].level[i].forward != NULL && pass(EntryOf(mem[mem[x].level[i].forward]))
        invariant r <= k && x == nodes[r] && |tab[r]| > i
        invariant var q := Next(HeightsOf(tab), r, i);
                  if tab[r][i].forward == NULL then q == |nodes|
                  else q < |nodes| && tab[r][i] == Level(nodes[q], q - r) && |tab[q]| > i && mem[nodes[q]].obj.Some? &&
                       (pass(EntryOf(mem[nodes[q]])) <==> q <= k)
        decreases k - r
      {
        ghost var q := Next(HeightsOf(tab), r, i);
        assert mem[x].level[i] == Level(nodes[q], q - r) && q <= k && |tab[q]| > i;
        r := r + mem[x].level[i].span;
        assert r == q;
        x := mem[x].level[i].forward;
        LinkLeads(nodes, mem, tab, level, q, i, pass);
      }
      LastUpToNext(HeightsOf(tab), k, i, r);
    }

    /**
     The walk down and to the right: on each level in use, the last node before the
     place of `e`, and how many elements it is from the header.
     */
    method FindLeft(e: Entry<T>) returns (update: seq<Ptr>, rank: seq<nat>)
      requires Woven() && Downward(Elements(), Before(cmp, e))
      ensures |update| == |rank| == level && Updates(Hs(), Reach(Before(cmp, e)), rank, level)
      ensures rank[0] == Reach(Before(cmp, e))
      ensures forall i :: 0 <= i < level ==> update[i] == nodes[rank[i]]
    {
      ghost var hs, k := Hs(), Reach(Before(cmp, e));
      update, rank := [], [];
      var x: Ptr, r: nat, i: nat := header, 0, level;
      while i > 0
        invariant 0 <= i <= level && |update| == |rank| == level - i
        invariant r <= k && x == nodes[r] && (i > 0 ==> hs[r] > i - 1)
        invariant forall t :: 0 <= t < |rank| ==> LastUpTo(hs, k, i + t, rank[t])
        invariant forall t :: 0 <= t < |rank| ==> update[t] == nodes[rank[t]]
      {
        i := i - 1;
        x, r := WalkRight(x, r, i, Before(cmp, e));
        update, rank := [x] + update, [r] + rank;
      }
      LevelZero(nodes, Tab(), level, k, rank[0]);
    }

    // -------------------------------------------------------------- queries

    /**
     The 1-based rank of an element that is there, if objects are distinct. Of any
     other it tells what the test of the object alone can tell.
     */
    method GetRank(e: Entry<T>) returns (rank: nat)
      requires Valid()
      ensures RankAnswer(nodes, mem, Hs(), Reach(UpTo(cmp, e)), level, e.obj, rank)
      ensures rank > 0 ==> rank <= |Elements()| && Elements()[rank - 1].obj == e.obj
      ensures DistinctObjects(Elements()) && e in Elements() ==>
                rank > 0 && Elements()[rank - 1] == e &&
                rank == 1 + |set i | 0 <= i < |Elements()| &&
                                     (Elements()[i].score < e.score ||
                                      (Elements()[i].score == e.score && cmp(Elements()[i].obj, e.obj) < 0))|
    {
      SortedDownward(cmp, Elements(), e);
      rank := FindRank(e);
      AnswerTells(cmp, nodes, mem, level, e, rank);
      TellsCount(cmp, Elements(), e, rank);
    }

    method FindRank(e: Entry<T>) returns (rank: nat)
      requires Woven() && Downward(Elements(), UpTo(cmp, e))
      ensures RankAnswer(nodes, mem, Hs(), Reach(UpTo(cmp, e)), level, e.obj, rank)
    {
      ghost var hs, k := Hs(), Reach(UpTo(cmp, e));
      var x: Ptr, r: nat, i: nat := header, 0, level;
      while i > 0
        invariant 0 <= i <= level && r <= k && x == nodes[r] && (i > 0 ==> hs[r] > i - 1)
        invariant forall j: nat, p: nat :: i <= j < level && LastUpTo(hs, k, j, p) ==> mem[nodes[p]].obj != Some(e.obj)
      {
        i := i - 1;
        x, r := WalkRight(x, r, i, UpTo(cmp, e));
        if mem[x].obj == Some(e.obj) {
          return r;
        }
        forall p: nat | LastUpTo(hs, k, i, p) ensures p == r {
          LastUnique(hs, k, i, p, r);
        }
      }
      rank := 0;
    }

    /** The node at a 1-based position; the header for 0 and NULL beyond the end. */
    method GetElementByRank(rank: nat) returns (x: Ptr)
      requires Valid()
      ensures x == if rank < |nodes| then nodes[rank] else NULL
      ensures 1 <= rank <= |Elements()| ==> x in mem && mem[x].obj.Some? && EntryOf(mem[x]) == Elements()[rank - 1]
    {
      ghost var hs, k := Hs(), if rank < |nodes| then rank else |nodes| - 1;
      var n: Ptr, traversed: nat, i: nat := header, 0, level;
      while i > 0
        invariant 0 <= i <= level && traversed <= k && n == nodes[traversed] && (i > 0 ==> hs[traversed] > i - 1)
        invariant i == 0 ==> LastUpTo(hs, k, 0, traversed)
        invariant i < level ==> traversed != rank
      {
        i := i - 1;
        n, traversed := WalkTo(n, traversed, i, rank);
        if traversed == rank {
          return n;
        }
      }
      LevelZero(nodes, Tab(), level, k, traversed);
      x := NULL;
    }

    /** To the right along level `i`, as long as the position stays within `rank`. */
    method WalkTo(x0: Ptr, r0: nat, i: nat, rank: nat) returns (x: Ptr, r: nat)
      requires Woven() && i < level && r0 < |nodes| && r0 <= rank && x0 == nodes[r0] && Hs()[r0] > i
      ensures LastUpTo(Hs(), if rank < |nodes| then rank else |nodes| - 1, i, r) && x == nodes[r]
    {
      ghost var tab, k := Tab(), if rank < |nodes| then rank else |nodes| - 1;
      x, r := x0, r0;
      while mem[x].level[i].forward != NULL && r + mem[x].level[i].span <= rank
        invariant r <= k && x == nodes[r] && |tab[r]| > i
        decreases k - r
      {
        ghost var q := Next(HeightsOf(tab), r, i);
        assert mem[x].level[i] == LinkAt(nodes, HeightsOf(tab), r, i);
        r := r + mem[x].level[i].span;
        assert r == q;
        x := mem[x].level[i].forward;
      }
      assert mem[x].level[i] == LinkAt(nodes, HeightsOf(tab), r, i);
      LastUpToNext(HeightsOf(tab), k, i, r);
    }

    // -------------------------------------------------------------- insertion

    method SetLink(n: Ptr, ghost p: nat, i: nat, l: Level)
      requires InMemory(nodes, mem) && Addressed(nodes) && p < |nodes| && n == nodes[p] && i < |mem[n].level|
      modifies this`mem
      ensures Relinked(old(mem), mem) && InMemory(nodes, mem) && Tab() == SetLevel(old(Tab()), p, i, l)
      ensures forall a :: a in mem && a != n ==> mem[a] == old(mem)[a]
    {
      mem := mem[n := mem[n].(level := mem[n].level[i := l])];
    }

    method SetOwn(x: Ptr, i: nat, l: Level)
      requires InMemory(nodes, mem) && x in mem && x !in nodes && i < |mem[x].level|
      modifies this`mem
      ensures Relinked(old(mem), mem) && InMemory(nodes, mem) && Tab() == old(Tab())
      ensures mem[x].level == old(mem)[x].level[i := l]
    {
      mem := mem[x := mem[x].(level := mem[x].level[i := l])];
    }

    /** Level `i` of the header spans the whole list. */
    method RaiseHeader(i: nat, ghost tab: Table)
      requires InMemory(nodes, mem) && Addressed(nodes) && nodes != [] && header == nodes[0] && level <= i < MAXLEVEL
      requires length == |nodes| - 1 && |tab| == |nodes| && |tab[0]| == MAXLEVEL && Tab() == Raised(tab, level, i)
      modifies this`mem
      ensures Relinked(old(mem), mem) && InMemory(nodes, mem) && Tab() == Raised(tab, level, i + 1)
    {
      assert mem[header].level == Raised(tab, level, i)[0];
      RaisedStep(tab, level, i);
      SetLink(header, 0, i, mem[header].level[i].(span := length));
    }

    /** The levels that come into use: on each, the header spans the whole list. */
    method Raise(update: seq<Ptr>, rank: seq<nat>, h: nat, ghost k: nat)
      returns (update': seq<Ptr>, rank': seq<nat>)
      requires Woven() && level < h <= MAXLEVEL && length == |nodes| - 1
      requires |update| == |rank| == level && Updates(Hs(), k, rank, level)
      requires forall i :: 0 <= i < level ==> update[i] == nodes[rank[i]]
      modifies this`mem, this`level
      ensures Relinked(old(mem), mem) && Woven() && level == h && Hs() == old(Hs())
      ensures |update'| == |rank'| == level && Updates(Hs(), k, rank', level) && rank'[0] == rank[0]
      ensures forall i :: 0 <= i < level ==> update'[i] == nodes[rank'[i]]
    {
      ghost var tab := Tab();
      update', rank' := update, rank;
      var i := level;
      RaisedNone(tab, level);
      while i < h
        invariant level == old(level) && level <= i <= h && |update'| == |rank'| == i && rank <= rank'
        invariant update <= update'
        invariant forall j :: level <= j < i ==> rank'[j] == 0 && update'[j] == header
        invariant Relinked(old(mem), mem) && InMemory(nodes, mem) && Tab() == Raised(tab, level, i)
      {
        rank' := rank' + [0];
        update' := update' + [header];
        RaiseHeader(i, tab);
        i := i + 1;
      }
      RaisedLinked(nodes, tab, level, h);
      RaisedUpdates(nodes, tab, level, h, k, rank, rank');
      level := h;
    }

    /** On level `i`, put the new node between its left neighbour and what that one was linked to. */
    method LinkLevel(x: Ptr, left: Ptr, dist: nat, i: nat, ghost tab: Table, ghost k: nat, ghost rank: seq<nat>)
      requires Named(nodes, mem) && Linked(nodes, tab, level) && Updates(HeightsOf(tab), k, rank, level)
      requires x in mem && x !in nodes && i < |mem[x].level| <= level && left == nodes[rank[i]] && dist == k - rank[i]
      requires PartLinks(tab, Tab(), x, k, |mem[x].level|, rank, i) && PartOwn(tab, mem[x].level, k, rank, i)
      modifies this`mem
      ensures Relinked(old(mem), mem) && InMemory(nodes, mem) && |mem[x].level| == |old(mem)[x].level|
      ensures PartLinks(tab, Tab(), x, k, |mem[x].level|, rank, i + 1) && PartOwn(tab, mem[x].level, k, rank, i + 1)
    {
      ghost var before := Tab();
      PartRead(nodes, tab, before, x, k, |mem[x].level|, rank, level, i);
      var link := mem[left].level[i];
      var own := Level(link.forward, link.span - dist);
      OwnStep(tab, mem[x].level, k, rank, i, own);
      SetOwn(x, i, own);
      SetLink(left, rank[i], i, Level(x, dist + 1));
      PartStep(tab, before, Tab(), x, k, |mem[x].level|, rank, i);
    }

    /** Hang the new node in on its own levels. */
    method LinkLevels(x: Ptr, update: seq<Ptr>, rank: seq<nat>, ghost k: nat)
      requires Woven() && x !in nodes && x in mem && 1 <= |mem[x].level| <= level
      requires |update| == |rank| == level && Updates(Hs(), k, rank, level) && rank[0] == k
      requires forall i :: 0 <= i < level ==> update[i] == nodes[rank[i]]
      modifies this`mem
      ensures Relinked(old(mem), mem) && InMemory(nodes, mem)
      ensures var h := |old(mem)[x].level|;
              |mem[x].level| == h && PartLinks(old(Tab()), Tab(), x, k, h, rank, h) &&
              OwnLinks(old(Tab()), mem[x].level, k, rank)
    {
      ghost var tab := Tab();
      var i := 0;
      while i < |mem[x].level|
        invariant Relinked(old(mem), mem) && InMemory(nodes, mem) && 0 <= i <= |mem[x].level| == |old(mem)[x].level|
        invariant PartLinks(tab, Tab(), x, k, |mem[x].level|, rank, i) && PartOwn(tab, mem[x].level, k, rank, i)
      {
        assert LastUpTo(HeightsOf(tab), k, i, rank[i]);
        LinkLevel(x, update[i], rank[0] - rank[i], i, tab, k, rank);
        i := i + 1;
      }
    }

    method StretchLevel(left: Ptr, i: nat, ghost x: Ptr, ghost h: nat, ghost tab: Table, ghost k: nat,
                        ghost rank: seq<nat>)
      requires Named(nodes, mem) && Linked(nodes, tab, level) && Updates(HeightsOf(tab), k, rank, level)
      requires h <= i < level && left == nodes[rank[i]] && PartLinks(tab, Tab(), x, k, h, rank, i)
      modifies this`mem
      ensures Relinked(old(mem), mem) && InMemory(nodes, mem) && PartLinks(tab, Tab(), x, k, h, rank, i + 1)
      ensures forall a :: a in mem && a !in nodes ==> mem[a] == old(mem)[a]
    {
      ghost var before := Tab();
      PartRead(nodes, tab, before, x, k, h, rank, level, i);
      var link := mem[left].level[i];
      ghost var after := SetLevel(before, rank[i], i, link.(span := link.span + 1));
      PartStep(tab, before, after, x, k, h, rank, i);
      SetLink(left, rank[i], i, link.(span := link.span + 1));
      assert Tab() == after;
    }

    /** On the levels above the new node the spans that cross it grow by one. */
    method StretchSpans(x: Ptr, h: nat, update: seq<Ptr>, rank: seq<nat>, ghost k: nat, ghost tab: Table)
      requires Named(nodes, mem) && Linked(nodes, tab, level) && h <= level && PartLinks(tab, Tab(), x, k, h, rank, h)
      requires |update| == |rank| == level && Updates(HeightsOf(tab), k, rank, level)
      requires forall i :: 0 <= i < level ==> update[i] == nodes[rank[i]]
      requires x in mem && x !in nodes
      modifies this`mem
      ensures Relinked(old(mem), mem) && InMemory(nodes, mem) && mem[x] == old(mem)[x]
      ensures LeftLinks(tab, Tab(), x, k, h, rank, level)
    {
      var i := h;
      while i < level
        invariant h <= i <= level && Relinked(old(mem), mem) && InMemory(nodes, mem) && mem[x] == old(mem)[x]
        invariant PartLinks(tab, Tab(), x, k, h, rank, i)
      {
        assert LastUpTo(HeightsOf(tab), k, i, rank[i]);
        StretchLevel(update[i], i, x, h, tab, k, rank);
        i := i + 1;
      }
    }

    /** Hang the new node in on all levels. */
    method HangIn(x: Ptr, update: seq<Ptr>, rank: seq<nat>, ghost k: nat)
      requires Woven() && x !in nodes && x != NULL && x in mem && 1 <= |mem[x].level| <= level
      requires |update| == |rank| == level && Updates(Hs(), k, rank, level) && rank[0] == k
      requires forall i :: 0 <= i < level ==> update[i] == nodes[rank[i]]
      modifies this`mem
      ensures Relinked(old(mem), mem) && InMemory(nodes, mem) && Hs() == old(Hs())
      ensures |mem[x].level| == |old(mem)[x].level|
      ensures Linked(PutBehind(nodes, k, x), PutBehind(Tab(), k, mem[x].level), level)
      ensures mem[x].level[0].forward == NodeAt(nodes, k + 1)
    {
      ghost var tab := Tab();
      LinkLevels(x, update, rank, k);
      StretchSpans(x, |mem[x].level|, update, rank, k, tab);
      InsertLinked(nodes, tab, Tab(), x, mem[x].level, k, rank, level);
      PutBehindAt(nodes, k, x);
      PutBehindAt(Tab(), k, mem[x].level);
      BottomLink(PutBehind(nodes, k, x), PutBehind(Tab(), k, mem[x].level), level, k + 1);
    }

    /** Fit the new node into the backward pointers, and count it. */
    method FitIn(x: Ptr, left: Ptr, ghost k: nat)
      requires InMemory(nodes, mem) && k < |nodes| && left == nodes[k] && header == nodes[0] && x !in nodes && x in mem
      requires Addressed(nodes) && |mem[x].level| > 0 && mem[x].level[0].forward == NodeAt(nodes, k + 1)
      modifies this`mem, this`tail, this`length, this`nodes
      ensures nodes == PutBehind(old(nodes), k, x) && length == old(length) + 1
      ensures Rebacked(old(mem), mem)
      ensures InMemory(nodes, mem) && Tab() == PutBehind(old(Tab()), k, old(mem)[x].level)
      ensures Backs() == BacksFitted(old(nodes), old(Backs()), k, x)
      ensures tail == if k + 1 < |old(nodes)| then old(tail) else x
    {
      mem := mem[x := mem[x].(backward := if left == header then NULL else left)];
      var next := mem[x].level[0].forward;
      if next != NULL {
        mem := mem[next := mem[next].(backward := x)];
      } else {
        tail := x;
      }
      length := length + 1;
      FittedBacks(nodes, old(mem), mem, k, x);
      RebackedTable(nodes, old(mem), mem, k, x);
      nodes := PutBehind(nodes, k, x);
    }

    /** All of an insertion but the search. */
    method PutIn(x: Ptr, update: seq<Ptr>, rank: seq<nat>, ghost k: nat)
      requires Woven() && x !in nodes && x != NULL && x in mem && 1 <= |mem[x].level| <= level
      requires |update| == |rank| == level && Updates(Hs(), k, rank, level) && rank[0] == k
      requires forall i :: 0 <= i < level ==> update[i] == nodes[rank[i]]
      modifies this`mem, this`tail, this`length, this`nodes
      ensures mem.Keys == old(mem).Keys && SameElements(old(mem), mem) && length == old(length) + 1
      ensures nodes == PutBehind(old(nodes), k, x) && InMemory(nodes, mem) && Linked(nodes, Tab(), level)
      ensures Backs() == BacksFitted(old(nodes), old(Backs()), k, x)
      ensures Hs() == PutBehind(old(Hs()), k, |old(mem)[x].level|)
      ensures tail == if k + 1 < |old(nodes)| then old(tail) else x
    {
      HangIn(x, update, rank, k);
      RelinkedBacks(nodes, old(mem), mem);
      SpliceHeights(Tab(), k, mem[x].level);
      FitIn(x, update[0], k);
    }

    method Allocate(e: Entry<T>, h: nat, x: Ptr)
      requires Named(nodes, mem) && x !in mem
      modifies this`mem
      ensures mem.Keys == old(mem).Keys + {x} && SameElements(old(mem), mem) && x !in nodes
      ensures mem[x].obj == Some(e.obj) && mem[x].score == e.score && |mem[x].level| == h
      ensures Named(nodes, mem) && Tab() == old(Tab()) && Backs() == old(Backs())
    {
      mem := mem[x := Node(e.score, Some(e.obj), NULL, seq(h, _ => Level(NULL, 0)))];
    }

    /** Searches, and raises the level if need be. */
    method Prepare(e: Entry<T>, h: nat, ghost k: nat) returns (update: seq<Ptr>, rank: seq<nat>)
      requires Woven() && length == |nodes| - 1 && Downward(Elements(), Before(cmp, e))
      requires 1 <= h <= MAXLEVEL && k == Reach(Before(cmp, e))
      modifies this`mem, this`level
      ensures Relinked(old(mem), mem) && Woven() && Hs() == old(Hs())
      ensures level == (if h > old(level) then h else old(level))
      ensures |update| == |rank| == level && Updates(Hs(), k, rank, level) && rank[0] == k
      ensures forall i :: 0 <= i < level ==> update[i] == nodes[rank[i]]
    {
      update, rank := FindLeft(e);
      if h > level {
        update, rank := Raise(update, rank, h, k);
      }
    }

    /** Allocates and hangs in. */
    method PlaceIn(e: Entry<T>, h: nat, x: Ptr, update: seq<Ptr>, rank: seq<nat>, ghost k: nat)
      requires Woven() && length == |nodes| - 1 && 1 <= h <= level && x !in mem && x != NULL
      requires |update| == |rank| == level && Updates(Hs(), k, rank, level) && rank[0] == k
      requires forall i :: 0 <= i < level ==> update[i] == nodes[rank[i]]
      modifies this`mem, this`tail, this`length, this`nodes
      ensures length == old(length) + 1 && mem.Keys == old(mem).Keys + {x} && SameElements(old(mem), mem)
      ensures mem[x].obj == Some(e.obj) && mem[x].score == e.score
      ensures nodes == PutBehind(old(nodes), k, x) && InMemory(nodes, mem) && Linked(nodes, Tab(), level)
      ensures Backs() == BacksFitted(old(nodes), old(Backs()), k, x) && Hs() == PutBehind(old(Hs()), k, h)
      ensures tail == if k + 1 < |old(nodes)| then old(tail) else x
    {
      Allocate(e, h, x);
      PutIn(x, update, rank, k);
    }

    /** Search, raise the level if need be, allocate and hang in. */
    method InsertAt(e: Entry<T>, h: nat, x: Ptr, ghost k: nat)
      requires Woven() && length == |nodes| - 1 && Downward(Elements(), Before(cmp, e))
      requires 1 <= h <= MAXLEVEL && x !in mem && x != NULL && k == Reach(Before(cmp, e))
      modifies this`mem, this`tail, this`length, this`nodes, this`level
      ensures level == (if h > old(level) then h else old(level)) && length == old(length) + 1
      ensures mem.Keys == old(mem).Keys + {x} && SameElements(old(mem), mem)
      ensures mem[x].obj == Some(e.obj) && mem[x].score == e.score
      ensures nodes == PutBehind(old(nodes), k, x) && InMemory(nodes, mem) && Linked(nodes, Tab(), level)
      ensures Backs() == BacksFitted(old(nodes), old(Backs()), k, x) && Hs() == PutBehind(old(Hs()), k, h)
      ensures tail == if k + 1 < |old(nodes)| then old(tail) else x
    {
      var update, rank := Prepare(e, h, k);
      RelinkedBacks(nodes, old(mem), mem);
      PlaceIn(e, h, x, update, rank, k);
    }

    /** Insertion, and where it puts the new node. */
    method InsertSorted(e: Entry<T>, h: nat, x: Ptr)
      requires Valid() && 1 <= h <= MAXLEVEL && x !in mem && x != NULL
      modifies this
      ensures Valid() && mem.Keys == old(mem).Keys + {x} && mem[x].obj.Some? && EntryOf(mem[x]) == e
      ensures Elements() == Inserted(cmp, old(Elements()), e)
      ensures nodes == PutBehind(old(nodes), Passing(old(Elements()), Before(cmp, e)), x) && |mem[x].level| == h
    {
      ghost var k, ns, mem0, tail0, lv := Reach(Before(cmp, e)), nodes, mem, tail, level;
      SortedDownward(cmp, Elements(), e);
      InsertAt(e, h, x, k);
      assert Hs()[k + 1] == |mem[nodes[k + 1]].level|;
      InsertFramed(mem0, ns, header, tail0, |ns| - 1, lv, mem, nodes, tail, level, k, h, x);
      InsertOrdered(cmp, mem0, ns, mem, x, e);
    }

    /** Insert an element with the level count `h` that the random draw gave, at the address `x` that was allocated. */
    method Insert(e: Entry<T>, h: nat, x: Ptr)
      requires Valid() && 1 <= h <= MAXLEVEL && x !in mem && x != NULL
      modifies this
      ensures Valid() && mem.Keys == old(mem).Keys + {x} && mem[x].obj.Some? && EntryOf(mem[x]) == e
      ensures Elements() == Inserted(cmp, old(Elements()), e)
      ensures nodes == PutBehind(old(nodes), Passing(old(Elements()), Before(cmp, e)), x) && |mem[x].level| == h
      ensures multiset(Elements()) == multiset(old(Elements())) + multiset{e}
      ensures forall i, j :: 0 <= i < j < |Elements()| ==>
                Elements()[i].score <= Elements()[j].score &&
                (Elements()[i].score == Elements()[j].score ==> cmp(Elements()[i].obj, Elements()[j].obj) <= 0)
    {
      InsertedSorted(cmp, Elements(), e);
      InsertSorted(e, h, x);
    }

    // -------------------------------------------------------------- deletion

    /** On level `i`, bridge the node that goes, or take one off the span that crosses it. */
    method UnlinkLevel(x: Ptr, left: Ptr, i: nat, ghost tab: Table, ghost k: nat, ghost rank: seq<nat>)
      requires InMemory(nodes, mem) && Linked(nodes, tab, level) && Updates(HeightsOf(tab), k, rank, level)
      requires k + 1 < |nodes| && x == nodes[k + 1] && i < level && left == nodes[rank[i]]
      requires PartUnlinked(tab, Tab(), x, k, rank, i)
      modifies this`mem
      ensures Relinked(old(mem), mem) && InMemory(nodes, mem) && PartUnlinked(tab, Tab(), x, k, rank, i + 1)
    {
      ghost var before := Tab();
      UnlinkRead(nodes, tab, before, x, k, rank, level, i);
      var link := mem[left].level[i];
      var r: Level;
      if link.forward == x {
        r := Level(mem[x].level[i].forward, link.span + mem[x].level[i].span - 1);
      } else {
        r := link.(span := link.span - 1);
      }
      SetLink(left, rank[i], i, r);
      UnlinkStep(tab, before, Tab(), x, k, rank, i, r);
    }

    method UnlinkLevels(x: Ptr, update: seq<Ptr>, ghost rank: seq<nat>, ghost k: nat)
      requires Woven() && k + 1 < |nodes| && x == nodes[k + 1]
      requires |update| == |rank| == level && Updates(Hs(), k, rank, level)
      requires forall i :: 0 <= i < level ==> update[i] == nodes[rank[i]]
      modifies this`mem
      ensures Relinked(old(mem), mem) && InMemory(nodes, mem) && Unlinked(old(Tab()), Tab(), x, k, rank, level)
    {
      ghost var tab := Tab();
      var i := 0;
      while i < level
        invariant 0 <= i <= level && Relinked(old(mem), mem) && InMemory(nodes, mem)
        invariant PartUnlinked(tab, Tab(), x, k, rank, i)
      {
        assert LastUpTo(HeightsOf(tab), k, i, rank[i]);
        UnlinkLevel(x, update[i], i, tab, k, rank);
        i := i + 1;
      }
    }

    /** Take the node out of the backward pointers, and free it. */
    method TakeOut(x: Ptr, ghost k: nat)
      requires InMemory(nodes, mem) && Addressed(nodes) && k + 1 < |nodes| && x == nodes[k + 1] && length > 0
      requires |mem[x].level| > 0 && mem[x].level[0].forward == NodeAt(nodes, k + 2)
      modifies this`mem, this`tail, this`length, this`nodes
      ensures nodes == Without(old(nodes), k + 1) && length == old(length) - 1
      ensures Freed(old(mem), mem, x, NodeAt(old(nodes), k + 2)) && InMemory(nodes, mem)
      ensures Tab() == Without(old(Tab()), k + 1) && Backs() == BacksTaken(old(Backs()), k)
      ensures tail == if k + 2 < |old(nodes)| then old(tail) else old(Backs())[k + 1]
    {
      var next := mem[x].level[0].forward;
      if next != NULL {
        mem := mem[next := mem[next].(backward := mem[x].backward)];
      } else {
        tail := mem[x].backward;
      }
      length := length - 1;
      mem := mem - {x};
      FreedTables(nodes, old(mem), mem, k);
      nodes := Without(nodes, k + 1);
    }

    /** Give up levels that have become empty. */
    method Lower()
      requires InMemory(nodes, mem) && nodes != [] && header == nodes[0] && Linked(nodes, Tab(), level)
      modifies this`level
      ensures Linked(nodes, Tab(), level) && (level > 1 ==> Tab()[0][level - 1].forward != NULL)
    {
      while level > 1 && mem[header].level[level - 1].forward == NULL
        invariant Linked(nodes, Tab(), level)
        decreases level
      {
        LowerLinked(nodes, Tab(), level);
        level := level - 1;
      }
    }

    /** Unlinks node `x` on every level: all other links and spans are right without it. */
    method UnlinkAll(x: Ptr, update: seq<Ptr>, ghost rank: seq<nat>, ghost k: nat)
      requires Woven() && k + 1 < |nodes| && x == nodes[k + 1]
      requires |update| == |rank| == level && Updates(Hs(), k, rank, level)
      requires forall i :: 0 <= i < level ==> update[i] == nodes[rank[i]]
      modifies this`mem
      ensures Relinked(old(mem), mem) && InMemory(nodes, mem)
      ensures Linked(Without(nodes, k + 1), Without(Tab(), k + 1), level) && Backs() == old(Backs())
      ensures |mem[x].level| > 0 && mem[x].level[0].forward == NodeAt(nodes, k + 2)
    {
      ghost var tab := Tab();
      UnlinkLevels(x, update, rank, k);
      RelinkedBacks(nodes, old(mem), mem);
      DeleteLinked(nodes, tab, Tab(), k, rank, level);
      BottomKept(nodes, tab, Tab(), x, k, rank, level);
    }

    /** Unlink node `x` on every level, take it out and free it. */
    method DeleteNode(x: Ptr, update: seq<Ptr>, ghost rank: seq<nat>, ghost k: nat)
      requires Woven() && k + 1 < |nodes| && x == nodes[k + 1] && length == |nodes| - 1
      requires |update| == |rank| == level && Updates(Hs(), k, rank, level)
      requires forall i :: 0 <= i < level ==> update[i] == nodes[rank[i]]
      modifies this`mem, this`tail, this`length, this`nodes, this`level
      ensures TakenOut(old(mem), old(nodes), old(tail), mem, nodes, tail, level, k) && length == old(length) - 1
    {
      UnlinkAll(x, update, rank, k);
      TakeOut(x, k);
      SameHead(old(nodes), k);
      Lower();
    }

    /** The node found holds the element: it goes. */
    method DeleteFound(e: Entry<T>, x: Ptr, update: seq<Ptr>, rank: seq<nat>, ghost k: nat)
      requires Valid() && k == Reach(Before(cmp, e)) && k + 1 < |nodes| && x == nodes[k + 1]
      requires mem[x].score == e.score && mem[x].obj == Some(e.obj)
      requires |update| == |rank| == level && Updates(Hs(), k, rank, level) && rank[0] == k
      requires forall i :: 0 <= i < level ==> update[i] == nodes[rank[i]]
      modifies this
      ensures Valid() && Elements() == Deleted(cmp, old(Elements()), e) && e in old(Elements())
    {
      ghost var ns, mem0, tail0, lv := nodes, mem, tail, level;
      DeleteNode(x, update, rank, k);
      DeleteFramed(mem0, ns, header, tail0, |ns| - 1, lv, mem, nodes, tail, level, k);
      DeleteOrdered(cmp, mem0, ns, mem, e, k);
    }

    /** Delete the first element equal to `e`; 1 when there was one, 0 otherwise. */
    method Delete(e: Entry<T>) returns (r: nat)
      requires Valid()
      modifies this
      ensures Valid() && Elements() == Deleted(cmp, old(Elements()), e)
      ensures multiset(Elements()) == multiset(old(Elements())) - multiset{e}
      ensures forall i, j :: 0 <= i < j < |Elements()| ==>
                Elements()[i].score <= Elements()[j].score &&
                (Elements()[i].score == Elements()[j].score ==> cmp(Elements()[i].obj, Elements()[j].obj) <= 0)
      ensures r == if e in old(Elements()) then 1 else 0
      ensures r == 0 ==> nodes == old(nodes) && mem == old(mem)
    {
      ghost var k := Reach(Before(cmp, e));
      SortedDownward(cmp, Elements(), e);
      DeletedSorted(cmp, Elements(), e);
      var update, rank := FindLeft(e);
      BottomLink(nodes, Tab(), level, k);
      var x := mem[update[0]].level[0].forward;
      if x != NULL && mem[x].score == e.score && mem[x].obj == Some(e.obj) {
        DeleteFound(e, x, update, rank, k);
        r := 1;
      } else {
        DeleteAbsent(cmp, mem, nodes, e, k);
        r := 0;
      }
    }
  }

  lemma LastUnique(hs: Heights, k: nat, i: nat, p: nat, q: nat)
    requires LastUpTo(hs, k, i, p) && LastUpTo(hs, k, i, q)
    ensures p == q
  {
  }
}
