/** The levels of all nodes of a skip list as one table, and what insertion and deletion do to it. */
module SkipTable {
  import opened Options
  import opened Pointers
  import opened SkipLinks
  import opened SkipOrder
  import opened Sequences

  /** One level of a node. */
  datatype Level = Level(forward: Ptr, span: nat)

  /** A node as it lies in memory: the header has no object. */
  datatype Node<T> = Node(score: real, obj: Option<T>, backward: Ptr, level: Row)

  type Memory<T> = map<Ptr, Node<T>>

  ghost predicate InMemory<T>(ns: seq<Ptr>, mem: Memory<T>) {
    forall p :: 0 <= p < |ns| ==> ns[p] in mem
  }

  /** The header first, then nodes with objects. */
  ghost predicate Named<T>(ns: seq<Ptr>, mem: Memory<T>) {
    InMemory(ns, mem) && ns != [] && mem[ns[0]].obj.None? && forall p :: 0 < p < |ns| ==> mem[ns[p]].obj.Some?
  }

  function EntryOf<T>(n: Node<T>): Entry<T>
    requires n.obj.Some?
  {
    Entry(n.score, n.obj.value)
  }

  /** What the nodes behind the header hold. */
  ghost function ElementsOf<T>(ns: seq<Ptr>, mem: Memory<T>): (es: seq<Entry<T>>)
    requires Named(ns, mem)
    ensures |es| == |ns| - 1 && forall i :: 0 <= i < |es| ==> es[i] == EntryOf(mem[ns[i + 1]])
  {
    seq(|ns| - 1, i requires 0 <= i < |ns| - 1 => EntryOf(mem[ns[i + 1]]))
  }

  type Row = seq<Level>
  type Table = seq<Row>

  /** Memory in which only levels have changed. */
  ghost predicate Relinked<T>(mem: Memory<T>, mem': Memory<T>) {
    mem'.Keys == mem.Keys && forall a :: a in mem ==> mem'[a] == mem[a].(level := mem'[a].level)
  }

  ghost function TableOf<T>(ns: seq<Ptr>, mem: Memory<T>): (tab: Table)
    requires InMemory(ns, mem)
    ensures |tab| == |ns| && forall p :: 0 <= p < |ns| ==> tab[p] == mem[ns[p]].level
  {
    seq(|ns|, p requires 0 <= p < |ns| => mem[ns[p]].level)
  }

  ghost function BacksOf<T>(ns: seq<Ptr>, mem: Memory<T>): (backs: seq<Ptr>)
    requires InMemory(ns, mem)
    ensures |backs| == |ns| && forall p :: 0 <= p < |ns| ==> backs[p] == mem[ns[p]].backward
  {
    seq(|ns|, p requires 0 <= p < |ns| => mem[ns[p]].backward)
  }

  function HeightsOf(tab: Table): (hs: Heights)
    ensures |hs| == |tab| && forall p :: 0 <= p < |tab| ==> hs[p] == |tab[p]|
  {
    seq(|tab|, p requires 0 <= p < |tab| => |tab[p]|)
  }

  /** The level that node `p` must have: its link on level `i`, with the exact distance. */
  function LinkAt(ns: seq<Ptr>, hs: Heights, p: nat, i: nat): Level
    requires |hs| == |ns| && p < |ns|
  {
    Level(NodeAt(ns, Next(hs, p, i)), Span(hs, p, i))
  }

  function NodeAt(ns: seq<Ptr>, q: nat): Ptr {
    if q < |ns| then ns[q] else NULL
  }

  ghost predicate Addressed(ns: seq<Ptr>) {
    NULL !in ns && NoDup(ns)
  }

  ghost predicate RowsOk(ns: seq<Ptr>, tab: Table, hs: Heights, lv: nat)
    requires |hs| == |ns|
  {
    |tab| == |ns| &&
    forall p, i {:trigger tab[p][i]} :: 0 <= p < |tab| && 0 <= i < |tab[p]| && i < lv ==>
      tab[p][i] == LinkAt(ns, hs, p, i)
  }

  /** Below level `lv` every link and span is right; above it only the header has levels, linked to nothing. */
  ghost predicate Linked(ns: seq<Ptr>, tab: Table, lv: nat) {
    var hs := HeightsOf(tab);
    |tab| == |ns| && |ns| > 0 && Addressed(ns) && 1 <= lv <= |tab[0]| == MAXLEVEL &&
    (forall p :: 0 < p < |tab| ==> 1 <= |tab[p]| <= lv) &&
    RowsOk(ns, tab, hs, lv) &&
    (forall i :: lv <= i < MAXLEVEL ==> tab[0][i].forward == NULL)
  }

  /** Where the link of node `r` on level `i` leads, and whether a test lets it be taken. */
  lemma LinkLeads<T>(ns: seq<Ptr>, mem: Memory<T>, tab: Table, lv: nat, r: nat, i: nat, pass: Entry<T> -> bool)
    requires Named(ns, mem) && Linked(ns, tab, lv) && Downward(ElementsOf(ns, mem), pass)
    requires r < |ns| && i < |tab[r]| && i < lv
    ensures var q := Next(HeightsOf(tab), r, i);
            if tab[r][i].forward == NULL then q == |ns|
            else q < |ns| && tab[r][i] == Level(ns[q], q - r) && |tab[q]| > i && mem[ns[q]].obj.Some? &&
                 (pass(EntryOf(mem[ns[q]])) <==> q <= Passing(ElementsOf(ns, mem), pass))
  {
    var q := Next(HeightsOf(tab), r, i);
    assert tab[r][i] == LinkAt(ns, HeightsOf(tab), r, i);
    if q < |ns| {
      PassingCuts(ElementsOf(ns, mem), pass);
      assert ElementsOf(ns, mem)[q - 1] == EntryOf(mem[ns[q]]);
    }
  }

  // ---------------------------------------------------------------- more levels

  function SetLevel(tab: Table, p: nat, i: nat, l: Level): (r: Table)
    requires p < |tab| && i < |tab[p]|
    ensures HeightsOf(r) == HeightsOf(tab) && r == tab[p := tab[p][i := l]]
    ensures forall q, j :: 0 <= q < |tab| && 0 <= j < |tab[q]| ==> r[q][j] == if q == p && j == i then l else tab[q][j]
  {
    var r := tab[p := tab[p][i := l]];
    assert HeightsOf(r) == HeightsOf(tab);
    r
  }

  /** The header's spans written on the levels that come into use. */
  function Raised(tab: Table, lv: nat, h: nat): (r: Table)
    requires tab != [] && lv <= |tab[0]| && h <= |tab[0]|
    ensures |r| == |tab| && |r[0]| == |tab[0]|
    ensures forall p :: 0 < p < |tab| ==> r[p] == tab[p]
    ensures forall i :: 0 <= i < |tab[0]| ==>
              r[0][i] == if lv <= i < h then tab[0][i].(span := |tab| - 1) else tab[0][i]
  {
    tab[0 := seq(|tab[0]|, i requires 0 <= i < |tab[0]| =>
                   if lv <= i < h then tab[0][i].(span := |tab| - 1) else tab[0][i])]
  }

  lemma RaisedNone(tab: Table, lv: nat)
    requires tab != [] && lv <= |tab[0]|
    ensures Raised(tab, lv, lv) == tab
  {
    assert Raised(tab, lv, lv)[0] == tab[0];
  }

  lemma RaisedStep(tab: Table, lv: nat, i: nat)
    requires tab != [] && lv <= i < |tab[0]|
    ensures SetLevel(Raised(tab, lv, i), 0, i, tab[0][i].(span := |tab| - 1)) == Raised(tab, lv, i + 1)
  {
    assert SetLevel(Raised(tab, lv, i), 0, i, tab[0][i].(span := |tab| - 1))[0] == Raised(tab, lv, i + 1)[0];
  }

  lemma RaisedLinked(ns: seq<Ptr>, tab: Table, lv: nat, h: nat)
    requires Linked(ns, tab, lv) && lv < h <= MAXLEVEL
    ensures Linked(ns, Raised(tab, lv, h), h)
  {
    var hs, r := HeightsOf(tab), Raised(tab, lv, h);
    assert HeightsOf(r) == hs;
    forall p, i | 0 <= p < |r| && 0 <= i < |r[p]| && i < h
      ensures r[p][i] == LinkAt(ns, hs, p, i)
    {
      if i >= lv {
        NextIs(hs, 0, i, |hs|);
      }
    }
  }

  // ---------------------------------------------------------------- insertion

  /** The nodes to the left of the gap behind node `k`, one for each level. */
  ghost predicate Updates(hs: Heights, k: nat, rk: seq<nat>, lv: nat) {
    lv <= |rk| && k < |hs| && forall i :: 0 <= i < lv ==> LastUpTo(hs, k, i, rk[i])
  }

  /** Above all other nodes the header is the one to the left. */
  lemma RaisedUpdates(ns: seq<Ptr>, tab: Table, lv: nat, h: nat, k: nat, rk: seq<nat>, rk': seq<nat>)
    requires Linked(ns, tab, lv) && lv <= h <= MAXLEVEL && Updates(HeightsOf(tab), k, rk, lv)
    requires |rk| == lv && |rk'| == h && rk <= rk' && forall j :: lv <= j < h ==> rk'[j] == 0
    ensures Updates(HeightsOf(tab), k, rk', h)
  {
  }

  /** On level 0 the last node up to `k` is node `k`. */
  lemma LevelZero(ns: seq<Ptr>, tab: Table, lv: nat, k: nat, r: nat)
    requires Linked(ns, tab, lv) && LastUpTo(HeightsOf(tab), k, 0, r)
    ensures r == k
  {
    var probe := HeightsOf(tab)[k];
  }

  /** The left-hand links on the lowest `done` levels once the new node `x` of height `h` hangs behind node `k`. */
  ghost predicate PartLinks(tab: Table, cur: Table, x: Ptr, k: nat, h: nat, rk: seq<nat>, done: nat) {
    HeightsOf(cur) == HeightsOf(tab) &&
    forall p, i {:trigger cur[p][i]} :: 0 <= p < |tab| && 0 <= i < |tab[p]| ==>
      cur[p][i] ==
        if i < done && i < |rk| && p == rk[i] && p <= k then
          if i < h then Level(x, k - p + 1) else tab[p][i].(span := tab[p][i].span + 1)
        else tab[p][i]
  }

  ghost predicate LeftLinks(tab: Table, cur: Table, x: Ptr, k: nat, h: nat, rk: seq<nat>, lv: nat) {
    PartLinks(tab, cur, x, k, h, rk, lv)
  }

  /** One level more. */
  lemma PartStep(tab: Table, cur: Table, new': Table, x: Ptr, k: nat, h: nat, rk: seq<nat>, i: nat)
    requires PartLinks(tab, cur, x, k, h, rk, i) && i < |rk| && rk[i] <= k < |tab| && i < |tab[rk[i]]|
    requires |cur| == |tab| && i < |cur[rk[i]]|
    requires new' == SetLevel(cur, rk[i], i,
                              if i < h then Level(x, k - rk[i] + 1) else tab[rk[i]][i].(span := tab[rk[i]][i].span + 1))
    ensures PartLinks(tab, new', x, k, h, rk, i + 1)
  {
  }

  /** The new node's own links. */
  ghost predicate OwnLinks(tab: Table, row: Row, k: nat, rk: seq<nat>) {
    |row| <= |rk| &&
    forall i :: 0 <= i < |row| ==>
      rk[i] <= k < |tab| && i < |tab[rk[i]]| && tab[rk[i]][i].span >= k - rk[i] &&
      row[i] == Level(tab[rk[i]][i].forward, tab[rk[i]][i].span - (k - rk[i]))
  }

  /** The levels of the new node that are written so far. */
  ghost predicate PartOwn(tab: Table, row: Row, k: nat, rk: seq<nat>, done: nat) {
    done <= |row| && OwnLinks(tab, row[..done], k, rk)
  }

  /** Before level `i` is written, its left-hand link is the old one, and reaches past the gap. */
  lemma PartRead(ns: seq<Ptr>, tab: Table, cur: Table, x: Ptr, k: nat, h: nat, rk: seq<nat>, lv: nat, i: nat)
    requires Linked(ns, tab, lv) && Updates(HeightsOf(tab), k, rk, lv) && i < lv && PartLinks(tab, cur, x, k, h, rk, i)
    ensures rk[i] <= k < |tab| == |cur| && i < |tab[rk[i]]| == |cur[rk[i]]| && cur[rk[i]][i] == tab[rk[i]][i]
    ensures tab[rk[i]][i].span >= k - rk[i]
  {
  }

  lemma OwnStep(tab: Table, row: Row, k: nat, rk: seq<nat>, i: nat, l: Level)
    requires PartOwn(tab, row, k, rk, i) && i < |row| && i < |rk|
    requires rk[i] <= k < |tab| && i < |tab[rk[i]]| && tab[rk[i]][i].span >= k - rk[i]
    requires l == Level(tab[rk[i]][i].forward, tab[rk[i]][i].span - (k - rk[i]))
    ensures PartOwn(tab, row[i := l], k, rk, i + 1)
  {
  }

  lemma SpliceHeights(tab: Table, k: nat, row: Row)
    requires k < |tab|
    ensures HeightsOf(PutBehind(tab, k, row)) == PutBehind(HeightsOf(tab), k, |row|)
  {
  }

  lemma PutBehindAddressed(ns: seq<Ptr>, k: nat, x: Ptr)
    requires Addressed(ns) && x !in ns && x != NULL && k < |ns|
    ensures Addressed(PutBehind(ns, k, x))
  {
  }

  /** The link of an old node before the gap. */
  lemma LinkBefore(ns: seq<Ptr>, hs: Heights, k: nat, x: Ptr, h: nat, p: nat, i: nat, u: nat)
    requires |hs| == |ns| && k < |hs| && p <= k && hs[p] > i && LastUpTo(hs, k, i, u)
    ensures LinkAt(PutBehind(ns, k, x), PutBehind(hs, k, h), p, i) ==
            if p != u then LinkAt(ns, hs, p, i)
            else if i < h then Level(x, k - p + 1)
            else LinkAt(ns, hs, p, i).(span := Span(hs, p, i) + 1)
  {
    PutBehindAt(ns, k, x);
    PutBehindAt(hs, k, h);
    AcrossIsLast(hs, k, i, p, u);
    if p != u {
      NextBefore(hs, k, h, p, i);
    } else {
      NextAcross(hs, k, h, p, i);
    }
  }

  /** The link of an old node behind the gap. */
  lemma LinkBehind(ns: seq<Ptr>, hs: Heights, k: nat, x: Ptr, h: nat, p: nat, i: nat)
    requires |hs| == |ns| && k < p < |hs|
    ensures LinkAt(PutBehind(ns, k, x), PutBehind(hs, k, h), p + 1, i) == LinkAt(ns, hs, p, i)
  {
    PutBehindAt(ns, k, x);
    NextBehind(hs, k, h, p, i);
  }

  /** The link of the new node. */
  lemma LinkNew(ns: seq<Ptr>, hs: Heights, k: nat, x: Ptr, h: nat, i: nat, u: nat)
    requires |hs| == |ns| && LastUpTo(hs, k, i, u)
    ensures Span(hs, u, i) >= k - u
    ensures LinkAt(PutBehind(ns, k, x), PutBehind(hs, k, h), k + 1, i) ==
            Level(LinkAt(ns, hs, u, i).forward, Span(hs, u, i) - (k - u))
  {
    PutBehindAt(ns, k, x);
    PutBehindAt(hs, k, h);
    LastUpToNext(hs, k, i, u);
    NextAcross(hs, k, h, u, i);
  }

  lemma SameHeights(tab: Table, cur: Table)
    requires HeightsOf(cur) == HeightsOf(tab)
    ensures |cur| == |tab| && forall p :: 0 <= p < |tab| ==> |cur[p]| == |tab[p]|
  {
  }

  /** What an insertion is given and does. */
  ghost predicate Inserting(ns: seq<Ptr>, tab: Table, cur: Table, x: Ptr, row: Row, k: nat, rk: seq<nat>, lv: nat) {
    Linked(ns, tab, lv) && Updates(HeightsOf(tab), k, rk, lv) && x !in ns && x != NULL &&
    LeftLinks(tab, cur, x, k, |row|, rk, lv) && OwnLinks(tab, row, k, rk) && 1 <= |row| <= lv
  }

  lemma InsertEntry(ns: seq<Ptr>, tab: Table, cur: Table, x: Ptr, row: Row, k: nat, rk: seq<nat>, lv: nat,
                       p: nat, i: nat)
    requires Inserting(ns, tab, cur, x, row, k, rk, lv)
    requires p < |tab| && i < |tab[p]| && i < lv
    ensures |cur| == |tab| == |ns| && |cur[p]| == |tab[p]|
    ensures cur[p][i] ==
            LinkAt(PutBehind(ns, k, x), PutBehind(HeightsOf(tab), k, |row|), if p <= k then p else p + 1, i)
  {
    SameHeights(tab, cur);
    var hs := HeightsOf(tab);
    assert tab[p][i] == LinkAt(ns, hs, p, i);
    if p <= k {
      LinkBefore(ns, hs, k, x, |row|, p, i, rk[i]);
    } else {
      assert cur[p][i] == tab[p][i];
      LinkBehind(ns, hs, k, x, |row|, p, i);
    }
  }

  lemma InsertOwn(ns: seq<Ptr>, tab: Table, cur: Table, x: Ptr, row: Row, k: nat, rk: seq<nat>, lv: nat, i: nat)
    requires Inserting(ns, tab, cur, x, row, k, rk, lv) && i < |row|
    ensures row[i] == LinkAt(PutBehind(ns, k, x), PutBehind(HeightsOf(tab), k, |row|), k + 1, i)
  {
    var hs := HeightsOf(tab);
    LinkNew(ns, hs, k, x, |row|, i, rk[i]);
    assert tab[rk[i]][i] == LinkAt(ns, hs, rk[i], i);
  }

  lemma InsertAny(ns: seq<Ptr>, tab: Table, cur: Table, x: Ptr, row: Row, k: nat, rk: seq<nat>, lv: nat, p: nat,
                  i: nat)
    requires Inserting(ns, tab, cur, x, row, k, rk, lv) && |cur| == |tab|
    requires p < |PutBehind(cur, k, row)| && i < |PutBehind(cur, k, row)[p]| && i < lv
    ensures p < |PutBehind(ns, k, x)| == |PutBehind(HeightsOf(tab), k, |row|)|
    ensures PutBehind(cur, k, row)[p][i] == LinkAt(PutBehind(ns, k, x), PutBehind(HeightsOf(tab), k, |row|), p, i)
  {
    SameHeights(tab, cur);
    PutBehindAt(cur, k, row);
    if p == k + 1 {
      InsertOwn(ns, tab, cur, x, row, k, rk, lv, i);
    } else {
      InsertEntry(ns, tab, cur, x, row, k, rk, lv, if p <= k then p else p - 1, i);
    }
  }

  lemma InsertRows(ns: seq<Ptr>, tab: Table, cur: Table, x: Ptr, row: Row, k: nat, rk: seq<nat>, lv: nat)
    requires Inserting(ns, tab, cur, x, row, k, rk, lv)
    ensures |cur| == |tab|
    ensures RowsOk(PutBehind(ns, k, x), PutBehind(cur, k, row), PutBehind(HeightsOf(tab), k, |row|), lv)
  {
    var ns', tab' := PutBehind(ns, k, x), PutBehind(cur, k, row);
    SameHeights(tab, cur);
    forall p, i | 0 <= p < |tab'| && 0 <= i < |tab'[p]| && i < lv
      ensures tab'[p][i] == LinkAt(ns', PutBehind(HeightsOf(tab), k, |row|), p, i)
    {
      InsertAny(ns, tab, cur, x, row, k, rk, lv, p, i);
    }
  }

  /** Insertion leaves every link and span of the list right. */
  lemma InsertLinked(ns: seq<Ptr>, tab: Table, cur: Table, x: Ptr, row: Row, k: nat, rk: seq<nat>, lv: nat)
    requires Inserting(ns, tab, cur, x, row, k, rk, lv)
    ensures Linked(PutBehind(ns, k, x), PutBehind(cur, k, row), lv)
  {
    InsertRows(ns, tab, cur, x, row, k, rk, lv);
    SameHeights(tab, cur);
    PutBehindAt(cur, k, row);
    SpliceHeights(cur, k, row);
    PutBehindAddressed(ns, k, x);
    var t: Table := PutBehind(cur, k, row);
    forall i | lv <= i < MAXLEVEL ensures t[0][i].forward == NULL {
      assert cur[0][i] == tab[0][i];
    }
  }

  // ---------------------------------------------------------------- deletion

  /** The left-hand links once the node `x` behind `k` is unlinked on the lowest `done` levels. */
  ghost predicate PartUnlinked(tab: Table, cur: Table, x: Ptr, k: nat, rk: seq<nat>, done: nat) {
    HeightsOf(cur) == HeightsOf(tab) && k + 1 < |tab| &&
    forall p, i {:trigger cur[p][i]} :: 0 <= p < |tab| && 0 <= i < |tab[p]| ==>
      if i < done && i < |rk| && p == rk[i] && p <= k then
        if tab[p][i].forward == x then
          i < |tab[k + 1]| && cur[p][i].forward == tab[k + 1][i].forward &&
          cur[p][i].span + 1 == tab[p][i].span + tab[k + 1][i].span
        else
          cur[p][i].forward == tab[p][i].forward && cur[p][i].span + 1 == tab[p][i].span
      else
        cur[p][i] == tab[p][i]
  }

  ghost predicate Unlinked(tab: Table, cur: Table, x: Ptr, k: nat, rk: seq<nat>, lv: nat) {
    PartUnlinked(tab, cur, x, k, rk, lv)
  }

  /** What the code makes of a left-hand link when `own` is the level of the node that goes. */
  ghost predicate Shortcut(left: Level, x: Ptr, own: Level, r: Level) {
    if left.forward == x then r.forward == own.forward && r.span + 1 == left.span + own.span
    else r.forward == left.forward && r.span + 1 == left.span
  }

  lemma UnlinkStep(tab: Table, cur: Table, new': Table, x: Ptr, k: nat, rk: seq<nat>, i: nat, r: Level)
    requires PartUnlinked(tab, cur, x, k, rk, i) && i < |rk| && rk[i] <= k < |tab| && i < |tab[rk[i]]|
    requires |cur| == |tab| && i < |cur[rk[i]]| && new' == SetLevel(cur, rk[i], i, r)
    requires tab[rk[i]][i].forward == x ==> i < |tab[k + 1]|
    requires Shortcut(tab[rk[i]][i], x, if i < |tab[k + 1]| then tab[k + 1][i] else tab[rk[i]][i], r)
    ensures PartUnlinked(tab, new', x, k, rk, i + 1)
  {
  }

  /** Before level `i` is unlinked: what its left-hand link is, and that it and its span can be bridged. */
  lemma UnlinkRead(ns: seq<Ptr>, tab: Table, cur: Table, x: Ptr, k: nat, rk: seq<nat>, lv: nat, i: nat)
    requires Linked(ns, tab, lv) && Updates(HeightsOf(tab), k, rk, lv) && i < lv && k + 1 < |ns| && x == ns[k + 1]
    requires PartUnlinked(tab, cur, x, k, rk, i)
    ensures |cur| == |tab| && rk[i] <= k && i < |tab[rk[i]]| == |cur[rk[i]]| && cur[rk[i]][i] == tab[rk[i]][i]
    ensures cur[k + 1] == tab[k + 1]
    ensures tab[rk[i]][i].span >= 1 && (tab[rk[i]][i].forward == x <==> i < |tab[k + 1]|)
  {
  }

  ghost predicate Deleting(ns: seq<Ptr>, tab: Table, cur: Table, k: nat, rk: seq<nat>, lv: nat) {
    Linked(ns, tab, lv) && k + 1 < |ns| && Updates(HeightsOf(tab), k, rk, lv) &&
    Unlinked(tab, cur, ns[k + 1], k, rk, lv)
  }

  /** What the list with node `k + 1` says about the list without it. */
  lemma DeleteSplit(ns: seq<Ptr>, hs: Heights, k: nat)
    requires |hs| == |ns| && k + 1 < |ns| && Addressed(ns)
    ensures PutBehind(Without(ns, k + 1), k, ns[k + 1]) == ns && PutBehind(Without(hs, k + 1), k, hs[k + 1]) == hs
    ensures Addressed(Without(ns, k + 1)) && ns[k + 1] !in Without(ns, k + 1)
    ensures forall i, u :: LastUpTo(hs, k, i, u) ==> LastUpTo(Without(hs, k + 1), k, i, u)
  {
  }

  lemma DeleteFront(ns: seq<Ptr>, tab: Table, cur: Table, k: nat, rk: seq<nat>, lv: nat, p: nat, i: nat)
    requires Deleting(ns, tab, cur, k, rk, lv)
    requires p < |tab| && i < |tab[p]| && i < lv && p <= k
    ensures |cur| == |tab| == |ns| && |cur[p]| == |tab[p]|
    ensures cur[p][i] == LinkAt(Without(ns, k + 1), Without(HeightsOf(tab), k + 1), p, i)
  {
    SameHeights(tab, cur);
    var hs, x, h := HeightsOf(tab), ns[k + 1], |tab[k + 1]|;
    var sns, shs := Without(ns, k + 1), Without(hs, k + 1);
    DeleteSplit(ns, hs, k);
    assert tab[p][i] == LinkAt(ns, hs, p, i);
    var u := rk[i];
    assert shs[p] == hs[p];
    LinkBefore(sns, shs, k, x, h, p, i, u);
    assert LinkAt(sns, shs, p, i).forward != x;
    if p == u && i < h {
      LinkNew(sns, shs, k, x, h, i, u);
      assert tab[k + 1][i] == LinkAt(ns, hs, k + 1, i);
    }
    assert cur[p][i].forward == LinkAt(sns, shs, p, i).forward;
  }

  lemma LinkWithout(ns: seq<Ptr>, hs: Heights, k: nat, p: nat, i: nat)
    requires |hs| == |ns| && k < p < |ns|
    ensures LinkAt(Without(ns, k), Without(hs, k), p - 1, i) == LinkAt(ns, hs, p, i)
  {
    NextWithout(hs, k, p, i);
    WithoutAt(ns, k);
    WithoutAt(hs, k);
  }

  lemma DeleteBehind(ns: seq<Ptr>, tab: Table, cur: Table, k: nat, rk: seq<nat>, lv: nat, p: nat, i: nat)
    requires Deleting(ns, tab, cur, k, rk, lv)
    requires p < |tab| && i < |tab[p]| && i < lv && p > k + 1
    ensures |cur| == |tab| == |ns| && |cur[p]| == |tab[p]|
    ensures cur[p][i] == LinkAt(Without(ns, k + 1), Without(HeightsOf(tab), k + 1), p - 1, i)
  {
    SameHeights(tab, cur);
    assert tab[p][i] == LinkAt(ns, HeightsOf(tab), p, i);
    assert cur[p][i] == tab[p][i];
    LinkWithout(ns, HeightsOf(tab), k + 1, p, i);
  }

  lemma DeleteRows(ns: seq<Ptr>, tab: Table, cur: Table, k: nat, rk: seq<nat>, lv: nat)
    requires Deleting(ns, tab, cur, k, rk, lv)
    ensures |cur| == |tab| && HeightsOf(Without(cur, k + 1)) == Without(HeightsOf(tab), k + 1)
    ensures RowsOk(Without(ns, k + 1), Without(cur, k + 1), Without(HeightsOf(tab), k + 1), lv)
  {
    SameHeights(tab, cur);
    var t: Table := Without(cur, k + 1);
    forall p, i | 0 <= p < |t| && 0 <= i < |t[p]| && i < lv
      ensures t[p][i] == LinkAt(Without(ns, k + 1), Without(HeightsOf(tab), k + 1), p, i)
    {
      if p <= k {
        DeleteFront(ns, tab, cur, k, rk, lv, p, i);
      } else {
        DeleteBehind(ns, tab, cur, k, rk, lv, p + 1, i);
      }
    }
  }

  /** Deletion leaves every link and span of the remaining list right. */
  lemma DeleteLinked(ns: seq<Ptr>, tab: Table, cur: Table, k: nat, rk: seq<nat>, lv: nat)
    requires Deleting(ns, tab, cur, k, rk, lv)
    ensures Linked(Without(ns, k + 1), Without(cur, k + 1), lv)
  {
    DeleteRows(ns, tab, cur, k, rk, lv);
    SameHeights(tab, cur);
    DeleteSplit(ns, HeightsOf(tab), k);
    var t: Table := Without(cur, k + 1);
    forall i | lv <= i < MAXLEVEL ensures t[0][i].forward == NULL {
      assert cur[0][i] == tab[0][i];
    }
  }

  /** An empty top level can go. */
  lemma LowerLinked(ns: seq<Ptr>, tab: Table, lv: nat)
    requires Linked(ns, tab, lv) && lv > 1 && tab[0][lv - 1].forward == NULL
    ensures Linked(ns, tab, lv - 1)
  {
  }

  // ---------------------------------------------------------------- backward pointers

  /** `backward` and `tail` mirror level 0. */
  ghost predicate Mirrored(ns: seq<Ptr>, backs: seq<Ptr>, tail: Ptr) {
    |backs| == |ns| && ns != [] && backs[0] == NULL &&
    (forall p :: 0 < p < |ns| ==> backs[p] == if p == 1 then NULL else ns[p - 1]) &&
    tail == if |ns| == 1 then NULL else ns[|ns| - 1]
  }

  /** The backward pointers once a new node hangs behind node `k`. */
  function BacksFitted(ns: seq<Ptr>, backs: seq<Ptr>, k: nat, x: Ptr): seq<Ptr>
    requires |backs| == |ns| && k < |ns|
  {
    PutBehind(if k + 1 < |ns| then backs[k + 1 := x] else backs, k, if k == 0 then NULL else ns[k])
  }

  /** The backward pointers once node `k + 1` is gone. */
  function BacksTaken(backs: seq<Ptr>, k: nat): seq<Ptr>
    requires k + 1 < |backs|
  {
    Without(if k + 2 < |backs| then backs[k + 2 := backs[k + 1]] else backs, k + 1)
  }

  lemma TakenMirrors(ns: seq<Ptr>, backs: seq<Ptr>, tail: Ptr, k: nat)
    requires Mirrored(ns, backs, tail) && k + 1 < |ns|
    ensures Mirrored(Without(ns, k + 1), BacksTaken(backs, k), if k + 2 < |ns| then tail else backs[k + 1])
  {
  }

  lemma FittedMirrors(ns: seq<Ptr>, backs: seq<Ptr>, tail: Ptr, k: nat, x: Ptr)
    requires Mirrored(ns, backs, tail) && k < |ns|
    ensures Mirrored(PutBehind(ns, k, x), BacksFitted(ns, backs, k, x), if k + 1 < |ns| then tail else x)
  {
  }

  lemma RelinkedBacks<T>(ns: seq<Ptr>, mem: Memory<T>, mem': Memory<T>)
    requires InMemory(ns, mem) && Relinked(mem, mem')
    ensures InMemory(ns, mem') && BacksOf(ns, mem') == BacksOf(ns, mem)
    ensures Named(ns, mem) ==> Named(ns, mem')
    ensures SameElements(mem, mem')
  {
  }

  /** Memory in which only backward pointers have changed. */
  ghost predicate Rebacked<T>(mem: Memory<T>, mem': Memory<T>) {
    mem'.Keys == mem.Keys && forall a :: a in mem ==> mem'[a] == mem[a].(backward := mem'[a].backward)
  }

  lemma RebackedTable<T>(ns: seq<Ptr>, mem: Memory<T>, mem': Memory<T>, k: nat, x: Ptr)
    requires InMemory(ns, mem) && Rebacked(mem, mem') && x in mem && k < |ns|
    ensures InMemory(PutBehind(ns, k, x), mem')
    ensures TableOf(PutBehind(ns, k, x), mem') == PutBehind(TableOf(ns, mem), k, mem[x].level)
  {
  }

  /** The backward pointers written for a new node are the fitted ones. */
  lemma FittedBacks<T>(ns: seq<Ptr>, mem: Memory<T>, mem': Memory<T>, k: nat, x: Ptr)
    requires InMemory(ns, mem) && Addressed(ns) && Rebacked(mem, mem') && x in mem && x !in ns && k < |ns|
    requires mem'[x].backward == if k == 0 then NULL else ns[k]
    requires forall p :: 0 <= p < |ns| ==> mem'[ns[p]].backward == if p == k + 1 then x else mem[ns[p]].backward
    ensures InMemory(PutBehind(ns, k, x), mem')
    ensures BacksOf(PutBehind(ns, k, x), mem') == BacksFitted(ns, BacksOf(ns, mem), k, x)
  {
  }

  // ---------------------------------------------------------------- elements

  /** A new node hung in behind the cut makes the sequence of elements the inserted one. */
  lemma ElementsInserted<T>(cmp: Compare<T>, ns: seq<Ptr>, mem: Memory<T>, mem': Memory<T>, x: Ptr, e: Entry<T>)
    requires Named(ns, mem) && x in mem' && mem'[x].obj.Some? && EntryOf(mem'[x]) == e
    requires forall p :: 0 <= p < |ns| ==> ns[p] in mem' && SameElement(mem[ns[p]], mem'[ns[p]])
    ensures var k := Passing(ElementsOf(ns, mem), Before(cmp, e));
            Named(PutBehind(ns, k, x), mem') &&
            ElementsOf(PutBehind(ns, k, x), mem') == Inserted(cmp, ElementsOf(ns, mem), e)
  {
    PutBehindAt(ns, Passing(ElementsOf(ns, mem), Before(cmp, e)), x);
  }

  /** Memory in which every old node still holds the same element. */
  ghost predicate SameElements<T>(mem: Memory<T>, mem': Memory<T>) {
    forall a :: a in mem ==> a in mem' && SameElement(mem[a], mem'[a])
  }

  lemma NamedSplice<T>(ns: seq<Ptr>, mem: Memory<T>, mem': Memory<T>, k: nat, x: Ptr)
    requires Named(ns, mem) && SameElements(mem, mem') && x in mem' && mem'[x].obj.Some? && k < |ns|
    ensures Named(PutBehind(ns, k, x), mem') && PutBehind(ns, k, x)[0] == ns[0]
  {
  }

  ghost predicate SameElement<T>(a: Node<T>, b: Node<T>) {
    a.score == b.score && a.obj == b.obj
  }

  /** The top level in use holds a node exactly when some node is that high. */
  lemma TopUsed(ns: seq<Ptr>, tab: Table, lv: nat)
    requires Linked(ns, tab, lv) && lv >= 1
    ensures tab[0][lv - 1].forward != NULL <==> exists p :: 0 < p < |tab| && |tab[p]| >= lv
  {
  }

  /** On level 0 every node is linked to the next. */
  lemma BottomLink(ns: seq<Ptr>, tab: Table, lv: nat, p: nat)
    requires Linked(ns, tab, lv) && p < |ns|
    ensures |tab[p]| > 0 && tab[p][0].forward == NodeAt(ns, p + 1)
  {
  }

  /** After an insertion the top level in use holds a node. */
  lemma TopAfterInsert(ns: seq<Ptr>, tab: Table, ns': seq<Ptr>, tab': Table, k: nat, h: nat, lv: nat, lv': nat)
    requires Linked(ns, tab, lv) && Linked(ns', tab', lv') && k < |tab|
    requires HeightsOf(tab') == PutBehind(HeightsOf(tab), k, h)
    requires lv' == if h > lv then h else lv
    requires lv > 1 ==> tab[0][lv - 1].forward != NULL
    ensures lv' > 1 ==> tab'[0][lv' - 1].forward != NULL
  {
    TopUsed(ns', tab', lv');
    if lv' > lv {
      GrownHeights(tab, tab', k, h, k);
    } else if lv > 1 {
      TopUsed(ns, tab, lv);
      var p :| 0 < p < |tab| && |tab[p]| >= lv;
      GrownHeights(tab, tab', k, h, p);
    }
  }

  lemma GrownHeights(tab: Table, tab': Table, k: nat, h: nat, p: nat)
    requires k < |tab| && p < |tab| && HeightsOf(tab') == PutBehind(HeightsOf(tab), k, h)
    ensures |tab'| == |tab| + 1 && |tab'[k + 1]| == h && |tab'[if p <= k then p else p + 1]| == |tab[p]|
  {
    var hs := HeightsOf(tab);
    PutBehindAt(hs, k, h);
    var q := if p <= k then p else p + 1;
    assert |tab'[k + 1]| == HeightsOf(tab')[k + 1] && |tab'[q]| == HeightsOf(tab')[q];
  }

  /** Memory after a deletion: node `x` freed, and its successor's backward pointer moved past it. */
  ghost predicate Freed<T>(mem: Memory<T>, mem': Memory<T>, x: Ptr, next: Ptr) {
    mem'.Keys == mem.Keys - {x} && x in mem &&
    forall a :: a in mem && a != x ==>
      a in mem' && mem'[a] == if a == next && next != NULL then mem[a].(backward := mem[x].backward) else mem[a]
  }

  lemma FreedTables<T>(ns: seq<Ptr>, mem: Memory<T>, mem': Memory<T>, k: nat)
    requires InMemory(ns, mem) && Addressed(ns) && k + 1 < |ns| && Freed(mem, mem', ns[k + 1], NodeAt(ns, k + 2))
    ensures InMemory(Without(ns, k + 1), mem')
    ensures TableOf(Without(ns, k + 1), mem') == Without(TableOf(ns, mem), k + 1)
    ensures BacksOf(Without(ns, k + 1), mem') == BacksTaken(BacksOf(ns, mem), k)
  {
    var sm := Without(ns, k + 1);
    forall p | 0 <= p < |sm| ensures sm[p] in mem' && sm[p] == ns[if p <= k then p else p + 1] && sm[p] != ns[k + 1] {
    }
  }

  /** The node that goes still has its own links while the others are bridged. */
  lemma BottomKept(ns: seq<Ptr>, tab: Table, cur: Table, x: Ptr, k: nat, rk: seq<nat>, lv: nat)
    requires Linked(ns, tab, lv) && k + 1 < |ns| && Unlinked(tab, cur, x, k, rk, lv)
    ensures |cur| == |ns| && |cur[k + 1]| > 0 && cur[k + 1][0].forward == NodeAt(ns, k + 2)
  {
  }

  lemma SameHead(ns: seq<Ptr>, k: nat)
    requires k + 1 < |ns|
    ensures Without(ns, k + 1) != [] && Without(ns, k + 1)[0] == ns[0]
  {
  }
}
