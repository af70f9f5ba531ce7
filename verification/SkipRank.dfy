/** What a rank query answers, and when that is the rank. */
module SkipRank {
  import opened Options
  import opened Pointers
  import opened SkipOrder
  import opened SkipLinks
  import opened SkipTable

  /**
   The answer to a rank query whose test reaches node `k`: a node with the object
   asked for that is the last one up to `k` on some level, or 0 if there is none.
   */
  ghost predicate RankAnswer<T(!new)>(ns: seq<Ptr>, mem: Memory<T>, hs: Heights, k: nat, lv: nat, obj: T, r: nat)
    requires InMemory(ns, mem)
  {
    if r == 0 then forall i: nat, p: nat :: i < lv && LastUpTo(hs, k, i, p) && p < |ns| ==> mem[ns[p]].obj != Some(obj)
    else r < |ns| && mem[ns[r]].obj == Some(obj) && exists i: nat :: i < lv && LastUpTo(hs, k, i, r)
  }

  ghost predicate DistinctObjects<T>(es: seq<Entry<T>>) {
    forall i, j :: 0 <= i < j < |es| ==> es[i].obj != es[j].obj
  }

  /** Elements with the same object are the same one. */
  lemma OneHolder<T>(es: seq<Entry<T>>, i: nat, j: nat)
    requires DistinctObjects(es) && i < |es| && j < |es|
    ensures es[i].obj == es[j].obj ==> i == j
  {
  }

  lemma UpToCuts<T(!new)>(cmp: Compare<T>, es: seq<Entry<T>>, e: Entry<T>)
    requires TotalOrder(cmp) && Sorted(cmp, es)
    ensures Cut(es, UpTo(cmp, e), Passing(es, UpTo(cmp, e)))
  {
  }

  /** The list a query runs on. */
  ghost predicate Queried<T(!new)>(cmp: Compare<T>, ns: seq<Ptr>, mem: Memory<T>, hs: Heights, lv: nat) {
    TotalOrder(cmp) && Named(ns, mem) && Sorted(cmp, ElementsOf(ns, mem)) && |hs| == |ns| && 1 <= lv &&
    hs[0] >= lv && forall p :: 0 < p < |hs| ==> 1 <= hs[p] <= lv
  }

  /** With distinct objects, the rank of an element that is there is its 1-based position. */
  lemma RankOfPresent<T(!new)>(cmp: Compare<T>, ns: seq<Ptr>, mem: Memory<T>, hs: Heights, lv: nat, e: Entry<T>,
                        m: nat, r: nat)
    requires Queried(cmp, ns, mem, hs, lv) && DistinctObjects(ElementsOf(ns, mem))
    requires m < |ns| - 1 && ElementsOf(ns, mem)[m] == e
    requires RankAnswer(ns, mem, hs, Passing(ElementsOf(ns, mem), UpTo(cmp, e)), lv, e.obj, r)
    ensures r == m + 1
  {
    var es := ElementsOf(ns, mem);
    var k := Passing(es, UpTo(cmp, e));
    UpToCuts(cmp, es, e);
    LessTotal(cmp, e, e);
    assert UpTo(cmp, e)(es[m]);
    if k > m + 1 {
      assert LessEq(cmp, es[m], es[k - 1]) && UpTo(cmp, e)(es[k - 1]);
      LessTotal(cmp, es[m], es[k - 1]);
      LessTotal(cmp, es[k - 1], es[m]);
      assert false;
    }
    assert LastUpTo(hs, k, 0, k);
    assert mem[ns[k]].obj == Some(e.obj);
    if r != 0 {
      OneHolder(es, r - 1, m);
    }
  }

  /** An object that is nowhere has rank 0. */
  lemma RankOfUnknown<T(!new)>(cmp: Compare<T>, ns: seq<Ptr>, mem: Memory<T>, hs: Heights, lv: nat, e: Entry<T>, r: nat)
    requires Queried(cmp, ns, mem, hs, lv) && (forall i :: 0 <= i < |ns| - 1 ==> ElementsOf(ns, mem)[i].obj != e.obj)
    requires RankAnswer(ns, mem, hs, Passing(ElementsOf(ns, mem), UpTo(cmp, e)), lv, e.obj, r)
    ensures r == 0
  {
    var probe := if r != 0 then ElementsOf(ns, mem)[r - 1].obj else e.obj;
  }

  /**
   A pair that is not there although its object is, under another score at
   position `m`: the query looks at the object only, so it answers that position
   whenever the test passes it and no node from there up to the end of the test is
   as high; otherwise it answers 0, as documented.
   */
  lemma RankOfOtherScore<T(!new)>(cmp: Compare<T>, ns: seq<Ptr>, mem: Memory<T>, hs: Heights, lv: nat, e: Entry<T>,
                           m: nat, r: nat)
    requires Queried(cmp, ns, mem, hs, lv) && DistinctObjects(ElementsOf(ns, mem))
    requires m < |ns| - 1 && ElementsOf(ns, mem)[m].obj == e.obj
    requires RankAnswer(ns, mem, hs, Passing(ElementsOf(ns, mem), UpTo(cmp, e)), lv, e.obj, r)
    ensures var k := Passing(ElementsOf(ns, mem), UpTo(cmp, e));
            r == if m + 1 <= k && (forall q :: m + 1 < q <= k ==> hs[q] < hs[m + 1]) then m + 1 else 0
  {
    var es := ElementsOf(ns, mem);
    var k := Passing(es, UpTo(cmp, e));
    assert mem[ns[m + 1]].obj == Some(e.obj);
    if r != 0 {
      OneHolder(es, r - 1, m);
    }
    if r == m + 1 {
      var i: nat :| i < lv && LastUpTo(hs, k, i, r);
    }
    if m + 1 <= k && (forall q :: m + 1 < q <= k ==> hs[q] < hs[m + 1]) {
      assert LastUpTo(hs, k, hs[m + 1] - 1, m + 1);
    }
  }

  /** One element, with score 1: asked for the same object with score 2, which is not there, the query answers 1. */
  lemma OtherScoreRanked(cmp: Compare<int>, ns: seq<Ptr>, mem: Memory<int>, hs: Heights, e: Entry<int>)
    requires cmp == ((a: int, b: int) => a - b)
    requires ns == [1, 2] && mem == map[1 := Node(0.0, None, NULL, []), 2 := Node(1.0, Some(7), NULL, [])]
    requires hs == [MAXLEVEL, 1] && e == Entry(2.0, 7)
    ensures Queried(cmp, ns, mem, hs, 1) && DistinctObjects(ElementsOf(ns, mem)) && e !in ElementsOf(ns, mem)
    ensures forall r: nat ::
              RankAnswer(ns, mem, hs, Passing(ElementsOf(ns, mem), UpTo(cmp, e)), 1, e.obj, r) <==> r == 1
  {
    assert ElementsOf(ns, mem) == [Entry(1.0, 7)];
    assert LastUpTo(hs, 1, 0, 1);
  }

  /** A list in order may be queried. */
  lemma LinkedQueried<T(!new)>(cmp: Compare<T>, ns: seq<Ptr>, mem: Memory<T>, lv: nat)
    requires TotalOrder(cmp) && Named(ns, mem) && Sorted(cmp, ElementsOf(ns, mem)) && Linked(ns, TableOf(ns, mem), lv)
    ensures Queried(cmp, ns, mem, HeightsOf(TableOf(ns, mem)), lv)
  {
  }

  /** What the answer tells of the elements. */
  ghost predicate RankTells<T>(es: seq<Entry<T>>, e: Entry<T>, r: nat) {
    r <= |es| && (r > 0 ==> es[r - 1].obj == e.obj) &&
    (DistinctObjects(es) && e in es ==> r > 0 && es[r - 1] == e)
  }

  lemma AnswerTells<T(!new)>(cmp: Compare<T>, ns: seq<Ptr>, mem: Memory<T>, lv: nat, e: Entry<T>, r: nat)
    requires TotalOrder(cmp) && Named(ns, mem) && Sorted(cmp, ElementsOf(ns, mem)) && Linked(ns, TableOf(ns, mem), lv)
    requires RankAnswer(ns, mem, HeightsOf(TableOf(ns, mem)), Passing(ElementsOf(ns, mem), UpTo(cmp, e)), lv, e.obj, r)
    ensures RankTells(ElementsOf(ns, mem), e, r)
  {
    var es := ElementsOf(ns, mem);
    LinkedQueried(cmp, ns, mem, lv);
    if r > 0 {
      assert es[r - 1] == EntryOf(mem[ns[r]]);
    }
    if DistinctObjects(es) && e in es {
      var m :| 0 <= m < |es| && es[m] == e;
      RankOfPresent(cmp, ns, mem, HeightsOf(TableOf(ns, mem)), lv, e, m, r);
    }
  }

  lemma {:induction false} CountIs(s: set<int>, n: nat)
    requires forall i :: i in s <==> 0 <= i < n
    ensures |s| == n
  {
    if n > 0 {
      CountIs(s - {n - 1}, n - 1);
    } else {
      forall i ensures i !in s {
      }
    }
  }

  /** In a list in order, the position of an element is how many come before it by score and object. */
  lemma CountedBefore<T(!new)>(cmp: Compare<T>, es: seq<Entry<T>>, m: nat)
    requires TotalOrder(cmp) && Sorted(cmp, es) && DistinctObjects(es) && m < |es|
    ensures m == |set i | 0 <= i < |es| &&
                         (es[i].score < es[m].score || (es[i].score == es[m].score && cmp(es[i].obj, es[m].obj) < 0))|
  {
    var below := set i | 0 <= i < |es| &&
                         (es[i].score < es[m].score || (es[i].score == es[m].score && cmp(es[i].obj, es[m].obj) < 0));
    SortedMeans(cmp, es);
    forall i | 0 <= i < |es| ensures i in below <==> i < m {
      if i != m {
        OneHolder(es, i, m);
      }
    }
    CountIs(below, m);
  }

  /** With distinct objects, the rank of a pair that is there counts the elements before it by score and object. */
  lemma TellsCount<T(!new)>(cmp: Compare<T>, es: seq<Entry<T>>, e: Entry<T>, r: nat)
    requires TotalOrder(cmp) && Sorted(cmp, es) && RankTells(es, e, r)
    ensures DistinctObjects(es) && e in es ==>
              r == 1 + |set i | 0 <= i < |es| &&
                                (es[i].score < e.score || (es[i].score == e.score && cmp(es[i].obj, e.obj) < 0))|
  {
    if DistinctObjects(es) && e in es {
      CountedBefore(cmp, es, r - 1);
    }
  }

  /** Asking for the rank of the element at a position gives the position back. */
  lemma RankInverse<T(!new)>(cmp: Compare<T>, ns: seq<Ptr>, mem: Memory<T>, hs: Heights, lv: nat, pos: nat, r: nat)
    requires Queried(cmp, ns, mem, hs, lv) && DistinctObjects(ElementsOf(ns, mem)) && 1 <= pos < |ns|
    requires var e := EntryOf(mem[NodeAt(ns, pos)]);
             RankAnswer(ns, mem, hs, Passing(ElementsOf(ns, mem), UpTo(cmp, e)), lv, e.obj, r)
    ensures r == pos && NodeAt(ns, r) == ns[pos]
  {
    RankOfPresent(cmp, ns, mem, hs, lv, EntryOf(mem[NodeAt(ns, pos)]), pos - 1, r);
  }
}
