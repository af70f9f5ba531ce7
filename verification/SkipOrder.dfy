/** Elements of the skip list and their order: by score, then by object. */
module SkipOrder {
  datatype Entry<T> = Entry(score: real, obj: T)

  type Compare<!T> = (T, T) -> int

  /** A total order whose zero is equality. */
  ghost predicate TotalOrder<T(!new)>(cmp: Compare<T>) {
    (forall a, b :: cmp(a, b) == 0 <==> a == b) &&
    (forall a, b :: cmp(a, b) < 0 <==> cmp(b, a) > 0) &&
    (forall a, b, c :: cmp(a, b) < 0 && cmp(b, c) < 0 ==> cmp(a, c) < 0)
  }

  /** The test with which insertion and deletion pass over an element. */
  predicate Less<T>(cmp: Compare<T>, a: Entry<T>, b: Entry<T>) {
    a.score < b.score || (a.score == b.score && cmp(a.obj, b.obj) < 0)
  }

  /** The test with which a rank query passes over an element. */
  predicate LessEq<T>(cmp: Compare<T>, a: Entry<T>, b: Entry<T>) {
    a.score < b.score || (a.score == b.score && cmp(a.obj, b.obj) <= 0)
  }

  lemma LessTotal<T(!new)>(cmp: Compare<T>, a: Entry<T>, b: Entry<T>)
    requires TotalOrder(cmp)
    ensures LessEq(cmp, a, b) <==> !Less(cmp, b, a)
    ensures LessEq(cmp, a, b) <==> Less(cmp, a, b) || a == b
    ensures !Less(cmp, a, a)
  {
  }

  ghost predicate Sorted<T>(cmp: Compare<T>, es: seq<Entry<T>>) {
    forall i, j :: 0 <= i < j < |es| ==> LessEq(cmp, es[i], es[j])
  }

  /** What the order is, in terms of scores and of the comparison of objects. */
  lemma SortedMeans<T>(cmp: Compare<T>, es: seq<Entry<T>>)
    ensures Sorted(cmp, es) <==>
            forall i, j :: 0 <= i < j < |es| ==>
              es[i].score <= es[j].score && (es[i].score == es[j].score ==> cmp(es[i].obj, es[j].obj) <= 0)
  {
  }

  /** `c` splits sorted elements into those that pass the test and those that do not. */
  ghost predicate Cut<T>(es: seq<Entry<T>>, pass: Entry<T> -> bool, c: nat) {
    c <= |es| && (forall i :: 0 <= i < c ==> pass(es[i])) && forall i :: c <= i < |es| ==> !pass(es[i])
  }

  function Before<T>(cmp: Compare<T>, e: Entry<T>): Entry<T> -> bool {
    (a: Entry<T>) => Less(cmp, a, e)
  }

  function UpTo<T>(cmp: Compare<T>, e: Entry<T>): Entry<T> -> bool {
    (a: Entry<T>) => LessEq(cmp, a, e)
  }

  /** How many elements pass, counted from the front. */
  function Passing<T>(es: seq<Entry<T>>, pass: Entry<T> -> bool): (c: nat)
    ensures c <= |es|
  {
    if es != [] && pass(es[0]) then 1 + Passing(es[1..], pass) else 0
  }

  /** A test that, once failed, keeps failing along the list. */
  ghost predicate Downward<T>(es: seq<Entry<T>>, pass: Entry<T> -> bool) {
    forall i, j :: 0 <= i < j < |es| && pass(es[j]) ==> pass(es[i])
  }

  lemma {:induction false} PassingCuts<T>(es: seq<Entry<T>>, pass: Entry<T> -> bool)
    requires Downward(es, pass)
    ensures Cut(es, pass, Passing(es, pass))
  {
    if es != [] && pass(es[0]) {
      forall i, j | 0 <= i < j < |es[1..]| && pass(es[1..][j]) ensures pass(es[1..][i]) {
        assert es[1..][i] == es[i + 1] && es[1..][j] == es[j + 1];
      }
      PassingCuts(es[1..], pass);
      var c := Passing(es[1..], pass);
      forall i | 0 <= i < |es| ensures pass(es[i]) <==> i < 1 + c {
        if i > 0 { assert es[i] == es[1..][i - 1]; }
      }
    } else if es != [] {
      forall i | 0 <= i < |es| ensures !pass(es[i]) {
      }
    }
  }

  lemma SortedDownward<T(!new)>(cmp: Compare<T>, es: seq<Entry<T>>, e: Entry<T>)
    requires TotalOrder(cmp) && Sorted(cmp, es)
    ensures Downward(es, Before(cmp, e)) && Downward(es, UpTo(cmp, e))
  {
  }

  // ---------------------------------------------------------------- the list as a sorted sequence

  function Inserted<T>(cmp: Compare<T>, es: seq<Entry<T>>, e: Entry<T>): seq<Entry<T>> {
    var c := Passing(es, Before(cmp, e));
    es[..c] + [e] + es[c..]
  }

  /** The first element equal to `e` taken out, if there is one. */
  function Deleted<T(==)>(cmp: Compare<T>, es: seq<Entry<T>>, e: Entry<T>): seq<Entry<T>> {
    var c := Passing(es, Before(cmp, e));
    if c < |es| && es[c] == e then es[..c] + es[c + 1..] else es
  }

  /** Where the cut for `e` is, everything before is smaller and nothing after is. */
  lemma CutOrders<T(!new)>(cmp: Compare<T>, es: seq<Entry<T>>, e: Entry<T>)
    requires TotalOrder(cmp) && Sorted(cmp, es)
    ensures Cut(es, Before(cmp, e), Passing(es, Before(cmp, e)))
    ensures forall i :: 0 <= i < |es| ==>
              if i < Passing(es, Before(cmp, e)) then Less(cmp, es[i], e) else LessEq(cmp, e, es[i])
  {
    SortedDownward(cmp, es, e);
    PassingCuts(es, Before(cmp, e));
    forall i | 0 <= i < |es|
      ensures if i < Passing(es, Before(cmp, e)) then Less(cmp, es[i], e) else LessEq(cmp, e, es[i])
    {
      LessTotal(cmp, e, es[i]);
    }
  }

  lemma SplicedSorted<T(!new)>(cmp: Compare<T>, es: seq<Entry<T>>, e: Entry<T>, c: nat)
    requires TotalOrder(cmp) && Sorted(cmp, es) && c <= |es|
    requires forall i :: 0 <= i < |es| ==> if i < c then LessEq(cmp, es[i], e) else LessEq(cmp, e, es[i])
    ensures Sorted(cmp, es[..c] + [e] + es[c..])
  {
  }

  /** Insertion keeps order and adds the one element. */
  lemma InsertedSorted<T(!new)>(cmp: Compare<T>, es: seq<Entry<T>>, e: Entry<T>)
    requires TotalOrder(cmp) && Sorted(cmp, es)
    ensures Sorted(cmp, Inserted(cmp, es, e))
    ensures var fs := Inserted(cmp, es, e);
            forall i, j :: 0 <= i < j < |fs| ==>
              fs[i].score <= fs[j].score && (fs[i].score == fs[j].score ==> cmp(fs[i].obj, fs[j].obj) <= 0)
    ensures multiset(Inserted(cmp, es, e)) == multiset(es) + multiset{e}
  {
    var c := Passing(es, Before(cmp, e));
    CutOrders(cmp, es, e);
    forall i | 0 <= i < c ensures LessEq(cmp, es[i], e) {
      LessTotal(cmp, es[i], e);
    }
    SplicedSorted(cmp, es, e, c);
    SortedMeans(cmp, Inserted(cmp, es, e));
    assert es == es[..c] + es[c..];
  }

  lemma DroppedSorted<T(!new)>(cmp: Compare<T>, es: seq<Entry<T>>, c: nat)
    requires Sorted(cmp, es) && c < |es|
    ensures Sorted(cmp, es[..c] + es[c + 1..])
  {
  }

  lemma DroppedOne<X>(es: seq<X>, c: nat)
    requires c < |es|
    ensures multiset(es[..c] + es[c + 1..]) == multiset(es) - multiset{es[c]}
  {
    assert es == es[..c] + [es[c]] + es[c + 1..];
  }

  /** Deletion keeps order, and removes one occurrence of `e` exactly if there is any. */
  lemma DeletedSorted<T(!new)>(cmp: Compare<T>, es: seq<Entry<T>>, e: Entry<T>)
    requires TotalOrder(cmp) && Sorted(cmp, es)
    ensures Sorted(cmp, Deleted(cmp, es, e))
    ensures var fs := Deleted(cmp, es, e);
            forall i, j :: 0 <= i < j < |fs| ==>
              fs[i].score <= fs[j].score && (fs[i].score == fs[j].score ==> cmp(fs[i].obj, fs[j].obj) <= 0)
    ensures multiset(Deleted(cmp, es, e)) == multiset(es) - multiset{e}
    ensures e !in es ==> Deleted(cmp, es, e) == es
  {
    var c := Passing(es, Before(cmp, e));
    if c < |es| && es[c] == e {
      DroppedSorted(cmp, es, c);
      DroppedOne(es, c);
    } else {
      NotThere(cmp, es, e);
    }
    SortedMeans(cmp, Deleted(cmp, es, e));
  }

  /** An element that is not right behind the cut is nowhere. */
  lemma NotThere<T(!new)>(cmp: Compare<T>, es: seq<Entry<T>>, e: Entry<T>)
    requires TotalOrder(cmp) && Sorted(cmp, es)
    requires var c := Passing(es, Before(cmp, e)); !(c < |es| && es[c] == e)
    ensures e !in es
  {
  }

  /** A new element is cut off where it was put. */
  lemma InsertedCut<T(!new)>(cmp: Compare<T>, es: seq<Entry<T>>, e: Entry<T>)
    requires TotalOrder(cmp) && Sorted(cmp, es)
    ensures Passing(Inserted(cmp, es, e), Before(cmp, e)) == Passing(es, Before(cmp, e))
  {
    var c := Passing(es, Before(cmp, e));
    var fs := Inserted(cmp, es, e);
    CutOrders(cmp, es, e);
    InsertedSorted(cmp, es, e);
    CutOrders(cmp, fs, e);
    LessTotal(cmp, e, e);
    forall i | 0 <= i < c ensures Before(cmp, e)(fs[i]) {
      assert fs[i] == es[i];
    }
    CutUnique(fs, Before(cmp, e), c, Passing(fs, Before(cmp, e)));
  }

  /** Deleting what was just inserted gives the list back, even if it held equal elements. */
  lemma InsertThenDelete<T(!new)>(cmp: Compare<T>, es: seq<Entry<T>>, e: Entry<T>)
    requires TotalOrder(cmp) && Sorted(cmp, es)
    ensures Deleted(cmp, Inserted(cmp, es, e), e) == es
  {
    var c := Passing(es, Before(cmp, e));
    var fs := Inserted(cmp, es, e);
    InsertedCut(cmp, es, e);
    assert fs[..c] == es[..c] && fs[c + 1..] == es[c..];
  }

  lemma CutUnique<T>(es: seq<Entry<T>>, pass: Entry<T> -> bool, c: nat, d: nat)
    requires Cut(es, pass, d) && c < |es|
    requires (forall i :: 0 <= i < c ==> pass(es[i])) && !pass(es[c])
    ensures c == d
  {
    var probe := es[if d < c then d else c];
  }
}
