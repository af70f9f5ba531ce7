/**
 The intrusive circular list: nodes that are embedded in other objects and linked
 in a ring. A list is its head followed by its entries.
 */
module Lists {
  import opened Sequences

  class ListHead {
    var next: ListHead?
    var prev: ListHead?

    constructor ()
      ensures List(this, [])
    {
      new;
      next, prev := this, this;
      assert [this] + [] == [this];
    }

    /** As the allocator zeroes it: no list yet. */
    constructor Zeroed()
      ensures next == null && prev == null
    {
      next, prev := null, null;
    }

    /** Makes the list empty, whatever its pointers were. */
    method Init()
      modifies this
      ensures List(this, [])
    {
      next, prev := this, this;
      assert [this] + [] == [this];
    }
  }

  ghost predicate Apart<T>(xs: seq<T>, ys: seq<T>) {
    forall x :: x in xs ==> x !in ys
  }

  /** The place that follows a place in a ring of a length. */
  function After(i: nat, n: nat): nat {
    if i + 1 < n then i + 1 else 0
  }

  function Before(i: nat, n: nat): nat
    requires i < n
  {
    if i == 0 then n - 1 else i - 1
  }

  ghost function Prior(r: seq<ListHead>, i: nat): ListHead
    requires i < |r|
  {
    r[Before(i, |r|)]
  }

  ghost function Later(r: seq<ListHead>, i: nat): ListHead
    requires i < |r|
  {
    r[After(i, |r|)]
  }

  ghost predicate Linked(a: ListHead, b: ListHead)
    reads a, b
  {
    a.next == b && b.prev == a
  }

  /** The nodes are distinct and each is linked to the next, the last to the first. */
  ghost predicate Ring(r: seq<ListHead>)
    reads r
  {
    |r| > 0 && NoDup(r) && forall i :: 0 <= i < |r| ==> Linked(r[i], r[After(i, |r|)])
  }

  lemma Neighbours(r: seq<ListHead>, i: nat)
    requires Ring(r) && i < |r|
    ensures Linked(r[i], r[After(i, |r|)]) && Linked(r[Before(i, |r|)], r[i])
  {
    assert After(Before(i, |r|), |r|) == i;
  }

  /** A list: what hangs on a head, in order. */
  ghost predicate List(head: ListHead, xs: seq<ListHead>)
    reads {head} + set x | x in xs
  {
    head.next != null && head.prev != null && Ring([head] + xs)
  }

  lemma AsList(head: ListHead, xs: seq<ListHead>)
    requires Ring([head] + xs)
    ensures List(head, xs)
  {
    Neighbours([head] + xs, 0);
  }

  method AddBetween(n: ListHead, prev: ListHead, next: ListHead, ghost r: seq<ListHead>, ghost i: nat)
    requires Ring(r) && i < |r| && r[i] == prev && r[After(i, |r|)] == next && n !in r
    modifies n, prev`next, next`prev
    ensures Ring(PutBehind(r, i, n))
  {
    PutBehindAt(r, i, n);
    PutBehindNoDup(r, i, n);
    Neighbours(r, i);
    next.prev := n;
    n.next := next;
    n.prev := prev;
    prev.next := n;
    ghost var s := PutBehind(r, i, n);
    assert Linked(s[i], s[i + 1]) && Linked(s[i + 1], s[After(i + 1, |s|)]);
    forall k | 0 <= k < |s| && k != i && k != i + 1 ensures Linked(s[k], s[After(k, |s|)]) {
      ghost var k' := if k < i then k else k - 1;
      assert s[k] == r[k'] && s[After(k, |s|)] == r[After(k', |r|)];
      assert old(Linked(r[k'], r[After(k', |r|)]));
    }
  }

  /** Puts a node in front of a list. */
  method Add(n: ListHead, head: ListHead, ghost xs: seq<ListHead>)
    requires List(head, xs) && n != head && n !in xs
    modifies n, head`next, head.next`prev
    ensures List(head, [n] + xs)
  {
    ghost var r := [head] + xs;
    Neighbours(r, 0);
    AddBetween(n, head, head.next, r, 0);
    assert PutBehind(r, 0, n) == [head] + ([n] + xs);
    AsList(head, [n] + xs);
  }

  method AddTail(n: ListHead, head: ListHead, ghost xs: seq<ListHead>)
    requires List(head, xs) && n != head && n !in xs
    modifies n, head`prev, head.prev`next
    ensures List(head, xs + [n])
  {
    ghost var r := [head] + xs;
    Neighbours(r, 0);
    AddBetween(n, head.prev, head, r, |r| - 1);
    assert PutBehind(r, |r| - 1, n) == [head] + (xs + [n]);
    AsList(head, xs + [n]);
  }

  method DelBetween(prev: ListHead, next: ListHead, ghost r: seq<ListHead>, ghost i: nat)
    requires Ring(r) && i < |r| && prev == r[i].prev && next == r[i].next
    modifies prev`next, next`prev
    ensures |r| > 1 ==> Ring(Without(r, i))
  {
    Neighbours(r, i);
    next.prev := prev;
    prev.next := next;
    ghost var s, n := Without(r, i), |r|;
    forall k | n > 1 && 0 <= k < |s| ensures Linked(s[k], s[After(k, |s|)]) {
      ghost var k' := if k < i then k else k + 1;
      assert old(Linked(r[k'], r[After(k', n)]));
    }
  }

  /** Takes a node out of the ring it is in; its own pointers stay as they were. */
  method Del(entry: ListHead, ghost r: seq<ListHead>, ghost i: nat)
    requires Ring(r) && i < |r| && entry == r[i]
    modifies Prior(r, i)`next, Later(r, i)`prev
    ensures |r| > 1 ==> Ring(Without(r, i))
  {
    Neighbours(r, i);
    DelBetween(entry.prev, entry.next, r, i);
  }

  /** A ring after its node at `i` has been linked to that at `j`, past all that stood between. */
  function Bridged<T>(s: seq<T>, i: nat, j: nat): seq<T>
    requires i < |s| && j < |s|
  {
    if i < j then s[..i + 1] + s[j..] else s[j..i + 1]
  }

  ghost function NodeOf(s: seq<ListHead>, i: nat): ListHead
    requires i < |s|
  {
    s[i]
  }

  /**
   Deleting an entry that was taken out before, and whose pointers still lead to
   its old neighbours, at `i` and `j` of a ring: all that stands between them by
   now drops out. That is harmless exactly when they are next to each other still.
   */
  method DelStale(entry: ListHead, ghost s: seq<ListHead>, ghost i: nat, ghost j: nat)
    requires Ring(s) && i < |s| && j < |s| && entry.prev == s[i] && entry.next == s[j]
    modifies NodeOf(s, i)`next, NodeOf(s, j)`prev
    ensures Ring(Bridged(s, i, j))
    ensures Ring(s) <==> j == After(i, |s|)
  {
    Neighbours(s, i);
    entry.next.prev := entry.prev;
    entry.prev.next := entry.next;
    ghost var t := Bridged(s, i, j);
    forall k | 0 <= k < |t| ensures Linked(t[k], t[After(k, |t|)]) {
      ghost var k' := if i < j then (if k <= i then k else k - i - 1 + j) else j + k;
      assert t[k] == s[k'] && old(Linked(s[k'], s[After(k', |s|)]));
    }
    if j == After(i, |s|) {
      forall k | 0 <= k < |s| ensures Linked(s[k], s[After(k, |s|)]) {
        assert old(Linked(s[k], s[After(k, |s|)]));
      }
    } else {
      assert Ring(s) ==> Linked(s[i], s[After(i, |s|)]) by {
        if Ring(s) {
          Neighbours(s, i);
        }
      }
      assert NodeOf(s, j) != s[After(i, |s|)];
    }
  }

  method DelInit(entry: ListHead, ghost r: seq<ListHead>, ghost i: nat)
    requires Ring(r) && i < |r| && entry == r[i]
    modifies entry, Prior(r, i)`next, Later(r, i)`prev
    ensures |r| > 1 ==> Ring(Without(r, i))
    ensures List(entry, [])
  {
    Del(entry, r, i);
    entry.Init();
  }

  /** Puts a node in the place of another, which may be the head of an empty list. */
  method Replace(o: ListHead, n: ListHead, ghost r: seq<ListHead>, ghost i: nat)
    requires Ring(r) && i < |r| && o == r[i] && n !in r
    modifies n, Prior(r, i)`next, Later(r, i)`prev
    ensures Ring(r[i := n])
  {
    Neighbours(r, i);
    n.next := o.next;
    n.next.prev := n;
    n.prev := o.prev;
    n.prev.next := n;
    ghost var s := r[i := n];
    forall k | 0 <= k < |s| ensures Linked(s[k], s[After(k, |s|)]) {
      assert old(Linked(r[k], r[After(k, |r|)]));
    }
  }

  method ReplaceInit(o: ListHead, n: ListHead, ghost r: seq<ListHead>, ghost i: nat)
    requires Ring(r) && i < |r| && o == r[i] && n !in r
    modifies n, o, Prior(r, i)`next, Later(r, i)`prev
    ensures Ring(r[i := n]) && List(o, [])
  {
    Replace(o, n, r, i);
    o.Init();
  }

  /**
   Takes a node out of its ring and puts it in front of a list: of another one, or
   of what is left of the same.
   */
  method Move(entry: ListHead, head: ListHead, ghost r: seq<ListHead>, ghost i: nat, ghost xs: seq<ListHead>)
    requires Ring(r) && i < |r| && entry == r[i]
    requires [head] + xs == Without(r, i) || (List(head, xs) && Apart(r, [head] + xs))
    modifies r, head, xs
    ensures List(head, [entry] + xs)
    ensures [head] + xs != Without(r, i) && |r| > 1 ==> Ring(Without(r, i))
  {
    ghost var q := [head] + xs;
    WithoutHolds(r, i);
    assert Prior(r, i) in r && Later(r, i) in r && entry in r && entry !in q;
    Del(entry, r, i);
    AsList(head, xs);
    Ends(head, xs);
    assert q[0] == head && head.next in q && head.prev in q;
    if q != Without(r, i) {
      assert head !in r && head.next !in r && head.prev !in r;
    }
    Add(entry, head, xs);
  }

  method MoveTail(entry: ListHead, head: ListHead, ghost r: seq<ListHead>, ghost i: nat, ghost xs: seq<ListHead>)
    requires Ring(r) && i < |r| && entry == r[i]
    requires [head] + xs == Without(r, i) || (List(head, xs) && Apart(r, [head] + xs))
    modifies r, head, xs
    ensures List(head, xs + [entry])
    ensures [head] + xs != Without(r, i) && |r| > 1 ==> Ring(Without(r, i))
  {
    ghost var q := [head] + xs;
    WithoutHolds(r, i);
    assert Prior(r, i) in r && Later(r, i) in r && entry in r && entry !in q;
    Del(entry, r, i);
    AsList(head, xs);
    Ends(head, xs);
    assert q[0] == head && head.next in q && head.prev in q;
    if q != Without(r, i) {
      assert head !in r && head.next !in r && head.prev !in r;
    }
    AddTail(entry, head, xs);
  }

  // ---------------------------------------------------------------- questions

  lemma Ends(head: ListHead, xs: seq<ListHead>)
    requires List(head, xs)
    ensures head.next == (if xs == [] then head else xs[0])
    ensures head.prev == (if xs == [] then head else xs[|xs| - 1])
    ensures head !in xs && (|xs| > 1 ==> xs[0] != xs[|xs| - 1])
  {
    var r := [head] + xs;
    Neighbours(r, 0);
    if |xs| > 1 {
      assert r[1] != r[|xs|];
    }
    forall i | 0 <= i < |xs| ensures head != xs[i] {
      assert r[0] != r[i + 1];
    }
  }

  method IsEmpty(head: ListHead, ghost xs: seq<ListHead>) returns (r: bool)
    requires List(head, xs)
    ensures r <==> xs == []
  {
    Ends(head, xs);
    r := head.next == head;
  }

  method IsSingular(head: ListHead, ghost xs: seq<ListHead>) returns (r: bool)
    requires List(head, xs)
    ensures r <==> |xs| == 1
  {
    Ends(head, xs);
    r := head.next != head && head.next == head.prev;
  }

  method RotateLeft(head: ListHead, ghost xs: seq<ListHead>)
    requires List(head, xs)
    modifies head, xs
    ensures List(head, if xs == [] then [] else xs[1..] + [xs[0]])
  {
    var empty := IsEmpty(head, xs);
    if !empty {
      Ends(head, xs);
      ghost var r := [head] + xs;
      assert Without(r, 1) == [head] + xs[1..];
      MoveTail(head.next, head, r, 1, xs[1..]);
    }
  }

  lemma {:induction false} SameUpTo(head: ListHead, xs: seq<ListHead>, ys: seq<ListHead>, k: nat)
    requires List(head, xs) && List(head, ys) && k <= |xs|
    ensures k <= |ys| && xs[..k] == ys[..k]
  {
    if k > 0 {
      SameUpTo(head, xs, ys, k - 1);
      var q, r := [head] + xs, [head] + ys;
      assert q[k - 1] == r[k - 1] by {
        if k > 1 { assert q[k - 1] == xs[..k - 1][k - 2] && r[k - 1] == ys[..k - 1][k - 2]; }
      }
      Neighbours(q, k - 1);
      Neighbours(r, k - 1);
      assert q[0] != q[k];
    }
  }

  /** The pointers say what a list holds, and in what order. */
  lemma Same(head: ListHead, xs: seq<ListHead>, ys: seq<ListHead>)
    requires List(head, xs) && List(head, ys)
    ensures xs == ys
  {
    SameUpTo(head, xs, ys, |xs|);
    SameUpTo(head, ys, xs, |ys|);
  }

  // ---------------------------------------------------------------- cutting and joining

  lemma CutDistinct<T>(list: T, head: T, xs: seq<T>, k: nat)
    requires NoDup([head] + xs) && list != head && list !in xs && k <= |xs|
    ensures NoDup([list] + xs[..k]) && NoDup([head] + xs[k..]) && Apart([list] + xs[..k], [head] + xs[k..])
  {
    var r := [head] + xs;
    forall i, j | 0 <= i < j < |xs| ensures xs[i] != xs[j] && xs[j] != head {
      assert r[i + 1] != r[j + 1] && r[0] != r[j + 1];
    }
    if xs != [] { assert r[0] != r[1]; }
  }

  /** The pointers of a cut: `first` to `entry` go round by `list`, and `head` goes on to `rest`. */
  method CutLinks(list: ListHead, head: ListHead, entry: ListHead, ghost first: ListHead, ghost rest: ListHead)
    requires head.next == first && entry.next == rest
    requires entry != head && first != head && first != rest && list != head && list != entry && list != first
    requires list != rest
    modifies list, head`next, entry`next, first`prev, rest`prev
    ensures Linked(list, first) && Linked(entry, list) && Linked(head, rest)
  {
    var newFirst := entry.next;
    list.next := head.next;
    list.next.prev := list;
    list.prev := entry;
    entry.next := list;
    head.next := newFirst;
    newFirst.prev := head;
  }

  method CutBetween(list: ListHead, head: ListHead, entry: ListHead, ghost xs: seq<ListHead>, ghost k: nat)
    requires List(head, xs) && k < |xs| && entry == xs[k] && list != head && list !in xs
    modifies list, head, xs
    ensures List(list, xs[..k + 1]) && List(head, xs[k + 1..])
  {
    ListLinks(head, xs);
    CutDistinct(list, head, xs, k + 1);
    ghost var rest := if k + 1 < |xs| then xs[k + 1] else head;
    CutLinks(list, head, entry, xs[0], rest);
    forall j | 0 <= j < |xs| - 1 && j != k ensures Linked(xs[j], xs[j + 1]) {
      assert old(Linked(xs[j], xs[j + 1]));
    }
    RingClosed(list, xs[..k + 1]);
    RingClosed(head, xs[k + 1..]);
  }

  /** The links of a list, from its head round to its head. */
  lemma ListLinks(head: ListHead, xs: seq<ListHead>)
    requires List(head, xs)
    ensures NoDup(xs) && head !in xs
    ensures if xs == [] then Linked(head, head) else Linked(head, xs[0]) && Linked(xs[|xs| - 1], head)
    ensures forall j :: 0 <= j < |xs| - 1 ==> Linked(xs[j], xs[j + 1])
  {
    var r := [head] + xs;
    Ends(head, xs);
    Neighbours(r, 0);
    forall j | 0 <= j < |xs| ensures r[j + 1] == xs[j] && Linked(xs[j], r[After(j + 1, |r|)]) {
      Neighbours(r, j + 1);
    }
  }

  lemma RingClosed(head: ListHead, xs: seq<ListHead>)
    requires NoDup([head] + xs)
    requires if xs == [] then Linked(head, head) else Linked(head, xs[0]) && Linked(xs[|xs| - 1], head)
    requires forall j :: 0 <= j < |xs| - 1 ==> Linked(xs[j], xs[j + 1])
    ensures List(head, xs)
  {
    var r := [head] + xs;
    forall j | 0 <= j < |r| ensures Linked(r[j], r[After(j, |r|)]) {
      assert 0 < j < |xs| ==> r[j] == xs[j - 1] && r[j + 1] == xs[j];
    }
    AsList(head, xs);
  }

  /**
   Cuts a list after an entry, or after its head, and hangs the first part on
   `list`; but an empty list is left alone, and so is a list of one that does not
   hold the entry.
   */
  method CutPosition(list: ListHead, head: ListHead, entry: ListHead, ghost xs: seq<ListHead>, ghost k: nat)
    requires List(head, xs) && list != head && list !in xs
    requires if entry in [head] + xs then k <= |xs| && entry == ([head] + xs)[k] else |xs| <= 1
    modifies list, head, xs
    ensures xs != [] && entry in [head] + xs ==> List(list, xs[..k]) && List(head, xs[k..])
    ensures xs == [] || entry !in [head] + xs ==> List(head, xs) && unchanged(list)
  {
    var empty := IsEmpty(head, xs);
    if empty {
      return;
    }
    Ends(head, xs);
    var single := IsSingular(head, xs);
    if single && head.next != entry && head != entry {
      return;
    }
    if entry == head {
      assert ([head] + xs)[0] == head;
      list.Init();
      assert xs[..0] == [] && xs[0..] == xs;
    } else {
      CutBetween(list, head, entry, xs, k - 1);
    }
  }

  lemma SpliceDistinct<T>(r: seq<T>, i: nat, list: T, ls: seq<T>)
    requires NoDup(r) && NoDup([list] + ls) && Apart([list] + ls, r) && i < |r|
    ensures NoDup(r[..i + 1] + ls + r[i + 1..])
  {
    var q, s := [list] + ls, r[..i + 1] + ls + r[i + 1..];
    forall j, k | 0 <= j < k < |s| ensures s[j] != s[k] {
      var fromLs, fromR := (x: int) => i < x <= i + |ls|, (x: int) => if x <= i then x else x - |ls|;
      assert fromLs(j) ==> s[j] == q[j - i] && s[j] !in r;
      assert fromLs(k) ==> s[k] == q[k - i] && s[k] !in r;
      assert !fromLs(j) ==> s[j] == r[fromR(j)];
      assert !fromLs(k) ==> s[k] == r[fromR(k)];
    }
  }

  method SpliceBetween(list: ListHead, prev: ListHead, next: ListHead, ghost ls: seq<ListHead>,
                       ghost r: seq<ListHead>, ghost i: nat)
    requires List(list, ls) && ls != [] && Ring(r) && i < |r| && prev == r[i] && next == r[After(i, |r|)]
    requires Apart([list] + ls, r)
    modifies ls, prev`next, next`prev
    ensures Ring(r[..i + 1] + ls + r[i + 1..])
  {
    Ends(list, ls);
    SpliceDistinct(r, i, list, ls);
    ghost var q := [list] + ls;
    var first, last := list.next, list.prev;
    first.prev := prev;
    prev.next := first;
    last.next := next;
    next.prev := last;
    ghost var s := r[..i + 1] + ls + r[i + 1..];
    assert q[1] !in r && q[|ls|] !in r;
    forall j | 0 <= j < |s| ensures Linked(s[j], s[After(j, |s|)]) {
      if j == i {
        assert s[j] == prev && s[After(j, |s|)] == q[1];
      } else if j == i + |ls| {
        assert s[j] == q[|ls|] && s[After(j, |s|)] == next;
      } else if i < j < i + |ls| {
        assert s[j] == q[j - i] && old(Linked(q[j - i], q[After(j - i, |q|)]));
        assert q[j - i] !in r && q[j - i + 1] !in r;
        assert Linked(s[j], s[After(j, |s|)]);
      } else {
        ghost var j' := if j < i then j else j - |ls|;
        assert s[j] == r[j'] && old(Linked(r[j'], r[After(j', |r|)]));
        assert Linked(s[j], s[After(j, |s|)]);
      }
    }
  }

  /** Puts the entries of a list in front of another's; its own head is left as it is. */
  method Splice(list: ListHead, head: ListHead, ghost ls: seq<ListHead>, ghost xs: seq<ListHead>)
    requires List(list, ls) && List(head, xs) && Apart([list] + ls, [head] + xs)
    modifies ls, head, xs
    ensures List(head, ls + xs) && unchanged(list)
  {
    var empty := IsEmpty(list, ls);
    Ends(list, ls);
    if !empty {
      ghost var r := [head] + xs;
      Ends(head, xs);
      assert list in [list] + ls;
      SpliceBetween(list, head, head.next, ls, r, 0);
      assert r[..1] + ls + r[1..] == [head] + (ls + xs);
      AsList(head, ls + xs);
    } else {
      assert ls + xs == xs;
    }
  }

  method SpliceTail(list: ListHead, head: ListHead, ghost ls: seq<ListHead>, ghost xs: seq<ListHead>)
    requires List(list, ls) && List(head, xs) && Apart([list] + ls, [head] + xs)
    modifies ls, head, xs
    ensures List(head, xs + ls) && unchanged(list)
  {
    var empty := IsEmpty(list, ls);
    Ends(list, ls);
    if !empty {
      ghost var r := [head] + xs;
      Ends(head, xs);
      assert list in [list] + ls;
      SpliceBetween(list, head.prev, head, ls, r, |xs|);
      assert r[..|xs| + 1] + ls + r[|xs| + 1..] == [head] + (xs + ls);
      AsList(head, xs + ls);
    } else {
      assert xs + ls == xs;
    }
  }

  method SpliceInit(list: ListHead, head: ListHead, ghost ls: seq<ListHead>, ghost xs: seq<ListHead>)
    requires List(list, ls) && List(head, xs) && Apart([list] + ls, [head] + xs)
    modifies list, ls, head, xs
    ensures List(head, ls + xs) && List(list, [])
  {
    var empty := IsEmpty(list, ls);
    if !empty {
      Ends(list, ls);
      assert list in [list] + ls;
      Splice(list, head, ls, xs);
      list.Init();
    } else {
      assert ls + xs == xs;
    }
  }

  method SpliceTailInit(list: ListHead, head: ListHead, ghost ls: seq<ListHead>, ghost xs: seq<ListHead>)
    requires List(list, ls) && List(head, xs) && Apart([list] + ls, [head] + xs)
    modifies list, ls, head, xs
    ensures List(head, xs + ls) && List(list, [])
  {
    var empty := IsEmpty(list, ls);
    if !empty {
      Ends(list, ls);
      assert list in [list] + ls;
      SpliceTail(list, head, ls, xs);
      list.Init();
    } else {
      assert xs + ls == xs;
    }
  }

  /**
   Cutting a list and joining its parts again gives back the list, wherever it is
   cut, if and only if it had entries or the other list had none: an empty list is
   not cut, and then takes up what the other list held.
   */
  method CutAndJoin(list: ListHead, head: ListHead, entry: ListHead, ghost ls: seq<ListHead>,
                    ghost xs: seq<ListHead>, ghost k: nat)
    requires List(list, ls) && List(head, xs) && Apart([list] + ls, [head] + xs)
    requires k <= |xs| && entry == ([head] + xs)[k]
    modifies list, ls, head, xs
    ensures List(head, xs) <==> xs != [] || ls == []
    ensures xs == [] ==> List(head, ls)
  {
    assert list in [list] + ls && list !in [head] + xs && entry in [head] + xs;
    CutDistinct(list, head, xs, k);
    CutPosition(list, head, entry, xs, k);
    ghost var first, rest := if xs == [] then ls else xs[..k], xs[k..];
    assert xs[..k] + xs[k..] == xs && ls + [] == ls;
    SpliceInit(list, head, first, rest);
    if List(head, xs) {
      Same(head, xs, first + rest);
    }
  }
}
