/** Walking a list whose entries are moved away during the walk. */
module ListWalk {
  import opened Lists
  import opened Sequences

  /** The entries of a list that are in a set, or that are not, in order. */
  ghost function Those<T>(xs: seq<T>, chosen: set<T>, inside: bool): seq<T> {
    if xs == [] then []
    else
      var x := xs[|xs| - 1];
      Those(xs[..|xs| - 1], chosen, inside) + (if (x in chosen) == inside then [x] else [])
  }

  lemma {:induction false} ThoseHold<T>(xs: seq<T>, chosen: set<T>, inside: bool, x: T)
    ensures x in Those(xs, chosen, inside) <==> x in xs && (x in chosen) == inside
  {
    if xs != [] {
      assert xs == xs[..|xs| - 1] + [xs[|xs| - 1]];
      ThoseHold(xs[..|xs| - 1], chosen, inside, x);
    }
  }

  /** What the list holds when its first `i` entries have been visited. */
  ghost function Left<T>(xs: seq<T>, chosen: set<T>, i: nat): seq<T>
    requires i <= |xs|
  {
    Those(xs[..i], chosen, false) + xs[i..]
  }

  lemma LeftStep<T>(xs: seq<T>, chosen: set<T>, i: nat)
    requires i < |xs|
    ensures var kept := Those(xs[..i], chosen, false);
            Left(xs, chosen, i) == kept + [xs[i]] + xs[i + 1..] &&
            Left(xs, chosen, i + 1) == if xs[i] in chosen then kept + xs[i + 1..] else Left(xs, chosen, i)
  {
    assert xs[..i + 1][..i] == xs[..i];
  }

  /**
   One turn of the walk: the entry in hand goes to the end of the other list if it
   is chosen, and the entry that comes next is still in its place.
   */
  method Visit(pos: ListHead, head: ListHead, other: ListHead, chosen: set<ListHead>,
               ghost kept: seq<ListHead>, ghost rest: seq<ListHead>, ghost ys: seq<ListHead>)
    requires List(head, kept + [pos] + rest) && List(other, ys) && Apart([head] + (kept + [pos] + rest), [other] + ys)
    modifies {head, other} + (set x | x in kept + [pos] + rest + ys)
    ensures if pos in chosen then List(head, kept + rest) && List(other, ys + [pos])
            else List(head, kept + [pos] + rest) && List(other, ys)
  {
    if pos in chosen {
      ghost var r := [head] + (kept + [pos] + rest);
      assert Without(r, |kept| + 1) == [head] + (kept + rest);
      assert r[|kept| + 1] == pos && head in r && Apart(r, [other] + ys);
      assert other in [other] + ys;
      MoveTail(pos, other, r, |kept| + 1, ys);
      AsList(head, kept + rest);
    }
  }

  ghost function PlaceAt(head: ListHead, xs: seq<ListHead>, i: nat): ListHead {
    if i < |xs| then xs[i] else head
  }

  lemma NextLeft(head: ListHead, xs: seq<ListHead>, chosen: set<ListHead>, i: nat)
    requires i < |xs| && List(head, Left(xs, chosen, i))
    ensures xs[i].next == PlaceAt(head, xs, i + 1)
  {
    var kept, r := Those(xs[..i], chosen, false), [head] + Left(xs, chosen, i);
    assert r[|kept| + 1] == xs[i];
    Neighbours(r, |kept| + 1);
  }

  lemma EntryApart<T>(head: T, xs: seq<T>, i: nat)
    requires NoDup([head] + xs) && i <= |xs|
    ensures head !in xs && forall x :: x in xs[i..] ==> x !in xs[..i]
  {
    var r := [head] + xs;
    forall j | 0 <= j < |xs| ensures xs[j] != head {
      assert r[0] != r[j + 1];
    }
    forall j, k | 0 <= j < i <= k < |xs| ensures xs[j] != xs[k] {
      assert r[j + 1] != r[k + 1];
    }
  }

  lemma Parts<T>(xs: seq<T>, chosen: set<T>, i: nat, x: T)
    requires i <= |xs|
    ensures x in Those(xs[..i], chosen, true) <==> x in xs[..i] && x in chosen
    ensures x in Left(xs, chosen, i) <==> (x in xs[..i] && x !in chosen) || x in xs[i..]
    ensures x in xs <==> x in xs[..i] || x in xs[i..]
  {
    assert xs == xs[..i] + xs[i..];
    ThoseHold(xs[..i], chosen, true, x);
    ThoseHold(xs[..i], chosen, false, x);
  }

  /** What is left and what has been moved away have nothing in common. */
  lemma ApartStill<T>(head: T, xs: seq<T>, other: T, ys: seq<T>, chosen: set<T>, i: nat)
    requires NoDup([head] + xs) && Apart([head] + xs, [other] + ys) && i <= |xs|
    ensures Apart([head] + Left(xs, chosen, i), [other] + (ys + Those(xs[..i], chosen, true)))
    ensures forall x :: x in Those(xs[..i], chosen, true) || x in Left(xs, chosen, i) ==> x in xs
  {
    EntryApart(head, xs, i);
    forall x ensures x in Those(xs[..i], chosen, true) || x in Left(xs, chosen, i) ==> x in xs {
      Parts(xs, chosen, i, x);
    }
    forall x | x in [head] + Left(xs, chosen, i) ensures x !in [other] + (ys + Those(xs[..i], chosen, true)) {
      Parts(xs, chosen, i, x);
      assert x in [head] + xs;
    }
  }

  /** Both lists when the first `i` entries have been visited. */
  ghost predicate Walked(head: ListHead, other: ListHead, chosen: set<ListHead>, xs: seq<ListHead>,
                         ys: seq<ListHead>, i: nat)
    requires i <= |xs|
    reads head, other, Left(xs, chosen, i), ys + Those(xs[..i], chosen, true)
  {
    List(head, Left(xs, chosen, i)) && List(other, ys + Those(xs[..i], chosen, true))
  }

  method WalkTurn(pos: ListHead, head: ListHead, other: ListHead, chosen: set<ListHead>,
              ghost xs: seq<ListHead>, ghost ys: seq<ListHead>, ghost i: nat)
    requires NoDup([head] + xs) && Apart([head] + xs, [other] + ys)
    requires i < |xs| && pos == xs[i] && Walked(head, other, chosen, xs, ys, i)
    modifies {head, other} + (set x | x in xs + ys)
    ensures Walked(head, other, chosen, xs, ys, i + 1)
  {
    ghost var kept, moved := Those(xs[..i], chosen, false), Those(xs[..i], chosen, true);
    LeftStep(xs, chosen, i);
    ApartStill(head, xs, other, ys, chosen, i);
    ghost var rest, all := xs[i + 1..], ys + moved;
    forall x | x in kept ensures x in xs {
      Parts(xs, chosen, i, x);
    }
    forall x | x in all ensures x in ys || x in xs {
      Parts(xs, chosen, i, x);
    }
    assert pos in xs;
    Visit(pos, head, other, chosen, kept, rest, all);
    assert xs[..i + 1][..i] == xs[..i];
    assert ys + moved + [pos] == ys + (moved + [pos]) && moved + [] == moved;
  }

  /**
   The walk that is safe against removal: it visits each entry that was there at
   the start exactly once, in order, although entries are moved away under it.
   */
  method ForEachSafe(head: ListHead, other: ListHead, chosen: set<ListHead>, ghost xs: seq<ListHead>,
                     ghost ys: seq<ListHead>)
    returns (ghost visited: seq<ListHead>)
    requires List(head, xs) && List(other, ys) && Apart([head] + xs, [other] + ys)
    modifies head, xs, other, ys
    ensures visited == xs
    ensures List(head, Those(xs, chosen, false)) && List(other, ys + Those(xs, chosen, true))
  {
    ghost var i := 0;
    visited := [];
    Ends(head, xs);
    var pos := head.next;
    var n := pos.next;
    assert Left(xs, chosen, 0) == xs && ys + Those(xs[..0], chosen, true) == ys;
    EntryApart(head, xs, 0);
    ApartStill(head, xs, other, ys, chosen, 0);
    if xs != [] { NextLeft(head, xs, chosen, 0); }
    while pos != head
      invariant 0 <= i <= |xs| && visited == xs[..i] && head !in xs
      invariant Walked(head, other, chosen, xs, ys, i)
      invariant pos == PlaceAt(head, xs, i) && (i < |xs| ==> n == PlaceAt(head, xs, i + 1))
      decreases |xs| - i
    {
      visited := visited + [pos];
      WalkTurn(pos, head, other, chosen, xs, ys, i);
      assert xs[..i] + [xs[i]] == xs[..i + 1];
      i := i + 1;
      pos := n;
      n := pos.next;
      if i < |xs| { NextLeft(head, xs, chosen, i); }
    }
    assert xs[..i] == xs && Left(xs, chosen, i) == Those(xs, chosen, false);
  }

  // ---------------------------------------------------------------- a body that puts entries back

  /** The list when its first `i` entries have been visited and the chosen of them put back at its end. */
  ghost function Requeued<T>(xs: seq<T>, chosen: set<T>, i: nat): seq<T>
    requires i <= |xs|
  {
    Left(xs, chosen, i) + Those(xs[..i], chosen, true)
  }

  /** The entries that are met a second time: all that were put back, unless only the last was. */
  ghost function MetAgain<T>(xs: seq<T>, chosen: set<T>): seq<T> {
    if xs == [] || Those(xs[..|xs| - 1], chosen, true) == [] then [] else Those(xs, chosen, true)
  }

  lemma RequeueStep<T>(xs: seq<T>, chosen: set<T>, i: nat)
    requires i < |xs|
    ensures var kept, rest := Those(xs[..i], chosen, false), xs[i + 1..] + Those(xs[..i], chosen, true);
            Requeued(xs, chosen, i) == kept + [xs[i]] + rest &&
            Requeued(xs, chosen, i + 1) == if xs[i] in chosen then kept + rest + [xs[i]] else Requeued(xs, chosen, i)
  {
    assert xs[..i + 1][..i] == xs[..i];
    LeftStep(xs, chosen, i);
  }

  /** What follows an entry that is visited for the first time, and before it is put back. */
  lemma NextFirst<T>(xs: seq<T>, chosen: set<T>, i: nat)
    requires i < |xs|
    ensures var rest, order := xs[i + 1..] + Those(xs[..i], chosen, true), xs + MetAgain(xs, chosen);
            (rest == [] <==> |order| == i + 1) && (rest != [] ==> rest[0] == order[i + 1])
  {
    if i + 1 == |xs| {
      assert xs[i + 1..] == [] && xs[..i] == xs[..|xs| - 1];
    }
  }

  lemma After1(head: ListHead, kept: seq<ListHead>, x: ListHead, rest: seq<ListHead>)
    requires List(head, kept + [x] + rest)
    ensures x.next == if rest == [] then head else rest[0]
  {
    var r := [head] + (kept + [x] + rest);
    Neighbours(r, |kept| + 1);
    assert r[|kept| + 1] == x;
  }

  /** The body: an entry that is to be put back goes to the end of the list being walked. */
  method PutBackVisited(pos: ListHead, head: ListHead, ghost kept: seq<ListHead>, ghost rest: seq<ListHead>)
    requires List(head, kept + [pos] + rest)
    modifies {head} + (set x | x in kept + [pos] + rest)
    ensures List(head, kept + rest + [pos])
  {
    ghost var r := [head] + (kept + [pos] + rest);
    assert Without(r, |kept| + 1) == [head] + (kept + rest) && r[|kept| + 1] == pos;
    MoveTail(pos, head, r, |kept| + 1, kept + rest);
  }

  /** All visits in order. */
  ghost function Visits<T>(xs: seq<T>, chosen: set<T>): seq<T> {
    xs + MetAgain(xs, chosen)
  }

  function Upto(c: nat, n: nat): (i: nat)
    ensures i <= c && i <= n
  {
    if c < n then c else n
  }

  lemma NextVisit(head: ListHead, xs: seq<ListHead>, chosen: set<ListHead>, c: nat)
    requires c < |Visits(xs, chosen)| && List(head, Requeued(xs, chosen, Upto(c, |xs|)))
    ensures Visits(xs, chosen)[c].next == PlaceAt(head, Visits(xs, chosen), c + 1)
  {
    if c < |xs| {
      RequeueStep(xs, chosen, c);
      NextFirst(xs, chosen, c);
      After1(head, Those(xs[..c], chosen, false), xs[c], xs[c + 1..] + Those(xs[..c], chosen, true));
    } else {
      var j, kept, moved := c - |xs|, Those(xs, chosen, false), Those(xs, chosen, true);
      assert xs[..|xs|] == xs && Requeued(xs, chosen, |xs|) == kept + moved;
      assert kept + moved == (kept + moved[..j]) + [moved[j]] + moved[j + 1..];
      After1(head, kept + moved[..j], moved[j], moved[j + 1..]);
    }
  }

  /** One turn: an entry that is met for the first time and is chosen goes to the end, any other stays. */
  method RequeueTurn(pos: ListHead, head: ListHead, again: set<ListHead>, ghost xs: seq<ListHead>,
                     ghost chosen: set<ListHead>, ghost c: nat)
    requires c < |Visits(xs, chosen)| && pos == Visits(xs, chosen)[c] && List(head, Requeued(xs, chosen, Upto(c, |xs|)))
    requires pos in again <==> c < |xs| && pos in chosen
    modifies {head} + (set x | x in xs)
    ensures List(head, Requeued(xs, chosen, Upto(c + 1, |xs|)))
  {
    if c < |xs| {
      RequeueStep(xs, chosen, c);
    }
    if pos in again {
      ghost var kept, rest := Those(xs[..c], chosen, false), xs[c + 1..] + Those(xs[..c], chosen, true);
      forall x | x in kept + [pos] + rest ensures x in xs {
        VisitsHeld(xs, chosen, c, x);
      }
      PutBackVisited(pos, head, kept, rest);
    }
  }

  lemma VisitsHeld<T>(xs: seq<T>, chosen: set<T>, i: nat, x: T)
    requires i <= |xs|
    ensures x in Visits(xs, chosen) ==> x in xs
    ensures x in Requeued(xs, chosen, i) ==> x in xs
    ensures x in MetAgain(xs, chosen) ==> x in chosen
  {
    ThoseHold(xs, chosen, true, x);
    Parts(xs, chosen, i, x);
  }

  lemma RequeueEnds<T>(xs: seq<T>, chosen: set<T>)
    ensures Requeued(xs, chosen, 0) == xs
    ensures Requeued(xs, chosen, |xs|) == Those(xs, chosen, false) + Those(xs, chosen, true)
  {
    assert xs[..|xs|] == xs && xs[|xs|..] == [];
  }

  /** Before visit `c` those of the chosen are still to be put back that have not been met. */
  ghost predicate StillTo<T>(xs: seq<T>, chosen: set<T>, again: set<T>, c: nat) {
    forall j :: 0 <= j < |xs| ==> (xs[j] in again <==> j >= c && xs[j] in chosen)
  }

  lemma StillToStep<T>(xs: seq<T>, chosen: set<T>, again: set<T>, c: nat)
    requires NoDup(xs) && c < |Visits(xs, chosen)| && StillTo(xs, chosen, again, c)
    ensures var x := Visits(xs, chosen)[c];
            x in xs && (x in again <==> c < |xs| && x in chosen) && StillTo(xs, chosen, again - {x}, c + 1)
  {
    var x := Visits(xs, chosen)[c];
    VisitsHeld(xs, chosen, 0, x);
    assert x in Visits(xs, chosen);
  }

  /** The body of the walk, and what it leaves for the next turn. */
  method RequeueOne(pos: ListHead, head: ListHead, again: set<ListHead>, ghost xs: seq<ListHead>,
                    ghost chosen: set<ListHead>, ghost c: nat)
    returns (again': set<ListHead>)
    requires NoDup(xs) && c < |Visits(xs, chosen)| && pos == Visits(xs, chosen)[c]
    requires List(head, Requeued(xs, chosen, Upto(c, |xs|))) && StillTo(xs, chosen, again, c)
    modifies {head} + (set x | x in xs)
    ensures List(head, Requeued(xs, chosen, Upto(c + 1, |xs|))) && StillTo(xs, chosen, again', c + 1)
    ensures c + 1 < |Visits(xs, chosen)| ==> Visits(xs, chosen)[c + 1].next == PlaceAt(head, Visits(xs, chosen), c + 2)
  {
    StillToStep(xs, chosen, again, c);
    RequeueTurn(pos, head, again, xs, chosen, c);
    again' := again - {pos};
    if c + 1 < |Visits(xs, chosen)| {
      NextVisit(head, xs, chosen, c + 1);
    }
  }

  /**
   The safe walk whose body puts chosen entries, the first time it meets them, at
   the end of the very list being walked: it terminates, visits the initial entries
   once each and in order, then possibly those that were put back, and leaves the
   others in order followed by those put back.
   */
  method ForEachRequeue(head: ListHead, chosen: set<ListHead>, ghost xs: seq<ListHead>)
    returns (ghost visited: seq<ListHead>)
    requires List(head, xs)
    modifies {head} + (set x | x in xs)
    ensures visited == xs + MetAgain(xs, chosen)
    ensures List(head, Those(xs, chosen, false) + Those(xs, chosen, true))
  {
    ghost var order, c := Visits(xs, chosen), 0;
    RequeueStart(head, xs, chosen);
    var again := chosen;
    visited := [];
    var pos := head.next;
    var n := pos.next;
    while pos != head
      invariant 0 <= c <= |order| && visited == order[..c]
      invariant pos == PlaceAt(head, order, c) && (c < |order| ==> n == PlaceAt(head, order, c + 1))
      invariant List(head, Requeued(xs, chosen, Upto(c, |xs|)))
      invariant StillTo(xs, chosen, again, c)
      decreases |order| - c
    {
      TakeOne(order, c);
      visited := visited + [pos];
      again := RequeueOne(pos, head, again, xs, chosen, c);
      c := c + 1;
      pos := n;
      n := pos.next;
    }
    RequeueEnd(head, xs, chosen, c);
  }

  lemma RequeueStart(head: ListHead, xs: seq<ListHead>, chosen: set<ListHead>)
    requires List(head, xs)
    ensures NoDup(xs) && head !in xs && List(head, Requeued(xs, chosen, 0)) && StillTo(xs, chosen, chosen, 0)
    ensures head.next == PlaceAt(head, Visits(xs, chosen), 0)
    ensures |Visits(xs, chosen)| > 0 ==> Visits(xs, chosen)[0].next == PlaceAt(head, Visits(xs, chosen), 1)
  {
    ListLinks(head, xs);
    Ends(head, xs);
    RequeueEnds(xs, chosen);
    if xs != [] { NextVisit(head, xs, chosen, 0); }
  }

  /** The cursor is back at the head only when all visits are done. */
  lemma RequeueEnd(head: ListHead, xs: seq<ListHead>, chosen: set<ListHead>, c: nat)
    requires c <= |Visits(xs, chosen)| && head !in xs && PlaceAt(head, Visits(xs, chosen), c) == head
    ensures c == |Visits(xs, chosen)| && Visits(xs, chosen)[..c] == xs + MetAgain(xs, chosen) && Upto(c, |xs|) == |xs|
    ensures Requeued(xs, chosen, |xs|) == Those(xs, chosen, false) + Those(xs, chosen, true)
  {
    RequeueEnds(xs, chosen);
    forall j | 0 <= j < |Visits(xs, chosen)| ensures Visits(xs, chosen)[j] != head {
      VisitsHeld(xs, chosen, 0, Visits(xs, chosen)[j]);
    }
  }
}
