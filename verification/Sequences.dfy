/** Sequences: what they have in common with lists and tables. */
module Sequences {
  ghost predicate NoDup<T>(xs: seq<T>) {
    forall i, j :: 0 <= i < j < |xs| ==> xs[i] != xs[j]
  }

  /** A sequence without the element at an index. */
  function Without<T>(xs: seq<T>, i: nat): seq<T>
    requires i < |xs|
  {
    xs[..i] + xs[i + 1..]
  }

  /** A sequence with an element put in behind an index. */
  function PutBehind<T>(xs: seq<T>, k: nat, x: T): seq<T>
    requires k < |xs|
  {
    xs[..k + 1] + [x] + xs[k + 1..]
  }

  lemma PutBehindAt<T>(xs: seq<T>, k: nat, x: T)
    requires k < |xs|
    ensures var ys := PutBehind(xs, k, x);
            |ys| == |xs| + 1 && ys[k + 1] == x && (forall r :: 0 <= r <= k ==> ys[r] == xs[r]) &&
            (forall r :: k + 1 < r < |ys| ==> ys[r] == xs[r - 1])
  {
  }

  lemma WithoutAt<T>(xs: seq<T>, i: nat)
    requires i < |xs|
    ensures |Without(xs, i)| == |xs| - 1
    ensures forall k :: 0 <= k < |xs| - 1 ==> Without(xs, i)[k] == xs[if k < i then k else k + 1]
  {
  }

  lemma WithoutHolds<T>(xs: seq<T>, i: nat)
    requires NoDup(xs) && i < |xs|
    ensures NoDup(Without(xs, i)) && xs[i] !in Without(xs, i) && forall x :: x in Without(xs, i) ==> x in xs
  {
    var ys := Without(xs, i);
    forall k | 0 <= k < |ys| ensures ys[k] == xs[if k < i then k else k + 1] && ys[k] != xs[i] {
    }
  }

  lemma PutBehindNoDup<T>(xs: seq<T>, k: nat, x: T)
    requires NoDup(xs) && k < |xs| && x !in xs
    ensures NoDup(PutBehind(xs, k, x))
  {
  }

  lemma TakeOne<T>(f: seq<T>, i: nat)
    requires i < |f|
    ensures f[..i] + [f[i]] == f[..i + 1]
  {
  }

  lemma TakeTwice<T>(p: seq<T>, s: seq<T>, i: nat, j: nat)
    requires i + j <= |s|
    ensures p + s[..i] + s[i..][..j] == p + s[..i + j] && s[i..][j..] == s[i + j..]
  {
  }

  lemma Regroup<T>(a: seq<T>, b: seq<T>, c: seq<T>)
    ensures a + b + c == a + (b + c)
  {
  }
}
