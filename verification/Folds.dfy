/** Repeating a function, and folding one over a sequence. */
module Folds {
  function Iter<T>(f: T -> T, x: T, n: nat): T
    decreases n
  {
    if n == 0 then x else Iter(f, f(x), n - 1)
  }

  function Fold<T, E>(f: (T, E) -> T, x: T, s: seq<E>): T {
    if s == [] then x else Fold(f, f(x, s[0]), s[1..])
  }

  function Zip<A, B, C>(f: (A, B) -> C, a: seq<A>, b: seq<B>): (r: seq<C>)
    requires |a| == |b|
    ensures |r| == |a|
  {
    if a == [] then [] else [f(a[0], b[0])] + Zip(f, a[1..], b[1..])
  }

  lemma {:induction false} IterHom<T(!new)>(f: T -> T, op: (T, T) -> T, x: T, y: T, n: nat)
    requires forall a, b :: f(op(a, b)) == op(f(a), f(b))
    ensures Iter(f, op(x, y), n) == op(Iter(f, x, n), Iter(f, y, n))
    decreases n
  {
    if n > 0 { IterHom(f, op, f(x), f(y), n - 1); }
  }

  lemma {:induction false} IterInjective<T(!new)>(f: T -> T, x: T, y: T, n: nat)
    requires forall a, b :: f(a) == f(b) ==> a == b
    ensures Iter(f, x, n) == Iter(f, y, n) ==> x == y
    decreases n
  {
    if n > 0 { IterInjective(f, f(x), f(y), n - 1); }
  }

  lemma {:induction false} FoldConcat<T, E>(f: (T, E) -> T, x: T, a: seq<E>, b: seq<E>)
    ensures Fold(f, x, a + b) == Fold(f, Fold(f, x, a), b)
  {
    if a == [] {
      assert a + b == b;
    } else {
      assert (a + b)[1..] == a[1..] + b;
      FoldConcat(f, f(x, a[0]), a[1..], b);
    }
  }

  lemma {:induction false} FoldHom<T(!new), E(!new)>(f: (T, E) -> T, op: (T, T) -> T, mix: (E, E) -> E, x: T, y: T,
                                     a: seq<E>, b: seq<E>)
    requires |a| == |b| && forall u, v, d, e :: f(op(u, v), mix(d, e)) == op(f(u, d), f(v, e))
    ensures Fold(f, op(x, y), Zip(mix, a, b)) == op(Fold(f, x, a), Fold(f, y, b))
  {
    if a != [] {
      FoldHom(f, op, mix, f(x, a[0]), f(y, b[0]), a[1..], b[1..]);
      assert Zip(mix, a, b)[1..] == Zip(mix, a[1..], b[1..]);
    }
  }

  lemma {:induction false} FoldInjective<T(!new), E(!new)>(f: (T, E) -> T, x: T, y: T, s: seq<E>)
    requires forall u, v, e :: f(u, e) == f(v, e) ==> u == v
    ensures Fold(f, x, s) == Fold(f, y, s) ==> x == y
  {
    if s != [] { FoldInjective(f, f(x, s[0]), f(y, s[0]), s[1..]); }
  }
}
