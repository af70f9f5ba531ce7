/**
 The links of a skip list over the heights of its nodes. Node 0 is the header; on
 level `i` a node is linked to the next one that is higher than `i`.
 */
module SkipLinks {
  import opened Sequences

  const MAXLEVEL: nat := 32

  type Heights = seq<nat>

  /** The node after `p` on level `i`; `|hs|` when there is none. */
  function Next(hs: Heights, p: nat, i: nat): (q: nat)
    requires p < |hs|
    ensures p < q <= |hs|
    ensures q < |hs| ==> hs[q] > i
    ensures forall r :: p < r < q ==> hs[r] <= i
    decreases |hs| - p
  {
    if p + 1 == |hs| || hs[p + 1] > i then p + 1 else Next(hs, p + 1, i)
  }

  lemma {:induction false} NextIs(hs: Heights, p: nat, i: nat, q: nat)
    requires p < q <= |hs| && (q < |hs| ==> hs[q] > i) && forall r :: p < r < q ==> hs[r] <= i
    ensures Next(hs, p, i) == q
    decreases q - p
  {
  }

  /** The distance to the next node, or to the last node when there is none. */
  function Span(hs: Heights, p: nat, i: nat): nat
    requires p < |hs|
  {
    var q := Next(hs, p, i);
    if q < |hs| then q - p else |hs| - 1 - p
  }

  /** The last node not behind `k` that is higher than `i`. */
  ghost predicate LastUpTo(hs: Heights, k: nat, i: nat, p: nat) {
    p <= k < |hs| && hs[p] > i && forall r :: p < r <= k ==> hs[r] <= i
  }

  lemma LastUpToNext(hs: Heights, k: nat, i: nat, p: nat)
    requires p <= k < |hs| && hs[p] > i
    ensures LastUpTo(hs, k, i, p) <==> Next(hs, p, i) > k
  {
  }

  /** Links behind the gap move along. */
  lemma NextBehind(hs: Heights, k: nat, h: nat, p: nat, i: nat)
    requires k < p < |hs|
    ensures Next(PutBehind(hs, k, h), p + 1, i) == Next(hs, p, i) + 1
  {
    PutBehindAt(hs, k, h);
    NextIs(PutBehind(hs, k, h), p + 1, i, Next(hs, p, i) + 1);
  }

  /** The same when a node is taken out. */
  lemma NextWithout(hs: Heights, k: nat, p: nat, i: nat)
    requires k < p < |hs|
    ensures Next(Without(hs, k), p - 1, i) == Next(hs, p, i) - 1
  {
    WithoutAt(hs, k);
    NextIs(Without(hs, k), p - 1, i, Next(hs, p, i) - 1);
  }

  /** Links before the gap stay. */
  lemma NextBefore(hs: Heights, k: nat, h: nat, p: nat, i: nat)
    requires k < |hs| && p < |hs| && Next(hs, p, i) <= k
    ensures Next(PutBehind(hs, k, h), p, i) == Next(hs, p, i)
  {
    PutBehindAt(hs, k, h);
    NextIs(PutBehind(hs, k, h), p, i, Next(hs, p, i));
  }

  /** A link across the gap is cut by a node high enough, and otherwise one longer. */
  lemma NextAcross(hs: Heights, k: nat, h: nat, p: nat, i: nat)
    requires p <= k < |hs| && Next(hs, p, i) > k
    ensures Next(PutBehind(hs, k, h), k + 1, i) == Next(hs, p, i) + 1
    ensures Next(PutBehind(hs, k, h), p, i) == if h > i then k + 1 else Next(hs, p, i) + 1
  {
    PutBehindAt(hs, k, h);
    var q := Next(hs, p, i);
    NextIs(PutBehind(hs, k, h), k + 1, i, q + 1);
    NextIs(PutBehind(hs, k, h), p, i, if h > i then k + 1 else q + 1);
  }

  /** Only the last node before the gap on a level is linked across it. */
  lemma AcrossIsLast(hs: Heights, k: nat, i: nat, p: nat, u: nat)
    requires LastUpTo(hs, k, i, u) && p <= k && hs[p] > i
    ensures Next(hs, p, i) > k <==> p == u
  {
  }
}
