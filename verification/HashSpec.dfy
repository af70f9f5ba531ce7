/** What a chained hash table holds: buckets of entries, and the map that they stand for. */
module HashSpec {
  type Key = seq<bv8>
  type Val = nat // the address of a value, 0 for NULL

  datatype Entry = Entry(key: Key, val: Val)

  function Home(hash: Key -> nat, height: nat, k: Key): (h: nat)
    requires height > 0
    ensures h < height
  {
    hash(k) % height
  }

  /** The first place of a key in a chain, or the chain's length. */
  function IndexOf(c: seq<Entry>, k: Key): (i: nat)
    ensures i <= |c| && (i < |c| ==> c[i].key == k) && forall j :: 0 <= j < i ==> c[j].key != k
  {
    if c == [] || c[0].key == k then 0 else 1 + IndexOf(c[1..], k)
  }

  predicate Has(c: seq<Entry>, k: Key) {
    IndexOf(c, k) < |c|
  }

  ghost predicate Distinct(c: seq<Entry>) {
    forall i, j :: 0 <= i < j < |c| ==> c[i].key != c[j].key
  }

  /** Every key is in its own bucket, once. */
  ghost predicate Placed(b: seq<seq<Entry>>, hash: Key -> nat) {
    |b| > 0 && forall h :: 0 <= h < |b| ==>
      Distinct(b[h]) && forall i :: 0 <= i < |b[h]| ==> Home(hash, |b|, b[h][i].key) == h
  }

  function ChainInserted(c: seq<Entry>, k: Key, v: Val): seq<Entry> {
    if Has(c, k) then c[IndexOf(c, k) := Entry(k, v)] else [Entry(k, v)] + c
  }

  function ChainDeleted(c: seq<Entry>, k: Key): seq<Entry> {
    if Has(c, k) then c[..IndexOf(c, k)] + c[IndexOf(c, k) + 1..] else c
  }

  function Inserted(b: seq<seq<Entry>>, hash: Key -> nat, k: Key, v: Val): seq<seq<Entry>>
    requires |b| > 0
  {
    var h := Home(hash, |b|, k);
    b[h := ChainInserted(b[h], k, v)]
  }

  function Deleted(b: seq<seq<Entry>>, hash: Key -> nat, k: Key): seq<seq<Entry>>
    requires |b| > 0
  {
    var h := Home(hash, |b|, k);
    b[h := ChainDeleted(b[h], k)]
  }

  // ---------------------------------------------------------------- all entries in order

  /** Bucket after bucket, each in the order of its chain. */
  function Flat<T>(b: seq<seq<T>>): seq<T> {
    if b == [] then [] else Flat(b[..|b| - 1]) + b[|b| - 1]
  }

  lemma {:induction false} FlatSplit<T>(b: seq<seq<T>>, h: nat)
    requires h < |b|
    ensures Flat(b) == Flat(b[..h]) + b[h] + Flat(b[h + 1..])
  {
    var n := |b| - 1;
    if h < n {
      FlatSplit(b[..n], h);
      assert b[..n][..h] == b[..h] && b[..n][h + 1..] == b[h + 1..][..n - h - 1];
      assert b[h + 1..][n - h - 1] == b[n];
    }
  }

  lemma FlatUpdate<T>(b: seq<seq<T>>, h: nat, c: seq<T>)
    requires h < |b|
    ensures Flat(b[h := c]) == Flat(b[..h]) + c + Flat(b[h + 1..])
  {
    FlatSplit(b[h := c], h);
    assert b[h := c][..h] == b[..h] && b[h := c][h + 1..] == b[h + 1..];
  }

  lemma {:induction false} InFlat<T>(b: seq<seq<T>>, x: T)
    ensures x in Flat(b) <==> exists h :: 0 <= h < |b| && x in b[h]
  {
    if b != [] {
      var n := |b| - 1;
      InFlat(b[..n], x);
      if x in Flat(b[..n]) {
        var h :| 0 <= h < n && x in b[..n][h];
        assert x in b[h];
      }
      if h :| 0 <= h < |b| && x in b[h] {
        if h < n { assert x in b[..n][h]; }
      }
    }
  }

  // ---------------------------------------------------------------- the map

  ghost function Keys(b: seq<seq<Entry>>): set<Key> {
    set e | e in Flat(b) :: e.key
  }

  ghost function TableMap(b: seq<seq<Entry>>, hash: Key -> nat): map<Key, Val>
    requires |b| > 0
  {
    map k | k in Keys(b) :: Lookup(b[Home(hash, |b|, k)], k)
  }

  function Lookup(c: seq<Entry>, k: Key): Val {
    if Has(c, k) then c[IndexOf(c, k)].val else 0
  }

  /** A key that the table holds is found by looking into its own bucket only. */
  lemma HeldAtHome(b: seq<seq<Entry>>, hash: Key -> nat, k: Key)
    requires Placed(b, hash)
    ensures k in Keys(b) <==> Has(b[Home(hash, |b|, k)], k)
    ensures k in Keys(b) <==> exists e :: e in b[hash(k) % |b|] && e.key == k
  {
    var c := b[Home(hash, |b|, k)];
    if k in Keys(b) {
      var e :| e in Flat(b) && e.key == k;
      InFlat(b, e);
      var h :| 0 <= h < |b| && e in b[h];
      var i :| 0 <= i < |b[h]| && b[h][i] == e;
      assert b[h] == c && c[i].key == k;
    }
    if Has(c, k) {
      var e := c[IndexOf(c, k)];
      assert e in c;
      InFlat(b, e);
      assert e in Flat(b);
    }
  }

  lemma InsertPlaced(b: seq<seq<Entry>>, hash: Key -> nat, k: Key, v: Val)
    requires Placed(b, hash)
    ensures Placed(Inserted(b, hash, k, v), hash)
  {
  }

  lemma DeletePlaced(b: seq<seq<Entry>>, hash: Key -> nat, k: Key)
    requires Placed(b, hash)
    ensures Placed(Deleted(b, hash, k), hash)
  {
  }

  lemma InsertKey(b: seq<seq<Entry>>, hash: Key -> nat, k: Key, v: Val, x: Key)
    requires Placed(b, hash)
    ensures x in Keys(Inserted(b, hash, k, v)) <==> x in Keys(b) || x == k
    ensures Lookup(Inserted(b, hash, k, v)[Home(hash, |b|, x)], x) ==
            if x == k then v else Lookup(b[Home(hash, |b|, x)], x)
  {
    InsertPlaced(b, hash, k, v);
    HeldAtHome(b, hash, x);
    HeldAtHome(Inserted(b, hash, k, v), hash, x);
    InsertLookup(b[Home(hash, |b|, k)], k, v, x);
  }

  /** Insertion is the map's update. */
  lemma InsertMap(b: seq<seq<Entry>>, hash: Key -> nat, k: Key, v: Val)
    requires Placed(b, hash)
    ensures TableMap(Inserted(b, hash, k, v), hash) == TableMap(b, hash)[k := v]
  {
    var b' := Inserted(b, hash, k, v);
    forall x: Key ensures x in Keys(b') <==> x in Keys(b) || x == k {
      InsertKey(b, hash, k, v, x);
    }
    forall x: Key | x in Keys(b') ensures TableMap(b', hash)[x] == TableMap(b, hash)[k := v][x] {
      InsertKey(b, hash, k, v, x);
    }
  }

  /** A new key comes to the front of the bucket that its hash gives. */
  lemma InsertFront(b: seq<seq<Entry>>, hash: Key -> nat, k: Key, v: Val)
    requires Placed(b, hash)
    ensures k !in TableMap(b, hash) ==>
              Inserted(b, hash, k, v) == b[hash(k) % |b| := [Entry(k, v)] + b[hash(k) % |b|]]
  {
    HeldAtHome(b, hash, k);
  }

  lemma InsertAll(b: seq<seq<Entry>>, hash: Key -> nat, k: Key, v: Val)
    requires Placed(b, hash)
    ensures Placed(Inserted(b, hash, k, v), hash)
    ensures TableMap(Inserted(b, hash, k, v), hash) == TableMap(b, hash)[k := v]
    ensures Has(b[Home(hash, |b|, k)], k) <==> k in TableMap(b, hash)
    ensures |Flat(Inserted(b, hash, k, v))| == |Flat(b)| + if k in TableMap(b, hash) then 0 else 1
  {
    var h := Home(hash, |b|, k);
    InsertPlaced(b, hash, k, v);
    InsertMap(b, hash, k, v);
    HeldAtHome(b, hash, k);
    FlatUpdate(b, h, ChainInserted(b[h], k, v));
    FlatSplit(b, h);
  }

  /** Inserting a held key changes one value. */
  lemma SetAll(b: seq<seq<Entry>>, hash: Key -> nat, k: Key, v: Val)
    requires Placed(b, hash) && Has(b[Home(hash, |b|, k)], k)
    ensures var h := Home(hash, |b|, k); var i := IndexOf(b[h], k);
            i < |b[h]| && b[h := b[h][i := Entry(b[h][i].key, v)]] == Inserted(b, hash, k, v)
    ensures Placed(Inserted(b, hash, k, v), hash) && |Flat(Inserted(b, hash, k, v))| == |Flat(b)|
  {
    InsertAll(b, hash, k, v);
  }

  lemma InsertLookup(c: seq<Entry>, k: Key, v: Val, x: Key)
    ensures var c' := ChainInserted(c, k, v);
            Has(c', x) == (x == k || Has(c, x)) && Lookup(c', x) == if x == k then v else Lookup(c, x)
  {
    var c' := ChainInserted(c, k, v);
    if Has(c, k) {
      assert forall j :: 0 <= j < |c| ==> c'[j].key == c[j].key;
      SameIndex(c, c', x);
    } else {
      assert c'[1..] == c;
    }
  }

  lemma {:induction false} SameIndex(c: seq<Entry>, d: seq<Entry>, x: Key)
    requires |c| == |d| && forall j :: 0 <= j < |c| ==> d[j].key == c[j].key
    ensures IndexOf(c, x) == IndexOf(d, x)
  {
  }

  lemma DeletedAt(c: seq<Entry>, m: nat, t: nat)
    requires m < |c| && t < |c| - 1
    ensures (c[..m] + c[m + 1..])[t] == c[if t < m then t else t + 1]
  {
  }

  lemma DeleteLookupSelf(c: seq<Entry>, k: Key)
    requires Distinct(c)
    ensures !Has(ChainDeleted(c, k), k)
  {
    var c', m := ChainDeleted(c, k), IndexOf(c, k);
    if m < |c| {
      forall t | 0 <= t < |c'| ensures c'[t].key != k {
        DeletedAt(c, m, t);
      }
    }
  }

  lemma FirstPlace(c: seq<Entry>, k: Key, i: nat)
    requires i < |c| && c[i].key == k && forall j :: 0 <= j < i ==> c[j].key != k
    ensures IndexOf(c, k) == i
  {
  }

  lemma DeleteLookupOther(c: seq<Entry>, k: Key, x: Key)
    requires Distinct(c) && x != k
    ensures var c' := ChainDeleted(c, k); Has(c', x) == Has(c, x) && Lookup(c', x) == Lookup(c, x)
  {
    var c', m, i := ChainDeleted(c, k), IndexOf(c, k), IndexOf(c, x);
    if m < |c| {
      forall t | 0 <= t < |c'| ensures c'[t] == c[if t < m then t else t + 1] {
        DeletedAt(c, m, t);
      }
      if i < |c| {
        var j := if i < m then i else i - 1;
        assert c'[j] == c[i];
        FirstPlace(c', x, j);
      }
    }
  }

  lemma DeleteLookup(c: seq<Entry>, k: Key, x: Key)
    requires Distinct(c)
    ensures var c' := ChainDeleted(c, k);
            Has(c', x) == (x != k && Has(c, x)) && (x != k ==> Lookup(c', x) == Lookup(c, x))
  {
    if x == k {
      DeleteLookupSelf(c, k);
    } else {
      DeleteLookupOther(c, k, x);
    }
  }

  lemma DeleteKey(b: seq<seq<Entry>>, hash: Key -> nat, k: Key, x: Key)
    requires Placed(b, hash)
    ensures x in Keys(Deleted(b, hash, k)) <==> x in Keys(b) && x != k
    ensures x != k ==> Lookup(Deleted(b, hash, k)[Home(hash, |b|, x)], x) == Lookup(b[Home(hash, |b|, x)], x)
  {
    DeletePlaced(b, hash, k);
    HeldAtHome(b, hash, x);
    HeldAtHome(Deleted(b, hash, k), hash, x);
    DeleteLookup(b[Home(hash, |b|, k)], k, x);
  }

  /** Deletion is the map's removal. */
  lemma DeleteMap(b: seq<seq<Entry>>, hash: Key -> nat, k: Key)
    requires Placed(b, hash)
    ensures TableMap(Deleted(b, hash, k), hash) == TableMap(b, hash) - {k}
  {
    var b' := Deleted(b, hash, k);
    forall x: Key ensures x in Keys(b') <==> x in Keys(b) && x != k {
      DeleteKey(b, hash, k, x);
    }
    forall x: Key | x in Keys(b') ensures TableMap(b', hash)[x] == TableMap(b, hash)[x] {
      DeleteKey(b, hash, k, x);
    }
  }

  lemma DeleteAll(b: seq<seq<Entry>>, hash: Key -> nat, k: Key)
    requires Placed(b, hash)
    ensures Placed(Deleted(b, hash, k), hash)
    ensures TableMap(Deleted(b, hash, k), hash) == TableMap(b, hash) - {k}
    ensures Has(b[Home(hash, |b|, k)], k) <==> k in TableMap(b, hash)
    ensures |Flat(Deleted(b, hash, k))| == |Flat(b)| - if k in TableMap(b, hash) then 1 else 0
  {
    var h := Home(hash, |b|, k);
    DeletePlaced(b, hash, k);
    DeleteMap(b, hash, k);
    HeldAtHome(b, hash, k);
    FlatUpdate(b, h, ChainDeleted(b[h], k));
    FlatSplit(b, h);
  }

  lemma Emptied(b: seq<seq<Entry>>, hash: Key -> nat, h: nat)
    requires Placed(b, hash) && h < |b|
    ensures Placed(b[h := []], hash) && |Flat(b[h := []])| == |Flat(b)| - |b[h]|
  {
    FlatUpdate(b, h, []);
    FlatSplit(b, h);
  }

  /** Taking out a key that was new gives back the very same chains. */
  lemma InsertThenDelete(b: seq<seq<Entry>>, hash: Key -> nat, k: Key, v: Val)
    requires |b| > 0 && !Has(b[Home(hash, |b|, k)], k)
    ensures Deleted(Inserted(b, hash, k, v), hash, k) == b
  {
    var h := Home(hash, |b|, k);
    var c' := ChainInserted(b[h], k, v);
    assert IndexOf(c', k) == 0 && c'[1..] == b[h] && ChainDeleted(c', k) == b[h];
    assert b[h := c'][h := b[h]] == b;
  }

  lemma FlatDistinct(b: seq<seq<Entry>>, hash: Key -> nat, m: nat)
    requires Placed(b, hash) && m <= |b|
    ensures Distinct(Flat(b[..m]))
    ensures forall e :: e in Flat(b[..m]) ==> Home(hash, |b|, e.key) < m
  {
    if m > 0 {
      FlatDistinct(b, hash, m - 1);
      assert b[..m][..m - 1] == b[..m - 1];
    }
  }

  lemma {:induction false} CountKeys(es: seq<Entry>)
    requires Distinct(es)
    ensures |set e | e in es :: e.key| == |es|
  {
    if es != [] {
      var n := |es| - 1;
      CountKeys(es[..n]);
      var ks := set e | e in es[..n] :: e.key;
      assert es == es[..n] + [es[n]];
      assert (set e | e in es :: e.key) == ks + {es[n].key};
      assert es[n].key !in ks;
    }
  }

  /** There are as many keys as nodes. */
  lemma MapSize(b: seq<seq<Entry>>, hash: Key -> nat)
    requires Placed(b, hash)
    ensures |TableMap(b, hash)| == |Flat(b)|
  {
    FlatDistinct(b, hash, |b|);
    assert b[..|b|] == b;
    CountKeys(Flat(b));
    assert TableMap(b, hash).Keys == Keys(b);
  }

  lemma HandlerPlaces(b: seq<seq<Entry>>, hash: Key -> nat, other: Key -> nat)
    requires Placed(b, hash)
    ensures Placed(b, other) <==> forall k :: k in Keys(b) ==> Home(other, |b|, k) == Home(hash, |b|, k)
  {
    forall h, i | 0 <= h < |b| && 0 <= i < |b[h]| ensures b[h][i].key in Keys(b) {
      InFlat(b, b[h][i]);
      assert b[h][i] in b[h];
      assert b[h][i] in Flat(b);
    }
    forall k | Placed(b, other) && k in Keys(b) ensures Home(other, |b|, k) == Home(hash, |b|, k) {
      var e :| e in Flat(b) && e.key == k;
      InFlat(b, e);
      var h :| 0 <= h < |b| && e in b[h];
      var i :| 0 <= i < |b[h]| && b[h][i] == e;
      assert Home(hash, |b|, b[h][i].key) == h && Home(other, |b|, b[h][i].key) == h;
    }
  }

  /**
   Another hash function may be set without losing a key if and only if it gives every
   held key the bucket it is in.
   */
  lemma HandlerChange(b: seq<seq<Entry>>, hash: Key -> nat, other: Key -> nat)
    requires Placed(b, hash)
    ensures (forall k :: k in Keys(b) ==> Has(b[Home(other, |b|, k)], k)) <==>
            (forall k :: k in Keys(b) ==> Home(other, |b|, k) == Home(hash, |b|, k))
  {
    forall k | k in Keys(b)
      ensures Has(b[Home(hash, |b|, k)], k)
      ensures Has(b[Home(other, |b|, k)], k) ==> Home(other, |b|, k) == Home(hash, |b|, k)
    {
      HeldAtHome(b, hash, k);
      var c := b[Home(other, |b|, k)];
      if Has(c, k) { assert c[IndexOf(c, k)].key == k; }
    }
  }

  // ---------------------------------------------------------------- the order of iteration

  lemma FlatAt<T>(b: seq<seq<T>>, h: nat, i: nat)
    requires h < |b| && i < |b[h]|
    ensures |Flat(b[..h])| + i < |Flat(b)| && Flat(b)[|Flat(b[..h])| + i] == b[h][i]
  {
    FlatSplit(b, h);
  }

  lemma FlatFrom<T>(b: seq<seq<T>>, h: nat)
    requires h < |b|
    ensures Flat(b[h..]) == b[h] + Flat(b[h + 1..])
  {
    FlatSplit(b[h..], 0);
    assert b[h..][..0] == [] && b[h..][1..] == b[h + 1..];
  }

  /** The how-manieth entry, bucket after bucket, a key has. */
  ghost function Position(b: seq<seq<Entry>>, hash: Key -> nat, k: Key): nat
    requires |b| > 0
  {
    var h := Home(hash, |b|, k);
    |Flat(b[..h])| + IndexOf(b[h], k)
  }

  lemma PositionOf(b: seq<seq<Entry>>, hash: Key -> nat, i: nat)
    requires Placed(b, hash) && i < |Flat(b)|
    ensures Position(b, hash, Flat(b)[i].key) == i && Flat(b)[i].key in Keys(b)
  {
    var f, k := Flat(b), Flat(b)[i].key;
    assert f[i] in f;
    HeldAtHome(b, hash, k);
    var h := Home(hash, |b|, k);
    FlatAt(b, h, IndexOf(b[h], k));
    FlatDistinct(b, hash, |b|);
    assert b[..|b|] == b;
  }
}
