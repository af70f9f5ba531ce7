/** The chained hash table: buckets of chains, changed in place. */
module HashTable {
  import opened Options
  import opened Pointers
  import opened HashSpec
  import opened HashChains
  import opened Crc
  import opened Sequences

  /** The register that the default hash starts from. */
  const SEED: bv64 := 0x3C66C56408F84898

  /** How keys are hashed when nothing else is set. */
  function DefaultHash(k: Key): nat {
    Crc64(SEED, k) as nat
  }

  class Table {
    const nodes: array<Ptr>
    var mem: Memory
    var nodeTtl: nat
    var hash: Key -> nat

    ghost var view: seq<seq<Entry>>
    ghost var chains: seq<seq<Ptr>>

    ghost predicate Valid()
      reads this, nodes
    {
      Woven(mem, nodes[..], chains, view) && Placed(view, hash) && nodeTtl == |Flat(view)| == |mem|
    }

    constructor (height: nat, hash: Key -> nat)
      requires height > 0
      ensures Valid() && fresh(nodes) && nodes.Length == height && this.hash == hash && TableMap(view, hash) == map[]
    {
      nodes := new Ptr[height](_ => NULL);
      mem, nodeTtl, this.hash := map[], 0, hash;
      view, chains := seq(height, _ => []), seq(height, _ => []);
      new;
      FlatEmpty(view);
    }

    /** An empty table of the given height; none of no height. */
    static method Create(height: nat) returns (t: Option<Table>)
      ensures t.None? <==> height == 0
      ensures t.Some? ==> fresh(t.value) && fresh(t.value.nodes) && t.value.Valid() && t.value.hash == DefaultHash
      ensures t.Some? ==> forall k :: t.value.hash(k) == Crc64(0x3C66C56408F84898, k) as nat
      ensures t.Some? ==> t.value.nodes.Length == height && TableMap(t.value.view, DefaultHash) == map[]
    {
      if height == 0 {
        return None;
      }
      var table := new Table(height, DefaultHash);
      return Some(table);
    }

    /** Walks down a chain to the node of a key. */
    method Walk(h: nat, k: Key) returns (r: Ptr)
      requires h < nodes.Length && h < |chains| && h < |view| && Chain(mem, nodes[h], chains[h], view[h])
      ensures r == At(chains[h], IndexOf(view[h], k)) && (r != NULL <==> Has(view[h], k))
      ensures r != NULL ==> r in mem && mem[r].key == k && mem[r].val == Lookup(view[h], k)
    {
      r := nodes[h];
      ghost var i := 0;
      while r != NULL
        invariant i <= |chains[h]| && r == At(chains[h], i) && i <= IndexOf(view[h], k)
        decreases |chains[h]| - i
      {
        if mem[r].key == k {
          return;
        }
        r := mem[r].next;
        i := i + 1;
      }
    }

    /** The node of a key, and NULL if there is none. */
    method Find(k: Key) returns (r: Ptr)
      requires Valid()
      ensures r != NULL <==> k in TableMap(view, hash)
      ensures r != NULL <==> Has(view[Home(hash, |view|, k)], k)
      ensures r != NULL ==> r in mem && mem[r].key == k && mem[r].val == TableMap(view, hash)[k]
      ensures r == At(chains[Home(hash, |view|, k)], IndexOf(view[Home(hash, |view|, k)], k))
    {
      var h := hash(k) % nodes.Length;
      HeldAtHome(view, hash, k);
      assert Chain(mem, nodes[..][h], chains[h], view[h]);
      r := Walk(h, k);
    }

    method SetVal(node: Ptr, v: Val, ghost h: nat, ghost i: nat)
      requires Woven(mem, nodes[..], chains, view) && Placed(view, hash)
      requires h < |view| && i < |view[h]| && node == At(chains[h], i)
      modifies `mem, `view
      ensures Woven(mem, nodes[..], chains, view) && |mem| == |old(mem)|
      ensures view == old(view)[h := old(view)[h][i := Entry(old(view)[h][i].key, v)]]
    {
      SetWoven(mem, nodes[..], chains, view, hash, h, i, v);
      view := view[h := view[h][i := Entry(view[h][i].key, v)]];
      mem := mem[node := mem[node].(val := v)];
    }

    /** Hangs a new node in front of a chain. */
    method Push(h: nat, room: Ptr, k: Key, v: Val)
      requires Woven(mem, nodes[..], chains, view) && h < |view| && room !in mem && room != NULL
      modifies nodes, `mem, `nodeTtl, `view, `chains
      ensures Woven(mem, nodes[..], chains, view) && |mem| == |old(mem)| + 1 && nodeTtl == old(nodeTtl) + 1
      ensures view == old(view)[h := [Entry(k, v)] + old(view)[h]]
    {
      PushWoven(mem, nodes[..], chains, view, h, room, k, v);
      ghost var heads := nodes[..];
      mem := mem[room := Node(k, v, nodes[h])];
      nodes[h] := room;
      nodeTtl := nodeTtl + 1;
      assert nodes[..] == heads[h := room];
      view, chains := view[h := [Entry(k, v)] + view[h]], chains[h := [room] + chains[h]];
    }

    /** Overwrites the value in the node of a held key. */
    method SetHeld(node: Ptr, k: Key, v: Val)
      requires Valid() && Has(view[Home(hash, |view|, k)], k)
      requires node == At(chains[Home(hash, |view|, k)], IndexOf(view[Home(hash, |view|, k)], k))
      modifies `mem, `view
      ensures Valid() && view == Inserted(old(view), hash, k, v)
    {
      ghost var h := Home(hash, |view|, k);
      SetAll(view, hash, k, v);
      SetVal(node, v, h, IndexOf(view[h], k));
    }

    /** Puts a key that is not held into a new node. */
    method PutNew(room: Ptr, k: Key, v: Val)
      requires Valid() && !Has(view[Home(hash, |view|, k)], k) && room !in mem && room != NULL
      modifies nodes, `mem, `nodeTtl, `view, `chains
      ensures Valid() && view == Inserted(old(view), hash, k, v)
    {
      InsertAll(view, hash, k, v);
      Push(hash(k) % nodes.Length, room, k, v);
    }

    /** Inserts a key, or gives it a new value; `room` is the memory for a node, NULL if there is none. */
    method Insert(k: Key, v: Val, room: Ptr) returns (ok: bool)
      requires Valid() && room !in mem
      modifies this, nodes
      ensures Valid() && hash == old(hash)
      ensures ok <==> room != NULL || k in TableMap(old(view), hash)
      ensures view == if ok then Inserted(old(view), hash, k, v) else old(view)
      ensures ok ==> TableMap(view, hash) == TableMap(old(view), hash)[k := v]
      ensures ok && k !in TableMap(old(view), hash) ==>
                var h := hash(k) % |view|;
                |view| == |old(view)| && view[h] == [Entry(k, v)] + old(view)[h]
    {
      InsertFront(view, hash, k, v);
      InsertMap(view, hash, k, v);
      var node := Find(k);
      if node != NULL {
        SetHeld(node, k, v);
      } else if room == NULL {
        return false;
      } else {
        PutNew(room, k, v);
      }
      ok := true;
    }

    method Store(h: nat, at: Place, p: Ptr)
      requires h < nodes.Length && (at.InNode? ==> at.p in mem)
      modifies nodes, `mem
      ensures mem == Stored(old(mem), at, p) && mem.Keys == old(mem.Keys)
      ensures nodes[..] == if at.Slot? then old(nodes[..])[h := p] else old(nodes[..])
    {
      match at
      case Slot => nodes[h] := p;
      case InNode(q) => mem := mem[q := mem[q].(next := p)];
    }

    /** Stores what follows a node where the node's own address was kept, and frees the node. */
    method CutOut(h: nat, pre: Place, node: Ptr)
      requires h < nodes.Length && node in mem && (pre.InNode? ==> pre.p in mem && pre.p != node) && nodeTtl > 0
      modifies nodes, `mem, `nodeTtl
      ensures mem == Stored(old(mem), pre, old(mem)[node].next) - {node}
      ensures |mem| == |old(mem)| - 1 && nodeTtl == old(nodeTtl) - 1
      ensures nodes[..] == if pre.Slot? then old(nodes[..])[h := old(mem)[node].next] else old(nodes[..])
    {
      var next := mem[node].next;
      Store(h, pre, next);
      mem := mem - {node};
      nodeTtl := nodeTtl - 1;
    }

    method Unlink(h: nat, pre: Place, node: Ptr, ghost i: nat)
      requires Woven(mem, nodes[..], chains, view) && Placed(view, hash)
      requires h < |view| && i < |chains[h]| == |view[h]| && node == chains[h][i] && pre == PlaceOf(chains[h], i)
      requires nodeTtl > 0
      modifies nodes, `mem, `nodeTtl, `view, `chains
      ensures Woven(mem, nodes[..], chains, view) && |mem| == |old(mem)| - 1 && nodeTtl == old(nodeTtl) - 1
      ensures i < |old(view)[h]| && view == old(view)[h := Without(old(view)[h], i)]
      ensures chains == old(chains)[h := Without(old(chains)[h], i)]
    {
      ghost var c := chains[h];
      ghost var mem' := Stored(mem, pre, At(c, i + 1)) - {node};
      ghost var nodes' := if i == 0 then nodes[..][h := At(c, 1)] else nodes[..];
      Unlinkable(mem, nodes[..], chains, view, hash, h, i);
      UnlinkWoven(mem, nodes[..], chains, view, hash, h, i);
      chains, view := chains[h := Without(c, i)], view[h := Without(view[h], i)];
      assert Woven(mem', nodes', chains, view);
      CutOut(h, pre, node);
      assert mem == mem' && nodes[..] == nodes';
    }

    /** Looks for the node of a key, and for the place where its address is kept. */
    method Seek(h: nat, k: Key) returns (pre: Place, node: Ptr, ghost i: nat)
      requires h < nodes.Length && h < |chains| && h < |view| && Chain(mem, nodes[h], chains[h], view[h])
      ensures i == IndexOf(view[h], k) && i <= |chains[h]| == |view[h]| && node == At(chains[h], i)
      ensures node != NULL <==> i < |view[h]|
      ensures pre == PlaceOf(chains[h], i)
    {
      pre, node, i := Slot, nodes[h], 0;
      while node != NULL
        invariant i <= |chains[h]| && node == At(chains[h], i) && pre == PlaceOf(chains[h], i)
        invariant i <= IndexOf(view[h], k)
        decreases |chains[h]| - i
      {
        if mem[node].key == k {
          return;
        }
        pre := InNode(node);
        node := mem[node].next;
        i := i + 1;
      }
    }

    method DeleteFrom(h: nat, k: Key)
      requires Woven(mem, nodes[..], chains, view) && Placed(view, hash) && nodeTtl == |Flat(view)|
      requires h == Home(hash, |view|, k)
      modifies nodes, `mem, `nodeTtl, `view, `chains
      ensures Woven(mem, nodes[..], chains, view)
      ensures view == Deleted(old(view), hash, k) && chains == ChainsDeleted(old(chains), old(view), hash, k)
      ensures var gone := if Has(old(view)[h], k) then 1 else 0;
              |mem| == |old(mem)| - gone && nodeTtl == old(nodeTtl) - gone
    {
      assert Chain(mem, nodes[..][h], chains[h], view[h]);
      var pre, node, i := Seek(h, k);
      if node != NULL {
        FlatSplit(view, h);
        Unlink(h, pre, node, i);
      }
    }

    method Delete(k: Key)
      requires Valid()
      modifies this, nodes
      ensures Valid() && hash == old(hash)
      ensures view == Deleted(old(view), hash, k) && TableMap(view, hash) == TableMap(old(view), hash) - {k}
      ensures chains == ChainsDeleted(old(chains), old(view), hash, k)
    {
      DeleteAll(view, hash, k);
      DeleteFrom(hash(k) % nodes.Length, k);
    }

    /** Gives a held key a new value and returns the one before; NULL when the key is not held. */
    method Update(k: Key, v: Val) returns (before: Val)
      requires Valid()
      modifies `mem, `view
      ensures Valid()
      ensures before == if k in TableMap(old(view), hash) then TableMap(old(view), hash)[k] else NULL
      ensures TableMap(view, hash) ==
              if k in TableMap(old(view), hash) then TableMap(old(view), hash)[k := v] else TableMap(old(view), hash)
    {
      var node := Find(k);
      if node == NULL {
        return NULL;
      }
      InsertMap(view, hash, k, v);
      before := mem[node].val;
      SetHeld(node, k, v);
    }

    /** Sets the hash function; the keys are then in their buckets if and only if it gives each the bucket it had. */
    method SetHandler(other: Key -> nat)
      requires Valid()
      modifies `hash
      ensures hash == other
      ensures Valid() <==> forall k :: k in Keys(view) ==> Home(other, |view|, k) == Home(old(hash), |view|, k)
    {
      HandlerPlaces(view, hash, other);
      hash := other;
    }

    /** Frees a chain from its first node to its last. */
    method FreeChain(h: nat)
      requires Valid() && h < |view|
      modifies nodes, `mem, `nodeTtl, `view, `chains
      ensures Valid() && view == old(view)[h := []]
    {
      Emptied(view, hash, h);
      FreeWoven(mem, nodes[..], chains, view, hash, h);
      assert Chain(mem, nodes[..][h], chains[h], view[h]);
      FlatSplit(view, h);
      ghost var heads := nodes[..];
      FreeNodes(h);
      nodes[h] := NULL;
      assert nodes[..] == heads[h := NULL];
      view, chains := view[h := []], chains[h := []];
    }

    method FreeNodes(h: nat)
      requires Woven(mem, nodes[..], chains, view) && Placed(view, hash) && h < |view| && nodeTtl >= |view[h]|
      modifies `mem, `nodeTtl
      ensures mem == FreedUpTo(old(mem), chains[h], |chains[h]|)
      ensures nodeTtl == old(nodeTtl) - |view[h]| && |mem| == |old(mem)| - |view[h]|
    {
      assert Chain(mem, nodes[..][h], chains[h], view[h]);
      ghost var c, was, ttl := chains[h], mem, nodeTtl;
      var node := nodes[h];
      ghost var i := 0;
      while node != NULL
        invariant i <= |c| && node == At(c, i) && mem == FreedUpTo(was, c, i)
        invariant nodeTtl == ttl - i && |mem| == |was| - i
        decreases |c| - i
      {
        FreeStep(was, nodes[..], chains, view, hash, h, i);
        var next := mem[node].next;
        mem := mem - {node};
        node := next;
        nodeTtl := nodeTtl - 1;
        i := i + 1;
      }
    }

    /** Frees all nodes; the error it could report is never reported. */
    method Reset() returns (r: int)
      requires Valid()
      modifies this, nodes
      ensures Valid() && hash == old(hash) && r == 0
      ensures TableMap(view, hash) == map[] && nodeTtl == 0 && mem == map[]
    {
      for h := 0 to nodes.Length
        invariant Valid() && hash == old(hash)
        invariant forall g :: 0 <= g < h ==> view[g] == []
      {
        FreeChain(h);
      }
      FlatEmpty(view);
      if nodeTtl != 0 {
        return -0x58a6823d;
      }
      r := 0;
    }

    // ---------------------------------------------------------------- iteration

    /** The first node of the buckets from one on. */
    method FirstFrom(from: nat) returns (r: Ptr)
      requires Woven(mem, nodes[..], chains, view) && from <= |view|
      ensures r == At(Flat(chains[from..]), 0)
    {
      for i := from to nodes.Length
        invariant Flat(chains[i..]) == Flat(chains[from..])
      {
        assert Chain(mem, nodes[..][i], chains[i], view[i]);
        FlatFrom(chains, i);
        r := nodes[i];
        if r != NULL {
          return;
        }
      }
      r := NULL;
    }

    method NextNode(k: Key) returns (r: Ptr)
      requires Valid()
      ensures r == NextOf(chains, view, hash, Some(k))
    {
      var h := hash(k) % nodes.Length;
      HeldAtHome(view, hash, k);
      var node := Find(k);
      if node == NULL {
        return NULL;
      }
      NextInOrder(mem, nodes[..], chains, view, hash, k);
      if mem[node].next != NULL {
        return mem[node].next;
      }
      r := FirstFrom(h + 1);
    }

    lemma NextTells(k: Option<Key>)
      requires Valid()
      ensures k.Some? && k.value !in TableMap(view, hash) ==> NextOf(chains, view, hash, k) == NULL
      ensures k.None? ==> (NextOf(chains, view, hash, k) == NULL <==> TableMap(view, hash) == map[])
    {
      if k.Some? {
        HeldAtHome(view, hash, k.value);
      } else {
        Counted();
        if Flat(chains) != [] {
          KeyInOrder(mem, nodes[..], chains, view, hash, 0);
        }
      }
    }

    method NextItem(k: Option<Key>) returns (r: Ptr)
      requires Valid()
      ensures r == NextOf(chains, view, hash, k)
    {
      if k.Some? {
        r := NextNode(k.value);
      } else {
        r := FirstFrom(0);
        assert chains[0..] == chains;
      }
    }

    method Next(k: Option<Key>) returns (r: Ptr)
      requires Valid()
      ensures r == NextOf(chains, view, hash, k)
      ensures k.Some? && k.value !in TableMap(view, hash) ==> r == NULL
      ensures k.None? ==> (r == NULL <==> TableMap(view, hash) == map[])
    {
      NextTells(k);
      r := NextItem(k);
    }

    /** From a node, by its key, to the next. */
    method StepOn(item: Ptr, ghost i: nat) returns (next: Ptr)
      requires Valid() && i < |Flat(chains)| && item == Flat(chains)[i]
      ensures next == At(Flat(chains), i + 1) && (next == NULL <==> i + 1 == |Flat(chains)|)
    {
      EndOfOrder(i + 1);
      NextByKey(mem, nodes[..], chains, view, hash, i);
      next := NextItem(Some(mem[item].key));
    }

    /** Going from node to node until there is none. */
    method VisitAll(first: Ptr, ghost f: seq<Ptr>) returns (visited: seq<Ptr>)
      requires Valid() && f == Flat(chains) && first == At(f, 0) && (first == NULL <==> f == [])
      ensures visited == f
    {
      visited := [];
      var item := first;
      while item != NULL
        invariant |visited| <= |f| && visited == f[..|visited|] && item == At(f, |visited|)
        invariant item == NULL <==> |visited| == |f|
        decreases |f| - |visited|
      {
        TakeOne(f, |visited|);
        visited := visited + [item];
        item := StepOn(item, |visited| - 1);
      }
    }

    /** Going from NULL visits each node once, bucket after bucket, in as many turns as there are nodes. */
    method ForEach() returns (visited: seq<Ptr>)
      requires Valid()
      ensures visited == Flat(chains) && |visited| == nodeTtl == |TableMap(view, hash)|
    {
      Counted();
      EndOfOrder(0);
      var first := NextItem(None);
      visited := VisitAll(first, Flat(chains));
    }

    /** The place in a chain that an index chooses. */
    method Pick(h: nat, rdmIdx: nat) returns (r: Ptr)
      requires Woven(mem, nodes[..], chains, view) && h < |view| && chains[h] != []
      ensures r != NULL && r == chains[h][rdmIdx % |chains[h]|]
    {
      assert Chain(mem, nodes[..][h], chains[h], view[h]);
      var len, node := 0, nodes[h];
      while node != NULL
        invariant len <= |chains[h]| && node == At(chains[h], len)
        decreases |chains[h]| - len
      {
        len := len + 1;
        node := mem[node].next;
      }
      var idx := rdmIdx % len;
      r := nodes[h];
      while idx >= 1
        invariant 0 <= idx <= rdmIdx % len && r == At(chains[h], rdmIdx % len - idx)
      {
        r := mem[r].next;
        idx := idx - 1;
      }
    }

    ghost predicate NoneIn(from: int, to: int)
      reads this
    {
      forall g :: from <= g < to && 0 <= g < |chains| ==> chains[g] == []
    }

    method PickFrom(idx: nat, rdmIdx: nat) returns (r: Ptr, ghost h: nat)
      requires Woven(mem, nodes[..], chains, view)
      ensures r == NULL ==> NoneIn(idx, |chains|)
      ensures r != NULL ==> idx <= h < |chains| && chains[h] != [] && NoneIn(idx, h)
      ensures r != NULL ==> r == chains[h][rdmIdx % |chains[h]|]
    {
      var i := idx;
      while i < nodes.Length
        invariant idx <= i && NoneIn(idx, i)
      {
        assert Chain(mem, nodes[..][i], chains[i], view[i]);
        if nodes[i] != NULL {
          r := Pick(i, rdmIdx);
          return r, i;
        }
        i := i + 1;
      }
      return NULL, 0;
    }

    method PickBefore(idx: nat, rdmIdx: nat) returns (r: Ptr, ghost h: nat)
      requires Woven(mem, nodes[..], chains, view) && idx <= |chains|
      ensures r == NULL ==> NoneIn(0, idx)
      ensures r != NULL ==> h < idx && chains[h] != [] && NoneIn(h + 1, idx) && r == chains[h][rdmIdx % |chains[h]|]
    {
      var i := idx - 1;
      while i >= 0
        invariant -1 <= i < idx && NoneIn(i + 1, idx)
      {
        assert Chain(mem, nodes[..][i], chains[i], view[i]);
        if nodes[i] != NULL {
          r := Pick(i, rdmIdx);
          return r, i;
        }
        i := i - 1;
      }
      return NULL, 0;
    }

    /** What is chosen is a node of the table. */
    lemma ChosenHeld(h: nat, i: nat)
      requires Valid() && h < |chains| && i < |chains[h]|
      ensures chains[h][i] in Flat(chains) && chains[h][i] in mem
    {
      FlatAt(chains, h, i);
      assert Chain(mem, nodes[..][h], chains[h], view[h]);
    }

    /**
     The node that an index chooses: in the first bucket with nodes from the index's
     own on, or else in the last one before it; NULL for an empty table only.
     */
    method RandomNode(rdmIdx: nat) returns (r: Ptr, ghost h: nat)
      requires Valid()
      ensures r == NULL <==> TableMap(view, hash) == map[]
      ensures r != NULL ==> r in mem && r in Flat(chains)
      ensures r != NULL ==> h < |chains| && chains[h] != [] && r == chains[h][rdmIdx % |chains[h]|]
      ensures r != NULL ==> var idx := rdmIdx % |chains|;
                            if idx <= h then NoneIn(idx, h) else NoneIn(idx, |chains|) && NoneIn(h + 1, idx)
    {
      Counted();
      if nodeTtl == 0 {
        return NULL, 0;
      }
      var idx := rdmIdx % nodes.Length;
      r, h := PickFrom(idx, rdmIdx);
      if r == NULL {
        r, h := PickBefore(idx, rdmIdx);
      }
      if r == NULL {
        NoNodes(idx);
      } else {
        ChosenHeld(h, rdmIdx % |chains[h]|);
      }
    }

    lemma NoNodes(idx: nat)
      requires Valid() && NoneIn(0, idx) && NoneIn(idx, |chains|)
      ensures nodeTtl == 0
    {
      FlatEmpty(chains);
      Counted();
    }

    lemma Counted()
      requires Valid()
      ensures |Flat(chains)| == nodeTtl == |TableMap(view, hash)|
    {
      FlatHeld(mem, nodes[..], chains, view);
      MapSize(view, hash);
    }

    lemma EndOfOrder(i: nat)
      requires Woven(mem, nodes[..], chains, view) && i <= |Flat(chains)|
      ensures At(Flat(chains), i) == NULL <==> i == |Flat(chains)|
    {
      FlatHeld(mem, nodes[..], chains, view);
      if i < |Flat(chains)| {
        assert HeldAt(mem, Flat(chains)[i], Flat(view)[i]);
      }
    }

    method DeleteFirst(item: Ptr) returns (next: Ptr)
      requires Valid() && item != NULL && item == At(Flat(chains), 0)
      modifies this, nodes
      ensures Valid() && hash == old(hash) && nodeTtl < old(nodeTtl) && next == At(Flat(chains), 0)
    {
      KeyInOrder(mem, nodes[..], chains, view, hash, 0);
      NextByKey(mem, nodes[..], chains, view, hash, 0);
      var key := mem[item].key;
      FlatDeleted(mem, nodes[..], chains, view, hash, key);
      TakenFirst(Flat(chains), Flat(ChainsDeleted(chains, view, hash, key)));
      DeleteAll(view, hash, key);
      next := NextNode(key);
      Delete(key);
    }

    /** Fetching the next node before deleting the one in hand empties the table. */
    method DeleteEach()
      requires Valid()
      modifies this, nodes
      ensures Valid() && hash == old(hash) && TableMap(view, hash) == map[] && nodeTtl == 0
    {
      var item := NextItem(None);
      while item != NULL
        invariant Valid() && hash == old(hash) && item == At(Flat(chains), 0)
        decreases nodeTtl
      {
        item := DeleteFirst(item);
      }
      EndOfOrder(0);
      Counted();
    }
  }

  lemma {:induction false} FlatEmpty<T>(b: seq<seq<T>>)
    requires forall h :: 0 <= h < |b| ==> b[h] == []
    ensures Flat(b) == []
  {
    if b != [] { FlatEmpty(b[..|b| - 1]); }
  }
}
