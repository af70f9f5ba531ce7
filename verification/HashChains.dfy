/** The memory of the hash table: nodes at addresses, linked into one chain a bucket. */
module HashChains {
  import opened HashSpec
  import opened Options
  import opened Pointers
  import opened Sequences

  datatype Node = Node(key: Key, val: Val, next: Ptr)

  type Memory = map<Ptr, Node>

  /** What follows in a chain. */
  function At(c: seq<Ptr>, i: nat): Ptr {
    if i < |c| then c[i] else NULL
  }

  /** The nodes of a chain are linked one to the next and hold the entries. */
  ghost predicate Chain(mem: Memory, head: Ptr, c: seq<Ptr>, es: seq<Entry>) {
    |c| == |es| && head == At(c, 0) &&
    forall i :: 0 <= i < |c| ==> c[i] != NULL && c[i] in mem && mem[c[i]] == Node(es[i].key, es[i].val, At(c, i + 1))
  }

  ghost predicate Woven(mem: Memory, nodes: seq<Ptr>, chains: seq<seq<Ptr>>, b: seq<seq<Entry>>) {
    |nodes| == |chains| == |b| && forall h :: 0 <= h < |b| ==> Chain(mem, nodes[h], chains[h], b[h])
  }

  /** Two chains that hold different keys have no node in common, and a chain no node twice. */
  lemma OtherChains(mem: Memory, nodes: seq<Ptr>, chains: seq<seq<Ptr>>, b: seq<seq<Entry>>, hash: Key -> nat,
                    h: nat, i: nat)
    requires Woven(mem, nodes, chains, b) && Placed(b, hash) && h < |b| && i < |chains[h]|
    ensures forall g :: 0 <= g < |b| && g != h ==> chains[h][i] !in chains[g]
    ensures forall j :: 0 <= j < |chains[h]| && j != i ==> chains[h][i] != chains[h][j]
  {
  }

  lemma ChainKept(mem: Memory, mem': Memory, head: Ptr, c: seq<Ptr>, es: seq<Entry>)
    requires Chain(mem, head, c, es) && forall p :: p in c && p in mem ==> p in mem' && mem'[p] == mem[p]
    ensures Chain(mem', head, c, es)
  {
  }

  /** A new value in a node is a new value in its entry. */
  lemma SetWoven(mem: Memory, nodes: seq<Ptr>, chains: seq<seq<Ptr>>, b: seq<seq<Entry>>, hash: Key -> nat, h: nat,
                 i: nat, v: Val)
    requires Woven(mem, nodes, chains, b) && Placed(b, hash) && h < |b| && i < |chains[h]|
    ensures i < |b[h]| && chains[h][i] in mem
    ensures var p := chains[h][i];
            Woven(mem[p := mem[p].(val := v)], nodes, chains, b[h := b[h][i := Entry(b[h][i].key, v)]])
  {
  }

  /** A new node in front of a chain. */
  lemma PushWoven(mem: Memory, nodes: seq<Ptr>, chains: seq<seq<Ptr>>, b: seq<seq<Entry>>, h: nat, p: Ptr, k: Key,
                  v: Val)
    requires Woven(mem, nodes, chains, b) && h < |b| && p !in mem && p != NULL
    ensures Woven(mem[p := Node(k, v, nodes[h])], nodes[h := p],
                  chains[h := [p] + chains[h]], b[h := [Entry(k, v)] + b[h]])
  {
  }

  /** Where the address of a node is kept: in the bucket or in the node before. */
  datatype Place = Slot | InNode(p: Ptr)

  function PlaceOf(c: seq<Ptr>, i: nat): Place
    requires i <= |c|
  {
    if i == 0 then Slot else InNode(c[i - 1])
  }

  function Stored(mem: Memory, at: Place, p: Ptr): Memory {
    if at.InNode? && at.p in mem then mem[at.p := mem[at.p].(next := p)] else mem
  }

  lemma UnlinkChain(mem: Memory, head: Ptr, c: seq<Ptr>, es: seq<Entry>, i: nat)
    requires Chain(mem, head, c, es) && i < |c| && forall j, k :: 0 <= j < k < |c| ==> c[j] != c[k]
    ensures Chain(Stored(mem, PlaceOf(c, i), At(c, i + 1)) - {c[i]},
                  if i == 0 then At(c, 1) else head, Without(c, i), Without(es, i))
  {
    var c', mem' := Without(c, i), Stored(mem, PlaceOf(c, i), At(c, i + 1)) - {c[i]};
    forall j | 0 <= j < |c'|
      ensures c'[j] != NULL && c'[j] in mem'
      ensures mem'[c'[j]] == Node(Without(es, i)[j].key, Without(es, i)[j].val, At(c', j + 1))
    {
      UnlinkAt(mem, head, c, es, i, j);
    }
  }

  lemma UnlinkAt(mem: Memory, head: Ptr, c: seq<Ptr>, es: seq<Entry>, i: nat, j: nat)
    requires Chain(mem, head, c, es) && i < |c| && j < |c| - 1 && forall j, k :: 0 <= j < k < |c| ==> c[j] != c[k]
    ensures var c', mem' := Without(c, i), Stored(mem, PlaceOf(c, i), At(c, i + 1)) - {c[i]};
            c'[j] != NULL && c'[j] in mem' &&
            mem'[c'[j]] == Node(Without(es, i)[j].key, Without(es, i)[j].val, At(c', j + 1))
  {
    var c', k := Without(c, i), if j < i then j else j + 1;
    assert c[k] == c'[j] && Without(es, i)[j] == es[k] && c[k] != c[i];
    assert PlaceOf(c, i) == InNode(c[k]) <==> k == i - 1;
    StoredAt(mem, PlaceOf(c, i), At(c, i + 1), c[i], c[k]);
    assert At(c', j + 1) == if j == i - 1 then At(c, i + 1) else At(c, k + 1);
  }

  lemma StoredAt(mem: Memory, at: Place, next: Ptr, gone: Ptr, x: Ptr)
    requires x in mem && x != gone
    ensures var mem' := Stored(mem, at, next) - {gone};
            x in mem' && mem'[x] == if at == InNode(x) then mem[x].(next := next) else mem[x]
  {
  }

  /** Unlinking and freeing a node takes its entry out. */
  lemma UnlinkWoven(mem: Memory, nodes: seq<Ptr>, chains: seq<seq<Ptr>>, b: seq<seq<Entry>>, hash: Key -> nat,
                    h: nat, i: nat)
    requires Woven(mem, nodes, chains, b) && Placed(b, hash) && h < |b| && i < |chains[h]|
    ensures |b[h]| == |chains[h]|
    ensures var c := chains[h];
            Woven(Stored(mem, PlaceOf(c, i), At(c, i + 1)) - {c[i]}, if i == 0 then nodes[h := At(c, 1)] else nodes,
                  chains[h := Without(c, i)], b[h := Without(b[h], i)])
  {
    var c := chains[h];
    assert Chain(mem, nodes[h], c, b[h]);
    var mem' := Stored(mem, PlaceOf(c, i), At(c, i + 1)) - {c[i]};
    forall j | 0 <= j < |c| ensures forall g :: 0 <= g < |b| && g != h ==> c[j] !in chains[g] {
      OtherChains(mem, nodes, chains, b, hash, h, j);
    }
    forall j, k | 0 <= j < k < |c| ensures c[j] != c[k] {
      OtherChains(mem, nodes, chains, b, hash, h, j);
    }
    UnlinkChain(mem, nodes[h], c, b[h], i);
    forall g | 0 <= g < |b| && g != h ensures Chain(mem', nodes[g], chains[g], b[g]) {
      assert Chain(mem, nodes[g], chains[g], b[g]);
      assert c[i] !in chains[g] && (i > 0 ==> c[i - 1] !in chains[g]);
      ChainKept(mem, mem', nodes[g], chains[g], b[g]);
    }
  }

  predicate HeldAt(mem: Memory, p: Ptr, e: Entry) {
    p != NULL && p in mem && mem[p].key == e.key && mem[p].val == e.val
  }

  /** All nodes in order hold all entries in order. */
  lemma {:induction false} FlatHeld(mem: Memory, nodes: seq<Ptr>, chains: seq<seq<Ptr>>, b: seq<seq<Entry>>)
    requires Woven(mem, nodes, chains, b)
    ensures |Flat(chains)| == |Flat(b)|
    ensures forall i :: 0 <= i < |Flat(b)| ==> HeldAt(mem, Flat(chains)[i], Flat(b)[i])
  {
    if b != [] {
      var n := |b| - 1;
      assert Chain(mem, nodes[n], chains[n], b[n]);
      FlatHeld(mem, nodes[..n], chains[..n], b[..n]);
    }
  }

  ghost predicate OneOut<T>(was: seq<T>, now: seq<T>, i: nat) {
    i < |was| && now == Without(was, i)
  }

  lemma SameLengths(mem: Memory, nodes: seq<Ptr>, chains: seq<seq<Ptr>>, b: seq<seq<Entry>>, h: nat)
    requires Woven(mem, nodes, chains, b) && h <= |b|
    ensures |Flat(chains[..h])| == |Flat(b[..h])|
  {
    FlatHeld(mem, nodes[..h], chains[..h], b[..h]);
  }

  lemma WithoutMiddle<T>(a: seq<T>, c: seq<T>, d: seq<T>, i: nat)
    requires i < |c|
    ensures a + Without(c, i) + d == Without(a + c + d, |a| + i)
  {
  }

  lemma TakenMiddle<T>(was: seq<T>, now: seq<T>, a: seq<T>, c: seq<T>, d: seq<T>, i: nat)
    requires i < |c| && was == a + c + d && now == a + Without(c, i) + d
    ensures OneOut(was, now, |a| + i)
  {
    WithoutMiddle(a, c, d, i);
  }

  lemma FlatWithout(chains: seq<seq<Ptr>>, h: nat, i: nat, at: nat)
    requires h < |chains| && i < |chains[h]| && at == |Flat(chains[..h])| + i
    ensures OneOut(Flat(chains), Flat(chains[h := Without(chains[h], i)]), at)
  {
    var c, now := chains[h], Flat(chains[h := Without(chains[h], i)]);
    FlatUpdate(chains, h, Without(c, i));
    FlatSplit(chains, h);
    TakenMiddle(Flat(chains), now, Flat(chains[..h]), c, Flat(chains[h + 1..]), i);
  }

  /** The chains without the node of a key. */
  ghost function ChainsDeleted(chains: seq<seq<Ptr>>, b: seq<seq<Entry>>, hash: Key -> nat, k: Key): seq<seq<Ptr>>
    requires |chains| == |b| > 0
  {
    var h := Home(hash, |b|, k);
    var i := IndexOf(b[h], k);
    if i < |chains[h]| then chains[h := Without(chains[h], i)] else chains
  }

  /** In the order of iteration one node is missing, the others keep their order. */
  lemma FlatDeleted(mem: Memory, nodes: seq<Ptr>, chains: seq<seq<Ptr>>, b: seq<seq<Entry>>, hash: Key -> nat, k: Key)
    requires Woven(mem, nodes, chains, b) && Placed(b, hash)
    ensures k in TableMap(b, hash) ==>
              OneOut(Flat(chains), Flat(ChainsDeleted(chains, b, hash, k)), Position(b, hash, k))
    ensures k !in TableMap(b, hash) ==> ChainsDeleted(chains, b, hash, k) == chains
  {
    var h := Home(hash, |b|, k);
    HeldAtHome(b, hash, k);
    assert Chain(mem, nodes[h], chains[h], b[h]);
    SameLengths(mem, nodes, chains, b, h);
    if k in TableMap(b, hash) {
      FlatWithout(chains, h, IndexOf(b[h], k), Position(b, hash, k));
    }
  }

  /** What memory is left when the first nodes of a chain have been freed. */
  ghost function FreedUpTo(mem: Memory, c: seq<Ptr>, i: nat): Memory
    requires i <= |c|
  {
    if i == 0 then mem else FreedUpTo(mem, c, i - 1) - {c[i - 1]}
  }

  lemma {:induction false} FreedHolds(mem: Memory, c: seq<Ptr>, i: nat, x: Ptr)
    requires i <= |c|
    ensures x in FreedUpTo(mem, c, i) <==> x in mem && x !in c[..i]
    ensures x in FreedUpTo(mem, c, i) ==> FreedUpTo(mem, c, i)[x] == mem[x]
  {
    if i > 0 {
      FreedHolds(mem, c, i - 1, x);
      assert c[..i] == c[..i - 1] + [c[i - 1]];
    }
  }

  lemma FreeNext(mem: Memory, head: Ptr, c: seq<Ptr>, es: seq<Entry>, i: nat)
    requires Chain(mem, head, c, es) && i < |c| && forall j :: 0 <= j < |c| && j != i ==> c[j] != c[i]
    ensures c[i] in FreedUpTo(mem, c, i) && FreedUpTo(mem, c, i)[c[i]].next == At(c, i + 1)
    ensures |FreedUpTo(mem, c, i + 1)| == |FreedUpTo(mem, c, i)| - 1
  {
    FreedHolds(mem, c, i, c[i]);
    assert FreedUpTo(mem, c, i + 1).Keys == FreedUpTo(mem, c, i).Keys - {c[i]};
  }

  lemma FreeStep(mem: Memory, nodes: seq<Ptr>, chains: seq<seq<Ptr>>, b: seq<seq<Entry>>, hash: Key -> nat, h: nat,
                 i: nat)
    requires Woven(mem, nodes, chains, b) && Placed(b, hash) && h < |b| && i < |chains[h]|
    ensures var c := chains[h]; c[i] in FreedUpTo(mem, c, i) && FreedUpTo(mem, c, i)[c[i]].next == At(c, i + 1)
    ensures |FreedUpTo(mem, chains[h], i + 1)| == |FreedUpTo(mem, chains[h], i)| - 1
  {
    OtherChains(mem, nodes, chains, b, hash, h, i);
    FreeNext(mem, nodes[h], chains[h], b[h], i);
  }

  /** Freeing all nodes of a chain. */
  lemma FreeWoven(mem: Memory, nodes: seq<Ptr>, chains: seq<seq<Ptr>>, b: seq<seq<Entry>>, hash: Key -> nat, h: nat)
    requires Woven(mem, nodes, chains, b) && Placed(b, hash) && h < |b|
    ensures Woven(FreedUpTo(mem, chains[h], |chains[h]|), nodes[h := NULL], chains[h := []], b[h := []])
  {
    var c, mem' := chains[h], FreedUpTo(mem, chains[h], |chains[h]|);
    assert c[..|c|] == c;
    forall g | 0 <= g < |b| && g != h ensures Chain(mem', nodes[g], chains[g], b[g]) {
      forall i | 0 <= i < |c| ensures c[i] !in chains[g] {
        OtherChains(mem, nodes, chains, b, hash, h, i);
      }
      forall x | x in chains[g] && x in mem ensures x in mem' && mem'[x] == mem[x] {
        FreedHolds(mem, c, |c|, x);
      }
      ChainKept(mem, mem', nodes[g], chains[g], b[g]);
    }
  }

  /**
   In the order of iteration, the first node, or the node after that of a key; NULL at the
   end or for an unknown key.
   */
  ghost function NextOf(chains: seq<seq<Ptr>>, b: seq<seq<Entry>>, hash: Key -> nat, k: Option<Key>): Ptr
    requires |b| > 0
  {
    if k.None? then At(Flat(chains), 0)
    else if Has(b[Home(hash, |b|, k.value)], k.value) then At(Flat(chains), Position(b, hash, k.value) + 1)
    else NULL
  }

  lemma NextFrom(chains: seq<seq<Ptr>>, b: seq<seq<Entry>>, hash: Key -> nat, k: Key, i: nat)
    requires |b| > 0 && Has(b[Home(hash, |b|, k)], k) && Position(b, hash, k) == i
    ensures NextOf(chains, b, hash, Some(k)) == At(Flat(chains), i + 1)
  {
  }

  /** The node after that of a key: the next of its chain, or the first of the chains that follow. */
  lemma NextInOrder(mem: Memory, nodes: seq<Ptr>, chains: seq<seq<Ptr>>, b: seq<seq<Entry>>, hash: Key -> nat, k: Key)
    requires Woven(mem, nodes, chains, b) && |b| > 0 && Has(b[Home(hash, |b|, k)], k)
    ensures var h := Home(hash, |b|, k); var p := At(chains[h], IndexOf(b[h], k));
            p in mem && NextOf(chains, b, hash, Some(k)) ==
            if mem[p].next != NULL then mem[p].next else At(Flat(chains[h + 1..]), 0)
  {
    var h := Home(hash, |b|, k);
    Link(mem, nodes, chains, b, h, IndexOf(b[h], k));
    SameLengths(mem, nodes, chains, b, h);
    NextInChains(chains, b, hash, k);
  }

  lemma NextInChains(chains: seq<seq<Ptr>>, b: seq<seq<Entry>>, hash: Key -> nat, k: Key)
    requires |chains| == |b| > 0
    requires var h := Home(hash, |b|, k); Has(b[h], k) && |chains[h]| == |b[h]| && |Flat(chains[..h])| == |Flat(b[..h])|
    ensures var h := Home(hash, |b|, k); var i := IndexOf(b[h], k);
            NextOf(chains, b, hash, Some(k)) ==
            if i + 1 < |chains[h]| then At(chains[h], i + 1) else At(Flat(chains[h + 1..]), 0)
  {
    var h := Home(hash, |b|, k);
    FlatNext(chains, h, IndexOf(b[h], k), Position(b, hash, k));
    NextFrom(chains, b, hash, k, Position(b, hash, k));
  }

  lemma Link(mem: Memory, nodes: seq<Ptr>, chains: seq<seq<Ptr>>, b: seq<seq<Entry>>, h: nat, i: nat)
    requires Woven(mem, nodes, chains, b) && h < |b| && i < |b[h]|
    ensures i < |chains[h]| == |b[h]| && chains[h][i] in mem && mem[chains[h][i]].next == At(chains[h], i + 1)
    ensures At(chains[h], i + 1) == NULL <==> i + 1 == |chains[h]|
  {
  }

  lemma Unlinkable(mem: Memory, nodes: seq<Ptr>, chains: seq<seq<Ptr>>, b: seq<seq<Entry>>, hash: Key -> nat, h: nat,
                   i: nat)
    requires Woven(mem, nodes, chains, b) && Placed(b, hash) && h < |b| && i < |chains[h]|
    ensures var c, pre := chains[h], PlaceOf(chains[h], i);
            c[i] in mem && mem[c[i]].next == At(c, i + 1) && (pre.InNode? ==> pre.p in mem && pre.p != c[i])
  {
    assert Chain(mem, nodes[h], chains[h], b[h]);
    OtherChains(mem, nodes, chains, b, hash, h, i);
  }

  lemma FlatNext(chains: seq<seq<Ptr>>, h: nat, i: nat, at: nat)
    requires h < |chains| && i < |chains[h]| && at == |Flat(chains[..h])| + i
    ensures At(Flat(chains), at) == chains[h][i]
    ensures At(Flat(chains), at + 1) ==
            if i + 1 < |chains[h]| then At(chains[h], i + 1) else At(Flat(chains[h + 1..]), 0)
  {
    FlatSplit(chains, h);
  }

  lemma TakenFirst(was: seq<Ptr>, now: seq<Ptr>)
    requires OneOut(was, now, 0)
    ensures At(now, 0) == At(was, 1)
  {
  }

  /** The key of the how-manieth node leads to its place in the order. */
  lemma KeyInOrder(mem: Memory, nodes: seq<Ptr>, chains: seq<seq<Ptr>>, b: seq<seq<Entry>>, hash: Key -> nat, i: nat)
    requires Woven(mem, nodes, chains, b) && Placed(b, hash) && i < |Flat(chains)|
    ensures Flat(chains)[i] != NULL && Flat(chains)[i] in mem
    ensures var k := mem[Flat(chains)[i]].key; Has(b[Home(hash, |b|, k)], k) && Position(b, hash, k) == i
  {
    FlatHeld(mem, nodes, chains, b);
    assert HeldAt(mem, Flat(chains)[i], Flat(b)[i]);
    PositionOf(b, hash, i);
    HeldAtHome(b, hash, Flat(b)[i].key);
  }

  lemma NextByKey(mem: Memory, nodes: seq<Ptr>, chains: seq<seq<Ptr>>, b: seq<seq<Entry>>, hash: Key -> nat, i: nat)
    requires Woven(mem, nodes, chains, b) && Placed(b, hash) && i < |Flat(chains)|
    ensures Flat(chains)[i] != NULL && Flat(chains)[i] in mem
    ensures NextOf(chains, b, hash, Some(mem[Flat(chains)[i]].key)) == At(Flat(chains), i + 1)
  {
    KeyInOrder(mem, nodes, chains, b, hash, i);
    NextFrom(chains, b, hash, mem[Flat(chains)[i]].key, i);
  }
}
