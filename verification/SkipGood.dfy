/** The invariant of the skip list, on the values of its fields. */
module SkipGood {
  import opened Pointers
  import opened SkipOrder
  import opened SkipTable
  import opened Sequences

  /** Links, spans, backward pointers and counters all say what the sequence of nodes says. */
  ghost predicate Framed<T>(mem: Memory<T>, ns: seq<Ptr>, header: Ptr, tail: Ptr, length: nat, lv: nat) {
    Named(ns, mem) && header == ns[0] && length == |ns| - 1 && Linked(ns, TableOf(ns, mem), lv) &&
    Mirrored(ns, BacksOf(ns, mem), tail) && (lv > 1 ==> TableOf(ns, mem)[0][lv - 1].forward != NULL)
  }

  ghost predicate Ordered<T(!new)>(cmp: Compare<T>, mem: Memory<T>, ns: seq<Ptr>) {
    TotalOrder(cmp) && Named(ns, mem) && Sorted(cmp, ElementsOf(ns, mem))
  }

  /** What hanging in node `x` behind node `k` does. */
  ghost predicate HungIn<T>(mem: Memory<T>, ns: seq<Ptr>, tail: Ptr, lv: nat,
                            mem': Memory<T>, ns': seq<Ptr>, tail': Ptr, lv': nat, k: nat, h: nat, x: Ptr)
    requires InMemory(ns, mem)
  {
    k < |ns| && ns' == PutBehind(ns, k, x) && InMemory(ns', mem') && Linked(ns', TableOf(ns', mem'), lv') &&
    lv' == (if h > lv then h else lv) && SameElements(mem, mem') && x in mem' && mem'[x].obj.Some? &&
    BacksOf(ns', mem') == BacksFitted(ns, BacksOf(ns, mem), k, x) &&
    HeightsOf(TableOf(ns', mem')) == PutBehind(HeightsOf(TableOf(ns, mem)), k, h) &&
    tail' == if k + 1 < |ns| then tail else x
  }

  lemma InsertFramed<T>(mem: Memory<T>, ns: seq<Ptr>, header: Ptr, tail: Ptr, length: nat, lv: nat,
                        mem': Memory<T>, ns': seq<Ptr>, tail': Ptr, lv': nat, k: nat, h: nat, x: Ptr)
    requires Framed(mem, ns, header, tail, length, lv) && HungIn(mem, ns, tail, lv, mem', ns', tail', lv', k, h, x)
    ensures Framed(mem', ns', header, tail', length + 1, lv')
  {
    NamedSplice(ns, mem, mem', k, x);
    FittedMirrors(ns, BacksOf(ns, mem), tail, k, x);
    TopAfterInsert(ns, TableOf(ns, mem), ns', TableOf(ns', mem'), k, h, lv, lv');
  }

  lemma InsertOrdered<T(!new)>(cmp: Compare<T>, mem: Memory<T>, ns: seq<Ptr>, mem': Memory<T>, x: Ptr, e: Entry<T>)
    requires Ordered(cmp, mem, ns) && SameElements(mem, mem') && x in mem' && mem'[x].obj.Some? && EntryOf(mem'[x]) == e
    ensures var ns' := PutBehind(ns, Passing(ElementsOf(ns, mem), Before(cmp, e)), x);
            Ordered(cmp, mem', ns') && ElementsOf(ns', mem') == Inserted(cmp, ElementsOf(ns, mem), e)
  {
    ElementsInserted(cmp, ns, mem, mem', x, e);
    InsertedSorted(cmp, ElementsOf(ns, mem), e);
  }

  /** What taking out the node behind node `k` does. */
  ghost predicate TakenOut<T>(mem: Memory<T>, ns: seq<Ptr>, tail: Ptr, mem': Memory<T>, ns': seq<Ptr>, tail': Ptr,
                              lv': nat, k: nat)
    requires InMemory(ns, mem)
  {
    k + 1 < |ns| && ns' == Without(ns, k + 1) && InMemory(ns', mem') && Linked(ns', TableOf(ns', mem'), lv') &&
    (lv' > 1 ==> TableOf(ns', mem')[0][lv' - 1].forward != NULL) && mem'.Keys == mem.Keys - {ns[k + 1]} &&
    (forall a :: a in mem' ==> SameElement(mem[a], mem'[a])) && BacksOf(ns', mem') == BacksTaken(BacksOf(ns, mem), k) &&
    tail' == if k + 2 < |ns| then tail else BacksOf(ns, mem)[k + 1]
  }

  lemma DeleteFramed<T>(mem: Memory<T>, ns: seq<Ptr>, header: Ptr, tail: Ptr, length: nat, lv: nat,
                        mem': Memory<T>, ns': seq<Ptr>, tail': Ptr, lv': nat, k: nat)
    requires Framed(mem, ns, header, tail, length, lv) && TakenOut(mem, ns, tail, mem', ns', tail', lv', k)
    requires length > 0
    ensures Framed(mem', ns', header, tail', length - 1, lv')
  {
    DroppedElements(mem, ns, mem', k);
    TakenMirrors(ns, BacksOf(ns, mem), tail, k);
  }

  lemma DroppedElements<T>(mem: Memory<T>, ns: seq<Ptr>, mem': Memory<T>, k: nat)
    requires Named(ns, mem) && Addressed(ns) && k + 1 < |ns| && mem'.Keys == mem.Keys - {ns[k + 1]}
    requires forall a :: a in mem' ==> SameElement(mem[a], mem'[a])
    ensures Named(Without(ns, k + 1), mem')
    ensures ElementsOf(Without(ns, k + 1), mem') == ElementsOf(ns, mem)[..k] + ElementsOf(ns, mem)[k + 1..]
  {
  }

  lemma DeleteOrdered<T(!new)>(cmp: Compare<T>, mem: Memory<T>, ns: seq<Ptr>, mem': Memory<T>, e: Entry<T>, k: nat)
    requires Ordered(cmp, mem, ns) && Addressed(ns) && k == Passing(ElementsOf(ns, mem), Before(cmp, e)) && k + 1 < |ns|
    requires EntryOf(mem[ns[k + 1]]) == e && mem'.Keys == mem.Keys - {ns[k + 1]}
    requires forall a :: a in mem' ==> SameElement(mem[a], mem'[a])
    ensures var ns' := Without(ns, k + 1);
            Ordered(cmp, mem', ns') &&
            ElementsOf(ns', mem') == Deleted(cmp, ElementsOf(ns, mem), e) && e in ElementsOf(ns, mem)
  {
    var es := ElementsOf(ns, mem);
    DroppedElements(mem, ns, mem', k);
    assert es[k] == e;
    assert ElementsOf(Without(ns, k + 1), mem') == Deleted(cmp, es, e);
    DeletedSorted(cmp, es, e);
  }

  /** The element is not there. */
  lemma DeleteAbsent<T(!new)>(cmp: Compare<T>, mem: Memory<T>, ns: seq<Ptr>, e: Entry<T>, k: nat)
    requires Ordered(cmp, mem, ns) && k == Passing(ElementsOf(ns, mem), Before(cmp, e))
    requires k + 1 < |ns| ==> EntryOf(mem[ns[k + 1]]) != e
    ensures Deleted(cmp, ElementsOf(ns, mem), e) == ElementsOf(ns, mem) && e !in ElementsOf(ns, mem)
  {
    NotThere(cmp, ElementsOf(ns, mem), e);
  }
}
