/** What the invariant of the heap says about the allocations and about the values they hold. */
module VariantOwnership {
  import opened Wrappers
  import opened Bytes
  import opened OrderedMap
  import opened VariantValue
  import opened VariantHeap
  import opened Codec
  import opened CodecTheorems

  /** The strings, lists and maps in a value, at all levels. */
  function Nodes(v: Value): nat
    decreases v, 0
  {
    match v
    case String(_) => 1
    case List(items) => 1 + NodesOfItems(items)
    case Map(entries) => 1 + NodesOfEntries(entries)
    case _ => 0
  }

  function NodesOfItems(vs: seq<Value>): nat
    decreases vs, 1
  {
    if vs == [] then 0 else NodesOfItems(vs[..|vs| - 1]) + Nodes(vs[|vs| - 1])
  }

  function NodesOfEntries(es: seq<Entry<Value>>): nat
    decreases es, 1
  {
    if es == [] then 0 else NodesOfEntries(es[..|es| - 1]) + Nodes(es[|es| - 1].val)
  }

  lemma {:induction false} NodesOfZip(keys: seq<Key>, vs: seq<Value>)
    requires |keys| == |vs|
    ensures NodesOfEntries(Zip(keys, vs)) == NodesOfItems(vs)
  {
    if vs != [] {
      var n := |vs| - 1;
      NodesOfZip(keys[..n], vs[..n]);
      assert Zip(keys, vs)[..n] == Zip(keys[..n], vs[..n]);
    }
  }

  lemma NodesOfContents(c: Contents, vs: seq<Value>, v: Value)
    requires ValueOf(c, vs) == Some(v)
    ensures Nodes(v) == 1 + NodesOfItems(vs)
  {
    if c.Dictionary? {
      NodesOfZip(c.keys, vs);
    }
  }

  /** A variant owns as many allocations as its value has strings, lists and maps. */
  lemma {:induction false} OneAllocationPerNode(c: Cell)
    requires CellValid(c)
    ensures |OwnOf(c)| == Nodes(AbsOf(c))
    decreases OwnOf(c), 1
  {
    if c.m_data.AsPtr? {
      var p := c.m_data.p;
      RowAllocations(KidsOf(p.contents));
      NodesOfContents(p.contents, RowAbs(KidsOf(p.contents)), p.Abs);
    }
  }

  lemma {:induction false} RowAllocations(cs: seq<Cell>)
    requires RowValid(cs)
    ensures |AllOwn(cs)| == NodesOfItems(RowAbs(cs))
    decreases AllOwn(cs), 2 + |cs|
  {
    if cs != [] {
      var init, last := cs[..|cs| - 1], cs[|cs| - 1];
      RowLast(cs);
      hide RowValid, AllOwn, RowAbs, CellValid, OwnOf, AbsOf, Roots, Root;
      RowAllocations(init);
      OneAllocationPerNode(last);
      assert RowAbs(cs)[..|cs| - 1] == RowAbs(init);
    }
  }

  /** Every value on the heap has its maps in key order, as the codec needs it. */
  lemma {:induction false} HeapValuesOrdered(c: Cell)
    requires CellValid(c)
    ensures Ordered(AbsOf(c))
    decreases OwnOf(c), 1
  {
    if c.m_data.AsPtr? {
      var p := c.m_data.p;
      RowOrdered(KidsOf(p.contents));
    }
  }

  lemma {:induction false} RowOrdered(cs: seq<Cell>)
    requires RowValid(cs)
    ensures OrderedItems(RowAbs(cs))
    decreases AllOwn(cs), 2 + |cs|
  {
    if cs != [] {
      var init, last := cs[..|cs| - 1], cs[|cs| - 1];
      RowLast(cs);
      RowOrdered(init);
      HeapValuesOrdered(last);
    }
  }

  /** Whatever a variant owns survives the byte array, exactly when its lengths fit. */
  lemma HeapRoundTrip(c: Cell, p: seq<Byte>, s: seq<Byte>)
    requires CellValid(c)
    ensures Dec(p + Enc(AbsOf(c)) + s, |p|) == Done(AbsOf(c), |p| + |Enc(AbsOf(c))|) <==> Fits(AbsOf(c))
  {
    hide CellValid, Ordered, Fits, AbsOf;
    HeapValuesOrdered(c);
    RoundTrip(p, AbsOf(c), s);
  }
}
