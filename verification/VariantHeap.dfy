/**
 `Variant` as an owning tagged union: the tag says whether the data is a scalar or points to an
 allocated string, list or map. The elements of a container are variants stored inline in it,
 so an allocation is the only object that can be shared or lost.

 A ghost heap records the allocations not freed yet. Only the constructor of an allocation adds to
 it and only `Delete` takes from it, so what is allocated and lost stays there.
 */
module VariantHeap {
  import opened Wrappers
  import opened Bytes
  import opened OrderedMap
  import opened VariantValue

  /** The union: all bytes zero, one of the scalars, or a pointer. */
  datatype Data = Zero | AsBool(b: bool) | AsInt(i: Int32) | AsReal(bits: Bits64) | AsPtr(p: Payload)

  /** The two fields of a variant. */
  datatype Cell = Cell(m_type: Type, m_data: Data)

  /** What an allocation holds; the elements of a map stand in the order of their keys. */
  datatype Contents =
    | Text(s: seq<Byte>)
    | Elements(kids: seq<Cell>)
    | Dictionary(keys: seq<Key>, kids: seq<Cell>)

  function KidsOf(c: Contents): seq<Cell> {
    match c
    case Text(_) => []
    case Elements(kids) => kids
    case Dictionary(_, kids) => kids
  }

  function KindOf(c: Contents): Type {
    match c
    case Text(_) => Type_String
    case Elements(_) => Type_List
    case Dictionary(_, _) => Type_Map
  }

  /** The same contents with other elements. */
  function WithKids(c: Contents, kids: seq<Cell>): (r: Contents)
    requires |kids| == |KidsOf(c)|
    ensures KidsOf(r) == kids && KindOf(r) == KindOf(c)
  {
    match c
    case Text(s) => c
    case Elements(_) => Elements(kids)
    case Dictionary(keys, _) => Dictionary(keys, kids)
  }

  /** The scalar a tag and the data stand for, if they agree; zero bytes read as zero. */
  function ScalarOf(t: Type, d: Data): Option<Value> {
    match (t, d)
    case (Type_Invalid, Zero) => Some(Invalid)
    case (Type_Null, Zero) => Some(Null)
    case (Type_Boolean, Zero) => Some(Boolean(false))
    case (Type_Boolean, AsBool(b)) => Some(Boolean(b))
    case (Type_Integer, Zero) => Some(Integer(0))
    case (Type_Integer, AsInt(i)) => Some(Integer(i))
    case (Type_Real, Zero) => Some(Real([0, 0, 0, 0, 0, 0, 0, 0]))
    case (Type_Real, AsReal(bits)) => Some(Real(bits))
    case _ => None
  }

  predicate AscendingKeys(keys: seq<Key>) {
    forall i, j :: 0 <= i < j < |keys| ==> KeyLess(keys[i], keys[j])
  }

  function Zip(keys: seq<Key>, vs: seq<Value>): (es: seq<Entry<Value>>)
    requires |keys| == |vs|
    ensures |es| == |keys| && forall k | 0 <= k < |keys| :: es[k] == Entry(keys[k], vs[k])
  {
    seq(|keys|, k requires 0 <= k < |keys| == |vs| => Entry(keys[k], vs[k]))
  }

  /** The value of contents whose elements have the values `vs`. */
  function ValueOf(c: Contents, vs: seq<Value>): Option<Value> {
    match c
    case Text(s) => if vs == [] then Some(String(s)) else None
    case Elements(kids) => if |vs| == |kids| then Some(List(vs)) else None
    case Dictionary(keys, kids) =>
      if |vs| == |kids| == |keys| && AscendingKeys(keys)
      then Some(Map(Zip(keys, vs)))
      else None
  }

  lemma WithKidsValue(c: Contents, kids: seq<Cell>, vs: seq<Value>)
    requires |kids| == |KidsOf(c)|
    ensures ValueOf(WithKids(c, kids), vs) == ValueOf(c, vs)
  {
  }

  /** The allocations made and not freed yet. */
  class Heap {
    ghost var live: set<Payload>

    ghost constructor ()
      ensures live == {}
    {
      live := {};
    }
  }

  /** One allocation made with `new`: a string, a list or a map. */
  class Payload {
    var contents: Contents
    ghost var Own: set<Payload>   // this allocation and all below it
    ghost var Abs: Value          // the value it stands for

    constructor (c: Contents, ghost heap: Heap)
      modifies heap
      ensures contents == c
      ensures heap.live == old(heap.live) + {this} && this !in old(heap.live)
    {
      contents := c;
      new;
      heap.live := heap.live + {this};
    }

    /** Everything below is owned exactly once, and all tags agree with their data. */
    ghost predicate Valid()
      reads this, Own
      ensures Valid() ==> this in Own
      decreases Own, 0
    {
      && this in Own
      && var kids := KidsOf(contents);
         && Roots(kids) <= Own
         && this !in AllOwn(kids)
         && Own == {this} + AllOwn(kids)
         && RowValid(kids)
         && ValueOf(contents, RowAbs(kids)) == Some(Abs)
    }
  }

  // ---- one variant and rows of variants ------------------------------------

  function Root(c: Cell): set<Payload> {
    if c.m_data.AsPtr? then {c.m_data.p} else {}
  }

  /** The allocations that belong to the variant. */
  ghost function OwnOf(c: Cell): set<Payload>
    reads Root(c)
  {
    if c.m_data.AsPtr? then c.m_data.p.Own else {}
  }

  ghost function AbsOf(c: Cell): Value
    reads Root(c)
  {
    if c.m_data.AsPtr? then c.m_data.p.Abs
    else
      match ScalarOf(c.m_type, c.m_data)
      case Some(v) => v
      case None => Invalid
  }

  /** Tag and data agree. */
  ghost predicate CellValid(c: Cell)
    reads Root(c), OwnOf(c)
    ensures CellValid(c) ==> Root(c) <= OwnOf(c)
    decreases OwnOf(c), 1
  {
    if c.m_data.AsPtr? then c.m_data.p.Valid() && KindOf(c.m_data.p.contents) == c.m_type
    else ScalarOf(c.m_type, c.m_data).Some?
  }

  function Roots(cs: seq<Cell>): set<Payload> {
    if cs == [] then {} else Roots(cs[..|cs| - 1]) + Root(cs[|cs| - 1])
  }

  ghost function AllOwn(cs: seq<Cell>): set<Payload>
    reads Roots(cs)
  {
    if cs == [] then {} else AllOwn(cs[..|cs| - 1]) + OwnOf(cs[|cs| - 1])
  }

  ghost function RowAbs(cs: seq<Cell>): (vs: seq<Value>)
    reads Roots(cs)
    ensures |vs| == |cs|
  {
    if cs == [] then [] else RowAbs(cs[..|cs| - 1]) + [AbsOf(cs[|cs| - 1])]
  }

  /** Valid variants next to each other that share nothing. */
  ghost predicate RowValid(cs: seq<Cell>)
    reads Roots(cs), AllOwn(cs)
    ensures RowValid(cs) ==> Roots(cs) <= AllOwn(cs)
    decreases AllOwn(cs), 2 + |cs|
  {
    cs == [] ||
    (var init, last := cs[..|cs| - 1], cs[|cs| - 1];
     RowValid(init) && CellValid(last) && OwnOf(last) !! AllOwn(init))
  }

  lemma RowLast(cs: seq<Cell>)
    requires RowValid(cs) && cs != []
    ensures var init, last := cs[..|cs| - 1], cs[|cs| - 1];
            && RowValid(init) && CellValid(last) && OwnOf(last) !! AllOwn(init)
            && AllOwn(cs) == AllOwn(init) + OwnOf(last)
            && RowAbs(cs) == RowAbs(init) + [AbsOf(last)]
  {
  }

  // ---- who owns what and stands for what -----------------------------------

  /** The variant owns exactly `own` and has the value `v`. */
  ghost predicate CellHolds(c: Cell, own: set<Payload>, v: Value)
    reads own
  {
    Root(c) <= own && OwnOf(c) == own && CellValid(c) && AbsOf(c) == v
  }

  ghost predicate RowHolds(cs: seq<Cell>, own: set<Payload>, vs: seq<Value>)
    reads own
  {
    Roots(cs) <= own && AllOwn(cs) == own && RowValid(cs) && RowAbs(cs) == vs
  }

  /** The same for contents, without the allocation they stand in. */
  ghost predicate ContentsHold(c: Contents, own: set<Payload>, vs: seq<Value>, v: Value)
    reads own
  {
    RowHolds(KidsOf(c), own, vs) && ValueOf(c, vs) == Some(v)
  }

  ghost predicate PayloadHolds(p: Payload, own: set<Payload>, v: Value)
    reads own
  {
    p in own && p.Own == own && p.Valid() && p.Abs == v
  }

  lemma OwnOfHeld(c: Cell, own: set<Payload>, v: Value)
    requires CellHolds(c, own, v)
    ensures OwnOf(c) == own
  {
  }

  lemma CellOfPayload(t: Type, p: Payload, own: set<Payload>, v: Value)
    requires PayloadHolds(p, own, v) && KindOf(p.contents) == t
    ensures CellHolds(Cell(t, AsPtr(p)), own, v)
  {
  }

  lemma PayloadOfCell(c: Cell, own: set<Payload>, v: Value)
    requires CellHolds(c, own, v) && c.m_data.AsPtr?
    ensures PayloadHolds(c.m_data.p, own, v) && KindOf(c.m_data.p.contents) == c.m_type
  {
  }

  /** A variant without an allocation. */
  lemma CellOfScalar(c: Cell, own: set<Payload>, v: Value)
    requires !c.m_data.AsPtr?
    ensures CellHolds(c, own, v) <==> own == {} && ScalarOf(c.m_type, c.m_data) == Some(v)
  {
  }

  /** What an allocation has below it. */
  lemma Inside(p: Payload, own: set<Payload>, v: Value)
    returns (below: set<Payload>, vs: seq<Value>)
    requires PayloadHolds(p, own, v)
    ensures ContentsHold(p.contents, below, vs, v) && p !in below && own == {p} + below
  {
    below, vs := AllOwn(KidsOf(p.contents)), RowAbs(KidsOf(p.contents));
  }

  lemma PayloadIsContainer(p: Payload, own: set<Payload>, v: Value)
    requires PayloadHolds(p, own, v)
    ensures TypeOf(v) == KindOf(p.contents) && (v.String? || v.List? || v.Map?)
  {
    var below, vs := Inside(p, own, v);
  }

  /** The tag of a variant is the type of its value. */
  lemma TagIsType(c: Cell, own: set<Payload>, v: Value)
    requires CellHolds(c, own, v)
    ensures c.m_type == TypeOf(v)
  {
    if c.m_data.AsPtr? {
      PayloadOfCell(c, own, v);
      PayloadIsContainer(c.m_data.p, own, v);
    }
  }

  lemma RowFront(cs: seq<Cell>, own: set<Payload>, vs: seq<Value>)
    returns (front: set<Payload>, us: seq<Value>, back: set<Payload>, v: Value)
    requires RowHolds(cs, own, vs) && cs != []
    ensures RowHolds(cs[..|cs| - 1], front, us) && CellHolds(cs[|cs| - 1], back, v)
    ensures front !! back && own == front + back && vs == us + [v]
  {
    var init, last := cs[..|cs| - 1], cs[|cs| - 1];
    front, us, back, v := AllOwn(init), RowAbs(init), OwnOf(last), AbsOf(last);
  }

  lemma RowBack(cs: seq<Cell>, own: set<Payload>, vs: seq<Value>, c: Cell, more: set<Payload>, v: Value)
    requires RowHolds(cs, own, vs) && CellHolds(c, more, v) && own !! more
    ensures RowHolds(cs + [c], own + more, vs + [v])
  {
    assert (cs + [c])[..|cs|] == cs;
  }

  lemma {:induction false} RowConcat(cs: seq<Cell>, ds: seq<Cell>)
    ensures RowValid(cs + ds) <==> RowValid(cs) && RowValid(ds) && AllOwn(cs) !! AllOwn(ds)
    ensures AllOwn(cs + ds) == AllOwn(cs) + AllOwn(ds)
    ensures RowAbs(cs + ds) == RowAbs(cs) + RowAbs(ds)
    ensures Roots(cs + ds) == Roots(cs) + Roots(ds)
  {
    if ds == [] {
      assert cs + ds == cs;
    } else {
      var init, last := ds[..|ds| - 1], ds[|ds| - 1];
      assert (cs + ds)[..|cs + ds| - 1] == cs + init;
      RowConcat(cs, init);
    }
  }

  /** Variants side by side. */
  lemma RowSplit(cs: seq<Cell>, ds: seq<Cell>, own: set<Payload>, all: seq<Value>)
    returns (front: set<Payload>, vs: seq<Value>, back: set<Payload>, us: seq<Value>)
    requires RowHolds(cs + ds, own, all)
    ensures RowHolds(cs, front, vs) && RowHolds(ds, back, us)
    ensures front !! back && own == front + back && all == vs + us
    ensures |vs| == |cs| && |us| == |ds|
  {
    RowConcat(cs, ds);
    front, vs, back, us := AllOwn(cs), RowAbs(cs), AllOwn(ds), RowAbs(ds);
  }

  lemma RowJoin(cs: seq<Cell>, front: set<Payload>, vs: seq<Value>, ds: seq<Cell>, back: set<Payload>, us: seq<Value>)
    requires RowHolds(cs, front, vs) && RowHolds(ds, back, us) && front !! back
    ensures RowHolds(cs + ds, front + back, vs + us)
  {
    RowConcat(cs, ds);
  }

  lemma RowOne(c: Cell, own: set<Payload>, vs: seq<Value>)
    requires RowHolds([c], own, vs)
    ensures |vs| == 1 && CellHolds(c, own, vs[0])
  {
    assert [c][..0] == [];
  }

  /** One element and its neighbours. */
  lemma RowAround(cs: seq<Cell>, c: Cell, ds: seq<Cell>, own: set<Payload>, all: seq<Value>)
    returns (front: set<Payload>, vs: seq<Value>, mid: set<Payload>, v: Value, back: set<Payload>, us: seq<Value>)
    requires RowHolds(cs + [c] + ds, own, all)
    ensures RowHolds(cs, front, vs) && CellHolds(c, mid, v) && RowHolds(ds, back, us)
    ensures front !! mid && front + mid !! back && own == front + mid + back
    ensures all == vs + [v] + us && |vs| == |cs| && |us| == |ds|
  {
    hide *;
    var both, ws;
    both, ws, back, us := RowSplit(cs + [c], ds, own, all);
    var one;
    front, vs, mid, one := RowSplit(cs, [c], both, ws);
    RowOne(c, mid, one);
    v := one[0];
    assert one == [v];
  }

  /** Two elements of a row share nothing. */
  lemma RowPickTwo(cs: seq<Cell>, own: set<Payload>, vs: seq<Value>, i: nat, j: nat)
    returns (mine: set<Payload>, theirs: set<Payload>)
    requires RowHolds(cs, own, vs) && i < |cs| && j < |cs|
    ensures |vs| == |cs| && mine + theirs <= own
    ensures CellHolds(cs[i], mine, vs[i]) && CellHolds(cs[j], theirs, vs[j])
    ensures if i == j then mine == theirs else mine !! theirs
  {
    hide RowHolds, CellHolds;
    assert cs == cs[..i] + [cs[i]] + cs[i + 1..];
    var front, us, mid, v, back, ws := RowAround(cs[..i], cs[i], cs[i + 1..], own, vs);
    mine := mid;
    if j < i {
      theirs := RowPick(cs[..i], front, us, j);
    } else if j > i {
      theirs := RowPick(cs[i + 1..], back, ws, j - i - 1);
    } else {
      theirs := mine;
    }
  }

  lemma RowPick(cs: seq<Cell>, own: set<Payload>, vs: seq<Value>, i: nat) returns (mine: set<Payload>)
    requires RowHolds(cs, own, vs) && i < |cs|
    ensures |vs| == |cs| && mine <= own && CellHolds(cs[i], mine, vs[i])
  {
    hide RowHolds, CellHolds;
    assert cs == cs[..i] + [cs[i]] + cs[i + 1..];
    var front, us, mid, v, back, ws := RowAround(cs[..i], cs[i], cs[i + 1..], own, vs);
    mine := mid;
  }

  lemma RowTogether(cs: seq<Cell>, front: set<Payload>, vs: seq<Value>, c: Cell, mid: set<Payload>, v: Value,
    ds: seq<Cell>, back: set<Payload>, us: seq<Value>)
    requires RowHolds(cs, front, vs) && CellHolds(c, mid, v) && RowHolds(ds, back, us)
    requires front !! mid && front + mid !! back
    ensures RowHolds(cs + [c] + ds, front + mid + back, vs + [v] + us)
  {
    hide *;
    RowBack(cs, front, vs, c, mid, v);
    RowJoin(cs + [c], front + mid, vs + [v], ds, back, us);
  }

  // ---- the balance of allocations ------------------------------------------

  /** `more` belonged to nobody and is live now. */
  ghost predicate Added(live: set<Payload>, live': set<Payload>, more: set<Payload>) {
    live' == live + more && more !! live
  }

  /** One owner gave up `before` and has `after` now; what is new in it belonged to nobody. */
  ghost predicate Exchanged(live: set<Payload>, live': set<Payload>, before: set<Payload>, after: set<Payload>) {
    live' == live - before + after && (after - before) !! live
  }

  // ---- allocating, copying and destroying ----------------------------------

  /** Writes contents into an allocation that is no part of them. */
  method Fill(p: Payload, c: Contents, ghost below: set<Payload>, ghost vs: seq<Value>, ghost v: Value)
    requires ContentsHold(c, below, vs, v) && p !in below
    modifies p
    ensures PayloadHolds(p, {p} + below, v) && p.contents == c
  {
    p.contents := c;
    p.Own, p.Abs := {p} + below, v;
    assert ContentsHold(c, below, vs, v);
  }

  method NewPayload(c: Contents, ghost below: set<Payload>, ghost vs: seq<Value>, ghost v: Value, ghost heap: Heap)
    returns (p: Payload)
    requires ContentsHold(c, below, vs, v) && below <= heap.live
    modifies heap
    ensures fresh(p) && PayloadHolds(p, {p} + below, v) && p.contents == c
    ensures Added(old(heap.live), heap.live, {p})
  {
    p := new Payload(c, heap);
    hide ContentsHold, PayloadHolds;
    Fill(p, c, below, vs, v);
  }

  /** Only a live allocation may be freed, and it is not live afterwards. */
  method Delete(p: Payload, ghost heap: Heap)
    requires p in heap.live
    modifies heap
    ensures heap.live == old(heap.live) - {p}
  {
    heap.live := heap.live - {p};
  }

  /** `new` of a string, list or map from another one. */
  method CopyPayload(c: Contents, ghost own: set<Payload>, ghost vs: seq<Value>, ghost v: Value, ghost heap: Heap)
    returns (p: Payload, ghost more: set<Payload>)
    requires ContentsHold(c, own, vs, v) && own <= heap.live
    modifies heap
    ensures ContentsHold(c, own, vs, v)
    ensures PayloadHolds(p, more, v) && KindOf(p.contents) == KindOf(c)
    ensures Added(old(heap.live), heap.live, more) && fresh(more)
    decreases own, 2 * |KidsOf(c)| + 3
  {
    hide RowHolds, PayloadHolds, ValueOf, KindOf, KidsOf;
    var kids;
    ghost var below;
    kids, below := CopyRow(KidsOf(c), own, vs, heap);
    WithKidsValue(c, kids, vs);
    p := NewPayload(WithKids(c, kids), below, vs, v, heap);
    more := {p} + below;
  }

  /** The copy constructor: equal value in new allocations. */
  method CopyCell(c: Cell, ghost own: set<Payload>, ghost v: Value, ghost heap: Heap)
    returns (d: Cell, ghost more: set<Payload>)
    requires CellHolds(c, own, v) && own <= heap.live
    modifies heap
    ensures CellHolds(c, own, v)
    ensures CellHolds(d, more, v) && d.m_type == c.m_type
    ensures Added(old(heap.live), heap.live, more) && fresh(more)
    decreases own, 1
  {
    hide CellHolds, ContentsHold, PayloadHolds;
    match c.m_data {
      case AsPtr(p) =>
        PayloadOfCell(c, own, v);
        ghost var below, vs := Inside(p, own, v);
        var q;
        q, more := CopyPayload(p.contents, below, vs, v, heap);
        d := Cell(c.m_type, AsPtr(q));
        CellOfPayload(c.m_type, q, more, v);
      case _ =>
        CellOfScalar(c, own, v);
        d, more := c, {};
    }
  }

  /** Copies the elements of a container in order. */
  method CopyRow(cs: seq<Cell>, ghost own: set<Payload>, ghost vs: seq<Value>, ghost heap: Heap)
    returns (ds: seq<Cell>, ghost more: set<Payload>)
    requires RowHolds(cs, own, vs) && own <= heap.live
    modifies heap
    ensures RowHolds(cs, own, vs)
    ensures RowHolds(ds, more, vs) && |ds| == |cs|
    ensures Added(old(heap.live), heap.live, more) && fresh(more)
    decreases own, 2 * |cs| + 2
  {
    if cs == [] {
      ds, more := [], {};
    } else {
      ghost var front, us, back, v := RowFront(cs, own, vs);
      ds, more := CopyFrontAndLast(cs[..|cs| - 1], front, us, cs[|cs| - 1], back, v, heap);
    }
  }

  method CopyFrontAndLast(cs: seq<Cell>, ghost own: set<Payload>, ghost vs: seq<Value>,
    c: Cell, ghost last: set<Payload>, ghost v: Value, ghost heap: Heap)
    returns (ds: seq<Cell>, ghost more: set<Payload>)
    requires RowHolds(cs, own, vs) && CellHolds(c, last, v) && own + last <= heap.live
    modifies heap
    ensures RowHolds(cs, own, vs) && CellHolds(c, last, v)
    ensures RowHolds(ds, more, vs + [v]) && |ds| == |cs| + 1
    ensures Added(old(heap.live), heap.live, more) && fresh(more)
    decreases own + last, 2 * |cs| + 3
  {
    hide RowHolds, CellHolds;
    var d;
    ghost var most, rest;
    ds, most := CopyRow(cs, own, vs, heap);
    d, rest := CopyCell(c, last, v, heap);
    RowBack(ds, most, vs, d, rest, v);
    ds, more := ds + [d], most + rest;
  }

  /** The destructor of a variant frees everything below it. */
  method DestroyCell(c: Cell, ghost own: set<Payload>, ghost v: Value, ghost heap: Heap)
    requires CellHolds(c, own, v) && own <= heap.live
    modifies heap
    ensures heap.live == old(heap.live) - own
    decreases own, 1
  {
    hide CellHolds, ContentsHold, PayloadHolds;
    if c.m_data.AsPtr? {
      var p := c.m_data.p;
      PayloadOfCell(c, own, v);
      ghost var below, vs := Inside(p, own, v);
      DestroyRow(KidsOf(p.contents), below, vs, heap);
      Delete(p, heap);
    } else {
      CellOfScalar(c, own, v);
    }
  }

  method DestroyRow(cs: seq<Cell>, ghost own: set<Payload>, ghost vs: seq<Value>, ghost heap: Heap)
    requires RowHolds(cs, own, vs) && own <= heap.live
    modifies heap
    ensures heap.live == old(heap.live) - own
    decreases own, 2 + |cs|
  {
    if cs != [] {
      hide *;
      ghost var front, us, back, v := RowFront(cs, own, vs);
      DestroyRow(cs[..|cs| - 1], front, us, heap);
      DestroyCell(cs[|cs| - 1], back, v, heap);
    }
  }

  /** Assigning to a string, a list or a map: the allocation stays, its old elements go. */
  method Refill(p: Payload, ghost own: set<Payload>, ghost v: Value,
    c: Contents, ghost theirs: set<Payload>, ghost ws: seq<Value>, ghost w: Value, ghost heap: Heap)
    returns (ghost own': set<Payload>)
    requires PayloadHolds(p, own, v) && ContentsHold(c, theirs, ws, w) && own !! theirs
    requires own + theirs <= heap.live
    modifies p, heap
    ensures ContentsHold(c, theirs, ws, w)
    ensures PayloadHolds(p, own', w) && KindOf(p.contents) == KindOf(c)
    ensures Exchanged(old(heap.live), heap.live, own, own') && fresh(own' - own)
  {
    hide RowHolds, PayloadHolds, KindOf, KidsOf, ValueOf;
    ghost var below, vs := Inside(p, own, v);
    DestroyRow(KidsOf(p.contents), below, vs, heap);
    var kids;
    ghost var more;
    kids, more := CopyRow(KidsOf(c), theirs, ws, heap);
    WithKidsValue(c, kids, ws);
    Fill(p, WithKids(c, kids), more, ws, w);
    own' := {p} + more;
  }

  // ---- the class -----------------------------------------------------------

  /** The value a type starts with: zero, or an empty container. */
  function DefaultOf(t: Type): Value {
    match t
    case Type_Invalid => Invalid
    case Type_Null => Null
    case Type_Boolean => Boolean(false)
    case Type_Integer => Integer(0)
    case Type_Real => Real([0, 0, 0, 0, 0, 0, 0, 0])
    case Type_String => String([])
    case Type_List => List([])
    case Type_Map => Map([])
  }

  /** What a container type starts with. */
  function EmptyContents(t: Type): Option<Contents> {
    match t
    case Type_String => Some(Text([]))
    case Type_List => Some(Elements([]))
    case Type_Map => Some(Dictionary([], []))
    case _ => None
  }

  lemma EmptyHolds(t: Type)
    ensures match EmptyContents(t)
            case Some(c) => ContentsHold(c, {}, [], DefaultOf(t)) && KindOf(c) == t
            case None => CellHolds(Cell(t, Zero), {}, DefaultOf(t))
  {
  }

  /** A variant with a place of its own; the variants inside containers are bare cells. */
  class Variant {
    var m_type: Type
    var m_data: Data

    function ToCell(): Cell
      reads this
    {
      Cell(m_type, m_data)
    }

    /** The variant owns exactly `own` and has the value `v`. */
    ghost predicate Holds(own: set<Payload>, v: Value)
      reads this, own
    {
      CellHolds(ToCell(), own, v)
    }

    constructor ()
      ensures Holds({}, Invalid)
    {
      m_type, m_data := Type_Invalid, Zero;
    }

    /** The variant that is stored in a cell of a container. */
    constructor At(c: Cell)
      ensures ToCell() == c
    {
      m_type, m_data := c.m_type, c.m_data;
    }

    ghost function Own(): set<Payload>
      reads this, Root(ToCell())
    {
      OwnOf(ToCell())
    }

    constructor OfType(t: Type, ghost heap: Heap)
      modifies heap
      ensures Holds(Own(), DefaultOf(t)) && fresh(Own()) && m_type == t
      ensures Holds(Own(),
                match t
                case Type_Invalid => Invalid
                case Type_Null => Null
                case Type_Boolean => Boolean(false)
                case Type_Integer => Integer(0)
                case Type_Real => Real([0, 0, 0, 0, 0, 0, 0, 0])
                case Type_String => String([])
                case Type_List => List([])
                case Type_Map => Map([]))
      ensures Added(old(heap.live), heap.live, Own())
    {
      m_type, m_data := t, Zero;
      new;
      ghost var own := InitializeType(heap);
    }

    constructor Copy(variant: Variant, ghost own: set<Payload>, ghost v: Value, ghost heap: Heap)
      requires variant.Holds(own, v) && own <= heap.live
      modifies heap
      ensures variant.Holds(own, v)
      ensures Holds(Own(), v) && fresh(Own())
      ensures Added(old(heap.live), heap.live, Own())
    {
      m_type, m_data := variant.m_type, Zero;
      new;
      ghost var more := InitFrom(variant, own, v, heap);
    }

    /** `Variant(bool)`, `Variant(int)` and `Variant(double)`. */
    constructor OfScalar(t: Type, d: Data)
      requires d != Zero && !d.AsPtr? && ScalarOf(t, d).Some?
      ensures Holds({}, ScalarOf(t, d).value) && m_type == t
      ensures d.AsBool? ==> Holds({}, Boolean(d.b))
      ensures d.AsInt? ==> Holds({}, Integer(d.i))
      ensures d.AsReal? ==> Holds({}, Real(d.bits))
    {
      m_type, m_data := t, d;
    }

    /** `Variant(const std::string&)`, `Variant(const VariantList&)` and `Variant(const VariantMap&)`. */
    constructor OfContents(c: Contents, ghost own: set<Payload>, ghost vs: seq<Value>, ghost v: Value, ghost heap: Heap)
      requires ContentsHold(c, own, vs, v) && own <= heap.live
      modifies heap
      ensures ContentsHold(c, own, vs, v)
      ensures Holds(Own(), v) && fresh(Own()) && m_type == KindOf(c)
      ensures Added(old(heap.live), heap.live, Own())
    {
      m_type, m_data := KindOf(c), Zero;
      new;
      ghost var more := Allocate(c, own, vs, v, heap);
    }

    method InitializeType(ghost heap: Heap) returns (ghost own: set<Payload>)
      requires m_data == Zero
      modifies this`m_data, heap
      ensures Holds(own, DefaultOf(m_type)) && fresh(own)
      ensures |own| == if m_type == Type_String || m_type == Type_List || m_type == Type_Map then 1 else 0
      ensures Added(old(heap.live), heap.live, own)
    {
      EmptyHolds(m_type);
      own := {};
      match EmptyContents(m_type) {
        case Some(c) =>
          var p := NewPayload(c, {}, [], DefaultOf(m_type), heap);
          m_data := AsPtr(p);
          own := {p};
          CellOfPayload(m_type, p, own, DefaultOf(m_type));
        case None =>
      }
    }

    method InitFrom(variant: Variant, ghost own: set<Payload>, ghost v: Value, ghost heap: Heap)
      returns (ghost more: set<Payload>)
      requires variant != this && variant.Holds(own, v) && own <= heap.live
      requires m_type == variant.m_type
      modifies this`m_data, heap
      ensures variant.Holds(own, v)
      ensures Holds(more, v) && fresh(more)
      ensures Added(old(heap.live), heap.live, more)
    {
      hide CellHolds;
      var d;
      d, more := CopyCell(variant.ToCell(), own, v, heap);
      m_data := d.m_data;
    }

    /** `m_data.ptr = new ...` with the contents of another string, list or map. */
    method Allocate(c: Contents, ghost own: set<Payload>, ghost vs: seq<Value>, ghost v: Value, ghost heap: Heap)
      returns (ghost more: set<Payload>)
      requires ContentsHold(c, own, vs, v) && own <= heap.live && m_type == KindOf(c)
      modifies this`m_data, heap
      ensures ContentsHold(c, own, vs, v)
      ensures Holds(more, v) && fresh(more)
      ensures Added(old(heap.live), heap.live, more)
    {
      hide ContentsHold, CellHolds, PayloadHolds, KindOf;
      var p;
      p, more := CopyPayload(c, own, vs, v, heap);
      m_data := AsPtr(p);
      CellOfPayload(m_type, p, more, v);
    }

    /** Frees the data and makes the variant invalid. */
    method Clear(ghost own: set<Payload>, ghost v: Value, ghost heap: Heap)
      requires Holds(own, v) && own <= heap.live
      modifies this, heap
      ensures ToCell() == Cell(Type_Invalid, Zero) && Holds({}, Invalid)
      ensures heap.live == old(heap.live) - own
    {
      DestroyCell(ToCell(), own, v, heap);
      m_data := Zero;
      m_type := Type_Invalid;
    }

    /** `operator=(const Variant&)`. */
    method Assign(ghost own: set<Payload>, ghost v: Value,
      variant: Variant, ghost theirs: set<Payload>, ghost w: Value, ghost heap: Heap)
      returns (ghost own': set<Payload>)
      requires Holds(own, v) && variant.Holds(theirs, w) && own + theirs <= heap.live
      requires variant != this ==> own !! theirs
      modifies this, heap
      ensures Holds(own', w) && fresh(own' - own)
      ensures variant != this ==> variant.Holds(theirs, w)
      ensures Exchanged(old(heap.live), heap.live, own, own')
    {
      own' := own;
      if this != variant {
        hide CellHolds;
        Clear(own, v, heap);
        m_type := variant.m_type;
        own' := InitFrom(variant, theirs, w, heap);
      }
    }

    /** `operator=` for a scalar `d` of type `t`. */
    method AssignScalar(ghost own: set<Payload>, ghost v: Value, t: Type, d: Data, ghost heap: Heap)
      requires Holds(own, v) && own <= heap.live
      requires d != Zero && !d.AsPtr? && ScalarOf(t, d).Some?
      modifies this, heap
      ensures Holds({}, ScalarOf(t, d).value) && m_type == t
      ensures d.AsBool? ==> Holds({}, Boolean(d.b))
      ensures d.AsInt? ==> Holds({}, Integer(d.i))
      ensures d.AsReal? ==> Holds({}, Real(d.bits))
      ensures heap.live == old(heap.live) - own
    {
      if m_type != t {
        Clear(own, v, heap);
        m_type := t;
      }
      m_data := d;
    }

    /**
     `operator=` for a string, a list or a map: a variant of the same type keeps its allocation
     and has the contents replaced, any other one is cleared and allocates.
     */
    method AssignContents(ghost own: set<Payload>, ghost v: Value,
      c: Contents, ghost theirs: set<Payload>, ghost ws: seq<Value>, ghost w: Value, ghost heap: Heap)
      returns (ghost own': set<Payload>)
      requires Holds(own, v) && ContentsHold(c, theirs, ws, w) && own !! theirs
      requires own + theirs <= heap.live
      modifies this, own, heap
      ensures ContentsHold(c, theirs, ws, w)
      ensures Holds(own', w) && m_type == KindOf(c) && fresh(own' - own)
      ensures Exchanged(old(heap.live), heap.live, own, own')
      ensures old(m_type) == KindOf(c) ==> m_data == old(m_data)
    {
      hide ContentsHold, PayloadHolds;
      if m_type != KindOf(c) {
        hide CellHolds, KindOf;
        Clear(own, v, heap);
        m_type := KindOf(c);
        own' := Allocate(c, theirs, ws, w, heap);
      } else {
        assert m_data.AsPtr?;
        PayloadOfCell(ToCell(), own, v);
        hide CellHolds, KindOf;
        own' := Refill(m_data.p, own, v, c, theirs, ws, w, heap);
        CellOfPayload(m_type, m_data.p, own', w);
      }
    }
  }
}
