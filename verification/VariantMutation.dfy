/**
 What a program can do to a variant, in place and any number of levels down, through `operator=`,
 `clear`, `string()`, `list()` and `map()`.
 */
module VariantMutation {
  import opened Wrappers
  import opened Bytes
  import opened OrderedMap
  import opened VariantValue
  import opened VariantHeap

  // ---- operations on independent values ------------------------------------

  /** An operation on one variant, perhaps with the help of a second one. */
  datatype Op =
    | Clear                        // clear()
    | SetScalar(t: Type, d: Data)  // operator=(bool), (int), (double)
    | SetText(s: seq<Byte>)        // operator=(const std::string&)
    | Set                          // operator=(const Variant&)
    | SetContents                  // operator= of the other's string(), list() or map()
    | Push                         // list().push_back(...)
    | SetEntry(key: Key)           // map()[key] = ...
    | Touch(key: Key)              // map()[key], which inserts an invalid variant if there is none

  /** The operation reads the second variant. */
  predicate UsesSource(op: Op) {
    op.Set? || op.SetContents? || op.Push? || op.SetEntry?
  }

  predicate Allowed(op: Op, x: Value, w: Value) {
    match op
    case Clear => true
    case SetScalar(t, d) => d != Zero && !d.AsPtr? && ScalarOf(t, d).Some?
    case SetText(_) => true
    case Set => true
    case SetContents => w.String? || w.List? || w.Map?
    case Push => x.List?
    case SetEntry(_) => x.Map?
    case Touch(_) => x.Map?
  }

  /** The meaning of an operation on `x` with the help of `w`. */
  function Effect(op: Op, x: Value, w: Value): Value
    requires Allowed(op, x, w)
  {
    match op
    case Clear => Invalid
    case SetScalar(t, d) => ScalarOf(t, d).value
    case SetText(s) => String(s)
    case Set => w
    case SetContents => w
    case Push => List(x.items + [w])
    case SetEntry(key) => Map(Put(x.entries, key, w))
    case Touch(key) =>
      if exists e | e in x.entries :: e.key == key then x else Map(Put(x.entries, key, Invalid))
  }

  function ElementsOf(v: Value): seq<Value> {
    match v
    case List(items) => items
    case Map(entries) => seq(|entries|, k requires 0 <= k < |entries| => entries[k].val)
    case _ => []
  }

  function WithElements(v: Value, vs: seq<Value>): Value
    requires |vs| == |ElementsOf(v)|
  {
    match v
    case List(_) => List(vs)
    case Map(entries) => Map(Zip(seq(|entries|, k requires 0 <= k < |entries| => entries[k].key), vs))
    case _ => v
  }

  /** Positions to follow from a value down to a nested one. */
  predicate IsPath(v: Value, path: seq<nat>) {
    path == [] || (path[0] < |ElementsOf(v)| && IsPath(ElementsOf(v)[path[0]], path[1..]))
  }

  /** The value with `w` in the place the path leads to. */
  function ReplaceAt(v: Value, path: seq<nat>, w: Value): Value
    requires IsPath(v, path)
    decreases path
  {
    if path == [] then w
    else
      var vs := ElementsOf(v);
      WithElements(v, vs[path[0] := ReplaceAt(vs[path[0]], path[1..], w)])
  }

  /** The nested value the path leads to. */
  function ValueAt(v: Value, path: seq<nat>): Value
    requires IsPath(v, path)
    decreases path
  {
    if path == [] then v else ValueAt(ElementsOf(v)[path[0]], path[1..])
  }

  /** Two places of which none is inside the other. */
  predicate Apart(path: seq<nat>, from: seq<nat>) {
    !(path <= from) && !(from <= path)
  }

  /**
   The places in one variant that an operation on the first can read the second from. A push copies
   before it changes anything; the other operations free or overwrite the target before they read.
   */
  predicate Compatible(op: Op, path: seq<nat>, from: seq<nat>) {
    op.Push? || Apart(path, from) || (path == from && (op.Set? || op.SetContents?))
  }

  lemma CompatibleBelow(op: Op, path: seq<nat>, from: seq<nat>)
    requires Compatible(op, path, from) && !op.Push? && path != []
    ensures from != [] && (path[0] == from[0] ==> Compatible(op, path[1..], from[1..]))
  {
    if from != [] && path[0] == from[0] {
      assert path == [path[0]] + path[1..] && from == [from[0]] + from[1..];
    }
  }

  lemma ElementsOfContents(c: Contents, vs: seq<Value>, v: Value)
    requires ValueOf(c, vs) == Some(v)
    ensures ElementsOf(v) == vs
  {
  }

  lemma ContentsWithElements(c: Contents, vs: seq<Value>, v: Value, ws: seq<Value>)
    requires ValueOf(c, vs) == Some(v) && |ws| == |vs|
    ensures |ElementsOf(v)| == |vs| && ValueOf(c, ws) == Some(WithElements(v, ws))
  {
    if c.Dictionary? {
      assert seq(|v.entries|, k requires 0 <= k < |v.entries| => v.entries[k].key) == c.keys;
    }
  }

  lemma SplitAround<T>(xs: seq<T>, i: nat, next: nat)
    requires i <= next <= |xs| && next <= i + 1
    ensures xs == if i < next then xs[..i] + [xs[i]] + xs[next..] else xs[..i] + xs[next..]
  {
  }

  // ---- sets of allocations -------------------------------------------------

  lemma ExchangedBelow(live: set<Payload>, live': set<Payload>, rest: set<Payload>, before: set<Payload>,
    after: set<Payload>)
    requires Exchanged(live, live', before, after)
    requires rest <= live && rest !! before
    ensures rest !! after
    ensures Exchanged(live, live', rest + before, rest + after)
  {
  }

  // ---- elements and their neighbours ---------------------------------------

  /** What a container consists of around one of its elements. */
  lemma Descend(p: Payload, own: set<Payload>, v: Value, cs: seq<Cell>, b: Cell, ds: seq<Cell>)
    returns (front: set<Payload>, vs: seq<Value>, mid: set<Payload>, x: Value, back: set<Payload>, us: seq<Value>)
    requires PayloadHolds(p, own, v) && KidsOf(p.contents) == cs + [b] + ds
    ensures RowHolds(cs, front, vs) && CellHolds(b, mid, x) && RowHolds(ds, back, us)
    ensures front !! mid && front + mid !! back && {p} !! front + mid + back
    ensures own == {p} + front + back + mid
    ensures |vs| == |cs| && ValueOf(p.contents, vs + [x] + us) == Some(v)
  {
    hide PayloadHolds, RowHolds, CellHolds;
    var below, all := Inside(p, own, v);
    front, vs, mid, x, back, us := RowAround(cs, b, ds, below, all);
  }

  /** Exchanging the element the path starts with is the replacement along the path. */
  lemma ReplaceBetween(c: Contents, kids: seq<Cell>, v: Value, vs: seq<Value>, x: Value, ws: seq<Value>,
    path: seq<nat>, w: Value)
    requires ValueOf(c, vs + [x] + ws) == Some(v) && |kids| == |KidsOf(c)|
    requires path != [] && path[0] == |vs| && IsPath(v, path)
    ensures IsPath(x, path[1..]) && ValueAt(v, path) == ValueAt(x, path[1..])
    ensures ValueOf(WithKids(c, kids), vs + [ReplaceAt(x, path[1..], w)] + ws) == Some(ReplaceAt(v, path, w))
  {
    ElementsOfContents(c, vs + [x] + ws, v);
    var y := ReplaceAt(x, path[1..], w);
    assert ElementsOf(v)[|vs| := y] == vs + [y] + ws;
    ContentsWithElements(c, vs + [x] + ws, v, vs + [y] + ws);
    WithKidsValue(c, kids, vs + [y] + ws);
  }

  /** Writes contents back whose element `b` stands between `cs` and `ds`. */
  method Rejoin(p: Payload, c: Contents, ghost v: Value,
    ghost cs: seq<Cell>, ghost front: set<Payload>, ghost vs: seq<Value>, ghost b: Cell, ghost mid: set<Payload>,
    ghost y: Value, ghost ds: seq<Cell>, ghost back: set<Payload>, ghost us: seq<Value>)
    requires RowHolds(cs, front, vs) && CellHolds(b, mid, y) && RowHolds(ds, back, us)
    requires front !! mid && front + mid !! back && {p} !! front + mid + back
    requires KidsOf(c) == cs + [b] + ds && ValueOf(c, vs + [y] + us) == Some(v)
    modifies p
    ensures PayloadHolds(p, {p} + front + back + mid, v) && p.contents == c
  {
    hide RowHolds, CellHolds, PayloadHolds, ValueOf;
    RowTogether(cs, front, vs, b, mid, y, ds, back, us);
    Fill(p, c, front + mid + back, vs + [y] + us, v);
    assert {p} + (front + mid + back) == {p} + front + back + mid;
  }

  // ---- the place of a key in a map -----------------------------------------

  /** Where a map keeps `key`, or would insert it. */
  function Position(keys: seq<Key>, key: Key): (i: nat)
    ensures i <= |keys|
  {
    if keys == [] || keys[0] == key || KeyLess(key, keys[0]) then 0 else 1 + Position(keys[1..], key)
  }

  /** `x` at position `i`, in the place of what stood there from `i` up to `next`. */
  function Spliced<T>(xs: seq<T>, i: nat, next: nat, x: T): (ys: seq<T>)
    requires i <= next <= |xs|
    ensures |ys| == i + 1 + |xs| - next
  {
    xs[..i] + [x] + xs[next..]
  }

  /** First position after the entry for `key`. */
  function Behind(keys: seq<Key>, key: Key): (next: nat)
    ensures Position(keys, key) <= next <= |keys|
    ensures next <= Position(keys, key) + 1
  {
    var i := Position(keys, key);
    if i < |keys| && keys[i] == key then i + 1 else i
  }

  lemma SplicedTail<T>(xs: seq<T>, i: nat, next: nat, x: T)
    requires 0 < i <= next <= |xs|
    ensures Spliced(xs, i, next, x) == [xs[0]] + Spliced(xs[1..], i - 1, next - 1, x)
  {
    assert xs[..i] == [xs[0]] + xs[1..][..i - 1];
  }

  lemma ZipCons(key: Key, keys: seq<Key>, v: Value, vs: seq<Value>)
    requires |keys| == |vs|
    ensures Zip([key] + keys, [v] + vs) == [Entry(key, v)] + Zip(keys, vs)
  {
  }

  lemma {:induction false} PutAtPosition(keys: seq<Key>, vs: seq<Value>, key: Key, v: Value)
    requires |keys| == |vs|
    ensures var i, next := Position(keys, key), Behind(keys, key);
            Put(Zip(keys, vs), key, v) == Zip(Spliced(keys, i, next, key), Spliced(vs, i, next, v))
  {
    var i, next := Position(keys, key), Behind(keys, key);
    hide Zip, Spliced, KeyLess;
    if i > 0 {
      PutAtPosition(keys[1..], vs[1..], key, v);
      SplicedTail(keys, i, next, key);
      SplicedTail(vs, i, next, v);
      ZipCons(keys[0], keys[1..], vs[0], vs[1..]);
      assert keys == [keys[0]] + keys[1..] && vs == [vs[0]] + vs[1..];
      ZipCons(keys[0], Spliced(keys[1..], i - 1, next - 1, key), vs[0], Spliced(vs[1..], i - 1, next - 1, v));
    } else {
      PutFirst(keys, vs, key, v);
    }
  }

  lemma PutFirst(keys: seq<Key>, vs: seq<Value>, key: Key, v: Value)
    requires |keys| == |vs| && Position(keys, key) == 0
    ensures var next := Behind(keys, key);
            Put(Zip(keys, vs), key, v) == Zip(Spliced(keys, 0, next, key), Spliced(vs, 0, next, v))
  {
    var next := Behind(keys, key);
    assert Spliced(keys, 0, next, key) == [key] + keys[next..];
    assert Spliced(vs, 0, next, v) == [v] + vs[next..];
    ZipCons(key, keys[next..], v, vs[next..]);
    assert Zip(keys, vs)[next..] == Zip(keys[next..], vs[next..]);
  }

  lemma PutKeepsKeysAscending(keys: seq<Key>, vs: seq<Value>, key: Key, v: Value)
    requires |keys| == |vs| && AscendingKeys(keys)
    ensures AscendingKeys(Spliced(keys, Position(keys, key), Behind(keys, key), key))
  {
    PutAtPosition(keys, vs, key, v);
    PutAscending(Zip(keys, vs), key, v);
    var es := Put(Zip(keys, vs), key, v);
    var ks := Spliced(keys, Position(keys, key), Behind(keys, key), key);
    hide Put, Spliced, Position, Behind, KeyLess;
    forall i, j | 0 <= i < j < |ks|
      ensures KeyLess(ks[i], ks[j])
    {
      assert es[i].key == ks[i] && es[j].key == ks[j];
    }
  }

  /** The contents `map()[key] = v` has to leave in a map. */
  lemma PutBetween(keys: seq<Key>, key: Key, vs: seq<Value>, x: Value, ws: seq<Value>, v: Value, kids: seq<Cell>)
    requires AscendingKeys(keys) && |vs| == Position(keys, key) && |ws| == |keys| - Behind(keys, key)
    requires |kids| == |vs| + 1 + |ws|
    ensures var i, next := Position(keys, key), Behind(keys, key);
            var all := if i < next then vs + [x] + ws else vs + ws;
            |all| == |keys|
            && ValueOf(Dictionary(Spliced(keys, i, next, key), kids), vs + [v] + ws)
            == Some(Map(Put(Zip(keys, all), key, v)))
  {
    var i, next := Position(keys, key), Behind(keys, key);
    var all := if i < next then vs + [x] + ws else vs + ws;
    SplicedBetween(vs, x, ws, i < next, v);
    hide Position, Behind, Put, Zip, AscendingKeys, Spliced;
    PutAtPosition(keys, all, key, v);
    PutKeepsKeysAscending(keys, all, key, v);
  }

  lemma SplicedBetween<T>(xs: seq<T>, y: T, zs: seq<T>, present: bool, x: T)
    ensures var all := if present then xs + [y] + zs else xs + zs;
            Spliced(all, |xs|, if present then |xs| + 1 else |xs|, x) == xs + [x] + zs
  {
  }

  /** What a map consists of around the place of a key; `b` is invalid if nothing is there. */
  lemma Divide(p: Payload, own: set<Payload>, v: Value, keys: seq<Key>, cs: seq<Cell>, b: Cell, ds: seq<Cell>,
    present: bool)
    returns (front: set<Payload>, vs: seq<Value>, mid: set<Payload>, x: Value, back: set<Payload>, us: seq<Value>)
    requires PayloadHolds(p, own, v)
    requires p.contents == Dictionary(keys, if present then cs + [b] + ds else cs + ds)
    requires !present ==> b == Cell(Type_Invalid, Zero)
    ensures RowHolds(cs, front, vs) && CellHolds(b, mid, x) && RowHolds(ds, back, us)
    ensures front !! mid && front + mid !! back && {p} !! front + mid + back
    ensures own == {p} + front + back + mid
    ensures |vs| == |cs| && |us| == |ds| && AscendingKeys(keys)
    ensures var all := if present then vs + [x] + us else vs + us;
            |all| == |keys| && v == Map(Zip(keys, all))
  {
    hide PayloadHolds, RowHolds, AscendingKeys, Zip;
    var below, all := Inside(p, own, v);
    if present {
      hide CellHolds;
      front, vs, mid, x, back, us := RowAround(cs, b, ds, below, all);
    } else {
      front, vs, back, us := RowSplit(cs, ds, below, all);
      mid, x := {}, Invalid;
    }
  }

  lemma KidsOfDictionary(keys: seq<Key>, kids: seq<Cell>)
    ensures KidsOf(Dictionary(keys, kids)) == kids
  {
  }
  // ---- operations on the heap ----------------------------------------------

  /** `push_back` on the list that a variant holds. */
  method PushBack(p: Payload, ghost own: set<Payload>, ghost v: Value,
    c: Cell, ghost theirs: set<Payload>, ghost w: Value, ghost heap: Heap)
    returns (ghost own': set<Payload>)
    requires PayloadHolds(p, own, v) && p.contents.Elements? && CellHolds(c, theirs, w)
    requires own + theirs <= heap.live
    modifies p, heap
    ensures own !! theirs ==> CellHolds(c, theirs, w)
    ensures p.contents.Elements? && v.List? && PayloadHolds(p, own', List(v.items + [w]))
    ensures Exchanged(old(heap.live), heap.live, own, own') && fresh(own' - own)
  {
    hide PayloadHolds, RowHolds, CellHolds;
    ghost var below, vs := Inside(p, own, v);
    var kids := p.contents.kids;
    var d;
    ghost var more;
    d, more := CopyCell(c, theirs, w, heap);
    RowBack(kids, below, vs, d, more, w);
    Fill(p, Elements(kids + [d]), below + more, vs + [w], List(vs + [w]));
    own' := {p} + (below + more);
  }

  /** `operator=(const Variant&)` on a variant stored in a container. */
  method AssignHere(c: Cell, ghost own: set<Payload>, ghost v: Value,
    variant: Variant, ghost theirs: set<Payload>, ghost w: Value, ghost heap: Heap)
    returns (d: Cell, ghost own': set<Payload>)
    requires CellHolds(c, own, v) && variant.Holds(theirs, w) && own !! theirs && own + theirs <= heap.live
    modifies heap
    ensures variant.Holds(theirs, w)
    ensures CellHolds(d, own', w)
    ensures Exchanged(old(heap.live), heap.live, own, own') && fresh(own' - own)
  {
    hide CellHolds;
    var e := new Variant.At(c);
    own' := e.Assign(own, v, variant, theirs, w, heap);
    d := e.ToCell();
  }

  /** `map()[key] = variant`. */
  method AssignEntry(p: Payload, ghost own: set<Payload>, ghost v: Value, key: Key,
    variant: Variant, ghost theirs: set<Payload>, ghost w: Value, ghost heap: Heap)
    returns (ghost own': set<Payload>)
    requires PayloadHolds(p, own, v) && p.contents.Dictionary?
    requires variant.Holds(theirs, w) && own !! theirs && own + theirs <= heap.live
    modifies p, heap
    ensures variant.Holds(theirs, w)
    ensures p.contents.Dictionary? && v.Map? && PayloadHolds(p, own', Map(Put(v.entries, key, w)))
    ensures Exchanged(old(heap.live), heap.live, own, own') && fresh(own' - own)
  {
    var keys, kids := p.contents.keys, p.contents.kids;
    assert |keys| == |kids|;
    var i, next := Position(keys, key), Behind(keys, key);
    var b := if i < next then kids[i] else Cell(Type_Invalid, Zero);
    SplitAround(kids, i, next);
    own' := AssignDivided(p, own, v, key, keys, kids[..i], b, kids[next..], variant, theirs, w, heap);
  }

  method AssignDivided(p: Payload, ghost own: set<Payload>, ghost v: Value, key: Key,
    keys: seq<Key>, cs: seq<Cell>, b: Cell, ds: seq<Cell>,
    variant: Variant, ghost theirs: set<Payload>, ghost w: Value, ghost heap: Heap)
    returns (ghost own': set<Payload>)
    requires PayloadHolds(p, own, v)
    requires |cs| == Position(keys, key) && |ds| == |keys| - Behind(keys, key)
    requires var present := Position(keys, key) < Behind(keys, key);
             && p.contents == Dictionary(keys, if present then cs + [b] + ds else cs + ds)
             && (!present ==> b == Cell(Type_Invalid, Zero))
    requires variant.Holds(theirs, w) && own !! theirs && own + theirs <= heap.live
    modifies p, heap
    ensures variant.Holds(theirs, w)
    ensures p.contents.Dictionary? && v.Map? && PayloadHolds(p, own', Map(Put(v.entries, key, w)))
    ensures Exchanged(old(heap.live), heap.live, own, own') && fresh(own' - own)
  {
    hide *;
    var i, next := Position(keys, key), Behind(keys, key);
    ghost var front, vs, mid, x, back, us := Divide(p, own, v, keys, cs, b, ds, i < next);
    var e;
    ghost var mid';
    e, mid' := AssignHere(b, mid, x, variant, theirs, w, heap);
    ghost var rest := {p} + front + back;
    ExchangedBelow(old(heap.live), heap.live, rest, mid, mid');
    PutBetween(keys, key, vs, x, us, w, cs + [e] + ds);
    KidsOfDictionary(Spliced(keys, i, next, key), cs + [e] + ds);
    Rejoin(p, Dictionary(Spliced(keys, i, next, key), cs + [e] + ds), Map(Put(v.entries, key, w)),
      cs, front, vs, e, mid', w, ds, back, us);
    own' := rest + mid';
  }

  /** The string, list or map a variant owns. */
  lemma Container(c: Cell, own: set<Payload>, v: Value)
    requires CellHolds(c, own, v) && (v.String? || v.List? || v.Map?)
    ensures c.m_data.AsPtr? && PayloadHolds(c.m_data.p, own, v)
    ensures KindOf(c.m_data.p.contents) == TypeOf(v) == c.m_type
  {
  }

  lemma ContentsOfText(s: seq<Byte>)
    ensures ContentsHold(Text(s), {}, [], String(s))
  {
  }

  lemma HoldsOnce(x: Variant, own: set<Payload>, v: Value, own': set<Payload>, v': Value)
    requires x.Holds(own, v) && x.Holds(own', v')
    ensures own == own' && v == v'
  {
  }

  /**
   `map()[key]`: a map that has the key stays as it is, to the last allocation; otherwise an entry with
   an invalid variant is added.
   */
  method TouchEntry(p: Payload, ghost own: set<Payload>, ghost v: Value, key: Key, ghost heap: Heap)
    returns (ghost own': set<Payload>, ghost es: seq<Entry<Value>>)
    requires PayloadHolds(p, own, v) && v.Map? && own <= heap.live
    modifies p, heap
    ensures PayloadHolds(p, own', Map(es)) && KindOf(p.contents) == old(KindOf(p.contents))
    ensures (exists e | e in v.entries :: e.key == key) ==>
              es == v.entries && own' == own && heap.live == old(heap.live)
    ensures !(exists e | e in v.entries :: e.key == key) ==>
              Ascending(es) && forall e :: e in es <==> e in v.entries || e == Entry(key, Invalid)
    ensures Exchanged(old(heap.live), heap.live, own, own') && fresh(own' - own)
  {
    EntriesHaveKeys(p, own, v, key);
    if key in p.contents.keys {
      own', es := own, v.entries;
    } else {
      AddedMembers(v.entries, key);
      hide PayloadHolds, Put;
      var none := new Variant();
      own' := AssignEntry(p, own, v, key, none, {}, Invalid, heap);
      es := Put(v.entries, key, Invalid);
    }
  }

  lemma AddedMembers(es: seq<Entry<Value>>, key: Key)
    requires Ascending(es) && !exists e | e in es :: e.key == key
    ensures Ascending(Put(es, key, Invalid))
    ensures forall e :: e in Put(es, key, Invalid) <==> e in es || e == Entry(key, Invalid)
  {
    PutAscending(es, key, Invalid);
    hide Put;
    forall e
      ensures e in Put(es, key, Invalid) <==> e in es || e == Entry(key, Invalid)
    {
      PutMembers(es, key, Invalid, e);
    }
  }

  /** An entry is added exactly where the effect of the operation has it. */
  lemma TouchedEntries(v: Value, key: Key, es: seq<Entry<Value>>)
    requires v.Map? && Ascending(v.entries)
    requires (exists e | e in v.entries :: e.key == key) ==> es == v.entries
    requires !(exists e | e in v.entries :: e.key == key) ==>
               Ascending(es) && forall e :: e in es <==> e in v.entries || e == Entry(key, Invalid)
    ensures Effect(Touch(key), v, Invalid) == Map(es)
  {
    if !exists e | e in v.entries :: e.key == key {
      AddedMembers(v.entries, key);
      AscendingExtensional(es, Put(v.entries, key, Invalid));
    }
  }

  lemma EntriesHaveKeys(p: Payload, own: set<Payload>, v: Value, key: Key)
    requires PayloadHolds(p, own, v) && v.Map?
    ensures p.contents.Dictionary? && Ascending(v.entries)
    ensures key in p.contents.keys <==> exists e | e in v.entries :: e.key == key
  {
    var keys := p.contents.keys;
    if key in keys {
      var k :| 0 <= k < |keys| && keys[k] == key;
      assert v.entries[k].key == key;
    }
  }

  /**
   One operation on a variant of its own. The second variant shares nothing with it, or is the same
   one and the operation is an assignment, which tests for that, or the operation is a push.
   */
  method Perform(x: Variant, ghost own: set<Payload>, ghost v: Value, op: Op,
    w: Variant, ghost theirs: set<Payload>, ghost u: Value, ghost heap: Heap)
    returns (ghost own': set<Payload>)
    requires x.Holds(own, v) && own <= heap.live && Allowed(op, v, u)
    requires UsesSource(op) ==> w.Holds(theirs, u) && theirs <= heap.live
    requires UsesSource(op) ==> op.Push? || own !! theirs || (x == w && (op.Set? || op.SetContents?))
    modifies x, own, heap
    ensures x.Holds(own', Effect(op, v, u))
    ensures UsesSource(op) && x != w && own !! theirs ==> w.Holds(theirs, u)
    ensures Exchanged(old(heap.live), heap.live, own, own') && fresh(own' - own)
  {
    hide CellHolds, PayloadHolds, ContentsHold, KindOf;
    own' := {};
    match op {
      case Clear => x.Clear(own, v, heap);
      case SetScalar(t, d) => x.AssignScalar(own, v, t, d, heap);
      case SetText(s) =>
        ContentsOfText(s);
        own' := x.AssignContents(own, v, Text(s), {}, [], String(s), heap);
      case Set =>
        if x == w {
          HoldsOnce(x, own, v, theirs, u);
        }
        own' := x.Assign(own, v, w, theirs, u, heap);
      case Touch(key) =>
        Container(x.ToCell(), own, v);
        EntriesHaveKeys(x.m_data.p, own, v, key);
        ghost var es;
        own', es := TouchEntry(x.m_data.p, own, v, key, heap);
        TouchedEntries(v, key, es);
        CellOfPayload(x.m_type, x.m_data.p, own', Effect(op, v, u));
      case _ => own' := PerformInside(x, own, v, op, w, theirs, u, heap);
    }
  }

  /** The operations that work on a string, list or map; the library tests for assignment to itself. */
  method PerformInside(x: Variant, ghost own: set<Payload>, ghost v: Value, op: Op,
    w: Variant, ghost theirs: set<Payload>, ghost u: Value, ghost heap: Heap)
    returns (ghost own': set<Payload>)
    requires x.Holds(own, v) && Allowed(op, v, u) && (op.SetContents? || op.Push? || op.SetEntry?)
    requires w.Holds(theirs, u) && own + theirs <= heap.live
    requires op.Push? || own !! theirs || (x == w && op.SetContents?)
    modifies x, own, heap
    ensures x.Holds(own', Effect(op, v, u))
    ensures x != w && own !! theirs ==> w.Holds(theirs, u)
    ensures Exchanged(old(heap.live), heap.live, own, own') && fresh(own' - own)
  {
    hide CellHolds, PayloadHolds, ContentsHold;
    match op {
      case SetContents =>
        if x == w {
          HoldsOnce(x, own, v, theirs, u);
          own' := own;
        } else {
          Container(w.ToCell(), theirs, u);
          var p := w.m_data.p;
          ghost var below, ws := Inside(p, theirs, u);
          own' := x.AssignContents(own, v, p.contents, below, ws, u, heap);
        }
      case Push =>
        Container(x.ToCell(), own, v);
        own' := PushBack(x.m_data.p, own, v, w.ToCell(), theirs, u, heap);
        CellOfPayload(x.m_type, x.m_data.p, own', Effect(op, v, u));
      case SetEntry(key) =>
        Container(x.ToCell(), own, v);
        own' := AssignEntry(x.m_data.p, own, v, key, w, theirs, u, heap);
        CellOfPayload(x.m_type, x.m_data.p, own', Effect(op, v, u));
    }
  }

  // ---- the same any number of levels down ----------------------------------

  /** The variant at the end of a path. */
  method Nested(c: Cell, ghost own: set<Payload>, ghost v: Value, path: seq<nat>)
    returns (d: Cell, ghost theirs: set<Payload>)
    requires CellHolds(c, own, v) && IsPath(v, path)
    ensures CellHolds(d, theirs, ValueAt(v, path)) && theirs <= own
    decreases |path|
  {
    hide CellHolds, PayloadHolds, RowHolds;
    if path == [] {
      d, theirs := c, own;
    } else {
      Container(c, own, v);
      var p := c.m_data.p;
      ghost var below, vs := Inside(p, own, v);
      ElementsOfContents(p.contents, vs, v);
      ghost var mine := RowPick(KidsOf(p.contents), below, vs, path[0]);
      d, theirs := Nested(KidsOf(p.contents)[path[0]], mine, vs[path[0]], path[1..]);
    }
  }

  /** An operation on the variant at the end of a path below `p`. */
  method PerformBelow(p: Payload, ghost own: set<Payload>, ghost v: Value, path: seq<nat>, op: Op,
    w: Variant, ghost theirs: set<Payload>, ghost u: Value, ghost heap: Heap)
    returns (ghost own': set<Payload>)
    requires PayloadHolds(p, own, v) && own <= heap.live
    requires path != [] && IsPath(v, path) && Allowed(op, ValueAt(v, path), u)
    requires UsesSource(op) ==> w.Holds(theirs, u) && theirs <= heap.live && (op.Push? || own !! theirs)
    modifies own, heap
    ensures PayloadHolds(p, own', ReplaceAt(v, path, Effect(op, ValueAt(v, path), u)))
    ensures KindOf(p.contents) == old(KindOf(p.contents))
    ensures UsesSource(op) && own !! theirs ==> w.Holds(theirs, u)
    ensures Exchanged(old(heap.live), heap.live, own, own') && fresh(own' - own)
    decreases |path|, 1
  {
    ghost var below, vs := Inside(p, own, v);
    ElementsOfContents(p.contents, vs, v);
    var kids, i := KidsOf(p.contents), path[0];
    SplitAround(kids, i, i + 1);
    ghost var mine := RowPick(kids, below, vs, i);
    OwnOfHeld(kids[i], mine, vs[i]);
    own' := PerformMiddle(p, own, v, path, op, kids[..i], kids[i], mine, kids[i + 1..], w, theirs, u, heap);
  }

  /** The same on `b` or below it; the second variant may be next to it. */
  method PerformMiddle(p: Payload, ghost own: set<Payload>, ghost v: Value, path: seq<nat>, op: Op,
    cs: seq<Cell>, b: Cell, ghost mine: set<Payload>, ds: seq<Cell>,
    w: Variant, ghost theirs: set<Payload>, ghost u: Value, ghost heap: Heap)
    returns (ghost own': set<Payload>)
    requires PayloadHolds(p, own, v) && own <= heap.live
    requires path != [] && IsPath(v, path) && Allowed(op, ValueAt(v, path), u)
    requires KidsOf(p.contents) == cs + [b] + ds && |cs| == path[0] && OwnOf(b) == mine
    requires UsesSource(op) ==> w.Holds(theirs, u) && theirs <= heap.live && (op.Push? || mine !! theirs)
    modifies own, heap
    ensures PayloadHolds(p, own', ReplaceAt(v, path, Effect(op, ValueAt(v, path), u)))
    ensures KindOf(p.contents) == old(KindOf(p.contents))
    ensures UsesSource(op) && own !! theirs ==> w.Holds(theirs, u)
    ensures Exchanged(old(heap.live), heap.live, own, own') && fresh(own' - own)
    decreases |path|, 0
  {
    hide PayloadHolds, RowHolds, CellHolds, ValueOf, KindOf, Allowed, Effect, ValueAt, ReplaceAt, IsPath, Exchanged;
    ghost var front, vs, mid, x, back, us := Descend(p, own, v, cs, b, ds);
    OwnOfHeld(b, mid, x);
    ghost var y := Effect(op, ValueAt(v, path), u);
    ghost var c := p.contents;
    ReplaceBetween(c, KidsOf(c), v, vs, x, us, path, y);
    var e := new Variant.At(b);
    ghost var mid' := PerformAt(e, mid, x, path[1..], op, w, theirs, u, heap);
    own' := Return(p, own, v, path, y, cs, front, vs, mid, x, e.ToCell(), mid', ds, back, us, old(heap.live), heap);
  }

  /** Puts back a nested variant after an operation on it. */
  method Return(p: Payload, ghost own: set<Payload>, ghost v: Value, ghost path: seq<nat>, ghost y: Value,
    cs: seq<Cell>, ghost front: set<Payload>, ghost vs: seq<Value>, ghost mid: set<Payload>, ghost x: Value,
    e: Cell, ghost mid': set<Payload>, ds: seq<Cell>, ghost back: set<Payload>, ghost us: seq<Value>,
    ghost live: set<Payload>, ghost heap: Heap)
    returns (ghost own': set<Payload>)
    requires RowHolds(cs, front, vs) && RowHolds(ds, back, us)
    requires front !! mid && front + mid !! back && {p} !! front + mid + back
    requires own == {p} + front + back + mid && own <= live && Exchanged(live, heap.live, mid, mid')
    requires path != [] && |cs| == |vs| == path[0] && IsPath(v, path)
    requires ValueOf(p.contents, vs + [x] + us) == Some(v) && |KidsOf(p.contents)| == |cs| + 1 + |ds|
    requires IsPath(x, path[1..]) && CellHolds(e, mid', ReplaceAt(x, path[1..], y))
    modifies p
    ensures PayloadHolds(p, own', ReplaceAt(v, path, y)) && KindOf(p.contents) == old(KindOf(p.contents))
    ensures Exchanged(live, heap.live, own, own') && own' == {p} + front + back + mid'
  {
    hide *;
    ghost var rest := {p} + front + back;
    ExchangedBelow(live, heap.live, rest, mid, mid');
    ReplaceBetween(p.contents, cs + [e] + ds, v, vs, x, us, path, y);
    Rejoin(p, WithKids(p.contents, cs + [e] + ds), ReplaceAt(v, path, y),
      cs, front, vs, e, mid', ReplaceAt(x, path[1..], y), ds, back, us);
    own' := rest + mid';
  }

  /** An operation on a variant of its own or on one anywhere inside it. */
  method PerformAt(x: Variant, ghost own: set<Payload>, ghost v: Value, path: seq<nat>, op: Op,
    w: Variant, ghost theirs: set<Payload>, ghost u: Value, ghost heap: Heap)
    returns (ghost own': set<Payload>)
    requires x.Holds(own, v) && own <= heap.live
    requires IsPath(v, path) && Allowed(op, ValueAt(v, path), u)
    requires UsesSource(op) ==> w.Holds(theirs, u) && theirs <= heap.live
    requires UsesSource(op) ==>
               op.Push? || own !! theirs || (x == w && path == [] && (op.Set? || op.SetContents?))
    modifies x, own, heap
    ensures x.Holds(own', ReplaceAt(v, path, Effect(op, ValueAt(v, path), u)))
    ensures UsesSource(op) && x != w && own !! theirs ==> w.Holds(theirs, u)
    ensures Exchanged(old(heap.live), heap.live, own, own') && fresh(own' - own)
    decreases |path|, 2
  {
    hide CellHolds, PayloadHolds, KindOf, Allowed, Effect;
    if path == [] {
      own' := Perform(x, own, v, op, w, theirs, u, heap);
    } else {
      Container(x.ToCell(), own, v);
      own' := PerformBelow(x.m_data.p, own, v, path, op, w, theirs, u, heap);
      CellOfPayload(x.m_type, x.m_data.p, own', ReplaceAt(v, path, Effect(op, ValueAt(v, path), u)));
    }
  }

  // ---- with a second variant in the same one -------------------------------

  /** An operation on a place in a variant that reads another place in it. */
  method PerformWithin(x: Variant, ghost own: set<Payload>, ghost v: Value, path: seq<nat>, op: Op,
    from: seq<nat>, ghost heap: Heap)
    returns (ghost own': set<Payload>)
    requires x.Holds(own, v) && own <= heap.live && UsesSource(op)
    requires IsPath(v, path) && IsPath(v, from) && Compatible(op, path, from)
    requires Allowed(op, ValueAt(v, path), ValueAt(v, from))
    modifies x, own, heap
    ensures x.Holds(own', ReplaceAt(v, path, Effect(op, ValueAt(v, path), ValueAt(v, from))))
    ensures Exchanged(old(heap.live), heap.live, own, own') && fresh(own' - own)
    decreases |path|, 2
  {
    hide CellHolds, PayloadHolds, KindOf, Allowed, Effect;
    ghost var u := ValueAt(v, from);
    if op.Push? {
      var d;
      ghost var theirs;
      d, theirs := Nested(x.ToCell(), own, v, from);
      var w := new Variant.At(d);
      own' := PerformAt(x, own, v, path, op, w, theirs, u, heap);
    } else if path == [] {
      own' := PerformAt(x, own, v, [], op, x, own, v, heap);
    } else {
      Container(x.ToCell(), own, v);
      own' := PerformFork(x.m_data.p, own, v, path, op, from, heap);
      CellOfPayload(x.m_type, x.m_data.p, own', ReplaceAt(v, path, Effect(op, ValueAt(v, path), u)));
    }
  }

  /** Both places below `p`: in one element, or in two that share nothing. */
  method PerformFork(p: Payload, ghost own: set<Payload>, ghost v: Value, path: seq<nat>, op: Op,
    from: seq<nat>, ghost heap: Heap)
    returns (ghost own': set<Payload>)
    requires PayloadHolds(p, own, v) && own <= heap.live && UsesSource(op) && !op.Push?
    requires path != [] && IsPath(v, path) && IsPath(v, from) && Compatible(op, path, from)
    requires Allowed(op, ValueAt(v, path), ValueAt(v, from))
    modifies own, heap
    ensures PayloadHolds(p, own', ReplaceAt(v, path, Effect(op, ValueAt(v, path), ValueAt(v, from))))
    ensures KindOf(p.contents) == old(KindOf(p.contents))
    ensures Exchanged(old(heap.live), heap.live, own, own') && fresh(own' - own)
    decreases |path|, 1
  {
    hide PayloadHolds, RowHolds, CellHolds, Compatible, Allowed, Effect, KindOf;
    CompatibleBelow(op, path, from);
    ghost var below, vs := Inside(p, own, v);
    ElementsOfContents(p.contents, vs, v);
    var kids, i, j := KidsOf(p.contents), path[0], from[0];
    SplitAround(kids, i, i + 1);
    ghost var mine, theirs := RowPickTwo(kids, below, vs, i, j);
    if i == j {
      own' := PerformFurther(p, own, v, path, op, kids[..i], kids[i], kids[i + 1..], from, heap);
    } else {
      OwnOfHeld(kids[i], mine, vs[i]);
      var d;
      ghost var sub;
      d, sub := Nested(kids[j], theirs, vs[j], from[1..]);
      var w := new Variant.At(d);
      own' := PerformMiddle(p, own, v, path, op, kids[..i], kids[i], mine, kids[i + 1..],
        w, sub, ValueAt(v, from), heap);
    }
  }

  /** Both places in the element `b`. */
  method PerformFurther(p: Payload, ghost own: set<Payload>, ghost v: Value, path: seq<nat>, op: Op,
    cs: seq<Cell>, b: Cell, ds: seq<Cell>, from: seq<nat>, ghost heap: Heap)
    returns (ghost own': set<Payload>)
    requires PayloadHolds(p, own, v) && own <= heap.live && UsesSource(op)
    requires path != [] && from != [] && path[0] == from[0] && Compatible(op, path[1..], from[1..])
    requires IsPath(v, path) && IsPath(v, from) && Allowed(op, ValueAt(v, path), ValueAt(v, from))
    requires KidsOf(p.contents) == cs + [b] + ds && |cs| == path[0]
    modifies own, heap
    ensures PayloadHolds(p, own', ReplaceAt(v, path, Effect(op, ValueAt(v, path), ValueAt(v, from))))
    ensures KindOf(p.contents) == old(KindOf(p.contents))
    ensures Exchanged(old(heap.live), heap.live, own, own') && fresh(own' - own)
    decreases |path|, 0
  {
    hide PayloadHolds, RowHolds, CellHolds, ValueOf, KindOf, Allowed, Effect, ValueAt, ReplaceAt, IsPath, Exchanged;
    ghost var front, vs, mid, x, back, us := Descend(p, own, v, cs, b, ds);
    ghost var y := Effect(op, ValueAt(v, path), ValueAt(v, from));
    ghost var c := p.contents;
    ReplaceBetween(c, KidsOf(c), v, vs, x, us, path, y);
    ReplaceBetween(c, KidsOf(c), v, vs, x, us, from, y);
    var e := new Variant.At(b);
    ghost var mid' := PerformWithin(e, mid, x, path[1..], op, from[1..], heap);
    own' := Return(p, own, v, path, y, cs, front, vs, mid, x, e.ToCell(), mid', ds, back, us, old(heap.live), heap);
  }
}
