/** Reading and writing the variants of the heap, down to the allocations of reads that fail. */
module HeapCodec {
  import opened Wrappers
  import opened Bytes
  import opened OrderedMap
  import opened VariantValue
  import opened WireFormat
  import opened Codec
  import opened Serializer
  import opened FailedReads
  import opened VariantHeap
  import opened VariantMutation
  import opened VariantOwnership

  // ---- writing -------------------------------------------------------------

  /** One of several variants side by side. */
  lemma RowPick(cs: seq<Cell>, own: set<Payload>, vs: seq<Value>, i: nat) returns (mine: set<Payload>)
    requires RowHolds(cs, own, vs) && i < |cs|
    ensures |vs| == |cs| && mine <= own && CellHolds(cs[i], mine, vs[i])
  {
    SplitAround(cs, i, i + 1);
    hide RowHolds, CellHolds;
    var front, us, mid, v, back, ws := RowAround(cs[..i], cs[i], cs[i + 1..], own, vs);
    mine := mid;
  }

  lemma ElementsOfPayload(p: Payload, own: set<Payload>, v: Value) returns (below: set<Payload>, vs: seq<Value>)
    requires PayloadHolds(p, own, v)
    ensures RowHolds(KidsOf(p.contents), below, vs) && below < own && |vs| == |KidsOf(p.contents)|
    ensures match p.contents
            case Text(s) => v == String(s)
            case Elements(_) => v == List(vs)
            case Dictionary(keys, _) => |keys| == |vs| && v == Map(Zip(keys, vs))
  {
    below, vs := Inside(p, own, v);
  }

  /** Appends the encoding of the value a variant has; temporaries are gone afterwards. */
  method PushVariant(ser: ByteArraySerializer, c: Cell, ghost own: set<Payload>, ghost v: Value, ghost heap: Heap)
    requires CellHolds(c, own, v) && own <= heap.live
    modifies ser.m_byteArray, heap
    ensures CellHolds(c, own, v) && heap.live == old(heap.live)
    ensures ser.m_byteArray.m_data == old(ser.m_byteArray.m_data) + Enc(v)
    decreases own, 2
  {
    if c.m_data.AsPtr? {
      PayloadOfCell(c, own, v);
      ghost var below, vs := ElementsOfPayload(c.m_data.p, own, v);
      hide CellHolds, PayloadHolds, RowHolds, Enc, EncString;
      match c.m_data.p.contents {
        case Text(s) =>
          ser.PushString(s);
          EncOfString(s);
        case Elements(kids) => PushElements(ser, kids, below, vs, heap);
        case Dictionary(keys, kids) => PushDictionary(ser, keys, kids, below, vs, heap);
      }
    } else {
      CellOfScalar(c, own, v);
      hide CellHolds, Enc;
      ser.PushValue(ScalarOf(c.m_type, c.m_data).value);
    }
  }

  lemma EncOfString(s: seq<Byte>)
    ensures Enc(String(s)) == EncString(s)
  {
  }

  method PushElements(ser: ByteArraySerializer, kids: seq<Cell>, ghost own: set<Payload>, ghost vs: seq<Value>,
    ghost heap: Heap)
    requires RowHolds(kids, own, vs) && |vs| == |kids| && own <= heap.live
    modifies ser.m_byteArray, heap
    ensures RowHolds(kids, own, vs) && heap.live == old(heap.live)
    ensures ser.m_byteArray.m_data == old(ser.m_byteArray.m_data) + Enc(List(vs))
    decreases own, 3
  {
    ser.PushTypeSignature(Type_List);
    var size := Truncate(|kids|);
    ser.PushRawValue(PackUint32(size));
    ghost var header := ser.m_byteArray.m_data;
    EncListHeader(old(ser.m_byteArray.m_data), vs);
    hide Enc, EncItems, PackUint32, Truncate, RowHolds, CellHolds;
    var k := 0;
    while k < |kids|
      invariant k <= |kids| && RowHolds(kids, own, vs) && heap.live == old(heap.live)
      invariant ser.m_byteArray.m_data + EncItems(vs[k..]) == header + EncItems(vs[0..])
    {
      EncItemsStep(ser.m_byteArray.m_data, vs, k);
      ghost var mine := RowPick(kids, own, vs, k);
      PushVariant(ser, kids[k], mine, vs[k], heap);
      k := k + 1;
    }
    EncItemsDone(ser.m_byteArray.m_data, vs);
  }

  method PushDictionary(ser: ByteArraySerializer, keys: seq<Key>, kids: seq<Cell>,
    ghost own: set<Payload>, ghost vs: seq<Value>, ghost heap: Heap)
    requires RowHolds(kids, own, vs) && |keys| == |vs| == |kids| && own <= heap.live
    modifies ser.m_byteArray, heap
    ensures RowHolds(kids, own, vs) && heap.live == old(heap.live)
    ensures ser.m_byteArray.m_data == old(ser.m_byteArray.m_data) + Enc(Map(Zip(keys, vs)))
    decreases own, 3
  {
    ghost var es := Zip(keys, vs);
    ser.PushTypeSignature(Type_Map);
    var size := Truncate(|keys|);
    ser.PushRawValue(PackUint32(size));
    ghost var header := ser.m_byteArray.m_data;
    EncMapHeader(old(ser.m_byteArray.m_data), es);
    hide Enc, EncString, EncEntries, PackUint32, Truncate, RowHolds, CellHolds, Zip;
    var k := 0;
    while k < |keys|
      invariant k <= |keys| && RowHolds(kids, own, vs) && heap.live == old(heap.live)
      invariant ser.m_byteArray.m_data + EncEntries(es[k..]) == header + EncEntries(es[0..])
    {
      EncEntriesStep(ser.m_byteArray.m_data, es, k);
      PushKey(ser, keys[k], heap);
      ghost var mine := RowPick(kids, own, vs, k);
      PushVariant(ser, kids[k], mine, vs[k], heap);
      k := k + 1;
    }
    EncEntriesDone(ser.m_byteArray.m_data, es);
  }

  /** `pushValue(Variant(key))`. */
  method PushKey(ser: ByteArraySerializer, key: Key, ghost heap: Heap)
    modifies ser.m_byteArray, heap
    ensures heap.live == old(heap.live)
    ensures ser.m_byteArray.m_data == old(ser.m_byteArray.m_data) + EncString(key)
  {
    hide EncString, CellHolds, ContentsHold;
    ContentsOfText(key);
    var temporary := new Variant.OfContents(Text(key), {}, [], String(key), heap);
    ser.PushString(key);
    temporary.Clear(temporary.Own(), String(key), heap);
  }

  // ---- reading -------------------------------------------------------------

  /**
   Reads one value into `x`. After a failure `x` is what it was and no allocation is left over;
   after a success only those of the new value have replaced those of the old one.
   */
  method PopVariant(ser: ByteArraySerializer, x: Variant, ghost own: set<Payload>, ghost v: Value, ghost heap: Heap)
    returns (ok: bool, ghost own': set<Payload>)
    requires ser.Valid() && Dec(ser.m_byteArray.m_data, ser.m_index).next < TWO_32
    requires x.Holds(own, v) && own <= heap.live
    modifies ser`m_index, x, own, heap
    ensures ser.Valid()
    ensures ok == Dec(ser.m_byteArray.m_data, old(ser.m_index)).Done?
    ensures ser.m_index == Dec(ser.m_byteArray.m_data, old(ser.m_index)).next
    ensures ok ==> x.Holds(own', Dec(ser.m_byteArray.m_data, old(ser.m_index)).val)
    ensures !ok ==> x.Holds(own, v) && own' == own && heap.live == old(heap.live)
    ensures !ok ==> StopsAt(ser.m_byteArray.m_data, old(ser.m_index), ser.m_index)
    ensures Exchanged(old(heap.live), heap.live, own, own') && fresh(own' - own)
    decreases |ser.m_byteArray.m_data| - ser.m_index, 0
  {
    own' := own;
    ghost var b, start := ser.m_byteArray.m_data, ser.m_index;
    DecBySignature(b, start);
    FailsWhereItStops(b, start, Dec(b, start).next);
    ExchangedSame(heap.live, own);
    hide Dec, Outcome, CellHolds, Exchanged, SignatureType, StopsAt;
    if ser.Available() <= 0 {
      return false, own';
    }
    var t;
    ok, t := ser.PopTypeSignature(Type_Invalid);
    if ok {
      assert Dec(b, start) == Outcome(b, ser.m_index, t);
      ok, own' := PopTyped(ser, t, x, own, v, heap);
    }
  }

  /** The part of reading a value behind its signature. */
  method PopTyped(ser: ByteArraySerializer, t: Type,
    x: Variant, ghost own: set<Payload>, ghost v: Value, ghost heap: Heap)
    returns (ok: bool, ghost own': set<Payload>)
    requires ser.Valid() && Outcome(ser.m_byteArray.m_data, ser.m_index, t).next < TWO_32
    requires x.Holds(own, v) && own <= heap.live
    modifies ser`m_index, x, own, heap
    ensures ser.Valid()
    ensures ok == Outcome(ser.m_byteArray.m_data, old(ser.m_index), t).Done?
    ensures ser.m_index == Outcome(ser.m_byteArray.m_data, old(ser.m_index), t).next
    ensures ok ==> x.Holds(own', Outcome(ser.m_byteArray.m_data, old(ser.m_index), t).val)
    ensures !ok ==> x.Holds(own, v) && own' == own && heap.live == old(heap.live)
    ensures Exchanged(old(heap.live), heap.live, own, own') && fresh(own' - own)
    decreases |ser.m_byteArray.m_data| - ser.m_index, 5
  {
    own' := own;
    match t {
      case Type_List => ok, own' := PopList(ser, x, own, v, heap);
      case Type_Map => ok, own' := PopMap(ser, x, own, v, heap);
      case _ => ok, own' := PopScalar(ser, t, x, own, v, heap);
    }
  }

  method PopScalar(ser: ByteArraySerializer, t: Type,
    x: Variant, ghost own: set<Payload>, ghost v: Value, ghost heap: Heap)
    returns (ok: bool, ghost own': set<Payload>)
    requires t != Type_List && t != Type_Map
    requires ser.Valid() && Outcome(ser.m_byteArray.m_data, ser.m_index, t).next < TWO_32
    requires x.Holds(own, v) && own <= heap.live
    modifies ser`m_index, x, own, heap
    ensures ser.Valid()
    ensures ok == Outcome(ser.m_byteArray.m_data, old(ser.m_index), t).Done?
    ensures ser.m_index == Outcome(ser.m_byteArray.m_data, old(ser.m_index), t).next
    ensures ok ==> x.Holds(own', Outcome(ser.m_byteArray.m_data, old(ser.m_index), t).val)
    ensures !ok ==> x.Holds(own, v) && own' == own && heap.live == old(heap.live)
    ensures Exchanged(old(heap.live), heap.live, own, own') && fresh(own' - own)
  {
    own' := own;
    hide Outcome, CellHolds, ContentsHold;
    if t == Type_Invalid || t == Type_Null {
      ScalarOutcome(ser.m_byteArray.m_data, ser.m_index, t);
      ok := true;
      AssignEmpty(x, own, v, t, heap);
      own' := {};
    } else if t == Type_String {
      ok, own' := PopText(ser, x, own, v, heap);
    } else {
      var d;
      ok, d := PopData(ser, t);
      if ok {
        x.AssignScalar(own, v, t, d, heap);
        own' := {};
      }
    }
  }

  method PopText(ser: ByteArraySerializer, x: Variant, ghost own: set<Payload>, ghost v: Value, ghost heap: Heap)
    returns (ok: bool, ghost own': set<Payload>)
    requires ser.Valid() && Outcome(ser.m_byteArray.m_data, ser.m_index, Type_String).next < TWO_32
    requires x.Holds(own, v) && own <= heap.live
    modifies ser`m_index, x, own, heap
    ensures ser.Valid()
    ensures ok == Outcome(ser.m_byteArray.m_data, old(ser.m_index), Type_String).Done?
    ensures ser.m_index == Outcome(ser.m_byteArray.m_data, old(ser.m_index), Type_String).next
    ensures ok ==> x.Holds(own', Outcome(ser.m_byteArray.m_data, old(ser.m_index), Type_String).val)
    ensures !ok ==> x.Holds(own, v) && own' == own && heap.live == old(heap.live)
    ensures Exchanged(old(heap.live), heap.live, own, own') && fresh(own' - own)
  {
    own' := own;
    ScalarOutcome(ser.m_byteArray.m_data, ser.m_index, Type_String);
    hide Outcome, ReadString, CellHolds, ContentsHold;
    var s;
    ok, s := ser.PopString([]);
    if ok {
      ContentsOfText(s);
      own' := x.AssignContents(own, v, Text(s), {}, [], String(s), heap);
    }
  }

  /** The data of a Boolean, an integer or a real. */
  method PopData(ser: ByteArraySerializer, t: Type) returns (ok: bool, d: Data)
    requires ser.Valid() && Outcome(ser.m_byteArray.m_data, ser.m_index, t).next < TWO_32
    requires (t == Type_Boolean || t == Type_Integer || t == Type_Real)
    modifies ser`m_index
    ensures ser.Valid()
    ensures ok == Outcome(ser.m_byteArray.m_data, old(ser.m_index), t).Done?
    ensures ser.m_index == Outcome(ser.m_byteArray.m_data, old(ser.m_index), t).next
    ensures ok ==> d != Zero && !d.AsPtr?
    ensures ok ==> ScalarOf(t, d) == Some(Outcome(ser.m_byteArray.m_data, old(ser.m_index), t).val)
  {
    ScalarOutcome(ser.m_byteArray.m_data, ser.m_index, t);
    hide Outcome, ReadRaw, UnpackInt32;
    if t == Type_Boolean {
      var b;
      ok, b := ser.PopBoolean();
      d := AsBool(b);
    } else if t == Type_Integer {
      var i;
      ok, i := ser.PopInteger();
      d := AsInt(i);
    } else {
      var bits;
      ok, bits := ser.PopReal();
      d := AsReal(bits);
    }
  }

  lemma OwnsNothing(c: Cell, own: set<Payload>, v: Value)
    requires CellHolds(c, own, v) && !v.String? && !v.List? && !v.Map?
    ensures own == {}
  {
    if c.m_data.AsPtr? {
      PayloadOfCell(c, own, v);
      PayloadIsContainer(c.m_data.p, own, v);
    }
  }

  lemma ExchangedSame(live: set<Payload>, own: set<Payload>)
    requires own <= live
    ensures Exchanged(live, live, own, own)
  {
  }

  /** A local container comes and goes; in between it is filled, and may be copied to `own`. */
  lemma LocalBalance(live0: set<Payload>, live1: set<Payload>, empty: set<Payload>, live2: set<Payload>,
    full: set<Payload>, live3: set<Payload>, own: set<Payload>, own': set<Payload>)
    requires own <= live0
    requires Added(live0, live1, empty) && Exchanged(live1, live2, empty, full)
    requires Exchanged(live2, live3, own, own')
    ensures full !! own && full !! own' && own + full <= live2
    ensures Exchanged(live0, live3 - full, own, own')
  {
  }

  lemma LocalGone(live0: set<Payload>, live1: set<Payload>, empty: set<Payload>, live2: set<Payload>,
    full: set<Payload>, own: set<Payload>)
    requires own <= live0
    requires Added(live0, live1, empty) && Exchanged(live1, live2, empty, full)
    ensures full !! own && own + full <= live2 && live2 - full == live0
  {
  }

  /** `value = Variant(type)` for a type without an allocation. */
  method AssignEmpty(x: Variant, ghost own: set<Payload>, ghost v: Value, t: Type, ghost heap: Heap)
    requires (t == Type_Invalid || t == Type_Null) && x.Holds(own, v) && own <= heap.live
    modifies x, heap
    ensures x.Holds({}, DefaultOf(t))
    ensures heap.live == old(heap.live) - own
  {
    hide CellHolds;
    var temporary := new Variant.OfType(t, heap);
    ghost var none := temporary.Own();
    OwnsNothing(temporary.ToCell(), none, DefaultOf(t));
    ghost var own' := x.Assign(own, v, temporary, none, DefaultOf(t), heap);
    OwnsNothing(x.ToCell(), own', DefaultOf(t));
  }

  lemma ListOutcome(b: seq<Byte>, i: nat)
    requires i <= |b|
    ensures |b| - i < 4 ==> Outcome(b, i, Type_List) == Fail(i)
    ensures |b| - i >= 4 ==>
              var r, o := ReadItems(b, i + 4, UnpackUint32(b[i..i + 4])), Outcome(b, i, Type_List);
              o.Done? == r.Done? && o.next == r.next && (r.Done? ==> o.val == List(ItemMeanings(r.val)))
  {
    ListBody(b, i);
    hide ReadItems, ReadBody, ItemMeanings, UnpackUint32;
  }

  lemma MapOutcome(b: seq<Byte>, i: nat)
    requires i <= |b|
    ensures |b| - i < 4 ==> Outcome(b, i, Type_Map) == Fail(i)
    ensures |b| - i >= 4 ==>
              var r, o := ReadEntries(b, i + 4, UnpackUint32(b[i..i + 4])), Outcome(b, i, Type_Map);
              o.Done? == r.Done? && o.next == r.next && (r.Done? ==> o.val == Map(Collect(EntryMeanings(r.val))))
  {
    MapBody(b, i);
    hide ReadEntries, ReadBody, EntryMeanings, Collect, UnpackUint32;
  }

  /** A local container, filled with the elements read, then assigned to `x` and destroyed. */
  method PopList(ser: ByteArraySerializer, x: Variant, ghost own: set<Payload>, ghost v: Value, ghost heap: Heap)
    returns (ok: bool, ghost own': set<Payload>)
    requires ser.Valid() && Outcome(ser.m_byteArray.m_data, ser.m_index, Type_List).next < TWO_32
    requires x.Holds(own, v) && own <= heap.live
    modifies ser`m_index, x, own, heap
    ensures ser.Valid()
    ensures ok == Outcome(ser.m_byteArray.m_data, old(ser.m_index), Type_List).Done?
    ensures ser.m_index == Outcome(ser.m_byteArray.m_data, old(ser.m_index), Type_List).next
    ensures ok ==> x.Holds(own', Outcome(ser.m_byteArray.m_data, old(ser.m_index), Type_List).val)
    ensures !ok ==> x.Holds(own, v) && own' == own && heap.live == old(heap.live)
    ensures Exchanged(old(heap.live), heap.live, own, own') && fresh(own' - own)
    decreases |ser.m_byteArray.m_data| - ser.m_index, 4
  {
    own' := own;
    ghost var b, start := ser.m_byteArray.m_data, ser.m_index;
    ListOutcome(b, start);
    hide Outcome, ReadRaw, ReadItems, ItemMeanings, UnpackUint32, CellHolds, Exchanged;
    ExchangedSame(heap.live, own);
    var raw;
    ok, raw := ser.PopRawValue(4);
    if !ok {
      return;
    }
    assert raw == b[start..start + 4] && ser.m_index == start + 4;
    ok, own' := PopListOf(ser, UnpackUint32(raw), x, own, v, heap);
  }

  method PopListOf(ser: ByteArraySerializer, length: nat,
    x: Variant, ghost own: set<Payload>, ghost v: Value, ghost heap: Heap)
    returns (ok: bool, ghost own': set<Payload>)
    requires ser.Valid() && ReadItems(ser.m_byteArray.m_data, ser.m_index, length).next < TWO_32
    requires x.Holds(own, v) && own <= heap.live
    modifies ser`m_index, x, own, heap
    ensures ser.Valid()
    ensures ok == ReadItems(ser.m_byteArray.m_data, old(ser.m_index), length).Done?
    ensures ser.m_index == ReadItems(ser.m_byteArray.m_data, old(ser.m_index), length).next
    ensures ok ==> x.Holds(own', List(ItemMeanings(ReadItems(ser.m_byteArray.m_data, old(ser.m_index), length).val)))
    ensures !ok ==> x.Holds(own, v) && own' == own && heap.live == old(heap.live)
    ensures Exchanged(old(heap.live), heap.live, own, own') && fresh(own' - own)
    decreases |ser.m_byteArray.m_data| - ser.m_index, 3
  {
    own' := own;
    hide ReadItems, ItemMeanings, CellHolds;
    var list := new Variant.OfType(Type_List, heap);
    ghost var empty, live1 := list.Own(), heap.live;
    hide Exchanged, Added;
    ghost var mine, vs;
    ok, mine, vs := FillList(ser, list, empty, length, heap);
    ghost var live2 := heap.live;
    LocalGone(old(heap.live), live1, empty, live2, mine, own);
    ExchangedSame(live2, own);
    if ok {
      own' := Perform(x, own, v, SetContents, list, mine, List(vs), heap);
    }
    LocalBalance(old(heap.live), live1, empty, live2, mine, heap.live, own, own');
    LiveAfter(live2, heap.live, own, own', mine);
    list.Clear(mine, List(vs), heap);
  }

  lemma LiveAfter(live: set<Payload>, live': set<Payload>, own: set<Payload>, own': set<Payload>, other: set<Payload>)
    requires Exchanged(live, live', own, own') && other <= live && other !! own
    ensures other <= live'
  {
  }

  method FillList(ser: ByteArraySerializer, list: Variant, ghost own: set<Payload>, length: nat, ghost heap: Heap)
    returns (ok: bool, ghost own': set<Payload>, ghost vs: seq<Value>)
    requires ser.Valid() && ReadItems(ser.m_byteArray.m_data, ser.m_index, length).next < TWO_32
    requires list.Holds(own, List([])) && own <= heap.live
    modifies ser`m_index, list, own, heap
    ensures ser.Valid()
    ensures ok == ReadItems(ser.m_byteArray.m_data, old(ser.m_index), length).Done?
    ensures ser.m_index == ReadItems(ser.m_byteArray.m_data, old(ser.m_index), length).next
    ensures ok ==> vs == ItemMeanings(ReadItems(ser.m_byteArray.m_data, old(ser.m_index), length).val)
    ensures list.Holds(own', List(vs))
    ensures Exchanged(old(heap.live), heap.live, own, own') && fresh(own' - own)
    decreases |ser.m_byteArray.m_data| - ser.m_index, 2
  {
    hide StopsAt, Read, Meaning, ItemMeanings, CellHolds;
    ghost var b, start := ser.m_byteArray.m_data, ser.m_index;
    ghost var ws: seq<Wire> := [];
    own', vs := own, [];
    NoMeanings();
    PrependNone(ReadItems(b, start, length));
    var i := 0;
    while i < length
      invariant ser.Valid() && start <= ser.m_index && i <= length
      invariant vs == ItemMeanings(ws) && list.Holds(own', List(vs))
      invariant Exchanged(old(heap.live), heap.live, own, own') && fresh(own' - own)
      invariant ReadItems(b, start, length) == Prepend(ws, ReadItems(b, ser.m_index, length - i))
    {
      ghost var w := Read(b, ser.m_index);
      ok, own' := PopElement(ser, list, own', List(vs), heap);
      if !ok {
        return;
      }
      ItemMeaningsSnoc(ws, w.val);
      PrependStep(ws, w.val, ReadItems(b, ser.m_index, length - i - 1));
      ws := ws + [w.val];
      vs := vs + [Meaning(w.val)];
      i := i + 1;
    }
    PrependFinished(ws, ser.m_index);
    ok := true;
  }

  /** Reads one variant and appends a copy of it. */
  method PopElement(ser: ByteArraySerializer, list: Variant, ghost own: set<Payload>, ghost v: Value, ghost heap: Heap)
    returns (ok: bool, ghost own': set<Payload>)
    requires ser.Valid() && Dec(ser.m_byteArray.m_data, ser.m_index).next < TWO_32
    requires list.Holds(own, v) && v.List? && own <= heap.live
    modifies ser`m_index, list, own, heap
    ensures ser.Valid()
    ensures ok == Dec(ser.m_byteArray.m_data, old(ser.m_index)).Done?
    ensures ser.m_index == Dec(ser.m_byteArray.m_data, old(ser.m_index)).next
    ensures ok ==> list.Holds(own', List(v.items + [Dec(ser.m_byteArray.m_data, old(ser.m_index)).val]))
    ensures !ok ==> list.Holds(own, v) && own' == own
    ensures Exchanged(old(heap.live), heap.live, own, own') && fresh(own' - own)
    decreases |ser.m_byteArray.m_data| - ser.m_index, 1
  {
    own' := own;
    hide StopsAt, Dec, CellHolds;
    var e := new Variant();
    ghost var mine;
    ok, mine := PopVariant(ser, e, {}, Invalid, heap);
    if ok {
      ghost var u := Dec(ser.m_byteArray.m_data, old(ser.m_index)).val;
      own' := Perform(list, own, v, Push, e, mine, u, heap);
      e.Clear(mine, u, heap);
    }
  }

  method PopMap(ser: ByteArraySerializer, x: Variant, ghost own: set<Payload>, ghost v: Value, ghost heap: Heap)
    returns (ok: bool, ghost own': set<Payload>)
    requires ser.Valid() && Outcome(ser.m_byteArray.m_data, ser.m_index, Type_Map).next < TWO_32
    requires x.Holds(own, v) && own <= heap.live
    modifies ser`m_index, x, own, heap
    ensures ser.Valid()
    ensures ok == Outcome(ser.m_byteArray.m_data, old(ser.m_index), Type_Map).Done?
    ensures ser.m_index == Outcome(ser.m_byteArray.m_data, old(ser.m_index), Type_Map).next
    ensures ok ==> x.Holds(own', Outcome(ser.m_byteArray.m_data, old(ser.m_index), Type_Map).val)
    ensures !ok ==> x.Holds(own, v) && own' == own && heap.live == old(heap.live)
    ensures Exchanged(old(heap.live), heap.live, own, own') && fresh(own' - own)
    decreases |ser.m_byteArray.m_data| - ser.m_index, 4
  {
    own' := own;
    ghost var b, start := ser.m_byteArray.m_data, ser.m_index;
    MapOutcome(b, start);
    hide Outcome, ReadRaw, ReadEntries, EntryMeanings, Collect, UnpackUint32, CellHolds, Exchanged;
    ExchangedSame(heap.live, own);
    var raw;
    ok, raw := ser.PopRawValue(4);
    if !ok {
      return;
    }
    assert raw == b[start..start + 4] && ser.m_index == start + 4;
    ok, own' := PopMapOf(ser, UnpackUint32(raw), x, own, v, heap);
  }

  method PopMapOf(ser: ByteArraySerializer, length: nat,
    x: Variant, ghost own: set<Payload>, ghost v: Value, ghost heap: Heap)
    returns (ok: bool, ghost own': set<Payload>)
    requires ser.Valid() && ReadEntries(ser.m_byteArray.m_data, ser.m_index, length).next < TWO_32
    requires x.Holds(own, v) && own <= heap.live
    modifies ser`m_index, x, own, heap
    ensures ser.Valid()
    ensures ok == ReadEntries(ser.m_byteArray.m_data, old(ser.m_index), length).Done?
    ensures ser.m_index == ReadEntries(ser.m_byteArray.m_data, old(ser.m_index), length).next
    ensures ok ==> x.Holds(own',
                     Map(Collect(EntryMeanings(ReadEntries(ser.m_byteArray.m_data, old(ser.m_index), length).val))))
    ensures !ok ==> x.Holds(own, v) && own' == own && heap.live == old(heap.live)
    ensures Exchanged(old(heap.live), heap.live, own, own') && fresh(own' - own)
    decreases |ser.m_byteArray.m_data| - ser.m_index, 3
  {
    own' := own;
    hide ReadEntries, EntryMeanings, Collect, CellHolds;
    var map_ := new Variant.OfType(Type_Map, heap);
    ghost var empty, live1 := map_.Own(), heap.live;
    hide Exchanged, Added;
    ghost var mine, es;
    ok, mine, es := FillMap(ser, map_, empty, length, heap);
    ghost var live2 := heap.live;
    LocalGone(old(heap.live), live1, empty, live2, mine, own);
    ExchangedSame(live2, own);
    if ok {
      own' := Perform(x, own, v, SetContents, map_, mine, Map(es), heap);
    }
    LocalBalance(old(heap.live), live1, empty, live2, mine, heap.live, own, own');
    LiveAfter(live2, heap.live, own, own', mine);
    map_.Clear(mine, Map(es), heap);
  }

  method FillMap(ser: ByteArraySerializer, map_: Variant, ghost own: set<Payload>, length: nat, ghost heap: Heap)
    returns (ok: bool, ghost own': set<Payload>, ghost es: seq<Entry<Value>>)
    requires ser.Valid() && ReadEntries(ser.m_byteArray.m_data, ser.m_index, length).next < TWO_32
    requires map_.Holds(own, Map([])) && own <= heap.live
    modifies ser`m_index, map_, own, heap
    ensures ser.Valid()
    ensures ok == ReadEntries(ser.m_byteArray.m_data, old(ser.m_index), length).Done?
    ensures ser.m_index == ReadEntries(ser.m_byteArray.m_data, old(ser.m_index), length).next
    ensures ok ==>
              es == Collect(EntryMeanings(ReadEntries(ser.m_byteArray.m_data, old(ser.m_index), length).val))
    ensures map_.Holds(own', Map(es))
    ensures Exchanged(old(heap.live), heap.live, own, own') && fresh(own' - own)
    decreases |ser.m_byteArray.m_data| - ser.m_index, 2
  {
    hide StopsAt, Read, Meaning, EntryMeanings, Collect, Put, CellHolds;
    ghost var b, start := ser.m_byteArray.m_data, ser.m_index;
    ghost var ws: seq<Entry<Wire>> := [];
    own', es := own, [];
    NoMeanings();
    PrependNone(ReadEntries(b, start, length));
    var i := 0;
    while i < length
      invariant ser.Valid() && start <= ser.m_index && i <= length
      invariant es == Collect(EntryMeanings(ws)) && map_.Holds(own', Map(es))
      invariant Exchanged(old(heap.live), heap.live, own, own') && fresh(own' - own)
      invariant ReadEntries(b, start, length) == Prepend(ws, ReadEntries(b, ser.m_index, length - i))
    {
      ghost var at := ser.m_index;
      ok, own' := PopEntry(ser, map_, own', Map(es), heap);
      EntryStep(b, at, length - i);
      if !ok {
        return;
      }
      ghost var e := Entry(Read(b, at).val.s, Read(b, Read(b, at).next).val);
      EntryMeaningsSnoc(ws, e);
      PrependStep(ws, e, ReadEntries(b, ser.m_index, length - i - 1));
      ws := ws + [e];
      es := Put(es, e.key, Meaning(e.val));
      i := i + 1;
    }
    PrependFinished(ws, ser.m_index);
    ok := true;
  }

  lemma EntryStep(b: seq<Byte>, i: nat, n: nat)
    requires i <= |b| && n > 0
    ensures ReadEntries(b, i, n) ==
            match ReadEntry(b, i)
            case Fail(j) => Fail(j)
            case Done(e, j) => Prepend([e], ReadEntries(b, j, n - 1))
    ensures ReadEntry(b, i).Done? ==>
              && Read(b, i).Done? && Read(b, i).val.WString? && Read(b, Read(b, i).next).Done?
              && ReadEntry(b, i).val == Entry(Read(b, i).val.s, Read(b, Read(b, i).next).val)
  {
    hide Read;
  }

  /** Reads a key and a value and stores a copy of the value under the key. */
  method PopEntry(ser: ByteArraySerializer, map_: Variant, ghost own: set<Payload>, ghost v: Value, ghost heap: Heap)
    returns (ok: bool, ghost own': set<Payload>)
    requires ser.Valid() && ReadEntry(ser.m_byteArray.m_data, ser.m_index).next < TWO_32
    requires map_.Holds(own, v) && v.Map? && own <= heap.live
    modifies ser`m_index, map_, own, heap
    ensures ser.Valid()
    ensures ok == ReadEntry(ser.m_byteArray.m_data, old(ser.m_index)).Done?
    ensures ser.m_index == ReadEntry(ser.m_byteArray.m_data, old(ser.m_index)).next
    ensures ok ==> var e := ReadEntry(ser.m_byteArray.m_data, old(ser.m_index)).val;
                   map_.Holds(own', Map(Put(v.entries, e.key, Meaning(e.val))))
    ensures !ok ==> map_.Holds(own, v) && own' == own
    ensures Exchanged(old(heap.live), heap.live, own, own') && fresh(own' - own)
    decreases |ser.m_byteArray.m_data| - ser.m_index, 1
  {
    own' := own;
    ExchangedSame(heap.live, own);
    hide StopsAt, Read, Meaning, CellHolds, PayloadHolds, Put;
    ghost var b, start := ser.m_byteArray.m_data, ser.m_index;
    KeyMeaning(if Read(b, start).Done? then Read(b, start).val else WNull);
    var k := new Variant();
    ghost var mine;
    ok, mine := PopVariant(ser, k, {}, Invalid, heap);
    if ok {
      ok, own' := PopBehindKey(ser, k, mine, Meaning(Read(b, start).val), map_, own, v, heap, old(heap.live));
    }
  }

  lemma TemporaryBalance(live0: set<Payload>, live1: set<Payload>, mine: set<Payload>, live2: set<Payload>,
    own: set<Payload>, own': set<Payload>)
    requires own <= live0 && Exchanged(live0, live1, {}, mine) && Exchanged(live1, live2, own, own')
    ensures mine !! own && mine <= live2 && Exchanged(live0, live2 - mine, own, own')
  {
  }

  lemma TemporaryApart(live0: set<Payload>, live1: set<Payload>, mine: set<Payload>, own: set<Payload>)
    requires own <= live0 && Exchanged(live0, live1, {}, mine)
    ensures mine !! own && own + mine <= live1
  {
  }

  /** The key has been read into `k`, which is destroyed in the end. */
  method PopBehindKey(ser: ByteArraySerializer, k: Variant, ghost mine: set<Payload>, ghost key: Value,
    map_: Variant, ghost own: set<Payload>, ghost v: Value, ghost heap: Heap, ghost live0: set<Payload>)
    returns (ok: bool, ghost own': set<Payload>)
    requires ser.Valid() && (key.String? ==> Dec(ser.m_byteArray.m_data, ser.m_index).next < TWO_32)
    requires k != map_ && k.Holds(mine, key) && map_.Holds(own, v) && v.Map?
    requires own <= live0 && Exchanged(live0, heap.live, {}, mine)
    modifies ser`m_index, k, map_, own, heap
    ensures ser.Valid()
    ensures ok == (key.String? && Dec(ser.m_byteArray.m_data, old(ser.m_index)).Done?)
    ensures ser.m_index
         == if key.String? then Dec(ser.m_byteArray.m_data, old(ser.m_index)).next else old(ser.m_index)
    ensures ok ==> map_.Holds(own',
                     Map(Put(v.entries, key.s, Dec(ser.m_byteArray.m_data, old(ser.m_index)).val)))
    ensures !ok ==> map_.Holds(own, v) && own' == own
    ensures Exchanged(live0, heap.live, own, own') && fresh(own' - own)
    decreases |ser.m_byteArray.m_data| - ser.m_index, 2
  {
    own' := own;
    TagIsType(k.ToCell(), mine, key);
    ghost var live1 := heap.live;
    TemporaryApart(live0, live1, mine, own);
    ExchangedSame(live1, own);
    hide Dec, CellHolds, PayloadHolds, Put, Exchanged;
    ok := k.m_type == Type_String;
    if ok {
      Container(k.ToCell(), mine, key);
      TextOfPayload(k.m_data.p, mine, key);
      var s := k.m_data.p.contents.s;
      ok, own' := PopUnder(ser, s, map_, own, v, heap);
    }
    TemporaryBalance(live0, live1, mine, heap.live, own, own');
    k.Clear(mine, key, heap);
  }

  lemma TextOfPayload(p: Payload, own: set<Payload>, v: Value)
    requires PayloadHolds(p, own, v) && v.String?
    ensures p.contents == Text(v.s)
  {
  }

  /** Reads the value for a key. */
  method PopUnder(ser: ByteArraySerializer, key: Key,
    map_: Variant, ghost own: set<Payload>, ghost v: Value, ghost heap: Heap)
    returns (ok: bool, ghost own': set<Payload>)
    requires ser.Valid() && Dec(ser.m_byteArray.m_data, ser.m_index).next < TWO_32
    requires map_.Holds(own, v) && v.Map? && own <= heap.live
    modifies ser`m_index, map_, own, heap
    ensures ser.Valid()
    ensures ok == Dec(ser.m_byteArray.m_data, old(ser.m_index)).Done?
    ensures ser.m_index == Dec(ser.m_byteArray.m_data, old(ser.m_index)).next
    ensures ok ==> map_.Holds(own',
                     Map(Put(v.entries, key, Dec(ser.m_byteArray.m_data, old(ser.m_index)).val)))
    ensures !ok ==> map_.Holds(own, v) && own' == own && heap.live == old(heap.live)
    ensures Exchanged(old(heap.live), heap.live, own, own') && fresh(own' - own)
    decreases |ser.m_byteArray.m_data| - ser.m_index, 1
  {
    own' := own;
    hide StopsAt, Dec, CellHolds, Put;
    var e := new Variant();
    ghost var mine;
    ok, mine := PopVariant(ser, e, {}, Invalid, heap);
    if ok {
      ghost var u := Dec(ser.m_byteArray.m_data, old(ser.m_index)).val;
      own' := Perform(map_, own, v, SetEntry(key), e, mine, u, heap);
      e.Clear(mine, u, heap);
    }
  }

  // ---- both ----------------------------------------------------------------

  lemma HeapRoundTrips(c: Cell, own: set<Payload>, v: Value)
    requires CellHolds(c, own, v)
    ensures Dec(Enc(v), 0) == Done(v, |Enc(v)|) <==> Fits(v)
  {
    hide Fits, Dec, Enc;
    HeapRoundTrip(c, [], []);
    assert [] + Enc(v) + [] == Enc(v);
  }

  /**
   Writes a variant to a new byte array and reads another one from it: an equal value in
   allocations of its own and no byte left over, if and only if the lengths fit.
   */
  method ThroughBytes(x: Variant, ghost own: set<Payload>, ghost v: Value, ghost heap: Heap)
    returns (ok: bool, y: Variant, ghost own': set<Payload>, ghost u: Value, rest: nat)
    requires x.Holds(own, v) && own <= heap.live && Dec(Enc(v), 0).next < TWO_32
    modifies heap
    ensures x.Holds(own, v) && y.Holds(own', u) && fresh(y) && fresh(own')
    ensures Added(old(heap.live), heap.live, own')
    ensures Fits(v) <==> ok && u == v && rest == 0
  {
    HeapRoundTrips(x.ToCell(), own, v);
    hide StopsAt, CellHolds, Enc, Dec, Fits, Added;
    var ser := new ByteArraySerializer();
    PushVariant(ser, x.ToCell(), own, v, heap);
    assert ser.m_byteArray.m_data == Enc(v);
    ok, y, own', u := PopNew(ser, heap);
    rest := ser.Available();
  }

  /** Reads a value into a new variant. */
  method PopNew(ser: ByteArraySerializer, ghost heap: Heap)
    returns (ok: bool, y: Variant, ghost own': set<Payload>, ghost u: Value)
    requires ser.Valid() && Dec(ser.m_byteArray.m_data, ser.m_index).next < TWO_32
    modifies ser`m_index, heap
    ensures ser.Valid() && ser.m_index == Dec(ser.m_byteArray.m_data, old(ser.m_index)).next
    ensures ok == Dec(ser.m_byteArray.m_data, old(ser.m_index)).Done?
    ensures u == if ok then Dec(ser.m_byteArray.m_data, old(ser.m_index)).val else Invalid
    ensures y.Holds(own', u) && fresh(y) && fresh(own') && Added(old(heap.live), heap.live, own')
  {
    hide StopsAt, CellHolds, Dec, Exchanged, Added;
    y := new Variant();
    ok, own' := PopVariant(ser, y, {}, Invalid, heap);
    NewOnly(old(heap.live), heap.live, own');
    u := if ok then Dec(ser.m_byteArray.m_data, old(ser.m_index)).val else Invalid;
  }

  lemma NewOnly(live: set<Payload>, live': set<Payload>, own: set<Payload>)
    requires Exchanged(live, live', {}, own)
    ensures Added(live, live', own)
  {
  }
}
