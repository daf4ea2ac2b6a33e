/** The abstract value of a `Variant`: eight types, lists and maps nested to any depth. */
module VariantValue {
  import opened Bytes
  import opened OrderedMap

  datatype Type =
    | Type_Invalid
    | Type_Null
    | Type_Boolean
    | Type_Integer
    | Type_Real
    | Type_String
    | Type_List
    | Type_Map

  datatype Value =
    | Invalid
    | Null
    | Boolean(b: bool)
    | Integer(i: Int32)
    | Real(bits: Bits64)
    | String(s: seq<Byte>)
    | List(items: seq<Value>)
    | Map(entries: seq<Entry<Value>>)

  function TypeOf(v: Value): Type {
    match v
    case Invalid => Type_Invalid
    case Null => Type_Null
    case Boolean(_) => Type_Boolean
    case Integer(_) => Type_Integer
    case Real(_) => Type_Real
    case String(_) => Type_String
    case List(_) => Type_List
    case Map(_) => Type_Map
  }

  /** Every map level lists its keys in strictly ascending order, as a `std::map` does. */
  predicate Ordered(v: Value)
    decreases v, 1
  {
    match v
    case List(items) => OrderedItems(items)
    case Map(entries) => Ascending(entries) && OrderedEntries(entries)
    case _ => true
  }

  predicate OrderedItems(vs: seq<Value>)
    decreases vs, 0
  {
    forall k | 0 <= k < |vs| :: Ordered(vs[k])
  }

  predicate OrderedEntries(es: seq<Entry<Value>>)
    decreases es, 0
  {
    forall k | 0 <= k < |es| :: Ordered(es[k].val)
  }

  /** Every string length, list size and map size can be written as an `unsigned`. */
  predicate Fits(v: Value)
    decreases v, 1
  {
    match v
    case String(s) => |s| < TWO_32
    case List(items) => |items| < TWO_32 && FitItems(items)
    case Map(entries) => |entries| < TWO_32 && FitEntries(entries)
    case _ => true
  }

  predicate FitItems(vs: seq<Value>)
    decreases vs, 0
  {
    forall k | 0 <= k < |vs| :: Fits(vs[k])
  }

  predicate FitEntries(es: seq<Entry<Value>>)
    decreases es, 0
  {
    forall k | 0 <= k < |es| :: |es[k].key| < TWO_32 && Fits(es[k].val)
  }
}
