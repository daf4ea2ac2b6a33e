/**
 The byte format as a grammar: a `Wire` is the parse tree of one serialized value,
 `Flatten` its bytes, `Meaning` the value it stands for.
 */
module WireFormat {
  import opened Wrappers
  import opened Bytes
  import opened OrderedMap
  import opened VariantValue

  datatype Wire =
    | WInvalid
    | WNull
    | WBoolean(flag: Byte)
    | WInteger(i: Int32)
    | WReal(bits: Bits64)
    | WString(s: seq<Byte>)
    | WList(items: seq<Wire>)
    | WMap(entries: seq<Entry<Wire>>)

  /** The signature table, indexed by type. */
  function Signature(t: Type): Byte {
    match t
    case Type_Invalid => 'X' as int
    case Type_Null => 'N' as int
    case Type_Boolean => 'B' as int
    case Type_Integer => 'I' as int
    case Type_Real => 'R' as int
    case Type_String => 'S' as int
    case Type_List => 'L' as int
    case Type_Map => 'M' as int
  }

  /** The signature lookup map. */
  function SignatureType(c: Byte): Option<Type> {
    if c == 'X' as int then Some(Type_Invalid)
    else if c == 'N' as int then Some(Type_Null)
    else if c == 'B' as int then Some(Type_Boolean)
    else if c == 'I' as int then Some(Type_Integer)
    else if c == 'R' as int then Some(Type_Real)
    else if c == 'S' as int then Some(Type_String)
    else if c == 'L' as int then Some(Type_List)
    else if c == 'M' as int then Some(Type_Map)
    else None
  }

  /** The two tables are inverse to each other. */
  lemma SignatureTables(c: Byte, t: Type)
    ensures SignatureType(c) == Some(t) <==> Signature(t) == c
  {
    match t {
      case Type_Invalid =>
      case Type_Null =>
      case Type_Boolean =>
      case Type_Integer =>
      case Type_Real =>
      case Type_String =>
      case Type_List =>
      case Type_Map =>
    }
  }

  /** The length fields of the tree can hold its lengths. */
  predicate WellFormed(w: Wire)
    decreases w, 1
  {
    match w
    case WString(s) => |s| < TWO_32
    case WList(items) => |items| < TWO_32 && WellFormedItems(items)
    case WMap(entries) => |entries| < TWO_32 && WellFormedEntries(entries)
    case _ => true
  }

  predicate WellFormedItems(ws: seq<Wire>)
    decreases ws, 0
  {
    forall k | 0 <= k < |ws| :: WellFormed(ws[k])
  }

  predicate WellFormedEntries(es: seq<Entry<Wire>>)
    decreases es, 0
  {
    forall k | 0 <= k < |es| :: |es[k].key| < TWO_32 && WellFormed(es[k].val)
  }

  function FlattenString(s: seq<Byte>): seq<Byte>
    requires |s| < TWO_32
  {
    [Signature(Type_String)] + PackUint32(|s|) + s
  }

  function Flatten(w: Wire): (s: seq<Byte>)
    requires WellFormed(w)
    ensures s != []
    decreases w, 1
  {
    match w
    case WInvalid => [Signature(Type_Invalid)]
    case WNull => [Signature(Type_Null)]
    case WBoolean(flag) => [Signature(Type_Boolean)] + [flag]
    case WInteger(i) => [Signature(Type_Integer)] + PackInt32(i)
    case WReal(bits) => [Signature(Type_Real)] + bits
    case WString(s) => FlattenString(s)
    case WList(items) => [Signature(Type_List)] + PackUint32(|items|) + FlattenItems(items)
    case WMap(entries) => [Signature(Type_Map)] + PackUint32(|entries|) + FlattenEntries(entries)
  }

  function FlattenItems(ws: seq<Wire>): seq<Byte>
    requires WellFormedItems(ws)
    decreases ws, 0
  {
    if ws == [] then [] else Flatten(ws[0]) + FlattenItems(ws[1..])
  }

  function FlattenEntries(es: seq<Entry<Wire>>): seq<Byte>
    requires WellFormedEntries(es)
    decreases es, 0
  {
    if es == [] then [] else FlattenEntry(es[0]) + FlattenEntries(es[1..])
  }

  function FlattenEntry(e: Entry<Wire>): (s: seq<Byte>)
    requires |e.key| < TWO_32 && WellFormed(e.val)
    ensures |s| >= 6
    decreases e, 2
  {
    FlattenString(e.key) + Flatten(e.val)
  }

  /** A Boolean byte is true when it is not zero; a map binds each key to its last occurrence. */
  function Meaning(w: Wire): Value
    decreases w, 1
  {
    match w
    case WInvalid => Invalid
    case WNull => Null
    case WBoolean(flag) => Boolean(flag != 0)
    case WInteger(i) => Integer(i)
    case WReal(bits) => Real(bits)
    case WString(s) => String(s)
    case WList(items) => List(ItemMeanings(items))
    case WMap(entries) => Map(Collect(EntryMeanings(entries)))
  }

  function ItemMeanings(ws: seq<Wire>): (vs: seq<Value>)
    ensures |vs| == |ws|
    ensures forall k | 0 <= k < |ws| :: vs[k] == Meaning(ws[k])
    decreases ws, 0
  {
    if ws == [] then []
    else ItemMeanings(ws[..|ws| - 1]) + [Meaning(ws[|ws| - 1])]
  }

  function EntryMeanings(es: seq<Entry<Wire>>): (fs: seq<Entry<Value>>)
    ensures |fs| == |es|
    ensures forall k | 0 <= k < |es| :: fs[k] == Entry(es[k].key, Meaning(es[k].val))
    decreases es, 0
  {
    if es == [] then []
    else
      var last := es[|es| - 1];
      EntryMeanings(es[..|es| - 1]) + [Entry(last.key, Meaning(last.val))]
  }

  /** The tree the encoder writes for a value. */
  function Canon(v: Value): Wire
    decreases v, 1
  {
    match v
    case Invalid => WInvalid
    case Null => WNull
    case Boolean(b) => WBoolean(if b then 1 else 0)
    case Integer(i) => WInteger(i)
    case Real(bits) => WReal(bits)
    case String(s) => WString(s)
    case List(items) => WList(CanonItems(items))
    case Map(entries) => WMap(CanonEntries(entries))
  }

  function CanonItems(vs: seq<Value>): (ws: seq<Wire>)
    ensures |ws| == |vs|
    ensures forall k | 0 <= k < |vs| :: ws[k] == Canon(vs[k])
    decreases vs, 0
  {
    if vs == [] then [] else [Canon(vs[0])] + CanonItems(vs[1..])
  }

  function CanonEntries(es: seq<Entry<Value>>): (fs: seq<Entry<Wire>>)
    ensures |fs| == |es|
    ensures forall k | 0 <= k < |es| :: fs[k] == Entry(es[k].key, Canon(es[k].val))
    decreases es, 0
  {
    if es == [] then [] else [Entry(es[0].key, Canon(es[0].val))] + CanonEntries(es[1..])
  }

  /** Boolean bytes are 0 or 1 and every map level is strictly ascending. */
  predicate Canonical(w: Wire)
    decreases w, 1
  {
    match w
    case WBoolean(flag) => flag <= 1
    case WList(items) => CanonicalItems(items)
    case WMap(entries) => Ascending(entries) && CanonicalEntries(entries)
    case _ => true
  }

  predicate CanonicalItems(ws: seq<Wire>)
    decreases ws, 0
  {
    forall k | 0 <= k < |ws| :: Canonical(ws[k])
  }

  predicate CanonicalEntries(es: seq<Entry<Wire>>)
    decreases es, 0
  {
    forall k | 0 <= k < |es| :: Canonical(es[k].val)
  }

  /** Scalars and strings have depth 0, an empty container has depth 1. */
  function Depth(w: Wire): nat
    decreases w, 1
  {
    match w
    case WList(items) => 1 + ItemsDepth(items)
    case WMap(entries) => 1 + EntriesDepth(entries)
    case _ => 0
  }

  function ItemsDepth(ws: seq<Wire>): nat
    decreases ws, 0
  {
    if ws == [] then 0 else Max(Depth(ws[0]), ItemsDepth(ws[1..]))
  }

  function EntriesDepth(es: seq<Entry<Wire>>): nat
    decreases es, 0
  {
    if es == [] then 0 else Max(Depth(es[0].val), EntriesDepth(es[1..]))
  }

  function Max(a: nat, b: nat): nat {
    if a < b then b else a
  }
}
