/**
 What `pushValue` appends and what `popValue` reads, as functions of the value and of the
 buffer and index.
 */
module Codec {
  import opened Bytes
  import opened OrderedMap
  import opened VariantValue
  import opened WireFormat

  // ---- writing -------------------------------------------------------------

  /** Lengths are cut to 32 bits: a longer string loses its tail, a larger container its count. */
  function Enc(v: Value): (s: seq<Byte>)
    ensures s != []
    decreases v, 1
  {
    match v
    case Invalid => [Signature(Type_Invalid)]
    case Null => [Signature(Type_Null)]
    case Boolean(b) => [Signature(Type_Boolean)] + [if b then 1 else 0]
    case Integer(i) => [Signature(Type_Integer)] + PackInt32(i)
    case Real(bits) => [Signature(Type_Real)] + bits
    case String(s) => EncString(s)
    case List(items) => [Signature(Type_List)] + PackUint32(Truncate(|items|)) + EncItems(items)
    case Map(entries) =>
      [Signature(Type_Map)] + PackUint32(Truncate(|entries|)) + EncEntries(entries)
  }

  function EncString(s: seq<Byte>): (r: seq<Byte>)
    ensures r != []
  {
    [Signature(Type_String)] + PackUint32(Truncate(|s|)) + s[..Truncate(|s|)]
  }

  /** The concatenated encodings of a sequence of values. */
  function EncItems(vs: seq<Value>): seq<Byte>
    decreases vs, 0
  {
    if vs == [] then [] else Enc(vs[0]) + EncItems(vs[1..])
  }

  function EncEntries(es: seq<Entry<Value>>): seq<Byte>
    decreases es, 0
  {
    if es == [] then [] else EncEntry(es[0]) + EncEntries(es[1..])
  }

  function EncEntry(e: Entry<Value>): seq<Byte>
    decreases e, 2
  {
    EncString(e.key) + Enc(e.val)
  }

  // ---- reading -------------------------------------------------------------

  /** Outcome of reading at an index; `next` is where the index stands afterwards, also on failure. */
  datatype Parse<+T> = Fail(next: nat) | Done(val: T, next: nat)

  function AsList(r: Parse<seq<Wire>>): Parse<Wire> {
    match r
    case Fail(j) => Fail(j)
    case Done(ws, j) => Done(WList(ws), j)
  }

  function AsMap(r: Parse<seq<Entry<Wire>>>): Parse<Wire> {
    match r
    case Fail(j) => Fail(j)
    case Done(es, j) => Done(WMap(es), j)
  }

  /** The items `ws` followed by those of `rest`. */
  function Prepend<T>(ws: seq<T>, rest: Parse<seq<T>>): Parse<seq<T>> {
    match rest
    case Fail(j) => Fail(j)
    case Done(xs, j) => Done(ws + xs, j)
  }

  /** The next `n` raw bytes; a failure does not move the index. */
  function ReadRaw(b: seq<Byte>, i: nat, n: nat): (r: Parse<seq<Byte>>)
    requires i <= |b|
    ensures i <= r.next <= |b|
    ensures r.Done? ==> r.next == i + n && r.val == b[i..i + n]
  {
    if |b| - i < n then Fail(i) else Done(b[i..i + n], i + n)
  }

  /** A 32-bit length followed by that many bytes. */
  function ReadString(b: seq<Byte>, i: nat): (r: Parse<seq<Byte>>)
    requires i <= |b|
    ensures i <= r.next <= |b|
  {
    match ReadRaw(b, i, 4)
    case Fail(j) => Fail(j)
    case Done(raw, j) => ReadRaw(b, j, UnpackUint32(raw))
  }

  function Read(b: seq<Byte>, i: nat): (r: Parse<Wire>)
    requires i <= |b|
    ensures i <= r.next <= |b|
    ensures r.Done? ==> i < r.next
    decreases |b| - i, 0, 0
  {
    if i == |b| then Fail(i)
    else
      match SignatureType(b[i])
      case None => Fail(i)
      case Some(t) => ReadBody(b, i + 1, t)
  }

  function ReadBody(b: seq<Byte>, i: nat, t: Type): (r: Parse<Wire>)
    requires i <= |b|
    ensures i <= r.next <= |b|
    decreases |b| - i, 2, 0
  {
    match t
    case Type_Invalid => Done(WInvalid, i)
    case Type_Null => Done(WNull, i)
    case Type_Boolean =>
      (match ReadRaw(b, i, 1)
       case Fail(j) => Fail(j)
       case Done(raw, j) => Done(WBoolean(raw[0]), j))
    case Type_Integer =>
      (match ReadRaw(b, i, 4)
       case Fail(j) => Fail(j)
       case Done(raw, j) => Done(WInteger(UnpackInt32(raw)), j))
    case Type_Real =>
      (match ReadRaw(b, i, 8)
       case Fail(j) => Fail(j)
       case Done(raw, j) => Done(WReal(raw), j))
    case Type_String =>
      (match ReadString(b, i)
       case Fail(j) => Fail(j)
       case Done(s, j) => Done(WString(s), j))
    case Type_List =>
      (match ReadRaw(b, i, 4)
       case Fail(j) => Fail(j)
       case Done(raw, j) => AsList(ReadItems(b, j, UnpackUint32(raw))))
    case Type_Map =>
      (match ReadRaw(b, i, 4)
       case Fail(j) => Fail(j)
       case Done(raw, j) => AsMap(ReadEntries(b, j, UnpackUint32(raw))))
  }

  function ReadItems(b: seq<Byte>, i: nat, n: nat): (r: Parse<seq<Wire>>)
    requires i <= |b|
    ensures i <= r.next <= |b|
    ensures r.Done? ==> |r.val| == n
    decreases |b| - i, 1, n
  {
    if n == 0 then Done([], i)
    else
      match Read(b, i)
      case Fail(j) => Fail(j)
      case Done(w, j) =>
        Prepend([w], ReadItems(b, j, n - 1))
  }

  /** A key and a value, or where reading them fails. */
  function ReadEntry(b: seq<Byte>, i: nat): (r: Parse<Entry<Wire>>)
    requires i <= |b|
    ensures i <= r.next <= |b|
    ensures r.Done? ==> i < r.next
    decreases |b| - i, 0, 1
  {
    match Read(b, i)
    case Fail(j) => Fail(j)
    case Done(key, j) =>
      if !key.WString? then Fail(j)
      else
        match Read(b, j)
        case Fail(k) => Fail(k)
        case Done(w, k) => Done(Entry(key.s, w), k)
  }

  function ReadEntries(b: seq<Byte>, i: nat, n: nat): (r: Parse<seq<Entry<Wire>>>)
    requires i <= |b|
    ensures i <= r.next <= |b|
    ensures r.Done? ==> |r.val| == n
    decreases |b| - i, 1, n
  {
    if n == 0 then Done([], i)
    else
      match ReadEntry(b, i)
      case Fail(j) => Fail(j)
      case Done(e, j) => Prepend([e], ReadEntries(b, j, n - 1))
  }

  /** The value `popValue` stores, or failure, and the index it leaves. */
  function Dec(b: seq<Byte>, i: nat): (r: Parse<Value>)
    requires i <= |b|
    ensures i <= r.next <= |b|
    ensures r.Done? ==> i < r.next
  {
    match Read(b, i)
    case Fail(j) => Fail(j)
    case Done(w, j) => Done(Meaning(w), j)
  }
}
