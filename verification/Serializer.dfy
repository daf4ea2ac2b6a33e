/** The serializer: a buffer that values are appended to and read back from at a moving index. */
module Serializer {
  import opened Wrappers
  import opened Bytes
  import opened OrderedMap
  import opened VariantValue
  import opened WireFormat
  import opened Codec
  import opened ByteBuffer
  import opened ResourceBounds
  import opened FailedReads

  // ---- the buffer `d` while the elements of a container are appended one by one

  lemma EncListHeader(d: seq<Byte>, vs: seq<Value>)
    ensures d + [Signature(Type_List)] + PackUint32(Truncate(|vs|)) + EncItems(vs[0..])
         == d + Enc(List(vs))
  {
    hide PackUint32, EncItems, Truncate;
    assert vs[0..] == vs;
  }

  lemma EncItemsStep(d: seq<Byte>, vs: seq<Value>, k: nat)
    requires k < |vs|
    ensures d + EncItems(vs[k..]) == d + Enc(vs[k]) + EncItems(vs[k + 1..])
  {
    hide Enc;
    assert vs[k..][1..] == vs[k + 1..];
  }

  lemma EncItemsDone(d: seq<Byte>, vs: seq<Value>)
    ensures d + EncItems(vs[|vs|..]) == d
  {
  }

  lemma EncMapHeader(d: seq<Byte>, es: seq<Entry<Value>>)
    ensures d + [Signature(Type_Map)] + PackUint32(Truncate(|es|)) + EncEntries(es[0..])
         == d + Enc(Map(es))
  {
    hide PackUint32, EncEntries, Truncate;
    assert es[0..] == es;
  }

  lemma EncEntriesStep(d: seq<Byte>, es: seq<Entry<Value>>, k: nat)
    requires k < |es|
    ensures d + EncEntries(es[k..])
         == d + EncString(es[k].key) + Enc(es[k].val) + EncEntries(es[k + 1..])
  {
    hide Enc, EncString;
    assert es[k..][1..] == es[k + 1..];
  }

  lemma EncEntriesDone(d: seq<Byte>, es: seq<Entry<Value>>)
    ensures d + EncEntries(es[|es|..]) == d
  {
  }

  // ---- the outcome while the elements of a container are read one by one

  lemma PrependNone<T>(rest: Parse<seq<T>>)
    ensures Prepend([], rest) == rest
  {
    if rest.Done? {
      assert [] + rest.val == rest.val;
    }
  }

  lemma PrependStep<T>(ws: seq<T>, w: T, rest: Parse<seq<T>>)
    ensures Prepend(ws, Prepend([w], rest)) == Prepend(ws + [w], rest)
  {
    if rest.Done? {
      assert ws + ([w] + rest.val) == ws + [w] + rest.val;
    }
  }

  lemma PrependFinished<T>(ws: seq<T>, j: nat)
    ensures Prepend(ws, Done([], j)) == Done(ws, j)
  {
    assert ws + [] == ws;
  }

  /** Of `length` entries `es` have been read, and `left` stand at `j`. */
  ghost predicate EntriesRead(b: seq<Byte>, start: nat, length: nat, es: seq<Entry<Wire>>, deep: nat, calls: nat,
    j: nat, left: nat)
  {
    && start <= j <= |b|
    && ReadEntries(b, start, length) == Prepend(es, ReadEntries(b, j, left))
    && ElementsNesting(b, start, length, true) == Max(deep, ElementsNesting(b, j, left, true))
    && ElementsCalls(b, start, length, true) == calls + ElementsCalls(b, j, left, true)
  }

  lemma EntriesReadFirst(b: seq<Byte>, start: nat, length: nat)
    requires start <= |b|
    ensures EntriesRead(b, start, length, [], 0, 0, start, length)
  {
    PrependNone(ReadEntries(b, start, length));
    hide ReadEntries, ElementsNesting, ElementsCalls;
  }

  lemma EntriesReadNext(b: seq<Byte>, start: nat, length: nat, es: seq<Entry<Wire>>, deep: nat, calls: nat,
    j: nat, left: nat)
    requires EntriesRead(b, start, length, es, deep, calls, j, left) && left > 0
    ensures Read(b, j).next <= ReadEntries(b, start, length).next
    ensures Read(b, j).Fail? || !Read(b, j).val.WString? ==>
              && ReadEntries(b, start, length) == Fail(Read(b, j).next)
              && ElementsNesting(b, start, length, true) == Max(deep, Nesting(b, j))
              && ElementsCalls(b, start, length, true) == calls + Calls(b, j)
    ensures Read(b, j).Done? && Read(b, j).val.WString? ==>
              && var k := Read(b, j).next;
              && Read(b, k).next <= ReadEntries(b, start, length).next
              && var deep', calls' := Max(Max(deep, Nesting(b, j)), Nesting(b, k)), calls + Calls(b, j) + Calls(b, k);
              && (Read(b, k).Fail? ==>
                   && ReadEntries(b, start, length) == Fail(Read(b, k).next)
                   && ElementsNesting(b, start, length, true) == deep'
                   && ElementsCalls(b, start, length, true) == calls')
              && (Read(b, k).Done? ==>
                   EntriesRead(b, start, length, es + [Entry(Read(b, j).val.s, Read(b, k).val)], deep', calls',
                     Read(b, k).next, left - 1))
  {
    EntriesStep(b, j, left);
    hide Read, Nesting, Calls, ElementsNesting, ElementsCalls;
    match ReadEntry(b, j) {
      case Fail(_) =>
      case Done(e, k) => PrependStep(es, e, ReadEntries(b, k, left - 1));
    }
  }

  lemma EntriesReadAll(b: seq<Byte>, start: nat, length: nat, es: seq<Entry<Wire>>, deep: nat, calls: nat, j: nat)
    requires EntriesRead(b, start, length, es, deep, calls, j, 0)
    ensures ReadEntries(b, start, length) == Done(es, j)
    ensures ElementsNesting(b, start, length, true) == deep && ElementsCalls(b, start, length, true) == calls
  {
    NoElements(b, j, true);
    PrependFinished(es, j);
    hide ElementsNesting, ElementsCalls;
  }

  /** The value a signature of type `t` in front of `j` announces. */
  function Outcome(b: seq<Byte>, j: nat, t: Type): (r: Parse<Value>)
    requires j <= |b|
    ensures j <= r.next <= |b|
  {
    match ReadBody(b, j, t)
    case Fail(k) => Fail(k)
    case Done(w, k) => Done(Meaning(w), k)
  }

  lemma DecBySignature(b: seq<Byte>, i: nat)
    requires i <= |b|
    ensures i == |b| || SignatureType(b[i]).None? ==> Dec(b, i) == Fail(i)
    ensures i < |b| && SignatureType(b[i]).Some? ==> Dec(b, i) == Outcome(b, i + 1, SignatureType(b[i]).value)
  {
    hide ReadBody, Meaning;
  }

  lemma ScalarOutcome(b: seq<Byte>, j: nat, t: Type)
    requires j <= |b|
    ensures t == Type_Invalid ==> Outcome(b, j, t) == Done(Invalid, j)
    ensures t == Type_Null ==> Outcome(b, j, t) == Done(Null, j)
    ensures t == Type_Boolean ==>
              (match ReadRaw(b, j, 1)
               case Fail(k) => Outcome(b, j, t) == Fail(k)
               case Done(raw, k) => Outcome(b, j, t) == Done(Boolean(raw[0] != 0), k))
    ensures t == Type_Integer ==>
              (match ReadRaw(b, j, 4)
               case Fail(k) => Outcome(b, j, t) == Fail(k)
               case Done(raw, k) => Outcome(b, j, t) == Done(Integer(UnpackInt32(raw)), k))
    ensures t == Type_Real ==>
              (match ReadRaw(b, j, 8)
               case Fail(k) => Outcome(b, j, t) == Fail(k)
               case Done(raw, k) => Outcome(b, j, t) == Done(Real(raw), k))
    ensures t == Type_String ==>
              (match ReadString(b, j)
               case Fail(k) => Outcome(b, j, t) == Fail(k)
               case Done(s, k) => Outcome(b, j, t) == Done(String(s), k))
  {
    hide UnpackInt32, UnpackUint32;
  }

  class ByteArraySerializer {
    const m_byteArray: ByteArray
    var m_index: Uint32

    /** The index stands inside the buffer or at its end. */
    ghost predicate Valid()
      reads this, m_byteArray
    {
      m_index <= |m_byteArray.m_data|
    }

    constructor ()
      ensures Valid() && fresh(m_byteArray)
      ensures m_byteArray.m_data == [] && m_index == 0
    {
      m_byteArray := new ByteArray();
      m_index := 0;
    }

    constructor FromArray(ba: ByteArray)
      ensures Valid() && fresh(m_byteArray)
      ensures m_byteArray.m_data == ba.m_data && m_index == 0
    {
      m_byteArray := new ByteArray.Copy(ba);
      m_index := 0;
    }

    method InitWith(ba: ByteArray)
      modifies this, m_byteArray
      ensures Valid()
      ensures m_byteArray.m_data == old(ba.m_data) && m_index == 0
    {
      m_byteArray.Assign(ba);
      Reset();
    }

    method Reset()
      modifies this
      ensures Valid() && m_index == 0
    {
      m_index := 0;
    }

    function Available(): nat
      requires Valid()
      reads this, m_byteArray
    {
      m_byteArray.Size() - m_index
    }

    // ---- writing -----------------------------------------------------------

    method PushValue(value: Value)
      modifies m_byteArray
      ensures m_byteArray.m_data == old(m_byteArray.m_data) + Enc(value)
      decreases value, 1
    {
      match value {
        case Null => PushTypeSignature(Type_Null);
        case Boolean(b) => PushBoolean(b);
        case Integer(i) => PushInteger(i);
        case Real(bits) => PushReal(bits);
        case String(s) => PushString(s);
        case List(items) => PushList(items);
        case Map(entries) => PushMap(entries);
        case Invalid => PushTypeSignature(Type_Invalid);
      }
    }

    method PushTypeSignature(t: Type)
      modifies m_byteArray
      ensures m_byteArray.m_data == old(m_byteArray.m_data) + [Signature(t)]
    {
      m_byteArray.AppendByte(Signature(t));
    }

    method PushRawValue(raw: seq<Byte>)
      modifies m_byteArray
      ensures m_byteArray.m_data == old(m_byteArray.m_data) + raw
    {
      m_byteArray.AppendBuffer(raw, |raw|);
      assert raw[..|raw|] == raw;
    }

    method PushBoolean(value: bool)
      modifies m_byteArray
      ensures m_byteArray.m_data == old(m_byteArray.m_data) + Enc(Boolean(value))
    {
      PushTypeSignature(Type_Boolean);
      PushRawValue([if value then 1 else 0]);
    }

    method PushInteger(value: Int32)
      modifies m_byteArray
      ensures m_byteArray.m_data == old(m_byteArray.m_data) + Enc(Integer(value))
    {
      PushTypeSignature(Type_Integer);
      PushRawValue(PackInt32(value));
    }

    method PushReal(value: Bits64)
      modifies m_byteArray
      ensures m_byteArray.m_data == old(m_byteArray.m_data) + Enc(Real(value))
    {
      PushTypeSignature(Type_Real);
      PushRawValue(value);
    }

    method PushString(value: seq<Byte>)
      modifies m_byteArray
      ensures m_byteArray.m_data == old(m_byteArray.m_data) + EncString(value)
    {
      PushTypeSignature(Type_String);
      var length := Truncate(|value|);
      PushRawValue(PackUint32(length));
      m_byteArray.AppendBuffer(value, length);
    }

    method PushList(value: seq<Value>)
      modifies m_byteArray
      ensures m_byteArray.m_data == old(m_byteArray.m_data) + Enc(List(value))
      decreases value, 0
    {
      PushTypeSignature(Type_List);
      var size := Truncate(|value|);
      PushRawValue(PackUint32(size));
      ghost var header := m_byteArray.m_data;
      EncListHeader(old(m_byteArray.m_data), value);
      hide Enc, EncItems, PackUint32, Truncate;
      var k := 0;
      while k < |value|
        invariant k <= |value|
        invariant m_byteArray.m_data + EncItems(value[k..]) == header + EncItems(value[0..])
      {
        EncItemsStep(m_byteArray.m_data, value, k);
        PushValue(value[k]);
        k := k + 1;
      }
      EncItemsDone(m_byteArray.m_data, value);
    }

    method PushMap(value: seq<Entry<Value>>)
      modifies m_byteArray
      ensures m_byteArray.m_data == old(m_byteArray.m_data) + Enc(Map(value))
      decreases value, 0
    {
      PushTypeSignature(Type_Map);
      var size := Truncate(|value|);
      PushRawValue(PackUint32(size));
      ghost var header := m_byteArray.m_data;
      EncMapHeader(old(m_byteArray.m_data), value);
      hide Enc, EncString, EncEntries, PackUint32, Truncate;
      var k := 0;
      while k < |value|
        invariant k <= |value|
        invariant m_byteArray.m_data + EncEntries(value[k..]) == header + EncEntries(value[0..])
      {
        EncEntriesStep(m_byteArray.m_data, value, k);
        PushString(value[k].key);
        PushValue(value[k].val);
        k := k + 1;
      }
      EncEntriesDone(m_byteArray.m_data, value);
    }

    // ---- reading -----------------------------------------------------------

    /**
     Reads one value at the index. `value0` is what the caller's variable holds before the call
     and `value` what it holds afterwards.
     */
    method PopValue(value0: Value) returns (ok: bool, value: Value, ghost depth: nat, ghost calls: nat)
      requires Valid() && Dec(m_byteArray.m_data, m_index).next < TWO_32
      modifies this`m_index
      ensures Valid()
      ensures ok == Dec(m_byteArray.m_data, old(m_index)).Done?
      ensures m_index == Dec(m_byteArray.m_data, old(m_index)).next
      ensures value == if ok then Dec(m_byteArray.m_data, old(m_index)).val else value0
      ensures !ok ==> StopsAt(m_byteArray.m_data, old(m_index), m_index)
      ensures depth == Nesting(m_byteArray.m_data, old(m_index))
      ensures calls == Calls(m_byteArray.m_data, old(m_index))
      decreases |m_byteArray.m_data| - m_index, 0
    {
      value := value0;
      depth, calls := 0, 1;
      ghost var b, start := m_byteArray.m_data, m_index;
      ByType(b, start);
      DecBySignature(b, start);
      FailsWhereItStops(b, start, Dec(b, start).next);
      hide Nesting, Calls, BodyNesting, BodyCalls, Dec, Outcome, StopsAt;
      if Available() <= 0 {
        return false, value, depth, calls;
      }
      var t;
      ok, t := PopTypeSignature(Type_Invalid);
      if !ok {
        return;
      }
      assert Dec(b, start) == Outcome(b, m_index, t);
      ghost var more;
      ok, value, depth, more := PopTyped(t, value0);
      calls := calls + more;
    }

    /** The part of reading a value behind its signature. */
    method PopTyped(t: Type, value0: Value) returns (ok: bool, value: Value, ghost depth: nat, ghost calls: nat)
      requires Valid() && Outcome(m_byteArray.m_data, m_index, t).next < TWO_32
      modifies this`m_index
      ensures Valid()
      ensures ok == Outcome(m_byteArray.m_data, old(m_index), t).Done?
      ensures m_index == Outcome(m_byteArray.m_data, old(m_index), t).next
      ensures value == if ok then Outcome(m_byteArray.m_data, old(m_index), t).val else value0
      ensures var container := t == Type_List || t == Type_Map;
              && depth == (if container then BodyNesting(m_byteArray.m_data, old(m_index), t == Type_Map) else 0)
              && calls == (if container then BodyCalls(m_byteArray.m_data, old(m_index), t == Type_Map) else 0)
      decreases |m_byteArray.m_data| - m_index, 2
    {
      value := value0;
      depth, calls := 0, 0;
      ScalarOutcome(m_byteArray.m_data, m_index, t);
      hide ReadBody, ReadRaw, ReadString, Meaning, UnpackInt32, BodyNesting, BodyCalls;
      match t {
        case Type_Invalid =>
          ok, value := true, Invalid;
        case Type_Null =>
          ok, value := true, Null;
        case Type_Boolean =>
          var v;
          ok, v := PopBoolean();
          if ok { value := Boolean(v); }
        case Type_Integer =>
          var v;
          ok, v := PopInteger();
          if ok { value := Integer(v); }
        case Type_Real =>
          var v;
          ok, v := PopReal();
          if ok { value := Real(v); }
        case Type_String =>
          var s;
          ok, s := PopString([]);
          if ok { value := String(s); }
        case Type_List =>
          var items;
          ok, items, depth, calls := PopList([]);
          if ok { value := List(items); }
        case Type_Map =>
          var entries;
          ok, entries, depth, calls := PopMap([]);
          if ok { value := Map(entries); }
      }
    }

    method PopTypeSignature(t0: Type) returns (ok: bool, t: Type)
      requires Valid()
      requires var b := m_byteArray.m_data;
               m_index < |b| && SignatureType(b[m_index]).Some? ==> m_index + 1 < TWO_32
      modifies this`m_index
      ensures Valid()
      ensures var b := m_byteArray.m_data;
              ok == (old(m_index) < |b| && SignatureType(b[old(m_index)]).Some?)
      ensures ok ==> Some(t) == SignatureType(m_byteArray.m_data[old(m_index)])
      ensures !ok ==> t == t0
      ensures m_index == if ok then old(m_index) + 1 else old(m_index)
    {
      t := t0;
      if Available() < 1 {
        return false, t;
      }
      var c := m_byteArray.m_data[m_index];
      match SignatureType(c) {
        case None => return false, t;
        case Some(found) =>
          t := found;
          m_index := m_index + 1;
          return true, t;
      }
    }

    /** The next `n` bytes of the buffer, for a value of size `n`. */
    method PopRawValue(n: nat) returns (ok: bool, raw: seq<Byte>)
      requires Valid() && ReadRaw(m_byteArray.m_data, m_index, n).next < TWO_32
      modifies this`m_index
      ensures Valid()
      ensures ok == ReadRaw(m_byteArray.m_data, old(m_index), n).Done?
      ensures ok ==> raw == ReadRaw(m_byteArray.m_data, old(m_index), n).val
      ensures m_index == ReadRaw(m_byteArray.m_data, old(m_index), n).next
      ensures ok <==> old(m_index) + n <= |m_byteArray.m_data|
      ensures ok ==> m_index == old(m_index) + n && raw == m_byteArray.m_data[old(m_index)..m_index]
      ensures !ok ==> m_index == old(m_index)
    {
      if m_byteArray.Size() - m_index < n {
        return false, [];
      }
      raw := m_byteArray.m_data[m_index..m_index + n];
      m_index := m_index + n;
      ok := true;
    }

    method PopBoolean() returns (ok: bool, value: bool)
      requires Valid() && ReadRaw(m_byteArray.m_data, m_index, 1).next < TWO_32
      modifies this`m_index
      ensures Valid()
      ensures ok == ReadRaw(m_byteArray.m_data, old(m_index), 1).Done?
      ensures ok ==> value == (ReadRaw(m_byteArray.m_data, old(m_index), 1).val[0] != 0)
      ensures m_index == ReadRaw(m_byteArray.m_data, old(m_index), 1).next
    {
      var raw;
      ok, raw := PopRawValue(1);
      value := if ok then raw[0] != 0 else false;
    }

    method PopInteger() returns (ok: bool, value: Int32)
      requires Valid() && ReadRaw(m_byteArray.m_data, m_index, 4).next < TWO_32
      modifies this`m_index
      ensures Valid()
      ensures ok == ReadRaw(m_byteArray.m_data, old(m_index), 4).Done?
      ensures ok ==> value == UnpackInt32(ReadRaw(m_byteArray.m_data, old(m_index), 4).val)
      ensures m_index == ReadRaw(m_byteArray.m_data, old(m_index), 4).next
    {
      var raw;
      ok, raw := PopRawValue(4);
      value := if ok then UnpackInt32(raw) else 0;
    }

    method PopReal() returns (ok: bool, value: Bits64)
      requires Valid() && ReadRaw(m_byteArray.m_data, m_index, 8).next < TWO_32
      modifies this`m_index
      ensures Valid()
      ensures ok == ReadRaw(m_byteArray.m_data, old(m_index), 8).Done?
      ensures ok ==> value == ReadRaw(m_byteArray.m_data, old(m_index), 8).val
      ensures m_index == ReadRaw(m_byteArray.m_data, old(m_index), 8).next
    {
      var raw;
      ok, raw := PopRawValue(8);
      value := if ok then raw else [0, 0, 0, 0, 0, 0, 0, 0];
    }

    method PopString(value0: seq<Byte>) returns (ok: bool, value: seq<Byte>)
      requires Valid() && ReadString(m_byteArray.m_data, m_index).next < TWO_32
      modifies this`m_index
      ensures Valid()
      ensures ok == ReadString(m_byteArray.m_data, old(m_index)).Done?
      ensures value == if ok then ReadString(m_byteArray.m_data, old(m_index)).val else value0
      ensures m_index == ReadString(m_byteArray.m_data, old(m_index)).next
      ensures var b, i := m_byteArray.m_data, old(m_index);
              && (ok <==> i + 4 <= |b| && i + 4 + Count(b, i) <= |b|)
              && (ok ==> m_index == i + 4 + Count(b, i) && value == b[i + 4..m_index])
              && (!ok ==> m_index == if i + 4 <= |b| then i + 4 else i)
    {
      value := value0;
      var raw;
      ok, raw := PopRawValue(4);
      if !ok {
        return;
      }
      var length := UnpackUint32(raw);
      CountIsLength(m_byteArray.m_data, old(m_index));
      hide UnpackUint32, Count;
      if Available() < length {
        return false, value;
      }
      value := m_byteArray.m_data[m_index..m_index + length];
      m_index := m_index + length;
    }

    method PopList(value0: seq<Value>) returns (ok: bool, value: seq<Value>, ghost depth: nat, ghost calls: nat)
      requires Valid() && ReadBody(m_byteArray.m_data, m_index, Type_List).next < TWO_32
      modifies this`m_index
      ensures Valid()
      ensures var r := ReadBody(m_byteArray.m_data, old(m_index), Type_List);
              && ok == r.Done?
              && m_index == r.next
              && (ok ==> Meaning(r.val) == List(value))
      ensures !ok ==> value == value0
      ensures depth == BodyNesting(m_byteArray.m_data, old(m_index), false)
      ensures calls == BodyCalls(m_byteArray.m_data, old(m_index), false)
      decreases |m_byteArray.m_data| - m_index, 1
    {
      hide StopsAt, Read, ReadBody, UnpackUint32, Meaning, ItemMeanings, ElementsNesting, ElementsCalls, Nesting, Calls;
      ListBody(m_byteArray.m_data, m_index);
      value := value0;
      depth, calls := 0, 0;
      var raw;
      ok, raw := PopRawValue(4);
      if !ok {
        return;
      }
      var length := UnpackUint32(raw);
      var list: seq<Value> := [];
      ghost var b, start := m_byteArray.m_data, m_index;
      ghost var ws: seq<Wire> := [];
      NoMeanings();
      PrependNone(ReadItems(b, start, length));
      ghost var deep: nat := 0;
      var i := 0;
      while i < length
        invariant Valid() && start <= m_index && i <= length
        invariant list == ItemMeanings(ws)
        invariant ElementsNesting(b, start, length, false) == Max(deep, ElementsNesting(b, m_index, length - i, false))
        invariant ElementsCalls(b, start, length, false) == calls + ElementsCalls(b, m_index, length - i, false)
        invariant ReadItems(b, start, length) == Prepend(ws, ReadItems(b, m_index, length - i))
      {
        ghost var w := Read(b, m_index);
        var v;
        ghost var inner, more;
        ItemsStep(b, m_index, length - i);
        ok, v, inner, more := PopValue(Invalid);
        deep, calls := Max(deep, inner), calls + more;
        if !ok {
          depth := 1 + deep;
          return;
        }
        ItemMeaningsSnoc(ws, w.val);
        PrependStep(ws, w.val, ReadItems(b, m_index, length - i - 1));
        ws := ws + [w.val];
        list := list + [v];
        i := i + 1;
      }
      NoElements(b, m_index, false);
      depth := 1 + deep;
      PrependFinished(ws, m_index);
      ListMeaning(ws);
      value := list;
      ok := true;
    }

    method PopMap(value0: seq<Entry<Value>>) returns (ok: bool, value: seq<Entry<Value>>, ghost depth: nat,
      ghost calls: nat)
      requires Valid() && ReadBody(m_byteArray.m_data, m_index, Type_Map).next < TWO_32
      modifies this`m_index
      ensures Valid()
      ensures var r := ReadBody(m_byteArray.m_data, old(m_index), Type_Map);
              && ok == r.Done?
              && m_index == r.next
              && (ok ==> Meaning(r.val) == Map(value))
      ensures !ok ==> value == value0
      ensures depth == BodyNesting(m_byteArray.m_data, old(m_index), true)
      ensures calls == BodyCalls(m_byteArray.m_data, old(m_index), true)
      decreases |m_byteArray.m_data| - m_index, 1
    {
      hide StopsAt, Read, ReadBody, ReadEntries, UnpackUint32, Meaning, Collect, EntryMeanings, Put, ElementsNesting,
        ElementsCalls, Nesting, Calls, EntriesRead;
      MapBody(m_byteArray.m_data, m_index);
      value := value0;
      depth, calls := 0, 0;
      var raw;
      ok, raw := PopRawValue(4);
      if !ok {
        return;
      }
      var length := UnpackUint32(raw);
      var map_: seq<Entry<Value>> := [];
      ghost var b, start := m_byteArray.m_data, m_index;
      ghost var es: seq<Entry<Wire>> := [];
      NoMeanings();
      EntriesReadFirst(b, start, length);
      ghost var deep: nat := 0;
      var i := 0;
      while i < length
        invariant Valid() && start <= m_index && i <= length
        invariant map_ == Collect(EntryMeanings(es))
        invariant EntriesRead(b, start, length, es, deep, calls, m_index, length - i)
      {
        var key, v;
        ghost var k := Read(b, m_index);
        ghost var inner, more;
        EntriesReadNext(b, start, length, es, deep, calls, m_index, length - i);
        ok, key, inner, more := PopValue(Invalid);
        deep, calls := Max(deep, inner), calls + more;
        if !ok {
          depth := 1 + deep;
          return;
        }
        KeyMeaning(k.val);
        if !key.String? {
          return false, value, 1 + deep, calls;
        }
        ghost var w := Read(b, m_index);
        ok, v, inner, more := PopValue(Invalid);
        deep, calls := Max(deep, inner), calls + more;
        if !ok {
          depth := 1 + deep;
          return;
        }
        EntryMeaningsSnoc(es, Entry(k.val.s, w.val));
        es := es + [Entry(k.val.s, w.val)];
        map_ := Put(map_, key.s, v);
        i := i + 1;
      }
      EntriesReadAll(b, start, length, es, deep, calls, m_index);
      depth := 1 + deep;
      MapMeaning(es);
      value := map_;
      ok := true;
    }
  }

  lemma KeyMeaning(w: Wire)
    ensures Meaning(w).String? <==> w.WString?
    ensures w.WString? ==> Meaning(w) == String(w.s)
  {
  }

  lemma ListMeaning(ws: seq<Wire>)
    ensures Meaning(WList(ws)) == List(ItemMeanings(ws))
  {
    hide ItemMeanings;
  }

  lemma NoMeanings()
    ensures ItemMeanings([]) == [] && Collect(EntryMeanings([])) == []
  {
  }

  lemma MapMeaning(es: seq<Entry<Wire>>)
    ensures Meaning(WMap(es)) == Map(Collect(EntryMeanings(es)))
  {
    hide Collect, EntryMeanings;
  }

  lemma ListBody(b: seq<Byte>, i: nat)
    requires i <= |b|
    ensures ReadBody(b, i, Type_List)
         == if |b| - i < 4 then Fail(i) else AsList(ReadItems(b, i + 4, UnpackUint32(b[i..i + 4])))
  {
    hide UnpackUint32, ReadItems;
  }

  lemma MapBody(b: seq<Byte>, i: nat)
    requires i <= |b|
    ensures ReadBody(b, i, Type_Map)
         == if |b| - i < 4 then Fail(i) else AsMap(ReadEntries(b, i + 4, UnpackUint32(b[i..i + 4])))
  {
    hide UnpackUint32, ReadEntries;
  }

  lemma ItemMeaningsSnoc(ws: seq<Wire>, w: Wire)
    ensures ItemMeanings(ws + [w]) == ItemMeanings(ws) + [Meaning(w)]
  {
  }

  lemma EntryMeaningsSnoc(es: seq<Entry<Wire>>, e: Entry<Wire>)
    ensures Collect(EntryMeanings(es + [e]))
         == Put(Collect(EntryMeanings(es)), e.key, Meaning(e.val))
  {
    var fs := EntryMeanings(es + [e]);
    assert fs[..|es|] == EntryMeanings(es);
  }
}
