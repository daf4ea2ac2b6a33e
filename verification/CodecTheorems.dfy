/** The decoder accepts exactly the grammar, and what follows from that. */
module CodecTheorems {
  import opened Wrappers
  import opened Bytes
  import opened OrderedMap
  import opened VariantValue
  import opened WireFormat
  import opened Codec

  /** The bytes `s` stand in `b` at index `i`. */
  predicate At(b: seq<Byte>, i: nat, s: seq<Byte>) {
    i + |s| <= |b| && b[i..i + |s|] == s
  }

  lemma AtConcat(b: seq<Byte>, i: nat, s: seq<Byte>, t: seq<Byte>)
    ensures At(b, i, s + t) <==> At(b, i, s) && At(b, i + |s|, t)
  {
    if At(b, i, s + t) {
      assert b[i..i + |s|] == b[i..i + |s + t|][..|s|];
      assert b[i + |s|..i + |s + t|] == b[i..i + |s + t|][|s|..];
    }
    if At(b, i, s) && At(b, i + |s|, t) {
      assert b[i..i + |s + t|] == b[i..i + |s|] + b[i + |s|..i + |s| + |t|];
    }
  }

  lemma SliceConcat(b: seq<Byte>, i: nat, j: nat, k: nat)
    requires i <= j <= k <= |b|
    ensures b[i..k] == b[i..j] + b[j..k]
  {
  }

  // ---- soundness: what is read is a sentence of the grammar ----------------

  lemma {:induction false} ReadSound(b: seq<Byte>, i: nat)
    requires i <= |b| && Read(b, i).Done?
    ensures WellFormed(Read(b, i).val)
    ensures Flatten(Read(b, i).val) == b[i..Read(b, i).next]
    decreases |b| - i, 0, 0
  {
    var t := SignatureType(b[i]).value;
    SignatureTables(b[i], t);
    ReadBodySound(b, i + 1, t);
    assert b[i..Read(b, i).next] == [b[i]] + b[i + 1..Read(b, i).next];
  }

  lemma {:induction false} ReadBodySound(b: seq<Byte>, i: nat, t: Type)
    requires i <= |b| && ReadBody(b, i, t).Done?
    ensures WellFormed(ReadBody(b, i, t).val)
    ensures Flatten(ReadBody(b, i, t).val) == [Signature(t)] + b[i..ReadBody(b, i, t).next]
    decreases |b| - i, 2, 0
  {
    match t {
      case Type_Invalid =>
      case Type_Null =>
      case Type_Boolean =>
      case Type_Real =>
      case Type_Integer => PackUnpackInt32(b[i..i + 4]);
      case Type_String => ReadStringSound(b, i);
      case Type_List => ReadListSound(b, i);
      case Type_Map => ReadMapSound(b, i);
    }
  }

  lemma ReadStringSound(b: seq<Byte>, i: nat)
    requires i <= |b| && ReadBody(b, i, Type_String).Done?
    ensures WellFormed(ReadBody(b, i, Type_String).val)
    ensures Flatten(ReadBody(b, i, Type_String).val)
         == [Signature(Type_String)] + b[i..ReadBody(b, i, Type_String).next]
  {
    var j := ReadBody(b, i, Type_String).next;
    hide PackUint32, UnpackUint32, PackInt32, UnpackInt32;
    PackUnpackUint32(b[i..i + 4]);
    assert b[i..j] == b[i..i + 4] + b[i + 4..j];
  }

  lemma {:induction false} ReadListSound(b: seq<Byte>, i: nat)
    requires i <= |b| && ReadBody(b, i, Type_List).Done?
    ensures WellFormed(ReadBody(b, i, Type_List).val)
    ensures Flatten(ReadBody(b, i, Type_List).val)
         == [Signature(Type_List)] + b[i..ReadBody(b, i, Type_List).next]
    decreases |b| - i, 1, 0
  {
    var j := ReadBody(b, i, Type_List).next;
    hide PackUint32, UnpackUint32, PackInt32, UnpackInt32;
    PackUnpackUint32(b[i..i + 4]);
    ReadItemsSound(b, i + 4, UnpackUint32(b[i..i + 4]));
    assert b[i..j] == b[i..i + 4] + b[i + 4..j];
  }

  lemma {:induction false} ReadMapSound(b: seq<Byte>, i: nat)
    requires i <= |b| && ReadBody(b, i, Type_Map).Done?
    ensures WellFormed(ReadBody(b, i, Type_Map).val)
    ensures Flatten(ReadBody(b, i, Type_Map).val)
         == [Signature(Type_Map)] + b[i..ReadBody(b, i, Type_Map).next]
    decreases |b| - i, 1, 0
  {
    var j := ReadBody(b, i, Type_Map).next;
    hide PackUint32, UnpackUint32, PackInt32, UnpackInt32;
    PackUnpackUint32(b[i..i + 4]);
    ReadEntriesSound(b, i + 4, UnpackUint32(b[i..i + 4]));
    assert b[i..j] == b[i..i + 4] + b[i + 4..j];
  }

  lemma {:induction false} ReadItemsSound(b: seq<Byte>, i: nat, n: nat)
    requires i <= |b| && ReadItems(b, i, n).Done?
    ensures WellFormedItems(ReadItems(b, i, n).val)
    ensures FlattenItems(ReadItems(b, i, n).val) == b[i..ReadItems(b, i, n).next]
    decreases |b| - i, 1, n
  {
    if n != 0 {
      var j, k := Read(b, i).next, ReadItems(b, i, n).next;
      assert ReadItems(b, i, n).val[1..] == ReadItems(b, j, n - 1).val;
      hide ReadBody;
      ReadSound(b, i);
      ReadItemsSound(b, j, n - 1);
      hide ReadItems, Flatten;
      SliceConcat(b, i, j, k);
    }
  }

  lemma FlattenEntriesCons(e: Entry<Wire>, es: seq<Entry<Wire>>)
    requires |e.key| < TWO_32 && WellFormed(e.val)
    requires WellFormedEntries(es)
    ensures WellFormedEntries([e] + es)
    ensures FlattenEntries([e] + es) == FlattenEntry(e) + FlattenEntries(es)
  {
    assert ([e] + es)[1..] == es;
  }

  lemma {:induction false} ReadEntriesSound(b: seq<Byte>, i: nat, n: nat)
    requires i <= |b| && ReadEntries(b, i, n).Done?
    ensures WellFormedEntries(ReadEntries(b, i, n).val)
    ensures FlattenEntries(ReadEntries(b, i, n).val) == b[i..ReadEntries(b, i, n).next]
    decreases |b| - i, 1, n
  {
    if n != 0 {
      var j := Read(b, i).next;
      var k, l := Read(b, j).next, ReadEntries(b, i, n).next;
      var e, rest := Entry(Read(b, i).val.s, Read(b, j).val), ReadEntries(b, k, n - 1).val;
      assert ReadEntries(b, i, n).val == [e] + rest;
      hide ReadBody, ReadEntries;
      ReadSound(b, i);
      ReadSound(b, j);
      assert |e.key| < TWO_32 && FlattenEntry(e) == b[i..k] by {
        SliceConcat(b, i, j, k);
      }
      hide Flatten, FlattenEntry;
      ReadEntriesSound(b, k, n - 1);
      FlattenEntriesCons(e, rest);
      SliceConcat(b, i, k, l);
    }
  }

  // ---- completeness: every sentence is read back, whatever surrounds it ----

  lemma AtHead(b: seq<Byte>, i: nat, s: seq<Byte>)
    requires s != [] && At(b, i, s)
    ensures b[i] == s[0] && At(b, i + 1, s[1..])
  {
    assert b[i..i + |s|][0] == s[0];
    assert s == [s[0]] + s[1..];
    AtConcat(b, i, [s[0]], s[1..]);
  }

  lemma {:induction false} ReadComplete(b: seq<Byte>, i: nat, w: Wire)
    requires WellFormed(w) && At(b, i, Flatten(w))
    ensures Read(b, i) == Done(w, i + |Flatten(w)|)
    decreases w, 2
  {
    AtHead(b, i, Flatten(w));
    match w {
      case WList(items) => ReadListComplete(b, i, items);
      case WMap(entries) => ReadMapComplete(b, i, entries);
      case _ => ReadScalarComplete(b, i, w);
    }
  }

  lemma ReadScalarComplete(b: seq<Byte>, i: nat, w: Wire)
    requires !w.WList? && !w.WMap?
    requires WellFormed(w) && At(b, i, Flatten(w))
    ensures Read(b, i) == Done(w, i + |Flatten(w)|)
  {
    hide PackUint32, UnpackUint32, PackInt32, UnpackInt32;
    var s := Flatten(w);
    AtHead(b, i, s);
    match w {
      case WInvalid =>
      case WNull =>
      case WBoolean(flag) =>
        assert s[1..] == [flag];
        AtHead(b, i + 1, [flag]);
      case WInteger(n) =>
        assert s[1..] == PackInt32(n);
        UnpackPackInt32(n);
      case WReal(bits) =>
        assert s[1..] == bits;
      case WString(t) =>
        assert s[1..] == PackUint32(|t|) + t;
        AtConcat(b, i + 1, PackUint32(|t|), t);
        UnpackPackUint32(|t|);
    }
  }

  lemma {:induction false} ReadListComplete(b: seq<Byte>, i: nat, items: seq<Wire>)
    requires WellFormed(WList(items)) && At(b, i, Flatten(WList(items)))
    ensures Read(b, i) == Done(WList(items), i + |Flatten(WList(items))|)
    decreases items, 1
  {
    hide PackUint32, UnpackUint32, PackInt32, UnpackInt32;
    var s := Flatten(WList(items));
    AtHead(b, i, s);
    assert s[1..] == PackUint32(|items|) + FlattenItems(items);
    AtConcat(b, i + 1, PackUint32(|items|), FlattenItems(items));
    UnpackPackUint32(|items|);
    ReadItemsComplete(b, i + 5, items);
  }

  lemma {:induction false} ReadMapComplete(b: seq<Byte>, i: nat, entries: seq<Entry<Wire>>)
    requires WellFormed(WMap(entries)) && At(b, i, Flatten(WMap(entries)))
    ensures Read(b, i) == Done(WMap(entries), i + |Flatten(WMap(entries))|)
    decreases entries, 1
  {
    hide PackUint32, UnpackUint32, PackInt32, UnpackInt32;
    var s := Flatten(WMap(entries));
    AtHead(b, i, s);
    assert s[1..] == PackUint32(|entries|) + FlattenEntries(entries);
    AtConcat(b, i + 1, PackUint32(|entries|), FlattenEntries(entries));
    UnpackPackUint32(|entries|);
    ReadEntriesComplete(b, i + 5, entries);
  }

  lemma {:induction false} ReadItemsComplete(b: seq<Byte>, i: nat, ws: seq<Wire>)
    requires WellFormedItems(ws)
    requires At(b, i, FlattenItems(ws))
    ensures ReadItems(b, i, |ws|) == Done(ws, i + |FlattenItems(ws)|)
    decreases ws, 0
  {
    hide Read, At, Flatten;
    if ws != [] {
      AtConcat(b, i, Flatten(ws[0]), FlattenItems(ws[1..]));
      ReadComplete(b, i, ws[0]);
      ReadItemsComplete(b, i + |Flatten(ws[0])|, ws[1..]);
      assert ws == [ws[0]] + ws[1..];
    }
  }

  lemma {:induction false} ReadEntriesComplete(b: seq<Byte>, i: nat, es: seq<Entry<Wire>>)
    requires WellFormedEntries(es)
    requires At(b, i, FlattenEntries(es))
    ensures ReadEntries(b, i, |es|) == Done(es, i + |FlattenEntries(es)|)
    decreases es, 0
  {
    hide Read, At, Flatten, FlattenEntry;
    if es != [] {
      AtConcat(b, i, FlattenEntry(es[0]), FlattenEntries(es[1..]));
      ReadEntryComplete(b, i, es[0]);
      ReadEntriesComplete(b, i + |FlattenEntry(es[0])|, es[1..]);
      assert es == [es[0]] + es[1..];
    }
  }

  lemma {:induction false} ReadEntryComplete(b: seq<Byte>, i: nat, e: Entry<Wire>)
    requires |e.key| < TWO_32 && WellFormed(e.val)
    requires At(b, i, FlattenEntry(e))
    ensures Read(b, i) == Done(WString(e.key), i + |FlattenString(e.key)|)
    ensures Read(b, i + |FlattenString(e.key)|) == Done(e.val, i + |FlattenEntry(e)|)
    decreases e, 3
  {
    hide Read;
    AtConcat(b, i, FlattenString(e.key), Flatten(e.val));
    ReadScalarComplete(b, i, WString(e.key));
    ReadComplete(b, i + |FlattenString(e.key)|, e.val);
  }

  /** Reading succeeds with tree `w` and index `j` exactly when `w` is spelled out between `i` and `j`. */
  lemma ReadIffSentence(b: seq<Byte>, i: nat, w: Wire, j: nat)
    requires i <= |b|
    ensures Read(b, i) == Done(w, j) <==> i <= j <= |b| && WellFormed(w) && Flatten(w) == b[i..j]
  {
    if Read(b, i) == Done(w, j) {
      ReadSound(b, i);
    }
    if i <= j <= |b| && WellFormed(w) && Flatten(w) == b[i..j] {
      ReadComplete(b, i, w);
    }
  }

  /** The grammar is unambiguous, and no sentence is a proper prefix of another. */
  lemma Unambiguous(w: Wire, x: Wire, s: seq<Byte>, t: seq<Byte>)
    requires WellFormed(w) && WellFormed(x)
    requires Flatten(w) + s == Flatten(x) + t
    ensures w == x && s == t
  {
    var b := Flatten(w) + s;
    ReadComplete(b, 0, w);
    ReadComplete(b, 0, x);
    assert s == b[|Flatten(w)|..] && t == b[|Flatten(x)|..];
  }

  // ---- self-delimiting -----------------------------------------------------

  /** A successful read depends on the consumed bytes only, wherever they stand. */
  lemma ReadLocal(b: seq<Byte>, i: nat, c: seq<Byte>, k: nat)
    requires i <= |b| && Read(b, i).Done?
    requires At(c, k, b[i..Read(b, i).next])
    ensures k <= |c| && Read(c, k) == Done(Read(b, i).val, k + (Read(b, i).next - i))
  {
    ReadSound(b, i);
    ReadComplete(c, k, Read(b, i).val);
  }

  lemma SelfDelimiting(b: seq<Byte>, i: nat, c: seq<Byte>, k: nat)
    requires i <= |b| && Dec(b, i).Done?
    requires At(c, k, b[i..Dec(b, i).next])
    ensures k <= |c| && Dec(c, k) == Done(Dec(b, i).val, k + (Dec(b, i).next - i))
  {
    ReadLocal(b, i, c, k);
  }

  lemma SliceOfPrefix(b: seq<Byte>, k: nat, i: nat, j: nat)
    requires i <= j <= k <= |b|
    ensures b[..k][i..j] == b[i..j]
  {
  }

  /** Cutting the buffer anywhere before the end of the value makes the read fail. */
  lemma TruncationFails(b: seq<Byte>, i: nat, k: nat)
    requires i <= |b| && Dec(b, i).Done?
    requires i <= k < Dec(b, i).next
    ensures Dec(b[..k], i).Fail?
  {
    if Dec(b[..k], i).Done? {
      var j := Dec(b[..k], i).next;
      SliceOfPrefix(b, k, i, j);
      SelfDelimiting(b[..k], i, b, i);
    }
  }

  // ---- encoder and grammar -------------------------------------------------

  lemma {:induction false} CanonWellFormed(v: Value)
    requires Fits(v)
    ensures WellFormed(Canon(v))
    decreases v
  {
    match v {
      case List(items) =>
        forall k | 0 <= k < |items| { CanonWellFormed(items[k]); }
      case Map(entries) =>
        forall k | 0 <= k < |entries| { CanonWellFormed(entries[k].val); }
      case _ =>
    }
  }

  lemma EncStringIsSentence(s: seq<Byte>)
    requires |s| < TWO_32
    ensures EncString(s) == FlattenString(s)
  {
    assert Truncate(|s|) == |s|;
    assert s[..|s|] == s;
  }

  /** An encodable value is written as a sentence of the grammar. */
  lemma {:induction false} EncIsSentence(v: Value)
    requires Fits(v)
    ensures WellFormed(Canon(v)) && Enc(v) == Flatten(Canon(v))
    decreases v, 1
  {
    CanonWellFormed(v);
    match v {
      case String(s) => EncStringIsSentence(s);
      case List(items) =>
        EncItemsAreSentences(items);
        EncListIsSentence(items);
      case Map(entries) =>
        EncEntriesAreSentences(entries);
        EncMapIsSentence(entries);
      case _ =>
    }
  }

  // ---- one level of the definitions at a time

  lemma ListLevel(items: seq<Value>)
    requires |items| < TWO_32
    ensures Canon(List(items)) == WList(CanonItems(items))
    ensures Enc(List(items)) == [Signature(Type_List)] + PackUint32(|items|) + EncItems(items)
  {
    assert Truncate(|items|) == |items|;
  }

  lemma WListLevel(ws: seq<Wire>)
    requires |ws| < TWO_32 && WellFormedItems(ws)
    ensures WellFormed(WList(ws))
    ensures Flatten(WList(ws)) == [Signature(Type_List)] + PackUint32(|ws|) + FlattenItems(ws)
  {
  }

  lemma MapLevel(entries: seq<Entry<Value>>)
    requires |entries| < TWO_32
    ensures Canon(Map(entries)) == WMap(CanonEntries(entries))
    ensures Enc(Map(entries)) == [Signature(Type_Map)] + PackUint32(|entries|) + EncEntries(entries)
  {
    assert Truncate(|entries|) == |entries|;
  }

  lemma WMapLevel(es: seq<Entry<Wire>>)
    requires |es| < TWO_32 && WellFormedEntries(es)
    ensures WellFormed(WMap(es))
    ensures Flatten(WMap(es)) == [Signature(Type_Map)] + PackUint32(|es|) + FlattenEntries(es)
  {
  }

  lemma EncListIsSentence(items: seq<Value>)
    requires |items| < TWO_32 && WellFormedItems(CanonItems(items))
    requires EncItems(items) == FlattenItems(CanonItems(items))
    ensures WellFormed(Canon(List(items)))
    ensures Enc(List(items)) == Flatten(Canon(List(items)))
  {
    hide *;
    ListLevel(items);
    WListLevel(CanonItems(items));
  }

  lemma EncMapIsSentence(entries: seq<Entry<Value>>)
    requires |entries| < TWO_32 && WellFormedEntries(CanonEntries(entries))
    requires EncEntries(entries) == FlattenEntries(CanonEntries(entries))
    ensures WellFormed(Canon(Map(entries)))
    ensures Enc(Map(entries)) == Flatten(Canon(Map(entries)))
  {
    hide *;
    MapLevel(entries);
    WMapLevel(CanonEntries(entries));
  }

  lemma {:induction false} EncItemsAreSentences(vs: seq<Value>)
    requires FitItems(vs)
    ensures WellFormedItems(CanonItems(vs))
    ensures EncItems(vs) == FlattenItems(CanonItems(vs))
    decreases vs, 0
  {
    if vs != [] {
      EncIsSentence(vs[0]);
      EncItemsAreSentences(vs[1..]);
      assert CanonItems(vs)[1..] == CanonItems(vs[1..]);
    }
  }

  lemma {:induction false} EncEntriesAreSentences(es: seq<Entry<Value>>)
    requires FitEntries(es)
    ensures WellFormedEntries(CanonEntries(es))
    ensures EncEntries(es) == FlattenEntries(CanonEntries(es))
    decreases es, 0
  {
    if es != [] {
      EncIsSentence(es[0].val);
      EncStringIsSentence(es[0].key);
      EncEntriesAreSentences(es[1..]);
      assert CanonEntries(es)[1..] == CanonEntries(es[1..]);
    }
  }

  lemma {:induction false} MeaningOfCanon(v: Value)
    requires Ordered(v)
    ensures Meaning(Canon(v)) == v
    decreases v
  {
    match v {
      case List(items) =>
        forall k | 0 <= k < |items| { MeaningOfCanon(items[k]); }
        assert ItemMeanings(CanonItems(items)) == items;
      case Map(entries) =>
        forall k | 0 <= k < |entries| { MeaningOfCanon(entries[k].val); }
        MeaningOfCanonMap(entries);
      case _ =>
    }
  }

  lemma MeaningOfCanonMap(es: seq<Entry<Value>>)
    requires Ascending(es)
    requires forall k | 0 <= k < |es| :: Meaning(Canon(es[k].val)) == es[k].val
    ensures Meaning(Canon(Map(es))) == Map(es)
  {
    assert EntryMeanings(CanonEntries(es)) == es;
    CollectOfAscending(es);
  }

  lemma CollectEncodable(es: seq<Entry<Value>>)
    requires |es| < TWO_32 && FitEntries(es) && OrderedEntries(es)
    ensures Fits(Map(Collect(es))) && Ordered(Map(Collect(es)))
  {
    CollectAscending(es);
    CollectLength(es);
    forall n | 0 <= n < |Collect(es)|
      ensures Collect(es)[n] in es
    {
      CollectSubset(es, Collect(es)[n]);
    }
  }

  /** What a tree stands for always respects the map order and the 32-bit length fields. */
  lemma {:induction false} MeaningIsEncodable(w: Wire)
    requires WellFormed(w)
    ensures Fits(Meaning(w)) && Ordered(Meaning(w))
    decreases w
  {
    match w {
      case WList(items) =>
        forall k | 0 <= k < |items| { MeaningIsEncodable(items[k]); }
      case WMap(entries) =>
        forall k | 0 <= k < |entries| { MeaningIsEncodable(entries[k].val); }
        CollectEncodable(EntryMeanings(entries));
      case _ =>
    }
  }

  lemma DecIsEncodable(b: seq<Byte>, i: nat)
    requires i <= |b| && Dec(b, i).Done?
    ensures Fits(Dec(b, i).val) && Ordered(Dec(b, i).val)
  {
    ReadSound(b, i);
    MeaningIsEncodable(Read(b, i).val);
  }

  // ---- round trip ----------------------------------------------------------

  lemma DecEnc(b: seq<Byte>, i: nat, v: Value)
    requires Ordered(v) && Fits(v) && At(b, i, Enc(v))
    ensures Dec(b, i) == Done(v, i + |Enc(v)|)
  {
    EncIsSentence(v);
    ReadComplete(b, i, Canon(v));
    MeaningOfCanon(v);
  }

  /**
   Writing a value anywhere in a buffer and reading it back returns it and stops right behind
   it, exactly when all its lengths fit into 32 bits.
   */
  lemma RoundTrip(p: seq<Byte>, v: Value, s: seq<Byte>)
    requires Ordered(v)
    ensures Dec(p + Enc(v) + s, |p|) == Done(v, |p| + |Enc(v)|) <==> Fits(v)
  {
    var b := p + Enc(v) + s;
    if Fits(v) {
      assert b[|p|..|p| + |Enc(v)|] == Enc(v);
      DecEnc(b, |p|, v);
    }
    if Dec(b, |p|) == Done(v, |p| + |Enc(v)|) {
      DecIsEncodable(b, |p|);
    }
  }

  // ---- what becomes of lengths that do not fit -----------------------------

  /** A string too long is cut, and the cut string is read back. */
  lemma LongStringIsCut(p: seq<Byte>, s: seq<Byte>, t: seq<Byte>)
    requires |s| >= TWO_32
    ensures var n := |s| % TWO_32;
            Dec(p + Enc(String(s)) + t, |p|) == Done(String(s[..n]), |p| + |Enc(String(s))|)
  {
    var n := |s| % TWO_32;
    assert s[..n][..n] == s[..n];
    assert Truncate(n) == n;
    assert Enc(String(s)) == Enc(String(s[..n]));
    RoundTrip(p, String(s[..n]), t);
  }

  lemma {:induction false} EncItemsSplit(vs: seq<Value>, n: nat)
    requires n <= |vs|
    ensures EncItems(vs) == EncItems(vs[..n]) + EncItems(vs[n..])
  {
    hide Enc;
    if n > 0 {
      EncItemsSplit(vs[1..], n - 1);
      assert vs[1..][..n - 1] == vs[..n][1..] && vs[1..][n - 1..] == vs[n..];
      assert EncItems(vs) == Enc(vs[0]) + EncItems(vs[1..]);
      assert EncItems(vs[..n]) == Enc(vs[0]) + EncItems(vs[..n][1..]);
    } else {
      assert vs[..0] == [] && vs[0..] == vs;
    }
  }

  lemma {:induction false} EncEntriesSplit(es: seq<Entry<Value>>, n: nat)
    requires n <= |es|
    ensures EncEntries(es) == EncEntries(es[..n]) + EncEntries(es[n..])
  {
    hide EncEntry;
    if n > 0 {
      EncEntriesSplit(es[1..], n - 1);
      assert es[1..][..n - 1] == es[..n][1..] && es[1..][n - 1..] == es[n..];
      assert EncEntries(es) == EncEntry(es[0]) + EncEntries(es[1..]);
      assert EncEntries(es[..n]) == EncEntry(es[0]) + EncEntries(es[..n][1..]);
    } else {
      assert es[..0] == [] && es[0..] == es;
    }
  }

  lemma EncListSplit(items: seq<Value>, n: nat)
    requires n <= |items| && Truncate(n) == Truncate(|items|)
    ensures Enc(List(items)) == Enc(List(items[..n])) + EncItems(items[n..])
  {
    EncItemsSplit(items, n);
    hide PackUint32, EncItems, Truncate;
  }

  lemma EncMapSplit(es: seq<Entry<Value>>, n: nat)
    requires n <= |es| && Truncate(n) == Truncate(|es|)
    ensures Enc(Map(es)) == Enc(Map(es[..n])) + EncEntries(es[n..])
  {
    EncEntriesSplit(es, n);
    hide PackUint32, EncEntries, Truncate;
  }

  /** A list too long comes back short, and the bytes of the rest of it stay in front of what follows. */
  lemma LongListIsShortened(p: seq<Byte>, items: seq<Value>, t: seq<Byte>)
    requires |items| >= TWO_32
    requires var n := |items| % TWO_32; Ordered(List(items[..n])) && FitItems(items[..n])
    ensures var n := |items| % TWO_32;
            && Enc(List(items)) == Enc(List(items[..n])) + EncItems(items[n..])
            && Dec(p + Enc(List(items)) + t, |p|) == Done(List(items[..n]), |p| + |Enc(List(items[..n]))|)
  {
    var n := |items| % TWO_32;
    var front, rest := items[..n], EncItems(items[n..]);
    assert Truncate(n) == n == Truncate(|items|);
    hide Enc, EncItems, Truncate;
    EncListSplit(items, n);
    assert p + Enc(List(items)) + t == p + Enc(List(front)) + (rest + t);
    RoundTrip(p, List(front), rest + t);
  }

  lemma LongMapIsShortened(p: seq<Byte>, es: seq<Entry<Value>>, t: seq<Byte>)
    requires |es| >= TWO_32
    requires var n := |es| % TWO_32; Ordered(Map(es[..n])) && FitEntries(es[..n])
    ensures var n := |es| % TWO_32;
            && Enc(Map(es)) == Enc(Map(es[..n])) + EncEntries(es[n..])
            && Dec(p + Enc(Map(es)) + t, |p|) == Done(Map(es[..n]), |p| + |Enc(Map(es[..n]))|)
  {
    var n := |es| % TWO_32;
    var front, rest := es[..n], EncEntries(es[n..]);
    assert Truncate(n) == n == Truncate(|es|);
    hide Enc, EncEntries, Truncate;
    EncMapSplit(es, n);
    assert p + Enc(Map(es)) + t == p + Enc(Map(front)) + (rest + t);
    RoundTrip(p, Map(front), rest + t);
  }

  /** Two encodings, one continued by `s` and the other by `t`, agree only if everything agrees. */
  lemma PrefixFree(v: Value, u: Value, s: seq<Byte>, t: seq<Byte>)
    requires Ordered(v) && Fits(v) && Ordered(u) && Fits(u)
    requires Enc(v) + s == Enc(u) + t
    ensures v == u && s == t
  {
    var b := Enc(v) + s;
    DecEnc(b, 0, v);
    DecEnc(b, 0, u);
    assert s == b[|Enc(v)|..] && t == b[|Enc(u)|..];
  }

  /** A concatenation of encodings can be split in one way only. */
  lemma {:induction false} UniquelyDecodable(vs: seq<Value>, us: seq<Value>)
    requires OrderedItems(vs) && FitItems(vs)
    requires OrderedItems(us) && FitItems(us)
    requires EncItems(vs) == EncItems(us)
    ensures vs == us
  {
    if vs != [] && us != [] {
      PrefixFree(vs[0], us[0], EncItems(vs[1..]), EncItems(us[1..]));
      UniquelyDecodable(vs[1..], us[1..]);
      assert vs == [vs[0]] + vs[1..] && us == [us[0]] + us[1..];
    }
  }

  // ---- normalisation -------------------------------------------------------

  lemma {:induction false} CanonIsCanonical(v: Value)
    requires Ordered(v)
    ensures Canonical(Canon(v))
    decreases v
  {
    match v {
      case List(items) =>
        forall k | 0 <= k < |items| { CanonIsCanonical(items[k]); }
      case Map(entries) =>
        forall k | 0 <= k < |entries| { CanonIsCanonical(entries[k].val); }
      case _ =>
    }
  }

  lemma {:induction false} CanonOfMeaning(w: Wire)
    requires Canonical(w)
    ensures Canon(Meaning(w)) == w
    decreases w
  {
    match w {
      case WList(items) =>
        forall k | 0 <= k < |items| { CanonOfMeaning(items[k]); }
        assert CanonItems(ItemMeanings(items)) == items;
      case WMap(entries) =>
        forall k | 0 <= k < |entries| { CanonOfMeaning(entries[k].val); }
        CanonOfMeaningMap(entries);
      case _ =>
    }
  }

  lemma CanonOfMeaningEntries(es: seq<Entry<Wire>>)
    requires forall k | 0 <= k < |es| :: Canon(Meaning(es[k].val)) == es[k].val
    ensures CanonEntries(EntryMeanings(es)) == es
  {
    hide Canon, Meaning;
  }

  lemma MeaningsAscend(es: seq<Entry<Wire>>)
    requires Ascending(es)
    ensures Ascending(EntryMeanings(es))
  {
    hide KeyLess, Meaning;
  }

  lemma CanonOfMeaningMap(es: seq<Entry<Wire>>)
    requires Ascending(es)
    requires forall k | 0 <= k < |es| :: Canon(Meaning(es[k].val)) == es[k].val
    ensures Canon(Meaning(WMap(es))) == WMap(es)
  {
    hide Ascending, KeyLess, Collect;
    MeaningsAscend(es);
    CollectOfAscending(EntryMeanings(es));
    CanonOfMeaningEntries(es);
  }

  /** Re-encoding what was read gives the very bytes exactly when they were canonical. */
  lemma ReencodeIdentity(w: Wire)
    requires WellFormed(w)
    ensures Enc(Meaning(w)) == Flatten(w) <==> Canonical(w)
  {
    var v := Meaning(w);
    MeaningIsEncodable(w);
    EncIsSentence(v);
    if Canonical(w) {
      CanonOfMeaning(w);
    }
    if Enc(v) == Flatten(w) {
      Unambiguous(Canon(v), w, [], []);
      CanonIsCanonical(v);
    }
  }

  /** Total size of the entries of a map, each with its own weight. */
  lemma {:induction false} PutShrinks(es: seq<Entry<Value>>, key: Key, val: Value)
    ensures |EncEntries(Put(es, key, val))|
         <= |EncEntries(es)| + |EncEntry(Entry(key, val))|
  {
    var e := Entry(key, val);
    if es == [] {
    } else if es[0].key == key {
      assert ([e] + es[1..])[1..] == es[1..];
    } else if KeyLess(key, es[0].key) {
      assert ([e] + es)[1..] == es;
    } else {
      PutShrinks(es[1..], key, val);
      assert Put(es, key, val)[1..] == Put(es[1..], key, val);
    }
  }

  lemma {:induction false} EncEntriesSnoc(es: seq<Entry<Value>>, e: Entry<Value>)
    ensures EncEntries(es + [e]) == EncEntries(es) + EncEntry(e)
  {
    if es == [] {
      assert EncEntries([]) == [];
      assert [e][1..] == [];
    } else {
      EncEntriesSnoc(es[1..], e);
      assert (es + [e])[1..] == es[1..] + [e];
    }
  }

  lemma {:induction false} CollectShrinks(es: seq<Entry<Value>>)
    ensures |EncEntries(Collect(es))| <= |EncEntries(es)|
  {
    if es != [] {
      var init, last := es[..|es| - 1], es[|es| - 1];
      CollectShrinks(init);
      PutShrinks(Collect(init), last.key, last.val);
      EncEntriesSnoc(init, last);
      assert es == init + [last];
    }
  }

  lemma {:induction false} ReencodeShrinks(w: Wire)
    requires WellFormed(w)
    ensures |Enc(Meaning(w))| <= |Flatten(w)|
    decreases w, 1
  {
    match w {
      case WString(s) =>
        EncStringIsSentence(s);
      case WList(items) =>
        ReencodeItemsShrinks(items);
        ReencodeListShrinks(items);
      case WMap(entries) =>
        CollectShrinks(EntryMeanings(entries));
        ReencodeEntriesShrinks(entries);
        ReencodeMapShrinks(entries);
      case _ =>
    }
  }

  lemma ReencodeListShrinks(items: seq<Wire>)
    requires WellFormed(WList(items))
    requires |EncItems(ItemMeanings(items))| <= |FlattenItems(items)|
    ensures |Enc(Meaning(WList(items)))| <= |Flatten(WList(items))|
  {
    hide FlattenItems, EncItems, ItemMeanings, PackUint32;
  }

  lemma ReencodeMapShrinks(entries: seq<Entry<Wire>>)
    requires WellFormed(WMap(entries))
    requires |EncEntries(Collect(EntryMeanings(entries)))| <= |FlattenEntries(entries)|
    ensures |Enc(Meaning(WMap(entries)))| <= |Flatten(WMap(entries))|
  {
    hide FlattenEntries, EncEntries, EntryMeanings, Collect, PackUint32;
  }

  lemma {:induction false} ReencodeItemsShrinks(ws: seq<Wire>)
    requires WellFormedItems(ws)
    ensures |EncItems(ItemMeanings(ws))| <= |FlattenItems(ws)|
    decreases ws, 0
  {
    if ws != [] {
      ReencodeShrinks(ws[0]);
      ReencodeItemsShrinks(ws[1..]);
      assert ItemMeanings(ws)[1..] == ItemMeanings(ws[1..]);
    }
  }

  lemma {:induction false} ReencodeEntriesShrinks(es: seq<Entry<Wire>>)
    requires WellFormedEntries(es)
    ensures |EncEntries(EntryMeanings(es))| <= |FlattenEntries(es)|
    decreases es, 0
  {
    if es != [] {
      ReencodeEntryShrinks(es[0]);
      ReencodeEntriesShrinks(es[1..]);
      assert EntryMeanings(es)[1..] == EntryMeanings(es[1..]);
    }
  }

  lemma {:induction false} ReencodeEntryShrinks(e: Entry<Wire>)
    requires |e.key| < TWO_32 && WellFormed(e.val)
    ensures |EncEntry(Entry(e.key, Meaning(e.val)))| <= |FlattenEntry(e)|
    decreases e, 2
  {
    EncStringIsSentence(e.key);
    ReencodeShrinks(e.val);
  }

  /**
   Decoding and re-encoding normalises: the result decodes to the same value, is never longer
   than what was read, and is what was read exactly when that was canonical already.
   */
  lemma Normalisation(b: seq<Byte>, i: nat)
    requires i <= |b| && Dec(b, i).Done?
    ensures var Done(v, j) := Dec(b, i);
            && Dec(Enc(v), 0) == Done(v, |Enc(v)|)
            && |Enc(v)| <= j - i
            && (Enc(v) == b[i..j] <==> Canonical(Read(b, i).val))
  {
    var v := Dec(b, i).val;
    ReadSound(b, i);
    DecIsEncodable(b, i);
    DecEnc(Enc(v), 0, v);
    ReencodeShrinks(Read(b, i).val);
    ReencodeIdentity(Read(b, i).val);
  }

  // ---- maps ----------------------------------------------------------------

  /**
   A decoded map has the keys found on the wire, in ascending order, and binds each to the
   value that stood last.
   */
  lemma MapDecoding(es: seq<Entry<Wire>>, e: Entry<Value>)
    ensures var m := Meaning(WMap(es)).entries;
            && Ascending(m)
            && Keys(m) == Keys(es)
            && (e in m <==> LastBinding(EntryMeanings(es), e.key) == Some(e.val))
  {
    var fs := EntryMeanings(es);
    CollectAscending(fs);
    CollectKeys(fs);
    CollectMeaning(fs, e);
    forall k
      ensures k in Keys(fs) <==> k in Keys(es)
    {
      if k in Keys(fs) {
        var n :| 0 <= n < |fs| && fs[n].key == k;
        assert es[n] in es;
      }
      if k in Keys(es) {
        var n :| 0 <= n < |es| && es[n].key == k;
        assert fs[n] in fs;
      }
    }
  }

  /** Listing entries with distinct keys in another order does not change the decoded map. */
  lemma MapPermutation(es: seq<Entry<Wire>>, fs: seq<Entry<Wire>>)
    requires DistinctKeys(es) && DistinctKeys(fs)
    requires forall e :: e in es <==> e in fs
    ensures Meaning(WMap(es)) == Meaning(WMap(fs))
  {
    forall e
      ensures e in EntryMeanings(es) <==> e in EntryMeanings(fs)
    {
      if e in EntryMeanings(es) { EntryMeaningsSubset(es, fs, e); }
      if e in EntryMeanings(fs) { EntryMeaningsSubset(fs, es, e); }
    }
    CollectPermutation(EntryMeanings(es), EntryMeanings(fs));
  }

  lemma EntryMeaningsSubset(es: seq<Entry<Wire>>, fs: seq<Entry<Wire>>, e: Entry<Value>)
    requires forall x :: x in es ==> x in fs
    requires e in EntryMeanings(es)
    ensures e in EntryMeanings(fs)
  {
    var k :| 0 <= k < |es| && EntryMeanings(es)[k] == e;
    assert es[k] in fs;
    var n :| 0 <= n < |fs| && fs[n] == es[k];
    assert EntryMeanings(fs)[n] == e;
  }

  // ---- resource bounds -----------------------------------------------------

  lemma {:induction false} ItemsSize(ws: seq<Wire>)
    requires WellFormedItems(ws)
    ensures |FlattenItems(ws)| >= |ws|
  {
    if ws != [] {
      ItemsSize(ws[1..]);
    }
  }

  lemma {:induction false} EntriesSize(es: seq<Entry<Wire>>)
    requires WellFormedEntries(es)
    ensures |FlattenEntries(es)| >= 6 * |es|
  {
    if es != [] {
      EntriesSize(es[1..]);
    }
  }

  lemma {:induction false} DepthBound(w: Wire)
    requires WellFormed(w)
    ensures 5 * Depth(w) <= |Flatten(w)|
    decreases w, 1
  {
    match w {
      case WList(items) => ItemsDepthBound(items);
      case WMap(entries) => EntriesDepthBound(entries);
      case _ =>
    }
  }

  lemma {:induction false} ItemsDepthBound(ws: seq<Wire>)
    requires WellFormedItems(ws)
    ensures 5 * ItemsDepth(ws) <= |FlattenItems(ws)|
    decreases ws, 0
  {
    if ws != [] {
      DepthBound(ws[0]);
      ItemsDepthBound(ws[1..]);
    }
  }

  lemma {:induction false} EntriesDepthBound(es: seq<Entry<Wire>>)
    requires WellFormedEntries(es)
    ensures 5 * EntriesDepth(es) <= |FlattenEntries(es)|
    decreases es, 0
  {
    if es != [] {
      DepthBound(es[0].val);
      EntriesDepthBound(es[1..]);
    }
  }

  /** Counts and nesting of an accepted value are paid for in bytes. */
  lemma ResourceBound(b: seq<Byte>, i: nat)
    requires i <= |b| && Read(b, i).Done?
    ensures var Done(w, j) := Read(b, i);
            && (w.WList? ==> j - i >= 5 + |w.items|)
            && (w.WMap? ==> j - i >= 5 + 6 * |w.entries|)
            && 5 * Depth(w) <= j - i
  {
    var w := Read(b, i).val;
    ReadSound(b, i);
    DepthBound(w);
    if w.WList? { ItemsSize(w.items); }
    if w.WMap? { EntriesSize(w.entries); }
  }
}
