/**
 How deep and how often `popValue` calls itself on arbitrary bytes, accepted or not, whatever
 the length fields claim.
 */
module ResourceBounds {
  import opened Bytes
  import opened OrderedMap
  import opened VariantValue
  import opened WireFormat
  import opened Codec
  import opened CodecTheorems
  import opened FailedReads

  /** Containers open at the same time at the deepest point of reading at `i`. */
  function Nesting(b: seq<Byte>, i: nat): nat
    requires i <= |b|
    decreases |b| - i, 0, 0
  {
    if i == |b| || SignatureType(b[i]).None? then 0
    else
      var t := SignatureType(b[i]).value;
      if (t != Type_List && t != Type_Map) || |b| - (i + 1) < 4 then 0
      else
        var n := UnpackUint32(b[i + 1..i + 5]);
        1 + ElementsNesting(b, i + 5, n, t == Type_Map)
  }

  /** The same for `n` elements: values, or keys each followed by a value. */
  function ElementsNesting(b: seq<Byte>, i: nat, n: nat, keyed: bool): nat
    requires i <= |b|
    decreases |b| - i, 1, n
  {
    if n == 0 then 0
    else
      match Read(b, i)
      case Fail(_) => Nesting(b, i)
      case Done(w, j) =>
        if !keyed then Max(Nesting(b, i), ElementsNesting(b, j, n - 1, keyed))
        else if !w.WString? then Nesting(b, i)
        else
          match Read(b, j)
          case Fail(_) => Max(Nesting(b, i), Nesting(b, j))
          case Done(_, k) =>
            Max(Max(Nesting(b, i), Nesting(b, j)), ElementsNesting(b, k, n - 1, keyed))
  }

  /** Calls of `popValue` made while reading at `i`, the call itself included. */
  function Calls(b: seq<Byte>, i: nat): nat
    requires i <= |b|
    decreases |b| - i, 0, 0
  {
    if i == |b| || SignatureType(b[i]).None? then 1
    else
      var t := SignatureType(b[i]).value;
      if (t != Type_List && t != Type_Map) || |b| - (i + 1) < 4 then 1
      else
        var n := UnpackUint32(b[i + 1..i + 5]);
        1 + ElementsCalls(b, i + 5, n, t == Type_Map)
  }

  function ElementsCalls(b: seq<Byte>, i: nat, n: nat, keyed: bool): nat
    requires i <= |b|
    decreases |b| - i, 1, n
  {
    if n == 0 then 0
    else
      match Read(b, i)
      case Fail(_) => Calls(b, i)
      case Done(w, j) =>
        if !keyed then Calls(b, i) + ElementsCalls(b, j, n - 1, keyed)
        else if !w.WString? then Calls(b, i)
        else
          match Read(b, j)
          case Fail(_) => Calls(b, i) + Calls(b, j)
          case Done(_, k) => Calls(b, i) + Calls(b, j) + ElementsCalls(b, k, n - 1, keyed)
  }

  lemma ItemsStep(b: seq<Byte>, i: nat, n: nat)
    requires i <= |b| && n > 0
    ensures Read(b, i).Fail? ==>
              && ElementsNesting(b, i, n, false) == Nesting(b, i)
              && ElementsCalls(b, i, n, false) == Calls(b, i)
    ensures Read(b, i).Done? ==>
              && var j := Read(b, i).next;
              && ElementsNesting(b, i, n, false) == Max(Nesting(b, i), ElementsNesting(b, j, n - 1, false))
              && ElementsCalls(b, i, n, false) == Calls(b, i) + ElementsCalls(b, j, n - 1, false)
  {
    hide Read, Nesting, Calls;
  }

  lemma EntriesStep(b: seq<Byte>, i: nat, n: nat)
    requires i <= |b| && n > 0
    ensures Read(b, i).Fail? || !Read(b, i).val.WString? ==>
              && ElementsNesting(b, i, n, true) == Nesting(b, i)
              && ElementsCalls(b, i, n, true) == Calls(b, i)
    ensures Read(b, i).Done? && Read(b, i).val.WString? ==>
              && var j := Read(b, i).next;
              && (Read(b, j).Fail? ==>
                   && ElementsNesting(b, i, n, true) == Max(Nesting(b, i), Nesting(b, j))
                   && ElementsCalls(b, i, n, true) == Calls(b, i) + Calls(b, j))
              && (Read(b, j).Done? ==>
                   && var k := Read(b, j).next;
                   && ElementsNesting(b, i, n, true)
                      == Max(Max(Nesting(b, i), Nesting(b, j)), ElementsNesting(b, k, n - 1, true))
                   && ElementsCalls(b, i, n, true) == Calls(b, i) + Calls(b, j) + ElementsCalls(b, k, n - 1, true))
  {
    hide Read, Nesting, Calls;
  }

  lemma NoElements(b: seq<Byte>, i: nat, keyed: bool)
    requires i <= |b|
    ensures ElementsNesting(b, i, 0, keyed) == 0 && ElementsCalls(b, i, 0, keyed) == 0
  {
  }

  /** What reading a container costs behind its signature. */
  function BodyNesting(b: seq<Byte>, i: nat, keyed: bool): nat
    requires i <= |b|
  {
    if |b| - i < 4 then 0 else 1 + ElementsNesting(b, i + 4, UnpackUint32(b[i..i + 4]), keyed)
  }

  function BodyCalls(b: seq<Byte>, i: nat, keyed: bool): nat
    requires i <= |b|
  {
    if |b| - i < 4 then 0 else ElementsCalls(b, i + 4, UnpackUint32(b[i..i + 4]), keyed)
  }

  lemma ByType(b: seq<Byte>, i: nat)
    requires i <= |b|
    ensures i == |b| || SignatureType(b[i]).None? ==> Nesting(b, i) == 0 && Calls(b, i) == 1
    ensures i < |b| && SignatureType(b[i]).Some? ==>
              var t := SignatureType(b[i]).value;
              if t == Type_List || t == Type_Map then
                && Nesting(b, i) == BodyNesting(b, i + 1, t == Type_Map)
                && Calls(b, i) == 1 + BodyCalls(b, i + 1, t == Type_Map)
              else Nesting(b, i) == 0 && Calls(b, i) == 1
  {
    hide ElementsNesting, ElementsCalls, UnpackUint32;
  }

  /** The recursion is at most a fifth of the remaining bytes deep. */
  lemma {:induction false} NestingBound(b: seq<Byte>, i: nat)
    requires i <= |b|
    ensures 5 * Nesting(b, i) <= |b| - i
    decreases |b| - i, 0, 0
  {
    hide Read, UnpackUint32;
    if i + 5 <= |b| && SignatureType(b[i]).Some? {
      var n, t := UnpackUint32(b[i + 1..i + 5]), SignatureType(b[i]).value;
      ElementsNestingBound(b, i + 5, n, t == Type_Map);
    }
  }

  lemma {:induction false} ElementsNestingBound(b: seq<Byte>, i: nat, n: nat, keyed: bool)
    requires i <= |b|
    ensures 5 * ElementsNesting(b, i, n, keyed) <= |b| - i
    decreases |b| - i, 1, n
  {
    hide Read, Nesting;
    if n != 0 {
      NestingBound(b, i);
      match Read(b, i) {
        case Fail(_) =>
        case Done(w, j) =>
          NestingBound(b, j);
          if !keyed {
            ElementsNestingBound(b, j, n - 1, keyed);
          } else if w.WString? && Read(b, j).Done? {
            ElementsNestingBound(b, Read(b, j).next, n - 1, keyed);
          }
      }
    }
  }

  /** Every call but a failing one consumes a byte of its own. */
  lemma {:induction false} CallsBound(b: seq<Byte>, i: nat)
    requires i <= |b|
    ensures Calls(b, i) <= Read(b, i).next - i + (if Read(b, i).Done? then 0 else 1)
    decreases |b| - i, 0, 0
  {
    hide UnpackUint32, ReadItems, ReadEntries;
    if i + 5 <= |b| && SignatureType(b[i]).Some? {
      var n, t := UnpackUint32(b[i + 1..i + 5]), SignatureType(b[i]).value;
      if t == Type_List {
        ItemsCallsBound(b, i + 5, n);
      }
      if t == Type_Map {
        EntriesCallsBound(b, i + 5, n);
      }
    }
  }

  lemma {:induction false} ItemsCallsBound(b: seq<Byte>, i: nat, n: nat)
    requires i <= |b|
    ensures ElementsCalls(b, i, n, false)
         <= ReadItems(b, i, n).next - i + (if ReadItems(b, i, n).Done? then 0 else 1)
    decreases |b| - i, 1, n
  {
    hide Read, Calls;
    if n != 0 {
      CallsBound(b, i);
      match Read(b, i) {
        case Fail(_) =>
        case Done(w, j) => ItemsCallsBound(b, j, n - 1);
      }
    }
  }

  lemma {:induction false} EntriesCallsBound(b: seq<Byte>, i: nat, n: nat)
    requires i <= |b|
    ensures ElementsCalls(b, i, n, true)
         <= ReadEntries(b, i, n).next - i + (if ReadEntries(b, i, n).Done? then 0 else 1)
    decreases |b| - i, 1, n
  {
    hide Read, Calls;
    if n != 0 {
      CallsBound(b, i);
      match Read(b, i) {
        case Fail(_) =>
        case Done(w, j) =>
          CallsBound(b, j);
          if w.WString? && Read(b, j).Done? {
            EntriesCallsBound(b, Read(b, j).next, n - 1);
          }
      }
    }
  }

  // ---- what accepted bytes cost --------------------------------------------

  /** Values in the tree, keys included. */
  function Values(w: Wire): nat
    decreases w, 1
  {
    match w
    case WList(items) => 1 + ValuesOfItems(items)
    case WMap(entries) => 1 + ValuesOfEntries(entries)
    case _ => 1
  }

  function ValuesOfItems(ws: seq<Wire>): nat
    decreases ws, 0
  {
    if ws == [] then 0 else Values(ws[0]) + ValuesOfItems(ws[1..])
  }

  function ValuesOfEntries(es: seq<Entry<Wire>>): nat
    decreases es, 0
  {
    if es == [] then 0 else 1 + Values(es[0].val) + ValuesOfEntries(es[1..])
  }

  /** Reading an accepted tree nests as deep as the tree and calls itself once for each value in it. */
  lemma {:induction false} AcceptedCost(b: seq<Byte>, i: nat)
    requires i <= |b| && Read(b, i).Done?
    ensures Nesting(b, i) == Depth(Read(b, i).val) && Calls(b, i) == Values(Read(b, i).val)
    decreases |b| - i, 0, 0
  {
    hide UnpackUint32, ReadItems, ReadEntries;
    var t := SignatureType(b[i]).value;
    if t == Type_List {
      ItemsCost(b, i + 5, UnpackUint32(b[i + 1..i + 5]));
    } else if t == Type_Map {
      EntriesCost(b, i + 5, UnpackUint32(b[i + 1..i + 5]));
    }
  }

  lemma {:induction false} ItemsCost(b: seq<Byte>, i: nat, n: nat)
    requires i <= |b| && ReadItems(b, i, n).Done?
    ensures ElementsNesting(b, i, n, false) == ItemsDepth(ReadItems(b, i, n).val)
    ensures ElementsCalls(b, i, n, false) == ValuesOfItems(ReadItems(b, i, n).val)
    decreases |b| - i, 1, n
  {
    hide Read, Nesting, Calls, Depth, Values;
    if n != 0 {
      var j := Read(b, i).next;
      AcceptedCost(b, i);
      ItemsCost(b, j, n - 1);
      assert ReadItems(b, i, n).val[1..] == ReadItems(b, j, n - 1).val;
    }
  }

  lemma {:induction false} EntriesCost(b: seq<Byte>, i: nat, n: nat)
    requires i <= |b| && ReadEntries(b, i, n).Done?
    ensures ElementsNesting(b, i, n, true) == EntriesDepth(ReadEntries(b, i, n).val)
    ensures ElementsCalls(b, i, n, true) == ValuesOfEntries(ReadEntries(b, i, n).val)
    decreases |b| - i, 1, n
  {
    if n != 0 {
      var j := Read(b, i).next;
      var k := Read(b, j).next;
      AcceptedCost(b, i);
      AcceptedCost(b, j);
      assert Depth(Read(b, i).val) == 0 && Values(Read(b, i).val) == 1;
      hide Read, Nesting, Calls, Depth, Values;
      EntriesCost(b, k, n - 1);
      assert ReadEntries(b, i, n).val[1..] == ReadEntries(b, k, n - 1).val;
    }
  }

  /** A list is one level deeper than its deepest element, one level deep without elements. */
  lemma {:induction false} ListLevels(ws: seq<Wire>)
    ensures forall k | 0 <= k < |ws| :: Depth(ws[k]) < Depth(WList(ws))
    ensures ws != [] ==> exists k :: 0 <= k < |ws| && Depth(WList(ws)) == 1 + Depth(ws[k])
    ensures ws == [] ==> Depth(WList(ws)) == 1
  {
    if ws != [] {
      ListLevels(ws[1..]);
      assert Depth(WList(ws)) == 1 + Max(Depth(ws[0]), Depth(WList(ws[1..])) - 1);
      assert forall k | 0 < k < |ws| :: ws[k] == ws[1..][k - 1];
      if Depth(ws[0]) < Depth(WList(ws[1..])) - 1 {
        var k :| 0 <= k < |ws[1..]| && Depth(WList(ws[1..])) == 1 + Depth(ws[1..][k]);
        assert Depth(ws[k + 1]) == Depth(ws[1..][k]);
      }
    }
  }

  /** So is a map over its values. */
  lemma {:induction false} MapLevels(es: seq<Entry<Wire>>)
    ensures forall k | 0 <= k < |es| :: Depth(es[k].val) < Depth(WMap(es))
    ensures es != [] ==> exists k :: 0 <= k < |es| && Depth(WMap(es)) == 1 + Depth(es[k].val)
    ensures es == [] ==> Depth(WMap(es)) == 1
  {
    if es != [] {
      MapLevels(es[1..]);
      assert Depth(WMap(es)) == 1 + Max(Depth(es[0].val), Depth(WMap(es[1..])) - 1);
      assert forall k | 0 < k < |es| :: es[k] == es[1..][k - 1];
      if Depth(es[0].val) < Depth(WMap(es[1..])) - 1 {
        var k :| 0 <= k < |es[1..]| && Depth(WMap(es[1..])) == 1 + Depth(es[1..][k].val);
        assert Depth(es[k + 1].val) == Depth(es[1..][k].val);
      }
    }
  }

  // ---- what any bytes cost at least ----------------------------------------

  lemma {:induction false} ItemReached(b: seq<Byte>, i: nat, ws: seq<Wire>, k: nat, n: nat)
    requires i <= |b| && ReadItems(b, i, |ws|) == Done(ws, k) && |ws| < n
    ensures ElementsNesting(b, i, n, false) >= Nesting(b, k)
    ensures ElementsCalls(b, i, n, false) >= ValuesOfItems(ws) + Calls(b, k)
    decreases |ws|
  {
    ItemsStep(b, i, n);
    if ws != [] {
      var j := Read(b, i).next;
      AcceptedCost(b, i);
      assert ws[0] == Read(b, i).val && ws[1..] == ReadItems(b, j, |ws| - 1).val;
      hide Read, Nesting, Calls, ElementsNesting, ElementsCalls, Values;
      ItemReached(b, j, ws[1..], k, n - 1);
    }
  }

  lemma FirstEntry(b: seq<Byte>, i: nat, es: seq<Entry<Wire>>, k: nat)
    requires i <= |b| && es != [] && ReadEntries(b, i, |es|) == Done(es, k)
    ensures Read(b, i).Done? && Read(b, i).val.WString?
    ensures var j := Read(b, i).next;
            && Read(b, j).Done? && Read(b, j).val == es[0].val
            && ReadEntries(b, Read(b, j).next, |es| - 1) == Done(es[1..], k)
    ensures ValuesOfEntries(es) == Values(Read(b, i).val) + Values(es[0].val) + ValuesOfEntries(es[1..])
  {
    var j := Read(b, i).next;
    assert Values(Read(b, i).val) == 1;
    hide Read, Values;
    assert es[1..] == ReadEntries(b, Read(b, j).next, |es| - 1).val;
  }

  lemma EntryReachedNow(b: seq<Byte>, i: nat, n: nat)
    requires i <= |b| && n > 0
    ensures ElementsNesting(b, i, n, true) >= Nesting(b, i)
    ensures ElementsCalls(b, i, n, true) >= Calls(b, i)
    ensures Read(b, i).Done? && Read(b, i).val.WString? ==>
              && ElementsNesting(b, i, n, true) >= Nesting(b, Read(b, i).next)
              && ElementsCalls(b, i, n, true) >= Calls(b, i) + Calls(b, Read(b, i).next)
  {
    EntriesStep(b, i, n);
    hide Read, Nesting, Calls, ElementsNesting, ElementsCalls;
  }

  lemma {:induction false} EntryReached(b: seq<Byte>, i: nat, es: seq<Entry<Wire>>, k: nat, n: nat)
    requires i <= |b| && ReadEntries(b, i, |es|) == Done(es, k) && |es| < n
    ensures ElementsNesting(b, i, n, true) >= Nesting(b, k)
    ensures ElementsCalls(b, i, n, true) >= ValuesOfEntries(es) + Calls(b, k)
    ensures Read(b, k).Done? && Read(b, k).val.WString? ==>
              && ElementsNesting(b, i, n, true) >= Nesting(b, Read(b, k).next)
              && ElementsCalls(b, i, n, true) >= ValuesOfEntries(es) + Calls(b, k) + Calls(b, Read(b, k).next)
    decreases |es|
  {
    hide Read, Nesting, Calls, ElementsNesting, ElementsCalls, Values;
    if es == [] {
      EntryReachedNow(b, i, n);
    } else {
      var j := Read(b, i).next;
      FirstEntry(b, i, es, k);
      EntriesStep(b, i, n);
      AcceptedCost(b, i);
      AcceptedCost(b, j);
      hide ReadEntries, ValuesOfEntries;
      EntryReached(b, Read(b, j).next, es[1..], k, n - 1);
    }
  }

  lemma ContainerCost(b: seq<Byte>, i: nat)
    requires i + 5 <= |b| && (b[i] == 'L' as int || b[i] == 'M' as int)
    ensures Nesting(b, i) == 1 + ElementsNesting(b, i + 5, Count(b, i + 1), b[i] == 'M' as int)
    ensures Calls(b, i) == 1 + ElementsCalls(b, i + 5, Count(b, i + 1), b[i] == 'M' as int)
  {
    CountIsLength(b, i + 1);
    hide UnpackUint32, Count, ElementsNesting, ElementsCalls;
  }

  /** Any list costs a level and a call more than each element it comes to, after all elements before. */
  lemma ListReaches(b: seq<Byte>, i: nat, ws: seq<Wire>, k: nat)
    requires i + 5 <= k <= |b| && b[i] == 'L' as int && |ws| < Count(b, i + 1)
    requires WellFormedItems(ws) && FlattenItems(ws) == b[i + 5..k]
    ensures Nesting(b, i) >= 1 + Nesting(b, k)
    ensures Calls(b, i) >= 1 + ValuesOfItems(ws) + Calls(b, k)
  {
    hide Count, Nesting, Calls, ElementsNesting, ElementsCalls, ReadItems, Read;
    ContainerCost(b, i);
    ReadItemsComplete(b, i + 5, ws);
    ItemReached(b, i + 5, ws, k, Count(b, i + 1));
  }

  /** So does any map, for each key and for each value behind a key. */
  lemma MapReaches(b: seq<Byte>, i: nat, es: seq<Entry<Wire>>, k: nat, key: seq<Byte>, l: nat)
    requires i + 5 <= k <= |b| && b[i] == 'M' as int && |es| < Count(b, i + 1)
    requires WellFormedEntries(es) && FlattenEntries(es) == b[i + 5..k]
    ensures Nesting(b, i) >= 1 + Nesting(b, k)
    ensures Calls(b, i) >= 1 + ValuesOfEntries(es) + Calls(b, k)
    ensures k <= l <= |b| && WellFormed(WString(key)) && Flatten(WString(key)) == b[k..l] ==>
              && Nesting(b, i) >= 1 + Nesting(b, l)
              && Calls(b, i) >= 2 + ValuesOfEntries(es) + Calls(b, l)
  {
    hide Count, Nesting, Calls, ElementsNesting, ElementsCalls, ReadEntries, Read, Flatten;
    ContainerCost(b, i);
    ReadEntriesComplete(b, i + 5, es);
    EntryReached(b, i + 5, es, k, Count(b, i + 1));
    if k <= l <= |b| && WellFormed(WString(key)) && Flatten(WString(key)) == b[k..l] {
      ReadComplete(b, k, WString(key));
      AcceptedCost(b, k);
      assert Values(WString(key)) == 1;
    }
  }
}
