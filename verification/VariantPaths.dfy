/** Places inside a variant and the operations there, in terms of the lists and maps they are in. */
module VariantPaths {
  import opened Bytes
  import opened OrderedMap
  import opened VariantValue
  import opened VariantHeap
  import opened VariantMutation

  // ---- paths ---------------------------------------------------------------

  lemma ElementsReplaced(v: Value, vs: seq<Value>)
    requires |vs| == |ElementsOf(v)|
    ensures ElementsOf(WithElements(v, vs)) == vs
  {
  }

  /** A path goes through the elements of lists and the values of maps. */
  lemma PathExists(v: Value, k: nat, path: seq<nat>)
    ensures IsPath(v, []) && ValueAt(v, []) == v
    ensures IsPath(v, [k] + path) <==>
            || (v.List? && k < |v.items| && IsPath(v.items[k], path))
            || (v.Map? && k < |v.entries| && IsPath(v.entries[k].val, path))
  {
    assert ([k] + path)[1..] == path;
  }

  /** One position in front: the element of a list, or the value of an entry whose key stays. */
  lemma PathStep(v: Value, path: seq<nat>, w: Value)
    requires path != [] && IsPath(v, path)
    ensures v.List? || v.Map?
    ensures v.List? ==>
              && path[0] < |v.items| && IsPath(v.items[path[0]], path[1..])
              && ValueAt(v, path) == ValueAt(v.items[path[0]], path[1..])
              && ReplaceAt(v, path, w) == List(v.items[path[0] := ReplaceAt(v.items[path[0]], path[1..], w)])
    ensures v.Map? ==>
              && path[0] < |v.entries| && IsPath(v.entries[path[0]].val, path[1..])
              && ValueAt(v, path) == ValueAt(v.entries[path[0]].val, path[1..])
              && var e := v.entries[path[0]];
                 ReplaceAt(v, path, w)
                 == Map(v.entries[path[0] := Entry(e.key, ReplaceAt(e.val, path[1..], w))])
  {
    if v.Map? {
      var k, es := path[0], v.entries;
      var y := ReplaceAt(es[k].val, path[1..], w);
      var r := ReplaceAt(v, path, w);
      assert r.Map? && |r.entries| == |es|;
      assert forall i | 0 <= i < |es| :: r.entries[i] == es[k := Entry(es[k].key, y)][i];
    }
  }

  /** Two places are apart if and only if their paths part somewhere. */
  lemma {:induction false} ApartPlaces(path: seq<nat>, other: seq<nat>)
    ensures Apart(path, other) <==> exists k :: 0 <= k < |path| && k < |other| && path[k] != other[k]
  {
    if path != [] && other != [] && path[0] == other[0] {
      assert path == [path[0]] + path[1..] && other == [other[0]] + other[1..];
      ApartPlaces(path[1..], other[1..]);
      if k :| 0 <= k < |path[1..]| && k < |other[1..]| && path[1..][k] != other[1..][k] {
        assert path[k + 1] != other[k + 1];
      }
      assert forall k | 0 < k < |path| && k < |other| :: path[k] == path[1..][k - 1] && other[k] == other[1..][k - 1];
    }
  }

  /** What has been put in a place is there. */
  lemma {:induction false} PlaceHasNewValue(v: Value, path: seq<nat>, w: Value)
    requires IsPath(v, path)
    ensures IsPath(ReplaceAt(v, path, w), path) && ValueAt(ReplaceAt(v, path, w), path) == w
    decreases path
  {
    if path != [] {
      var vs := ElementsOf(v);
      var y := ReplaceAt(vs[path[0]], path[1..], w);
      ElementsReplaced(v, vs[path[0] := y]);
      PlaceHasNewValue(vs[path[0]], path[1..], w);
    }
  }

  /** Putting back what is there changes nothing. */
  lemma {:induction false} OldValuePutBack(v: Value, path: seq<nat>)
    requires IsPath(v, path)
    ensures ReplaceAt(v, path, ValueAt(v, path)) == v
    decreases path
  {
    if path != [] {
      PathStep(v, path, ValueAt(v, path));
      OldValuePutBack(ElementsOf(v)[path[0]], path[1..]);
    }
  }

  /** All places that are neither inside nor around the changed one have the value they had. */
  lemma {:induction false} OtherPlacesStay(v: Value, path: seq<nat>, w: Value, other: seq<nat>)
    requires IsPath(v, path) && IsPath(v, other) && Apart(path, other)
    ensures IsPath(ReplaceAt(v, path, w), other) && ValueAt(ReplaceAt(v, path, w), other) == ValueAt(v, other)
    decreases path
  {
    var vs := ElementsOf(v);
    ElementsReplaced(v, vs[path[0] := ReplaceAt(vs[path[0]], path[1..], w)]);
    if path[0] == other[0] {
      assert path == [path[0]] + path[1..] && other == [other[0]] + other[1..];
      OtherPlacesStay(vs[path[0]], path[1..], w, other[1..]);
    }
  }

  /** The last change of a place counts. */
  lemma {:induction false} LastValueStays(v: Value, path: seq<nat>, w: Value, u: Value)
    requires IsPath(v, path)
    ensures IsPath(ReplaceAt(v, path, w), path)
    ensures ReplaceAt(ReplaceAt(v, path, w), path, u) == ReplaceAt(v, path, u)
    decreases path
  {
    PlaceHasNewValue(v, path, w);
    if path != [] {
      PathStep(v, path, w);
      PathStep(v, path, u);
      PathStep(ReplaceAt(v, path, w), path, u);
      LastValueStays(ElementsOf(v)[path[0]], path[1..], w, u);
    }
  }

  // ---- operations ----------------------------------------------------------

  /** What each operation leaves, in terms of values, positions and entries. */
  lemma EffectMeaning(op: Op, x: Value, w: Value)
    requires Allowed(op, x, w) && (x.Map? ==> Ascending(x.entries))
    ensures var r := Effect(op, x, w);
            && (op.Clear? ==> r == Invalid)
            && (op.SetScalar? && op.d.AsBool? ==> r == Boolean(op.d.b))
            && (op.SetScalar? && op.d.AsInt? ==> r == Integer(op.d.i))
            && (op.SetScalar? && op.d.AsReal? ==> r == Real(op.d.bits))
            && (op.SetText? ==> r == String(op.s))
            && (op.Set? || op.SetContents? ==> r == w)
            && (op.Push? ==>
                 && r.List? && |r.items| == |x.items| + 1
                 && r.items[..|x.items|] == x.items && r.items[|x.items|] == w)
    ensures var r := Effect(op, x, w);
            && (op.SetEntry? ==>
                 r.Map? && Ascending(r.entries)
                 && forall e :: e in r.entries <==> e == Entry(op.key, w) || (e in x.entries && e.key != op.key))
            && (op.Touch? && (exists e | e in x.entries :: e.key == op.key) ==> r == x)
            && (op.Touch? && !(exists e | e in x.entries :: e.key == op.key) ==>
                 r.Map? && Ascending(r.entries)
                 && forall e :: e in r.entries <==> e == Entry(op.key, Invalid) || e in x.entries)
  {
    match op {
      case SetEntry(key) =>
        PutAscending(x.entries, key, w);
        forall e
          ensures e in Put(x.entries, key, w) <==> e == Entry(key, w) || (e in x.entries && e.key != key)
        {
          PutMembers(x.entries, key, w, e);
        }
      case Touch(key) =>
        if !exists e | e in x.entries :: e.key == key {
          AddedMembers(x.entries, key);
        }
      case _ =>
    }
  }
}
