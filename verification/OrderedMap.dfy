/** `std::map<std::string, V>` as the sequence of its entries in iteration order. */
module OrderedMap {
  import opened Wrappers
  import opened Bytes

  type Key = seq<Byte>

  datatype Entry<V> = Entry(key: Key, val: V)

  /** `std::string` order: lexicographic on unsigned bytes. */
  predicate KeyLess(a: Key, b: Key) {
    b != [] && (a == [] || a[0] < b[0] || (a[0] == b[0] && KeyLess(a[1..], b[1..])))
  }

  predicate Ascending<V>(es: seq<Entry<V>>) {
    forall i, j :: 0 <= i < j < |es| ==> KeyLess(es[i].key, es[j].key)
  }

  predicate DistinctKeys<V>(es: seq<Entry<V>>) {
    forall i, j :: 0 <= i < j < |es| ==> es[i].key != es[j].key
  }

  ghost function Keys<V>(es: seq<Entry<V>>): set<Key> {
    set e | e in es :: e.key
  }

  /** `map[key] = val`. */
  function Put<V>(es: seq<Entry<V>>, key: Key, val: V): seq<Entry<V>> {
    if es == [] then [Entry(key, val)]
    else if es[0].key == key then [Entry(key, val)] + es[1..]
    else if KeyLess(key, es[0].key) then [Entry(key, val)] + es
    else [es[0]] + Put(es[1..], key, val)
  }

  /** Assigning the entries one after another to an empty map. */
  function Collect<V>(es: seq<Entry<V>>): seq<Entry<V>> {
    if es == [] then []
    else
      var last := es[|es| - 1];
      Put(Collect(es[..|es| - 1]), last.key, last.val)
  }

  /** The value bound by the last entry with this key. */
  function LastBinding<V>(es: seq<Entry<V>>, key: Key): Option<V> {
    if es == [] then None
    else if es[|es| - 1].key == key then Some(es[|es| - 1].val)
    else LastBinding(es[..|es| - 1], key)
  }

  // ---- the key order -------------------------------------------------------

  lemma KeyLessIrreflexive(a: Key)
    ensures !KeyLess(a, a)
  {
  }

  lemma {:induction false} KeyLessTransitive(a: Key, b: Key, c: Key)
    requires KeyLess(a, b) && KeyLess(b, c)
    ensures KeyLess(a, c)
  {
    if a != [] && a[0] == b[0] == c[0] {
      KeyLessTransitive(a[1..], b[1..], c[1..]);
    }
  }

  lemma {:induction false} KeyLessTotal(a: Key, b: Key)
    ensures a == b || KeyLess(a, b) || KeyLess(b, a)
  {
    if a != [] && b != [] && a[0] == b[0] {
      KeyLessTotal(a[1..], b[1..]);
      assert a == [a[0]] + a[1..] && b == [b[0]] + b[1..];
    }
  }

  /**
   The order is the one of a dictionary: the lesser key ends where the other goes on, or has the
   lesser byte where they first differ.
   */
  lemma {:induction false} KeyOrder(a: Key, b: Key)
    ensures KeyLess(a, b) <==>
            exists k :: 0 <= k <= |a| && k < |b| && a[..k] == b[..k] && (k == |a| || a[k] < b[k])
  {
    if b != [] && (a == [] || a[0] < b[0]) {
      assert a[..0] == b[..0];
    } else if b != [] && a[0] == b[0] {
      KeyOrder(a[1..], b[1..]);
      if KeyLess(a, b) {
        var k :| 0 <= k <= |a[1..]| && k < |b[1..]| && a[1..][..k] == b[1..][..k]
          && (k == |a[1..]| || a[1..][k] < b[1..][k]);
        assert a[..k + 1] == [a[0]] + a[1..][..k] && b[..k + 1] == [b[0]] + b[1..][..k];
      } else {
        NoLesserPlace(a, b);
      }
    } else {
      forall k | 0 <= k <= |a| && k < |b| && a[..k] == b[..k]
        ensures !(k == |a| || a[k] < b[k])
      {
        if k > 0 {
          PrefixHead(a, b, k);
        }
      }
    }
  }

  lemma PrefixHead(a: Key, b: Key, k: nat)
    requires 0 < k <= |a| && k <= |b| && a[..k] == b[..k]
    ensures a[0] == b[0]
  {
    assert a[..k][0] == b[..k][0];
  }

  lemma NoLesserPlace(a: Key, b: Key)
    requires a != [] && b != [] && a[0] == b[0]
    requires forall k | 0 <= k <= |a[1..]| && k < |b[1..]| && a[1..][..k] == b[1..][..k] ::
               !(k == |a[1..]| || a[1..][k] < b[1..][k])
    ensures forall k | 0 <= k <= |a| && k < |b| && a[..k] == b[..k] :: !(k == |a| || a[k] < b[k])
  {
    forall k | 0 <= k <= |a| && k < |b| && a[..k] == b[..k]
      ensures !(k == |a| || a[k] < b[k])
    {
      if k > 0 {
        assert a[1..][..k - 1] == a[..k][1..] && b[1..][..k - 1] == b[..k][1..];
      }
    }
  }

  lemma AscendingIsDistinct<V>(es: seq<Entry<V>>)
    requires Ascending(es)
    ensures DistinctKeys(es)
  {
    forall i, j | 0 <= i < j < |es|
      ensures es[i].key != es[j].key
    {
      KeyLessIrreflexive(es[i].key);
    }
  }

  lemma AscendingCons<V>(e: Entry<V>, es: seq<Entry<V>>)
    requires Ascending(es)
    requires es != [] ==> KeyLess(e.key, es[0].key)
    ensures Ascending([e] + es)
  {
    forall j | 1 <= j < |es|
      ensures KeyLess(e.key, es[j].key)
    {
      KeyLessTransitive(e.key, es[0].key, es[j].key);
    }
  }

  // ---- one assignment ------------------------------------------------------

  lemma {:induction false} PutAscending<V>(es: seq<Entry<V>>, key: Key, val: V)
    requires Ascending(es)
    ensures Ascending(Put(es, key, val))
    ensures Put(es, key, val)[0].key == key || (es != [] && Put(es, key, val)[0] == es[0])
  {
    if es == [] {
    } else if es[0].key == key {
      AscendingCons(Entry(key, val), es[1..]);
    } else if KeyLess(key, es[0].key) {
      AscendingCons(Entry(key, val), es);
    } else {
      KeyLessTotal(key, es[0].key);
      PutAscending(es[1..], key, val);
      AscendingCons(es[0], Put(es[1..], key, val));
    }
  }

  lemma {:induction false} PutMembers<V>(es: seq<Entry<V>>, key: Key, val: V, e: Entry<V>)
    requires Ascending(es)
    ensures e in Put(es, key, val) <==> e == Entry(key, val) || (e in es && e.key != key)
  {
    if es == [] {
    } else if es[0].key == key {
      AscendingIsDistinct(es);
    } else if KeyLess(key, es[0].key) {
      AscendingCons(Entry(key, val), es);
      AscendingIsDistinct([Entry(key, val)] + es);
      assert forall x | x in es :: x in ([Entry(key, val)] + es)[1..];
    } else {
      PutMembers(es[1..], key, val, e);
      assert e in es <==> e == es[0] || e in es[1..];
    }
  }

  lemma PutLast<V>(es: seq<Entry<V>>, key: Key, val: V)
    requires forall e | e in es :: KeyLess(e.key, key)
    ensures Put(es, key, val) == es + [Entry(key, val)]
  {
    if es != [] {
      assert es[0] in es;
      KeyLessIrreflexive(key);
      if KeyLess(key, es[0].key) {
        KeyLessTransitive(key, es[0].key, key);
      }
      PutLast(es[1..], key, val);
    }
  }

  // ---- a whole run of assignments ------------------------------------------

  lemma {:induction false} CollectAscending<V>(es: seq<Entry<V>>)
    ensures Ascending(Collect(es))
  {
    if es != [] {
      var last := es[|es| - 1];
      CollectAscending(es[..|es| - 1]);
      PutAscending(Collect(es[..|es| - 1]), last.key, last.val);
    }
  }

  /** The map holds exactly the keys that were assigned, each bound to the value assigned last. */
  lemma {:induction false} CollectMeaning<V>(es: seq<Entry<V>>, e: Entry<V>)
    ensures e in Collect(es) <==> LastBinding(es, e.key) == Some(e.val)
  {
    if es != [] {
      var init, last := es[..|es| - 1], es[|es| - 1];
      CollectAscending(init);
      CollectMeaning(init, e);
      PutMembers(Collect(init), last.key, last.val, e);
    }
  }

  /** The binding that counts is the one with no other entry for its key behind it. */
  lemma {:induction false} LastBindingPlace<V>(es: seq<Entry<V>>, key: Key, val: V)
    ensures LastBinding(es, key) == Some(val) <==>
            exists k :: 0 <= k < |es| && es[k] == Entry(key, val) && forall j | k < j < |es| :: es[j].key != key
  {
    if es != [] {
      var init, last := es[..|es| - 1], es[|es| - 1];
      LastBindingPlace(init, key, val);
      if last.key == key {
        if last.val == val {
          assert es[|es| - 1] == Entry(key, val);
        }
      } else if LastBinding(init, key) == Some(val) {
        var k :| 0 <= k < |init| && init[k] == Entry(key, val) && forall j | k < j < |init| :: init[j].key != key;
        assert es[k] == Entry(key, val);
        assert forall j | k < j < |es| :: es[j].key != key;
      } else if k :| 0 <= k < |es| && es[k] == Entry(key, val) && forall j | k < j < |es| :: es[j].key != key {
        assert init[k] == Entry(key, val);
      }
    }
  }

  lemma {:induction false} LastBindingKeys<V>(es: seq<Entry<V>>, key: Key)
    ensures LastBinding(es, key).Some? <==> key in Keys(es)
  {
    if es != [] {
      var init, last := es[..|es| - 1], es[|es| - 1];
      LastBindingKeys(init, key);
      assert es == init + [last];
      assert Keys(es) == Keys(init) + {last.key};
    }
  }

  lemma {:induction false} CollectKeys<V>(es: seq<Entry<V>>)
    ensures Keys(Collect(es)) == Keys(es)
  {
    forall k
      ensures k in Keys(Collect(es)) <==> k in Keys(es)
    {
      LastBindingKeys(es, k);
      if k in Keys(Collect(es)) {
        var e :| e in Collect(es) && e.key == k;
        CollectMeaning(es, e);
      }
      if k in Keys(es) {
        CollectMeaning(es, Entry(k, LastBinding(es, k).value));
      }
    }
  }

  lemma {:induction false} CollectOfAscending<V>(es: seq<Entry<V>>)
    requires Ascending(es)
    ensures Collect(es) == es
  {
    if es != [] {
      var init, last := es[..|es| - 1], es[|es| - 1];
      CollectOfAscending(init);
      PutLast(init, last.key, last.val);
      assert es == init + [last];
    }
  }

  /** An ordered map is determined by its entries. */
  lemma {:induction false} AscendingExtensional<V>(a: seq<Entry<V>>, b: seq<Entry<V>>)
    requires Ascending(a) && Ascending(b)
    requires forall e :: e in a <==> e in b
    ensures a == b
  {
    assert a != [] ==> a[0] in b;
    assert b != [] ==> b[0] in a;
    if a != [] && b != [] {
      AscendingIsDistinct(a);
      AscendingIsDistinct(b);
      SameFirst(a, b);
      forall e
        ensures e in a[1..] <==> e in b[1..]
      {
        assert e in a <==> e == a[0] || e in a[1..];
        assert e in b <==> e == b[0] || e in b[1..];
      }
      AscendingExtensional(a[1..], b[1..]);
      assert a == [a[0]] + a[1..] && b == [b[0]] + b[1..];
    }
  }

  lemma SameFirst<V>(a: seq<Entry<V>>, b: seq<Entry<V>>)
    requires Ascending(a) && Ascending(b) && a != [] && b != []
    requires forall e :: e in a <==> e in b
    ensures a[0] == b[0]
  {
    assert a[0] in b && b[0] in a;
    var i :| 0 <= i < |b| && b[i] == a[0];
    var j :| 0 <= j < |a| && a[j] == b[0];
    if i != 0 && j != 0 {
      KeyLessTransitive(a[0].key, b[0].key, a[0].key);
      KeyLessIrreflexive(a[0].key);
    }
  }

  lemma {:induction false} DistinctBinding<V>(es: seq<Entry<V>>, e: Entry<V>)
    requires DistinctKeys(es)
    ensures LastBinding(es, e.key) == Some(e.val) <==> e in es
  {
    if es != [] {
      var init, last := es[..|es| - 1], es[|es| - 1];
      DistinctBinding(init, e);
      assert es == init + [last];
    }
  }

  /** With distinct keys the order of the assignments does not matter. */
  lemma {:induction false} CollectPermutation<V>(es: seq<Entry<V>>, fs: seq<Entry<V>>)
    requires DistinctKeys(es) && DistinctKeys(fs)
    requires forall e :: e in es <==> e in fs
    ensures Collect(es) == Collect(fs)
  {
    CollectAscending(es);
    CollectAscending(fs);
    forall e
      ensures e in Collect(es) <==> e in Collect(fs)
    {
      CollectMeaning(es, e);
      CollectMeaning(fs, e);
      DistinctBinding(es, e);
      DistinctBinding(fs, e);
    }
    AscendingExtensional(Collect(es), Collect(fs));
  }

  lemma {:induction false} CollectLength<V>(es: seq<Entry<V>>)
    ensures |Collect(es)| <= |es|
  {
    if es != [] {
      var init, last := es[..|es| - 1], es[|es| - 1];
      CollectLength(init);
      PutLength(Collect(init), last.key, last.val);
    }
  }

  lemma {:induction false} PutLength<V>(es: seq<Entry<V>>, key: Key, val: V)
    ensures |Put(es, key, val)| <= |es| + 1
  {
    if es != [] {
      PutLength(es[1..], key, val);
    }
  }

  /** Every entry of the map is one of the assigned entries. */
  lemma {:induction false} CollectSubset<V>(es: seq<Entry<V>>, e: Entry<V>)
    requires e in Collect(es)
    ensures e in es
  {
    CollectMeaning(es, e);
    LastBindingMember(es, e);
  }

  lemma {:induction false} LastBindingMember<V>(es: seq<Entry<V>>, e: Entry<V>)
    requires LastBinding(es, e.key) == Some(e.val)
    ensures e in es
  {
    if es[|es| - 1].key != e.key {
      LastBindingMember(es[..|es| - 1], e);
    }
  }
}
