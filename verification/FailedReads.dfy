/** Where the index stands after a read that fails, said on the bytes alone. */
module FailedReads {
  import opened Bytes
  import opened OrderedMap
  import opened VariantValue
  import opened WireFormat
  import opened Codec
  import opened CodecTheorems

  /** The number the four bytes from `i` on stand for. */
  function Count(b: seq<Byte>, i: nat): nat
    requires i + 4 <= |b|
  {
    b[i] as int + 256 * b[i + 1] as int + 65536 * b[i + 2] as int + 16777216 * b[i + 3] as int
  }

  /** Bytes a value with this letter has at least behind the letter. */
  function Needed(c: Byte): nat {
    if c == 'B' as int then 1
    else if c == 'R' as int then 8
    else if c == 'I' as int || c == 'S' as int || c == 'L' as int || c == 'M' as int then 4
    else 0
  }

  /**
   A value that starts at `i` cannot be read beyond `j`: at the end and at an unknown letter, behind
   a letter that lacks its scalar, length or count, behind a length that lacks its bytes, or in a
   container at the element that cannot be read.
   */
  ghost predicate StopsAt(b: seq<Byte>, i: nat, j: nat)
    requires i <= |b|
    decreases |b| - i, 0
  {
    if i == |b| || b[i] as char !in "XNBIRSLM" then j == i
    else if |b| - (i + 1) < Needed(b[i]) then j == i + 1
    else if b[i] == 'S' as int then j == i + 5 && |b| - j < Count(b, i + 1)
    else if b[i] == 'L' as int then ItemsStop(b, i + 5, Count(b, i + 1), j)
    else if b[i] == 'M' as int then EntriesStop(b, i + 5, Count(b, i + 1), j)
    else false
  }

  /** Fewer than `n` values are spelled out from `i` on, and the next one stops at `j`. */
  ghost predicate ItemsStop(b: seq<Byte>, i: nat, n: nat, j: nat)
    requires i <= |b|
    decreases |b| - i, 1
  {
    exists ws: seq<Wire>, k: nat ::
      && i <= k <= |b| && |ws| < n && WellFormedItems(ws) && FlattenItems(ws) == b[i..k]
      && StopsAt(b, k, j)
  }

  /** The same for entries. */
  ghost predicate EntriesStop(b: seq<Byte>, i: nat, n: nat, j: nat)
    requires i <= |b|
    decreases |b| - i, 2
  {
    exists es: seq<Entry<Wire>>, k: nat ::
      && i <= k <= |b| && |es| < n && WellFormedEntries(es) && FlattenEntries(es) == b[i..k]
      && EntryStops(b, k, j)
  }

  /** The key stops at `j`, or is spelled out up to `j` and no string, or the value behind it stops at `j`. */
  ghost predicate EntryStops(b: seq<Byte>, i: nat, j: nat)
    requires i <= |b|
    decreases |b| - i, 1
  {
    || StopsAt(b, i, j)
    || exists w: Wire, k: nat ::
         && i < k <= |b| && WellFormed(w) && Flatten(w) == b[i..k]
         && if w.WString? then StopsAt(b, k, j) else j == k
  }

  // ---- a failing read stops there ------------------------------------------

  lemma CountIsLength(b: seq<Byte>, i: nat)
    requires i + 4 <= |b|
    ensures UnpackUint32(b[i..i + 4]) == Count(b, i)
  {
  }

  lemma {:induction false} ReadFails(b: seq<Byte>, i: nat)
    requires i <= |b| && Read(b, i).Fail?
    ensures StopsAt(b, i, Read(b, i).next)
    decreases |b| - i, 0, 0
  {
    hide UnpackUint32, Count;
    if i + 5 <= |b| {
      CountIsLength(b, i + 1);
      var n := Count(b, i + 1);
      if b[i] == 'L' as int {
        ItemsFail(b, i + 5, n);
      } else if b[i] == 'M' as int {
        EntriesFail(b, i + 5, n);
      }
    }
  }

  lemma {:induction false} ItemsFail(b: seq<Byte>, i: nat, n: nat)
    requires i <= |b| && ReadItems(b, i, n).Fail?
    ensures ItemsStop(b, i, n, ReadItems(b, i, n).next)
    decreases |b| - i, 1, n
  {
    hide StopsAt, ItemsStop, Read, Flatten;
    if Read(b, i).Fail? {
      ReadFails(b, i);
      FirstItemStops(b, i, n, Read(b, i).next);
    } else {
      var k := Read(b, i).next;
      ReadSound(b, i);
      ItemsFail(b, k, n - 1);
      LaterItemStops(b, i, n, ReadItems(b, i, n).next, Read(b, i).val, k);
    }
  }

  lemma FirstItemStops(b: seq<Byte>, i: nat, n: nat, j: nat)
    requires i <= |b| && n > 0 && StopsAt(b, i, j)
    ensures ItemsStop(b, i, n, j)
  {
    hide StopsAt;
    assert FlattenItems([]) == b[i..i];
  }

  lemma LaterItemStops(b: seq<Byte>, i: nat, n: nat, j: nat, w: Wire, k: nat)
    requires i <= k <= |b| && n > 0 && WellFormed(w) && Flatten(w) == b[i..k] && ItemsStop(b, k, n - 1, j)
    ensures ItemsStop(b, i, n, j)
  {
    hide StopsAt, Flatten, WellFormed;
    var ws: seq<Wire>, l: nat :| k <= l <= |b| && |ws| < n - 1 && WellFormedItems(ws)
                                 && FlattenItems(ws) == b[k..l] && StopsAt(b, l, j);
    SliceConcat(b, i, k, l);
    assert ([w] + ws)[1..] == ws;
    assert FlattenItems([w] + ws) == b[i..l];
  }

  lemma {:induction false} EntriesFail(b: seq<Byte>, i: nat, n: nat)
    requires i <= |b| && ReadEntries(b, i, n).Fail?
    ensures EntriesStop(b, i, n, ReadEntries(b, i, n).next)
    decreases |b| - i, 1, n
  {
    hide EntryStops, EntriesStop, ReadEntry, Flatten, FlattenEntry;
    if ReadEntry(b, i).Fail? {
      EntryFails(b, i);
      FirstEntryStops(b, i, n, ReadEntry(b, i).next);
    } else {
      var k := ReadEntry(b, i).next;
      EntrySound(b, i);
      EntriesFail(b, k, n - 1);
      LaterEntryStops(b, i, n, ReadEntries(b, i, n).next, ReadEntry(b, i).val, k);
    }
  }

  lemma FirstEntryStops(b: seq<Byte>, i: nat, n: nat, j: nat)
    requires i <= |b| && n > 0 && EntryStops(b, i, j)
    ensures EntriesStop(b, i, n, j)
  {
    hide EntryStops;
    assert FlattenEntries([]) == b[i..i];
  }

  lemma LaterEntryStops(b: seq<Byte>, i: nat, n: nat, j: nat, e: Entry<Wire>, k: nat)
    requires i <= k <= |b| && n > 0 && |e.key| < TWO_32 && WellFormed(e.val) && FlattenEntry(e) == b[i..k]
    requires EntriesStop(b, k, n - 1, j)
    ensures EntriesStop(b, i, n, j)
  {
    hide EntryStops, FlattenEntry, WellFormed;
    var es: seq<Entry<Wire>>, l: nat :| k <= l <= |b| && |es| < n - 1 && WellFormedEntries(es)
                                        && FlattenEntries(es) == b[k..l] && EntryStops(b, l, j);
    FlattenEntriesCons(e, es);
    SliceConcat(b, i, k, l);
    hide FlattenEntries, WellFormedEntries;
  }

  lemma {:induction false} EntryFails(b: seq<Byte>, i: nat)
    requires i <= |b| && ReadEntry(b, i).Fail?
    ensures EntryStops(b, i, ReadEntry(b, i).next)
    decreases |b| - i, 0, 1
  {
    hide StopsAt, Read, Flatten;
    if Read(b, i).Fail? {
      ReadFails(b, i);
    } else {
      ReadSound(b, i);
      if Read(b, i).val.WString? {
        ReadFails(b, Read(b, i).next);
      }
    }
  }

  lemma EntrySound(b: seq<Byte>, i: nat)
    requires i <= |b| && ReadEntry(b, i).Done?
    ensures var e, k := ReadEntry(b, i).val, ReadEntry(b, i).next;
            i < k && |e.key| < TWO_32 && WellFormed(e.val) && FlattenEntry(e) == b[i..k]
  {
    var j := Read(b, i).next;
    ReadSound(b, i);
    ReadSound(b, j);
    hide Read;
    SliceConcat(b, i, j, ReadEntry(b, i).next);
  }

  // ---- where it stops it fails ---------------------------------------------

  lemma {:induction false} StopFails(b: seq<Byte>, i: nat, j: nat)
    requires i <= |b| && StopsAt(b, i, j)
    ensures Read(b, i) == Fail(j)
    decreases |b| - i, 0
  {
    hide UnpackUint32, Count;
    if i + 5 <= |b| {
      CountIsLength(b, i + 1);
      var n := Count(b, i + 1);
      if b[i] == 'L' as int {
        ItemsStopFails(b, i + 5, n, j);
      } else if b[i] == 'M' as int {
        EntriesStopFails(b, i + 5, n, j);
      }
    }
  }

  lemma {:induction false} ItemsStopFails(b: seq<Byte>, i: nat, n: nat, j: nat)
    requires i <= |b| && ItemsStop(b, i, n, j)
    ensures ReadItems(b, i, n) == Fail(j)
    decreases |b| - i, 1
  {
    var ws: seq<Wire>, k: nat :| i <= k <= |b| && |ws| < n && WellFormedItems(ws)
                                 && FlattenItems(ws) == b[i..k] && StopsAt(b, k, j);
    StopFails(b, k, j);
    ReadItemsComplete(b, i, ws);
    ItemsBefore(b, i, ws, k, n, j);
  }

  lemma {:induction false} ItemsBefore(b: seq<Byte>, i: nat, ws: seq<Wire>, k: nat, n: nat, j: nat)
    requires i <= |b| && ReadItems(b, i, |ws|) == Done(ws, k) && |ws| < n
    requires Read(b, k) == Fail(j)
    ensures ReadItems(b, i, n) == Fail(j)
    decreases |ws|
  {
    hide Read;
    if ws != [] {
      var rest := ReadItems(b, Read(b, i).next, |ws| - 1);
      assert ws[1..] == rest.val;
      ItemsBefore(b, Read(b, i).next, ws[1..], k, n - 1, j);
    }
  }

  lemma {:induction false} EntriesStopFails(b: seq<Byte>, i: nat, n: nat, j: nat)
    requires i <= |b| && EntriesStop(b, i, n, j)
    ensures ReadEntries(b, i, n) == Fail(j)
    decreases |b| - i, 2
  {
    var es: seq<Entry<Wire>>, k: nat :| i <= k <= |b| && |es| < n && WellFormedEntries(es)
                                        && FlattenEntries(es) == b[i..k] && EntryStops(b, k, j);
    EntryStopFails(b, k, j);
    ReadEntriesComplete(b, i, es);
    EntriesBefore(b, i, es, k, n, j);
  }

  lemma {:induction false} EntryStopFails(b: seq<Byte>, i: nat, j: nat)
    requires i <= |b| && EntryStops(b, i, j)
    ensures ReadEntry(b, i) == Fail(j)
    decreases |b| - i, 1
  {
    hide StopsAt, Read, Flatten;
    if StopsAt(b, i, j) {
      StopFails(b, i, j);
    } else {
      var w: Wire, k: nat :| i < k <= |b| && WellFormed(w) && Flatten(w) == b[i..k]
                             && if w.WString? then StopsAt(b, k, j) else j == k;
      ReadComplete(b, i, w);
      if w.WString? {
        StopFails(b, k, j);
      }
    }
  }

  lemma {:induction false} EntriesBefore(b: seq<Byte>, i: nat, es: seq<Entry<Wire>>, k: nat, n: nat, j: nat)
    requires i <= |b| && ReadEntries(b, i, |es|) == Done(es, k) && |es| < n
    requires ReadEntry(b, k) == Fail(j)
    ensures ReadEntries(b, i, n) == Fail(j)
    decreases |es|
  {
    hide ReadEntry;
    if es != [] {
      var rest := ReadEntries(b, ReadEntry(b, i).next, |es| - 1);
      assert es[1..] == rest.val;
      EntriesBefore(b, ReadEntry(b, i).next, es[1..], k, n - 1, j);
    }
  }

  /** For all bytes: reading fails with the index at `j` exactly when the value stops there. */
  lemma FailsWhereItStops(b: seq<Byte>, i: nat, j: nat)
    requires i <= |b|
    ensures Dec(b, i) == Fail(j) <==> StopsAt(b, i, j)
  {
    if Read(b, i).Fail? {
      ReadFails(b, i);
    }
    if StopsAt(b, i, j) {
      StopFails(b, i, j);
    }
    hide Read, StopsAt;
  }
}
