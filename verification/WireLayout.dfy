/** The bytes on the wire, letter by letter and digit by digit. */
module WireLayout {
  import opened Bytes
  import opened OrderedMap
  import opened VariantValue
  import opened WireFormat
  import opened Codec

  /** The four bytes from `i` on are the digits of `n` to base 256, the lowest one first. */
  predicate Digits(s: seq<Byte>, i: nat, n: Uint32) {
    && i + 4 <= |s|
    && s[i] == n % 256
    && s[i + 1] == n / 256 % 256
    && s[i + 2] == n / 65536 % 256
    && s[i + 3] == n / 16777216 % 256
  }

  /** A word between the letter and the content. */
  lemma DigitsInside(c: Byte, n: Uint32, rest: seq<Byte>)
    ensures Digits([c] + PackUint32(n) + rest, 1, n) && ([c] + PackUint32(n) + rest)[5..] == rest
  {
  }

  /**
   What is written for a value: the letter of its type, then the scalar, or the last 32 bits of the
   length and the content.
   */
  lemma WrittenBytes(v: Value)
    ensures v.Invalid? ==> Enc(v) == ['X' as int]
    ensures v.Null? ==> Enc(v) == ['N' as int]
    ensures v.Boolean? ==> Enc(v) == ['B' as int, if v.b then 1 else 0]
    ensures v.Integer? ==>
              |Enc(v)| == 5 && Enc(v)[0] == 'I' as int && Digits(Enc(v), 1, v.i % 0x1_0000_0000)
    ensures v.Real? ==> Enc(v) == ['R' as int] + v.bits
    ensures v.String? ==>
              && Enc(v)[0] == 'S' as int && Digits(Enc(v), 1, |v.s| % 0x1_0000_0000)
              && Enc(v)[5..] == v.s[..|v.s| % 0x1_0000_0000]
    ensures v.List? ==>
              && Enc(v)[0] == 'L' as int && Digits(Enc(v), 1, |v.items| % 0x1_0000_0000)
              && Enc(v)[5..] == EncItems(v.items)
    ensures v.Map? ==>
              && Enc(v)[0] == 'M' as int && Digits(Enc(v), 1, |v.entries| % 0x1_0000_0000)
              && Enc(v)[5..] == EncEntries(v.entries)
  {
    hide Digits, PackUint32, EncItems, EncEntries;
    match v {
      case Integer(i) =>
        DigitsInside('I' as int, i % TWO_32, []);
        assert Enc(v) == ['I' as int] + PackUint32(i % TWO_32) + [];
      case String(s) => DigitsInside('S' as int, |s| % TWO_32, s[..|s| % TWO_32]);
      case List(items) => DigitsInside('L' as int, |items| % TWO_32, EncItems(items));
      case Map(entries) => DigitsInside('M' as int, |entries| % TWO_32, EncEntries(entries));
      case _ =>
    }
  }

  // ---- elements in order ---------------------------------------------------

  /** The elements of a list follow each other in order. */
  lemma {:induction false} ItemStands(vs: seq<Value>, k: nat)
    requires k < |vs|
    ensures EncItems(vs) == EncItems(vs[..k]) + Enc(vs[k]) + EncItems(vs[k + 1..])
  {
    hide Enc;
    if k > 0 {
      ItemStands(vs[1..], k - 1);
      assert vs[1..][..k - 1] == vs[..k][1..] && vs[1..][k..] == vs[k + 1..];
      assert EncItems(vs[..k]) == Enc(vs[0]) + EncItems(vs[..k][1..]);
    }
  }

  /** The entries of a map do so, each a key written as a string and its value. */
  lemma {:induction false} EntryStands(es: seq<Entry<Value>>, k: nat)
    requires k < |es|
    ensures EncEntries(es)
         == EncEntries(es[..k]) + EncString(es[k].key) + Enc(es[k].val) + EncEntries(es[k + 1..])
  {
    hide Enc, EncString;
    if k > 0 {
      EntryStands(es[1..], k - 1);
      hide EncEntry;
      assert es[1..][..k - 1] == es[..k][1..] && es[1..][k..] == es[k + 1..];
      assert EncEntries(es[..k]) == EncEntry(es[0]) + EncEntries(es[..k][1..]);
    }
  }

  // ---- the same for all sentences ------------------------------------------

  /** The letters and digits of the grammar, for what the reader accepts beyond what is written. */
  lemma SentenceBytes(w: Wire)
    requires WellFormed(w)
    ensures w.WInvalid? ==> Flatten(w) == ['X' as int]
    ensures w.WNull? ==> Flatten(w) == ['N' as int]
    ensures w.WBoolean? ==> Flatten(w) == ['B' as int, w.flag]
    ensures w.WInteger? ==>
              |Flatten(w)| == 5 && Flatten(w)[0] == 'I' as int && Digits(Flatten(w), 1, w.i % 0x1_0000_0000)
    ensures w.WReal? ==> Flatten(w) == ['R' as int] + w.bits
    ensures w.WString? ==>
              Flatten(w)[0] == 'S' as int && Digits(Flatten(w), 1, |w.s|) && Flatten(w)[5..] == w.s
    ensures w.WList? ==>
              && Flatten(w)[0] == 'L' as int && Digits(Flatten(w), 1, |w.items|)
              && Flatten(w)[5..] == FlattenItems(w.items)
    ensures w.WMap? ==>
              && Flatten(w)[0] == 'M' as int && Digits(Flatten(w), 1, |w.entries|)
              && Flatten(w)[5..] == FlattenEntries(w.entries)
  {
    hide Digits, PackUint32, FlattenItems, FlattenEntries;
    match w {
      case WInteger(i) =>
        DigitsInside('I' as int, i % TWO_32, []);
        assert Flatten(w) == ['I' as int] + PackUint32(i % TWO_32) + [];
      case WString(s) => DigitsInside('S' as int, |s|, s);
      case WList(items) => DigitsInside('L' as int, |items|, FlattenItems(items));
      case WMap(entries) => DigitsInside('M' as int, |entries|, FlattenEntries(entries));
      case _ =>
    }
  }
}
