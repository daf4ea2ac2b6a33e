/** Machine-level data: bytes, 32-bit words and their little-endian layout. */
module Bytes {

  type Byte = b: int | 0 <= b < 256
  type Uint32 = n: int | 0 <= n < 0x1_0000_0000
  type Int32 = n: int | -0x8000_0000 <= n < 0x8000_0000

  /** A `double` is moved around as an opaque block of eight bytes. */
  type Bits64 = s: seq<Byte> | |s| == 8 witness [0, 0, 0, 0, 0, 0, 0, 0]

  const TWO_32: int := 0x1_0000_0000

  /** Conversion of a container size to `unsigned`. */
  function Truncate(n: nat): (r: Uint32)
    ensures n < TWO_32 ==> r == n
  {
    n % TWO_32
  }

  function PackUint32(n: Uint32): (s: seq<Byte>)
    ensures |s| == 4
  {
    [n % 256, n / 256 % 256, n / 0x1_0000 % 256, n / 0x100_0000]
  }

  function UnpackUint32(s: seq<Byte>): Uint32
    requires |s| == 4
  {
    s[0] as int + 256 * s[1] as int + 0x1_0000 * s[2] as int + 0x100_0000 * s[3] as int
  }

  /** Two's complement. */
  function PackInt32(i: Int32): (s: seq<Byte>)
    ensures |s| == 4
  {
    PackUint32(if i < 0 then i + TWO_32 else i)
  }

  function UnpackInt32(s: seq<Byte>): Int32
    requires |s| == 4
  {
    var n := UnpackUint32(s);
    if n < 0x8000_0000 then n else n - TWO_32
  }

  lemma UnpackPackUint32(n: Uint32)
    ensures UnpackUint32(PackUint32(n)) == n
  {
    assert n / 0x1_0000 == n / 256 / 256;
    assert n / 0x100_0000 == n / 256 / 256 / 256;
  }

  lemma PackUnpackUint32(s: seq<Byte>)
    requires |s| == 4
    ensures PackUint32(UnpackUint32(s)) == s
  {
    var n := UnpackUint32(s);
    assert n / 256 == s[1] as int + 256 * s[2] as int + 0x1_0000 * s[3] as int;
    assert n / 0x1_0000 == s[2] as int + 256 * s[3] as int;
    assert n / 0x100_0000 == s[3];
  }

  lemma UnpackPackInt32(i: Int32)
    ensures UnpackInt32(PackInt32(i)) == i
  {
    UnpackPackUint32(if i < 0 then i + TWO_32 else i);
  }

  lemma PackUnpackInt32(s: seq<Byte>)
    requires |s| == 4
    ensures PackInt32(UnpackInt32(s)) == s
  {
    PackUnpackUint32(s);
  }
}
