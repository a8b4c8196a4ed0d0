/** Bytes and the byte-level helpers shared by the PNG reader and the stealth decoder. */
module Bytes {

  /** A byte read as `toInt() and 0xFF`, so always in 0..255. */
  type byte = b: int | 0 <= b < 0x100

  /** `String(bytes, Charsets.ISO_8859_1)`: every byte becomes the character with that code. */
  function Latin1(bs: seq<byte>): (r: string)
    ensures |r| == |bs|
    ensures forall i :: 0 <= i < |bs| ==> r[i] as int == bs[i]
  {
    seq(|bs|, i requires 0 <= i < |bs| => bs[i] as char)
  }

  /** `Latin1` of exactly four bytes, spelled out. */
  function Latin1Four(b0: byte, b1: byte, b2: byte, b3: byte): (r: string)
    ensures r == Latin1([b0, b1, b2, b3])
  {
    [b0 as char, b1 as char, b2 as char, b3 as char]
  }

  /** The ISO-8859-1 encoding of a string whose characters are all below 256. */
  function Latin1Bytes(s: string): (r: seq<byte>)
    requires forall i :: 0 <= i < |s| ==> s[i] as int < 0x100
    ensures Latin1(r) == s
  {
    seq(|s|, i requires 0 <= i < |s| => s[i] as int)
  }

  /** Latin-1 decoding is injective: equal texts come from equal bytes. */
  lemma Latin1Injective(a: seq<byte>, b: seq<byte>)
    requires Latin1(a) == Latin1(b)
    ensures a == b
  {
    assert |a| == |b|;
    forall i | 0 <= i < |a| ensures a[i] == b[i] {
      assert Latin1(a)[i] == Latin1(b)[i];
    }
  }

  /** The private `ByteArray.indexOf(value, startIndex)`: the first index at or
      after `start` holding `value`, or -1. */
  function IndexOfByte(data: seq<byte>, value: byte, start: nat): (r: int)
    ensures r == -1 <==> forall i :: start <= i < |data| ==> data[i] != value
    ensures r != -1 ==> start <= r < |data| && data[r] == value
    ensures r != -1 ==> forall i :: start <= i < r ==> data[i] != value
    decreases |data| - start
  {
    if start >= |data| then -1
    else if data[start] == value then start
    else IndexOfByte(data, value, start + 1)
  }

  /** The unsigned value of four bytes read big-endian. */
  function U32BE(b0: byte, b1: byte, b2: byte, b3: byte): (r: nat)
    ensures r < 0x1_0000_0000
  {
    ((b0 * 0x100 + b1) * 0x100 + b2) * 0x100 + b3
  }

  /** Reinterprets an unsigned 32-bit value as a Kotlin `Int` (two's complement). */
  function ToInt32(u: nat): (r: int)
    requires u < 0x1_0000_0000
    ensures -0x8000_0000 <= r < 0x8000_0000
    ensures r % 0x1_0000_0000 == u
  {
    if u < 0x8000_0000 then u else u - 0x1_0000_0000
  }

  /** The four bytes of an unsigned 32-bit value, most significant first. */
  function BE32Bytes(u: nat): (r: seq<byte>)
    requires u < 0x1_0000_0000
    ensures |r| == 4 && U32BE(r[0], r[1], r[2], r[3]) == u
  {
    var q1 := u / 0x100;
    var q2 := q1 / 0x100;
    var b0 := q2 / 0x100;
    assert u == q1 * 0x100 + u % 0x100 && q1 == q2 * 0x100 + q1 % 0x100 && q2 == b0 * 0x100 + q2 % 0x100;
    [b0, q2 % 0x100, q1 % 0x100, u % 0x100]
  }
}
