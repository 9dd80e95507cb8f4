/**
 * Bytes, little-endian fields as written by the DataView setters, and the
 * readers that decode them again; plus the Blob that concatenates byte parts.
 */
module Bytes {
  import opened Numeric
  import opened Seqs

  type Byte = x: int | 0 <= x < 0x100

  /** An immutable byte container made of parts, tagged with a mime type. */
  datatype Blob = Blob(parts: seq<seq<Byte>>, mimeType: string) {
    function Bytes(): seq<Byte>
    {
      Flatten(parts)
    }
  }

  function ReadUint16Le(b: seq<Byte>, off: nat): (v: int)
    requires off + 2 <= |b|
  {
    b[off] as int + 0x100 * b[off + 1] as int
  }

  function ReadInt16Le(b: seq<Byte>, off: nat): (v: int)
    requires off + 2 <= |b|
  {
    var u := ReadUint16Le(b, off);
    if u >= TwoTo15 then u - TwoTo16 else u
  }

  function ReadUint32Le(b: seq<Byte>, off: nat): (v: int)
    requires off + 4 <= |b|
  {
    b[off] as int + 0x100 * b[off + 1] as int + 0x1_0000 * b[off + 2] as int + 0x100_0000 * b[off + 3] as int
  }

  /** The two bytes `DataView.setUint16(offset, value, true)` stores. */
  function Uint16Le(value: int): (b: seq<Byte>)
    ensures |b| == 2
    ensures ReadUint16Le(b, 0) == ToUint16(value)
  {
    var u := ToUint16(value);
    [u % 0x100, u / 0x100]
  }

  /** The low byte of `u` and the rest, below `bound`. */
  lemma ByteSplit(u: nat, bound: nat)
    requires u < 0x100 * bound
    ensures u == u % 0x100 + 0x100 * (u / 0x100)
    ensures u / 0x100 < bound
  {
  }

  /** The four bytes `DataView.setUint32(offset, value, true)` stores. */
  function Uint32Le(value: int): (b: seq<Byte>)
    ensures |b| == 4
    ensures ReadUint32Le(b, 0) == ToUint32(value)
  {
    var u := ToUint32(value);
    var q1 := u / 0x100;
    var q2 := q1 / 0x100;
    var q3 := q2 / 0x100;
    ByteSplit(u, 0x100_0000);
    ByteSplit(q1, 0x1_0000);
    ByteSplit(q2, 0x100);
    [u % 0x100, q1 % 0x100, q2 % 0x100, q3]
  }

  /** The two bytes `DataView.setInt16(offset, value, true)` stores: ToInt16, two's complement. */
  function Int16Le(value: real): (b: seq<Byte>)
    ensures |b| == 2
    ensures ReadInt16Le(b, 0) == ToInt16(value)
  {
    var u := ToInt16(value) % TwoTo16;
    [u % 0x100, u / 0x100]
  }

  /** `setUint8(offset + i, s.charCodeAt(i))` for every character: ToUint8 of each code unit. */
  function CharCodes(s: string): (b: seq<Byte>)
    ensures |b| == |s|
  {
    seq(|s|, i requires 0 <= i < |s| => (s[i] as int) % 0x100)
  }
}
