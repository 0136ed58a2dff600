/**
 The three checksum calculators. The 16- and 32-bit ones step through the lookup
 tables; their contracts say what the bit-serial register of RFC 1662 would hold.
 */
module Crc {
  import opened Base
  import opened CrcTables
  import opened Fcs
  import opened FcsProofs

  class Crc8 {
    var crc: bv8

    constructor ()
      ensures crc == 0
    {
      crc := 0;
    }

    method Reset()
      modifies this
      ensures crc == 0
    {
      crc := 0;
    }

    method SumByte(data: byte)
      modifies this
      ensures crc == Sum8(old(crc), [data])
    {
      assert [data][..0] == [];
      crc := crc + data;
    }

    method SumBytes(data: seq<byte>, len: nat)
      requires len <= |data|
      modifies this
      ensures crc == Sum8(old(crc), data[..len])
    {
      for i := 0 to len
        invariant crc == Sum8(old(crc), data[..i])
      {
        assert data[..i + 1][..i] == data[..i];
        crc := crc + data[i];
      }
    }

    method Get() returns (value: bv8)
      ensures value == 0xff - crc
    {
      value := 0xff - crc;
    }
  }

  class Crc16 {
    var crc: bv16

    constructor ()
      ensures crc == 0xffff
    {
      crc := 0xffff;
    }

    method Reset()
      modifies this
      ensures crc == 0xffff
    {
      crc := 0xffff;
    }

    method SumByte(data: byte)
      modifies this
      ensures crc == Serial16(old(crc), [data])
    {
      hide Step16;
      assert Serial16(crc, [data][..0]) == crc;
      Serial16Step(crc, [data], 0);
      assert [data][..1] == [data];
      crc := Step16(crc, data);
    }

    method SumBytes(data: seq<byte>, len: nat)
      requires len <= |data|
      modifies this
      ensures crc == Serial16(old(crc), data[..len])
    {
      hide Step16;
      hide Octet16;
      for i := 0 to len
        invariant crc == Serial16(old(crc), data[..i])
      {
        Serial16Step(old(crc), data, i);
        crc := Step16(crc, data[i]);
      }
    }

    method Get() returns (value: bv16)
      ensures value == Xor16(crc, 0xffff)
    {
      value := Xor16(crc, 0xffff);
    }
  }

  class Crc32 {
    var crc: bv32

    constructor ()
      ensures crc == 0xffffffff
    {
      crc := 0xffffffff;
    }

    method Reset()
      modifies this
      ensures crc == 0xffffffff
    {
      crc := 0xffffffff;
    }

    method SumByte(data: byte)
      modifies this
      ensures crc == Serial32(old(crc), [data])
    {
      hide Step32;
      assert Serial32(crc, [data][..0]) == crc;
      Serial32Step(crc, [data], 0);
      assert [data][..1] == [data];
      crc := Step32(crc, data);
    }

    method SumBytes(data: seq<byte>, len: nat)
      requires len <= |data|
      modifies this
      ensures crc == Serial32(old(crc), data[..len])
    {
      hide Step32;
      hide Octet32;
      for i := 0 to len
        invariant crc == Serial32(old(crc), data[..i])
      {
        Serial32Step(old(crc), data, i);
        crc := Step32(crc, data[i]);
      }
    }

    method Get() returns (value: bv32)
      ensures value == Xor32(crc, 0xffffffff)
    {
      value := Xor32(crc, 0xffffffff);
    }
  }

  /** The check value of a message, computed with the calculator the type selects. */
  method Calculate(t: CrcType, data: seq<byte>) returns (value: bv32)
    ensures value == CrcValue(t, data)
  {
    hide Sum8;
    hide Serial16;
    hide Serial32;
    hide Xor16;
    hide Xor32;
    assert data[..|data|] == data;
    match t
    case Crc8 =>
      var crc := new Crc8();
      crc.SumBytes(data, |data|);
      var v := crc.Get();
      value := v as bv32;
    case Crc16 =>
      var crc := new Crc16();
      crc.SumBytes(data, |data|);
      var v := crc.Get();
      value := v as bv32;
    case CrcOff =>
      value := 0;
    case _ =>
      var crc := new Crc32();
      crc.SumBytes(data, |data|);
      value := crc.Get();
  }
}
