/**
 The one-shot codec over whole buffers, and its agreement with the streaming one.
 */
module HdlcEncoder {
  import opened Base
  import opened Fcs
  import opened CrcTables
  import opened Framing
  import opened Receiver
  import Crc

  datatype Status = Success | InvalidData | WrongCrc

  datatype Decoded = Decoded(consumed: nat, status: Status, result: seq<byte>)

  /** The check value this codec writes and expects; for the default type it computes none. */
  function OneShotCrc(t: CrcType, p: seq<byte>): bv32 {
    if t == CrcDefault then 0 else CrcValue(t, p)
  }

  function OneShotField(t: CrcType, p: seq<byte>): (f: seq<byte>)
    ensures |f| == FieldSize(t)
  {
    LeBytes(OneShotCrc(t, p), FieldSize(t))
  }

  function OneShotEncode(t: CrcType, p: seq<byte>): seq<byte> {
    Wrap(p, OneShotField(t, p))
  }

  function OneShotEncodeAll(t: CrcType, ps: seq<seq<byte>>): seq<byte> {
    if ps == [] then [] else OneShotEncode(t, ps[0]) + OneShotEncodeAll(t, ps[1..])
  }

  datatype Scanned = Scanned(consumed: nat, buf: seq<byte>)

  /** Collects octets up to the first flag that follows one; flags before that are skipped. */
  function Scan(w: seq<byte>, buf: seq<byte>, esc: bool): (r: Scanned)
    ensures r.consumed <= |w| && (w != [] ==> r.consumed > 0)
  {
    if w == [] then Scanned(0, buf)
    else if w[0] == FLAG && buf != [] then Scanned(1, buf)
    else
      var rest :=
        if w[0] == FLAG then Scan(w[1..], buf, esc)
        else if w[0] == ESCAPE then Scan(w[1..], buf, true)
        else Scan(w[1..], buf + [if esc then Flip(w[0]) else w[0]], false);
      Scanned(1 + rest.consumed, rest.buf)
  }

  function Judge(t: CrcType, s: Scanned): Decoded {
    var k := |s.buf| - FieldSize(t);
    if k < 0 then Decoded(s.consumed, Status.InvalidData, s.buf)
    else if OneShotCrc(t, s.buf[..k]) != ReadLe(s.buf[k..]) then Decoded(s.consumed, Status.WrongCrc, s.buf)
    else Decoded(s.consumed, Success, s.buf[..k])
  }

  function DecodeWire(t: CrcType, w: seq<byte>): Decoded {
    Judge(t, Scan(w, [], false))
  }

  class HdlcEncoder {
    const crcType: CrcType

    constructor (crcType: CrcType, mtu: int)
      ensures this.crcType == crcType
    {
      this.crcType := crcType;
    }

    /** The check value both directions compute; the default type falls through to zero. */
    method Checksum(data: seq<byte>) returns (crc: bv32)
      ensures crc == OneShotCrc(crcType, data)
    {
      crc := 0;
      if crcType != CrcDefault {
        crc := Crc.Calculate(crcType, data);
      }
    }

    method Encode(data: seq<byte>) returns (result: seq<byte>, status: Status)
      ensures status == Success && result == OneShotEncode(crcType, data)
    {
      hide OneShotCrc;
      hide OctetOf;
      hide Stuff;
      var crc := Checksum(data);
      result := PushData([FLAG], data);
      result := PushCheck(result, crc);
      StuffAppend(data, OneShotField(crcType, data));
      result := result + [FLAG];
      status := Success;
    }

    /** The first loop of Encode: the payload, stuffed. */
    method PushData(start: seq<byte>, data: seq<byte>) returns (result: seq<byte>)
      ensures result == start + Stuff(data)
    {
      hide Flip;
      result := start;
      for i := 0 to |data|
        invariant result == start + Stuff(data[..i])
      {
        StuffSnoc(data, i);
        if data[i] == FLAG || data[i] == ESCAPE {
          result := result + [ESCAPE] + [Flip(data[i])];
        } else {
          result := result + [data[i]];
        }
      }
      assert data[..|data|] == data;
    }

    /** The second loop of Encode: the check value, low octet first, stuffed. */
    method PushCheck(start: seq<byte>, crc: bv32) returns (result: seq<byte>)
      ensures result == start + Stuff(LeBytes(crc, FieldSize(crcType)))
    {
      hide Flip;
      hide OctetOf;
      var crcSize := FieldSize(crcType);
      ghost var field := LeBytes(crc, crcSize);
      result := start;
      for i := 0 to crcSize
        invariant result == start + Stuff(field[..i])
      {
        StuffSnoc(field, i);
        var b := OctetOf(crc, i);
        assert b == field[i];
        if b == FLAG || b == ESCAPE {
          result := result + [ESCAPE] + [Flip(b)];
        } else {
          result := result + [b];
        }
      }
      assert field[..crcSize] == field;
    }

    /** The last loop of Decode: the check value behind the payload. */
    method ReadCheck(buf: seq<byte>, k: nat) returns (found: bv32)
      requires k + FieldSize(crcType) == |buf|
      ensures found == ReadLe(buf[k..])
    {
      hide Accumulate;
      found := 0;
      var crcSize := FieldSize(crcType);
      for j := 0 to crcSize
        invariant found == ReadLe(buf[k..k + j])
      {
        var part := buf[k..k + j + 1];
        assert part[..j] == buf[k..k + j];
        found := Accumulate(found, buf[k + j], j);
      }
      assert buf[k..k + crcSize] == buf[k..];
    }

    method Decode(data: seq<byte>) returns (consumed: nat, status: Status, result: seq<byte>)
      ensures Decoded(consumed, status, result) == DecodeWire(crcType, data)
    {
      hide Flip;
      hide OneShotCrc;
      hide ReadLe;
      consumed := 0;
      var escape := false;
      var crcSize := FieldSize(crcType);
      result := [];
      ghost var goal := Scan(data, [], false);
      assert data[0..] == data;
      var i := 0;
      while i < |data|
        invariant 0 <= i <= |data| && consumed == i
        invariant goal == Onward(i, Scan(data[i..], result, escape))
      {
        assert data[i..][0] == data[i] && data[i..][1..] == data[i + 1..];
        var octet := data[i];
        i, consumed := i + 1, consumed + 1;
        if octet == FLAG {
          if result != [] {
            break;
          }
          continue;
        }
        if octet == ESCAPE {
          escape := true;
          continue;
        }
        if escape {
          escape := false;
          result := result + [Flip(octet)];
        } else {
          result := result + [octet];
        }
      }
      assert goal == Scanned(consumed, result);
      if |result| < crcSize {
        status := Status.InvalidData;
        return;
      }
      var k := |result| - crcSize;
      var crc := Checksum(result[..k]);
      var found := ReadCheck(result, k);
      if crc != found {
        status := Status.WrongCrc;
        return;
      }
      result := result[..k];
      status := Success;
    }
  }

  /** Stuffing one more octet of bs. */
  lemma StuffSnoc(bs: seq<byte>, i: nat)
    requires i < |bs|
    ensures Stuff(bs[..i + 1]) == Stuff(bs[..i]) + StuffOctet(bs[i])
  {
    hide StuffOctet;
    assert bs[..i + 1] == bs[..i] + [bs[i]];
    StuffAppend(bs[..i], [bs[i]]);
    assert Stuff([bs[i]]) == StuffOctet(bs[i]) + Stuff([]);
  }

  /** A scan that starts i octets further in. */
  function Onward(i: nat, s: Scanned): Scanned {
    Scanned(i + s.consumed, s.buf)
  }

  // ----- Decoding undoes encoding -----

  lemma {:induction false} ScanStuffed(bs: seq<byte>, tail: seq<byte>, buf: seq<byte>)
    ensures Scan(Stuff(bs) + tail, buf, false) == Onward(|Stuff(bs)|, Scan(tail, buf + bs, false))
    decreases |bs|
  {
    hide Scan;
    hide StuffOctet;
    if bs == [] {
      assert Stuff(bs) + tail == tail && buf + bs == buf;
    } else {
      var rest := Stuff(bs[1..]) + tail;
      ScanStuffed(bs[1..], tail, buf + [bs[0]]);
      assert buf + [bs[0]] + bs[1..] == buf + bs;
      assert Stuff(bs) + tail == StuffOctet(bs[0]) + rest;
      ScanOctet(bs[0], rest, buf);
    }
  }

  lemma ScanOctet(b: byte, rest: seq<byte>, buf: seq<byte>)
    ensures Scan(StuffOctet(b) + rest, buf, false) == Onward(|StuffOctet(b)|, Scan(rest, buf + [b], false))
  {
    hide Flip;
    var w := StuffOctet(b) + rest;
    if Special(b) {
      EscapedIsPlain(b);
      assert w[0] == ESCAPE && w[1..] == [Flip(b)] + rest && w[1..][1..] == rest;
    } else {
      assert w[1..] == rest;
    }
  }

  /** Whatever follows a frame, decoding returns its payload and stops behind its closing flag. */
  lemma DecodeEncode(t: CrcType, p: seq<byte>, rest: seq<byte>)
    requires p != [] || t != CrcOff
    ensures DecodeWire(t, OneShotEncode(t, p) + rest) == Decoded(|OneShotEncode(t, p)|, Success, p)
  {
    hide OneShotCrc;
    hide StuffOctet;
    hide ReadLe;
    hide LeBytes;
    var field := OneShotField(t, p);
    var f := p + field;
    var tail := [FLAG] + rest;
    var w := OneShotEncode(t, p) + rest;
    assert w[0] == FLAG && w[1..] == Stuff(f) + tail;
    ScanStuffed(f, tail, []);
    assert [] + f == f;
    assert Scan(w, [], false) == Scanned(|OneShotEncode(t, p)|, f);
    assert f[..|p|] == p && f[|p|..] == field;
    OneShotReadBack(t, p);
  }

  lemma OneShotReadBack(t: CrcType, p: seq<byte>)
    ensures ReadLe(OneShotField(t, p)) == OneShotCrc(t, p)
  {
    hide CrcValue;
    if t == CrcDefault {
      ReadLe32Iff(0, OneShotField(t, p));
    } else {
      ReadLeIff(t, p, OneShotField(t, p));
    }
  }

  /** The exception: an empty frame without a check field is two flags, which decoding reads past. */
  lemma EmptyFrameRunsOn()
    ensures OneShotEncode(CrcOff, []) == [FLAG, FLAG]
    ensures DecodeWire(CrcOff, [FLAG, FLAG] + [0x01, FLAG]) == Decoded(4, Success, [0x01])
  {
    var w: seq<byte> := [FLAG, FLAG] + [0x01, FLAG];
    assert [] + OneShotField(CrcOff, []) == [];
    assert w[1..] == [FLAG, 0x01, FLAG] && w[1..][1..] == [0x01, FLAG] && w[1..][1..][1..] == [FLAG];
    assert Scan([FLAG], [0x01], false) == Scanned(1, [0x01]);
    assert Scan([0x01, FLAG], [], false) == Scanned(2, [0x01]);
    assert Scan(w, [], false) == Scanned(4, [0x01]);
    assert [0x01][..1] == [0x01] && [0x01][1..] == [];
    assert ReadLe([]) == 0;
  }

  /** Exactly when a frame can be decoded whatever follows it. */
  lemma DecodeEncodeIff(t: CrcType, p: seq<byte>)
    ensures (forall rest: seq<byte> ::
        DecodeWire(t, OneShotEncode(t, p) + rest) == Decoded(|OneShotEncode(t, p)|, Success, p))
      <==> p != [] || t != CrcOff
  {
    hide DecodeWire;
    hide OneShotEncode;
    if p != [] || t != CrcOff {
      forall rest: seq<byte> {
        DecodeEncode(t, p, rest);
      }
    } else {
      EmptyFrameRunsOn();
    }
  }

  /** Decoding again and again on what is left. */
  function DecodeAll(t: CrcType, w: seq<byte>): seq<Decoded>
    decreases |w|
  {
    if w == [] then []
    else
      var d := DecodeWire(t, w);
      [d] + DecodeAll(t, w[d.consumed..])
  }

  lemma {:induction false} DecodeAllEncodeAll(t: CrcType, ps: seq<seq<byte>>)
    requires forall p :: p in ps ==> p != [] || t != CrcOff
    ensures var ds := DecodeAll(t, OneShotEncodeAll(t, ps));
      |ds| == |ps| && forall i :: 0 <= i < |ps| ==>
        ds[i] == Decoded(|OneShotEncode(t, ps[i])|, Success, ps[i])
  {
    hide DecodeWire;
    hide OneShotEncode;
    if ps != [] {
      var rest := OneShotEncodeAll(t, ps[1..]);
      assert ps[0] in ps;
      DecodeEncode(t, ps[0], rest);
      EncodedNonempty(t, ps[0]);
      assert (OneShotEncode(t, ps[0]) + rest)[|OneShotEncode(t, ps[0])|..] == rest;
      assert forall p :: p in ps[1..] ==> p in ps;
      DecodeAllEncodeAll(t, ps[1..]);
    }
  }

  lemma EncodedNonempty(t: CrcType, p: seq<byte>)
    ensures OneShotEncode(t, p) != []
  {}

  // ----- The two codecs -----

  lemma StuffInjective(a: seq<byte>, b: seq<byte>)
    requires Stuff(a) == Stuff(b)
    ensures a == b
  {
    RxStuffed(CrcOff, |a| + |b|, [], a);
    RxStuffed(CrcOff, |a| + |b|, [], b);
    assert [] + a == a && [] + b == b;
  }

  /**
   The one-shot encoder produces the streaming codec's octets, except that under the
   default type it does so only for payloads whose CRC-32 happens to be zero.
   */
  lemma CodecsAgreeIff(t: CrcType, p: seq<byte>)
    ensures OneShotEncode(t, p) == Framing.Encode(t, p) <==> t != CrcDefault || CrcValue(Crc32, p) == 0
  {
    hide CrcValue;
    var f, g := OneShotField(t, p), Field(t, p);
    assert CrcValue(CrcDefault, p) == CrcValue(Crc32, p) by { DefaultIsCrc32(p); }
    if OneShotEncode(t, p) == Framing.Encode(t, p) {
      assert OneShotEncode(t, p)[1..|OneShotEncode(t, p)| - 1] == Stuff(p + f);
      assert Framing.Encode(t, p)[1..|Framing.Encode(t, p)| - 1] == Stuff(p + g);
      StuffInjective(p + f, p + g);
      assert f == (p + f)[|p|..] && g == (p + g)[|p|..];
      if t == CrcDefault {
        ReadLe32Iff(0, f);
        ReadLe32Iff(CrcValue(t, p), g);
      }
    }
  }

  /** And they do differ: a payload of one octet under the default type. */
  lemma CodecsDiffer()
    ensures OneShotEncode(CrcDefault, [0x01]) != Framing.Encode(CrcDefault, [0x01])
  {
    assert [0x01 as byte][..0] == [];
    assert Serial32(0xffff_ffff, [0x01]) == Octet32(Xor32(0xffff_ffff, 0x01));
    CodecsAgreeIff(CrcDefault, [0x01]);
  }

  lemma DefaultIsCrc32(p: seq<byte>)
    ensures CrcValue(CrcDefault, p) == CrcValue(Crc32, p)
  {}

  /** So a frame encoded in one shot is understood by the streaming receiver. */
  lemma OneShotToStreaming(t: CrcType, mtu: nat, p: seq<byte>)
    requires t != CrcDefault && 0 < |p| + FieldSize(t) <= mtu
    ensures RxFold(t, mtu, Idle, OneShotEncode(t, p)) == Run(Idle, [Frame(p)])
  {
    CodecsAgreeIff(t, p);
    RoundTrip(t, mtu, Idle, p);
  }
}
