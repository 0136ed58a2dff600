/**
 The frame format both codecs share: octet stuffing as in section 4.2 of RFC 1662,
 between two flags, with the check field stuffed like the payload.
 */
module Framing {
  import opened Base
  import opened Fcs

  const FLAG: byte := 0x7e
  const ESCAPE: byte := 0x7d
  const ESCAPE_BIT: byte := 0x20

  predicate Special(b: byte) {
    b == FLAG || b == ESCAPE
  }

  /** The octet that follows an escape, in either direction. */
  function Flip(b: byte): byte {
    b ^ ESCAPE_BIT
  }

  function StuffOctet(b: byte): seq<byte> {
    if Special(b) then [ESCAPE, Flip(b)] else [b]
  }

  function Stuff(bs: seq<byte>): seq<byte> {
    if bs == [] then [] else StuffOctet(bs[0]) + Stuff(bs[1..])
  }

  /** One frame on the wire, with the given check field. */
  function Wrap(p: seq<byte>, field: seq<byte>): seq<byte> {
    [FLAG] + Stuff(p + field) + [FLAG]
  }

  function Encode(t: CrcType, p: seq<byte>): seq<byte> {
    Wrap(p, Field(t, p))
  }

  function EncodeAll(t: CrcType, ps: seq<seq<byte>>): seq<byte> {
    if ps == [] then [] else Encode(t, ps[0]) + EncodeAll(t, ps[1..])
  }

  lemma {:induction false} EncodeAllAppend(t: CrcType, ps: seq<seq<byte>>, qs: seq<seq<byte>>)
    ensures EncodeAll(t, ps + qs) == EncodeAll(t, ps) + EncodeAll(t, qs)
  {
    if ps == [] {
      assert ps + qs == qs;
    } else {
      assert (ps + qs)[1..] == ps[1..] + qs;
      EncodeAllAppend(t, ps[1..], qs);
    }
  }

  lemma EncodeAllOne(t: CrcType, ps: seq<seq<byte>>, p: seq<byte>)
    ensures EncodeAll(t, ps + [p]) == EncodeAll(t, ps) + Encode(t, p)
  {
    EncodeAllAppend(t, ps, [p]);
    assert EncodeAll(t, [p]) == Encode(t, p) + EncodeAll(t, [p][1..]);
  }

  lemma {:induction false} StuffAppend(a: seq<byte>, b: seq<byte>)
    ensures Stuff(a + b) == Stuff(a) + Stuff(b)
  {
    if a == [] {
      assert a + b == b;
    } else {
      assert (a + b)[1..] == a[1..] + b;
      StuffAppend(a[1..], b);
    }
  }

  lemma EscapedIsPlain(b: byte)
    requires Special(b)
    ensures !Special(Flip(b)) && Flip(Flip(b)) == b
  {}

  /** No flag occurs inside a frame, and stuffing at most doubles the length. */
  lemma {:induction false} StuffShape(bs: seq<byte>)
    ensures FLAG !in Stuff(bs)
    ensures |bs| <= |Stuff(bs)| <= 2 * |bs|
  {
    if bs != [] {
      StuffShape(bs[1..]);
      if Special(bs[0]) {
        EscapedIsPlain(bs[0]);
      }
    }
  }

  /** The bounds the original's buffers rely on: n + 2 to 2n + 2 octets, flags only at the ends. */
  lemma EncodeShape(t: CrcType, p: seq<byte>)
    ensures var n, w := |p| + FieldSize(t), Encode(t, p);
      n + 2 <= |w| <= 2 * n + 2 && w[0] == FLAG && w[|w| - 1] == FLAG && FLAG !in w[1..|w| - 1]
  {
    StuffShape(p + Field(t, p));
    var w := Encode(t, p);
    assert w[1..|w| - 1] == Stuff(p + Field(t, p));
  }
}
