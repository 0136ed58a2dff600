/**
 The receiving side of the framing, octet by octet, as a pure machine; and what it
 makes of clean wires, of wires joined in the middle of a frame and of damaged ones.
 */
module Receiver {
  import opened Base
  import opened Fcs
  import opened FcsProofs
  import opened Framing

  /** Idle: outside any frame. Open: inside one, with what has been unstuffed so far. */
  datatype Rx = Idle | Open(buf: seq<byte>, esc: bool)

  datatype Event = Frame(payload: seq<byte>) | BadCrc

  datatype Run = Run(state: Rx, events: seq<Event>)

  function Check(t: CrcType, buf: seq<byte>): Event {
    if Passes(t, buf) then Frame(buf[..|buf| - FieldSize(t)]) else BadCrc
  }

  function RxByte(t: CrcType, mtu: nat, s: Rx, b: byte): Run {
    match s
    case Idle => Run(if b == FLAG then Open([], false) else Idle, [])
    case Open(buf, esc) =>
      if b == FLAG then
        if buf == [] then Run(Open([], false), []) else Run(Idle, [Check(t, buf)])
      else if b == ESCAPE then Run(Open(buf, true), [])
      else
        var d := if esc then Flip(b) else b;
        Run(Open(if |buf| < mtu then buf + [d] else buf, false), [])
  }

  function RxFold(t: CrcType, mtu: nat, s: Rx, w: seq<byte>): Run {
    if w == [] then Run(s, [])
    else
      var r := RxFold(t, mtu, s, w[..|w| - 1]);
      var last := RxByte(t, mtu, r.state, w[|w| - 1]);
      Run(last.state, r.events + last.events)
  }

  function Frames(ps: seq<seq<byte>>): (es: seq<Event>)
    ensures |es| == |ps| && forall i :: 0 <= i < |ps| ==> es[i] == Frame(ps[i])
  {
    seq(|ps|, i requires 0 <= i < |ps| => Frame(ps[i]))
  }

  /** The payloads among the events, in order. */
  function Payloads(es: seq<Event>): seq<seq<byte>> {
    if es == [] then []
    else Payloads(es[..|es| - 1]) + (if es[|es| - 1].Frame? then [es[|es| - 1].payload] else [])
  }

  lemma {:induction false} PayloadsAppend(a: seq<Event>, b: seq<Event>)
    ensures Payloads(a + b) == Payloads(a) + Payloads(b)
  {
    if b == [] {
      assert a + b == a;
    } else {
      assert (a + b)[..|a + b| - 1] == a + b[..|b| - 1];
      PayloadsAppend(a, b[..|b| - 1]);
    }
  }

  lemma {:induction false} PayloadsOfFrames(ps: seq<seq<byte>>)
    ensures Payloads(Frames(ps)) == ps
  {
    if ps != [] {
      var n := |ps| - 1;
      PayloadsOfFrames(ps[..n]);
      assert Frames(ps)[..n] == Frames(ps[..n]);
      assert ps == ps[..n] + [ps[n]];
    }
  }

  lemma PayloadsWithError(ps: seq<seq<byte>>, error: bool)
    ensures Payloads(Frames(ps) + if error then [BadCrc] else []) == ps
  {
    PayloadsAppend(Frames(ps), if error then [BadCrc] else []);
    PayloadsOfFrames(ps);
  }

  /** Where the wire is split does not matter, whatever is on it. */
  lemma {:induction false} ChunkIndependence(t: CrcType, mtu: nat, s: Rx, u: seq<byte>, v: seq<byte>)
    ensures var r := RxFold(t, mtu, s, u);
      var q := RxFold(t, mtu, r.state, v);
      RxFold(t, mtu, s, u + v) == Run(q.state, r.events + q.events)
  {
    hide RxByte;
    if v == [] {
      assert u + v == u;
    } else {
      assert (u + v)[..|u + v| - 1] == u + v[..|v| - 1];
      ChunkIndependence(t, mtu, s, u, v[..|v| - 1]);
    }
  }

  lemma RxNone(t: CrcType, mtu: nat, s: Rx)
    ensures RxFold(t, mtu, s, []) == Run(s, [])
  {}

  lemma RxOne(t: CrcType, mtu: nat, s: Rx, b: byte)
    ensures RxFold(t, mtu, s, [b]) == RxByte(t, mtu, s, b)
  {
    assert [b][..0] == [];
  }

  lemma RxFirst(t: CrcType, mtu: nat, s: Rx, b: byte, w: seq<byte>)
    ensures var r := RxByte(t, mtu, s, b);
      var q := RxFold(t, mtu, r.state, w);
      RxFold(t, mtu, s, [b] + w) == Run(q.state, r.events + q.events)
  {
    hide RxByte;
    hide RxFold;
    ChunkIndependence(t, mtu, s, [b], w);
    RxOne(t, mtu, s, b);
  }

  // ----- Clean wires -----

  lemma RxStuffedOctet(t: CrcType, mtu: nat, buf: seq<byte>, b: byte)
    requires |buf| < mtu
    ensures RxFold(t, mtu, Open(buf, false), StuffOctet(b)) == Run(Open(buf + [b], false), [])
  {
    if Special(b) {
      EscapedIsPlain(b);
      RxFirst(t, mtu, Open(buf, false), ESCAPE, [Flip(b)]);
      assert [ESCAPE] + [Flip(b)] == StuffOctet(b);
      RxOne(t, mtu, Open(buf, true), Flip(b));
    } else {
      RxOne(t, mtu, Open(buf, false), b);
    }
  }

  /** Unstuffing undoes stuffing. */
  lemma {:induction false} RxStuffed(t: CrcType, mtu: nat, buf: seq<byte>, bs: seq<byte>)
    requires |buf| + |bs| <= mtu
    ensures RxFold(t, mtu, Open(buf, false), Stuff(bs)) == Run(Open(buf + bs, false), [])
    decreases |bs|
  {
    hide RxByte;
    hide StuffOctet;
    if bs == [] {
      assert buf + bs == buf;
    } else {
      hide RxFold;
      RxStuffedOctet(t, mtu, buf, bs[0]);
      RxStuffed(t, mtu, buf + [bs[0]], bs[1..]);
      ChunkIndependence(t, mtu, Open(buf, false), StuffOctet(bs[0]), Stuff(bs[1..]));
      assert buf + [bs[0]] + bs[1..] == buf + bs;
    }
  }

  lemma FieldPasses(t: CrcType, p: seq<byte>)
    ensures Check(t, p + Field(t, p)) == Frame(p)
  {
    var f := p + Field(t, p);
    assert f[..|p|] == p && f[|p|..] == Field(t, p);
    ReadLeIff(t, p, Field(t, p));
  }

  /** The body of a frame and its closing flag, met with an empty buffer. */
  lemma RxBody(t: CrcType, mtu: nat, f: seq<byte>)
    requires 0 < |f| <= mtu
    ensures RxFold(t, mtu, Open([], false), Stuff(f) + [FLAG]) == Run(Idle, [Check(t, f)])
  {
    RxStuffed(t, mtu, [], f);
    assert [] + f == f;
    ChunkIndependence(t, mtu, Open([], false), Stuff(f), [FLAG]);
    RxOne(t, mtu, Open(f, false), FLAG);
  }

  /** One frame, from outside a frame or just after a flag. */
  lemma RoundTrip(t: CrcType, mtu: nat, s: Rx, p: seq<byte>)
    requires s.Idle? || s.buf == []
    requires 0 < |p| + FieldSize(t) <= mtu
    ensures RxFold(t, mtu, s, Encode(t, p)) == Run(Idle, [Frame(p)])
  {
    var f := p + Field(t, p);
    RxFirst(t, mtu, s, FLAG, Stuff(f) + [FLAG]);
    assert [FLAG] + (Stuff(f) + [FLAG]) == Encode(t, p);
    RxBody(t, mtu, f);
    FieldPasses(t, p);
  }

  /** A list of frames, back to back. */
  lemma {:induction false} StreamRoundTrip(t: CrcType, mtu: nat, s: Rx, ps: seq<seq<byte>>)
    requires s.Idle? || s.buf == []
    requires forall p :: p in ps ==> 0 < |p| + FieldSize(t) <= mtu
    ensures RxFold(t, mtu, s, EncodeAll(t, ps)) == Run(if ps == [] then s else Idle, Frames(ps))
    decreases |ps|
  {
    hide RxFold;
    hide Encode;
    if ps == [] {
      RxNone(t, mtu, s);
    } else {
      RoundTrip(t, mtu, s, ps[0]);
      StreamRoundTrip(t, mtu, Idle, ps[1..]);
      ChunkIndependence(t, mtu, s, Encode(t, ps[0]), EncodeAll(t, ps[1..]));
      assert [Frame(ps[0])] + Frames(ps[1..]) == Frames(ps);
    }
  }

  /** At any moment, a receiver of such a stream has seen a prefix of the frames and no error. */
  lemma PrefixRoundTrip(t: CrcType, mtu: nat, ps: seq<seq<byte>>, w: seq<byte>)
    requires forall p :: p in ps ==> 0 < |p| + FieldSize(t) <= mtu
    requires w <= EncodeAll(t, ps)
    ensures RxFold(t, mtu, Idle, w).events <= Frames(ps)
  {
    hide RxFold;
    var rest := EncodeAll(t, ps)[|w|..];
    assert w + rest == EncodeAll(t, ps);
    ChunkIndependence(t, mtu, Idle, w, rest);
    StreamRoundTrip(t, mtu, Idle, ps);
  }

  // ----- Frames beyond the limit -----

  /** The first n octets, or all there are. */
  function Cut(s: seq<byte>, n: nat): seq<byte> {
    if |s| <= n then s else s[..n]
  }

  lemma RxOctetCut(t: CrcType, mtu: nat, buf: seq<byte>, b: byte)
    requires |buf| <= mtu
    ensures RxFold(t, mtu, Open(buf, false), StuffOctet(b)) == Run(Open(Cut(buf + [b], mtu), false), [])
  {
    if |buf| < mtu {
      RxStuffedOctet(t, mtu, buf, b);
    } else if Special(b) {
      EscapedIsPlain(b);
      RxFirst(t, mtu, Open(buf, false), ESCAPE, [Flip(b)]);
      assert [ESCAPE] + [Flip(b)] == StuffOctet(b);
      RxOne(t, mtu, Open(buf, true), Flip(b));
    } else {
      RxOne(t, mtu, Open(buf, false), b);
    }
  }

  /** What does not fit is dropped, octet by octet. */
  lemma {:induction false} RxStuffedCut(t: CrcType, mtu: nat, buf: seq<byte>, bs: seq<byte>)
    requires |buf| <= mtu
    ensures RxFold(t, mtu, Open(buf, false), Stuff(bs)) == Run(Open(Cut(buf + bs, mtu), false), [])
    decreases |bs|
  {
    hide RxByte;
    hide StuffOctet;
    hide RxFold;
    if bs == [] {
      RxNone(t, mtu, Open(buf, false));
      assert buf + bs == buf;
    } else {
      var next := Cut(buf + [bs[0]], mtu);
      RxOctetCut(t, mtu, buf, bs[0]);
      RxStuffedCut(t, mtu, next, bs[1..]);
      ChunkIndependence(t, mtu, Open(buf, false), StuffOctet(bs[0]), Stuff(bs[1..]));
      assert Cut(next + bs[1..], mtu) == Cut(buf + bs, mtu);
    }
  }

  /** A frame of any length gives one event: its first octets, up to the limit, are judged as if they were all. */
  lemma AnyLengthJudged(t: CrcType, mtu: nat, s: Rx, p: seq<byte>)
    requires s.Idle? || s.buf == []
    requires mtu > 0 && |p| + FieldSize(t) > 0
    ensures RxFold(t, mtu, s, Encode(t, p)) == Run(Idle, [Check(t, Cut(p + Field(t, p), mtu))])
  {
    hide RxFold;
    hide Field;
    hide Check;
    var f := p + Field(t, p);
    RxFirst(t, mtu, s, FLAG, Stuff(f) + [FLAG]);
    assert [FLAG] + (Stuff(f) + [FLAG]) == Encode(t, p);
    RxStuffedCut(t, mtu, [], f);
    assert [] + f == f;
    ChunkIndependence(t, mtu, Open([], false), Stuff(f), [FLAG]);
    RxOne(t, mtu, Open(Cut(f, mtu), false), FLAG);
  }

  /** Without a check, the cut frame is delivered. */
  lemma CutDelivered(mtu: nat, p: seq<byte>)
    requires 0 < mtu < |p|
    ensures RxFold(CrcOff, mtu, Idle, Encode(CrcOff, p)) == Run(Idle, [Frame(p[..mtu])])
  {
    hide RxFold;
    AnyLengthJudged(CrcOff, mtu, Idle, p);
    assert p + Field(CrcOff, p) == p;
    FieldPasses(CrcOff, p[..mtu]);
    assert p[..mtu] + Field(CrcOff, p[..mtu]) == p[..mtu];
  }

  // ----- Joining in the middle -----

  lemma {:induction false} IdleSkips(t: CrcType, mtu: nat, w: seq<byte>)
    requires FLAG !in w
    ensures RxFold(t, mtu, Idle, w) == Run(Idle, [])
  {
    if w != [] {
      IdleSkips(t, mtu, w[..|w| - 1]);
    }
  }

  /** A frame met with junk in the buffer ends the junk; its closing flag opens the next frame. */
  lemma RxAfterJunk(t: CrcType, mtu: nat, s: Rx, p: seq<byte>)
    requires s.Open? && s.buf != []
    ensures RxFold(t, mtu, s, Encode(t, p)) == Run(Open([], false), [Check(t, s.buf)])
  {
    var body := Stuff(p + Field(t, p));
    StuffShape(p + Field(t, p));
    RxFirst(t, mtu, s, FLAG, body + [FLAG]);
    assert [FLAG] + (body + [FLAG]) == Encode(t, p);
    IdleSkips(t, mtu, body);
    ChunkIndependence(t, mtu, Idle, body, [FLAG]);
    RxOne(t, mtu, Idle, FLAG);
  }

  /**
   Self-synchronisation, exactly: outside a frame, or just after a flag, nothing is
   lost; with junk in the buffer the junk is judged, the first frame is lost and no other.
   */
  lemma SelfSynchronising(t: CrcType, mtu: nat, s: Rx, ps: seq<seq<byte>>)
    requires ps != [] && forall p :: p in ps ==> 0 < |p| + FieldSize(t) <= mtu
    ensures RxFold(t, mtu, s, EncodeAll(t, ps)) ==
      if s.Idle? || s.buf == [] then Run(Idle, Frames(ps))
      else Run(if |ps| == 1 then Open([], false) else Idle, [Check(t, s.buf)] + Frames(ps[1..]))
  {
    hide RxFold;
    hide RxByte;
    hide Check;
    if s.Idle? || s.buf == [] {
      StreamRoundTrip(t, mtu, s, ps);
    } else {
      RxAfterJunk(t, mtu, s, ps[0]);
      StreamRoundTrip(t, mtu, Open([], false), ps[1..]);
      ChunkIndependence(t, mtu, s, Encode(t, ps[0]), EncodeAll(t, ps[1..]));
    }
  }

  // ----- Damaged wires -----

  /** Changing one plain octet of a stuffed body changes exactly one octet of what is unstuffed. */
  lemma {:induction false} RxDamaged(t: CrcType, mtu: nat, buf: seq<byte>, bs: seq<byte>, j: nat, b: byte)
    returns (k: nat, x: byte)
    requires |buf| + |bs| <= mtu
    requires j < |Stuff(bs)| && !Special(Stuff(bs)[j]) && !Special(b) && b != Stuff(bs)[j]
    ensures k < |bs| && x != bs[k]
    ensures RxFold(t, mtu, Open(buf, false), Stuff(bs)[j := b]) == Run(Open(buf + bs[k := x], false), [])
    decreases |bs|
  {
    hide RxFold;
    hide StuffOctet;
    var head, tail := StuffOctet(bs[0]), Stuff(bs[1..]);
    if j < |head| {
      k := 0;
      x := RxDamagedOctet(t, mtu, buf, bs[0], j, b);
      assert Stuff(bs)[j := b] == head[j := b] + tail;
      ChunkIndependence(t, mtu, Open(buf, false), head[j := b], tail);
      RxStuffed(t, mtu, buf + [x], bs[1..]);
      assert buf + [x] + bs[1..] == buf + bs[0 := x];
    } else {
      var i;
      i, x := RxDamaged(t, mtu, buf + [bs[0]], bs[1..], j - |head|, b);
      k := i + 1;
      assert Stuff(bs)[j := b] == head + tail[j - |head| := b];
      RxStuffedOctet(t, mtu, buf, bs[0]);
      ChunkIndependence(t, mtu, Open(buf, false), head, tail[j - |head| := b]);
      assert buf + [bs[0]] + bs[1..][i := x] == buf + bs[k := x];
    }
  }

  lemma RxDamagedOctet(t: CrcType, mtu: nat, buf: seq<byte>, c: byte, j: nat, b: byte) returns (x: byte)
    requires |buf| < mtu && j < |StuffOctet(c)|
    requires !Special(StuffOctet(c)[j]) && !Special(b) && b != StuffOctet(c)[j]
    ensures x != c
    ensures RxFold(t, mtu, Open(buf, false), StuffOctet(c)[j := b]) == Run(Open(buf + [x], false), [])
  {
    if Special(c) {
      x := Flip(b);
      assert Flip(x) == b;
      assert StuffOctet(c)[j := b] == [ESCAPE] + [b];
      RxFirst(t, mtu, Open(buf, false), ESCAPE, [b]);
      RxOne(t, mtu, Open(buf, true), b);
    } else {
      x := b;
      assert StuffOctet(c)[j := b] == [b];
      RxOne(t, mtu, Open(buf, false), b);
    }
  }

  /** A frame with one octet replaced, check field included, does not pass. */
  lemma OneOctetRejected(t: CrcType, p: seq<byte>, k: nat, x: byte)
    requires t != CrcOff
    requires var f := p + Field(t, p); k < |f| && x != f[k]
    ensures Check(t, (p + Field(t, p))[k := x]) == BadCrc
  {
    var f, n := p + Field(t, p), FieldSize(t);
    var at := if k + n <= |f| then k else |f| - n;
    var g := f[k := x];
    assert f[..at] == g[..at] && f[at + n..] == g[at + n..];
    assert f[k] != g[k];
    FieldPasses(t, p);
    BurstDetected(t, f, g, at);
  }

  /** Any frame with one interior plain octet replaced by another is reported and not delivered. */
  lemma CorruptionRejected(t: CrcType, mtu: nat, p: seq<byte>, i: nat, b: byte)
    requires t != CrcOff && |p| + FieldSize(t) <= mtu
    requires 0 < i < |Encode(t, p)| - 1 && !Special(Encode(t, p)[i]) && !Special(b) && b != Encode(t, p)[i]
    ensures RxFold(t, mtu, Idle, Encode(t, p)[i := b]) == Run(Idle, [BadCrc])
  {
    hide RxFold;
    hide Stuff;
    hide Check;
    hide Field;
    var f := p + Field(t, p);
    var body := Stuff(f)[i - 1 := b];
    var k, x := RxDamaged(t, mtu, [], f, i - 1, b);
    assert [] + f[k := x] == f[k := x];
    OneOctetRejected(t, p, k, x);
    assert Encode(t, p)[i := b] == [FLAG] + (body + [FLAG]);
    RxFirst(t, mtu, Idle, FLAG, body + [FLAG]);
    ChunkIndependence(t, mtu, Open([], false), body, [FLAG]);
    RxOne(t, mtu, Open(f[k := x], false), FLAG);
  }

  /** Such damage costs the frame it hits and nothing else in the stream. */
  lemma DamageIsLocal(t: CrcType, mtu: nat, ps: seq<seq<byte>>, p: seq<byte>, qs: seq<seq<byte>>, i: nat, b: byte)
    requires t != CrcOff && forall q :: q in ps + [p] + qs ==> |q| + FieldSize(t) <= mtu
    requires 0 < i < |Encode(t, p)| - 1 && !Special(Encode(t, p)[i]) && !Special(b) && b != Encode(t, p)[i]
    ensures RxFold(t, mtu, Idle, EncodeAll(t, ps) + Encode(t, p)[i := b] + EncodeAll(t, qs))
      == Run(Idle, Frames(ps) + [BadCrc] + Frames(qs))
  {
    hide RxFold;
    hide Encode;
    assert p in ps + [p] + qs;
    assert forall q :: q in ps || q in qs ==> q in ps + [p] + qs;
    StreamRoundTrip(t, mtu, Idle, ps);
    CorruptionRejected(t, mtu, p, i, b);
    StreamRoundTrip(t, mtu, Idle, qs);
    var w := EncodeAll(t, ps) + Encode(t, p)[i := b];
    ChunkIndependence(t, mtu, Idle, EncodeAll(t, ps), Encode(t, p)[i := b]);
    ChunkIndependence(t, mtu, Idle, w, EncodeAll(t, qs));
  }
}
