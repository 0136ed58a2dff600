/**
 What the one-shot decoder makes of any wire whatever: its verdict is decided by the check
 field, it agrees with the streaming receiver, and a damaged frame is not returned.
 */
module OneShot {
  import opened Base
  import opened Fcs
  import opened FcsProofs
  import opened Framing
  import opened Receiver
  import opened HdlcEncoder

  // ----- The verdict -----

  /** The octets the decoder collected, unstuffed. */
  function Collected(w: seq<byte>): seq<byte> {
    Scan(w, [], false).buf
  }

  /**
   On every wire: success if and only if what was collected is the result followed by its
   own check field; too few octets for a check field are invalid data; all else fails the
   check, and then what was collected is handed out as it is.
   */
  lemma VerdictIff(t: CrcType, w: seq<byte>)
    ensures var d, c := DecodeWire(t, w), Collected(w);
      && (d.status == Success ==> c == d.result + OneShotField(t, d.result))
      && (d.status == Success <==> exists p :: c == p + OneShotField(t, p))
      && (d.status == Status.InvalidData <==> |c| < FieldSize(t))
      && (d.status == Status.WrongCrc <==> |c| >= FieldSize(t) && !exists p :: c == p + OneShotField(t, p))
      && (d.status != Success ==> d.result == c)
  {
    hide OneShotCrc;
    hide ReadLe;
    hide LeBytes;
    hide OneShotField;
    var c, n := Collected(w), FieldSize(t);
    if |c| >= n {
      var k := |c| - n;
      assert c == c[..k] + c[k..];
      CheckedIff(t, c[..k], c[k..]);
      forall p | c == p + OneShotField(t, p) ensures p == c[..k] && OneShotField(t, p) == c[k..] {
        assert |OneShotField(t, p)| == n;
      }
    }
  }

  lemma CheckedIff(t: CrcType, p: seq<byte>, f: seq<byte>)
    requires |f| == FieldSize(t)
    ensures OneShotCrc(t, p) == ReadLe(f) <==> f == OneShotField(t, p)
  {
    hide CrcValue;
    hide ReadLe;
    hide LeBytes;
    if t == CrcDefault {
      ReadLe32Iff(0, f);
    } else {
      ReadLeIff(t, p, f);
    }
  }

  // ----- Damage -----

  /** As RxDamaged, for the scan. */
  lemma {:induction false} ScanDamaged(bs: seq<byte>, tail: seq<byte>, buf: seq<byte>, j: nat, b: byte)
    returns (k: nat, x: byte)
    requires j < |Stuff(bs)| && !Special(Stuff(bs)[j]) && !Special(b) && b != Stuff(bs)[j]
    ensures k < |bs| && x != bs[k]
    ensures Scan(Stuff(bs)[j := b] + tail, buf, false) == Onward(|Stuff(bs)|, Scan(tail, buf + bs[k := x], false))
    decreases |bs|
  {
    hide Scan;
    hide StuffOctet;
    var head, rest := StuffOctet(bs[0]), Stuff(bs[1..]);
    if j < |head| {
      k := 0;
      x := ScanDamagedOctet(bs[0], rest + tail, buf, j, b);
      assert Stuff(bs)[j := b] + tail == head[j := b] + (rest + tail);
      ScanStuffed(bs[1..], tail, buf + [x]);
      assert buf + [x] + bs[1..] == buf + bs[0 := x];
    } else {
      var i;
      i, x := ScanDamaged(bs[1..], tail, buf + [bs[0]], j - |head|, b);
      k := i + 1;
      var spoilt := rest[j - |head| := b];
      assert Stuff(bs)[j := b] + tail == head + (spoilt + tail);
      ScanOctet(bs[0], spoilt + tail, buf);
      assert buf + [bs[0]] + bs[1..][i := x] == buf + bs[k := x];
    }
  }

  lemma ScanDamagedOctet(c: byte, rest: seq<byte>, buf: seq<byte>, j: nat, b: byte) returns (x: byte)
    requires j < |StuffOctet(c)| && !Special(StuffOctet(c)[j]) && !Special(b) && b != StuffOctet(c)[j]
    ensures x != c
    ensures Scan(StuffOctet(c)[j := b] + rest, buf, false) == Onward(|StuffOctet(c)|, Scan(rest, buf + [x], false))
  {
    var w := StuffOctet(c)[j := b] + rest;
    if Special(c) {
      x := Flip(b);
      assert w[0] == ESCAPE && w[1..] == [b] + rest && w[1..][1..] == rest;
      assert Flip(x) == b;
    } else {
      x := b;
      assert w[0] == b && w[1..] == rest;
    }
  }

  /** A frame with one interior plain octet replaced by another is not returned, whatever follows it. */
  lemma DamagedNotDecoded(t: CrcType, p: seq<byte>, i: nat, b: byte, rest: seq<byte>)
    requires t != CrcOff && t != CrcDefault
    requires 0 < i < |OneShotEncode(t, p)| - 1 && b != OneShotEncode(t, p)[i]
    requires !Special(OneShotEncode(t, p)[i]) && !Special(b)
    ensures var d := DecodeWire(t, OneShotEncode(t, p)[i := b] + rest);
      d.status == Status.WrongCrc && d.consumed == |OneShotEncode(t, p)|
  {
    hide Stuff;
    hide Field;
    hide OneShotCrc;
    hide OneShotField;
    hide Passes;
    SameField(t, p);
    var f := p + Field(t, p);
    var body := Stuff(f)[i - 1 := b];
    var tail := [FLAG] + rest;
    var k, x := ScanDamaged(f, tail, [], i - 1, b);
    assert [] + f[k := x] == f[k := x];
    var w := OneShotEncode(t, p)[i := b] + rest;
    assert w[0] == FLAG && w[1..] == body + tail;
    assert Scan(tail, f[k := x], false) == Scanned(1, f[k := x]);
    OneOctetRejected(t, p, k, x);
    RejectedIsWrong(t, w, f[k := x]);
  }

  lemma SameField(t: CrcType, p: seq<byte>)
    requires t != CrcDefault
    ensures OneShotField(t, p) == Field(t, p)
  {
    hide CrcValue;
    hide LeBytes;
  }

  lemma RejectedIsWrong(t: CrcType, w: seq<byte>, g: seq<byte>)
    requires t != CrcDefault && Collected(w) == g && |g| >= FieldSize(t) && Check(t, g) == BadCrc
    ensures DecodeWire(t, w).status == Status.WrongCrc
  {
    hide CrcValue;
    hide ReadLe;
  }

  // ----- Both decoders -----

  /** No escape directly in front of a flag. */
  predicate NoAbort(w: seq<byte>) {
    forall i :: 0 <= i < |w| - 1 && w[i] == ESCAPE ==> w[i + 1] != FLAG
  }

  /** One octet of the scan that does not end it. */
  lemma ScanMore(w: seq<byte>, buf: seq<byte>, esc: bool, r: Rx)
    requires w != [] && (w[0] == FLAG ==> buf == [] && !esc)
    requires var next := if w[0] == FLAG || w[0] == ESCAPE then buf else buf + [if esc then Flip(w[0]) else w[0]];
      r == Open(next, w[0] == ESCAPE)
    ensures Scan(w, buf, esc) == Onward(1, Scan(w[1..], r.buf, r.esc))
  {
    hide Flip;
  }

  lemma NoAbortRest(w: seq<byte>)
    requires NoAbort(w) && w != []
    ensures NoAbort(w[1..]) && (w[0] == ESCAPE && w[1..] != [] ==> w[1..][0] != FLAG)
  {
    forall i | 0 <= i < |w[1..]| - 1 && w[1..][i] == ESCAPE ensures w[1..][i + 1] != FLAG {
      assert w[i + 1] == ESCAPE;
    }
  }

  /** Scan and receiver, started inside a frame, stop at the same flag with the same octets, or both run out. */
  ghost predicate InStep(t: CrcType, mtu: nat, w: seq<byte>, buf: seq<byte>, esc: bool) {
    var s := Scan(w, buf, esc);
    var run := RxFold(t, mtu, Open(buf, esc), w[..s.consumed]);
    if s.consumed > 0 && w[s.consumed - 1] == FLAG && s.buf != [] then run == Run(Idle, [Check(t, s.buf)])
    else s.consumed == |w| && run.events == [] && run.state.Open? && run.state.buf == s.buf
  }

  /** One octet that does not end the frame keeps them in step. */
  lemma StaysInStep(t: CrcType, mtu: nat, w: seq<byte>, buf: seq<byte>, esc: bool)
    requires w != [] && |buf| < mtu && (w[0] == FLAG ==> buf == [] && !esc)
    requires var next := if w[0] == FLAG || w[0] == ESCAPE then buf else buf + [if esc then Flip(w[0]) else w[0]];
      InStep(t, mtu, w[1..], next, w[0] == ESCAPE)
    ensures InStep(t, mtu, w, buf, esc)
  {
    hide RxFold;
    hide RxByte;
    hide Check;
    hide Flip;
    hide Scan;
    var r := OpenByte(t, mtu, buf, esc, w[0]);
    ScanMore(w, buf, esc, r);
    var k := Scan(w[1..], r.buf, r.esc).consumed;
    FirstIsQuiet(t, mtu, w, buf, esc, r, k);
    if w[1..] == [] {
      ScanNone(r.buf, r.esc);
    }
  }

  /** An octet without an event leaves the rest of the run to decide. */
  lemma FirstIsQuiet(t: CrcType, mtu: nat, w: seq<byte>, buf: seq<byte>, esc: bool, r: Rx, k: nat)
    requires w != [] && k < |w| && RxByte(t, mtu, Open(buf, esc), w[0]) == Run(r, [])
    ensures RxFold(t, mtu, Open(buf, esc), w[..1 + k]) == RxFold(t, mtu, r, w[1..][..k])
    ensures k > 0 ==> w[k] == w[1..][k - 1]
  {
    hide RxFold;
    hide RxByte;
    FrontSplit(w, k);
    RxFirst(t, mtu, Open(buf, esc), w[0], w[1..][..k]);
    var run := RxFold(t, mtu, r, w[1..][..k]);
    assert [] + run.events == run.events;
  }

  lemma FrontSplit(w: seq<byte>, k: nat)
    requires k < |w|
    ensures w[..1 + k] == [w[0]] + w[1..][..k]
  {}

  /** The scan does to a wire what the receiver inside a frame does to it, up to the flag where both stop. */
  lemma {:induction false} ScanIsReceive(t: CrcType, mtu: nat, w: seq<byte>, buf: seq<byte>, esc: bool)
    requires |buf| + |w| <= mtu && NoAbort(w) && (esc && w != [] ==> w[0] != FLAG)
    ensures InStep(t, mtu, w, buf, esc)
    decreases |w|
  {
    hide RxFold;
    hide RxByte;
    hide Check;
    hide Flip;
    hide Scan;
    hide NoAbort;
    if w == [] {
      ScanNone(buf, esc);
      RxNone(t, mtu, Open(buf, esc));
      assert w[..0] == [];
    } else if w[0] == FLAG && buf != [] {
      ScanEnds(w, buf, esc);
      assert w[..1] == [FLAG];
      RxOne(t, mtu, Open(buf, esc), FLAG);
      FlagEnds(t, mtu, buf, esc);
    } else {
      hide InStep;
      NoAbortRest(w);
      var next := if w[0] == FLAG || w[0] == ESCAPE then buf else buf + [if esc then Flip(w[0]) else w[0]];
      ScanIsReceive(t, mtu, w[1..], next, w[0] == ESCAPE);
      StaysInStep(t, mtu, w, buf, esc);
    }
  }

  lemma ScanNone(buf: seq<byte>, esc: bool)
    ensures Scan([], buf, esc) == Scanned(0, buf)
  {}

  lemma ScanEnds(w: seq<byte>, buf: seq<byte>, esc: bool)
    requires w != [] && w[0] == FLAG && buf != []
    ensures Scan(w, buf, esc) == Scanned(1, buf)
  {}

  lemma FlagEnds(t: CrcType, mtu: nat, buf: seq<byte>, esc: bool)
    requires buf != []
    ensures RxByte(t, mtu, Open(buf, esc), FLAG) == Run(Idle, [Check(t, buf)])
  {}

  /** The receiver inside a frame after an octet that does not end it. */
  lemma OpenByte(t: CrcType, mtu: nat, buf: seq<byte>, esc: bool, b: byte) returns (r: Rx)
    requires |buf| < mtu && (b == FLAG ==> buf == [])
    ensures RxByte(t, mtu, Open(buf, esc), b) == Run(r, [])
    ensures r == Open(if b == FLAG || b == ESCAPE then buf else buf + [if esc then Flip(b) else b], b == ESCAPE)
  {
    r := RxByte(t, mtu, Open(buf, esc), b).state;
  }

  /**
   On every wire that ends a frame and has no escape in front of a flag, the one-shot
   decoder returns a payload if and only if the streaming receiver, started inside a frame,
   delivers it from the octets the decoder consumed.
   */
  lemma DecodersAgree(t: CrcType, w: seq<byte>)
    requires t != CrcDefault && NoAbort(w)
    ensures var d := DecodeWire(t, w);
      var run := RxFold(t, |w|, Open([], false), w[..d.consumed]);
      d.consumed > 0 && w[d.consumed - 1] == FLAG && Collected(w) != [] ==>
        run == Run(Idle, if d.status == Success then [Frame(d.result)] else [BadCrc])
  {
    hide RxFold;
    hide ReadLe;
    hide CrcValue;
    hide Scan;
    ScanIsReceive(t, |w|, w, [], false);
  }

  /** With an escape in front of a flag they differ: the receiver forgets the escape, the decoder does not. */
  lemma AbortDisagrees()
    ensures var w := [ESCAPE, FLAG, 0x01, FLAG];
      && DecodeWire(CrcOff, w) == Decoded(4, Success, [0x21])
      && RxFold(CrcOff, 4, Open([], false), w) == Run(Idle, [Frame([0x01])])
  {
    AbortScanned();
    AbortReceived();
  }

  lemma AbortScanned()
    ensures DecodeWire(CrcOff, [ESCAPE, FLAG, 0x01, FLAG]) == Decoded(4, Success, [0x21])
  {
    var w: seq<byte> := [ESCAPE, FLAG, 0x01, FLAG];
    assert w[1..] == [FLAG, 0x01, FLAG] && w[1..][1..] == [0x01, FLAG] && w[1..][1..][1..] == [FLAG];
    assert Scan([FLAG], [0x21], false) == Scanned(1, [0x21]);
    assert Scan([0x01, FLAG], [], true) == Scanned(2, [0x21]);
    assert Scan([FLAG, 0x01, FLAG], [], true) == Scanned(3, [0x21]);
  }

  lemma AbortReceived()
    ensures RxFold(CrcOff, 4, Open([], false), [ESCAPE, FLAG, 0x01, FLAG]) == Run(Idle, [Frame([0x01])])
  {
    hide RxFold;
    RxFirst(CrcOff, 4, Open([], false), ESCAPE, [FLAG, 0x01, FLAG]);
    RxFirst(CrcOff, 4, Open([], true), FLAG, [0x01, FLAG]);
    RxFirst(CrcOff, 4, Open([], false), 0x01, [FLAG]);
    RxOne(CrcOff, 4, Open([0x01], false), FLAG);
    assert RxFold(CrcOff, 4, Open([0x01], false), [FLAG]) == Run(Idle, [Check(CrcOff, [0x01])]);
    assert Check(CrcOff, [0x01]) == Frame([0x01]) by {
      FieldPasses(CrcOff, [0x01]);
      assert [0x01] + Field(CrcOff, [0x01]) == [0x01];
    }
    var none: seq<byte> := [];
    assert none + [0x01] == [0x01];
    assert RxByte(CrcOff, 4, Open(none, false), 0x01) == Run(Open([0x01], false), []);
    assert [ESCAPE, FLAG, 0x01, FLAG] == [ESCAPE] + [FLAG, 0x01, FLAG];
    assert [FLAG, 0x01, FLAG] == [FLAG] + [0x01, FLAG] && [0x01, FLAG] == [0x01] + [FLAG];
  }
}
