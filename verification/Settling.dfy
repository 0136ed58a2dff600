/**
 On a lossless link with no timer firing, every interleaving of transmissions and
 receptions comes to rest: no run is longer than the work that is left, a station can act
 as long as there is any, and at rest everything is delivered and acknowledged.
 */
module Settling {
  import opened Base
  import opened SeqNum
  import opened FdDefs
  import opened FrameQueue
  import opened FdSpec
  import opened Window
  import opened Session
  import opened SessionProof
  import opened SessionReceive
  import opened SessionTheorems
  import opened Quiescence

  /** The frame x sends next, counted from the start. */
  function Next(x: Station): nat
    requires |x.fd.peers| == 1
  {
    IndexFrom(x.conf, x.Ctl().nextNs)
  }

  ghost predicate Carried(xy: seq<Packet>, i: nat) {
    exists q :: 0 <= q < |xy| && xy[q].tag.TagI? && xy[q].tag.idx == i
  }

  /** The I-frames under way from x to y are those between what y has got and what x sends next, in order. */
  ghost predicate InSequence(x: Station, xy: seq<Packet>, y: Station)
    requires |x.fd.peers| == 1
  {
    && y.Got() <= Next(x) <= |x.sent|
    && (forall q :: 0 <= q < |xy| && xy[q].tag.TagI? ==> y.Got() <= xy[q].tag.idx < Next(x))
    && (forall p, q | 0 <= p < q < |xy| && xy[p].tag.TagI? && xy[q].tag.TagI? :: xy[p].tag.idx < xy[q].tag.idx)
    && (forall i: nat :: y.Got() <= i < Next(x) ==> Carried(xy, i))
  }

  /** Only RR-frames wait or are under way beside the I-frames. */
  ghost predicate Quiet(x: Station, xy: seq<Packet>)
    requires |x.fd.peers| == 1 && |x.slotAck| == |x.fd.sq.slots|
  {
    && (forall q :: 0 <= q < |xy| ==> !U(xy[q]))
    && (forall q :: 0 <= q < |xy| && xy[q].tag.TagS? ==> xy[q].bytes == [Addr(x), RrControl(Seq(xy[q].tag.ack))])
    && (forall j :: 0 <= j < |x.fd.sq.slots| && x.fd.sq.slots[j].Some? ==>
          PendingS(x.fd.sq.slots[j]) && x.fd.sq.slots[j].value.header.control == RrControl(Seq(x.slotAck[j])))
  }

  /** y knows how much x has got, or is about to be told. */
  ghost predicate Told(x: Station, xy: seq<Packet>, y: Station)
    requires |x.slotAck| == |x.fd.sq.slots|
  {
    || y.conf == x.Got()
    || (exists q :: 0 <= q < |xy| && !U(xy[q]) && AckOf(xy[q]) == x.Got())
    || (exists j :: 0 <= j < |x.fd.sq.slots| && PendingS(x.fd.sq.slots[j]) && x.slotAck[j] == x.Got())
  }

  ghost predicate Side(x: Station, xy: seq<Packet>, y: Station)
    requires |x.fd.peers| == 1 && |x.slotAck| == |x.fd.sq.slots|
  {
    InSequence(x, xy, y) && Quiet(x, xy) && Told(x, xy, y)
  }

  /** Nothing has been lost since the link was last at rest. */
  ghost predicate Flowing(s: Session) {
    && Inv(s) && !s.over && s.a.State() == Connected && s.b.State() == Connected
    && Side(s.a, s.ab, s.b) && Side(s.b, s.ba, s.a)
  }

  /**
   A step that moves a frame: a transmission that has something to transmit, or a
   reception whose answer, if there is one, will leave in order and finds a free slot.
   */
  predicate Moves(s: Session, act: Action)
    ensures Moves(s, act) ==> Possible(s, act)
  {
    && Enabled(s, act)
    && (act.Transmit? || act.Receive?)
    && (act.Transmit? ==> Generate(s.a.fd).1.Some?)
    && (act.Receive? && IsI(s.ba[0].bytes[1]) ==> HasFree(s.a.fd.sq.slots))
  }

  function Minus(a: nat, b: nat): nat {
    if a < b then 0 else a - b
  }

  /** What is left to do for x's frames and x's answers. */
  function Half(x: Station, xy: seq<Packet>, y: Station): nat
    requires |x.fd.peers| == 1
  {
    4 * Minus(|x.sent|, Next(x)) + 2 * Minus(Next(x), y.Got()) + |xy| + 2 * Occupied(x.fd.sq.slots)
  }

  function WorkLeft(s: Session): nat
    requires |s.a.fd.peers| == 1 && |s.b.fd.peers| == 1
  {
    Half(s.a, s.ab, s.b) + Half(s.b, s.ba, s.a)
  }

  lemma CarriedAppend(xy: seq<Packet>, p: Packet, i: nat)
    requires Carried(xy, i)
    ensures Carried(xy + [p], i)
  {
    var q :| 0 <= q < |xy| && xy[q].tag.TagI? && xy[q].tag.idx == i;
    assert (xy + [p])[q] == xy[q];
  }

  /** An acknowledgement already under way still is. */
  lemma ToldAppend(x: Station, xy: seq<Packet>, y: Station, p: Packet)
    requires |x.slotAck| == |x.fd.sq.slots| && Told(x, xy, y)
    ensures Told(x, xy + [p], y)
  {
    if q :| 0 <= q < |xy| && !U(xy[q]) && AckOf(xy[q]) == x.Got() {
      assert (xy + [p])[q] == xy[q];
    }
  }

  // ----- A service frame is transmitted -----

  lemma ServiceSide(x: Station, xy: seq<Packet>, y: Station, j: nat)
    requires Local(x) && Side(x, xy, y) && j < |x.fd.sq.slots| && x.fd.sq.slots[j].Some?
    ensures var p := Packet(x.fd.sq.slots[j].value.ToBytes(), ServiceTag(x, j));
      && Side(Emptied(x, j), xy + [p], y) && Half(Emptied(x, j), xy + [p], y) + 1 == Half(x, xy, y)
  {
    hide Seq;
    hide RrControl;
    hide Local;
    hide IndexFrom;
    var x', p := Emptied(x, j), Packet(x.fd.sq.slots[j].value.ToBytes(), ServiceTag(x, j));
    ServiceBytes(x, j);
    OccupiedTake(x.fd.sq.slots, j);
    forall i: nat | y.Got() <= i < Next(x) ensures Carried(xy + [p], i) {
      assert Carried(xy, i);
      CarriedAppend(xy, p, i);
    }
    if y.conf != x.Got() {
      if q :| 0 <= q < |xy| && !U(xy[q]) && AckOf(xy[q]) == x.Got() {
        assert (xy + [p])[q] == xy[q];
      } else {
        var k :| 0 <= k < |x.fd.sq.slots| && PendingS(x.fd.sq.slots[k]) && x.slotAck[k] == x.Got();
        if k == j {
          assert (xy + [p])[|xy|] == p && AckOf(p) == x.Got();
        } else {
          assert x'.fd.sq.slots[k] == x.fd.sq.slots[k];
        }
      }
    }
  }

  /** What depends on the other station only through what it has got and confirmed. */
  lemma SameSide(x: Station, xy: seq<Packet>, y: Station, y': Station)
    requires |x.fd.peers| == 1 && |x.slotAck| == |x.fd.sq.slots| && y'.Got() == y.Got() && y'.conf == y.conf
    ensures Side(x, xy, y) <==> Side(x, xy, y')
    ensures Half(x, xy, y') == Half(x, xy, y)
  {
    hide Seq;
    hide RrControl;
    hide IndexFrom;
  }

  lemma ServiceMoves(s: Session, j: nat)
    requires Flowing(s) && FirstOccupied(s.a.fd.sq.slots, 0) == Some(j)
    ensures Possible(s, Transmit)
    ensures var r := StepA(s, Transmit);
      Flowing(r) && r.a.sent == s.a.sent && r.b.sent == s.b.sent && WorkLeft(r) < WorkLeft(s)
  {
    hide Local;
    hide Data;
    hide Acks;
    hide Handshake;
    hide Side;
    hide Half;
    TransmitServiceInv(s, j);
    ServiceSide(s.a, s.ab, s.b, j);
    SameSide(s.b, s.ba, s.a, Emptied(s.a, j));
  }

  // ----- An I-frame is transmitted -----

  lemma FrameSide(x: Station, xy: seq<Packet>, y: Station, p: Packet)
    requires Local(x) && Side(x, xy, y) && p.tag == TagI(Next(x), x.Got())
    requires x.conf <= y.Got() && |x.sent| <= x.conf + 7 && Next(x) < |x.sent|
    ensures Side(Advanced(x), xy + [p], y) && Half(Advanced(x), xy + [p], y) + 1 == Half(x, xy, y)
  {
    hide Seq;
    hide Succ;
    hide RrControl;
    hide Local;
    hide IndexFrom;
    hide Told;
    var x' := Advanced(x);
    assert x.Ctl().nextNs <= 7 by { LocalCtl(x); }
    IndexFromSeq(x.conf, x.Ctl().nextNs);
    SeqSucc(Next(x));
    IndexFromSeq(x.conf, x'.Ctl().nextNs);
    assert Next(x') == Next(x) + 1;
    ToldAppend(x, xy, y, p);
    ToldSame(x, x', xy + [p], y);
    forall i: nat | y.Got() <= i < Next(x') ensures Carried(xy + [p], i) {
      if i == Next(x) {
        assert (xy + [p])[|xy|] == p;
      } else {
        assert Carried(xy, i);
        CarriedAppend(xy, p, i);
      }
    }
  }

  lemma ToldSame(x: Station, x': Station, xy: seq<Packet>, y: Station)
    requires |x.slotAck| == |x.fd.sq.slots| && x'.fd.sq == x.fd.sq && x'.slotAck == x.slotAck && x'.Got() == x.Got()
    ensures Told(x, xy, y) <==> Told(x', xy, y)
  {}

  lemma LocalCtl(x: Station)
    requires Local(x)
    ensures x.Ctl().Valid()
  {
    hide SlotOk;
  }

  lemma FrameMoves(s: Session)
    requires Flowing(s) && FirstOccupied(s.a.fd.sq.slots, 0) == None && Eligible(s.a.fd, 0)
    ensures Possible(s, Transmit)
    ensures var r := StepA(s, Transmit);
      Flowing(r) && r.a.sent == s.a.sent && r.b.sent == s.b.sent && WorkLeft(r) < WorkLeft(s)
  {
    hide Local;
    hide Acks;
    hide Handshake;
    hide Side;
    hide Half;
    hide Agrees;
    hide Seq;
    hide Succ;
    hide Eligible;
    hide NextIFrame;
    hide DataPacket;
    hide FirstOccupied;
    var x := s.a;
    WindowBound(x.fd.iq.slots, Addr(x), x.conf, |x.sent|, x.sent);
    NextIFrameBytes(x);
    var p := Packet(NextIFrame(x.fd, 0), TagI(Next(x), x.Got()));
    TransmitIInv(s);
    FrameSide(x, s.ab, s.b, p);
    SameSide(s.b, s.ba, x, Advanced(x));
    assert FirstEligible(x.fd, 0) == Some(0);
    assert x.fd.peers[0 := Advanced(x).fd.peers[0]] == Advanced(x).fd.peers;
    assert StepA(s, Transmit) == s.(a := Advanced(x), ab := s.ab + [p]);
  }

  // ----- A frame is taken -----

  /** The receiver's own frames: only the lower end of the window has moved. */
  lemma AckedNext(x: Station, x': Station, y: Station)
    requires |x.fd.peers| == 1 == |x'.fd.peers| && x.Ctl().nextNs <= 7 && x'.Ctl().nextNs == x.Ctl().nextNs
    requires x.conf <= x'.conf <= y.Got() <= Next(x) <= |x.sent| <= x.conf + 7
    ensures Next(x') == Next(x)
  {
    hide Seq;
    hide IndexFrom;
    IndexFromSeq(x.conf, x.Ctl().nextNs);
    IndexInWindow(x'.conf, Next(x));
  }

  /** The sender's side once the packet in front has been taken. */
  lemma PoppedSide(y: Station, yx: seq<Packet>, x: Station, x': Station)
    requires |y.fd.peers| == 1 && |y.slotAck| == |y.fd.sq.slots| && Side(y, yx, x) && yx != []
    requires x.conf <= x'.conf <= y.Got() && x'.conf == AckOf(yx[0])
    requires x'.Got() == if yx[0].tag.TagI? then x.Got() + 1 else x.Got()
    requires yx[0].tag.TagI? ==> yx[0].tag.idx == x.Got()
    ensures Side(y, yx[1..], x')
    ensures Half(y, yx[1..], x') + (if yx[0].tag.TagI? then 3 else 1) == Half(y, yx, x)
  {
    hide Seq;
    hide RrControl;
    hide IndexFrom;
    assert !U(yx[0]);
    forall i: nat | x'.Got() <= i < Next(y) ensures Carried(yx[1..], i) {
      assert Carried(yx, i);
      var q :| 0 <= q < |yx| && yx[q].tag.TagI? && yx[q].tag.idx == i;
      assert yx[1..][q - 1] == yx[q];
    }
    if x'.conf != y.Got()
      && !(exists j :: 0 <= j < |y.fd.sq.slots| && PendingS(y.fd.sq.slots[j]) && y.slotAck[j] == y.Got())
    {
      var q :| 0 <= q < |yx| && !U(yx[q]) && AckOf(yx[q]) == y.Got();
      assert yx[1..][q - 1] == yx[q];
    }
  }

  lemma NextInFront(y: Station, yx: seq<Packet>, x: Station)
    requires |y.fd.peers| == 1 && InSequence(y, yx, x) && yx != [] && yx[0].tag.TagI?
    ensures yx[0].tag.idx == x.Got()
  {
    hide IndexFrom;
    assert Carried(yx, x.Got());
  }

  /** Taking an RR-frame. */
  lemma AckMoves(s: Session)
    requires Flowing(s) && s.ba != [] && s.ba[0].tag.TagS?
    ensures Possible(s, Receive)
    ensures var r := StepA(s, Receive);
      Flowing(r) && r.a.sent == s.a.sent && r.b.sent == s.b.sent && WorkLeft(r) < WorkLeft(s)
  {
    hide Local;
    hide Data;
    hide Acks;
    hide Handshake;
    hide Seq;
    hide RrControl;
    hide DoReceive;
    hide FindFree;
    hide Confirm;
    hide SType;
    hide IsI;
    hide InSequence;
    hide Told;
    hide Half;
    var x, y, p := s.a, s.b, s.ba[0];
    BothInv(s);
    ControlRoundTrip(0, Seq(p.tag.ack));
    ReceiveS(x, s.ab, y, s.ba);
    AckedBoth(x, s.ab, y, s.ba);
    AckBounds(x, s.ab, y, s.ba);
    GotBounds(y, s.ba, x, s.ab);
    var x' := DoReceive(x, p);
    var r := StepA(s, Receive);
    assert r == Session(x', y, s.ab, s.ba[1..], false);
    BothInv(r);
    PoppedSide(y, s.ba, x, x');
    ForgottenSide(x, x', s.ab, y);
  }

  /** The receiver's side: an acknowledgement taken, no answer given. */
  lemma ForgottenSide(x: Station, x': Station, xy: seq<Packet>, y: Station)
    requires Local(x) && Side(x, xy, y) && |x'.fd.peers| == 1
    requires x'.fd.sq == x.fd.sq && x'.sent == x.sent && x'.Got() == x.Got()
    requires x.conf <= x'.conf <= y.Got() && |x.sent| <= x.conf + 7
    requires x'.Ctl().nextNs == x.Ctl().nextNs && Addr(x') == Addr(x)
    requires |x'.slotAck| == |x.slotAck|
    requires forall j :: 0 <= j < |x.slotAck| && x.fd.sq.slots[j].Some? ==> x'.slotAck[j] == x.slotAck[j]
    ensures Side(x', xy, y) && Half(x', xy, y) == Half(x, xy, y)
  {
    hide Seq;
    hide RrControl;
    hide IndexFrom;
    hide Local;
    LocalCtl(x);
    AckedNext(x, x', y);
  }

  /** Taking an I-frame: it is the next one, and its answer finds a slot. */
  lemma AcceptMoves(s: Session)
    requires Flowing(s) && s.ba != [] && s.ba[0].tag.TagI? && Moves(s, Receive)
    ensures var r := StepA(s, Receive);
      Flowing(r) && r.a.sent == s.a.sent && r.b.sent == s.b.sent && WorkLeft(r) < WorkLeft(s)
  {
    hide Local;
    hide Data;
    hide Acks;
    hide Handshake;
    hide Seq;
    hide Succ;
    hide RrControl;
    hide DoReceive;
    hide FindFree;
    hide Confirm;
    hide IsI;
    hide InSequence;
    hide Told;
    hide Half;
    hide AnswersInOrder;
    hide Rotated;
    var x, y, p := s.a, s.b, s.ba[0];
    BothInv(s);
    NextInFront(y, s.ba, x);
    HeadData(x, s.ab, y, s.ba);
    ReadI(x, y, p);
    ReceiveI(x, s.ab, y, s.ba);
    AckedBoth(x, s.ab, y, s.ba);
    AckBounds(x, s.ab, y, s.ba);
    GotBounds(y, s.ba, x, s.ab);
    FindFreeComplete(x.fd.sq.slots, x.fd.sq.lookup, 0);
    var x' := DoReceive(x, p);
    var r := StepA(s, Receive);
    assert r == Session(x', y, s.ab, s.ba[1..], false);
    BothInv(r);
    PoppedSide(y, s.ba, x, x');
    var j := FindFree(x.fd.sq.slots, x.fd.sq.lookup, 0).value;
    AnsweredSide(x, x', s.ab, y, j);
  }

  /** The receiver's side: an acknowledgement taken and an answer put into slot j. */
  lemma AnsweredSide(x: Station, x': Station, xy: seq<Packet>, y: Station, j: nat)
    requires Local(x) && Side(x, xy, y) && |x'.fd.peers| == 1 && x'.sent == x.sent && x'.Got() == x.Got() + 1
    requires x.conf <= x'.conf <= y.Got() && |x.sent| <= x.conf + 7
    requires x'.Ctl().nextNs == x.Ctl().nextNs && Addr(x') == Addr(x)
    requires j < |x.fd.sq.slots| && x.fd.sq.slots[j].None?
    requires x'.fd.sq.slots == x.fd.sq.slots[j := Some(ServiceFrame(SFrame, Addr(x), RrControl(Seq(x'.Got()))))]
    requires x'.slotAck == x.slotAck[j := x'.Got()]
    ensures Side(x', xy, y) && Half(x', xy, y) == Half(x, xy, y) + 2
  {
    hide Seq;
    hide RrControl;
    hide IndexFrom;
    hide Local;
    LocalCtl(x);
    AckedNext(x, x', y);
    OccupiedPut(x.fd.sq.slots, j, ServiceFrame(SFrame, Addr(x), RrControl(Seq(x'.Got()))));
    assert PendingS(x'.fd.sq.slots[j]) && x'.slotAck[j] == x'.Got();
  }

  // ----- Every interleaving -----

  lemma MoveLowers(s: Session, act: Action)
    requires Flowing(s) && Moves(s, act)
    ensures var r := StepA(s, act);
      Flowing(r) && r.a.sent == s.a.sent && r.b.sent == s.b.sent && WorkLeft(r) < WorkLeft(s)
  {
    hide Inv;
    hide InSequence;
    hide Told;
    hide WorkLeft;
    hide StepA;
    hide Eligible;
    hide AnswersInOrder;
    hide IsI;
    hide HasFree;
    if act.Transmit? {
      match FirstOccupied(s.a.fd.sq.slots, 0)
      case Some(j) => ServiceMoves(s, j);
      case None =>
        assert FirstEligible(s.a.fd, 0) == Some(0);
        FrameMoves(s);
    } else {
      assert !U(s.ba[0]);
      if s.ba[0].tag.TagI? {
        AcceptMoves(s);
      } else {
        AckMoves(s);
      }
    }
  }

  /** Any sequence of moves of either station; None if one of them was not a move. */
  function MoveRun(s: Session, acts: seq<(bool, Action)>): Option<Session> {
    if acts == [] then Some(s)
    else
      var n := |acts| - 1;
      var (first, act) := acts[n];
      match MoveRun(s, acts[..n])
      case None => None
      case Some(r) => if Moves(if first then r else Flip(r), act) then Some(Step(r, first, act)) else None
  }

  lemma FlipFlowing(s: Session)
    ensures Flowing(Flip(s)) <==> Flowing(s)
    ensures |s.a.fd.peers| == 1 == |s.b.fd.peers| ==> WorkLeft(Flip(s)) == WorkLeft(s)
  {
    hide Inv;
    hide Side;
    hide Half;
    FlipInv(s);
  }

  /** Each move takes at least one from the work that is left. */
  lemma {:induction false} RunsEnd(s: Session, acts: seq<(bool, Action)>)
    requires Flowing(s) && MoveRun(s, acts).Some?
    ensures var r := MoveRun(s, acts).value;
      Flowing(r) && r.a.sent == s.a.sent && r.b.sent == s.b.sent && |acts| + WorkLeft(r) <= WorkLeft(s)
  {
    hide Flowing;
    hide WorkLeft;
    hide Moves;
    hide StepA;
    if acts != [] {
      var n := |acts| - 1;
      RunsEnd(s, acts[..n]);
      var r := MoveRun(s, acts[..n]).value;
      FlipFlowing(r);
      OnePeerEach(r);
      var t := if acts[n].0 then r else Flip(r);
      MoveLowers(t, acts[n].1);
      FlipFlowing(StepA(t, acts[n].1));
      OnePeerEach(StepA(t, acts[n].1));
    }
  }

  lemma OnePeerEach(s: Session)
    requires Flowing(s)
    ensures |s.a.fd.peers| == 1 == |s.b.fd.peers|
  {
    hide Data;
    hide Acks;
    hide Handshake;
    hide SlotOk;
    hide Side;
  }

  /** Neither station has a move. */
  ghost predicate AtRest(s: Session) {
    forall act: Action :: !Moves(s, act) && !Moves(Flip(s), act)
  }

  /** A station that is sent something can take it, or has something to transmit first. */
  lemma TakesOrSends(s: Session)
    requires Flowing(s) && s.ba != []
    ensures Moves(s, Receive) || Moves(s, Transmit)
  {
    hide Local;
    hide Data;
    hide Acks;
    hide Handshake;
    hide InSequence;
    hide Told;
    hide IsI;
    hide Eligible;
    hide NextIFrame;
    hide RrControl;
    hide Seq;
    var x, p := s.a, s.ba[0];
    PacketLong(s);
    if NothingWaiting(x) {
      EmptyInOrder(x.fd);
      assert x.fd.sq.slots[0].None?;
    } else {
      assert FirstOccupied(x.fd.sq.slots, 0).Some?;
    }
  }

  lemma RestSettled(s: Session)
    requires Flowing(s) && s.ab == [] && Generate(s.a.fd).1.None?
    ensures |s.a.fd.peers| == 1 && NothingWaiting(s.a) && s.b.Got() == |s.a.sent|
    ensures s.a.Ctl().nextNs == s.a.Ctl().lastNs && s.b.conf == s.a.Got()
  {
    hide Acks;
    hide Handshake;
    hide SlotOk;
    hide Seq;
    hide Agrees;
    hide IndexFrom;
    var x := s.a;
    assert FirstOccupied(x.fd.sq.slots, 0).None?;
    assert FirstEligible(x.fd, 0).None?;
    assert !Eligible(x.fd, 0);
    WindowBound(x.fd.iq.slots, Addr(x), x.conf, |x.sent|, x.sent);
    IndexFromSeq(x.conf, x.Ctl().nextNs);
    SeqEqual(Next(x), |x.sent|);
    FindAgrees(x.fd.iq.slots, Addr(x), x.conf, |x.sent|, x.sent, x.Ctl().nextNs);
    assert s.b.Got() < Next(x) ==> Carried(s.ab, s.b.Got());
  }

  /** At rest nothing is left to do: everything is delivered and acknowledged, both ways. */
  lemma RestIsSettled(s: Session)
    requires Flowing(s) && AtRest(s)
    ensures s.ab == s.ba == [] && |s.a.fd.peers| == |s.b.fd.peers| == 1
    ensures Settled(s.a, s.b) && Settled(s.b, s.a)
  {
    hide Flowing;
    hide Moves;
    hide Settled;
    FlipFlowing(s);
    assert !Moves(s, Receive) && !Moves(s, Transmit);
    if s.ba != [] {
      TakesOrSends(s);
    }
    if s.ab != [] {
      TakesOrSends(Flip(s));
    }
    IdleNow(s);
    IdleNow(Flip(s));
    RestSettled(s);
    RestSettled(Flip(s));
    BothSettled(s);
    BothSettled(Flip(s));
  }

  lemma IdleNow(s: Session)
    requires Flowing(s) && !Moves(s, Transmit)
    ensures Generate(s.a.fd).1.None?
  {
    hide Data;
    hide Acks;
    hide Handshake;
    hide SlotOk;
    hide Side;
    hide Generate;
  }

  lemma BothSettled(s: Session)
    requires Flowing(s) && NothingWaiting(s.a) && s.b.Got() == |s.a.sent| && s.a.conf == s.b.Got()
    requires s.a.Ctl().nextNs == s.a.Ctl().lastNs
    ensures Settled(s.a, s.b)
  {
    hide Seq;
    hide Acks;
    hide Handshake;
    hide SlotOk;
    hide IndexFrom;
    hide Side;
    var x := s.a;
    forall j | 0 <= j < |x.fd.iq.slots| ensures !Mine(x.fd.iq.slots[j], Addr(x)) {
      if Mine(x.fd.iq.slots[j], Addr(x)) {
        IndexFromSeq(x.conf, Ns(x.fd.iq.slots[j]));
      }
    }
  }

  /**
   Every interleaving of moves has at most as many as there was work, and where it cannot
   go on everything accepted at the start is delivered and acknowledged, both ways.
   */
  lemma EveryRunSettles(s: Session, acts: seq<(bool, Action)>)
    requires Flowing(s) && MoveRun(s, acts).Some?
    ensures |s.a.fd.peers| == 1 == |s.b.fd.peers| && |acts| <= WorkLeft(s)
    ensures var r := MoveRun(s, acts).value;
      AtRest(r) ==>
        && r.a.sent == s.a.sent && r.b.sent == s.b.sent && r.ab == r.ba == []
        && |r.a.fd.peers| == |r.b.fd.peers| == 1 && Settled(r.a, r.b) && Settled(r.b, r.a)
  {
    hide Flowing;
    hide WorkLeft;
    hide MoveRun;
    hide AtRest;
    hide Settled;
    OnePeerEach(s);
    RunsEnd(s, acts);
    var r := MoveRun(s, acts).value;
    if AtRest(r) {
      RestIsSettled(r);
    }
  }

  /** It may start between turns: after a connection, and any sends. */
  lemma InTurnFlows(s: Session)
    requires InTurn(s)
    ensures Flowing(s)
  {
    hide Local;
    hide Acks;
    hide Handshake;
    hide Agrees;
    hide Seq;
    hide RrControl;
    hide IndexFrom;
    BothInv(s);
    GotBounds(s.a, s.ab, s.b, s.ba);
    GotBounds(s.b, s.ba, s.a, s.ab);
    IndexInWindow(s.a.conf, s.b.Got());
    IndexInWindow(s.b.conf, s.a.Got());
  }
}
