/**
 On a lossless link, with no timer firing, taking turns to transmit and receive comes to
 rest with everything delivered and acknowledged.
 */
module Quiescence {
  import opened Base
  import opened SeqNum
  import opened FdDefs
  import opened FrameQueue
  import opened FdSpec
  import opened Window
  import opened Session
  import opened SessionProof
  import opened SessionReceive
  import opened SessionTheorems

  /** No service frame waits at x. */
  ghost predicate NothingWaiting(x: Station) {
    forall j :: 0 <= j < |x.fd.sq.slots| ==> x.fd.sq.slots[j].None?
  }

  /** At most one service frame waits at x, and it acknowledges all that x has got. */
  ghost predicate OneWaiting(x: Station)
    requires |x.slotAck| == |x.fd.sq.slots|
  {
    && (forall j :: 0 <= j < |x.fd.sq.slots| && x.fd.sq.slots[j].Some? ==>
          && PendingS(x.fd.sq.slots[j]) && x.slotAck[j] == x.Got()
          && x.fd.sq.slots[j].value.header.control == RrControl(Seq(x.Got())))
    && (forall j, k :: 0 <= j < k < |x.fd.sq.slots| ==> x.fd.sq.slots[j].None? || x.fd.sq.slots[k].None?)
  }

  /** Nothing is under way, every frame sent so far has arrived, and it is the first station's turn. */
  ghost predicate InTurn(s: Session) {
    && Inv(s) && !s.over && s.ab == [] && s.ba == []
    && s.a.State() == Connected && s.b.State() == Connected
    && s.a.Ctl().nextNs == Seq(s.b.Got()) && s.b.Ctl().nextNs == Seq(s.a.Got())
    && NothingWaiting(s.b) && OneWaiting(s.a)
    && s.a.conf == s.b.Got() && (NothingWaiting(s.a) ==> s.b.conf == s.a.Got())
  }

  /** Whether the first station has anything to transmit. */
  predicate Idle(s: Session) {
    Generate(s.a.fd).1.None?
  }

  function Pending(x: Station): nat {
    if FirstOccupied(x.fd.sq.slots, 0).Some? then 1 else 0
  }

  function Undelivered(x: Station, y: Station): nat {
    if |x.sent| > y.Got() then |x.sent| - y.Got() else 0
  }

  /** Every I-frame still to go costs two transmissions, one each way; every waiting acknowledgement one. */
  function Work(s: Session): nat {
    2 * Undelivered(s.a, s.b) + 2 * Undelivered(s.b, s.a) + Pending(s.a) + Pending(s.b)
  }

  /** A turn of the first station: it transmits one frame, if it has one, and the other takes it. */
  ghost function Turn(s: Session): Session
    requires InTurn(s)
  {
    hide Inv;
    TurnEnabled(s);
    var t := StepA(s, Transmit);
    if t.ab == [] then t else Flip(StepA(Flip(t), Receive))
  }

  lemma TurnEnabled(s: Session)
    requires InTurn(s)
    ensures Enabled(s, Transmit)
    ensures var t := StepA(s, Transmit);
      t.ab == [] || (|t.ab| == 1 && Enabled(Flip(t), Receive) && Inv(t))
    ensures Idle(s) ==> StepA(s, Transmit) == s
  {
    hide Data;
    hide Acks;
    hide Handshake;
    hide SlotOk;
    hide Generate;
    TransmitInv(s);
    GenerateValid(s.a.fd);
    GenerateAgain(s.a.fd);
    EmptyInOrder(s.b.fd);
    var t := StepA(s, Transmit);
    if t.ab != [] {
      assert t.b == s.b && |t.ab[0].bytes| >= 2;
    }
  }

  lemma EmptyInOrder(fd: Fd)
    requires |fd.peers| == 1 && forall j :: 0 <= j < |fd.sq.slots| ==> fd.sq.slots[j].None?
    ensures forall bytes: seq<byte> :: |bytes| >= 2 ==> AnswersInOrder(fd, bytes)
  {
    hide FindFree;
  }

  // ----- A turn, case by case -----

  lemma IdleDone(s: Session)
    requires InTurn(s) && Idle(s)
    ensures NothingWaiting(s.a) && |s.a.sent| == s.b.Got() && InTurn(Flip(s)) && Turn(s) == s && Pending(s.a) == 0
  {
    hide Acks;
    hide Handshake;
    hide SlotOk;
    hide Seq;
    hide Agrees;
    TurnEnabled(s);
    var x := s.a;
    assert FirstOccupied(x.fd.sq.slots, 0).None?;
    assert FirstEligible(x.fd, 0).None?;
    assert !Eligible(x.fd, 0);
    WindowBound(x.fd.iq.slots, Addr(x), x.conf, |x.sent|, x.sent);
    SeqEqual(s.b.Got(), |x.sent|);
    FindAgrees(x.fd.iq.slots, Addr(x), x.conf, |x.sent|, x.sent, x.Ctl().nextNs);
    IndexInWindow(x.conf, x.conf);
    FlipInv(s);
  }

  /** The second station after taking an acknowledgement. */
  lemma TookAck(y: Station, p: Packet, x: Station, xy: seq<Packet>, yx: seq<Packet>)
    requires Both(y, yx, x, xy) && xy == [p] && p.tag == TagS(x.Got()) && p.bytes == [Addr(x), RrControl(Seq(x.Got()))]
    requires x.State() == Connected && y.State() == Connected && NothingWaiting(y)
    ensures var y' := DoReceive(y, p);
      && Both(y', yx, x, []) && y'.State() == Connected && y'.conf == x.Got() && y'.sent == y.sent
      && y'.fd.delivered == y.fd.delivered && y'.Ctl().nextNs == y.Ctl().nextNs && NothingWaiting(y')
  {
    hide Local;
    hide Data;
    hide Acks;
    hide Handshake;
    hide Seq;
    hide RrControl;
    hide RejControl;
    hide DoReceive;
    hide SType;
    hide FindFree;
    hide Confirm;
    ControlRoundTrip(0, Seq(x.Got()));
    ReceiveS(y, yx, x, xy);
    AckedBoth(y, yx, x, xy);
    assert xy[1..] == [];
  }

  /** The second station after taking the I-frame it expects. */
  lemma TookFrame(y: Station, p: Packet, x: Station, xy: seq<Packet>, yx: seq<Packet>)
    requires Both(y, yx, x, xy) && xy == [p] && p.tag == TagI(y.Got(), x.Got())
    requires x.State() == Connected && y.State() == Connected && NothingWaiting(y)
    ensures var y' := DoReceive(y, p);
      && |y'.fd.sq.slots| == |y.fd.sq.slots|
      && Both(y', yx, x, []) && y'.State() == Connected && y'.conf == x.Got() && y'.sent == y.sent
      && y'.Got() == y.Got() + 1 && y'.Ctl().nextNs == y.Ctl().nextNs && OneWaiting(y') && !NothingWaiting(y')
    // The answer sits in the slot the search found, and the next search starts behind it.
    ensures var j := FindFree(y.fd.sq.slots, y.fd.sq.lookup, 0);
      && j.Some? && DoReceive(y, p).fd.sq.slots[j.value].Some?
      && DoReceive(y, p).fd.sq.lookup == Rotated(j.value, 1, |y.fd.sq.slots|)
  {
    hide Local;
    hide Data;
    hide Acks;
    hide Handshake;
    hide Seq;
    hide Succ;
    hide RrControl;
    hide RejControl;
    hide DoReceive;
    hide FindFree;
    hide Confirm;
    hide Rotated;
    hide AnswersInOrder;
    EmptyInOrder(y.fd);
    HeadData(y, yx, x, xy);
    ReceiveI(y, yx, x, xy);
    AckedBoth(y, yx, x, xy);
    FreeWhenEmpty(y);
    assert xy[1..] == [];
    var j := FindFree(y.fd.sq.slots, y.fd.sq.lookup, 0).value;
    assert DoReceive(y, p).fd.sq.slots[j].Some?;
  }

  lemma FreeWhenEmpty(y: Station)
    requires Local(y) && NothingWaiting(y)
    ensures FindFree(y.fd.sq.slots, y.fd.sq.lookup, 0).Some?
  {
    hide SlotOk;
    assert y.fd.sq.slots[Rotated(y.fd.sq.lookup, 0, |y.fd.sq.slots|)].None?;
  }

  /** A turn that sends the waiting acknowledgement. */
  lemma AckTurn(s: Session, j: nat)
    requires InTurn(s) && FirstOccupied(s.a.fd.sq.slots, 0) == Some(j)
    ensures InTurn(Flip(Turn(s))) && Work(Turn(s)) < Work(s)
    ensures NothingWaiting(Turn(s).a) && NothingWaiting(Turn(s).b) && Turn(s).a.fd.sq.lookup == s.a.fd.sq.lookup
    ensures Turn(s).a.Got() == s.a.Got()
  {
    hide Local;
    hide Data;
    hide Acks;
    hide Handshake;
    hide Seq;
    hide RrControl;
    hide DoReceive;
    hide IsI;
    hide FirstOccupied;
    TurnEnabled(s);
    var x := Emptied(s.a, j);
    var p := Packet(s.a.fd.sq.slots[j].value.ToBytes(), TagS(s.a.Got()));
    ServiceBytes(s.a, j);
    var t := StepA(s, Transmit);
    assert t == s.(a := x, ab := [p]);
    BothInv(t);
    TookAck(s.b, p, x, [p], []);
    var y := DoReceive(s.b, p);
    var r := Session(x, y, [], [], false);
    BothInv(r);
    FlipInv(r);
    assert Turn(s) == r;
    FirstIsNone(x.fd.sq.slots, 0);
    FirstIsNone(y.fd.sq.slots, 0);
    FirstIsNone(s.b.fd.sq.slots, 0);
  }

  /** A connected station with nothing waiting sends the frame its counter denotes. */
  lemma NextFrameGoes(s: Session, n: nat)
    requires Inv(s) && !s.over && s.ab == [] && s.a.State() == Connected
    requires FirstOccupied(s.a.fd.sq.slots, 0) == None
    requires s.a.Ctl().nextNs == Seq(n) && s.a.conf <= n < |s.a.sent|
    ensures Enabled(s, Transmit)
    ensures var t := StepA(s, Transmit);
      t.a == Advanced(s.a) && |t.ab| == 1 && t.ab[0].tag == TagI(n, s.a.Got()) && t == s.(a := t.a, ab := t.ab)
  {
    hide Local;
    hide Data;
    hide Acks;
    hide Handshake;
    hide Seq;
    hide Succ;
    hide IControl;
    hide IndexFrom;
    hide NextIFrame;
    hide Eligible;
    hide FirstOccupied;
    NextIsEligible(s, n);
    var x := s.a;
    assert FirstEligible(x.fd, 0) == Some(0);
    assert x.fd.peers[0 := Advanced(x).fd.peers[0]] == Advanced(x).fd.peers;
  }

  lemma NextIsEligible(s: Session, n: nat)
    requires Inv(s) && s.a.State() == Connected
    requires s.a.Ctl().nextNs == Seq(n) && s.a.conf <= n < |s.a.sent|
    ensures Eligible(s.a.fd, 0) && IndexFrom(s.a.conf, Seq(n)) == n
  {
    hide Local;
    hide Acks;
    hide Handshake;
    hide Agrees;
    hide Seq;
    hide Succ;
    hide IndexFrom;
    var x := s.a;
    WindowBound(x.fd.iq.slots, Addr(x), x.conf, |x.sent|, x.sent);
    SeqEqual(n, |x.sent|);
    IndexInWindow(x.conf, n);
    FindAgrees(x.fd.iq.slots, Addr(x), x.conf, |x.sent|, x.sent, Seq(n));
  }

  /** A turn that sends the next I-frame. */
  lemma FrameTurn(s: Session)
    requires InTurn(s) && FirstOccupied(s.a.fd.sq.slots, 0) == None && s.b.Got() < |s.a.sent|
    ensures InTurn(Flip(Turn(s))) && Work(Turn(s)) < Work(s)
    ensures !NothingWaiting(Turn(s).b) && Turn(s).b.Got() == s.b.Got() + 1
    ensures var j := FindFree(s.b.fd.sq.slots, s.b.fd.sq.lookup, 0);
      j.Some? && Turn(s).b.fd.sq.lookup == Rotated(j.value, 1, |s.b.fd.sq.slots|)
  {
    hide Local;
    hide Data;
    hide Acks;
    hide Handshake;
    hide Seq;
    hide Succ;
    hide RrControl;
    hide IControl;
    hide DoReceive;
    hide IsI;
    hide FirstOccupied;
    hide FindFree;
    hide Rotated;
    TurnEnabled(s);
    NextFrameGoes(s, s.b.Got());
    var x, t := Advanced(s.a), StepA(s, Transmit);
    var p := t.ab[0];
    assert t.ab == [p];
    BothInv(t);
    TookFrame(s.b, p, x, [p], []);
    var y := DoReceive(s.b, p);
    var r := Session(x, y, [], [], false);
    BothInv(r);
    FlipInv(r);
    assert Turn(s) == r;
    SeqSucc(s.b.Got());
    FirstIsNone(s.b.fd.sq.slots, 0);
  }

  lemma TurnKeeps(s: Session)
    requires InTurn(s)
    ensures InTurn(Flip(Turn(s)))
    ensures Idle(s) ==> Turn(s) == s
    ensures !Idle(s) ==> Work(Turn(s)) < Work(s)
  {
    hide InTurn;
    hide Turn;
    hide Eligible;
    if Idle(s) {
      IdleDone(s);
    } else {
      match FirstOccupied(s.a.fd.sq.slots, 0)
      case Some(j) => AckTurn(s, j);
      case None =>
        MoreToSend(s);
        FrameTurn(s);
    }
  }

  lemma MoreToSend(s: Session)
    requires InTurn(s) && !Idle(s) && FirstOccupied(s.a.fd.sq.slots, 0) == None
    ensures s.b.Got() < |s.a.sent|
  {
    hide Local;
    hide Acks;
    hide Handshake;
    hide Agrees;
    hide Seq;
    hide NextIFrame;
    assert FirstEligible(s.a.fd, 0) == Some(0);
  }

  // ----- Until both are idle -----

  /** Both stations take turns until neither has anything to transmit. */
  ghost function Exchange(s: Session): Session
    requires InTurn(s)
    decreases Work(s)
  {
    hide InTurn;
    hide Turn;
    TurnKeeps(s);
    var s1 := Flip(Turn(s));
    TurnKeeps(s1);
    var s2 := Flip(Turn(s1));
    FlipWork(s, s1, s2);
    if Idle(s) && Idle(s1) then s2 else Exchange(s2)
  }

  lemma FlipWork(s: Session, s1: Session, s2: Session)
    ensures Work(Flip(s)) == Work(s) && Work(Flip(s1)) == Work(s1) && Work(Flip(s2)) == Work(s2)
    ensures Flip(Flip(s)) == s && Flip(Flip(s1)) == s1 && Flip(Flip(s2)) == s2
  {}

  /** Everything x was asked to send has been delivered and acknowledged, and x's three counters are equal. */
  ghost predicate Settled(x: Station, y: Station)
    requires |x.fd.peers| == 1
  {
    && PayloadsOf(y.fd.delivered) == x.sent && x.conf == |x.sent|
    && x.Ctl().confirmNs == x.Ctl().nextNs == x.Ctl().lastNs
    && NothingWaiting(x)
    && forall j :: 0 <= j < |x.fd.iq.slots| ==> !Mine(x.fd.iq.slots[j], AddressOf(x.fd, 0))
  }

  /** The exchange ends, and when it does nothing is left to do. */
  lemma {:induction false} ExchangeSettles(s: Session)
    requires InTurn(s)
    ensures var r := Exchange(s);
      && r.a.sent == s.a.sent && r.b.sent == s.b.sent && r.ab == r.ba == []
      && |r.a.fd.peers| == 1 && |r.b.fd.peers| == 1 && Settled(r.a, r.b) && Settled(r.b, r.a)
    decreases Work(s)
  {
    hide InTurn;
    hide Turn;
    hide Settled;
    TurnKeeps(s);
    TurnSent(s);
    var s1 := Flip(Turn(s));
    TurnKeeps(s1);
    TurnSent(s1);
    var s2 := Flip(Turn(s1));
    FlipWork(s, s1, s2);
    if Idle(s) && Idle(s1) {
      IdleDone(s);
      IdleDone(s1);
      BothIdle(s);
    } else {
      ExchangeSettles(s2);
    }
  }

  lemma TurnSent(s: Session)
    requires InTurn(s)
    ensures Turn(s).a.sent == s.a.sent && Turn(s).b.sent == s.b.sent
  {
    hide Inv;
    hide Generate;
    hide OnFrame;
    TurnEnabled(s);
  }

  lemma BothIdle(s: Session)
    requires InTurn(s) && Idle(s) && InTurn(Flip(s)) && Idle(Flip(s))
    ensures |s.a.fd.peers| == 1 && |s.b.fd.peers| == 1 && Settled(s.a, s.b) && Settled(s.b, s.a)
    ensures s.ab == s.ba == []
  {
    IdleDone(s);
    IdleDone(Flip(s));
    SideSettled(s);
    SideSettled(Flip(s));
  }

  lemma SideSettled(s: Session)
    requires InTurn(s) && |s.a.sent| == s.b.Got() && NothingWaiting(s.a)
    ensures |s.a.fd.peers| == 1 && Settled(s.a, s.b)
  {
    hide Seq;
    hide Acks;
    hide Handshake;
    hide SlotOk;
    hide IndexFrom;
    var x := s.a;
    forall j | 0 <= j < |x.fd.iq.slots| ensures !Mine(x.fd.iq.slots[j], Addr(x)) {
      if Mine(x.fd.iq.slots[j], Addr(x)) {
        IndexFromSeq(x.conf, Ns(x.fd.iq.slots[j]));
      }
    }
  }

  // ----- Where an exchange may start -----

  lemma InitInTurn(s: Session)
    requires Init(s) && |s.a.fd.peers| == 1 && s.a.State() == Connected
    ensures InTurn(s)
  {
    InitInv(s);
    hide Inv;
    assert Seq(0) == 0;
  }

  /** Either user may hand over packets before the exchange begins. */
  lemma SendInTurn(s: Session, first: bool, address: byte, data: seq<byte>)
    requires InTurn(s) && Enabled(if first then s else Flip(s), Send(address, data))
    ensures InTurn(Step(s, first, Send(address, data)))
  {
    hide Inv;
    hide Seq;
    hide Enabled;
    hide DoSend;
    FlipInv(s);
    var t := if first then s else Flip(s);
    SendInv(t, address, data);
    FlipInv(StepA(t, Send(address, data)));
    SendKeepsTurn(t, address, data);
  }

  lemma SendKeepsTurn(s: Session, address: byte, data: seq<byte>)
    requires Inv(s) && Enabled(s, Send(address, data))
    ensures var x, y := s.a, DoSend(s.a, address, data);
      && y.State() == Connected && y.Ctl().nextNs == x.Ctl().nextNs && y.Ctl().nextNr == x.Ctl().nextNr
      && y.fd.sq == x.fd.sq && y.slotAck == x.slotAck && y.conf == x.conf && y.fd.delivered == x.fd.delivered
      && |y.fd.peers| == 1
  {
    hide Local;
    hide Data;
    hide Acks;
    hide Handshake;
    var j := SendCases(s.a, address, data);
  }
}
