/** The invariant of Session is kept when a packet is received. */
module SessionReceive {
  import opened Base
  import opened SeqNum
  import opened FdDefs
  import opened IQueueControl
  import opened FrameQueue
  import opened FdSpec
  import opened Window
  import opened Session
  import opened SessionProof

  // ----- Taking the first packet off the channel -----

  lemma PopData(y: Station, yx: seq<Packet>, x: Station)
    requires Local(x) && Local(y) && yx != [] && Data(y, yx, x)
    ensures Data(y, yx[1..], x)
  {
    hide Local;
    hide Seq;
    hide Agrees;
    hide DataPacket;
  }

  lemma PopAcks(y: Station, yx: seq<Packet>, x: Station)
    requires Local(x) && Local(y) && yx != [] && Acks(y, yx, x)
    ensures Acks(y, yx[1..], x)
  {
    hide Local;
    hide ServicePacket;
  }

  lemma PopHandshake(y: Station, yx: seq<Packet>, x: Station)
    requires Local(x) && Local(y) && yx != [] && Handshake(y, yx, x) && x.State() == Connected
    ensures Handshake(y, yx[1..], x)
  {
    hide Local;
    hide IsSabm;
    hide IsUa;
    hide SabmSlot;
    hide UaSlot;
    assert HasUa(yx[1..]) ==> HasUa(yx);
    assert HasU(yx[1..]) ==> HasU(yx);
  }

  // ----- Data and supervisory packets reach only connected stations, from connected stations -----

  lemma BothConnected(s: Session)
    requires Inv(s) && s.ba != [] && !U(s.ba[0])
    ensures s.a.State() == Connected && s.b.State() == Connected
  {
    assert s.ba[..0] == [];
  }

  /** Taking an acknowledgement that lies in the window moves the window and nothing else. */
  function Acked(x: Station, a: nat): Station
    requires x.fd.Valid() && |x.fd.peers| == 1
  {
    x.(fd := Confirm(x.fd, 0, Seq(a)), conf := a)
  }

  lemma AckedData(x: Station, xy: seq<Packet>, y: Station, a: nat)
    requires Local(x) && Local(y) && Data(x, xy, y) && x.conf <= a <= y.Got() && x.State() == Connected
    ensures var x' := Acked(x, a);
      && Local(x') && Data(x', xy, y) && Addr(x') == Addr(x) && x'.State() == Connected
      && x'.fd.sq == x.fd.sq && x'.fd.delivered == x.fd.delivered && x'.fd.connects == x.fd.connects
      && x'.fd.localAddr == x.fd.localAddr && x'.Ctl() == x.Ctl().(confirmNs := Seq(a))
      && x'.fd.peers == [x.fd.peers[0].(ctl := x'.Ctl())]
      && x'.fd.maxRetries == x.fd.maxRetries
  {
    hide Seq;
    hide Agrees;
    hide Local;
    hide SlotOk;
    var x' := Acked(x, a);
    WindowBound(x.fd.iq.slots, Addr(x), x.conf, |x.sent|, x.sent);
    FreeAllAgrees(x.fd.iq.slots, Addr(x), x.conf, a, |x.sent|, x.sent);
    ConfirmValid(x.fd, 0, Seq(a));
    SameButNext(x, x');
    assert forall p :: DataPacket(x, p) ==> DataPacket(x', p);
    hide DataPacket;
  }

  // ----- Queueing the answer -----

  /** x with a supervisory frame for what it has got, put into slot j. */
  function Queued(x: Station, j: nat, control: byte): Station
    requires |x.fd.peers| == 1 && j < |x.fd.sq.slots| == |x.slotAck|
  {
    x.(fd := x.fd.(sq := Queue(x.fd.sq.slots[j := Some(ServiceFrame(SFrame, Addr(x), control))],
                               Rotated(j, 1, |x.fd.sq.slots|)),
                   txAvailable := true),
       slotAck := x.slotAck[j := x.Got()])
  }

  lemma QueuedLocal(x: Station, j: nat, control: byte)
    requires Local(x) && x.State() == Connected && j < |x.fd.sq.slots| && x.fd.sq.slots[j].None?
    requires forall k :: j < k < |x.fd.sq.slots| && PendingS(x.fd.sq.slots[k]) ==> x.slotAck[k] == x.Got()
    requires control == RrControl(Seq(x.Got())) || control == RejControl(Seq(x.Got()))
    ensures Local(Queued(x, j, control)) && Addr(Queued(x, j, control)) == Addr(x)
  {
    hide Seq;
    hide RrControl;
    hide RejControl;
    hide Rotated;
    var x' := Queued(x, j, control);
    assert Addr(x') == Addr(x);
    forall k | 0 <= k < |x'.fd.sq.slots| ensures SlotOk(x', k) {
      assert SlotOk(x, k);
    }
    forall k | 0 <= k < |x.fd.sq.slots| && k != j && PendingS(x.fd.sq.slots[k]) ensures x.slotAck[k] <= x.Got() {
      assert SlotOk(x, k);
    }
  }

  lemma QueuedVoice(x: Station, xy: seq<Packet>, y: Station, j: nat, control: byte)
    requires Local(x) && Local(y) && x.State() == Connected && y.State() == Connected
    requires j < |x.fd.sq.slots| && x.fd.sq.slots[j].None? && y.conf <= x.Got()
    requires Acks(x, xy, y) && Handshake(x, xy, y)
    ensures Acks(Queued(x, j, control), xy, y) && Handshake(Queued(x, j, control), xy, y)
  {
    hide Local;
    hide ServicePacket;
    hide Rotated;
    var x' := Queued(x, j, control);
    assert Addr(x') == Addr(x);
    assert forall q :: ServicePacket(x, q) ==> ServicePacket(x', q) by { ServiceSame(x, x'); }
    hide IsSabm;
    hide IsUa;
    assert !SabmSlot(x'.fd.sq.slots[j]) && !UaSlot(x'.fd.sq.slots[j]);
  }

  lemma ServiceSame(x: Station, x': Station)
    requires |x.fd.peers| == 1 && |x'.fd.peers| == 1 && Addr(x') == Addr(x)
    ensures forall q :: ServicePacket(x, q) ==> ServicePacket(x', q)
  {}

  /** What is remembered for a slot without a supervisory frame does not matter. */
  lemma Forget(x: Station, j: nat, n: nat, xy: seq<Packet>, y: Station)
    requires Local(x) && Local(y) && j < |x.fd.sq.slots| && !PendingS(x.fd.sq.slots[j])
    ensures var x' := x.(slotAck := x.slotAck[j := n]);
      && Local(x')
      && (Data(x, xy, y) ==> Data(x', xy, y))
      && (Acks(x, xy, y) ==> Acks(x', xy, y))
      && (Handshake(x, xy, y) ==> Handshake(x', xy, y))
  {
    hide Seq;
    hide RrControl;
    hide RejControl;
    hide Local;
    hide Handshake;
    var x' := x.(slotAck := x.slotAck[j := n]);
    SameData(x, x', xy, y);
    hide Data;
    ForgetLocal(x, j, n);
    ForgetHandshake(x, j, n, xy, y);
  }

  lemma ForgetLocal(x: Station, j: nat, n: nat)
    requires Local(x) && j < |x.fd.sq.slots| && !PendingS(x.fd.sq.slots[j])
    ensures Local(x.(slotAck := x.slotAck[j := n]))
  {
    hide Seq;
    hide RrControl;
    hide RejControl;
    hide AddressToPeer;
    var x' := x.(slotAck := x.slotAck[j := n]);
    forall k | 0 <= k < |x.fd.sq.slots| ensures SlotOk(x', k) {
      assert SlotOk(x, k);
    }
  }

  lemma ForgetHandshake(x: Station, j: nat, n: nat, xy: seq<Packet>, y: Station)
    requires Local(x) && Local(y) && j < |x.slotAck|
    ensures Handshake(x, xy, y) ==> Handshake(x.(slotAck := x.slotAck[j := n]), xy, y)
  {
    hide Local;
    hide SabmSlot;
    hide UaSlot;
    hide PendingS;
    hide HasU;
    hide HasUa;
  }

  // ----- Delivering -----

  /** x after delivering a payload, before answering. */
  function Taken(x: Station, payload: seq<byte>): Station
    requires |x.fd.peers| == 1
  {
    var nr := Succ(x.Ctl().nextNr);
    var peer := x.fd.peers[0].(ctl := x.Ctl().(nextNr := nr), sentReject := false, sentNr := nr);
    x.(fd := x.fd.(peers := [peer], delivered := x.fd.delivered + [(UserAddress(x.fd, 0), payload)]))
  }

  lemma TakenLocal(x: Station, payload: seq<byte>)
    requires Local(x) && x.State() == Connected
    ensures Local(Taken(x, payload)) && Addr(Taken(x, payload)) == Addr(x)
    ensures Taken(x, payload).State() == Connected && Taken(x, payload).Got() == x.Got() + 1
  {
    hide Seq;
    hide Succ;
    hide RrControl;
    hide RejControl;
    SuccSmall(x.Ctl().nextNr);
    var x' := Taken(x, payload);
    assert Addr(x') == Addr(x);
    forall k | 0 <= k < |x.fd.sq.slots| ensures SlotOk(x', k) {
      assert SlotOk(x, k);
    }
  }

  lemma TakenVoice(x: Station, payload: seq<byte>, xy: seq<Packet>, y: Station)
    requires Local(x) && Local(y) && Local(Taken(x, payload)) && x.State() == Connected
    requires Addr(Taken(x, payload)) == Addr(x)
    ensures Data(x, xy, y) ==> Data(Taken(x, payload), xy, y)
    ensures Acks(x, xy, y) ==> Acks(Taken(x, payload), xy, y)
    ensures Handshake(x, xy, y) ==> Handshake(Taken(x, payload), xy, y)
  {
    hide Local;
    hide Succ;
    var x' := Taken(x, payload);
    SameData(x, x', xy, y);
    ServiceSame(x, x');
    hide Data;
    hide ServicePacket;
  }

  /** The expected frame arrives: what is delivered next is what was sent next. */
  lemma TakenData(y: Station, yx: seq<Packet>, x: Station, payload: seq<byte>)
    requires Local(x) && Local(y) && Data(y, yx, x) && yx != [] && yx[0].tag.TagI?
    requires yx[0].tag.idx == x.Got() && payload == y.sent[x.Got()]
    ensures Data(y, yx[1..], Taken(x, payload))
  {
    hide Local;
    hide Seq;
    hide Succ;
    hide Agrees;
    assert DataPacket(y, yx[0]);
    SeqSucc(x.Got());
    assert forall q :: 0 <= q < |yx| ==> DataPacket(y, yx[q]);
    hide DataPacket;
  }

  /** Acknowledgements to x and the handshake towards x depend on what x has confirmed and on its state. */
  lemma SameEarAcks(y: Station, yx: seq<Packet>, x: Station, x': Station)
    requires Local(x) && Local(y) && Local(x')
    requires x'.State() == x.State() && x'.conf == x.conf
    ensures Acks(y, yx, x) ==> Acks(y, yx, x')
    ensures Handshake(y, yx, x) ==> Handshake(y, yx, x')
  {
    hide Local;
    hide ServicePacket;
  }

  /** x with the answer queued if there is room for it. */
  function Answered(x: Station, control: byte): Station
    requires |x.fd.peers| == 1 && |x.fd.sq.slots| == |x.slotAck|
  {
    match FindFree(x.fd.sq.slots, x.fd.sq.lookup, 0)
    case None => x
    case Some(j) => Queued(x, j, control)
  }

  /** Everything the invariant says, seen from one side. */
  ghost predicate Both(x: Station, xy: seq<Packet>, y: Station, yx: seq<Packet>) {
    && Local(x) && Local(y) && Addr(x) == Addr(y)
    && Data(x, xy, y) && Data(y, yx, x)
    && Acks(x, xy, y) && Acks(y, yx, x)
    && Handshake(x, xy, y) && Handshake(y, yx, x)
  }

  lemma AnsweredBoth(x: Station, xy: seq<Packet>, y: Station, yx: seq<Packet>, control: byte)
    requires Both(x, xy, y, yx) && x.State() == Connected && y.State() == Connected && InOrder(x)
    requires control == RrControl(Seq(x.Got())) || control == RejControl(Seq(x.Got()))
    ensures Both(Answered(x, control), xy, y, yx)
  {
    hide Seq;
    hide RrControl;
    hide RejControl;
    hide Local;
    hide Data;
    hide Acks;
    hide Handshake;
    match FindFree(x.fd.sq.slots, x.fd.sq.lookup, 0)
    case None =>
    case Some(j) =>
      var x' := Queued(x, j, control);
      GotBounds(x, xy, y, yx);
      QueuedLocal(x, j, control);
      QueuedVoice(x, xy, y, j, control);
      SameData(x, x', xy, y);
      SameEar(y, yx, x, x');
  }

  /** Every supervisory frame behind the slot that x's next one takes acknowledges all that x has got. */
  predicate InOrder(x: Station)
    requires |x.slotAck| == |x.fd.sq.slots|
  {
    var free := FindFree(x.fd.sq.slots, x.fd.sq.lookup, 0);
    free.Some? ==>
      forall k :: free.value < k < |x.fd.sq.slots| && PendingS(x.fd.sq.slots[k]) ==> x.slotAck[k] == x.Got()
  }

  /** In the octets of a waiting supervisory frame its acknowledgement can be told from any up to seven ahead. */
  lemma WaitingAck(x: Station, xy: seq<Packet>, y: Station, k: nat, n: nat)
    requires Local(x) && |y.fd.peers| == 1 && Acks(x, xy, y) && k < |x.fd.sq.slots| && PendingS(x.fd.sq.slots[k])
    requires x.Got() <= n <= y.conf + 7
    ensures HighSeq(x.fd.sq.slots[k].value.header.control) == Seq(n) <==> x.slotAck[k] == n
  {
    hide Seq;
    hide RrControl;
    hide RejControl;
    hide HighSeq;
    hide Local;
    hide ServicePacket;
    assert SlotOk(x, k) by { LocalSlot(x, k); }
    ControlRoundTrip(0, Seq(x.slotAck[k]));
    SeqEqual(x.slotAck[k], n);
  }

  lemma LocalSlot(x: Station, k: nat)
    requires Local(x) && k < |x.fd.sq.slots|
    ensures SlotOk(x, k)
  {
    hide SlotOk;
  }

  lemma LocalAddress(x: Station)
    requires Local(x)
    ensures AddressToPeer(x.fd.peers, x.fd.localAddr, Addr(x)) == 0
  {
    hide SlotOk;
  }

  /** The condition on the octets, for an I-frame that is accepted and for one that is refused. */
  lemma OrderIff(x: Station, xy: seq<Packet>, y: Station, yx: seq<Packet>)
    requires Both(x, xy, y, yx) && yx != [] && yx[0].tag.TagI? && x.State() == Connected
    requires |yx[0].bytes| >= 2
    ensures var p := yx[0];
      AnswersInOrder(x.fd, p.bytes) <==>
        if p.tag.idx == x.Got() then
          var free := FindFree(x.fd.sq.slots, x.fd.sq.lookup, 0);
          free.Some? ==> forall k :: free.value < k < |x.fd.sq.slots| ==> !PendingS(x.fd.sq.slots[k])
        else x.fd.peers[0].sentReject || InOrder(x)
  {
    hide Seq;
    hide Succ;
    hide Local;
    hide Data;
    hide Acks;
    hide Handshake;
    hide HighSeq;
    hide FindFree;
    var p := yx[0];
    HeadData(x, xy, y, yx);
    ReadI(x, y, p);
    assert AddressToPeer(x.fd.peers, x.fd.localAddr, p.bytes[0]) == 0 by { LocalAddress(x); }
    GotBounds(x, xy, y, yx);
    SeqEqual(p.tag.idx, x.Got());
    SeqSucc(x.Got());
    var accepted := p.tag.idx == x.Got();
    var n := if accepted then x.Got() + 1 else x.Got();
    forall k | 0 <= k < |x.fd.sq.slots| && PendingS(x.fd.sq.slots[k])
      ensures x.slotAck[k] <= x.Got()
      ensures HighSeq(x.fd.sq.slots[k].value.header.control) == Seq(n) <==> x.slotAck[k] == n
    {
      WaitingAck(x, xy, y, k, n);
      assert SlotOk(x, k) by { LocalSlot(x, k); }
    }
  }

  lemma GotBounds(x: Station, xy: seq<Packet>, y: Station, yx: seq<Packet>)
    requires Both(x, xy, y, yx)
    ensures y.conf <= x.Got() <= |y.sent| <= y.conf + 7
    ensures x.Ctl().nextNr == Seq(x.Got())
  {
    hide Seq;
  }

  /** The acknowledgement in a packet from y, taken off the channel. */
  lemma AckedBoth(x: Station, xy: seq<Packet>, y: Station, yx: seq<Packet>)
    requires Both(x, xy, y, yx) && yx != [] && !U(yx[0]) && x.State() == Connected
    ensures var x' := Acked(x, AckOf(yx[0]));
      && Local(x') && Data(x', xy, y) && Acks(x', xy, y) && Handshake(x', xy, y)
      && Data(y, yx, x') && Acks(y, yx[1..], x') && Handshake(y, yx[1..], x')
      && Addr(x') == Addr(x) && x'.State() == Connected
      && x'.fd.sq == x.fd.sq && x'.fd.delivered == x.fd.delivered && x'.fd.localAddr == x.fd.localAddr
      && x'.Ctl() == x.Ctl().(confirmNs := Seq(AckOf(yx[0]))) && x'.fd.maxRetries == x.fd.maxRetries
      && x'.fd.peers == [x.fd.peers[0].(ctl := x'.Ctl())]
  {
    hide Local;
    hide Data;
    hide Handshake;
    hide ServicePacket;
    hide Seq;
    var a := AckOf(yx[0]);
    AckBounds(x, xy, y, yx);
    AckedData(x, xy, y, a);
    var x' := Acked(x, a);
    SameVoice(x, x', xy, y);
    PopHandshake(y, yx, x);
    EarHandshake(y, yx[1..], x, x');
    EarData(y, yx, x, x');
  }

  lemma AckBounds(x: Station, xy: seq<Packet>, y: Station, yx: seq<Packet>)
    requires Both(x, xy, y, yx) && yx != [] && !U(yx[0])
    ensures x.conf <= AckOf(yx[0]) <= y.Got()
  {
    hide Local;
    hide Data;
    hide Handshake;
  }

  lemma EarHandshake(y: Station, yx: seq<Packet>, x: Station, x': Station)
    requires Local(x) && Local(y) && Local(x') && x'.State() == x.State()
    ensures Handshake(y, yx, x) ==> Handshake(y, yx, x')
  {
    hide Local;
  }

  lemma EarData(y: Station, yx: seq<Packet>, x: Station, x': Station)
    requires Local(x) && Local(y) && Local(x')
    requires x'.fd.delivered == x.fd.delivered && x'.Ctl().nextNr == x.Ctl().nextNr
    ensures Data(y, yx, x) ==> Data(y, yx, x')
  {
    hide Local;
    hide Agrees;
    hide DataPacket;
  }

  // ----- An I-frame -----

  /** How a connected station reads an I-packet of its peer. */
  lemma ReadI(x: Station, y: Station, p: Packet)
    requires Local(x) && x.State() == Connected && |y.fd.peers| == 1 && Addr(x) == Addr(y)
    requires p.tag.TagI? && DataPacket(y, p)
    ensures |p.bytes| >= 2 && IsI(p.bytes[1])
    ensures HighSeq(p.bytes[1]) == Seq(p.tag.idx) && LowSeq(p.bytes[1]) == Seq(p.tag.ack)
    ensures p.bytes[2..] == y.sent[p.tag.idx]
    ensures OnFrame(x.fd, p.bytes) == OnI(x.fd, 0, p.bytes)
  {
    hide Seq;
    hide IControl;
    hide RrControl;
    hide RejControl;
    hide HighSeq;
    hide LowSeq;
    hide IsI;
    hide IsU;
    hide IsS;
    hide OnI;
    hide OnU;
    hide OnS;
    hide SlotOk;
    hide AddressToPeer;
    ControlRoundTrip(Seq(p.tag.idx), Seq(p.tag.ack));
    assert p.bytes[0] == Addr(x) && p.bytes[1] == IControl(Seq(p.tag.idx), Seq(p.tag.ack));
  }

  lemma AcceptedIs(x: Station, payload: seq<byte>, control: byte)
    requires |x.fd.peers| == 1 && |x.slotAck| == |x.fd.sq.slots| && x.Ctl().Valid()
    requires control == RrControl(Succ(x.Ctl().nextNr))
    ensures Accept(x.fd, 0, payload) == Answered(Taken(x, payload), control).fd
  {
    hide Succ;
    hide RrControl;
    hide FindFree;
    hide Rotated;
    var peer := Taken(x, payload).fd.peers[0];
    assert x.fd.peers[0 := peer] == [peer];
  }

  /** x after noting that it has asked for a repetition. */
  function Refusing(x: Station): Station
    requires |x.fd.peers| == 1
  {
    x.(fd := x.fd.(peers := [x.fd.peers[0].(sentReject := true)]))
  }

  lemma RefusedIs(x: Station)
    requires |x.fd.peers| == 1 && |x.slotAck| == |x.fd.sq.slots|
    ensures Refuse(x.fd, 0) ==
      if x.fd.peers[0].sentReject then x.fd else Answered(Refusing(x), RejControl(x.Ctl().nextNr)).fd
  {
    hide RejControl;
    hide FindFree;
    hide Rotated;
    var peer := x.fd.peers[0].(sentReject := true);
    assert x.fd.peers[0 := peer] == [peer];
  }

  lemma RefusingBoth(x: Station, xy: seq<Packet>, y: Station, yx: seq<Packet>)
    requires Both(x, xy, y, yx) && x.State() == Connected
    ensures Both(Refusing(x), xy, y, yx) && Refusing(x).State() == Connected && Refusing(x).Got() == x.Got()
    ensures Refusing(x).fd.sq == x.fd.sq && Refusing(x).slotAck == x.slotAck
  {
    hide Data;
    hide Acks;
    hide Handshake;
    hide SlotOk;
    var x' := Refusing(x);
    SameButNext(x, x');
    SameData(x, x', xy, y);
    SameVoice(x, x', xy, y);
    SameEar(y, yx, x, x');
  }

  /** The two ways of taking an I-frame, told apart by the unbounded numbers. */
  lemma ReceiveI(x: Station, xy: seq<Packet>, y: Station, yx: seq<Packet>)
    requires Both(x, xy, y, yx) && yx != [] && yx[0].tag.TagI? && |yx[0].bytes| >= 2 && Local(x)
    requires AnswersInOrder(x.fd, yx[0].bytes)
    requires x.State() == Connected && y.State() == Connected
    ensures Both(DoReceive(x, yx[0]), xy, y, yx[1..]) && DoReceive(x, yx[0]).State() == Connected
    ensures DoReceive(x, yx[0]).fd.delivered ==
      if yx[0].tag.idx == x.Got() then x.fd.delivered + [(UserAddress(x.fd, 0), y.sent[x.Got()])] else x.fd.delivered
    ensures yx[0].tag.idx == x.Got() ==>
      DoReceive(x, yx[0]) == Answered(Taken(Acked(x, yx[0].tag.ack), y.sent[x.Got()]), RrControl(Seq(x.Got() + 1)))
    ensures yx[0].tag.idx != x.Got() ==>
      var x1 := Acked(x, yx[0].tag.ack);
      DoReceive(x, yx[0]) ==
        if x.fd.peers[0].sentReject then Forgotten(x1) else Answered(Refusing(x1), RejControl(Seq(x.Got())))
  {
    hide Seq;
    hide Succ;
    hide Local;
    hide Data;
    hide Acks;
    hide Handshake;
    hide RrControl;
    hide RejControl;
    hide OnFrame;
    hide Accept;
    hide Refuse;
    hide HighSeq;
    hide LowSeq;
    hide IsI;
    hide Confirm;
    hide Rotated;
    hide FindFree;
    hide AnswersInOrder;
    OrderIff(x, xy, y, yx);
    hide Answered;
    var p := yx[0];
    HeadData(x, xy, y, yx);
    ReadI(x, y, p);
    GotBounds(x, xy, y, yx);
    AckedBoth(x, xy, y, yx);
    var x1 := Acked(x, p.tag.ack);
    UserSame(x, x1);
    SeqEqual(p.tag.idx, x.Got());
    if p.tag.idx == x.Got() {
      var payload := y.sent[x.Got()];
      TakenLocal(x1, payload);
      TakenVoice(x1, payload, xy, y);
      TakenData(y, yx, x1, payload);
      var x2 := Taken(x1, payload);
      SameEarAcks(y, yx[1..], x1, x2);
      SeqSucc(x.Got());
      AcceptedIs(x1, payload, RrControl(Seq(x2.Got())));
      AnsweredIs(x, p, x2, RrControl(Seq(x2.Got())));
      AnsweredBoth(x2, xy, y, yx[1..], RrControl(Seq(x2.Got())));
    } else {
      PopData(y, yx, x1);
      RefusedIs(x1);
      if x1.fd.peers[0].sentReject {
        ForgetBoth(x1, xy, y, yx[1..]);
        assert DoReceive(x, p) == Forgotten(x1);
      } else {
        RefusingBoth(x1, xy, y, yx[1..]);
        var x2 := Refusing(x1);
        AnsweredIs(x, p, x2, RejControl(Seq(x2.Got())));
        AnsweredBoth(x2, xy, y, yx[1..], RejControl(Seq(x2.Got())));
      }
    }
  }

  /** Receiving a packet whose frame is answered: the slot history follows the queue. */
  lemma AnsweredIs(x: Station, p: Packet, x2: Station, control: byte)
    requires x.fd.Valid() && |x.fd.peers| == 1 && |x.slotAck| == |x.fd.sq.slots| && |x2.fd.peers| == 1
    requires x2.fd.sq == x.fd.sq && x2.slotAck == x.slotAck && x2.sent == x.sent && x2.conf == NextConf(x, p.tag)
    requires OnFrame(x.fd, p.bytes) == Answered(x2, control).fd
    ensures DoReceive(x, p) == Answered(x2, control)
    ensures Answered(x2, control).fd.delivered == x2.fd.delivered && Answered(x2, control).State() == x2.State()
  {
    hide OnFrame;
    hide FindFree;
    hide Rotated;
  }

  lemma UserSame(x: Station, x': Station)
    requires |x.fd.peers| == 1 && |x'.fd.peers| == 1 && Addr(x') == Addr(x) && x'.fd.localAddr == x.fd.localAddr
    ensures UserAddress(x'.fd, 0) == UserAddress(x.fd, 0)
  {}

  lemma HeadData(x: Station, xy: seq<Packet>, y: Station, yx: seq<Packet>)
    requires Both(x, xy, y, yx) && yx != []
    ensures DataPacket(y, yx[0])
    ensures yx[0].tag.TagI? ==> x.Got() <= yx[0].tag.idx + 7 && yx[0].tag.idx < |y.sent|
  {
    hide Local;
    hide Acks;
    hide Handshake;
  }

  /** x after a frame that leaves no answer: only a slot history changes. */
  function Forgotten(x: Station): Station
    requires |x.fd.sq.slots| == |x.slotAck|
  {
    match FindFree(x.fd.sq.slots, x.fd.sq.lookup, 0)
    case None => x
    case Some(j) => x.(slotAck := x.slotAck[j := x.Got()])
  }

  lemma ForgetBoth(x: Station, xy: seq<Packet>, y: Station, yx: seq<Packet>)
    requires Both(x, xy, y, yx)
    ensures Both(Forgotten(x), xy, y, yx)
  {
    hide Local;
    hide Data;
    hide Acks;
    hide Handshake;
    match FindFree(x.fd.sq.slots, x.fd.sq.lookup, 0)
    case None =>
    case Some(j) =>
      Forget(x, j, x.Got(), xy, y);
      SameEar(y, yx, x, Forgotten(x));
  }

  // ----- A supervisory frame -----

  lemma ReadS(x: Station, y: Station, p: Packet)
    requires Local(x) && x.State() == Connected && |y.fd.peers| == 1 && Addr(x) == Addr(y)
    requires p.tag.TagS? && ServicePacket(y, p)
    ensures |p.bytes| == 2 && !IsI(p.bytes[1])
    ensures HighSeq(p.bytes[1]) == Seq(p.tag.ack)
    ensures SType(p.bytes[1]) == HDLC_S_FRAME_TYPE_RR || SType(p.bytes[1]) == HDLC_S_FRAME_TYPE_REJ
    ensures OnFrame(x.fd, p.bytes) == OnS(x.fd, 0, p.bytes)
  {
    hide Seq;
    hide IControl;
    hide RrControl;
    hide RejControl;
    hide HighSeq;
    hide LowSeq;
    hide IsI;
    hide IsU;
    hide IsS;
    hide SType;
    hide OnI;
    hide OnU;
    hide OnS;
    hide SlotOk;
    hide AddressToPeer;
    ControlRoundTrip(0, Seq(p.tag.ack));
  }

  /** x with its retry budget and next number to send set. */
  function Tuned(x: Station, retries: nat, ns: byte, tx: bool): Station
    requires |x.fd.peers| == 1
  {
    x.(fd := x.fd.(peers := [x.fd.peers[0].(ctl := x.Ctl().(nextNs := ns), retries := retries)], txAvailable := tx))
  }

  lemma TunedBoth(x: Station, xy: seq<Packet>, y: Station, yx: seq<Packet>, retries: nat, ns: byte, tx: bool)
    requires Both(x, xy, y, yx) && x.State() == Connected && ns <= 7
    ensures Both(Tuned(x, retries, ns, tx), xy, y, yx)
  {
    hide Data;
    hide Acks;
    hide Handshake;
    hide SlotOk;
    var x' := Tuned(x, retries, ns, tx);
    SameButNext(x, x');
    SameData(x, x', xy, y);
    SameVoice(x, x', xy, y);
    SameEar(y, yx, x, x');
  }

  /** x after a supervisory packet: an RR restores the retries, a REJ makes it send again from the frame asked for. */
  function Supervised(x: Station, p: Packet): Station
    requires x.fd.Valid() && |x.fd.peers| == 1 && p.tag.TagS? && |p.bytes| >= 2
  {
    var x1 := Acked(x, p.tag.ack);
    if SType(p.bytes[1]) == HDLC_S_FRAME_TYPE_RR then Tuned(x1, x.fd.maxRetries, x1.Ctl().nextNs, x1.fd.txAvailable)
    else Tuned(x1, x.fd.peers[0].retries, Seq(p.tag.ack), true)
  }

  lemma SupervisedIs(x: Station, xy: seq<Packet>, y: Station, yx: seq<Packet>)
    requires Both(x, xy, y, yx) && yx != [] && yx[0].tag.TagS? && |yx[0].bytes| >= 2
    requires x.State() == Connected && y.State() == Connected
    ensures Local(x) && |Supervised(x, yx[0]).slotAck| == |Supervised(x, yx[0]).fd.sq.slots|
    ensures DoReceive(x, yx[0]) == Forgotten(Supervised(x, yx[0]))
  {
    hide Seq;
    hide Data;
    hide Acks;
    hide Handshake;
    hide SlotOk;
    hide RrControl;
    hide RejControl;
    hide OnFrame;
    hide HighSeq;
    hide SType;
    hide IsI;
    hide Confirm;
    hide FindFree;
    hide AddressToPeer;
    var p := yx[0];
    HeadService(x, xy, y, yx);
    ReadS(x, y, p);
    AckedBoth(x, xy, y, yx);
    SupervisedFd(x, p);
  }

  lemma SupervisedFd(x: Station, p: Packet)
    requires x.fd.Valid() && |x.fd.peers| == 1 && p.tag.TagS? && |p.bytes| >= 2
    requires HighSeq(p.bytes[1]) == Seq(p.tag.ack)
    requires SType(p.bytes[1]) == HDLC_S_FRAME_TYPE_RR || SType(p.bytes[1]) == HDLC_S_FRAME_TYPE_REJ
    requires Acked(x, p.tag.ack).fd.peers == [x.fd.peers[0].(ctl := Acked(x, p.tag.ack).Ctl())]
    ensures OnS(x.fd, 0, p.bytes) == Supervised(x, p).fd
  {
    hide Seq;
    hide HighSeq;
    hide SType;
    hide Confirm;
    var x1, x2 := Acked(x, p.tag.ack), Supervised(x, p);
    assert x1.fd.peers[0 := x2.fd.peers[0]] == x2.fd.peers;
  }

  lemma ReceiveS(x: Station, xy: seq<Packet>, y: Station, yx: seq<Packet>)
    requires Both(x, xy, y, yx) && yx != [] && yx[0].tag.TagS? && |yx[0].bytes| >= 2
    requires x.State() == Connected && y.State() == Connected
    ensures Both(DoReceive(x, yx[0]), xy, y, yx[1..]) && DoReceive(x, yx[0]).State() == Connected
    ensures DoReceive(x, yx[0]).fd.delivered == x.fd.delivered
    ensures SType(yx[0].bytes[1]) == HDLC_S_FRAME_TYPE_RR ==>
      var x1 := Acked(x, yx[0].tag.ack);
      DoReceive(x, yx[0]) == Forgotten(Tuned(x1, x.fd.maxRetries, x1.Ctl().nextNs, x1.fd.txAvailable))
    ensures SType(yx[0].bytes[1]) == HDLC_S_FRAME_TYPE_REJ ==>
      DoReceive(x, yx[0]) ==
        Forgotten(Tuned(Acked(x, yx[0].tag.ack), x.fd.peers[0].retries, Seq(yx[0].tag.ack), true))
  {
    hide Seq;
    hide Local;
    hide Data;
    hide Acks;
    hide Handshake;
    hide DoReceive;
    hide SType;
    hide Confirm;
    hide FindFree;
    var p := yx[0];
    SupervisedIs(x, xy, y, yx);
    AckedBoth(x, xy, y, yx);
    var x1 := Acked(x, p.tag.ack);
    PopData(y, yx, x1);
    CtlOk(x1.fd, 0);
    TunedBoth(x1, xy, y, yx[1..], x.fd.maxRetries, x1.Ctl().nextNs, x1.fd.txAvailable);
    TunedBoth(x1, xy, y, yx[1..], x.fd.peers[0].retries, Seq(p.tag.ack), true);
    ForgetBoth(Supervised(x, p), xy, y, yx[1..]);
  }

  lemma HeadService(x: Station, xy: seq<Packet>, y: Station, yx: seq<Packet>)
    requires Both(x, xy, y, yx) && yx != []
    ensures ServicePacket(y, yx[0])
  {
    hide Local;
    hide Data;
    hide Handshake;
  }

  // ----- A U-frame -----

  /** x connected, with a fresh window, and with an answer in slot j if it is to give one. */
  function Joined(x: Station, ua: Option<nat>): Station
    requires |x.fd.peers| == 1 && |x.fd.sq.slots| == |x.slotAck| && (ua.Some? ==> ua.value < |x.fd.sq.slots|)
  {
    var peer := ResetPeer(x.fd.peers[0]).(state := Connected, retries := x.fd.maxRetries);
    var sq := match ua
      case None => x.fd.sq
      case Some(j) =>
        Queue(x.fd.sq.slots[j := Some(ServiceFrame(UFrame, Addr(x), UA_CONTROL))], Rotated(j, 1, |x.fd.sq.slots|));
    x.(fd := x.fd.(peers := [peer], sq := sq, txAvailable := true,
                   freeSlots := x.fd.freeSlots || HasFree(x.fd.iq.slots),
                   connects := x.fd.connects + [(UserAddress(x.fd, 0), true)]))
  }

  /** The answer, if any, goes right behind the station's own request. */
  predicate NextSlot(x: Station, ua: Option<nat>)
    requires |x.fd.peers| == 1
  {
    ua.Some? ==> ua.value == if x.State() == Disconnected then 0 else 1
  }

  lemma SlotOkSame(x: Station, x': Station, k: nat)
    requires |x.fd.peers| == 1 && |x'.fd.peers| == 1 && Addr(x') == Addr(x) && x'.Got() == x.Got()
    requires k < |x.fd.sq.slots| == |x.slotAck| == |x'.fd.sq.slots| && x'.slotAck == x.slotAck
    requires x'.fd.sq.slots[k] == x.fd.sq.slots[k] && SlotOk(x, k)
    ensures SlotOk(x', k)
  {
    hide Seq;
    hide RrControl;
    hide RejControl;
  }

  lemma JoinedSlotsOk(x: Station, ua: Option<nat>)
    requires Local(x) && x.State() != Connected && NextSlot(x, ua)
    ensures Addr(Joined(x, ua)) == Addr(x)
    ensures forall k :: 0 <= k < |x.fd.sq.slots| ==> SlotOk(Joined(x, ua), k)
    ensures forall k :: 0 <= k < |x.fd.sq.slots| ==> !PendingS(Joined(x, ua).fd.sq.slots[k])
  {
    assert forall k :: 0 <= k < |x.fd.sq.slots| ==> SlotOk(x, k) && !PendingS(x.fd.sq.slots[k]);
    hide Local;
    hide Seq;
    hide RrControl;
    hide RejControl;
    hide Rotated;
    var x' := Joined(x, ua);
    assert Addr(x') == Addr(x);
    forall k | 0 <= k < |x.fd.sq.slots| ensures SlotOk(x', k) && !PendingS(x'.fd.sq.slots[k]) {
      if ua != Some(k) {
        SlotOkSame(x, x', k);
      }
    }
  }

  lemma JoinedLocal(x: Station, ua: Option<nat>)
    requires Local(x) && x.State() != Connected && NextSlot(x, ua)
    ensures var x' := Joined(x, ua);
      && Local(x') && Addr(x') == Addr(x) && x'.State() == Connected && x'.fd.delivered == x.fd.delivered
      && x'.Ctl() == x.Ctl() == CTL_ZERO && UserAddress(x'.fd, 0) == UserAddress(x.fd, 0)
  {
    hide Rotated;
    hide SlotOk;
    hide PendingS;
    JoinedSlotsOk(x, ua);
  }

  lemma JoinedVoice(x: Station, xy: seq<Packet>, y: Station, ua: Option<nat>)
    requires Local(x) && Local(y) && x.State() != Connected && NextSlot(x, ua)
    ensures Data(x, xy, y) ==> Data(Joined(x, ua), xy, y)
    ensures Acks(x, xy, y) ==> Acks(Joined(x, ua), xy, y)
  {
    JoinedSlotsOk(x, ua);
    JoinedLocal(x, ua);
    hide Local;
    hide SlotOk;
    hide Rotated;
    var x' := Joined(x, ua);
    SameData(x, x', xy, y);
    ServiceSame(x, x');
    hide Data;
    hide ServicePacket;
  }

  /** Answering a SABM puts the UA behind x's own SABM, if there is one, and ahead of all else. */
  lemma JoinedHandshake(x: Station, xy: seq<Packet>, y: Station, ua: Option<nat>)
    requires Local(x) && Local(y) && x.State() != Connected && Handshake(x, xy, y) && NextSlot(x, ua)
    requires y.State() != Disconnected && (ua.None? ==> y.State() == Connected)
    ensures Handshake(Joined(x, ua), xy, y)
  {
    hide Ahead;
    hide Order;
    hide Meaning;
    hide Local;
    hide Joined;
    JoinedOrder(x, xy, y, ua);
    JoinedAhead(x, xy, y, ua);
    JoinedMeaning(x, xy, y, ua);
  }

  lemma JoinedAhead(x: Station, xy: seq<Packet>, y: Station, ua: Option<nat>)
    requires Local(x) && Local(y) && x.State() != Connected && Ahead(x, xy, y) && NextSlot(x, ua)
    requires ua.None? ==> y.State() == Connected
    ensures Ahead(Joined(x, ua), xy, y)
  {
    JoinedSlotsOk(x, ua);
    hide Local;
    hide SlotOk;
    hide Rotated;
    hide HasU;
    hide PendingS;
    var x' := Joined(x, ua);
    if ua.Some? {
      assert PendingU(x'.fd.sq.slots[ua.value]);
    }
  }

  lemma JoinedMeaning(x: Station, xy: seq<Packet>, y: Station, ua: Option<nat>)
    requires Local(x) && Local(y) && x.State() != Connected && Meaning(x, xy, y) && NextSlot(x, ua)
    requires y.State() != Disconnected
    ensures Meaning(Joined(x, ua), xy, y)
  {
    hide Local;
    hide Rotated;
    hide HasUa;
    hide IsSabm;
    var x' := Joined(x, ua);
    if ua.Some? {
      assert !SabmSlot(x'.fd.sq.slots[ua.value]);
    }
  }

  lemma JoinedOrder(x: Station, xy: seq<Packet>, y: Station, ua: Option<nat>)
    requires Local(x) && x.State() != Connected && NextSlot(x, ua) && |y.fd.peers| == 1
    requires Order(x, xy) && Meaning(x, xy, y)
    ensures Order(Joined(x, ua), xy)
  {
    hide Local;
    hide Rotated;
    hide HasU;
    hide HasUa;
    hide IsSabm;
    hide IsUa;
    var x' := Joined(x, ua);
    if ua.Some? {
      assert UaSlot(x'.fd.sq.slots[ua.value]) && !SabmSlot(x'.fd.sq.slots[ua.value]);
    }
  }

  /** The U-frame that connects x is y's last or is followed by y's UA only. */
  lemma JoinedEar(y: Station, yx: seq<Packet>, x: Station, x': Station)
    requires Local(x) && Local(y) && Local(x') && x.State() != Connected && x'.State() == Connected
    requires yx != [] && U(yx[0]) && x'.fd.delivered == x.fd.delivered && x'.Ctl() == x.Ctl() && x'.conf == x.conf
    requires Data(y, yx, x) && Acks(y, yx, x) && Handshake(y, yx, x)
    ensures Data(y, yx[1..], x') && Acks(y, yx[1..], x') && Handshake(y, yx[1..], x')
  {
    hide Local;
    PopData(y, yx, x);
    PopAcks(y, yx, x);
    EarData(y, yx[1..], x, x');
    hide Data;
    hide ServicePacket;
    PopOrder(y, yx);
    hide Order;
    assert forall q :: 0 <= q < |yx[1..]| ==> yx[1..][q] == yx[q + 1];
  }

  lemma PopOrder(y: Station, yx: seq<Packet>)
    requires yx != [] && U(yx[0]) && Order(y, yx)
    ensures Order(y, yx[1..]) && (HasUa(yx[1..]) ==> HasUa(yx))
    ensures forall q :: 0 <= q < |yx[1..]| ==> !IsSabm(yx[1..][q])
    ensures forall j :: 0 <= j < |y.fd.sq.slots| ==> !SabmSlot(y.fd.sq.slots[j])
  {
    assert UA_CONTROL != SABM_CONTROL;
    assert HasU(yx);
    assert HasUa(yx[1..]) ==> HasUa(yx);
    assert HasU(yx[1..]) ==> HasU(yx);
    forall q | 0 <= q < |yx[1..]| ensures !IsSabm(yx[1..][q]) {
      assert yx[1..][q] == yx[q + 1];
    }
  }

  lemma ReadU(x: Station, y: Station, p: Packet)
    requires Local(x) && |y.fd.peers| == 1 && Addr(x) == Addr(y) && U(p) && ServicePacket(y, p)
    ensures |p.bytes| == 2 && IsSabm(p) != IsUa(p) && !IsI(p.bytes[1])
    ensures IsSabm(p) ==> OnFrame(x.fd, p.bytes) == SwitchToConnected(PutU(x.fd, 0, UA_CONTROL), 0)
    ensures IsUa(p) && x.State() == Connecting ==> OnFrame(x.fd, p.bytes) == SwitchToConnected(x.fd, 0)
    ensures IsUa(p) && x.State() == Connected ==> OnFrame(x.fd, p.bytes) == x.fd
  {
    hide SwitchToConnected;
    hide PutService;
    hide AddressToPeer;
    hide SlotOk;
    UControlRoundTrip();
  }

  lemma JoinedIs(x: Station)
    requires |x.fd.peers| == 1 && |x.slotAck| == |x.fd.sq.slots| && x.State() != Connected
    ensures SwitchToConnected(x.fd, 0) == Joined(x, None).fd
  {
    var peer := ResetPeer(x.fd.peers[0]).(state := Connected, retries := x.fd.maxRetries);
    assert x.fd.peers[0 := peer] == [peer];
  }

  lemma JoinedWithUaIs(x: Station)
    requires Local(x) && x.State() != Connected
    ensures var j := if x.State() == Disconnected then 0 else 1;
      && FindFree(x.fd.sq.slots, x.fd.sq.lookup, 0) == Some(j)
      && SwitchToConnected(PutU(x.fd, 0, UA_CONTROL), 0) == Joined(x, Some(j)).fd
  {
    hide SlotOk;
    var j := if x.State() == Disconnected then 0 else 1;
    assert Rotated(x.fd.sq.lookup, 0, 4) == j;
    assert FindFree(x.fd.sq.slots, x.fd.sq.lookup, 0) == Some(j);
    hide Local;
    hide FindFree;
    hide Rotated;
    PutUIs(x, j);
  }

  lemma PutUIs(x: Station, j: nat)
    requires |x.fd.peers| == 1 && |x.slotAck| == |x.fd.sq.slots| && x.State() != Connected && j < |x.fd.sq.slots|
    requires FindFree(x.fd.sq.slots, x.fd.sq.lookup, 0) == Some(j)
    ensures SwitchToConnected(PutU(x.fd, 0, UA_CONTROL), 0) == Joined(x, Some(j)).fd
  {
    hide FindFree;
    hide Rotated;
    var peer := ResetPeer(x.fd.peers[0]).(state := Connected, retries := x.fd.maxRetries);
    assert x.fd.peers[0 := peer] == [peer];
  }

  lemma ReceiveU(x: Station, xy: seq<Packet>, y: Station, yx: seq<Packet>)
    requires Both(x, xy, y, yx) && yx != [] && U(yx[0])
    ensures Both(DoReceive(x, yx[0]), xy, y, yx[1..]) && DoReceive(x, yx[0]).State() == Connected
    ensures DoReceive(x, yx[0]).fd.delivered == x.fd.delivered
  {
    hide Local;
    hide Data;
    hide Acks;
    hide Ahead;
    hide Order;
    hide OnFrame;
    hide SwitchToConnected;
    hide PutService;
    hide FindFree;
    hide Joined;
    hide IsI;
    hide IsSabm;
    hide IsUa;
    var p := yx[0];
    HeadService(x, xy, y, yx);
    ReadU(x, y, p);
    assert y.State() != Disconnected;
    if x.State() == Connected {
      assert HasUa(yx);
      PopData(y, yx, x);
      PopAcks(y, yx, x);
      PopHandshake(y, yx, x);
      ForgetBoth(x, xy, y, yx[1..]);
      assert DoReceive(x, p) == Forgotten(x);
    } else {
      assert x.State() == Disconnected || x.State() == Connecting by { States(x); }
      var j := if x.State() == Disconnected then 0 else 1;
      var ua := if IsSabm(p) then Some(j) else None;
      if IsUa(p) {
        assert HasUa(yx);
        assert y.State() == Connected && x.State() == Connecting;
      }
      JoinedIs(x);
      JoinedWithUaIs(x);
      JoinedLocal(x, ua);
      JoinedVoice(x, xy, y, ua);
      JoinedHandshake(x, xy, y, ua);
      JoinedKeeps(x, ua);
      JoinedEar(y, yx, x, Joined(x, ua));
      JoinedSlots(x, xy, y, yx[1..], p, j, ua);
    }
  }

  lemma JoinedKeeps(x: Station, ua: Option<nat>)
    requires Local(x) && NextSlot(x, ua)
    ensures var x' := Joined(x, ua); x'.conf == x.conf && x'.sent == x.sent && x'.slotAck == x.slotAck
    ensures Joined(x, ua).fd.delivered == x.fd.delivered && (x.State() != Connected ==> x.Got() == 0)
  {
    hide Rotated;
    hide SlotOk;
  }

  lemma States(x: Station)
    requires Local(x)
    ensures x.State() in {Disconnected, Connecting, Connected}
  {}

  /** The slot history of a connecting step. */
  lemma JoinedSlots(x: Station, xy: seq<Packet>, y: Station, yx: seq<Packet>, p: Packet, j: nat, ua: Option<nat>)
    requires Local(x) && x.State() != Connected && FindFree(x.fd.sq.slots, x.fd.sq.lookup, 0) == Some(j)
    requires NextSlot(x, ua) && Both(Joined(x, ua), xy, y, yx) && OnFrame(x.fd, p.bytes) == Joined(x, ua).fd
    requires j < |x.fd.sq.slots|
    ensures Both(DoReceive(x, p), xy, y, yx) && DoReceive(x, p).State() == Connected
    ensures DoReceive(x, p).fd.delivered == x.fd.delivered
  {
    JoinedSlotsOk(x, ua);
    JoinedKeeps(x, ua);
    var x' := Joined(x, ua);
    assert x'.State() == Connected && |x'.fd.sq.slots| == |x.fd.sq.slots|;
    hide Local;
    hide Data;
    hide Acks;
    hide Handshake;
    hide FindFree;
    hide OnFrame;
    hide Joined;
    Forget(x', j, 0, xy, y);
    var x2 := x'.(slotAck := x'.slotAck[j := 0]);
    SameEar(y, yx, x', x2);
    assert DoReceive(x, p) == x2;
  }
}
