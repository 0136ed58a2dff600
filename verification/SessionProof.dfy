/** The invariant of Session is kept by every step. */
module SessionProof {
  import opened Base
  import opened SeqNum
  import opened FdDefs
  import opened FrameQueue
  import opened FdSpec
  import opened Window
  import opened Session

  // ----- Init -----

  lemma InitInv(s: Session)
    requires Init(s)
    ensures Inv(s)
  {
    var address: byte, state :|
      state in {Disconnected, Connected} && Fresh(s.a, address, state) && Fresh(s.b, address, state);
    FreshSide(s.a, s.b, address, state);
    FreshSide(s.b, s.a, address, state);
  }

  lemma FreshSide(x: Station, y: Station, address: byte, state: FdState)
    requires state in {Disconnected, Connected} && Fresh(x, address, state) && Fresh(y, address, state)
    ensures Local(x) && Data(x, [], y) && Acks(x, [], y) && Handshake(x, [], y)
  {
    assert Seq(0) == 0;
    EmptyAgrees(x.fd.iq.slots, Addr(x));
    hide Agrees;
    hide Seq;
    hide RrControl;
    hide RejControl;
    hide AddressToPeer;
  }

  lemma EmptyAgrees(slots: seq<Slot>, address: byte)
    requires forall j :: 0 <= j < |slots| ==> slots[j].None?
    ensures Agrees(slots, address, 0, 0, [])
  {}

  // ----- Sending -----

  /** A send either changes nothing or queues the payload under the next number. */
  lemma SendCases(x: Station, address: byte, data: seq<byte>) returns (j: nat)
    requires x.fd.Valid() && |x.fd.peers| == 1
    ensures var y := DoSend(x, address, data);
      || y == x
      || (&& j < |x.fd.iq.slots| && x.fd.iq.slots[j].None? && !x.Ctl().TxFull()
          && y.fd.iq.slots == x.fd.iq.slots[j := Some(IFrameFor(x.fd, 0, data))]
          && y.fd.peers == [x.fd.peers[0].(ctl := x.Ctl().(lastNs := Succ(x.Ctl().lastNs)))]
          && y.sent == x.sent + [data] && y.conf == x.conf && y.slotAck == x.slotAck
          && y.fd.sq == x.fd.sq && y.fd.delivered == x.fd.delivered && y.fd.connects == x.fd.connects
          && y.fd.localAddr == x.fd.localAddr && y.fd.Valid())
  {
    hide Succ;
    hide IControl;
    SuccSmall(x.Ctl().lastNs);
    var r := FindFree(x.fd.iq.slots, x.fd.iq.lookup, 0);
    j := if r.Some? then r.value else 0;
  }

  lemma SendData(x: Station, xy: seq<Packet>, y: Station, address: byte, data: seq<byte>)
    requires Local(x) && Local(y) && Data(x, xy, y)
    ensures Data(DoSend(x, address, data), xy, y)
  {
    hide Seq;
    hide Succ;
    hide IControl;
    hide HighSeq;
    hide Agrees;
    hide DoSend;
    var j := SendCases(x, address, data);
    var x' := DoSend(x, address, data);
    if x' != x {
      var l := |x.sent|;
      WindowBound(x.fd.iq.slots, Addr(x), x.conf, l, x.sent);
      SeqSucc(l);
      SeqEqual(l + 1, x.conf);
      assert l < x.conf + 7;
      ControlRoundTrip(Seq(l), x.Ctl().nextNr);
      AllocateAgrees(x.fd.iq.slots, Addr(x), x.conf, l, x.sent, j, IFrameFor(x.fd, 0, data));
      assert Addr(x') == Addr(x);
      assert forall q :: 0 <= q < |xy| && DataPacket(x, xy[q]) ==> DataPacket(x', xy[q]);
    }
  }

  lemma SendInv(s: Session, address: byte, data: seq<byte>)
    requires Inv(s) && Enabled(s, Send(address, data))
    ensures Inv(StepA(s, Send(address, data)))
  {
    hide Seq;
    hide Succ;
    hide IControl;
    hide RrControl;
    hide RejControl;
    hide Agrees;
    hide DoSend;
    hide Local;
    hide Data;
    hide Acks;
    hide Handshake;
    var j := SendCases(s.a, address, data);
    SendData(s.a, s.ab, s.b, address, data);
    var x' := DoSend(s.a, address, data);
    SendLocal(s.a, address, data);
    SameVoice(s.a, x', s.ab, s.b);
    SameEar(s.b, s.ba, s.a, x');
  }

  lemma UserOf(fd: Fd, after: Fd)
    requires |fd.peers| == |after.peers| == 1 && after.localAddr == fd.localAddr
    requires AddressOf(after, 0) == AddressOf(fd, 0)
    ensures UserAddress(after, 0) == UserAddress(fd, 0)
  {}

  lemma SendLocal(x: Station, address: byte, data: seq<byte>)
    requires Local(x) && x.State() == Connected
    ensures var x' := DoSend(x, address, data);
      Local(x') && Addr(x') == Addr(x) && x'.Got() == x.Got() && x'.State() == x.State()
  {
    hide AddressOf;
    hide AddressToPeer;
    hide UserAddress;
    hide Seq;
    hide Succ;
    hide IControl;
    hide RrControl;
    hide RejControl;
    hide DoSend;
    var j := SendCases(x, address, data);
    var x' := DoSend(x, address, data);
    SameAddress(x.fd, x'.fd);
    UserOf(x.fd, x'.fd);
    assert forall j :: 0 <= j < |x.fd.sq.slots| && SlotOk(x, j) ==> SlotOk(x', j);
  }

  /** What y and the channel to it know of x depends only on what x shows. */
  lemma SameVoice(x: Station, x': Station, xy: seq<Packet>, y: Station)
    requires Local(x) && Local(y) && Local(x')
    requires Addr(x') == Addr(x) && x'.Got() == x.Got() && x'.State() == x.State()
    requires x'.fd.sq == x.fd.sq && x'.slotAck == x.slotAck
    ensures Acks(x, xy, y) ==> Acks(x', xy, y)
    ensures Handshake(x, xy, y) ==> Handshake(x', xy, y)
  {
    hide Seq;
    hide RrControl;
    hide RejControl;
  }

  /** What y says about its data to x depends only on what x has taken. */
  lemma SameEar(y: Station, yx: seq<Packet>, x: Station, x': Station)
    requires Local(x) && Local(y) && Local(x')
    requires x'.Got() == x.Got() && x'.State() == x.State() && x'.fd.delivered == x.fd.delivered
    requires x'.Ctl().nextNr == x.Ctl().nextNr && x'.conf == x.conf
    ensures Data(y, yx, x) ==> Data(y, yx, x')
    ensures Acks(y, yx, x) ==> Acks(y, yx, x')
    ensures Handshake(y, yx, x) ==> Handshake(y, yx, x')
  {
    hide Seq;
    hide Agrees;
    hide DataPacket;
    hide ServicePacket;
  }

  // ----- Losing a packet -----

  function Without(xy: seq<Packet>, at: nat): seq<Packet>
    requires at < |xy|
  {
    xy[..at] + xy[at + 1..]
  }

  /** Where a packet that is left over was before. */
  function Before(at: nat, q: nat): nat {
    if q < at then q else q + 1
  }

  lemma LoseInv(s: Session, at: nat)
    requires Inv(s) && Enabled(s, Lose(at))
    ensures Inv(StepA(s, Lose(at)))
  {
    hide Local;
    hide Data;
    hide Acks;
    hide Handshake;
    LoseData(s.a, s.ab, s.b, at);
    LoseAcks(s.a, s.ab, s.b, at);
    LoseHandshake(s.a, s.ab, s.b, at);
  }

  lemma LoseData(x: Station, xy: seq<Packet>, y: Station, at: nat)
    requires Local(x) && Local(y) && at < |xy| && Data(x, xy, y)
    ensures Data(x, Without(xy, at), y)
  {
    hide Seq;
    hide Agrees;
    hide DataPacket;
  }

  lemma LoseAcks(x: Station, xy: seq<Packet>, y: Station, at: nat)
    requires Local(x) && Local(y) && at < |xy| && Acks(x, xy, y)
    ensures Acks(x, Without(xy, at), y)
  {
    hide Local;
    hide ServicePacket;
  }

  lemma LoseHandshake(x: Station, xy: seq<Packet>, y: Station, at: nat)
    requires Local(x) && Local(y) && at < |xy| && !U(xy[at]) && Handshake(x, xy, y)
    ensures Handshake(x, Without(xy, at), y)
  {
    hide SlotOk;
    hide Order;
    hide Ahead;
    LoseOrder(x, xy, at);
    LoseAhead(x, xy, y, at);
  }

  lemma LoseOrder(x: Station, xy: seq<Packet>, at: nat)
    requires at < |xy| && !U(xy[at])
    ensures Order(x, xy) ==> Order(x, Without(xy, at))
    ensures HasUa(Without(xy, at)) ==> HasUa(xy)
    ensures forall q :: 0 <= q < |xy| - 1 ==> Without(xy, at)[q] == xy[Before(at, q)]
  {
    hide IsSabm;
    hide IsUa;
    hide SabmSlot;
    hide UaSlot;
  }

  /** Losing another packet leaves the U-frames that were there. */
  lemma LoseHasU(xy: seq<Packet>, at: nat, q: nat)
    requires at < |xy| && !U(xy[at]) && q <= |xy| - 1 && HasU(xy[..Before(at, q)])
    ensures HasU(Without(xy, at)[..q])
  {
    var left := Without(xy, at);
    var p :| 0 <= p < Before(at, q) && U(xy[..Before(at, q)][p]);
    var p' := if p < at then p else p - 1;
    assert xy[p] == left[p'] == left[..q][p'];
  }

  lemma LoseAhead(x: Station, xy: seq<Packet>, y: Station, at: nat)
    requires |x.fd.peers| == 1 && |y.fd.peers| == 1 && at < |xy| && !U(xy[at])
    ensures Ahead(x, xy, y) ==> Ahead(x, Without(xy, at), y)
  {
    hide HasU;
    hide HasUSlot;
    hide PendingS;
    var left := Without(xy, at);
    if Ahead(x, xy, y) {
      forall q | 0 <= q < |left| ensures left[q] == xy[Before(at, q)] {}
      forall q | y.State() != Connected && 0 <= q < |left| && !U(left[q]) ensures HasU(left[..q]) {
        LoseHasU(xy, at, q);
      }
      if HasU(xy) {
        assert xy[..Before(at, |left|)] == xy || at == |left|;
        LoseHasUAll(xy, at);
      }
    }
  }

  lemma LoseHasUAll(xy: seq<Packet>, at: nat)
    requires at < |xy| && !U(xy[at]) && HasU(xy)
    ensures HasU(Without(xy, at))
  {
    var p :| 0 <= p < |xy| && U(xy[p]);
    assert U(Without(xy, at)[if p < at then p else p - 1]);
  }

  // ----- Timers -----

  /** The first connection request: the only thing a disconnected station ever says. */
  lemma DialInv(s: Session)
    requires Inv(s) && s.a.State() == Disconnected
    ensures Inv(s.(a := s.a.(fd := Dial(s.a.fd, 0))))
  {
    hide Seq;
    hide RrControl;
    hide RejControl;
    hide Agrees;
    var x := s.a;
    var x' := x.(fd := Dial(x.fd, 0));
    var f := ServiceFrame(UFrame, Addr(x), SABM_CONTROL);
    assert FindFree(x.fd.sq.slots, 0, 0) == Some(0);
    assert x'.fd == x.fd.(sq := Queue(x.fd.sq.slots[0 := Some(f)], 1), txAvailable := true,
                          peers := x.fd.peers[0 := x.fd.peers[0].(state := Connecting)]);
    DialLocal(x, x', f);
    DialHandshake(s.a, x', s.ab, s.b, f);
    DialEar(s.b, s.ba, s.a, x');
  }

  lemma DialLocal(x: Station, x': Station, f: FrameInfo)
    requires Local(x) && x.State() == Disconnected && f == ServiceFrame(UFrame, Addr(x), SABM_CONTROL)
    requires x' == x.(fd := x.fd.(sq := Queue(x.fd.sq.slots[0 := Some(f)], 1), txAvailable := true,
                                  peers := x.fd.peers[0 := x.fd.peers[0].(state := Connecting)]))
    ensures Local(x') && Addr(x') == Addr(x)
  {
    hide Seq;
    hide RrControl;
    hide RejControl;
    assert Addr(x') == Addr(x);
    assert AddressToPeer(x'.fd.peers, x'.fd.localAddr, Addr(x)) == AddressToPeer(x.fd.peers, x.fd.localAddr, Addr(x));
  }

  lemma DialHandshake(x: Station, x': Station, xy: seq<Packet>, y: Station, f: FrameInfo)
    requires Local(x) && Local(x') && Local(y) && x.State() == Disconnected
    requires f == ServiceFrame(UFrame, Addr(x), SABM_CONTROL)
    requires x' == x.(fd := x.fd.(sq := Queue(x.fd.sq.slots[0 := Some(f)], 1), txAvailable := true,
                                  peers := x.fd.peers[0 := x.fd.peers[0].(state := Connecting)]))
    requires Addr(x') == Addr(x)
    ensures Handshake(x, xy, y) ==> Handshake(x', xy, y)
    ensures Acks(x, xy, y) ==> Acks(x', xy, y)
    ensures Data(x, xy, y) ==> Data(x', xy, y)
  {
    hide Seq;
    hide RrControl;
    hide RejControl;
    hide Agrees;
  }

  lemma DialEar(y: Station, yx: seq<Packet>, x: Station, x': Station)
    requires Local(x) && Local(y) && Local(x') && x.State() == Disconnected && x'.State() == Connecting
    requires x'.fd.delivered == x.fd.delivered && x'.Ctl() == x.Ctl() && x'.conf == x.conf
    ensures Data(y, yx, x) ==> Data(y, yx, x')
    ensures Acks(y, yx, x) ==> Acks(y, yx, x')
    ensures Handshake(y, yx, x) ==> Handshake(y, yx, x')
  {
    hide Seq;
    hide Agrees;
    hide DataPacket;
    hide ServicePacket;
  }

  /** Rewinding the next number to send changes nothing the invariant speaks of. */
  lemma RewindInv(s: Session, retries: nat, ns: byte)
    requires Inv(s) && ns <= 7 && s.a.State() == Connected
    ensures var peer := s.a.fd.peers[0].(ctl := s.a.Ctl().(nextNs := ns), retries := retries);
      Inv(s.(a := s.a.(fd := s.a.fd.(peers := [peer], txAvailable := true))))
  {
    hide Seq;
    hide Agrees;
    hide DataPacket;
    var peer := s.a.fd.peers[0].(ctl := s.a.Ctl().(nextNs := ns), retries := retries);
    var x' := s.a.(fd := s.a.fd.(peers := [peer], txAvailable := true));
    SameButNext(s.a, x');
    SameVoice(s.a, x', s.ab, s.b);
    SameEar(s.b, s.ba, s.a, x');
    SameData(s.a, x', s.ab, s.b);
  }

  lemma SameButNext(x: Station, x': Station)
    requires Local(x) && x.State() == Connected
    requires |x'.fd.peers| == 1 && x'.fd.Valid() && x'.State() == Connected && x'.fd.peers[0].addr == x.fd.peers[0].addr
    requires x'.fd.localAddr == x.fd.localAddr && x'.fd.sq == x.fd.sq && x'.slotAck == x.slotAck
    requires x'.fd.delivered == x.fd.delivered && x'.fd.connects == x.fd.connects
    ensures Local(x') && Addr(x') == Addr(x)
  {
    hide Seq;
    hide RrControl;
    hide RejControl;
    assert Addr(x') == Addr(x);
    assert forall j :: 0 <= j < |x.fd.sq.slots| && SlotOk(x, j) ==> SlotOk(x', j);
  }

  lemma SameData(x: Station, x': Station, xy: seq<Packet>, y: Station)
    requires |x.fd.peers| == 1 && |x'.fd.peers| == 1 && |y.fd.peers| == 1 && Addr(x') == Addr(x)
    requires x'.sent == x.sent && x'.conf == x.conf && x'.fd.iq.slots == x.fd.iq.slots
    requires x'.Ctl().confirmNs == x.Ctl().confirmNs && x'.Ctl().lastNs == x.Ctl().lastNs
    ensures Data(x, xy, y) ==> Data(x', xy, y)
  {
    hide Seq;
    hide Agrees;
    assert forall p :: DataPacket(x, p) ==> DataPacket(x', p);
  }

  lemma TimerInv(s: Session, frameDue: bool, iDue: bool)
    requires Inv(s) && Enabled(s, Timer(frameDue, iDue))
    ensures var r := StepA(s, Timer(frameDue, iDue));
      (r.over ==> Prefix(r.a, r.b) && Prefix(r.b, r.a)) && (!r.over ==> Inv(r))
  {
    hide Inv;
    hide Dial;
    hide Prefix;
    InvPrefix(s);
    InvStates(s);
    var x := s.a;
    var fd := TimeoutPeer(x.fd, 0, frameDue, iDue);
    if fd == x.fd {
      assert x.(fd := fd) == x && !Left(x.fd, fd);
      assert StepA(s, Timer(frameDue, iDue)) == s;
    } else if x.State() == Disconnected {
      DialInv(s);
      assert !Left(x.fd, fd);
    } else {
      RetryInv(s, fd, frameDue);
    }
  }

  lemma InvStates(s: Session)
    requires Inv(s)
    ensures s.a.fd.Valid() && |s.a.fd.peers| == 1 && s.a.State() in {Disconnected, Connecting, Connected}
  {
    hide SlotOk;
    hide Data;
    hide Acks;
    hide Handshake;
  }

  /** The retry timer of unconfirmed frames: rewind, or give up and end the session. */
  lemma RetryInv(s: Session, fd: Fd, frameDue: bool)
    requires Inv(s) && !s.over && |s.a.fd.peers| == 1 && s.a.State() == Connected
    requires fd == TimeoutPeer(s.a.fd, 0, frameDue, true) && fd != s.a.fd
    ensures var r := s.(a := s.a.(fd := fd), over := Left(s.a.fd, fd));
      (r.over ==> Prefix(r.a, r.b) && Prefix(r.b, r.a)) && (!r.over ==> Inv(r))
  {
    hide Inv;
    hide Prefix;
    hide TimeoutPeer;
    hide Fd.Valid;
    InvPrefix(s);
    InvStates(s);
    RetryIs(s.a.fd, frameDue);
    var x := s.a;
    if x.fd.peers[0].retries > 0 {
      CtlOk(x.fd, 0);
      RewindInv(s, x.fd.peers[0].retries - 1, x.Ctl().confirmNs);
    } else {
      SamePrefix(s.a, s.a.(fd := fd), s.b);
    }
  }

  lemma RetryIs(fd: Fd, frameDue: bool)
    requires |fd.peers| == 1 && fd.peers[0].state == Connected && TimeoutPeer(fd, 0, frameDue, true) != fd
    ensures var r := TimeoutPeer(fd, 0, frameDue, true);
      var peer := fd.peers[0];
      if peer.retries > 0 then
        r == fd.(peers := [peer.(ctl := peer.ctl.(nextNs := peer.ctl.confirmNs), retries := peer.retries - 1)],
                 txAvailable := true)
      else Left(fd, r) && r.delivered == fd.delivered
  {
    hide ResetSlots;
  }

  lemma SamePrefix(x: Station, x': Station, y: Station)
    requires x'.fd.delivered == x.fd.delivered && x'.sent == x.sent
    ensures Prefix(x, y) ==> Prefix(x', y)
    ensures Prefix(y, x) ==> Prefix(y, x')
  {}

  lemma InvPrefix(s: Session)
    requires Inv(s)
    ensures Prefix(s.a, s.b) && Prefix(s.b, s.a)
  {
    hide Agrees;
    hide Acks;
    hide Handshake;
    hide Local;
    hide DataPacket;
  }

  // ----- Transmitting a service frame -----

  /** x after the frame in slot j has gone out. */
  function Emptied(x: Station, j: nat): Station
    requires j < |x.fd.sq.slots|
  {
    x.(fd := x.fd.(sq := x.fd.sq.(slots := x.fd.sq.slots[j := None])))
  }

  function ServiceTag(x: Station, j: nat): Tag
    requires j < |x.fd.sq.slots| == |x.slotAck|
  {
    if PendingS(x.fd.sq.slots[j]) then TagS(x.slotAck[j]) else TagU
  }

  lemma ServiceBytes(x: Station, j: nat)
    requires Local(x) && j < |x.fd.sq.slots| && x.fd.sq.slots[j].Some?
    ensures var f := x.fd.sq.slots[j].value;
      f.ToBytes() == [Addr(x), f.header.control] && ServicePacket(x, Packet(f.ToBytes(), ServiceTag(x, j)))
  {
    hide Seq;
    hide RrControl;
    hide RejControl;
    assert SlotOk(x, j);
    var f := x.fd.sq.slots[j].value;
    assert f.ToBytes() == [Addr(x), f.header.control];
  }

  lemma EmptiedLocal(x: Station, j: nat)
    requires Local(x) && j < |x.fd.sq.slots|
    ensures Local(Emptied(x, j)) && Addr(Emptied(x, j)) == Addr(x)
  {
    hide Seq;
    hide RrControl;
    hide RejControl;
    var x' := Emptied(x, j);
    assert Addr(x') == Addr(x);
    assert forall k :: 0 <= k < |x.fd.sq.slots| && SlotOk(x, k) ==> SlotOk(x', k);
  }

  lemma ServiceAcks(x: Station, xy: seq<Packet>, y: Station, j: nat, p: Packet)
    requires Local(x) && Local(y) && j < |x.fd.sq.slots| && x.fd.sq.slots[j].Some?
    requires p.tag == ServiceTag(x, j) && ServicePacket(x, p)
    requires forall k :: 0 <= k < j ==> x.fd.sq.slots[k].None?
    ensures Acks(x, xy, y) ==> Acks(Emptied(x, j), xy + [p], y)
  {
    hide Seq;
    hide RrControl;
    hide RejControl;
    assert SlotOk(x, j);
    assert Addr(Emptied(x, j)) == Addr(x);
  }

  lemma ServiceData(x: Station, xy: seq<Packet>, y: Station, j: nat, p: Packet)
    requires Local(x) && Local(y) && j < |x.fd.sq.slots| && !p.tag.TagI? && Addr(Emptied(x, j)) == Addr(x)
    ensures Data(x, xy, y) ==> Data(Emptied(x, j), xy + [p], y)
  {
    hide Seq;
    hide Agrees;
    hide Local;
    assert forall q :: DataPacket(x, q) ==> DataPacket(Emptied(x, j), q);
  }

  lemma AppendHasUa(xy: seq<Packet>, p: Packet)
    ensures HasUa(xy + [p]) <==> HasUa(xy) || IsUa(p)
    ensures HasU(xy + [p]) <==> HasU(xy) || U(p)
  {
    hide U;
    hide IsUa;
    var xy' := xy + [p];
    assert xy'[|xy|] == p && forall q :: 0 <= q < |xy| ==> xy'[q] == xy[q];
    if HasUa(xy) {
      var q :| 0 <= q < |xy| && IsUa(xy[q]);
      assert IsUa(xy'[q]);
    }
    if HasU(xy) {
      var q :| 0 <= q < |xy| && U(xy[q]);
      assert U(xy'[q]);
    }
    assert IsUa(p) ==> IsUa(xy'[|xy|]);
    assert U(p) ==> U(xy'[|xy|]);
  }

  lemma ServiceOrder(x: Station, xy: seq<Packet>, j: nat, p: Packet)
    requires Local(x) && j < |x.fd.sq.slots| && x.fd.sq.slots[j].Some? && p.tag == ServiceTag(x, j)
    requires p.bytes == [Addr(x), x.fd.sq.slots[j].value.header.control]
    requires forall q :: 0 <= q < |xy| ==> ServicePacket(x, xy[q])
    requires forall k :: 0 <= k < j ==> x.fd.sq.slots[k].None?
    ensures Order(x, xy) ==> Order(Emptied(x, j), xy + [p])
  {
    SlotKind(x, j);
    if Order(x, xy) {
      forall q | 0 <= q < |xy| && U(xy[q]) && U(p) ensures IsSabm(xy[q]) && IsUa(p) {
        SpokenBefore(x, xy, j, q);
      }
      ServiceOrderSlots(x, xy, j, p);
    }
  }

  lemma ServiceOrderSlots(x: Station, xy: seq<Packet>, j: nat, p: Packet)
    requires j < |x.fd.sq.slots| == |x.slotAck| && x.fd.sq.slots[j].Some? && p.tag == ServiceTag(x, j)
    requires PendingU(x.fd.sq.slots[j]) != PendingS(x.fd.sq.slots[j])
    requires |x.fd.peers| == 1 && p.bytes == [Addr(x), x.fd.sq.slots[j].value.header.control]
    requires forall k :: 0 <= k < j ==> x.fd.sq.slots[k].None?
    requires Order(x, xy) && forall q :: 0 <= q < |xy| && U(xy[q]) && U(p) ==> IsSabm(xy[q]) && IsUa(p)
    ensures Order(Emptied(x, j), xy + [p])
  {
    hide HasU;
    hide HasUa;
    hide Order;
    OrderedSlots(x, xy, j, p);
    OrderedPackets(x, xy, p);
    OrderOf(Emptied(x, j), xy + [p]);
  }

  /** What Order says of the packets alone. */
  ghost predicate InOrderOfKind(xy: seq<Packet>) {
    forall p, q | 0 <= p < q < |xy| && U(xy[p]) && U(xy[q]) :: IsSabm(xy[p]) && IsUa(xy[q])
  }

  /** And of the slots. */
  ghost predicate SlotsInOrder(x: Station, xy: seq<Packet>) {
    && (forall j :: 0 <= j < |x.fd.sq.slots| && SabmSlot(x.fd.sq.slots[j]) ==> j == 0 && !HasU(xy))
    && (forall j :: 0 <= j < |x.fd.sq.slots| && UaSlot(x.fd.sq.slots[j]) ==> j <= 1 && !HasUa(xy))
    && (forall j, k | 0 <= j < |x.fd.sq.slots| && 0 <= k < |x.fd.sq.slots| &&
                      UaSlot(x.fd.sq.slots[j]) && UaSlot(x.fd.sq.slots[k]) :: j == k)
  }

  lemma OrderOf(x: Station, xy: seq<Packet>)
    ensures Order(x, xy) <==> InOrderOfKind(xy) && SlotsInOrder(x, xy)
  {
    hide HasU;
    hide HasUa;
    hide SabmSlot;
    hide UaSlot;
    hide IsSabm;
    hide IsUa;
    hide U;
  }

  lemma OrderedPackets(x: Station, xy: seq<Packet>, p: Packet)
    requires Order(x, xy) && forall q :: 0 <= q < |xy| && U(xy[q]) && U(p) ==> IsSabm(xy[q]) && IsUa(p)
    ensures InOrderOfKind(xy + [p])
  {
    hide HasU;
    hide HasUa;
    hide SabmSlot;
    hide UaSlot;
    hide IsSabm;
    hide IsUa;
    hide U;
  }

  lemma OrderedSlots(x: Station, xy: seq<Packet>, j: nat, p: Packet)
    requires j < |x.fd.sq.slots| == |x.slotAck| && x.fd.sq.slots[j].Some? && p.tag == ServiceTag(x, j)
    requires PendingU(x.fd.sq.slots[j]) != PendingS(x.fd.sq.slots[j])
    requires |x.fd.peers| == 1 && p.bytes == [Addr(x), x.fd.sq.slots[j].value.header.control]
    requires forall k :: 0 <= k < j ==> x.fd.sq.slots[k].None?
    requires Order(x, xy)
    ensures SlotsInOrder(Emptied(x, j), xy + [p])
  {
    hide HasU;
    hide HasUa;
    hide Addr;
    AppendHasUa(xy, p);
    assert U(p) ==> IsSabm(p) == SabmSlot(x.fd.sq.slots[j]) && IsUa(p) == UaSlot(x.fd.sq.slots[j]);
    assert forall k :: 0 <= k < |x.fd.sq.slots| && SabmSlot(x.fd.sq.slots[k]) ==> k == j;
  }

  /** When a U-frame is about to go out behind another, the first was the SABM and this one is the UA. */
  lemma SpokenBefore(x: Station, xy: seq<Packet>, j: nat, q: nat)
    requires Local(x) && j < |x.fd.sq.slots| && PendingU(x.fd.sq.slots[j]) && Order(x, xy)
    requires q < |xy| && U(xy[q]) && ServicePacket(x, xy[q])
    ensures IsSabm(xy[q]) && UaSlot(x.fd.sq.slots[j])
  {
    hide Seq;
    hide RrControl;
    hide RejControl;
    assert SlotOk(x, j);
    assert HasU(xy);
    assert !IsUa(xy[q]);
  }

  lemma AppendHasU(xy: seq<Packet>, p: Packet)
    ensures HasU(xy) ==> HasU(xy + [p])
    ensures U(p) ==> HasU(xy + [p])
    ensures forall q :: 0 <= q <= |xy| ==> (xy + [p])[..q] == xy[..q]
    ensures xy[..|xy|] == xy
  {
    var xy' := xy + [p];
    if HasU(xy) {
      var q :| 0 <= q < |xy| && U(xy[q]);
      assert U(xy'[q]);
    }
    if U(p) {
      assert U(xy'[|xy|]);
    }
  }

  /** Which kinds of frames can be waiting. */
  lemma SlotKind(x: Station, j: nat)
    requires Local(x) && j < |x.fd.sq.slots| && x.fd.sq.slots[j].Some?
    ensures PendingU(x.fd.sq.slots[j]) != PendingS(x.fd.sq.slots[j])
    ensures x.State() != Connected ==> PendingU(x.fd.sq.slots[j])
  {
    assert SlotOk(x, j);
  }

  lemma ServiceAhead(x: Station, xy: seq<Packet>, y: Station, j: nat, p: Packet)
    requires Local(x) && Local(y) && j < |x.fd.sq.slots| && x.fd.sq.slots[j].Some? && p.tag == ServiceTag(x, j)
    ensures Ahead(x, xy, y) ==> Ahead(Emptied(x, j), xy + [p], y)
  {
    hide Local;
    hide HasU;
    SlotKind(x, j);
    AppendHasU(xy, p);
    if Ahead(x, xy, y) && !U(p) {
      assert y.State() == Connected;
    }
  }

  lemma ServiceMeaning(x: Station, xy: seq<Packet>, y: Station, j: nat, p: Packet)
    requires Local(x) && Local(y) && j < |x.fd.sq.slots| && x.fd.sq.slots[j].Some? && p.tag == ServiceTag(x, j)
    requires p.bytes == [Addr(x), x.fd.sq.slots[j].value.header.control]
    ensures Meaning(x, xy, y) ==> Meaning(Emptied(x, j), xy + [p], y)
  {
    hide Seq;
    hide RrControl;
    hide RejControl;
    assert SlotOk(x, j);
  }

  lemma TransmitServiceInv(s: Session, j: nat)
    requires Inv(s) && FirstOccupied(s.a.fd.sq.slots, 0) == Some(j)
    ensures Inv(s.(a := Emptied(s.a, j), ab := s.ab + [Packet(s.a.fd.sq.slots[j].value.ToBytes(), ServiceTag(s.a, j))]))
  {
    hide Local;
    hide Data;
    hide Order;
    hide Ahead;
    hide Meaning;
    hide ServicePacket;
    hide U;
    hide PendingS;
    var p := Packet(s.a.fd.sq.slots[j].value.ToBytes(), ServiceTag(s.a, j));
    ServiceBytes(s.a, j);
    EmptiedLocal(s.a, j);
    ServiceAcks(s.a, s.ab, s.b, j, p);
    ServiceData(s.a, s.ab, s.b, j, p);
    ServiceOrder(s.a, s.ab, j, p);
    ServiceAhead(s.a, s.ab, s.b, j, p);
    ServiceMeaning(s.a, s.ab, s.b, j, p);
    SameEar(s.b, s.ba, s.a, Emptied(s.a, j));
  }

  // ----- Transmitting an I-frame -----

  /** The I-frame a connected station sends carries the payload of the frame its number denotes. */
  lemma NextIFrameBytes(x: Station)
    requires Local(x) && Eligible(x.fd, 0) && |x.sent| <= x.conf + 7
    requires Agrees(x.fd.iq.slots, Addr(x), x.conf, |x.sent|, x.sent)
    ensures var idx := IndexFrom(x.conf, x.Ctl().nextNs);
      && x.conf <= idx < |x.sent|
      && NextIFrame(x.fd, 0) == [Addr(x), IControl(Seq(idx), x.Ctl().nextNr)] + x.sent[idx]
  {
    hide Seq;
    hide IControl;
    hide IndexFrom;
    hide Agrees;
    var ns := x.Ctl().nextNs;
    FindAgrees(x.fd.iq.slots, Addr(x), x.conf, |x.sent|, x.sent, ns);
    IndexFromSeq(x.conf, ns);
    var slot := x.fd.iq.slots[Find(x.fd.iq.slots, IFrame, Addr(x), ns, 0).value].value;
    assert slot.ToBytes()[1 := IControl(ns, x.Ctl().nextNr)] == [Addr(x), IControl(ns, x.Ctl().nextNr)] + slot.payload;
  }

  /** x after an I-frame has gone out. */
  function Advanced(x: Station): Station
    requires |x.fd.peers| == 1
  {
    var peer := x.fd.peers[0];
    x.(fd := x.fd.(peers := [peer.(ctl := peer.ctl.(nextNs := Succ(peer.ctl.nextNs)), retries := x.fd.maxRetries)]))
  }

  lemma IFrameData(x: Station, xy: seq<Packet>, y: Station, p: Packet)
    requires Local(x) && Local(y) && Data(x, xy, y) && p.tag.TagI? && DataPacket(x, p)
    requires x.conf <= p.tag.idx < |x.sent| <= x.conf + 7
    ensures Data(x, xy + [p], y)
  {
    hide Local;
    hide Seq;
    hide Agrees;
    assert forall q :: 0 <= q < |xy| ==> DataPacket(x, xy[q]);
    hide DataPacket;
  }

  lemma IFrameAcks(x: Station, xy: seq<Packet>, y: Station, p: Packet)
    requires Local(x) && Local(y) && Acks(x, xy, y)
    requires p.tag.TagI? && p.tag.ack == x.Got() && y.conf <= x.Got()
    requires forall j :: 0 <= j < |x.fd.sq.slots| ==> x.fd.sq.slots[j].None?
    ensures Acks(x, xy + [p], y)
  {
    hide Local;
    assert ServicePacket(x, p);
    hide ServicePacket;
  }

  lemma IFrameVoice(x: Station, xy: seq<Packet>, y: Station, p: Packet)
    requires Local(x) && Local(y) && Acks(x, xy, y) && Handshake(x, xy, y) && x.State() == Connected
    requires p.tag.TagI? && p.tag.ack == x.Got() && y.conf <= x.Got()
    requires forall j :: 0 <= j < |x.fd.sq.slots| ==> x.fd.sq.slots[j].None?
    ensures Acks(x, xy + [p], y) && Handshake(x, xy + [p], y)
  {
    hide Local;
    hide Acks;
    IFrameAcks(x, xy, y, p);
    var xy' := xy + [p];
    assert !HasUSlot(x);
    forall q | 0 <= q < |xy'| && y.State() != Connected && !U(xy'[q]) ensures HasU(xy'[..q]) {
      assert xy'[..q] == xy[..q];
      assert xy[..|xy|] == xy;
    }
    if HasU(xy) {
      var q :| 0 <= q < |xy| && U(xy[q]);
      assert U(xy'[q]);
    }
  }

  lemma TransmitIInv(s: Session)
    requires Inv(s) && FirstOccupied(s.a.fd.sq.slots, 0) == None && Eligible(s.a.fd, 0)
    ensures var p := Packet(NextIFrame(s.a.fd, 0), TagI(IndexFrom(s.a.conf, s.a.Ctl().nextNs), s.a.Got()));
      Inv(s.(a := Advanced(s.a), ab := s.ab + [p]))
  {
    hide Seq;
    hide Succ;
    hide IControl;
    hide IndexFrom;
    hide Agrees;
    hide Handshake;
    hide Acks;
    hide SlotOk;
    hide Find;
    var x := s.a;
    var p := Packet(NextIFrame(x.fd, 0), TagI(IndexFrom(x.conf, x.Ctl().nextNs), x.Got()));
    WindowBound(x.fd.iq.slots, Addr(x), x.conf, |x.sent|, x.sent);
    NextIFrameBytes(x);
    IFrameData(x, s.ab, s.b, p);
    IFrameVoice(x, s.ab, s.b, p);
    SuccSmall(x.Ctl().nextNs);
    var x' := Advanced(x);
    SameButNext(x, x');
    SameVoice(x, x', s.ab + [p], s.b);
    SameEar(s.b, s.ba, x, x');
    SameData(x, x', s.ab + [p], s.b);
  }

  lemma TransmitInv(s: Session)
    requires Inv(s) && Enabled(s, Transmit)
    ensures Inv(StepA(s, Transmit))
  {
    hide Inv;
    hide Eligible;
    hide NextIFrame;
    hide IndexFrom;
    hide Succ;
    match FirstOccupied(s.a.fd.sq.slots, 0)
    case Some(j) => TransmitServiceInv(s, j);
    case None =>
      if Eligible(s.a.fd, 0) {
        TransmitIInv(s);
        assert FirstEligible(s.a.fd, 0) == Some(0);
        assert s.a.fd.peers[0 := Advanced(s.a).fd.peers[0]] == Advanced(s.a).fd.peers;
        assert Generate(s.a.fd) == (Advanced(s.a).fd, Some(NextIFrame(s.a.fd, 0)));
      } else {
        assert FirstEligible(s.a.fd, 0) == FirstEligible(s.a.fd, 1) == None;
      }
  }
}
