/**
 A run, from two configured stations on, in which a payload that was accepted and never
 delivered leaves the sender's queue: no frame is lost, no timer fires once the stations
 are connected, and every step is one the code can take.
 */
module LostFrames {
  import opened Base
  import opened SeqNum
  import opened FdDefs
  import opened IQueueControl
  import opened FrameQueue
  import opened FdSpec
  import opened Window
  import opened Session
  import opened SessionProof
  import opened SessionReceive
  import opened SessionTheorems
  import opened Quiescence
  import opened OutOfOrder
  import opened Isolation
  import opened Wire
  import opened Exactness
  import TinyFd

  // ----- Runs seen from the other side -----

  lemma {:induction false} FreeRunMirrored(s: Session, acts: seq<(bool, Action)>)
    requires FreeRun(s, acts).Some?
    ensures FreeRun(Flip(s), Mirrored(acts)) == Some(Flip(FreeRun(s, acts).value))
  {
    hide Possible;
    hide StepA;
    if acts != [] {
      var n := |acts| - 1;
      FreeRunMirrored(s, acts[..n]);
      assert Mirrored(acts)[..n] == Mirrored(acts[..n]);
    }
  }

  lemma ReachesFlip(s: Session, r: Session)
    requires Reaches(Flip(s), r)
    ensures Reaches(s, Flip(r))
  {
    hide FreeRun;
    hide Plain;
    var acts :| FreeRun(Flip(s), acts) == Some(r) && AllPlain(acts);
    FreeRunMirrored(Flip(s), acts);
    assert FreeRun(s, Mirrored(acts)) == Some(Flip(r));
  }

  lemma TurnReaches(s: Session)
    requires InTurn(s)
    ensures Reaches(s, Turn(s))
  {
    hide Inv;
    hide Reaches;
    hide Generate;
    hide DoReceive;
    TurnEnabled(s);
    var t := StepA(s, Transmit);
    ReachesOne(s, true, Transmit);
    if t.ab != [] {
      ReachesOne(t, false, Receive);
      ReachesTrans(s, t, Turn(s));
    }
  }

  // ----- The receiver's search moves on -----

  lemma InTurnShape(s: Session)
    requires InTurn(s)
    ensures |s.b.fd.sq.slots| == 4 && NothingWaiting(s.b) && s.b.fd.sq.lookup < 4
    ensures FirstOccupied(s.a.fd.sq.slots, 0) == None <==> NothingWaiting(s.a)
  {
    hide SlotOk;
    hide Data;
    hide Acks;
    hide Handshake;
    if NothingWaiting(s.a) {
      FirstIsNone(s.a.fd.sq.slots, 0);
    }
  }

  lemma EmptySearch(y: Station)
    requires NothingWaiting(y) && |y.fd.sq.slots| == 4 && y.fd.sq.lookup < 3
    ensures FindFree(y.fd.sq.slots, y.fd.sq.lookup, 0) == Some(y.fd.sq.lookup)
    ensures Rotated(y.fd.sq.lookup, 1, 4) == y.fd.sq.lookup + 1
  {
    assert Rotated(y.fd.sq.lookup, 0, 4) == y.fd.sq.lookup;
  }

  /** A round delivers one frame, acknowledges it and moves the receiver's search on by one slot. */
  lemma RoundAdvances(s: Session) returns (r: Session)
    requires InTurn(s) && NothingWaiting(s.a) && s.b.Got() < |s.a.sent| && s.b.fd.sq.lookup < 3
    ensures Reaches(s, r) && InTurn(r) && NothingWaiting(r.a) && r.a.sent == s.a.sent
    ensures r.b.Got() == s.b.Got() + 1 && r.b.fd.sq.lookup == s.b.fd.sq.lookup + 1
  {
    hide InTurn;
    hide Turn;
    hide NothingWaiting;
    hide Reaches;
    InTurnShape(s);
    FrameTurn(s);
    TurnSent(s);
    TurnReaches(s);
    var t := Flip(Turn(s));
    InTurnShape(t);
    AckTurn(t, FirstOccupied(t.a.fd.sq.slots, 0).value);
    TurnSent(t);
    TurnReaches(t);
    EmptySearch(s.b);
    r := Flip(Turn(t));
    ReachesFlip(Turn(s), Turn(t));
    ReachesTrans(s, Turn(s), r);
  }

  /** From an idle link with enough to send, the receiver's search comes to the last slot. */
  lemma {:induction false} LastSlotReached(s: Session) returns (r: Session)
    requires InTurn(s) && NothingWaiting(s.a) && s.b.fd.sq.lookup <= 3
    requires s.b.Got() + 6 <= |s.a.sent| + s.b.fd.sq.lookup
    ensures Reaches(s, r) && InTurn(r) && NothingWaiting(r.a)
    ensures r.b.fd.sq.lookup == 3 && r.b.Got() + 3 <= |r.a.sent| && r.a.sent == s.a.sent
    ensures r.b.Got() + s.b.fd.sq.lookup == s.b.Got() + 3
    decreases 3 - s.b.fd.sq.lookup
  {
    hide InTurn;
    hide NothingWaiting;
    hide Reaches;
    if s.b.fd.sq.lookup == 3 {
      ReachesNone(s);
      r := s;
    } else {
      var t := RoundAdvances(s);
      r := LastSlotReached(t);
      ReachesTrans(s, t, r);
    }
  }

  /** The answer to one frame sits in the last slot, and the next search starts at the first. */
  ghost predicate AnswerLast(u: Session) {
    && Inv(u) && !u.over && u.ab == [] && u.ba == []
    && u.a.State() == Connected && u.b.State() == Connected
    && u.a.Ctl().nextNs == Seq(u.b.Got()) && u.a.conf <= u.b.Got() && NothingWaiting(u.a) && OneWaiting(u.b)
    && |u.b.fd.sq.slots| == 4 && FindFree(u.b.fd.sq.slots, u.b.fd.sq.lookup, 0) == Some(0)
    && PendingS(u.b.fd.sq.slots[3])
  }

  lemma FirstUnderWay(s: Session)
    requires InTurn(s) && NothingWaiting(s.a) && s.b.Got() < |s.a.sent|
    ensures Enabled(s, Transmit)
    ensures var t := StepA(s, Transmit);
      && t == Session(Advanced(s.a), s.b, t.ab, [], false) && |t.ab| == 1 && t.ab[0].tag == TagI(s.b.Got(), s.a.Got())
      && Both(t.b, [], t.a, t.ab) && Enabled(Flip(t), Receive)
  {
    hide Local;
    hide Data;
    hide Acks;
    hide Handshake;
    hide Seq;
    hide Generate;
    hide IsI;
    hide AnswersInOrder;
    hide Advanced;
    FirstIsNone(s.a.fd.sq.slots, 0);
    NextFrameGoes(s, s.b.Got());
    TurnEnabled(s);
    BothInv(StepA(s, Transmit));
  }

  lemma FirstAnswered(s: Session) returns (u: Session)
    requires InTurn(s) && NothingWaiting(s.a) && s.b.fd.sq.lookup == 3 && s.b.Got() < |s.a.sent|
    ensures Reaches(s, u) && AnswerLast(u) && u.b.Got() == s.b.Got() + 1 && u.a.sent == s.a.sent
  {
    hide Local;
    hide Data;
    hide Acks;
    hide Handshake;
    hide Seq;
    hide Succ;
    hide RrControl;
    hide DoReceive;
    hide Generate;
    hide IsI;
    hide Reaches;
    hide AnswersInOrder;
    FirstUnderWay(s);
    ReachesOne(s, true, Transmit);
    var t := StepA(s, Transmit);
    var p := t.ab[0];
    assert t.ab == [p];
    TookFrame(s.b, p, t.a, [p], []);
    ReachesOne(t, false, Receive);
    var y := DoReceive(s.b, p);
    u := Session(t.a, y, [], [], false);
    assert Step(t, false, Receive) == u;
    ReachesTrans(s, t, u);
    BothInv(u);
    OneInLastSlot(s.b, y);
    SeqSucc(s.b.Got());
  }

  /** The next frame under way, whose answer will overtake that one. */
  lemma SecondUnderWay(u: Session)
    requires AnswerLast(u) && u.b.Got() < |u.a.sent|
    ensures Enabled(u, Transmit)
    ensures var r := StepA(u, Transmit);
      && r == Session(Advanced(u.a), u.b, r.ab, [], false) && Inv(r)
      && |r.ab| == 1 && r.ab[0].tag == TagI(u.b.Got(), u.a.Got()) && |r.ab[0].bytes| >= 2
      && r.a.Ctl().nextNs == Seq(u.b.Got() + 1)
  {
    hide Inv;
    hide Seq;
    hide Succ;
    hide IsI;
    hide FindFree;
    hide StepA;
    FirstIsNone(u.a.fd.sq.slots, 0);
    NextFrameGoes(u, u.b.Got());
    TransmitInv(u);
    SeqSucc(u.b.Got());
    var r := StepA(u, Transmit);
    FlipInv(r);
    PacketLong(Flip(r));
  }

  /** From there two frames in a row are enough: the answer to the second will overtake the answer to the first. */
  lemma OvertakingReached(s: Session) returns (r: Session)
    requires InTurn(s) && NothingWaiting(s.a) && s.b.fd.sq.lookup == 3 && s.b.Got() + 2 <= |s.a.sent|
    ensures Reaches(s, r) && Inv(r) && !r.over && r.a.State() == Connected && r.b.State() == Connected
    ensures r.ab != [] && r.ab[0].tag.TagI? && r.ab[0].tag.idx == r.b.Got() == s.b.Got() + 1
    ensures |r.ab[0].bytes| >= 2 && !AnswersInOrder(r.b.fd, r.ab[0].bytes) && r.a.sent == s.a.sent
    ensures |r.ab| == 1 && r.ba == [] && NothingWaiting(r.a) && r.a.Ctl().nextNs == Seq(r.b.Got() + 1)
    ensures OneWaiting(r.b) && |r.b.fd.sq.slots| == 4 && FindFree(r.b.fd.sq.slots, r.b.fd.sq.lookup, 0) == Some(0)
    ensures PendingS(r.b.fd.sq.slots[3])
  {
    hide Inv;
    hide Seq;
    hide Reaches;
    hide StepA;
    hide IsI;
    hide AnswersInOrder;
    hide FindFree;
    var u := FirstAnswered(s);
    SecondUnderWay(u);
    ReachesOne(u, true, Transmit);
    r := StepA(u, Transmit);
    ReachesTrans(s, u, r);
    BothInv(r);
    LastOvertaken(r);
  }

  lemma LastOvertaken(r: Session)
    requires Both(r.b, r.ba, r.a, r.ab) && r.b.State() == Connected && r.a.State() == Connected
    requires r.ab != [] && r.ab[0].tag.TagI? && r.ab[0].tag.idx == r.b.Got() && |r.ab[0].bytes| >= 2
    requires OneWaiting(r.b) && |r.b.fd.sq.slots| == 4 && FindFree(r.b.fd.sq.slots, r.b.fd.sq.lookup, 0) == Some(0)
    requires PendingS(r.b.fd.sq.slots[3])
    ensures !AnswersInOrder(r.b.fd, r.ab[0].bytes)
  {
    hide Local;
    hide Data;
    hide Acks;
    hide Handshake;
    hide Seq;
    hide FindFree;
    hide AnswersInOrder;
    OrderIff(r.b, r.ba, r.a, r.ab);
  }

  lemma OneInLastSlot(y: Station, y': Station)
    requires Local(y) && Local(y') && NothingWaiting(y) && y.fd.sq.lookup == 3 && OneWaiting(y')
    requires FindFree(y.fd.sq.slots, 3, 0).Some?
    requires y'.fd.sq.lookup == Rotated(FindFree(y.fd.sq.slots, 3, 0).value, 1, 4)
    requires y'.fd.sq.slots[FindFree(y.fd.sq.slots, 3, 0).value].Some?
    ensures FindFree(y'.fd.sq.slots, y'.fd.sq.lookup, 0) == Some(0) && PendingS(y'.fd.sq.slots[3])
  {
    hide SlotOk;
    hide Seq;
    hide RrControl;
    hide AddressToPeer;
    hide Blank;
    hide UserAddress;
    hide AddressOf;
    assert |y.fd.sq.slots| == 4 && |y'.fd.sq.slots| == 4;
    LastThenFirst(y.fd.sq.slots);
    LastThenFirst(y'.fd.sq.slots);
  }

  lemma LastThenFirst(slots: seq<Slot>)
    requires |slots| == 4
    ensures slots[3].None? ==> FindFree(slots, 3, 0) == Some(3)
    ensures slots[0].None? ==> FindFree(slots, 0, 0) == Some(0)
    ensures Rotated(3, 1, 4) == 0
  {
    assert Rotated(3, 0, 4) == 3 && Rotated(0, 0, 4) == 0;
  }

  // ----- Sends are accepted while there is room -----

  /** The first station's user hands over the same payload n times. */
  lemma {:induction false} SendMany(s: Session, data: seq<byte>, n: nat) returns (r: Session)
    requires InTurn(s) && NothingWaiting(s.a) && BitExact(s.a.fd) && |data| <= s.a.fd.mtu
    requires Occupied(s.a.fd.iq.slots) + n <= |s.a.fd.iq.slots|
    ensures Reaches(s, r) && InTurn(r) && NothingWaiting(r.a) && r.b == s.b
    ensures |r.a.sent| == |s.a.sent| + n
    decreases n
  {
    hide InTurn;
    hide NothingWaiting;
    hide Reaches;
    hide BitExact;
    if n == 0 {
      ReachesNone(s);
      r := s;
    } else {
      var t := SendOneMore(s, data);
      r := SendMany(t, data, n - 1);
      ReachesTrans(s, t, r);
    }
  }

  lemma SendOneMore(s: Session, data: seq<byte>) returns (r: Session)
    requires InTurn(s) && NothingWaiting(s.a) && BitExact(s.a.fd) && |data| <= s.a.fd.mtu
    requires Occupied(s.a.fd.iq.slots) < |s.a.fd.iq.slots|
    ensures Reaches(s, r) && InTurn(r) && NothingWaiting(r.a) && r.b == s.b && BitExact(r.a.fd)
    ensures |r.a.sent| == |s.a.sent| + 1 && r.a.fd.mtu == s.a.fd.mtu
    ensures Occupied(r.a.fd.iq.slots) == Occupied(s.a.fd.iq.slots) + 1 && |r.a.fd.iq.slots| == |s.a.fd.iq.slots|
  {
    hide Data;
    hide Acks;
    hide Handshake;
    hide SlotOk;
    hide Reaches;
    hide BitExact;
    hide DoSend;
    var act := Send(FD_PRIMARY_ADDR, data);
    OccupiedIff(s.a.fd.iq.slots);
    SendInTurn(s, true, FD_PRIMARY_ADDR, data);
    ReachesOne(s, true, act);
    r := StepA(s, act);
    var j := SendCases(s.a, FD_PRIMARY_ADDR, data);
    SendAccepted(s, data);
    OccupiedPut(s.a.fd.iq.slots, j, IFrameFor(s.a.fd, 0, data));
  }

  lemma SendAccepted(s: Session, data: seq<byte>)
    requires InTurn(s) && BitExact(s.a.fd) && HasFree(s.a.fd.iq.slots) && |data| <= s.a.fd.mtu
    ensures var x := DoSend(s.a, FD_PRIMARY_ADDR, data);
      x.sent == s.a.sent + [data] && BitExact(x.fd) && x.fd.mtu == s.a.fd.mtu
  {
    hide Acks;
    hide Handshake;
    hide SlotOk;
    hide Agrees;
    hide Seq;
    hide BitExact;
    hide FdSpec.SendPacket;
    SendKeepsBit(s.a.fd, FD_PRIMARY_ADDR, data);
    BackPressureExact(s.a.fd, FD_PRIMARY_ADDR, data, s.a.conf, s.a.sent);
    SendMtu(s.a.fd, FD_PRIMARY_ADDR, data);
  }

  lemma SendMtu(fd: Fd, address: byte, data: seq<byte>)
    requires fd.Valid()
    ensures FdSpec.SendPacket(fd, address, data).0.mtu == fd.mtu
  {
    hide Fd.Valid;
    hide FindFree;
    hide Rotated;
    hide AddressOf;
    hide SendTarget;
  }

  // ----- Two configured stations connect -----

  const ADDRESS: byte := 5

  /** A station that has sent and taken no data; one frame at most waits, in the first service slot. */
  ghost predicate Young(x: Station, state: FdState, lookup: nat, first: Slot) {
    && x.fd.Valid() && |x.fd.peers| == 1 && |x.slotAck| == U_QUEUE_MAX_SIZE
    && Addr(x) == ADDRESS && AddressToPeer(x.fd.peers, x.fd.localAddr, ADDRESS) == 0
    && x.State() == state && x.Ctl() == CTL_ZERO
    && (forall j :: 0 <= j < |x.fd.iq.slots| ==> x.fd.iq.slots[j].None?) && x.fd.freeSlots
    && x.fd.sq == Queue([first, None, None, None], lookup)
    && x.fd.delivered == [] && x.conf == 0 && x.sent == []
  }

  /** The configuration does not change. */
  ghost predicate SameSize(x: Station, y: Station) {
    |y.fd.iq.slots| == |x.fd.iq.slots| && y.fd.mtu == x.fd.mtu && y.fd.mode == x.fd.mode
  }

  function ServiceSlot(control: byte): Slot {
    Some(ServiceFrame(UFrame, ADDRESS, control))
  }

  lemma FirstFree(slots: seq<Slot>)
    requires slots == [None, None, None, None]
    ensures FindFree(slots, 0, 0) == Some(0) && Rotated(0, 1, 4) == 1
  {
    assert Rotated(0, 0, 4) == 0;
  }

  lemma YoungDials(x: Station)
    requires Young(x, Disconnected, 0, None) && x.fd.mode == Abm
    ensures var y := x.(fd := TimeoutPeer(x.fd, 0, true, false));
      Young(y, Connecting, 1, ServiceSlot(SABM_CONTROL)) && SameSize(x, y)
  {
    hide FindFree;
    hide Rotated;
    hide NoCr;
    FirstFree(x.fd.sq.slots);
  }

  lemma YoungSpeaks(x: Station, state: FdState, control: byte)
    requires Young(x, state, 1, ServiceSlot(control))
    ensures var (fd, out) := Generate(x.fd);
      && Young(x.(fd := fd), state, 1, None) && SameSize(x, x.(fd := fd))
      && out == Some([ADDRESS, control]) && NextTag(x) == TagU
  {
    hide NoCr;
    FirstIs(x.fd.sq.slots, 0, 0);
    assert x.fd.sq.slots[0].value.ToBytes() == [ADDRESS, control];
  }

  lemma YoungAnswers(x: Station, p: Packet)
    requires Young(x, Disconnected, 0, None) && p == Packet([ADDRESS, SABM_CONTROL], TagU)
    ensures var y := DoReceive(x, p); Young(y, Connected, 1, ServiceSlot(UA_CONTROL)) && SameSize(x, y)
  {
    hide FindFree;
    hide Rotated;
    hide NoCr;
    UControlRoundTrip();
    FirstFree(x.fd.sq.slots);
  }

  lemma YoungJoins(x: Station, p: Packet)
    requires Young(x, Connecting, 1, None) && p == Packet([ADDRESS, UA_CONTROL], TagU)
    ensures var y := DoReceive(x, p); Young(y, Connected, 1, None) && SameSize(x, y)
  {
    hide FindFree;
    hide Rotated;
    hide NoCr;
    UControlRoundTrip();
  }

  /** One step of a run that keeps the condition. */
  lemma GoodStep(s: Session, first: bool, act: Action) returns (r: Session)
    requires Good(s) && Enabled(if first then s else Flip(s), act)
    ensures r == Step(s, first, act) && Good(r) && Runs(s, r)
  {
    hide Good;
    hide Enabled;
    hide Possible;
    hide Step;
    hide Runs;
    StepGood(s, first, act);
    RunsNone(s);
    RunsOn(s, s, first, act);
    r := Step(s, first, act);
  }

  /** The first station asks for a connection. */
  lemma Ask(s: Session) returns (r: Session)
    requires Good(s) && !s.over && s.ab == s.ba == [] && s.a.fd.mode == Abm && Young(s.a, Disconnected, 0, None)
    ensures Good(r) && Runs(s, r) && SameSize(s.a, r.a) && Young(r.a, Connecting, 1, None)
    ensures r == Session(r.a, s.b, [Packet([ADDRESS, SABM_CONTROL], TagU)], [], false)
  {
    hide Good;
    hide Runs;
    hide Generate;
    hide TimeoutPeer;
    hide AddressOf;
    hide AddressToPeer;
    YoungDials(s.a);
    var t := GoodStep(s, true, Timer(true, false));
    YoungSpeaks(t.a, Connecting, SABM_CONTROL);
    r := GoodStep(t, true, Transmit);
    RunsTrans(s, t, r);
  }

  /** The second station takes the request and confirms it. */
  lemma Confirmation(s: Session) returns (r: Session)
    requires Good(s) && s == Session(s.a, s.b, [Packet([ADDRESS, SABM_CONTROL], TagU)], [], false)
    requires Young(s.b, Disconnected, 0, None)
    ensures Good(r) && Runs(s, r) && SameSize(s.b, r.b) && Young(r.b, Connected, 1, None)
    ensures r == Session(s.a, r.b, [], [Packet([ADDRESS, UA_CONTROL], TagU)], false)
  {
    hide Good;
    hide Runs;
    hide Generate;
    hide DoReceive;
    hide AddressOf;
    hide AddressToPeer;
    UControlRoundTrip();
    YoungAnswers(s.b, s.ab[0]);
    var t := GoodStep(s, false, Receive);
    YoungSpeaks(t.b, Connected, UA_CONTROL);
    r := GoodStep(t, false, Transmit);
    RunsTrans(s, t, r);
  }

  /** A connection request and its confirmation. */
  lemma Connect(s: Session) returns (r: Session)
    requires Init(s) && s.a.fd.mode == Abm
    requires Young(s.a, Disconnected, 0, None) && Young(s.b, Disconnected, 0, None)
    ensures Runs(s, r) && InTurn(r) && SameSize(s.a, r.a) && SameSize(s.b, r.b)
    ensures Young(r.a, Connected, 1, None) && Young(r.b, Connected, 1, None)
  {
    hide Inv;
    hide Runs;
    hide DoReceive;
    hide AddressOf;
    hide AddressToPeer;
    RunGood(s, []);
    assert RunFrom(s, []) == Some(s);
    UControlRoundTrip();
    var t := Ask(s);
    var u := Confirmation(t);
    RunsTrans(s, t, u);
    YoungJoins(u.a, u.ba[0]);
    r := GoodStep(u, true, Receive);
    RunsTrans(s, u, r);
    assert Seq(0) == 0;
  }

  lemma ConfiguredYoung(s: Session, primary: TinyFd.TinyFdConfig, secondary: TinyFd.TinyFdConfig)
    requires primary.addr == 0 && primary.peersCount <= 1 && 1 <= primary.windowFrames <= 7
    requires secondary.addr == 1 && secondary.peersCount <= 255 && 1 <= secondary.windowFrames <= 7
    requires Configured(s.a, primary) && Configured(s.b, secondary)
    ensures Young(s.a, Disconnected, 0, None) && Young(s.b, Disconnected, 0, None)
  {
    TinyFd.TinyFd.InitialValid(s.a.fd, primary);
    TinyFd.TinyFd.InitialValid(s.b.fd, secondary);
    assert StationAddress(1) == 5 && IsPrimaryAddress(1) && !IsPrimaryAddress(5) && NoCr(1) == 1 && NoCr(5) == 5;
    assert FindPeer(s.a.fd.peers, 5, 0) == 0;
    assert s.a.fd.sq.slots == [None, None, None, None] && s.b.fd.sq.slots == [None, None, None, None];
  }

  lemma YoungRoom(x: Station)
    requires Young(x, Connected, 1, None)
    ensures NothingWaiting(x) && BitExact(x.fd) && Occupied(x.fd.iq.slots) == 0 && Tidy(x, x.fd)
    ensures x.Got() == 0 && x.sent == [] && x.fd.sq.lookup == 1
  {
    hide AddressOf;
    hide AddressToPeer;
    OccupiedNone(x.fd.iq.slots);
    assert x.fd.iq.slots[0].None?;
  }

  /** Two configured stations connect, five packets are accepted, and the next answer will overtake another. */
  lemma Overtake(s: Session, primary: TinyFd.TinyFdConfig, secondary: TinyFd.TinyFdConfig, data: seq<byte>)
    returns (t: Session, w: Session)
    requires primary.addr == 0 && primary.peersCount <= 1 && 5 <= primary.windowFrames <= 7 && primary.mode == Abm
    requires secondary.addr == 1 && secondary.peersCount <= 255 && 1 <= secondary.windowFrames <= 7
    requires Configured(s.a, primary) && Configured(s.b, secondary) && s.ab == s.ba == [] && !s.over
    requires |data| <= s.a.fd.mtu
    ensures Runs(s, t) && |t.a.fd.peers| == |t.b.fd.peers| == 1 && t.a.State() == t.b.State() == Connected
    ensures Tidy(t.a, t.a.fd) && Tidy(t.b, t.b.fd) && SameSize(s.a, t.a)
    ensures Reaches(t, w) && Inv(w) && !w.over && w.a.State() == Connected && w.b.State() == Connected
    ensures |w.ab| == 1 && w.ab[0].tag.TagI? && w.ab[0].tag.idx == w.b.Got() == 3 && |w.a.sent| == 5 && w.ba == []
    ensures |w.ab[0].bytes| >= 2 && !AnswersInOrder(w.b.fd, w.ab[0].bytes)
    ensures NothingWaiting(w.a) && w.a.Ctl().nextNs == Seq(4)
    ensures OneWaiting(w.b) && |w.b.fd.sq.slots| == 4 && FindFree(w.b.fd.sq.slots, w.b.fd.sq.lookup, 0) == Some(0)
    ensures PendingS(w.b.fd.sq.slots[3])
  {
    hide InTurn;
    hide Inv;
    hide Reaches;
    hide Runs;
    hide Young;
    hide Init;
    hide Tidy;
    hide NothingWaiting;
    hide OneWaiting;
    hide AnswersInOrder;
    hide FindFree;
    hide Seq;
    ConfiguredInit(s, primary, secondary);
    ConfiguredYoung(s, primary, secondary);
    t := Connect(s);
    ConnectedBoth(t);
    YoungRoom(t.a);
    YoungRoom(t.b);
    var u := SendMany(t, data, 5);
    var v := LastSlotReached(u);
    ReachesTrans(t, u, v);
    w := OvertakingReached(v);
    ReachesTrans(t, v, w);
  }

  /**
   Without the condition, frames are lost: from any primary for one peer with at least
   five window frames, and any secondary, as configured, the code can connect, accept five
   packets, exchange frames without losing any and without a timer firing, and come to a
   state in which a packet that was accepted and not delivered is no longer queued.
   */
  lemma FrameLost(s: Session, primary: TinyFd.TinyFdConfig, secondary: TinyFd.TinyFdConfig, data: seq<byte>)
    returns (t: Session, r: Session)
    requires primary.addr == 0 && primary.peersCount <= 1 && 5 <= primary.windowFrames <= 7 && primary.mode == Abm
    requires secondary.addr == 1 && secondary.peersCount <= 255 && 1 <= secondary.windowFrames <= 7
    requires Configured(s.a, primary) && Configured(s.b, secondary) && s.ab == s.ba == [] && !s.over
    requires |data| <= s.a.fd.mtu
    ensures Runs(s, t) && |t.a.fd.peers| == |t.b.fd.peers| == 1 && t.a.State() == t.b.State() == Connected
    ensures Reaches(t, r) && !r.over && |r.a.fd.peers| == |r.b.fd.peers| == 1
    ensures r.a.State() == r.b.State() == Connected
    ensures r.b.Got() < |r.a.sent| && !Kept(r.a, r.b)
  {
    hide Inv;
    hide Reaches;
    hide Runs;
    hide Kept;
    hide Tidy;
    hide AnswersInOrder;
    var w;
    t, w := Overtake(s, primary, secondary, data);
    r := Overtaken(w);
    ReachesTrans(t, w, r);
  }

  lemma ConnectedBoth(s: Session)
    requires InTurn(s)
    ensures |s.a.fd.peers| == |s.b.fd.peers| == 1 && s.a.State() == s.b.State() == Connected
  {
    hide Data;
    hide Acks;
    hide Handshake;
    hide SlotOk;
  }

  // ----- And then a wrong payload -----

  /** The two answers that will cross, and nothing else, are all the receiver has to say. */
  lemma TwoWait(y: Station, address: byte, m: nat)
    requires |y.fd.sq.slots| == 4 == |y.slotAck| && y.fd.sq.slots[1].None? && y.fd.sq.slots[2].None?
    requires y.fd.sq.slots[0].Some? && y.fd.sq.slots[3].Some?
    ensures Waiting(y, 0) == [WaitingAt(y, 0), WaitingAt(y, 3)]
  {
    hide WaitingAt;
    assert Waiting(y, 4) == [];
    assert Waiting(y, 3) == [WaitingAt(y, 3)] + Waiting(y, 4);
    assert Waiting(y, 1) == Waiting(y, 2) == Waiting(y, 3);
    assert Waiting(y, 0) == [WaitingAt(y, 0)] + Waiting(y, 1);
  }

  /** The two acknowledgements are under way to the first station, the newer one in front. */
  ghost predicate Crossing(w: Session, v: Session, like: Fd)
    requires |like.peers| == 1
  {
    && v.a == w.a && v.ab == [] && !v.over && Expects(v.b, AddressOf(like, 0), w.b.Got() + 1)
    && |v.ba| == 2 && v.ba[0].tag.TagS? && v.ba[1].tag.TagS?
    && v.ba[0].bytes == [AddressOf(like, 0), RrControl(Seq(w.b.Got() + 1))]
    && v.ba[1].bytes == [AddressOf(like, 0), RrControl(Seq(w.b.Got()))]
  }

  /** The second frame is taken and both answers wait. */
  lemma BothAnswersWait(w: Session, like: Fd) returns (t: Session)
    requires Inv(w) && !w.over && w.a.State() == Connected && w.b.State() == Connected && Tidy(w.a, like)
    requires |w.ab| == 1 && w.ab[0].tag.TagI? && w.ab[0].tag.idx == w.b.Got() && |w.ab[0].bytes| >= 2 && w.ba == []
    requires !AnswersInOrder(w.b.fd, w.ab[0].bytes) && NothingWaiting(w.a) && OneWaiting(w.b)
    requires |w.b.fd.sq.slots| == 4 && FindFree(w.b.fd.sq.slots, w.b.fd.sq.lookup, 0) == Some(0)
    requires PendingS(w.b.fd.sq.slots[3])
    ensures |like.peers| == 1 && Reaches(w, t) && t == Session(w.a, t.b, [], [], false) && |w.a.sent| >= w.b.Got() + 1
    ensures var y, address, m := t.b, AddressOf(like, 0), w.b.Got() + 1;
      && Listening(y, address) && y.Got() == m && y.Ctl().nextNr == Seq(m)
      && |y.slotAck| == |y.fd.sq.slots| == 4 && PendingS(y.fd.sq.slots[0]) && PendingS(y.fd.sq.slots[3])
      && y.fd.sq.slots[1].None? && y.fd.sq.slots[2].None?
      && y.fd.sq.slots[0].value.ToBytes() == [address, RrControl(Seq(m))]
      && y.fd.sq.slots[3].value.ToBytes() == [address, RrControl(Seq(w.b.Got()))]
  {
    hide Goes;
    hide Tidy;
    hide Hears;
    hide InWindow;
    hide DoReceive;
    hide AnswersInOrder;
    hide Data;
    hide Acks;
    hide Handshake;
    hide SlotOk;
    hide RrControl;
    hide RejControl;
    hide Seq;
    hide AddressOf;
    hide AddressToPeer;
    hide FindFree;
    hide Reaches;
    BothInv(w);
    InvReady(w, like);
    var j, k := TookAnyway(w.b, w.ba, w.a, w.ab);
    ReachesOne(w, false, Receive);
    t := Step(w, false, Receive);
    assert w.ab[1..] == [];
    LocalSlot(w.b, 3);
    ServiceBytes(w.b, 3);
  }

  /** Both answers go out. */
  lemma BothAnswersOut(w: Session, like: Fd) returns (v: Session)
    requires Inv(w) && !w.over && w.a.State() == Connected && w.b.State() == Connected && Tidy(w.a, like)
    requires |w.ab| == 1 && w.ab[0].tag.TagI? && w.ab[0].tag.idx == w.b.Got() && |w.ab[0].bytes| >= 2 && w.ba == []
    requires !AnswersInOrder(w.b.fd, w.ab[0].bytes) && NothingWaiting(w.a) && OneWaiting(w.b)
    requires |w.b.fd.sq.slots| == 4 && FindFree(w.b.fd.sq.slots, w.b.fd.sq.lookup, 0) == Some(0)
    requires PendingS(w.b.fd.sq.slots[3])
    ensures |like.peers| == 1 && Reaches(w, v) && Crossing(w, v, like) && |w.a.sent| >= w.b.Got() + 1
  {
    hide Inv;
    hide Goes;
    hide Tidy;
    hide Hears;
    hide AnswersInOrder;
    hide RrControl;
    hide Seq;
    hide AddressOf;
    hide FindFree;
    hide Reaches;
    hide Waiting;
    var t := BothAnswersWait(w, like);
    TwoWait(t.b, AddressOf(like, 0), w.b.Got() + 1);
    v := Flush(t, AddressOf(like, 0), 0);
    GoesReaches(t, v);
    assert v.ba == [WaitingAt(t.b, 0), WaitingAt(t.b, 3)];
    ReachesTrans(w, t, v);
  }

  /** And the sender takes the newer one. */
  lemma CatchPlainly(w: Session, like: Fd) returns (u: Session)
    requires Inv(w) && !w.over && w.a.State() == Connected && w.b.State() == Connected && Tidy(w.a, like)
    requires |w.ab| == 1 && w.ab[0].tag.TagI? && w.ab[0].tag.idx == w.b.Got() && |w.ab[0].bytes| >= 2 && w.ba == []
    requires !AnswersInOrder(w.b.fd, w.ab[0].bytes) && NothingWaiting(w.a) && OneWaiting(w.b)
    requires |w.b.fd.sq.slots| == 4 && FindFree(w.b.fd.sq.slots, w.b.fd.sq.lookup, 0) == Some(0)
    requires PendingS(w.b.fd.sq.slots[3]) && w.a.Ctl().nextNs == Seq(w.b.Got() + 1)
    ensures Reaches(w, u) && Caught(u, like, w.b.Got() + 1, w.b.Got())
    ensures u.a.Ctl().nextNs == Seq(w.b.Got() + 1)
    ensures u.ba[0].bytes == [AddressOf(like, 0), RrControl(Seq(w.b.Got()))]
  {
    hide Inv;
    hide Tidy;
    hide Expects;
    hide InWindow;
    hide Mild;
    hide AnswersInOrder;
    hide SlotOk;
    hide RrControl;
    hide Seq;
    hide AddressOf;
    hide FindFree;
    hide Reaches;
    hide Listening;
    hide Goes;
    InvReady(w, like);
    CaughtBounds(w, 3);
    var v := BothAnswersOut(w, like);
    u := TakeAckTo(v, like, w.a.conf, w.b.Got() + 1);
    GoesReaches(v, u);
    ReachesTrans(w, v, u);
    assert u.ba == [v.ba[1]];
    SupervisoryMild(v.ba[1], AddressOf(like, 0));
  }

  lemma SupervisoryMild(p: Packet, address: byte)
    requires p.tag.TagS?
    ensures Mild(address, p)
  {}

  /**
   Nor is delivery in order: with a window of seven, from two stations as configured, the
   code can connect and, without losing a frame and without a timer firing, deliver the
   thirteenth accepted packet as the fifth. Both stations stay connected.
   */
  lemma PacketsSkipped(s: Session, primary: TinyFd.TinyFdConfig, secondary: TinyFd.TinyFdConfig)
    returns (t: Session, r: Session)
    requires primary.addr == 0 && primary.peersCount <= 1 && primary.windowFrames == 7 && primary.mode == Abm
    requires secondary.addr == 1 && secondary.peersCount <= 255 && 1 <= secondary.windowFrames <= 7
    requires Configured(s.a, primary) && Configured(s.b, secondary) && s.ab == s.ba == [] && !s.over
    requires s.a.fd.mtu >= 1
    ensures Runs(s, t) && |t.a.fd.peers| == |t.b.fd.peers| == 1 && t.a.State() == t.b.State() == Connected
    ensures Reaches(t, r) && |r.a.sent| == 13 && r.b.Got() == 5
    ensures !r.over && |r.a.fd.peers| == |r.b.fd.peers| == 1 && r.a.State() == r.b.State() == Connected
    ensures r.b.fd.delivered[4].1 == r.a.sent[12] != r.a.sent[4]
    ensures !(PayloadsOf(r.b.fd.delivered) <= r.a.sent)
  {
    hide Inv;
    hide Reaches;
    hide Runs;
    hide Tidy;
    hide Caught;
    hide Goes;
    hide AnswersInOrder;
    hide NothingWaiting;
    hide OneWaiting;
    hide FindFree;
    hide BothPrefix;
    var w;
    t, w := Overtake(s, primary, secondary, []);
    TidyReached(t, w, t.a.fd, t.b.fd);
    var x := CatchPlainly(w, t.a.fd);
    ReachesTrans(t, w, x);
    WindowSize(s, primary, t);
    r := MisdeliversPlainly(x, t.a.fd, 4, 3);
    GoesReaches(x, r);
    ReachesTrans(t, x, r);
    assert PayloadsOf(r.b.fd.delivered)[4] != r.a.sent[4];
  }

  lemma WindowSize(s: Session, primary: TinyFd.TinyFdConfig, t: Session)
    requires primary.peersCount <= 255 && Configured(s.a, primary) && SameSize(s.a, t.a)
    ensures |t.a.fd.iq.slots| == primary.windowFrames && t.a.fd.mtu == s.a.fd.mtu
  {}
}
