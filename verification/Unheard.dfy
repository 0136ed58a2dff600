/**
 Where sending again does not help. A receiver refuses repeated frames with one REJ only,
 so when an acknowledgement and then that REJ are lost, frames that were delivered stay
 unacknowledged, however often they are sent again.
 */
module Unheard {
  import opened Base
  import opened SeqNum
  import opened FdDefs
  import opened FrameQueue
  import opened FdSpec
  import opened Window
  import opened Session
  import opened SessionProof
  import opened SessionReceive
  import opened SessionTheorems
  import opened Quiescence
  import opened Healing

  /** All that the first station sent is delivered and not all acknowledged, and the second has said its REJ. */
  ghost predicate Unheard(s: Session) {
    && Inv(s) && !s.over && s.a.State() == Connected && s.b.State() == Connected
    && s.b.fd.peers[0].sentReject && s.b.Got() == |s.a.sent| && s.a.conf < |s.a.sent|
    && NothingWaiting(s.a) && NothingWaiting(s.b) && s.ba == []
    && s.b.conf == s.a.Got() == |s.b.sent| && s.b.Ctl().nextNs == Seq(|s.b.sent|)
    && forall q :: 0 <= q < |s.ab| ==> s.ab[q].tag.TagI?
  }

  // ----- It stays so -----

  lemma SenderTransmits(s: Session)
    requires Unheard(s) && Enabled(s, Transmit)
    ensures Unheard(StepA(s, Transmit)) && StepA(s, Transmit).a.conf == s.a.conf
  {
    hide Inv;
    hide Seq;
    hide Succ;
    hide NextIFrame;
    hide IndexFrom;
    TransmitInv(s);
    FirstIsNone(s.a.fd.sq.slots, 0);
  }

  lemma SenderTimes(s: Session, frameDue: bool, iDue: bool)
    requires Unheard(s) && Enabled(s, Timer(frameDue, iDue))
    ensures var r := StepA(s, Timer(frameDue, iDue)); r.over || (Unheard(r) && r.a.conf == s.a.conf)
  {
    hide Inv;
    hide Seq;
    hide TimeoutPeer;
    TimerInv(s, frameDue, iDue);
    ClockIs(s.a.fd, frameDue, iDue);
  }

  lemma ClockIs(fd: Fd, frameDue: bool, iDue: bool)
    requires |fd.peers| == 1 && fd.peers[0].state == Connected
    ensures var r := TimeoutPeer(fd, 0, frameDue, iDue);
      Left(fd, r) || (|r.peers| == 1 && r.peers[0].state == Connected && r.sq == fd.sq && r.delivered == fd.delivered)
    ensures !fd.peers[0].ctl.HasUnconfirmed() ==> TimeoutPeer(fd, 0, frameDue, iDue) == fd
  {
    hide ResetSlots;
    hide NoCr;
  }

  lemma SenderLoses(s: Session, at: nat)
    requires Unheard(s) && Enabled(s, Lose(at))
    ensures Unheard(StepA(s, Lose(at))) && StepA(s, Lose(at)).a.conf == s.a.conf
  {
    hide Inv;
    hide Seq;
    LoseInv(s, at);
  }

  lemma CountersEqual(s: Session)
    requires Unheard(s)
    ensures s.b.Ctl().confirmNs == s.b.Ctl().lastNs == s.b.Ctl().nextNs == Seq(s.b.conf)
  {
    hide Local;
    hide Acks;
    hide Handshake;
    hide Agrees;
    hide DataPacket;
    hide Seq;
  }

  /** The receiver has nothing to say. */
  lemma ReceiverSilent(s: Session, act: Action)
    requires Unheard(s) && Enabled(Flip(s), act) && (act.Transmit? || act.Timer? || act.Lose?)
    ensures Step(s, false, act) == s
  {
    hide Inv;
    hide Seq;
    hide TimeoutPeer;
    hide NextIFrame;
    CountersEqual(s);
    FirstIsNone(s.b.fd.sq.slots, 0);
    match act
    case Timer(frameDue, iDue) => ClockIs(s.b.fd, frameDue, iDue);
    case _ =>
  }

  /** A station that has said its REJ takes a frame out of sequence in silence. */
  lemma RepeatIgnored(s: Session)
    requires Inv(s) && !s.over && s.ba != [] && s.a.State() == Connected && s.b.State() == Connected
    requires s.ba[0].tag.TagI? && s.ba[0].tag.idx != s.a.Got() && s.ba[0].tag.ack == s.a.conf
    requires |s.ba[0].bytes| >= 2 && s.a.fd.peers[0].sentReject && NothingWaiting(s.a) && Possible(s, Receive)
    ensures var x, r := s.a, StepA(s, Receive);
      && !r.over && r == s.(a := r.a, ba := s.ba[1..]) && |r.a.fd.peers| == 1 && r.a.State() == Connected
      && r.a.fd.peers[0].sentReject && r.a.fd.delivered == x.fd.delivered && r.a.conf == x.conf
      && r.a.Ctl() == x.Ctl() && r.a.sent == x.sent && NothingWaiting(r.a)
  {
    hide Local;
    hide Data;
    hide Acks;
    hide Handshake;
    hide Seq;
    hide RejControl;
    hide RrControl;
    hide DoReceive;
    hide AnswersInOrder;
    hide Confirm;
    hide FindFree;
    BothInv(s);
    EmptyInOrder(s.a.fd);
    InvSlots(s);
    ReceiveI(s.a, s.ab, s.b, s.ba);
    AckedBoth(s.a, s.ab, s.b, s.ba);
    AckedSame(s);
  }

  /** Another copy of a frame it has makes no difference to it. */
  lemma ReceiverRefuses(s: Session)
    requires Unheard(s) && Enabled(Flip(s), Receive)
    ensures Unheard(Step(s, false, Receive)) && Step(s, false, Receive).a == s.a
  {
    hide Inv;
    hide Seq;
    hide StepA;
    hide AnswersInOrder;
    hide IsI;
    FlipInv(s);
    ReceiveInv(Flip(s));
    FlipInv(StepA(Flip(s), Receive));
    RepeatedIs(s);
    RepeatIgnored(Flip(s));
  }

  /** What is under way is an old frame, and acknowledges what is acknowledged. */
  lemma RepeatedIs(s: Session)
    requires Unheard(s) && s.ab != [] && |s.ab[0].bytes| >= 2
    ensures s.ab[0].tag.TagI? && s.ab[0].tag.idx < s.b.Got() && s.ab[0].tag.ack == s.b.conf
    ensures IsI(s.ab[0].bytes[1])
  {
    hide Local;
    hide Handshake;
    hide Agrees;
    hide Seq;
    hide IControl;
    hide ServicePacket;
    var p := s.ab[0];
    assert DataPacket(s.a, p);
    ControlRoundTrip(Seq(p.tag.idx), Seq(p.tag.ack));
    assert AckOf(p) == p.tag.ack;
  }

  lemma StepUnheard(s: Session, first: bool, act: Action)
    requires Unheard(s) && Enabled(if first then s else Flip(s), act) && !act.Send?
    ensures var r := Step(s, first, act);
      r.over || (Unheard(r) && r.a.conf == s.a.conf && r.a.sent == s.a.sent)
  {
    hide Unheard;
    hide StepA;
    assert first && act.Receive? ==> s.ba != [];
    StepKeepsSent(s, first, act);
    if first {
      match act
      case Timer(frameDue, iDue) => SenderTimes(s, frameDue, iDue);
      case Transmit => SenderTransmits(s);
      case Lose(at) => SenderLoses(s, at);
      case Receive => NothingComes(s);
    } else {
      if act.Receive? {
        ReceiverRefuses(s);
      } else {
        ReceiverSilent(s, act);
      }
    }
  }

  lemma NothingComes(s: Session)
    requires Unheard(s)
    ensures s.ba == []
  {}

  lemma StepKeepsSent(s: Session, first: bool, act: Action)
    requires Enabled(if first then s else Flip(s), act) && !act.Send?
    ensures Step(s, first, act).a.sent == s.a.sent
  {
    hide OnFrame;
    hide Generate;
    hide TimeoutPeer;
  }

  /**
   From such a state, as long as no user hands over another packet: whatever the clock, the
   channel and the stations do, the session ends or the delivered frames are still not
   acknowledged.
   */
  lemma {:induction false} NeverAcknowledged(s: Session, acts: seq<(bool, Action)>)
    requires Unheard(s) && NoSends(acts) && RunFrom(s, acts).Some?
    ensures var r := RunFrom(s, acts).value;
      r.over || (Unheard(r) && r.a.conf == s.a.conf && r.a.sent == s.a.sent)
    decreases |acts|
  {
    hide Unheard;
    hide Enabled;
    hide Step;
    if acts != [] {
      var n := |acts| - 1;
      NeverAcknowledged(s, acts[..n]);
      var mid := RunFrom(s, acts[..n]).value;
      OverStuck(mid, acts[n].0, acts[n].1);
      StepUnheard(mid, acts[n].0, acts[n].1);
    }
  }

  lemma OverStuck(s: Session, first: bool, act: Action)
    ensures s.over ==> !Enabled(if first then s else Flip(s), act)
  {}

  // ----- After a loss -----

  /** Nothing is under way, nothing waits, and the second station has nothing to send. */
  ghost predicate Drained(s: Session) {
    && Inv(s) && !s.over && s.ab == [] && s.ba == []
    && s.a.State() == Connected && s.b.State() == Connected && NothingWaiting(s.a) && NothingWaiting(s.b)
    && s.b.conf == s.a.Got() == |s.b.sent| && s.b.Ctl().nextNs == Seq(|s.b.sent|)
  }

  /** The clock has brought the sender back to the first unacknowledged frame, i frames of the rest are repeated. */
  ghost predicate Repeating(s: Session, i: nat) {
    Drained(s) && s.a.conf <= i <= s.b.Got() && s.a.Ctl().nextNs == Seq(i)
  }

  lemma ClockRepeats(s: Session) returns (t: Session)
    requires Drained(s) && s.a.conf < |s.a.sent| && s.a.fd.peers[0].retries > 0
    ensures Idles(s, t) && Repeating(t, t.a.conf) && t.b == s.b && t.a.sent == s.a.sent && t.a.conf == s.a.conf
  {
    hide Inv;
    hide Seq;
    hide Idles;
    var act := Timer(false, true);
    InvStates(s);
    InvSlots(s);
    IdlesNone(s);
    IdlesOn(s, s, true, act);
    t := StepA(s, act);
    RewindsFd(s);
    TimerInv(s, false, true);
    GotWithin(t);
  }

  lemma GotWithin(s: Session)
    requires Inv(s)
    ensures s.a.conf <= s.b.Got() <= |s.a.sent| <= s.a.conf + 7
  {
    hide Local;
    hide Acks;
    hide Handshake;
    BothInv(s);
    hide Data;
    GotBounds(s.b, s.ba, s.a, s.ab);
    AckBelow(s);
  }

  lemma AckBelow(s: Session)
    requires Inv(s)
    ensures s.a.conf <= s.b.Got()
  {
    hide Local;
    hide Acks;
    hide Handshake;
    hide Agrees;
    hide DataPacket;
    hide Seq;
  }

  /** The frame its counter denotes goes out. */
  lemma Goes(s: Session, i: nat)
    requires Repeating(s, i) && i < |s.a.sent|
    ensures Enabled(s, Transmit)
    ensures var t := StepA(s, Transmit);
      && t == Session(Advanced(s.a), s.b, t.ab, [], false) && Inv(t) && t.a.Ctl().nextNs == Seq(i + 1)
      && |t.ab| == 1 && t.ab[0].tag == TagI(i, s.a.Got()) && |t.ab[0].bytes| >= 2
  {
    hide Inv;
    hide Seq;
    hide Succ;
    hide StepA;
    hide FirstOccupied;
    FirstIsNone(s.a.fd.sq.slots, 0);
    NextFrameGoes(s, i);
    TransmitInv(s);
    SeqSucc(i);
    FlipInv(StepA(s, Transmit));
    PacketLong(Flip(StepA(s, Transmit)));
  }

  /** An old frame is taken in silence by a station that has said its REJ. */
  lemma OneRepeat(s: Session, i: nat) returns (r: Session)
    requires Repeating(s, i) && i < s.b.Got() && s.b.fd.peers[0].sentReject
    ensures Idles(s, r) && Repeating(r, i + 1) && r.b.fd.peers[0].sentReject
    ensures r.a.sent == s.a.sent && r.b.fd.delivered == s.b.fd.delivered
  {
    hide Inv;
    hide Seq;
    hide Idles;
    GotWithin(s);
    Goes(s, i);
    IdlesNone(s);
    IdlesOn(s, s, true, Transmit);
    hide StepA;
    var t := StepA(s, Transmit);
    RepeatTaken(t);
    IdlesOn(s, t, false, Receive);
    r := Step(t, false, Receive);
  }

  lemma RepeatTaken(t: Session)
    requires Inv(t) && !t.over && t.ba == [] && |t.ab| == 1 && t.a.State() == Connected && t.b.State() == Connected
    requires t.ab[0].tag.TagI? && t.ab[0].tag.idx < t.b.Got() && t.ab[0].tag.ack == t.b.conf
    requires |t.ab[0].bytes| >= 2 && t.b.fd.peers[0].sentReject && NothingWaiting(t.b)
    ensures Enabled(Flip(t), Receive)
    ensures var r := Step(t, false, Receive);
      && Inv(r) && r == t.(b := r.b, ab := []) && |r.b.fd.peers| == 1 && r.b.State() == Connected
      && r.b.fd.peers[0].sentReject && r.b.fd.delivered == t.b.fd.delivered && r.b.conf == t.b.conf
      && r.b.Ctl() == t.b.Ctl() && r.b.sent == t.b.sent && NothingWaiting(r.b)
  {
    hide Inv;
    hide Seq;
    hide StepA;
    hide AnswersInOrder;
    FlipInv(t);
    InvStates(Flip(t));
    InvSlots(Flip(t));
    EmptyInOrder(t.b.fd);
    RepeatIgnored(Flip(t));
    ReceiveInv(Flip(t));
    FlipInv(Step(t, false, Receive));
    assert t.ab[1..] == [];
  }

  lemma {:induction false} AllRepeats(s: Session, i: nat) returns (r: Session)
    requires Repeating(s, i) && s.b.fd.peers[0].sentReject
    ensures Idles(s, r) && Repeating(r, r.b.Got()) && r.a.sent == s.a.sent && r.b.Got() == s.b.Got()
    decreases s.b.Got() - i
  {
    hide Inv;
    hide Seq;
    hide Idles;
    hide NothingWaiting;
    if i == s.b.Got() {
      IdlesNone(s);
      r := s;
    } else {
      var t := OneRepeat(s, i);
      r := AllRepeats(t, i + 1);
      IdlesTrans(s, t, r);
    }
  }

  /** The first new frame behind them is taken and acknowledged. */
  lemma NewFrameTaken(s: Session) returns (r: Session)
    requires Repeating(s, s.b.Got()) && s.b.Got() < |s.a.sent|
    ensures Idles(s, r) && InTurn(Flip(r))
  {
    hide Inv;
    hide Seq;
    hide Idles;
    Goes(s, s.b.Got());
    IdlesNone(s);
    IdlesOn(s, s, true, Transmit);
    hide StepA;
    var t := StepA(s, Transmit);
    NewFrameTurn(t);
    IdlesOn(s, t, false, Receive);
    r := Step(t, false, Receive);
  }

  lemma NewFrameTurn(t: Session)
    requires Inv(t) && !t.over && t.ba == [] && |t.ab| == 1 && t.a.State() == Connected && t.b.State() == Connected
    requires t.ab[0].tag == TagI(t.b.Got(), t.a.Got()) && |t.ab[0].bytes| >= 2 && NothingWaiting(t.b)
    requires NothingWaiting(t.a) && t.a.Ctl().nextNs == Seq(t.b.Got() + 1) && t.b.Ctl().nextNs == Seq(t.a.Got())
    ensures Enabled(Flip(t), Receive) && InTurn(Flip(Step(t, false, Receive)))
  {
    hide Local;
    hide Data;
    hide Acks;
    hide Handshake;
    hide Seq;
    hide DoReceive;
    hide IsI;
    hide AnswersInOrder;
    hide FindFree;
    hide Rotated;
    var p := t.ab[0];
    BothInv(t);
    FlipInv(t);
    InvSlots(Flip(t));
    EmptyInOrder(t.b.fd);
    assert t.ab == [p];
    TookFrame(t.b, p, t.a, [p], []);
    var y := DoReceive(t.b, p);
    var u := t.(b := y, ab := []);
    assert Step(t, false, Receive) == u;
    BothInv(u);
    FlipInv(u);
  }

  /** An old frame draws the REJ from a station that has not said it, and that acknowledges everything. */
  lemma RejectSettles(s: Session) returns (r: Session)
    requires Repeating(s, s.a.conf) && s.a.conf < s.b.Got() && !s.b.fd.peers[0].sentReject
    ensures Idles(s, r) && InTurn(r)
  {
    hide Inv;
    hide Seq;
    hide Idles;
    hide RejControl;
    GotWithin(s);
    Goes(s, s.a.conf);
    IdlesNone(s);
    IdlesOn(s, s, true, Transmit);
    hide StepA;
    var t := StepA(s, Transmit);
    var v := OldRejected(t);
    IdlesTrans(s, t, v);
    InvSlots(v);
    AloneWaits(v.a);
    RejectTaken(v);
    IdlesOn(s, v, true, Receive);
    r := StepA(v, Receive);
  }

  lemma OldRejected(t: Session) returns (v: Session)
    requires Inv(t) && !t.over && t.ba == [] && |t.ab| == 1 && t.a.State() == Connected && t.b.State() == Connected
    requires t.ab[0].tag.TagI? && t.ab[0].tag.idx != t.b.Got() && t.ab[0].tag.ack == t.b.conf
    requires NothingWaiting(t.b) && !t.b.fd.peers[0].sentReject
    ensures Idles(t, v) && Inv(v) && v == t.(b := v.b, ab := [], ba := v.ba)
    ensures |v.b.fd.peers| == 1 && v.b.State() == Connected && v.b.Ctl() == t.b.Ctl() && NothingWaiting(v.b)
    ensures v.b.fd.peers[0].sentReject && v.b.sent == t.b.sent
    ensures v.b.fd.delivered == t.b.fd.delivered && v.b.conf == t.b.conf
    ensures v.ba == [Packet([Addr(v.b), RejControl(Seq(v.b.Got()))], TagS(v.b.Got()))]
  {
    hide Inv;
    hide Seq;
    hide Idles;
    hide RejControl;
    FlipInv(t);
    var j := Refuses(Flip(t));
    hide StepA;
    IdlesNone(t);
    IdlesOn(t, t, false, Receive);
    var u := Step(t, false, Receive);
    SendsReject(Flip(u), j);
    IdlesOn(t, u, false, Transmit);
    v := Step(u, false, Transmit);
    FlipInv(v);
  }

  // ----- And it is reached -----

  /** One supervisory frame waits at x. */
  ghost predicate OnlyOne(x: Station, j: nat) {
    && j < |x.fd.sq.slots| && PendingS(x.fd.sq.slots[j])
    && forall k :: 0 <= k < |x.fd.sq.slots| && k != j ==> x.fd.sq.slots[k].None?
  }

  /** It is transmitted and lost. */
  lemma AnswerLost(s: Session, j: nat) returns (r: Session)
    requires Inv(s) && !s.over && s.ab == [] && OnlyOne(s.a, j)
    ensures Idles(s, r) && r == s.(a := Emptied(s.a, j)) && Inv(r) && NothingWaiting(r.a)
  {
    hide Local;
    hide Data;
    hide Acks;
    hide Handshake;
    hide FirstOccupied;
    hide FirstEligible;
    hide Idles;
    InvStates(s);
    InvSlots(s);
    FirstIs(s.a.fd.sq.slots, 0, j);
    TransmitServiceInv(s, j);
    IdlesNone(s);
    IdlesOn(s, s, true, Transmit);
    var t := StepA(s, Transmit);
    r := t.(ab := []);
    InvSlots(t);
    LosesAll(t);
    LoseInv(t, 0);
    IdlesOn(s, t, true, Lose(0));
  }

  /** The last frame is delivered and its acknowledgement lost. */
  ghost predicate Delivered(s: Session, reject: bool) {
    Drained(s) && s.b.Got() == |s.a.sent| && s.a.conf < |s.a.sent| && s.b.fd.peers[0].sentReject == reject
  }

  lemma LastDelivered(s: Session) returns (r: Session)
    requires InTurn(s) && NothingWaiting(s.a) && |s.a.sent| == s.b.Got() + 1 && |s.b.sent| == s.a.Got()
    ensures Idles(s, r) && Delivered(r, false) && r.a.sent == s.a.sent
    ensures r.a.fd.peers[0].retries == s.a.fd.maxRetries
  {
    hide Inv;
    hide Seq;
    hide Idles;
    hide InTurn;
    NoneMissing(s);
    LateGoes(s, 0);
    IdlesNone(s);
    IdlesOn(s, s, true, Transmit);
    var t := StepA(s, Transmit);
    hide StepA;
    var u, j := LastTaken(t);
    IdlesTrans(s, t, u);
    FlipInv(u);
    var v := AnswerLost(Flip(u), j);
    FlipInv(v);
    IdlesMirrored(u, v);
    r := Flip(v);
    IdlesTrans(s, u, r);
  }

  lemma LastTaken(s: Session) returns (u: Session, j: nat)
    requires LateUnderWay(s, 0) && |s.a.sent| == s.b.Got() + 1
    ensures Idles(s, u) && u == s.(b := u.b, ab := []) && Inv(u) && OnlyOne(u.b, j)
    ensures |u.b.fd.peers| == 1 && u.b.State() == Connected && u.b.Got() == s.b.Got() + 1
    ensures u.b.conf == s.a.Got() && u.b.sent == s.b.sent && u.b.Ctl().nextNs == s.b.Ctl().nextNs
    ensures !u.b.fd.peers[0].sentReject
  {
    hide Local;
    hide Data;
    hide Acks;
    hide Handshake;
    hide Seq;
    hide Succ;
    hide RrControl;
    hide DoReceive;
    hide IsI;
    hide AnswersInOrder;
    hide Idles;
    hide FindFree;
    hide Confirm;
    hide Rotated;
    var p := s.ab[0];
    BothInv(s);
    FlipInv(s);
    PacketLong(Flip(s));
    EmptyInOrder(s.b.fd);
    InvSlots(Flip(s));
    IdlesNone(s);
    IdlesOn(s, s, false, Receive);
    assert s.ab == [p];
    TookFrame(s.b, p, s.a, [p], []);
    ReceiveI(s.b, [], s.a, [p]);
    AckedBoth(s.b, [], s.a, [p]);
    var y := DoReceive(s.b, p);
    u := s.(b := y, ab := []);
    assert Step(s, false, Receive) == u;
    BothInv(u);
    j := FindFree(s.b.fd.sq.slots, s.b.fd.sq.lookup, 0).value;
    OneIsOnly(y, j);
  }

  lemma OneIsOnly(y: Station, j: nat)
    requires |y.slotAck| == |y.fd.sq.slots| && OneWaiting(y) && j < |y.fd.sq.slots| && y.fd.sq.slots[j].Some?
    ensures OnlyOne(y, j)
  {
    hide Seq;
    hide RrControl;
  }

  /** The clock has the frame sent again; the REJ that answers it is lost as well. */
  lemma RepeatRejected(s: Session) returns (r: Session)
    requires Delivered(s, false) && s.a.fd.peers[0].retries > 0
    ensures Idles(s, r) && Delivered(r, true) && r.a.sent == s.a.sent
  {
    hide Inv;
    hide Seq;
    hide Idles;
    hide RejControl;
    var t := ClockRepeats(s);
    Goes(t, t.a.conf);
    IdlesOn(s, t, true, Transmit);
    hide StepA;
    var u := StepA(t, Transmit);
    GotWithin(t);
    var v := OldRejected(u);
    IdlesTrans(s, u, v);
    AnswerDropped(v);
    IdlesOn(s, v, false, Lose(0));
    r := v.(ba := []);
  }

  /** So a packet can be delivered and never be acknowledged, though its sender keeps sending it. */
  lemma UnheardReached(s: Session) returns (r: Session)
    requires InTurn(s) && NothingWaiting(s.a) && |s.a.sent| == s.b.Got() + 1 && |s.b.sent| == s.a.Got()
    requires s.a.fd.maxRetries > 0
    ensures Idles(s, r) && Unheard(r) && r.a.sent == s.a.sent
  {
    hide InTurn;
    hide Idles;
    hide Inv;
    var t := LastDelivered(s);
    r := RepeatRejected(t);
    IdlesTrans(s, t, r);
  }

  // ----- Nothing else can go wrong -----

  /** Without another packet, everything accepted so far can still come to be delivered and acknowledged. */
  ghost predicate CanSettle(s: Session) {
    exists r :: Idles(s, r) && !r.over && r.a.conf == |r.a.sent|
  }

  lemma TurnIdles(s: Session)
    requires InTurn(s)
    ensures Idles(s, Turn(s)) && InTurn(Flip(Turn(s)))
  {
    hide Inv;
    hide Idles;
    hide Generate;
    hide OnFrame;
    TurnEnabled(s);
    TurnKeeps(s);
    IdlesNone(s);
    IdlesOn(s, s, true, Transmit);
    var t := StepA(s, Transmit);
    if t.ab != [] {
      hide StepA;
      IdlesOn(s, t, false, Receive);
    }
  }

  /** The exchange is a run in which no user hands over anything. */
  lemma {:induction false} ExchangeIdles(s: Session)
    requires InTurn(s)
    ensures Idles(s, Exchange(s)) && !Exchange(s).over
    decreases Work(s)
  {
    hide Inv;
    hide InTurn;
    hide Idles;
    hide Turn;
    TurnIdles(s);
    var s1 := Flip(Turn(s));
    TurnIdles(s1);
    var s2 := Flip(Turn(s1));
    TurnKeeps(s);
    TurnKeeps(s1);
    FlipWork(s, s1, s2);
    IdlesMirrored(Turn(s), Turn(s1));
    IdlesTrans(s, Turn(s), s2);
    if Idle(s) && Idle(s1) {
      TurnNotOver(s1);
    } else {
      ExchangeIdles(s2);
      IdlesTrans(s, s2, Exchange(s2));
    }
  }

  lemma TurnNotOver(s: Session)
    requires InTurn(s)
    ensures !Turn(s).over
  {
    hide Inv;
    hide Turn;
    TurnKeeps(s);
  }

  lemma TurnSettles(s: Session, t: Session)
    requires Idles(s, t) && (InTurn(t) || InTurn(Flip(t)))
    ensures CanSettle(s)
  {
    hide Inv;
    hide InTurn;
    hide Idles;
    hide Exchange;
    hide NothingWaiting;
    if InTurn(t) {
      ExchangeIdles(t);
      ExchangeSettles(t);
      IdlesTrans(s, t, Exchange(t));
    } else {
      ExchangeIdles(Flip(t));
      ExchangeSettles(Flip(t));
      IdlesMirrored(t, Exchange(Flip(t)));
      IdlesTrans(s, t, Flip(Exchange(Flip(t))));
    }
  }

  /**
   Exactly this can go wrong: when a loss has left nothing under way and the sender has
   retries left, everything accepted can still be delivered and acknowledged without
   another packet, unless all of it is delivered already, some of it is not acknowledged,
   and the receiver has said its REJ.
   */
  lemma SettlesIff(s: Session)
    requires Drained(s) && s.a.fd.peers[0].retries > 0
    ensures CanSettle(s) <==>
      !(s.b.Got() == |s.a.sent| && s.a.conf < |s.a.sent| && s.b.fd.peers[0].sentReject)
  {
    hide Inv;
    hide Seq;
    hide Idles;
    hide NothingWaiting;
    GotWithin(s);
    FlipInv(s);
    InvStates(Flip(s));
    if s.b.Got() == |s.a.sent| && s.a.conf < |s.a.sent| && s.b.fd.peers[0].sentReject {
      forall r | Idles(s, r) ensures r.over || r.a.conf < |r.a.sent| {
        StillUnheard(s, r);
      }
    } else if s.a.conf == |s.a.sent| {
      IdlesNone(s);
      assert CanSettle(s);
    } else {
      var t := ClockRepeats(s);
      GotWithin(t);
      Resettles(t);
      SettleOn(s, t);
    }
  }

  lemma StillUnheard(s: Session, r: Session)
    requires Unheard(s) && Idles(s, r)
    ensures r.over || r.a.conf < |r.a.sent|
  {
    hide RunFrom;
    hide Inv;
    hide Seq;
    var acts :| NoSends(acts) && RunFrom(s, acts) == Some(r);
    NeverAcknowledged(s, acts);
  }

  lemma SettleOn(s: Session, t: Session)
    requires Idles(s, t) && CanSettle(t)
    ensures CanSettle(s)
  {
    hide Idles;
    var r :| Idles(t, r) && !r.over && r.a.conf == |r.a.sent|;
    IdlesTrans(s, t, r);
  }

  lemma Resettles(t: Session)
    requires Repeating(t, t.a.conf) && t.a.conf < |t.a.sent|
    requires t.b.Got() < |t.a.sent| || !t.b.fd.peers[0].sentReject
    ensures CanSettle(t)
  {
    hide Inv;
    hide Seq;
    hide Idles;
    hide CanSettle;
    IdlesNone(t);
    InvSlots(t);
    FlipInv(t);
    InvStates(Flip(t));
    if t.a.conf == t.b.Got() {
      AloneWaits(t.a);
      TurnSettles(t, t);
    } else if t.b.fd.peers[0].sentReject {
      hide NothingWaiting;
      var u := AllRepeats(t, t.a.conf);
      var r := NewFrameTaken(u);
      IdlesTrans(t, u, r);
      TurnSettles(t, r);
    } else {
      var r := RejectSettles(t);
      TurnSettles(t, r);
    }
  }
}
