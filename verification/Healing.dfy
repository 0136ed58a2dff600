/**
 Frames lost in a session are sent again: whatever number of them in a row is lost, the
 REJ that the next frame provokes, or the retry timer, brings the two stations back to
 where an exchange starts, with nothing accepted or delivered forgotten, and the exchange
 then delivers everything.
 */
module Healing {
  import opened Base
  import opened SeqNum
  import opened FdDefs
  import opened FrameQueue
  import opened FdSpec
  import opened Window
  import opened Session
  import opened SessionProof
  import opened SessionReceive
  import opened SessionTheorems
  import opened Quiescence

  /** Of what the second station has not got, the first n frames were sent and are lost; all else is at rest. */
  ghost predicate Missing(s: Session, n: nat) {
    && Inv(s) && !s.over && s.ab == [] && s.ba == []
    && s.a.State() == Connected && s.b.State() == Connected
    && s.b.Got() + n <= |s.a.sent| && s.a.Ctl().nextNs == Seq(s.b.Got() + n)
    && s.b.Ctl().nextNs == Seq(s.a.Got())
    && NothingWaiting(s.a) && NothingWaiting(s.b)
    && s.a.conf == s.b.Got() && s.b.conf == s.a.Got()
  }

  /** Nothing was accepted, delivered or forgotten. */
  predicate SameHistory(s: Session, r: Session) {
    && r.a.sent == s.a.sent && r.b.sent == s.b.sent
    && r.a.fd.delivered == s.a.fd.delivered && r.b.fd.delivered == s.b.fd.delivered
  }

  /** Where an exchange starts and nothing waits, nothing is missing. */
  lemma NoneMissing(s: Session)
    ensures Missing(s, 0) <==> InTurn(s) && NothingWaiting(s.a)
  {
    hide Local;
    hide Agrees;
    hide DataPacket;
    hide Seq;
    hide Acks;
    hide Handshake;
  }

  // ----- Frames are lost -----

  lemma NextMissing(s: Session, n: nat)
    requires Missing(s, n) && s.b.Got() + n < |s.a.sent|
    ensures Enabled(s, Transmit)
    ensures var t := StepA(s, Transmit);
      && t == s.(a := Advanced(s.a), ab := t.ab) && Inv(t)
      && |t.ab| == 1 && t.ab[0].tag == TagI(s.b.Got() + n, s.a.Got())
      && t.a.Ctl().nextNs == Seq(s.b.Got() + n + 1)
  {
    hide Inv;
    hide Seq;
    hide Succ;
    hide StepA;
    hide FirstOccupied;
    FirstIsNone(s.a.fd.sq.slots, 0);
    NextFrameGoes(s, s.b.Got() + n);
    TransmitInv(s);
    SeqSucc(s.b.Got() + n);
  }

  /** The frame behind the n lost ones is under way. */
  ghost predicate LateUnderWay(s: Session, n: nat) {
    && Inv(s) && !s.over && s.ba == [] && s.a.State() == Connected && s.b.State() == Connected
    && s.b.Got() + n < |s.a.sent| && s.a.Ctl().nextNs == Seq(s.b.Got() + n + 1)
    && s.b.Ctl().nextNs == Seq(s.a.Got()) && NothingWaiting(s.a) && NothingWaiting(s.b)
    && s.a.conf == s.b.Got() && s.b.conf == s.a.Got()
    && |s.ab| == 1 && s.ab[0].tag == TagI(s.b.Got() + n, s.a.Got())
  }

  lemma LateGoes(s: Session, n: nat)
    requires Missing(s, n) && s.b.Got() + n < |s.a.sent|
    ensures Enabled(s, Transmit)
    ensures var t := StepA(s, Transmit);
      && LateUnderWay(t, n) && SameHistory(s, t)
      && t.a.fd.peers[0].retries == s.a.fd.maxRetries == t.a.fd.maxRetries && t.b == s.b
  {
    hide Inv;
    hide Seq;
    NextMissing(s, n);
    hide StepA;
  }

  lemma LoseNext(s: Session, n: nat) returns (r: Session)
    requires Missing(s, n) && s.b.Got() + n < |s.a.sent|
    ensures Idles(s, r) && Missing(r, n + 1) && SameHistory(s, r)
    ensures r.b == s.b && r.a.fd.peers[0].retries == s.a.fd.maxRetries && r.a.fd.maxRetries == s.a.fd.maxRetries
  {
    hide Inv;
    hide Seq;
    hide Idles;
    LateGoes(s, n);
    IdlesNone(s);
    IdlesOn(s, s, true, Transmit);
    hide StepA;
    hide Missing;
    hide LateUnderWay;
    var t := StepA(s, Transmit);
    LateDropped(t, n);
    IdlesOn(s, t, true, Lose(0));
    r := t.(ab := []);
  }

  lemma LateDropped(t: Session, n: nat)
    requires LateUnderWay(t, n)
    ensures Enabled(t, Lose(0)) && StepA(t, Lose(0)) == t.(ab := []) && Missing(t.(ab := []), n + 1)
  {
    hide Inv;
    hide Seq;
    InvStates(t);
    InvSlots(t);
    LosesAll(t);
    LoseInv(t, 0);
  }

  lemma InvSlots(s: Session)
    requires Inv(s)
    ensures |s.a.slotAck| == |s.a.fd.sq.slots|
  {
    hide SlotOk;
    hide Data;
    hide Acks;
    hide Handshake;
  }

  lemma LosesAll(t: Session)
    requires Possible(t, Lose(0)) && |t.ab| == 1
    ensures StepA(t, Lose(0)) == t.(ab := [])
  {}

  /** Any number of frames in a row may be lost. */
  lemma {:induction false} LoseMany(s: Session, n: nat, k: nat) returns (r: Session)
    requires Missing(s, n) && s.b.Got() + n + k <= |s.a.sent|
    ensures Idles(s, r) && Missing(r, n + k) && SameHistory(s, r) && r.b == s.b
    ensures k > 0 || s.a.fd.peers[0].retries == s.a.fd.maxRetries ==> r.a.fd.peers[0].retries == s.a.fd.maxRetries
    ensures r.a.fd.maxRetries == s.a.fd.maxRetries
    decreases k
  {
    hide Inv;
    hide Seq;
    hide Idles;
    hide NothingWaiting;
    if k == 0 {
      IdlesNone(s);
      r := s;
    } else {
      var t := LoseNext(s, n);
      r := LoseMany(t, n + 1, k - 1);
      IdlesTrans(s, t, r);
    }
  }

  // ----- The timer -----

  /** The retry timer makes up for any loss, as long as there are retries left. */
  lemma TimerHeals(s: Session, n: nat) returns (r: Session)
    requires Missing(s, n) && s.b.Got() < |s.a.sent| && s.a.fd.peers[0].retries > 0
    ensures Idles(s, r) && InTurn(r) && SameHistory(s, r) && NothingWaiting(r.a)
  {
    hide Inv;
    hide Seq;
    hide Idles;
    var act := Timer(false, true);
    InvStates(s);
    InvSlots(s);
    IdlesNone(s);
    IdlesOn(s, s, true, act);
    r := StepA(s, act);
    RewindsFd(s);
    TimerInv(s, false, true);
  }

  lemma RewindsFd(s: Session)
    requires Inv(s) && s.a.State() == Connected && s.a.conf < |s.a.sent| && s.a.fd.peers[0].retries > 0
    ensures var x := s.a.fd.peers[0];
      TimeoutPeer(s.a.fd, 0, false, true) == s.a.fd.(
        peers := [x.(ctl := x.ctl.(nextNs := Seq(s.a.conf)), retries := x.retries - 1)], txAvailable := true)
  {
    hide Local;
    hide Acks;
    hide Handshake;
    hide Agrees;
    hide Seq;
    WindowBound(s.a.fd.iq.slots, Addr(s.a), s.a.conf, |s.a.sent|, s.a.sent);
    SeqEqual(s.a.conf, |s.a.sent|);
    RetryIs(s.a.fd, false);
  }

  // ----- The REJ -----

  /** The one frame that waits at x is a REJ for the frame it expects. */
  ghost predicate RejectWaits(x: Station, j: nat)
    requires |x.fd.peers| == 1
  {
    && j < |x.fd.sq.slots| == |x.slotAck| && x.slotAck[j] == x.Got()
    && x.fd.sq.slots[j] == Some(ServiceFrame(SFrame, Addr(x), RejControl(Seq(x.Got()))))
    && forall k :: 0 <= k < |x.fd.sq.slots| && k != j ==> x.fd.sq.slots[k].None?
  }

  /** A frame out of sequence is refused, and a REJ for the expected one waits. */
  lemma Refuses(s: Session) returns (j: nat)
    requires Inv(s) && !s.over && s.ab == [] && |s.ba| == 1 && s.a.State() == Connected && s.b.State() == Connected
    requires s.ba[0].tag.TagI? && s.ba[0].tag.idx != s.a.Got() && s.ba[0].tag.ack == s.a.conf
    requires NothingWaiting(s.a) && !s.a.fd.peers[0].sentReject
    ensures Enabled(s, Receive)
    ensures var r := StepA(s, Receive);
      && Inv(r) && r == s.(a := r.a, ba := []) && |r.a.fd.peers| == 1 && RejectWaits(r.a, j)
      && r.a.State() == Connected && r.a.Ctl() == s.a.Ctl() && r.a.conf == s.a.conf
      && r.a.sent == s.a.sent && r.a.fd.delivered == s.a.fd.delivered && r.a.fd.peers[0].sentReject
  {
    hide Local;
    hide Data;
    hide Acks;
    hide Handshake;
    hide Seq;
    hide RrControl;
    hide RejControl;
    hide DoReceive;
    hide FindFree;
    hide Confirm;
    hide Rotated;
    hide AnswersInOrder;
    var p := s.ba[0];
    BothInv(s);
    PacketLong(s);
    EmptyInOrder(s.a.fd);
    InvSlots(s);
    InvStates(s);
    ReceiveI(s.a, s.ab, s.b, s.ba);
    ReceiveInv(s);
    FreeWhenEmpty(s.a);
    AckedBoth(s.a, s.ab, s.b, s.ba);
    AckedSame(s);
    j := FindFree(s.a.fd.sq.slots, s.a.fd.sq.lookup, 0).value;
    assert s.ba[1..] == [];
  }

  /** Nothing new is acknowledged. */
  lemma AckedSame(s: Session)
    requires Inv(s) && |s.a.fd.peers| == 1 && s.a.State() == Connected
    ensures s.a.Ctl().(confirmNs := Seq(s.a.conf)) == s.a.Ctl()
  {
    hide Local;
    hide Acks;
    hide Handshake;
    hide Agrees;
    hide Seq;
  }

  /** It goes out. */
  lemma SendsReject(s: Session, j: nat)
    requires Inv(s) && !s.over && s.ab == [] && s.a.State() == Connected && RejectWaits(s.a, j)
    ensures Enabled(s, Transmit)
    ensures var r := StepA(s, Transmit);
      && Inv(r) && r == s.(a := Emptied(s.a, j), ab := r.ab) && NothingWaiting(r.a)
      && r.ab == [Packet([Addr(s.a), RejControl(Seq(s.a.Got()))], TagS(s.a.Got()))]
  {
    hide Local;
    hide Data;
    hide Acks;
    hide Handshake;
    hide Seq;
    hide RejControl;
    hide FirstOccupied;
    hide FirstEligible;
    InvSlots(s);
    InvStates(s);
    FirstIs(s.a.fd.sq.slots, 0, j);
    TransmitInv(s);
    var f := s.a.fd.sq.slots[j].value;
    assert f.ToBytes() == [Addr(s.a), RejControl(Seq(s.a.Got()))];
  }

  /** A station that takes a REJ for the frame its peer expects is back where an exchange starts. */
  lemma RejectTaken(s: Session)
    requires Inv(s) && !s.over && s.ab == [] && |s.ba| == 1 && s.a.State() == Connected && s.b.State() == Connected
    requires s.ba[0] == Packet([Addr(s.b), RejControl(Seq(s.b.Got()))], TagS(s.b.Got()))
    requires s.b.Ctl().nextNs == Seq(s.a.Got()) && NothingWaiting(s.b)
    requires OneWaiting(s.a) && (NothingWaiting(s.a) ==> s.b.conf == s.a.Got())
    ensures Enabled(s, Receive) && InTurn(StepA(s, Receive)) && SameHistory(s, StepA(s, Receive))
  {
    hide Local;
    hide Data;
    hide Acks;
    hide Handshake;
    hide Seq;
    hide RrControl;
    hide RejControl;
    hide DoReceive;
    hide SType;
    hide FindFree;
    hide Confirm;
    hide Rotated;
    BothInv(s);
    ControlRoundTrip(0, Seq(s.b.Got()));
    InvSlots(s);
    InvStates(s);
    RejectNotI(Seq(s.b.Got()));
    ReceiveS(s.a, s.ab, s.b, s.ba);
    ReceiveInv(s);
    AckedBoth(s.a, s.ab, s.b, s.ba);
    var r := StepA(s, Receive);
    assert r.ba == [] && r.b == s.b;
    assert r.a == Forgotten(Tuned(Acked(s.a, s.b.Got()), s.a.fd.peers[0].retries, Seq(s.b.Got()), true));
    StillOneWaiting(s.a, r.a);
  }

  lemma RejectNotI(nr: byte)
    requires nr <= 7
    ensures !IsI(RejControl(nr))
  {
    ControlRoundTrip(0, nr);
  }

  lemma StillOneWaiting(x: Station, x': Station)
    requires Local(x) && x'.fd.sq == x.fd.sq && x'.fd.delivered == x.fd.delivered && OneWaiting(x)
    requires |x'.slotAck| == |x.slotAck|
    requires forall j :: 0 <= j < |x.slotAck| && x.fd.sq.slots[j].Some? ==> x'.slotAck[j] == x.slotAck[j]
    ensures |x'.slotAck| == |x'.fd.sq.slots| && OneWaiting(x') && (NothingWaiting(x') <==> NothingWaiting(x))
  {
    hide SlotOk;
    hide Seq;
    hide RrControl;
  }

  /** The state after n lost frames in a row and one that arrives: the REJ is on its way. */
  ghost predicate RejectUnderWay(s: Session, n: nat) {
    && Inv(s) && !s.over && s.ab == [] && s.a.State() == Connected && s.b.State() == Connected
    && s.b.Got() + n <= |s.a.sent| && s.a.Ctl().nextNs == Seq(s.b.Got() + n)
    && s.b.Ctl().nextNs == Seq(s.a.Got()) && NothingWaiting(s.a) && NothingWaiting(s.b)
    && s.a.conf == s.b.Got() && s.b.conf == s.a.Got()
    && s.ba == [Packet([Addr(s.b), RejControl(Seq(s.b.Got()))], TagS(s.b.Got()))]
  }

  lemma LateRefused(s: Session, n: nat) returns (j: nat)
    requires LateUnderWay(s, n) && n > 0 && !s.b.fd.peers[0].sentReject
    ensures Enabled(Flip(s), Receive)
    ensures var u := Step(s, false, Receive);
      && Inv(u) && u == s.(b := u.b, ab := []) && |u.b.fd.peers| == 1 && RejectWaits(u.b, j)
      && u.b.State() == Connected && u.b.Ctl() == s.b.Ctl() && u.b.conf == s.b.conf
      && u.b.sent == s.b.sent && u.b.fd.delivered == s.b.fd.delivered
  {
    hide Inv;
    hide Seq;
    hide RejectWaits;
    FlipInv(s);
    j := Refuses(Flip(s));
    hide StepA;
    FlipInv(Step(s, false, Receive));
  }

  lemma LateRejected(s: Session, n: nat) returns (r: Session)
    requires LateUnderWay(s, n) && n > 0 && !s.b.fd.peers[0].sentReject
    ensures Idles(s, r) && RejectUnderWay(r, n + 1) && SameHistory(s, r) && r.a == s.a
  {
    hide Inv;
    hide Seq;
    hide Idles;
    hide RejControl;
    hide RejectWaits;
    hide StepA;
    IdlesNone(s);
    var j := LateRefused(s, n);
    IdlesOn(s, s, false, Receive);
    var u := Step(s, false, Receive);
    FlipInv(u);
    SendsReject(Flip(u), j);
    IdlesOn(s, u, false, Transmit);
    r := Step(u, false, Transmit);
    FlipInv(r);
  }

  lemma NextRejected(s: Session, n: nat) returns (r: Session)
    requires Missing(s, n) && n > 0 && s.b.Got() + n < |s.a.sent| && !s.b.fd.peers[0].sentReject
    ensures Idles(s, r) && RejectUnderWay(r, n + 1) && SameHistory(s, r)
    ensures r.a.fd.peers[0].retries == s.a.fd.maxRetries
  {
    hide Inv;
    hide Seq;
    hide Idles;
    LateGoes(s, n);
    IdlesNone(s);
    IdlesOn(s, s, true, Transmit);
    hide StepA;
    hide LateUnderWay;
    hide RejectUnderWay;
    r := LateRejected(StepA(s, Transmit), n);
    IdlesTrans(s, StepA(s, Transmit), r);
  }

  /** After n lost frames in a row, one that arrives has all of them sent again. */
  lemma RejectHeals(s: Session, n: nat) returns (r: Session)
    requires Missing(s, n) && n > 0 && s.b.Got() + n < |s.a.sent| && !s.b.fd.peers[0].sentReject
    ensures Idles(s, r) && InTurn(r) && SameHistory(s, r)
  {
    hide Inv;
    hide Seq;
    hide Idles;
    hide RejControl;
    hide StepA;
    hide InTurn;
    var t := NextRejected(s, n);
    InvSlots(t);
    AloneWaits(t.a);
    RejectTaken(t);
    IdlesOn(s, t, true, Receive);
    r := StepA(t, Receive);
  }

  /** If the REJ is lost as well, one more frame is missing, and only the timer is left. */
  lemma RejectLost(s: Session, n: nat) returns (r: Session)
    requires Missing(s, n) && n > 0 && s.b.Got() + n < |s.a.sent| && !s.b.fd.peers[0].sentReject
    ensures Idles(s, r) && Missing(r, n + 1) && SameHistory(s, r) && r.a.fd.peers[0].retries == s.a.fd.maxRetries
  {
    hide Inv;
    hide Seq;
    hide Idles;
    hide RejControl;
    hide StepA;
    var t := NextRejected(s, n);
    r := t.(ba := []);
    RejectDropped(t, n + 1);
    IdlesOn(s, t, false, Lose(0));
  }

  lemma RejectDropped(t: Session, n: nat)
    requires RejectUnderWay(t, n)
    ensures Enabled(Flip(t), Lose(0)) && Step(t, false, Lose(0)) == t.(ba := []) && Missing(t.(ba := []), n)
  {
    hide Inv;
    hide Seq;
    hide RejControl;
    hide StepA;
    hide Enabled;
    AnswerDropped(t);
  }

  /** The one frame under way to the first station, which is not a U-frame, is lost. */
  lemma AnswerDropped(t: Session)
    requires Inv(t) && !t.over && |t.ba| == 1 && t.ba[0].tag != TagU
    ensures Enabled(Flip(t), Lose(0)) && Step(t, false, Lose(0)) == t.(ba := []) && Inv(t.(ba := []))
  {
    hide Inv;
    hide StepA;
    FlipInv(t);
    InvStates(Flip(t));
    InvSlots(Flip(t));
    LosesAll(Flip(t));
    LoseInv(Flip(t), 0);
    FlipInv(t.(ba := []));
  }

  /** Whatever else is under way: the frame sent after a REJ has been taken is the frame the REJ asks for. */
  lemma RejectAnswered(s: Session, ack: nat)
    requires Inv(s) && !s.over && s.ba != [] && s.ba[0].tag == TagS(ack) && ack < |s.a.sent|
    requires |s.ba[0].bytes| == 2 && s.ba[0].bytes[1] == RejControl(Seq(ack)) && NothingWaiting(s.a)
    ensures Enabled(s, Receive) && Enabled(StepA(s, Receive), Transmit)
    ensures StepA(StepA(s, Receive), Transmit).ab ==
      s.ab + [Packet([Addr(s.a), IControl(Seq(ack), Seq(s.a.Got()))] + s.a.sent[ack], TagI(ack, s.a.Got()))]
  {
    hide Inv;
    hide Seq;
    hide RejControl;
    hide IControl;
    hide DoReceive;
    hide SType;
    hide FindFree;
    hide Confirm;
    RejectNotI(Seq(ack));
    InvSlots(s);
    InvStates(s);
    ReceiveInv(s);
    Reheard(s, ack);
    FrameAgain(StepA(s, Receive), ack);
  }

  lemma Reheard(s: Session, ack: nat)
    requires Inv(s) && !s.over && s.ba != [] && s.ba[0].tag == TagS(ack)
    requires |s.ba[0].bytes| == 2 && s.ba[0].bytes[1] == RejControl(Seq(ack)) && NothingWaiting(s.a)
    requires Enabled(s, Receive)
    ensures var x := StepA(s, Receive).a;
      && |x.fd.peers| == 1 && x.State() == Connected && x.Ctl().nextNs == Seq(ack) && x.conf == ack
      && NothingWaiting(x) && x.fd.delivered == s.a.fd.delivered && x.sent == s.a.sent && Addr(x) == Addr(s.a)
  {
    hide Local;
    hide Data;
    hide Acks;
    hide Handshake;
    hide Seq;
    hide RejControl;
    hide DoReceive;
    hide SType;
    hide FindFree;
    hide Confirm;
    hide Enabled;
    BothInv(s);
    BothConnected(s);
    RejectIs(Seq(ack));
    ReceiveS(s.a, s.ab, s.b, s.ba);
    AckedBoth(s.a, s.ab, s.b, s.ba);
  }

  lemma RejectIs(nr: byte)
    requires nr <= 7
    ensures SType(RejControl(nr)) == HDLC_S_FRAME_TYPE_REJ
  {
    ControlRoundTrip(0, nr);
  }

  lemma FrameAgain(s: Session, n: nat)
    requires Inv(s) && !s.over && s.a.State() == Connected && NothingWaiting(s.a)
    requires s.a.Ctl().nextNs == Seq(n) && s.a.conf == n < |s.a.sent|
    ensures Enabled(s, Transmit)
    ensures StepA(s, Transmit).ab ==
      s.ab + [Packet([Addr(s.a), IControl(Seq(n), Seq(s.a.Got()))] + s.a.sent[n], TagI(n, s.a.Got()))]
  {
    hide Local;
    hide Acks;
    hide Handshake;
    hide Seq;
    hide IControl;
    hide IndexFrom;
    hide FirstOccupied;
    hide Agrees;
    hide DataPacket;
    var x := s.a;
    FirstIsNone(x.fd.sq.slots, 0);
    WindowBound(x.fd.iq.slots, Addr(x), x.conf, |x.sent|, x.sent);
    SeqEqual(n, |x.sent|);
    IndexInWindow(x.conf, n);
    FindAgrees(x.fd.iq.slots, Addr(x), x.conf, |x.sent|, x.sent, Seq(n));
    NextIFrameBytes(x);
    NextNumber(s);
    assert FirstEligible(x.fd, 0) == Some(0);
  }

  lemma NextNumber(s: Session)
    requires Inv(s)
    ensures s.a.Ctl().nextNr == Seq(s.a.Got())
  {
    hide Local;
    hide Acks;
    hide Handshake;
    hide Agrees;
    hide Seq;
    hide DataPacket;
  }

  lemma AloneWaits(x: Station)
    requires NothingWaiting(x) && |x.slotAck| == |x.fd.sq.slots|
    ensures OneWaiting(x)
  {}

  // ----- What it comes to -----

  /**
   However many frames in a row are lost, one that arrives behind them is enough: from a
   state that the stations reach, the exchange delivers and acknowledges all that was
   accepted, both ways.
   */
  lemma LossHealed(s: Session, n: nat) returns (r: Session)
    requires InTurn(s) && NothingWaiting(s.a)
    requires n > 0 && s.b.Got() + n < |s.a.sent| && !s.b.fd.peers[0].sentReject
    ensures Idles(s, r) && InTurn(r) && SameHistory(s, r)
    ensures var q := Exchange(r);
      && q.a.sent == s.a.sent && q.b.sent == s.b.sent && q.ab == q.ba == []
      && |q.a.fd.peers| == 1 && |q.b.fd.peers| == 1 && Settled(q.a, q.b) && Settled(q.b, q.a)
  {
    hide Inv;
    hide Seq;
    hide Idles;
    hide NothingWaiting;
    hide Exchange;
    hide Settled;
    NoneMissing(s);
    hide InTurn;
    var t := LoseMany(s, 0, n);
    r := RejectHeals(t, n);
    IdlesTrans(s, t, r);
    ExchangeSettles(r);
  }

  /** The last frames may be lost too, so that no REJ comes: then the retry timer does it. */
  lemma SilenceHealed(s: Session, n: nat) returns (r: Session)
    requires InTurn(s) && NothingWaiting(s.a) && n > 0 && s.b.Got() + n <= |s.a.sent| && s.a.fd.maxRetries > 0
    ensures Idles(s, r) && InTurn(r) && SameHistory(s, r)
    ensures var q := Exchange(r);
      && q.a.sent == s.a.sent && q.b.sent == s.b.sent && q.ab == q.ba == []
      && |q.a.fd.peers| == 1 && |q.b.fd.peers| == 1 && Settled(q.a, q.b) && Settled(q.b, q.a)
  {
    hide Inv;
    hide Seq;
    hide Idles;
    hide NothingWaiting;
    hide Exchange;
    hide Settled;
    NoneMissing(s);
    hide InTurn;
    var t := LoseMany(s, 0, n);
    r := TimerHeals(t, n);
    IdlesTrans(s, t, r);
    ExchangeSettles(r);
  }
}
