/**
 What every run of a session guarantees, from two fresh stations on, whatever is lost and
 whenever the timers fire.
 */
module SessionTheorems {
  import opened Base
  import opened SeqNum
  import opened FdDefs
  import opened IQueueControl
  import opened FrameQueue
  import opened FdSpec
  import opened Window
  import opened Session
  import opened SessionProof
  import opened SessionReceive

  lemma ReceiveInv(s: Session)
    requires Inv(s) && Enabled(s, Receive)
    ensures !StepA(s, Receive).over && Inv(StepA(s, Receive))
  {
    hide Local;
    hide Data;
    hide Acks;
    hide Handshake;
    hide DoReceive;
    hide AnswersInOrder;
    hide IsI;
    var p := s.ba[0];
    if U(p) {
      ReceiveU(s.a, s.ab, s.b, s.ba);
    } else {
      BothConnected(s);
      if p.tag.TagI? {
        HeadData(s.a, s.ab, s.b, s.ba);
        ReadI(s.a, s.b, p);
        ReceiveI(s.a, s.ab, s.b, s.ba);
      } else {
        ReceiveS(s.a, s.ab, s.b, s.ba);
      }
    }
  }

  lemma StepInv(s: Session, act: Action)
    requires Inv(s) && Enabled(s, act)
    ensures var r := StepA(s, act);
      (r.over ==> Prefix(r.a, r.b) && Prefix(r.b, r.a)) && (!r.over ==> Inv(r))
  {
    hide Inv;
    hide Enabled;
    hide StepA;
    match act
    case Send(address, data) => SendInv(s, address, data); NotOver(s, act);
    case Timer(frameDue, iDue) => TimerInv(s, frameDue, iDue);
    case Transmit => TransmitInv(s); NotOver(s, act);
    case Receive => ReceiveInv(s);
    case Lose(at) => LoseInv(s, at); NotOver(s, act);
  }

  lemma NotOver(s: Session, act: Action)
    requires Enabled(s, act) && (act.Send? || act.Transmit? || act.Lose?)
    ensures !StepA(s, act).over
  {
    hide DoSend;
    hide Generate;
  }

  lemma FlipInv(s: Session)
    ensures Inv(Flip(s)) <==> Inv(s)
  {
    hide Local;
    hide Data;
    hide Acks;
    hide Handshake;
  }

  lemma BothInv(s: Session)
    ensures Inv(s) <==> Both(s.a, s.ab, s.b, s.ba)
    ensures Inv(s) <==> Both(s.b, s.ba, s.a, s.ab)
  {
    hide Local;
    hide Data;
    hide Acks;
    hide Handshake;
  }

  lemma PacketLong(s: Session)
    requires Inv(s) && s.ba != []
    ensures |s.ba[0].bytes| >= 2
  {
    hide Local;
    hide Handshake;
    hide Seq;
    hide Agrees;
    hide IControl;
    hide RrControl;
    hide RejControl;
    assert DataPacket(s.b, s.ba[0]) && ServicePacket(s.b, s.ba[0]);
  }

  /** The state of any run: the invariant while the session lasts, in-order delivery even when it has ended. */
  ghost predicate Good(s: Session) {
    && (!s.over ==> Inv(s))
    && Prefix(s.a, s.b) && Prefix(s.b, s.a)
  }

  lemma StepGood(s: Session, first: bool, act: Action)
    requires Good(s) && Enabled(if first then s else Flip(s), act)
    ensures Good(Step(s, first, act))
  {
    hide Inv;
    hide StepA;
    var t := if first then s else Flip(s);
    assert !s.over;
    FlipInv(s);
    StepInv(t, act);
    var r := StepA(t, act);
    FlipInv(r);
    if !r.over {
      InvPrefix(r);
    }
  }

  lemma {:induction false} RunGood(s: Session, acts: seq<(bool, Action)>)
    requires Init(s) && RunFrom(s, acts).Some?
    ensures Good(RunFrom(s, acts).value)
  {
    hide Inv;
    hide Enabled;
    hide Step;
    hide Init;
    if acts == [] {
      InitInv(s);
      assert !s.over by { InitNotOver(s); }
      InvPrefix(s);
    } else {
      var n := |acts| - 1;
      RunGood(s, acts[..n]);
      StepGood(RunFrom(s, acts[..n]).value, acts[n].0, acts[n].1);
    }
  }

  lemma InitNotOver(s: Session)
    requires Init(s)
    ensures !s.over
  {}

  // ----- Runs put together -----

  ghost predicate Runs(s: Session, r: Session) {
    exists acts :: RunFrom(s, acts) == Some(r)
  }

  lemma RunsNone(s: Session)
    ensures Runs(s, s)
  {
    assert RunFrom(s, []) == Some(s);
  }

  lemma RunFromSnoc(s: Session, acts: seq<(bool, Action)>, first: bool, act: Action)
    requires RunFrom(s, acts).Some?
    requires Enabled(if first then RunFrom(s, acts).value else Flip(RunFrom(s, acts).value), act)
    ensures RunFrom(s, acts + [(first, act)]) == Some(Step(RunFrom(s, acts).value, first, act))
  {
    hide Enabled;
    hide Step;
    assert (acts + [(first, act)])[..|acts|] == acts;
  }

  lemma RunsOn(s: Session, r: Session, first: bool, act: Action)
    requires Runs(s, r) && Enabled(if first then r else Flip(r), act)
    ensures Runs(s, Step(r, first, act))
  {
    hide Enabled;
    hide Step;
    hide RunFrom;
    var acts :| RunFrom(s, acts) == Some(r);
    RunFromSnoc(s, acts, first, act);
  }

  lemma {:induction false} RunFromAppend(s: Session, a: seq<(bool, Action)>, b: seq<(bool, Action)>)
    requires RunFrom(s, a).Some?
    ensures RunFrom(s, a + b) == RunFrom(RunFrom(s, a).value, b)
  {
    hide Enabled;
    hide Step;
    if b == [] {
      assert a + b == a;
    } else {
      assert (a + b)[..|a + b| - 1] == a + b[..|b| - 1];
      RunFromAppend(s, a, b[..|b| - 1]);
    }
  }

  lemma RunsTrans(s: Session, t: Session, r: Session)
    requires Runs(s, t) && Runs(t, r)
    ensures Runs(s, r)
  {
    hide RunFrom;
    var a :| RunFrom(s, a) == Some(t);
    var b :| RunFrom(t, b) == Some(r);
    RunFromAppend(s, a, b);
  }

  // ----- Runs in which no user hands over anything -----

  predicate NoSends(acts: seq<(bool, Action)>) {
    forall i :: 0 <= i < |acts| ==> !acts[i].1.Send?
  }

  ghost predicate Idles(s: Session, r: Session) {
    exists acts :: NoSends(acts) && RunFrom(s, acts) == Some(r)
  }

  lemma IdlesNone(s: Session)
    ensures Idles(s, s)
  {
    assert NoSends([]) && RunFrom(s, []) == Some(s);
  }

  lemma IdlesOn(s: Session, r: Session, first: bool, act: Action)
    requires Idles(s, r) && Enabled(if first then r else Flip(r), act) && !act.Send?
    ensures Idles(s, Step(r, first, act))
  {
    hide Enabled;
    hide Step;
    hide RunFrom;
    var acts :| NoSends(acts) && RunFrom(s, acts) == Some(r);
    RunFromSnoc(s, acts, first, act);
    assert NoSends(acts + [(first, act)]);
  }

  lemma IdlesTrans(s: Session, t: Session, r: Session)
    requires Idles(s, t) && Idles(t, r)
    ensures Idles(s, r)
  {
    hide RunFrom;
    var a :| NoSends(a) && RunFrom(s, a) == Some(t);
    var b :| NoSends(b) && RunFrom(t, b) == Some(r);
    RunFromAppend(s, a, b);
    assert NoSends(a + b);
  }

  /** The other station's point of view. */
  lemma IdlesMirrored(s: Session, r: Session)
    requires Idles(Flip(s), r)
    ensures Idles(s, Flip(r))
  {
    hide RunFrom;
    var acts :| NoSends(acts) && RunFrom(Flip(s), acts) == Some(r);
    EachMirrored(s, acts);
  }

  lemma {:induction false} EachMirrored(s: Session, acts: seq<(bool, Action)>)
    requires NoSends(acts) && RunFrom(Flip(s), acts).Some?
    ensures Idles(s, Flip(RunFrom(Flip(s), acts).value))
    decreases |acts|
  {
    hide Enabled;
    hide StepA;
    hide Idles;
    if acts == [] {
      IdlesNone(s);
    } else {
      var n := |acts| - 1;
      EachMirrored(s, acts[..n]);
      var mid := RunFrom(Flip(s), acts[..n]).value;
      assert Flip(Flip(mid)) == mid;
      IdlesOn(s, Flip(mid), !acts[n].0, acts[n].1);
    }
  }

  /** At most one supervisory frame waits. */
  ghost predicate OneAnswer(q: Queue) {
    forall j, k :: 0 <= j < k < |q.slots| ==> !PendingS(q.slots[j]) || !PendingS(q.slots[k])
  }

  /** A run in which each service queue never holds two supervisory frames satisfies the condition on I-frames. */
  lemma OneAnswerSuffices(fd: Fd, bytes: seq<byte>)
    requires fd.Valid() && |fd.peers| == 1 && fd.peers[0].state == Connected && |bytes| >= 2 && IsI(bytes[1])
    requires OneAnswer(OnFrame(fd, bytes).sq)
    ensures AnswersInOrder(fd, bytes)
  {
    hide FindFree;
    hide Rotated;
    hide Confirmed;
    hide FreeAllNs;
    hide RrControl;
    hide RejControl;
    hide AddressOf;
    hide AddressToPeer;
    hide UserAddress;
    hide HighSeq;
    hide LowSeq;
    hide Succ;
    var free := FindFree(fd.sq.slots, fd.sq.lookup, 0);
    var after := OnFrame(fd, bytes).sq;
    if free.Some? && Answer(fd, bytes).Some? {
      assert PendingS(after.slots[free.value]);
      assert forall k :: free.value < k < |after.slots| ==> after.slots[k] == fd.sq.slots[k];
    }
  }

  function PayloadsOf(log: seq<(byte, seq<byte>)>): (ps: Log)
    ensures |ps| == |log| && forall i :: 0 <= i < |log| ==> ps[i] == log[i].1
  {
    seq(|log|, i requires 0 <= i < |log| => log[i].1)
  }

  /**
   End-to-end safety: in every run, in both directions at once, the payloads given to the
   read callback are a prefix of the payloads send_packet accepted at the other end - in
   order, without duplicates and without gaps.
   */
  lemma DeliveryIsPrefix(s: Session, acts: seq<(bool, Action)>)
    requires Init(s) && RunFrom(s, acts).Some?
    ensures var r := RunFrom(s, acts).value;
      PayloadsOf(r.b.fd.delivered) <= r.a.sent && PayloadsOf(r.a.fd.delivered) <= r.b.sent
  {
    hide Inv;
    hide RunFrom;
    RunGood(s, acts);
  }

  /**
   No premature release: while the session lasts, what a station has confirmed its peer
   has delivered, what its peer has delivered it has sent, at most seven frames lie
   between, and every accepted frame that is not delivered is still queued under its number.
   */
  lemma NoPrematureRelease(s: Session, acts: seq<(bool, Action)>)
    requires Init(s) && RunFrom(s, acts).Some? && !RunFrom(s, acts).value.over
    ensures var r := RunFrom(s, acts).value;
      && |r.a.fd.peers| == 1 && |r.b.fd.peers| == 1
      && r.a.conf <= r.b.Got() <= |r.a.sent| <= r.a.conf + 7 && Kept(r.a, r.b)
      && r.b.conf <= r.a.Got() <= |r.b.sent| <= r.b.conf + 7 && Kept(r.b, r.a)
  {
    hide RunFrom;
    hide Data;
    hide Acks;
    hide Handshake;
    hide Kept;
    hide Agrees;
    RunGood(s, acts);
    var r := RunFrom(s, acts).value;
    DataKept(r.a, r.ab, r.b);
    DataKept(r.b, r.ba, r.a);
  }

  lemma DataKept(x: Station, xy: seq<Packet>, y: Station)
    requires Local(x) && Local(y) && Data(x, xy, y)
    ensures Kept(x, y) && x.conf <= y.Got() <= |x.sent| <= x.conf + 7
  {
    hide Seq;
    hide Agrees;
    hide DataPacket;
    hide Local;
    WindowBound(x.fd.iq.slots, Addr(x), x.conf, |x.sent|, x.sent);
    forall i: nat | y.Got() <= i < |x.sent|
      ensures var r := Find(x.fd.iq.slots, IFrame, Addr(x), Seq(i), 0);
        r.Some? && x.fd.iq.slots[r.value].value.payload == x.sent[i]
    {
      IndexInWindow(x.conf, i);
      FindAgrees(x.fd.iq.slots, Addr(x), x.conf, |x.sent|, x.sent, Seq(i));
    }
  }

  /** No frame with the given control octet is waiting at x or under way from it. */
  ghost predicate Unsaid(x: Station, xy: seq<Packet>, control: byte) {
    && (forall j :: 0 <= j < |x.fd.sq.slots| && x.fd.sq.slots[j].Some? ==>
          x.fd.sq.slots[j].value.header.control != control)
    && (forall q :: 0 <= q < |xy| ==> |xy[q].bytes| >= 2 && xy[q].bytes[1] != control)
  }

  lemma NoDm(x: Station, xy: seq<Packet>, y: Station)
    requires Local(x) && Local(y) && Data(x, xy, y) && Acks(x, xy, y)
    ensures Unsaid(x, xy, DM_CONTROL) && Unsaid(x, xy, DISC_CONTROL)
  {
    hide Seq;
    hide Agrees;
    hide IControl;
    hide RrControl;
    hide RejControl;
    forall j | 0 <= j < |x.fd.sq.slots| && x.fd.sq.slots[j].Some?
      ensures x.fd.sq.slots[j].value.header.control != DM_CONTROL
      ensures x.fd.sq.slots[j].value.header.control != DISC_CONTROL
    {
      assert SlotOk(x, j);
      NotDm(0, Seq(x.slotAck[j]));
    }
    forall q | 0 <= q < |xy|
      ensures |xy[q].bytes| >= 2 && xy[q].bytes[1] != DM_CONTROL && xy[q].bytes[1] != DISC_CONTROL
    {
      assert DataPacket(x, xy[q]) && ServicePacket(x, xy[q]);
      match xy[q].tag
      case TagI(idx, ack) => NotDm(Seq(idx), Seq(ack));
      case TagS(ack) => NotDm(0, Seq(ack));
      case TagU =>
    }
  }

  lemma NotDm(ns: byte, nr: byte)
    requires ns <= 7 && nr <= 7
    ensures IControl(ns, nr) != DM_CONTROL && RrControl(nr) != DM_CONTROL && RejControl(nr) != DM_CONTROL
    ensures IControl(ns, nr) != DISC_CONTROL && RrControl(nr) != DISC_CONTROL && RejControl(nr) != DISC_CONTROL
  {}

  /**
   Handshake safety: while the session lasts no DM or DISC is ever produced; a station's
   counters are reset exactly once, when it becomes connected, before it has sent or taken
   any I-frame; and a SABM or UA is ahead of everything its peer could not take yet.
   */
  lemma HandshakeSafe(s: Session, acts: seq<(bool, Action)>)
    requires Init(s) && RunFrom(s, acts).Some? && !RunFrom(s, acts).value.over
    ensures var r := RunFrom(s, acts).value;
      && |r.a.fd.peers| == 1 && |r.b.fd.peers| == 1
      && Unsaid(r.a, r.ab, DM_CONTROL) && Unsaid(r.b, r.ba, DM_CONTROL)
      && Unsaid(r.a, r.ab, DISC_CONTROL) && Unsaid(r.b, r.ba, DISC_CONTROL)
      && OneReset(r.a) && OneReset(r.b)
      && (r.b.State() != Connected ==> forall q :: 0 <= q < |r.ab| && !U(r.ab[q]) ==> HasU(r.ab[..q]))
      && (r.a.State() != Connected ==> forall q :: 0 <= q < |r.ba| && !U(r.ba[q]) ==> HasU(r.ba[..q]))
  {
    hide RunFrom;
    RunGood(s, acts);
    var r := RunFrom(s, acts).value;
    NoDm(r.a, r.ab, r.b);
    NoDm(r.b, r.ba, r.a);
    hide Data;
    hide Acks;
    hide SlotOk;
    hide Order;
    hide Meaning;
    hide Unsaid;
  }

  ghost predicate OneReset(x: Station)
    requires |x.fd.peers| == 1
  {
    if x.State() == Connected then x.fd.connects == [(UserAddress(x.fd, 0), true)]
    else x.fd.connects == [] && Blank(x)
  }
}
