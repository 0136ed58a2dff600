/**
 Why a run takes an I-frame only when its answer will leave in order. The service queue is
 filled in rotation but emptied from slot 0, so a newer acknowledgement can overtake an
 older one; the older one then lies outside the sender's window, and the confirm loop
 releases frames that were never delivered.
 */
module OutOfOrder {
  import opened Base
  import opened SeqNum
  import opened FdDefs
  import opened IQueueControl
  import opened FrameQueue
  import opened FdSpec
  import opened Window
  import opened Session
  import opened SessionProof
  import opened SessionReceive
  import opened SessionTheorems

  // ----- Runs of what can happen, with no condition on the order of answers -----

  function FreeRun(s: Session, acts: seq<(bool, Action)>): Option<Session> {
    if acts == [] then Some(s)
    else
      var n := |acts| - 1;
      var (first, act) := acts[n];
      match FreeRun(s, acts[..n])
      case None => None
      case Some(r) => if Possible(if first then r else Flip(r), act) then Some(Step(r, first, act)) else None
  }

  /** Users send, stations transmit and receive; nothing is lost and no timer fires. */
  predicate Plain(act: Action) {
    act.Send? || act.Transmit? || act.Receive?
  }

  predicate AllPlain(acts: seq<(bool, Action)>) {
    forall i :: 0 <= i < |acts| ==> Plain(acts[i].1)
  }

  ghost predicate Reaches(s: Session, r: Session) {
    exists acts :: FreeRun(s, acts) == Some(r) && AllPlain(acts)
  }

  lemma {:induction false} FreeRunAppend(s: Session, a: seq<(bool, Action)>, b: seq<(bool, Action)>)
    requires FreeRun(s, a).Some?
    ensures FreeRun(s, a + b) == FreeRun(FreeRun(s, a).value, b)
  {
    hide Possible;
    hide Step;
    if b == [] {
      assert a + b == a;
    } else {
      assert (a + b)[..|a + b| - 1] == a + b[..|b| - 1];
      FreeRunAppend(s, a, b[..|b| - 1]);
    }
  }

  lemma ReachesTrans(s: Session, t: Session, r: Session)
    requires Reaches(s, t) && Reaches(t, r)
    ensures Reaches(s, r)
  {
    hide FreeRun;
    hide Plain;
    var a :| FreeRun(s, a) == Some(t) && AllPlain(a);
    var b :| FreeRun(t, b) == Some(r) && AllPlain(b);
    FreeRunAppend(s, a, b);
  }

  lemma ReachesNone(s: Session)
    ensures Reaches(s, s)
  {
    assert FreeRun(s, []) == Some(s);
  }

  lemma ReachesOne(s: Session, first: bool, act: Action)
    requires Possible(if first then s else Flip(s), act) && Plain(act)
    ensures Reaches(s, Step(s, first, act))
  {
    hide Possible;
    hide Step;
    assert [(first, act)][..0] == [];
    assert FreeRun(s, []) == Some(s);
    assert FreeRun(s, [(first, act)]) == Some(Step(s, first, act));
  }

  // ----- Runs that keep the condition, with or without losses -----

  ghost predicate Goes(s: Session, r: Session, plain: bool) {
    exists acts :: RunFrom(s, acts) == Some(r) && (plain ==> AllPlain(acts))
  }

  lemma GoesNone(s: Session)
    ensures Goes(s, s, true) && Goes(s, s, false)
  {
    assert RunFrom(s, []) == Some(s);
  }

  lemma GoesOne(s: Session, first: bool, act: Action)
    requires Enabled(if first then s else Flip(s), act)
    ensures Goes(s, Step(s, first, act), false) && (Plain(act) ==> Goes(s, Step(s, first, act), true))
  {
    hide Enabled;
    hide Step;
    assert [(first, act)][..0] == [];
    assert RunFrom(s, []) == Some(s);
    assert RunFrom(s, [(first, act)]) == Some(Step(s, first, act));
  }

  lemma GoesTrans(s: Session, t: Session, r: Session, plain: bool)
    requires Goes(s, t, plain) && Goes(t, r, plain)
    ensures Goes(s, r, plain)
  {
    hide RunFrom;
    hide Plain;
    var a :| RunFrom(s, a) == Some(t) && (plain ==> AllPlain(a));
    var b :| RunFrom(t, b) == Some(r) && (plain ==> AllPlain(b));
    RunFromAppend(s, a, b);
  }

  lemma GoesAnyway(s: Session, r: Session)
    requires Goes(s, r, true)
    ensures Goes(s, r, false)
  {}

  lemma GoesRuns(s: Session, r: Session, plain: bool)
    requires Goes(s, r, plain)
    ensures Runs(s, r)
  {}

  lemma GoesReaches(s: Session, r: Session)
    requires Goes(s, r, true)
    ensures Reaches(s, r)
  {
    hide RunFrom;
    hide FreeRun;
    hide Plain;
    var acts :| RunFrom(s, acts) == Some(r) && AllPlain(acts);
    RunIsFree(s, acts);
  }

  lemma {:induction false} RunIsFree(s: Session, acts: seq<(bool, Action)>)
    requires RunFrom(s, acts).Some?
    ensures FreeRun(s, acts) == RunFrom(s, acts)
  {
    hide Enabled;
    hide Possible;
    hide Step;
    if acts != [] {
      RunIsFree(s, acts[..|acts| - 1]);
    }
  }

  function Mirrored(acts: seq<(bool, Action)>): (r: seq<(bool, Action)>)
    ensures |r| == |acts| && forall i :: 0 <= i < |acts| ==> r[i] == (!acts[i].0, acts[i].1)
  {
    seq(|acts|, i requires 0 <= i < |acts| => (!acts[i].0, acts[i].1))
  }

  lemma {:induction false} RunMirrored(s: Session, acts: seq<(bool, Action)>)
    requires RunFrom(s, acts).Some?
    ensures RunFrom(Flip(s), Mirrored(acts)) == Some(Flip(RunFrom(s, acts).value))
  {
    hide Enabled;
    hide StepA;
    if acts != [] {
      var n := |acts| - 1;
      RunMirrored(s, acts[..n]);
      assert Mirrored(acts)[..n] == Mirrored(acts[..n]);
    }
  }

  /** Seen from the other side it is the same run. */
  lemma GoesFlip(s: Session, r: Session, plain: bool)
    requires Goes(Flip(s), r, plain)
    ensures Goes(s, Flip(r), plain)
  {
    hide RunFrom;
    hide Plain;
    var acts :| RunFrom(Flip(s), acts) == Some(r) && (plain ==> AllPlain(acts));
    RunMirrored(Flip(s), acts);
    assert RunFrom(s, Mirrored(acts)) == Some(Flip(r));
  }

  // ----- A station that takes what arrives -----

  /** Connected, and known to its peer under this address. */
  predicate Hears(fd: Fd, address: byte)
    ensures Hears(fd, address) ==>
      fd.Valid() && |fd.peers| == 1 && fd.peers[0].ctl.Valid() && fd.peers[0].state == Connected
  {
    && fd.Valid() && |fd.peers| == 1 && fd.peers[0].state == Connected
    && AddressOf(fd, 0) == address && AddressToPeer(fd.peers, fd.localAddr, address) == 0
  }

  /** Nothing but the window's lower end moved, and with it the frames below it left. */
  ghost predicate Moved(fd: Fd, r: Fd, address: byte, nr: byte)
    requires Hears(fd, address) && nr <= 7
  {
    && Hears(r, address)
    && r.peers[0].ctl.lastNs == fd.peers[0].ctl.lastNs && r.peers[0].ctl.confirmNs == nr
    && r.iq.slots == FreeAllNs(fd.iq.slots, address, Confirmed(fd.peers[0].ctl.confirmNs, nr))
  }

  lemma ConfirmMoves(fd: Fd, address: byte, nr: byte)
    requires Hears(fd, address) && nr <= 7
    ensures Moved(fd, Confirm(fd, 0, nr), address, nr)
  {
    hide FreeAllNs;
    hide Confirmed;
    hide NoCr;
    ConfirmValid(fd, 0, nr);
  }

  lemma AnswerHears(fd: Fd, address: byte, payload: seq<byte>)
    requires Hears(fd, address)
    ensures forall r :: r == Refuse(fd, 0) || r == Accept(fd, 0, payload) ==>
      && Hears(r, address) && r.iq == fd.iq && r.peers[0].ctl.lastNs == fd.peers[0].ctl.lastNs
      && r.peers[0].ctl.confirmNs == fd.peers[0].ctl.confirmNs
  {
    hide Succ;
    hide RrControl;
    hide RejControl;
    hide NoCr;
    hide FindFree;
    hide Rotated;
    hide Fd.Valid;
    ShapeOf(fd);
    RefuseAcceptValid(fd, 0, payload);
  }

  lemma OnIMoves(fd: Fd, address: byte, bytes: seq<byte>)
    requires Hears(fd, address) && |bytes| >= 2
    ensures Moved(fd, OnI(fd, 0, bytes), address, LowSeq(bytes[1]))
  {
    hide Confirm;
    hide Refuse;
    hide Accept;
    hide Fd.Valid;
    hide AddressOf;
    hide AddressToPeer;
    hide FreeAllNs;
    hide LowSeq;
    hide HighSeq;
    CtlOk(fd, 0);
    ConfirmMoves(fd, address, LowSeq(bytes[1]));
    AnswerHears(Confirm(fd, 0, LowSeq(bytes[1])), address, bytes[2..]);
  }

  lemma TuneHears(fd: Fd, address: byte, r: Fd)
    requires Hears(fd, address) && r.Valid() && |r.peers| == 1 && r.localAddr == fd.localAddr
    requires r.peers[0].state == Connected && r.peers[0].addr == fd.peers[0].addr
    ensures Hears(r, address)
  {
    hide Fd.Valid;
    hide NoCr;
  }

  lemma OnSMoves(fd: Fd, address: byte, bytes: seq<byte>)
    requires Hears(fd, address) && |bytes| >= 2
    ensures Moved(fd, OnS(fd, 0, bytes), address, HighSeq(bytes[1]))
  {
    hide Confirm;
    hide FreeAllNs;
    hide HighSeq;
    hide SType;
    hide AddressOf;
    hide AddressToPeer;
    hide Fd.Valid;
    CtlOk(fd, 0);
    ConfirmMoves(fd, address, HighSeq(bytes[1]));
    OnSValid(fd, 0, bytes);
    TuneHears(Confirm(fd, 0, HighSeq(bytes[1])), address, OnS(fd, 0, bytes));
  }

  /** A connection request or its confirmation changes nothing at a connected station but its answers. */
  lemma OnUHears(fd: Fd, address: byte, control: byte)
    requires Hears(fd, address) && (control == SABM_CONTROL || control == UA_CONTROL)
    ensures var r := OnU(fd, 0, control); Hears(r, address) && r.iq == fd.iq && r.peers == fd.peers
  {
    hide NoCr;
    hide FindFree;
    hide Rotated;
    hide Fd.Valid;
    ShapeOf(fd);
    UControlRoundTrip();
    OnUValid(fd, 0, control);
  }

  /** The octets of a packet are what its tag says. */
  predicate Spoken(address: byte, p: Packet) {
    match p.tag
    case TagI(idx, ack) => |p.bytes| >= 2 && p.bytes[0] == address && p.bytes[1] == IControl(Seq(idx), Seq(ack))
    case TagS(ack) => p.bytes == [address, RrControl(Seq(ack))] || p.bytes == [address, RejControl(Seq(ack))]
    case TagU => p.bytes == [address, SABM_CONTROL] || p.bytes == [address, UA_CONTROL]
  }

  /** Taking a packet: the window follows the acknowledgement it carries, and the station stays connected. */
  lemma TakeOne(fd: Fd, address: byte, p: Packet)
    requires Hears(fd, address) && Spoken(address, p)
    ensures |p.bytes| >= 2
    ensures var r := OnFrame(fd, p.bytes);
      if U(p) then Hears(r, address) && r.iq == fd.iq && r.peers == fd.peers
      else Moved(fd, r, address, Seq(AckOf(p)))
  {
    hide Seq;
    hide IControl;
    hide RrControl;
    hide RejControl;
    hide Moved;
    hide AddressToPeer;
    hide HighSeq;
    hide LowSeq;
    hide OnI;
    hide OnS;
    hide OnU;
    hide IsI;
    hide IsS;
    hide IsU;
    match p.tag
    case TagI(idx, ack) =>
      ControlRoundTrip(Seq(idx), Seq(ack));
      OnIMoves(fd, address, p.bytes);
    case TagS(ack) =>
      ControlRoundTrip(0, Seq(ack));
      OnSMoves(fd, address, p.bytes);
    case TagU =>
      UControlRoundTrip();
      OnUHears(fd, address, p.bytes[1]);
  }

  // ----- All that is under way arrives -----

  predicate Listening(x: Station, address: byte) {
    Hears(x.fd, address) && |x.slotAck| == |x.fd.sq.slots|
  }

  /** The first station hears everything that is under way to it. */
  ghost predicate Arriving(t: Session, address: byte) {
    && !t.over && Listening(t.a, address)
    && (forall q :: 0 <= q < |t.ba| ==> Spoken(address, t.ba[q]))
    && (forall q :: 0 <= q < |t.ba| && !U(t.ba[q]) ==> AckOf(t.ba[q]) <= |t.a.sent| <= AckOf(t.ba[q]) + 7)
  }

  /** Nothing but the first station and what was under way to it has changed. */
  ghost predicate Arrived(t: Session, r: Session, address: byte) {
    Reaches(t, r) && Arriving(r, address) && r.b == t.b && r.ab == t.ab && r.a.sent == t.a.sent
  }

  /** No frame of this station waits for an acknowledgement. */
  ghost predicate Cleared(x: Station, address: byte) {
    forall j :: 0 <= j < |x.fd.iq.slots| ==> !Mine(x.fd.iq.slots[j], address)
  }

  ghost predicate InWindow(x: Station, address: byte, c: nat) {
    |x.fd.peers| == 1 && x.Ctl().confirmNs == Seq(c) && Agrees(x.fd.iq.slots, address, c, |x.sent|, x.sent)
  }

  lemma ReceiveOne(t: Session, address: byte) returns (r: Session)
    requires Arriving(t, address) && t.ba != []
    ensures Arrived(t, r, address) && r.ba == t.ba[1..]
    ensures |t.ba[0].bytes| >= 2 && r.a.fd == OnFrame(t.a.fd, t.ba[0].bytes)
    ensures if U(t.ba[0]) then r.a.fd.iq == t.a.fd.iq && r.a.fd.peers == t.a.fd.peers
      else Moved(t.a.fd, r.a.fd, address, Seq(AckOf(t.ba[0])))
  {
    hide Spoken;
    hide OnFrame;
    hide AddressOf;
    hide AddressToPeer;
    hide FreeAllNs;
    hide Reaches;
    hide Seq;
    hide FindFree;
    TakeOne(t.a.fd, address, t.ba[0]);
    OnFrameValid(t.a.fd, t.ba[0].bytes);
    r := StepA(t, Receive);
    ReachesOne(t, true, Receive);
  }

  lemma ArrivedTrans(t: Session, u: Session, r: Session, address: byte)
    requires Arrived(t, u, address) && Arrived(u, r, address)
    ensures Arrived(t, r, address)
  {
    hide Reaches;
    hide Arriving;
    ReachesTrans(t, u, r);
  }

  /** A station that has nothing left to confirm keeps having nothing. */
  lemma {:induction false} ArriveCleared(t: Session, address: byte) returns (r: Session)
    requires Arriving(t, address) && Cleared(t.a, address)
    ensures Arrived(t, r, address) && r.ba == [] && Cleared(r.a, address)
    decreases |t.ba|
  {
    hide Reaches;
    hide Spoken;
    hide Hears;
    hide FreeAllNs;
    hide Mine;
    hide Seq;
    hide OnFrame;
    if t.ba == [] {
      ReachesNone(t);
      r := t;
    } else {
      var u := ReceiveOne(t, address);
      if !U(t.ba[0]) {
        var seqs := Confirmed(t.a.Ctl().confirmNs, Seq(AckOf(t.ba[0])));
        FreeAllKeeps(t.a.fd.iq.slots, address, seqs);
      }
      r := ArriveCleared(u, address);
      ArrivedTrans(t, u, r, address);
    }
  }

  /** An acknowledgement older than the window's lower end releases everything. */
  lemma OlderClears(slots: seq<Slot>, address: byte, c: nat, log: Log, a: nat)
    requires Agrees(slots, address, c, |log|, log) && a < c && |log| <= a + 7
    ensures var after := FreeAllNs(slots, address, Confirmed(Seq(c), Seq(a)));
      forall j :: 0 <= j < |after| ==> !Mine(after[j], address)
  {
    hide Seq;
    hide Agrees;
    hide FreeAllNs;
    hide IndexFrom;
    WindowBound(slots, address, c, |log|, log);
    AckIff(slots, address, c, |log|, log, Seq(a));
    IndexFromSeq(c, Seq(a));
    if IndexFrom(c, Seq(a)) <= |log| {
      var i :| c <= i <= |log| && Seq(i) == Seq(a);
      SeqEqual(a, i);
    }
  }

  /** The window after one packet: it has moved up to the acknowledgement, or all is released. */
  lemma WindowAfter(t: Session, address: byte, c: nat) returns (u: Session, d: nat)
    requires Arriving(t, address) && t.ba != [] && InWindow(t.a, address, c)
    ensures Arrived(t, u, address) && u.ba == t.ba[1..] && c <= d
    ensures U(t.ba[0]) || AckOf(t.ba[0]) >= c ==> InWindow(u.a, address, d)
    ensures !U(t.ba[0]) && AckOf(t.ba[0]) >= c ==> d == AckOf(t.ba[0])
    ensures !U(t.ba[0]) && AckOf(t.ba[0]) < c ==> Cleared(u.a, address)
  {
    hide Reaches;
    hide Spoken;
    hide Hears;
    hide FreeAllNs;
    hide Mine;
    hide Seq;
    hide OnFrame;
    hide Agrees;
    hide Confirmed;
    u := ReceiveOne(t, address);
    d := c;
    var p := t.ba[0];
    if !U(p) {
      if AckOf(p) < c {
        assert u.a.fd.iq.slots == FreeAllNs(t.a.fd.iq.slots, address, Confirmed(Seq(c), Seq(AckOf(p))));
        OlderClears(t.a.fd.iq.slots, address, c, t.a.sent, AckOf(p));
      } else {
        d := AckOf(p);
        FreeAllAgrees(t.a.fd.iq.slots, address, c, d, |t.a.sent|, t.a.sent);
      }
    }
  }

  /** Somewhere in what is under way there is an acknowledgement older than the window's lower end. */
  lemma {:induction false} ArriveOlder(t: Session, address: byte, c: nat, q: nat) returns (r: Session)
    requires Arriving(t, address) && InWindow(t.a, address, c)
    requires q < |t.ba| && !U(t.ba[q]) && AckOf(t.ba[q]) < c
    ensures Arrived(t, r, address) && r.ba == [] && Cleared(r.a, address)
    decreases |t.ba|
  {
    hide Reaches;
    hide Arriving;
    hide InWindow;
    hide Cleared;
    var u, d := WindowAfter(t, address, c);
    if !U(t.ba[0]) && AckOf(t.ba[0]) < c {
      r := ArriveCleared(u, address);
    } else {
      r := ArriveOlder(u, address, d, q - 1);
    }
    ArrivedTrans(t, u, r, address);
  }

  /** Somewhere in what is under way an acknowledgement is followed by an older one. */
  lemma {:induction false} ArriveSwapped(t: Session, address: byte, c: nat, p: nat, q: nat) returns (r: Session)
    requires Arriving(t, address) && InWindow(t.a, address, c)
    requires p < q < |t.ba| && !U(t.ba[p]) && !U(t.ba[q]) && AckOf(t.ba[q]) < AckOf(t.ba[p])
    ensures Arrived(t, r, address) && r.ba == [] && Cleared(r.a, address)
    decreases |t.ba|
  {
    hide Reaches;
    hide Arriving;
    hide InWindow;
    hide Cleared;
    var u, d := WindowAfter(t, address, c);
    if !U(t.ba[0]) && AckOf(t.ba[0]) < c {
      r := ArriveCleared(u, address);
    } else if p == 0 {
      r := ArriveOlder(u, address, d, q - 1);
    } else {
      r := ArriveSwapped(u, address, d, p - 1, q - 1);
    }
    ArrivedTrans(t, u, r, address);
  }

  // ----- All that waits is transmitted -----

  /** The packets that the service slots from i on make, in the order in which they leave. */
  function Waiting(x: Station, i: nat): seq<Packet>
    requires i <= |x.fd.sq.slots| == |x.slotAck|
    decreases |x.fd.sq.slots| - i
  {
    if i == |x.fd.sq.slots| then []
    else if x.fd.sq.slots[i].None? then Waiting(x, i + 1)
    else [WaitingAt(x, i)] + Waiting(x, i + 1)
  }

  function WaitingAt(x: Station, i: nat): Packet
    requires i < |x.fd.sq.slots| == |x.slotAck| && x.fd.sq.slots[i].Some?
  {
    Packet(x.fd.sq.slots[i].value.ToBytes(), ServiceTag(x, i))
  }

  lemma {:induction false} WaitingSame(x: Station, y: Station, i: nat)
    requires i <= |x.fd.sq.slots| == |x.slotAck| == |y.fd.sq.slots| == |y.slotAck|
    requires x.fd.sq.slots[i..] == y.fd.sq.slots[i..] && x.slotAck[i..] == y.slotAck[i..]
    ensures Waiting(x, i) == Waiting(y, i)
    decreases |x.fd.sq.slots| - i
  {
    if i < |x.fd.sq.slots| {
      assert x.fd.sq.slots[i] == x.fd.sq.slots[i..][0] && y.fd.sq.slots[i] == y.fd.sq.slots[i..][0];
      assert x.slotAck[i] == x.slotAck[i..][0] && y.slotAck[i] == y.slotAck[i..][0];
      assert x.fd.sq.slots[i + 1..] == x.fd.sq.slots[i..][1..] && y.fd.sq.slots[i + 1..] == y.fd.sq.slots[i..][1..];
      assert x.slotAck[i + 1..] == x.slotAck[i..][1..] && y.slotAck[i + 1..] == y.slotAck[i..][1..];
      WaitingSame(x, y, i + 1);
    }
  }

  /** Occupied slots appear in slot order. */
  lemma {:induction false} WaitingFinds(x: Station, i: nat, j: nat) returns (p: nat)
    requires i <= j < |x.fd.sq.slots| == |x.slotAck| && x.fd.sq.slots[j].Some?
    ensures p < |Waiting(x, i)| && Waiting(x, i)[p] == WaitingAt(x, j)
    decreases j - i
  {
    hide WaitingAt;
    if i == j {
      p := 0;
    } else {
      p := WaitingFinds(x, i + 1, j);
      p := if x.fd.sq.slots[i].None? then p else p + 1;
    }
  }

  lemma {:induction false} WaitingOrder(x: Station, i: nat, j: nat, k: nat) returns (p: nat, q: nat)
    requires i <= j < k < |x.fd.sq.slots| == |x.slotAck| && x.fd.sq.slots[j].Some? && x.fd.sq.slots[k].Some?
    ensures p < q < |Waiting(x, i)| && Waiting(x, i)[p] == WaitingAt(x, j) && Waiting(x, i)[q] == WaitingAt(x, k)
    decreases j - i
  {
    hide WaitingAt;
    if i == j {
      q := WaitingFinds(x, i + 1, k);
      p, q := 0, q + 1;
    } else {
      p, q := WaitingOrder(x, i + 1, j, k);
      if x.fd.sq.slots[i].Some? {
        p, q := p + 1, q + 1;
      }
    }
  }

  /** Every packet comes from a slot. */
  lemma {:induction false} WaitingFrom(x: Station, i: nat, p: nat) returns (j: nat)
    requires i <= |x.fd.sq.slots| == |x.slotAck| && p < |Waiting(x, i)|
    ensures i <= j < |x.fd.sq.slots| && x.fd.sq.slots[j].Some? && Waiting(x, i)[p] == WaitingAt(x, j)
    decreases |x.fd.sq.slots| - i
  {
    hide WaitingAt;
    if x.fd.sq.slots[i].None? {
      j := WaitingFrom(x, i + 1, p);
    } else if p == 0 {
      j := i;
    } else {
      j := WaitingFrom(x, i + 1, p - 1);
    }
  }

  /** One waiting service frame of the second station goes out. */
  lemma FlushOne(t: Session, address: byte, i: nat) returns (u: Session)
    requires !t.over && Listening(t.b, address) && i < |t.b.fd.sq.slots| && t.b.fd.sq.slots[i].Some?
    requires forall k :: 0 <= k < i ==> t.b.fd.sq.slots[k].None?
    ensures Goes(t, u, true) && u == t.(b := Emptied(t.b, i), ba := t.ba + [WaitingAt(t.b, i)])
    ensures Listening(u.b, address)
  {
    hide Goes;
    hide PeerToAddress;
    hide AddressToPeer;
    hide FirstOccupied;
    FirstIs(t.b.fd.sq.slots, 0, i);
    GoesOne(t, false, Transmit);
    u := Step(t, false, Transmit);
  }

  /** The second station transmits until no service frame waits. */
  lemma {:induction false} Flush(t: Session, address: byte, i: nat) returns (r: Session)
    requires !t.over && Listening(t.b, address) && i <= |t.b.fd.sq.slots|
    requires forall k :: 0 <= k < i ==> t.b.fd.sq.slots[k].None?
    ensures Goes(t, r, true) && r == t.(b := r.b, ba := t.ba + Waiting(t.b, i))
    ensures Listening(r.b, address) && r.b.fd.delivered == t.b.fd.delivered && r.b.fd.iq == t.b.fd.iq
    ensures r.b == t.b.(fd := t.b.fd.(sq := r.b.fd.sq)) && r.b.fd.sq.lookup == t.b.fd.sq.lookup
    ensures forall k :: 0 <= k < |r.b.fd.sq.slots| ==> r.b.fd.sq.slots[k].None?
    decreases |t.b.fd.sq.slots| - i
  {
    hide Goes;
    hide WaitingAt;
    hide PeerToAddress;
    hide AddressToPeer;
    if i == |t.b.fd.sq.slots| {
      GoesNone(t);
      r := t;
      assert t.ba + [] == t.ba;
    } else if t.b.fd.sq.slots[i].None? {
      r := Flush(t, address, i + 1);
    } else {
      var u := FlushOne(t, address, i);
      WaitingSame(t.b, u.b, i + 1);
      r := Flush(u, address, i + 1);
      GoesTrans(t, u, r, true);
      assert t.ba + [WaitingAt(t.b, i)] + Waiting(t.b, i + 1) == t.ba + ([WaitingAt(t.b, i)] + Waiting(t.b, i + 1));
    }
  }

  // ----- The condition is needed -----

  /** x's answer a was put into slot j, in front of the older one in slot k. */
  ghost predicate Swapped(x: Station, x': Station, j: nat, k: nat) {
    && |x.fd.peers| == 1 && |x.slotAck| == |x.fd.sq.slots|
    && j < k < |x.fd.sq.slots| && x.fd.sq.slots[j].None? && PendingS(x.fd.sq.slots[k]) && x.slotAck[k] < x'.Got()
    && (x'.fd.sq.slots == x.fd.sq.slots[j := Some(ServiceFrame(SFrame, Addr(x), RrControl(Seq(x'.Got()))))]
        || x'.fd.sq.slots == x.fd.sq.slots[j := Some(ServiceFrame(SFrame, Addr(x), RejControl(Seq(x'.Got()))))])
    && x'.slotAck == x.slotAck[j := x'.Got()] && x'.Got() >= x.Got()
  }

  lemma AnsweredSwaps(x: Station, x2: Station, j: nat, k: nat, control: byte)
    requires |x.fd.peers| == 1 == |x2.fd.peers| && x2.fd.sq == x.fd.sq && x2.slotAck == x.slotAck && Addr(x2) == Addr(x)
    requires |x.slotAck| == |x.fd.sq.slots| && FindFree(x.fd.sq.slots, x.fd.sq.lookup, 0) == Some(j)
    requires j < k < |x.fd.sq.slots| && PendingS(x.fd.sq.slots[k]) && x.slotAck[k] < x2.Got() && x2.Got() >= x.Got()
    requires control == RrControl(Seq(x2.Got())) || control == RejControl(Seq(x2.Got()))
    ensures Swapped(x, Answered(x2, control), j, k) && Answered(x2, control).sent == x2.sent
    ensures Answered(x2, control).Got() == x2.Got() && Answered(x2, control).fd.peers == x2.fd.peers
    ensures Answered(x2, control).fd.sq.slots == x.fd.sq.slots[j := Some(ServiceFrame(SFrame, Addr(x), control))]
  {
    hide Seq;
    hide RrControl;
    hide RejControl;
    hide FindFree;
    hide Rotated;
    hide AddressOf;
  }

  /** The receiver after taking the frame against the condition: its answer is in slot j, the older one in slot k. */
  ghost predicate TookIt(x: Station, x': Station, y: Station, p: Packet, j: nat, k: nat)
    requires |x.fd.peers| == 1 && p.tag.TagI?
  {
    && Swapped(x, x', j, k) && Listening(x', Addr(x)) && x'.sent == x.sent && x'.Got() <= |y.sent|
    && x'.Got() == x.Got() + (if p.tag.idx == x.Got() then 1 else 0)
    && x'.Ctl().nextNr == Seq(x'.Got()) && (p.tag.idx == x.Got() ==> !x'.fd.peers[0].sentReject)
    && FindFree(x.fd.sq.slots, x.fd.sq.lookup, 0) == Some(j)
    && (p.tag.idx == x.Got() ==>
          x'.fd.sq.slots[j] == Some(ServiceFrame(SFrame, Addr(x), RrControl(Seq(x.Got() + 1)))))
  }

  lemma TookExpected(x: Station, xy: seq<Packet>, y: Station, yx: seq<Packet>) returns (j: nat, k: nat)
    requires Both(x, xy, y, yx) && yx != [] && yx[0].tag.TagI? && |yx[0].bytes| >= 2
    requires x.State() == Connected && y.State() == Connected && !AnswersInOrder(x.fd, yx[0].bytes)
    requires yx[0].tag.idx == x.Got()
    ensures Local(x) && TookIt(x, DoReceive(x, yx[0]), y, yx[0], j, k)
  {
    hide Seq;
    hide Succ;
    hide Local;
    hide Data;
    hide Acks;
    hide Handshake;
    hide RrControl;
    hide RejControl;
    hide OnFrame;
    hide Accept;
    hide Refuse;
    hide HighSeq;
    hide LowSeq;
    hide IsI;
    hide Confirm;
    hide FindFree;
    hide AnswersInOrder;
    hide Hears;
    hide Answered;
    hide Swapped;
    var p := yx[0];
    OrderIff(x, xy, y, yx);
    HeadData(x, xy, y, yx);
    ReadI(x, y, p);
    GotBounds(x, xy, y, yx);
    AckedBoth(x, xy, y, yx);
    AnyFrameHears(x, p);
    var x1 := Acked(x, p.tag.ack);
    SeqSucc(x.Got());
    j := FindFree(x.fd.sq.slots, x.fd.sq.lookup, 0).value;
    k :| j < k < |x.fd.sq.slots| && PendingS(x.fd.sq.slots[k]);
    assert SlotOk(x, k) by { LocalSlot(x, k); }
    var payload := y.sent[x.Got()];
    var x2, control := Taken(x1, payload), RrControl(Seq(x.Got() + 1));
    AcceptedIs(x1, payload, control);
    AnsweredIs(x, p, x2, control);
    AnsweredSwaps(x, x2, j, k, control);
  }

  lemma TookOther(x: Station, xy: seq<Packet>, y: Station, yx: seq<Packet>) returns (j: nat, k: nat)
    requires Both(x, xy, y, yx) && yx != [] && yx[0].tag.TagI? && |yx[0].bytes| >= 2
    requires x.State() == Connected && y.State() == Connected && !AnswersInOrder(x.fd, yx[0].bytes)
    requires yx[0].tag.idx != x.Got()
    ensures Local(x) && TookIt(x, DoReceive(x, yx[0]), y, yx[0], j, k)
  {
    hide Seq;
    hide Succ;
    hide Local;
    hide Data;
    hide Acks;
    hide Handshake;
    hide RrControl;
    hide RejControl;
    hide OnFrame;
    hide Accept;
    hide Refuse;
    hide HighSeq;
    hide LowSeq;
    hide IsI;
    hide Confirm;
    hide FindFree;
    hide AnswersInOrder;
    hide Hears;
    hide Answered;
    hide Swapped;
    var p := yx[0];
    OrderIff(x, xy, y, yx);
    HeadData(x, xy, y, yx);
    ReadI(x, y, p);
    GotBounds(x, xy, y, yx);
    AckedBoth(x, xy, y, yx);
    AnyFrameHears(x, p);
    var x1 := Acked(x, p.tag.ack);
    SeqEqual(p.tag.idx, x.Got());
    j := FindFree(x.fd.sq.slots, x.fd.sq.lookup, 0).value;
    k :| j < k < |x.fd.sq.slots| && PendingS(x.fd.sq.slots[k]) && x.slotAck[k] != x.Got();
    assert SlotOk(x, k) by { LocalSlot(x, k); }
    var x2, control := Refusing(x1), RejControl(Seq(x.Got()));
    RefusedIs(x1);
    AnsweredIs(x, p, x2, control);
    AnsweredSwaps(x, x2, j, k, control);
  }

  /** What taking the frame against the condition makes of the receiver. */
  lemma TookAnyway(x: Station, xy: seq<Packet>, y: Station, yx: seq<Packet>) returns (j: nat, k: nat)
    requires Both(x, xy, y, yx) && yx != [] && yx[0].tag.TagI? && |yx[0].bytes| >= 2
    requires x.State() == Connected && y.State() == Connected && !AnswersInOrder(x.fd, yx[0].bytes)
    ensures Local(x)
    ensures var x' := DoReceive(x, yx[0]);
      && Swapped(x, x', j, k) && Listening(x', Addr(x)) && x'.sent == x.sent && x'.Got() <= |y.sent|
      && x'.Got() == x.Got() + (if yx[0].tag.idx == x.Got() then 1 else 0)
      && x'.Ctl().nextNr == Seq(x'.Got()) && (yx[0].tag.idx == x.Got() ==> !x'.fd.peers[0].sentReject)
    ensures FindFree(x.fd.sq.slots, x.fd.sq.lookup, 0) == Some(j)
    ensures yx[0].tag.idx == x.Got() ==>
      DoReceive(x, yx[0]).fd.sq.slots[j] == Some(ServiceFrame(SFrame, Addr(x), RrControl(Seq(x.Got() + 1))))
  {
    hide Seq;
    hide Local;
    hide Data;
    hide Acks;
    hide Handshake;
    hide RrControl;
    hide RejControl;
    hide DoReceive;
    hide FindFree;
    hide AnswersInOrder;
    hide Listening;
    hide Swapped;
    if yx[0].tag.idx == x.Got() {
      j, k := TookExpected(x, xy, y, yx);
    } else {
      j, k := TookOther(x, xy, y, yx);
    }
  }

  lemma AnyFrameHears(x: Station, p: Packet)
    requires Local(x) && x.State() == Connected && |p.bytes| >= 2 && OnFrame(x.fd, p.bytes) == OnI(x.fd, 0, p.bytes)
    ensures Listening(DoReceive(x, p), Addr(x))
  {
    hide OnFrame;
    hide OnI;
    hide Hears;
    hide SlotOk;
    hide LowSeq;
    LocalHears(x);
    OnFrameValid(x.fd, p.bytes);
    OnIMoves(x.fd, Addr(x), p.bytes);
  }

  lemma LocalHears(x: Station)
    requires Local(x) && x.State() == Connected
    ensures Hears(x.fd, Addr(x))
  {
    hide SlotOk;
  }

  lemma SpokenData(x: Station, y: Station, p: Packet)
    requires |x.fd.peers| == 1 && DataPacket(x, p) && ServicePacket(x, p)
    ensures Spoken(Addr(x), p)
  {
    hide Seq;
    hide IControl;
    hide RrControl;
    hide RejControl;
  }

  /** All that is under way from y is what its tags say, and no acknowledgement in it is too old. */
  lemma UnderWay(x: Station, xy: seq<Packet>, y: Station, yx: seq<Packet>)
    requires Both(x, xy, y, yx)
    ensures forall q :: 0 <= q < |yx| ==> Spoken(Addr(y), yx[q])
    ensures forall q :: 0 <= q < |yx| && !U(yx[q]) ==> AckOf(yx[q]) <= |x.sent| <= AckOf(yx[q]) + 7
    ensures forall j :: 0 <= j < |y.fd.sq.slots| && PendingS(y.fd.sq.slots[j]) ==> |x.sent| <= y.slotAck[j] + 7
  {
    hide Local;
    hide Handshake;
    hide Spoken;
    hide Seq;
    hide Agrees;
    hide DataPacket;
    hide ServicePacket;
    WindowBound(x.fd.iq.slots, Addr(x), x.conf, |x.sent|, x.sent);
    forall q | 0 <= q < |yx| ensures Spoken(Addr(y), yx[q]) {
      SpokenData(y, x, yx[q]);
    }
  }

  /** What waits at the receiver after it took the frame. */
  lemma WaitingSpoken(x: Station, x': Station, j: nat, k: nat, l: nat, i: nat)
    requires Local(x) && Swapped(x, x', j, k) && x'.Got() <= l <= x.Got() + 7
    requires forall i :: 0 <= i < |x.fd.sq.slots| && PendingS(x.fd.sq.slots[i]) ==> l <= x.slotAck[i] + 7
    requires i < |x'.fd.sq.slots| && x'.fd.sq.slots[i].Some?
    ensures var p := WaitingAt(x', i);
      Spoken(Addr(x), p) && (!U(p) ==> AckOf(p) <= l <= AckOf(p) + 7)
    ensures i == j ==> WaitingAt(x', i).tag == TagS(x'.Got())
    ensures i == k ==> WaitingAt(x', i).tag == TagS(x.slotAck[k])
  {
    hide Seq;
    hide RrControl;
    hide RejControl;
    hide AddressOf;
    hide Local;
    if i == j {
      assert WaitingAt(x', i).bytes == [Addr(x), x'.fd.sq.slots[i].value.header.control];
    } else {
      LocalSlot(x, i);
      ServiceBytes(x, i);
    }
  }

  /** Everything is set for the sender to hear all of it. */
  lemma AllArriving(s: Session, y: Station, u: Session, j: nat, k: nat)
    requires Inv(s) && s.a.State() == Connected && y.Got() <= |s.a.sent|
    requires Swapped(s.b, y, j, k) && |y.slotAck| == |y.fd.sq.slots| && j < k < |y.fd.sq.slots|
    requires u.a == s.a && u.ba == s.ba + Waiting(y, 0) && !u.over
    ensures Arriving(u, Addr(s.a)) && InWindow(u.a, Addr(s.a), s.a.conf)
    ensures y.fd.sq.slots[j].Some? && WaitingAt(y, j).tag == TagS(y.Got())
    ensures y.fd.sq.slots[k].Some? && WaitingAt(y, k).tag == TagS(s.b.slotAck[k]) && s.b.slotAck[k] < y.Got()
  {
    hide Data;
    hide Acks;
    hide Handshake;
    hide SlotOk;
    hide Hears;
    hide Waiting;
    hide WaitingAt;
    hide Spoken;
    hide AddressOf;
    hide AddressToPeer;
    hide RrControl;
    hide RejControl;
    hide Seq;
    BothInv(s);
    var x, address, n := s.a, Addr(s.a), |s.ba|;
    UnderWay(x, s.ab, s.b, s.ba);
    GotBounds(s.b, s.ba, x, s.ab);
    LocalHears(x);
    forall q | 0 <= q < |u.ba|
      ensures Spoken(address, u.ba[q]) && (!U(u.ba[q]) ==> AckOf(u.ba[q]) <= |x.sent| <= AckOf(u.ba[q]) + 7)
    {
      if q < n {
        assert u.ba[q] == s.ba[q];
      } else {
        assert u.ba[q] == Waiting(y, 0)[q - n];
        var i := WaitingFrom(y, 0, q - n);
        WaitingSpoken(s.b, y, j, k, |x.sent|, i);
      }
    }
    WaitingSpoken(s.b, y, j, k, |x.sent|, j);
    WaitingSpoken(s.b, y, j, k, |x.sent|, k);
    DataWindow(x, s.ab, s.b);
  }

  lemma DataWindow(x: Station, xy: seq<Packet>, y: Station)
    requires Local(x) && |y.fd.peers| == 1 && Data(x, xy, y)
    ensures InWindow(x, Addr(x), x.conf)
  {
    hide Local;
    hide Agrees;
    hide Seq;
    hide DataPacket;
  }

  /** Frames that were not delivered when the queue was cleared are gone. */
  lemma ClearedKeptIff(x: Station, y: Station)
    requires |x.fd.peers| == 1 && Cleared(x, Addr(x))
    ensures Kept(x, y) <==> y.Got() >= |x.sent|
  {
    hide Seq;
    hide AddressOf;
    if y.Got() < |x.sent| {
      var i := y.Got();
      assert Seq(i) <= 7;
      assert Find(x.fd.iq.slots, IFrame, Addr(x), Seq(i), 0).None?;
    }
  }

  /**
   The condition is needed. In any state that keeps the invariant, with both stations
   connected: if the frame in front is taken although its answer will overtake an older
   one, then once the receiver's answers have gone out and all that is under way to the
   sender has arrived, nothing is left in the sender's queue. Every frame that was
   accepted and not delivered is lost.
   */
  lemma Overtaken(s: Session) returns (r: Session)
    requires Inv(s) && !s.over && s.a.State() == Connected && s.b.State() == Connected
    requires s.ab != [] && s.ab[0].tag.TagI? && |s.ab[0].bytes| >= 2 && !AnswersInOrder(s.b.fd, s.ab[0].bytes)
    ensures Possible(Flip(s), Receive) && Reaches(s, r) && Reaches(Step(s, false, Receive), r)
    ensures !r.over && r.ba == [] && Listening(r.a, Addr(s.a)) && Cleared(r.a, Addr(s.a)) && r.a.sent == s.a.sent
    ensures Listening(r.b, Addr(s.a)) && r.b.fd.delivered == DoReceive(s.b, s.ab[0]).fd.delivered
    ensures r.b.Got() == s.b.Got() + if s.ab[0].tag.idx == s.b.Got() then 1 else 0
    ensures |r.a.fd.peers| == 1 && (Kept(r.a, r.b) <==> r.b.Got() >= |s.a.sent|)
  {
    hide Data;
    hide Acks;
    hide Handshake;
    hide SlotOk;
    hide DoReceive;
    hide AnswersInOrder;
    hide Kept;
    hide Reaches;
    hide Goes;
    hide RrControl;
    hide RejControl;
    hide Seq;
    hide Hears;
    hide Waiting;
    hide WaitingAt;
    hide Spoken;
    hide AddressOf;
    hide AddressToPeer;
    BothInv(s);
    var address := Addr(s.a);
    var j, k := TookAnyway(s.b, s.ba, s.a, s.ab);
    var t := Step(s, false, Receive);
    ReachesOne(s, false, Receive);
    var y := DoReceive(s.b, s.ab[0]);
    assert t == Session(s.a, y, s.ab[1..], s.ba, false);
    var u := Flush(t, address, 0);
    GoesReaches(t, u);
    AllArriving(s, y, u, j, k);
    var p, q := WaitingOrder(y, 0, j, k);
    assert u.ba[|s.ba| + p] == WaitingAt(y, j) && u.ba[|s.ba| + q] == WaitingAt(y, k);
    r := ArriveSwapped(u, address, s.a.conf, |s.ba| + p, |s.ba| + q);
    ReachesTrans(t, u, r);
    ReachesTrans(s, t, r);
    HearsAddress(r.a, address);
    ClearedKeptIff(r.a, r.b);
  }

  lemma HearsAddress(x: Station, address: byte)
    requires Hears(x.fd, address)
    ensures Addr(x) == address
  {}

  /** The condition is exact: the invariant survives an I-frame if and only if its answer will not overtake another. */
  lemma ReceiveInvIff(s: Session)
    requires Inv(s) && Possible(s, Receive) && s.ba[0].tag.TagI?
    ensures Inv(StepA(s, Receive)) <==> AnswersInOrder(s.a.fd, s.ba[0].bytes)
  {
    hide Data;
    hide Acks;
    hide Handshake;
    hide SlotOk;
    hide DoReceive;
    hide AnswersInOrder;
    hide RrControl;
    hide RejControl;
    hide Seq;
    hide Hears;
    BothInv(s);
    BothConnected(s);
    if AnswersInOrder(s.a.fd, s.ba[0].bytes) {
      ReceiveInv(s);
    } else {
      var j, k := TookAnyway(s.a, s.ab, s.b, s.ba);
      var x := StepA(s, Receive).a;
      assert PendingS(x.fd.sq.slots[j]) && PendingS(x.fd.sq.slots[k]) && x.slotAck[j] > x.slotAck[k];
      assert !Local(x);
    }
  }
}
