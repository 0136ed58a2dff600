/**
 What the condition on I-frames is worth. Once one frame has been taken against it, a
 continuation that keeps it from then on gives up a frame that was not delivered; and with
 a window of seven one delivers the wrong payload in its place.
 */
module Exactness {
  import opened Base
  import opened SeqNum
  import opened FdDefs
  import opened IQueueControl
  import opened FrameQueue
  import opened FdSpec
  import opened Window
  import opened Session
  import opened SessionProof
  import opened SessionReceive
  import opened SessionTheorems
  import opened OutOfOrder
  import opened Isolation
  import StationRun
  import Wire

  // ----- A station's queue holds its own frames only -----

  ghost predicate Owned(fd: Fd, address: byte) {
    forall j :: 0 <= j < |fd.iq.slots| && fd.iq.slots[j].Some? ==> Mine(fd.iq.slots[j], address)
  }

  /** Slots are only given up, and the station stays who it is. */
  ghost predicate Shrinks(fd: Fd, after: Fd) {
    && Wire.Subslots(fd.iq.slots, after.iq.slots) && after.mtu == fd.mtu
    && |after.peers| == |fd.peers| == 1 && AddressOf(after, 0) == AddressOf(fd, 0)
  }

  lemma ShrinksTrans(fd: Fd, mid: Fd, after: Fd)
    requires Shrinks(fd, mid) && Shrinks(mid, after)
    ensures Shrinks(fd, after)
  {
    hide AddressOf;
  }

  lemma SameShrinks(fd: Fd, after: Fd)
    requires |fd.peers| == |after.peers| == 1 && after.iq.slots == fd.iq.slots && after.mtu == fd.mtu
    requires after.localAddr == fd.localAddr && after.peers[0].addr == fd.peers[0].addr
    ensures Shrinks(fd, after)
  {
    hide NoCr;
  }

  lemma ConfirmShrinks(fd: Fd, nr: byte)
    requires fd.Valid() && |fd.peers| == 1 && nr <= 7
    ensures Shrinks(fd, Confirm(fd, 0, nr))
  {
    hide NoCr;
    hide FreeAllNs;
    hide Confirmed;
    Wire.ReleaseSubslots(fd.iq.slots, AddressOf(fd, 0), Confirmed(fd.peers[0].ctl.confirmNs, nr));
  }

  lemma AnswerShrinks(fd: Fd, payload: seq<byte>)
    requires |fd.peers| == 1
    ensures Shrinks(fd, Refuse(fd, 0)) && Shrinks(fd, Accept(fd, 0, payload))
  {
    hide NoCr;
    hide FindFree;
    hide Rotated;
    SameShrinks(fd, Refuse(fd, 0));
    SameShrinks(fd, Accept(fd, 0, payload));
  }

  lemma SwitchShrinks(fd: Fd)
    requires |fd.peers| == 1
    ensures Shrinks(fd, SwitchToConnected(fd, 0)) && Shrinks(fd, SwitchToDisconnected(fd, 0))
  {
    hide NoCr;
  }

  lemma PutShrinks(fd: Fd, f: FrameInfo)
    requires |fd.peers| == 1
    ensures Shrinks(fd, PutService(fd, f))
  {
    hide PutService;
    PutServiceOnly(fd, f);
    SameShrinks(fd, PutService(fd, f));
  }

  lemma OnFrameShrinks(fd: Fd, data: seq<byte>)
    requires fd.Valid() && |fd.peers| == 1
    ensures Shrinks(fd, OnFrame(fd, data))
  {
    hide Shrinks;
    hide Fd.Valid;
    hide PutService;
    hide SwitchToConnected;
    hide SwitchToDisconnected;
    hide Confirm;
    hide Accept;
    hide Refuse;
    hide AddressToPeer;
    hide AddressOf;
    hide IsU;
    hide IsI;
    hide IsS;
    SameShrinks(fd, fd);
    CtlOk(fd, 0);
    if |data| >= 2 && AddressToPeer(fd.peers, fd.localAddr, data[0]) == 0 {
      var c := data[1];
      PutShrinks(fd, ServiceFrame(UFrame, AddressOf(fd, 0), UA_CONTROL));
      PutShrinks(fd, ServiceFrame(UFrame, AddressOf(fd, 0), DM_CONTROL));
      var asked := PutU(fd, 0, UA_CONTROL);
      PutServiceOnly(fd, ServiceFrame(UFrame, AddressOf(fd, 0), UA_CONTROL));
      SwitchShrinks(fd);
      SwitchShrinks(asked);
      ShrinksTrans(fd, asked, SwitchToConnected(asked, 0));
      ShrinksTrans(fd, asked, SwitchToDisconnected(asked, 0));
      if !IsU(c) {
        OnDataShrinks(fd, data);
      }
    }
  }

  lemma OnDataShrinks(fd: Fd, data: seq<byte>)
    requires fd.Valid() && |fd.peers| == 1 && |data| >= 2
    ensures Shrinks(fd, OnI(fd, 0, data)) && Shrinks(fd, OnS(fd, 0, data))
  {
    hide Shrinks;
    hide Fd.Valid;
    hide Confirm;
    hide Accept;
    hide Refuse;
    hide AddressOf;
    hide LowSeq;
    hide HighSeq;
    CtlOk(fd, 0);
    var i, s := Confirm(fd, 0, LowSeq(data[1])), Confirm(fd, 0, HighSeq(data[1]));
    ConfirmValid(fd, 0, LowSeq(data[1]));
    ConfirmValid(fd, 0, HighSeq(data[1]));
    ConfirmShrinks(fd, LowSeq(data[1]));
    ConfirmShrinks(fd, HighSeq(data[1]));
    AnswerShrinks(i, data[2..]);
    ShrinksTrans(fd, i, Refuse(i, 0));
    ShrinksTrans(fd, i, Accept(i, 0, data[2..]));
    SameShrinks(s, OnS(fd, 0, data));
    ShrinksTrans(fd, s, OnS(fd, 0, data));
  }

  lemma TimeoutShrinks(fd: Fd, frameDue: bool, iDue: bool)
    requires |fd.peers| == 1
    ensures Shrinks(fd, TimeoutPeer(fd, 0, frameDue, iDue))
  {
    hide Shrinks;
    hide PutService;
    hide AddressOf;
    hide SwitchToDisconnected;
    SwitchShrinks(fd);
    SameShrinks(fd, fd);
    PutServiceOnly(fd, ServiceFrame(UFrame, AddressOf(fd, 0), SABM_CONTROL));
    if fd.peers[0].retries > 0 {
      var once := fd.(peers := fd.peers[0 := fd.peers[0].(retries := fd.peers[0].retries - 1)]);
      PutServiceOnly(once, ServiceFrame(UFrame, AddressOf(once, 0), SABM_CONTROL));
    }
    if !(fd.peers[0].state == Connected && fd.peers[0].retries == 0) {
      SameShrinks(fd, TimeoutPeer(fd, 0, frameDue, iDue));
    } else {
      SameShrinks(fd, fd);
    }
  }

  /** Its own frames, a sound bit, and as large as the other. */
  ghost predicate Tidy(x: Station, like: Fd) {
    && |x.fd.peers| == |like.peers| == 1 && Owned(x.fd, Addr(x)) && BitExact(x.fd)
    && |x.fd.iq.slots| == |like.iq.slots| && x.fd.mtu == like.mtu && Addr(x) == AddressOf(like, 0)
  }

  lemma ShrinksTidy(x: Station, x': Station, like: Fd)
    requires Tidy(x, like) && Shrinks(x.fd, x'.fd) && BitExact(x'.fd)
    ensures Tidy(x', like)
  {
    hide AddressOf;
    hide BitExact;
  }

  lemma SendTidy(x: Station, address: byte, data: seq<byte>, like: Fd)
    requires x.fd.Valid() && Tidy(x, like)
    ensures Tidy(DoSend(x, address, data), like)
  {
    hide DoSend;
    hide NoCr;
    hide BitExact;
    hide IControl;
    var j := SendCases(x, address, data);
    SendKeepsBit(x.fd, address, data);
    SentIs(x, address, data);
  }

  lemma SentIs(x: Station, address: byte, data: seq<byte>)
    requires x.fd.Valid()
    ensures DoSend(x, address, data).fd == FdSpec.SendPacket(x.fd, address, data).0
    ensures DoSend(x, address, data).fd.mtu == x.fd.mtu
  {
    hide Fd.Valid;
    hide FindFree;
    hide Rotated;
    hide AddressOf;
    hide SendTarget;
  }

  lemma StepTidy(s: Session, act: Action, like: Fd)
    requires Possible(s, act) && Tidy(s.a, like)
    ensures Tidy(StepA(s, act).a, like) && StepA(s, act).b == s.b
  {
    hide Fd.Valid;
    hide OnFrame;
    hide Generate;
    hide TimeoutPeer;
    hide DoSend;
    hide Shrinks;
    hide Tidy;
    StationRun.StepKeepsOther(s, act);
    TidyBit(s.a, like);
    StationRun.StepKeepsBit(s, act);
    match act
    case Send(address, data) => SendTidy(s.a, address, data, like);
    case Timer(frameDue, iDue) =>
      TimeoutShrinks(s.a.fd, frameDue, iDue);
      ShrinksTidy(s.a, StepA(s, act).a, like);
    case Transmit =>
      GenerateShrinks(s.a.fd);
      ShrinksTidy(s.a, StepA(s, act).a, like);
    case Receive =>
      OnFrameShrinks(s.a.fd, s.ba[0].bytes);
      ShrinksTidy(s.a, StepA(s, act).a, like);
    case Lose(_) =>
  }

  lemma TidyBit(x: Station, like: Fd)
    requires Tidy(x, like)
    ensures BitExact(x.fd)
  {}

  lemma GenerateShrinks(fd: Fd)
    requires |fd.peers| == 1
    ensures Shrinks(fd, Generate(fd).0)
  {
    hide Eligible;
    hide NextIFrame;
    hide FirstOccupied;
    SameShrinks(fd, Generate(fd).0);
  }

  /** Throughout a session. */
  lemma {:induction false} TidyInSession(s: Session, acts: seq<(bool, Action)>)
    requires Init(s) && RunFrom(s, acts).Some?
    ensures var r := RunFrom(s, acts).value; Tidy(r.a, s.a.fd) && Tidy(r.b, s.b.fd)
  {
    hide Enabled;
    hide Possible;
    hide StepA;
    if acts == [] {
      StationRun.BitsInSession(s, acts);
    } else {
      hide Tidy;
      var n := |acts| - 1;
      TidyInSession(s, acts[..n]);
      var r := RunFrom(s, acts[..n]).value;
      var t := if acts[n].0 then r else Flip(r);
      StepTidy(t, acts[n].1, if acts[n].0 then s.a.fd else s.b.fd);
    }
  }

  /** And whatever happens, the condition kept or not. */
  lemma {:induction false} TidyFreely(s: Session, acts: seq<(bool, Action)>, like: Fd, other: Fd)
    requires Tidy(s.a, like) && Tidy(s.b, other) && FreeRun(s, acts).Some?
    ensures var r := FreeRun(s, acts).value; Tidy(r.a, like) && Tidy(r.b, other)
  {
    hide Possible;
    hide StepA;
    hide Tidy;
    if acts != [] {
      var n := |acts| - 1;
      TidyFreely(s, acts[..n], like, other);
      var r := FreeRun(s, acts[..n]).value;
      StepTidy(if acts[n].0 then r else Flip(r), acts[n].1, if acts[n].0 then like else other);
    }
  }

  lemma TidyReached(s: Session, r: Session, like: Fd, other: Fd)
    requires Tidy(s.a, like) && Tidy(s.b, other) && Reaches(s, r)
    ensures Tidy(r.a, like) && Tidy(r.b, other)
  {
    hide FreeRun;
    hide Tidy;
    var acts :| FreeRun(s, acts) == Some(r) && AllPlain(acts);
    TidyFreely(s, acts, like, other);
  }

  // ----- What the sender can do with a known window -----

  /** A connected station of a known size whose window starts at c. */
  ghost predicate Ready(x: Station, like: Fd, c: nat)
    ensures Ready(x, like, c) ==> |like.peers| == 1 == |x.fd.peers|
  {
    && Tidy(x, like) && Listening(x, AddressOf(like, 0)) && InWindow(x, AddressOf(like, 0), c)
    && x.Ctl().lastNs == Seq(|x.sent|)
  }

  lemma {:induction false} CountFull(slots: seq<Slot>, address: byte)
    requires forall j :: 0 <= j < |slots| ==> Mine(slots[j], address)
    ensures CountMine(slots, address) == |slots|
  {
    if slots != [] {
      CountFull(slots[..|slots| - 1], address);
    }
  }

  /** With fewer frames than slots a slot is free. */
  lemma RoomLeft(x: Station, like: Fd, c: nat)
    requires Ready(x, like, c) && |x.sent| < c + |like.iq.slots|
    ensures HasFree(x.fd.iq.slots)
  {
    hide Agrees;
    hide Hears;
    hide Seq;
    CountAgrees(x.fd.iq.slots, Addr(x), c, |x.sent|, x.sent);
    if forall j :: 0 <= j < |x.fd.iq.slots| ==> Mine(x.fd.iq.slots[j], Addr(x)) {
      CountFull(x.fd.iq.slots, Addr(x));
    }
    HearsAddress(x, AddressOf(like, 0));
  }

  /** One more packet is accepted. */
  lemma SendOne(t: Session, like: Fd, c: nat, data: seq<byte>) returns (r: Session)
    requires Ready(t.a, like, c) && |t.a.sent| < c + |like.iq.slots| && |data| <= like.mtu && !t.over
    ensures Goes(t, r, true) && r == t.(a := r.a) && Ready(r.a, like, c) && r.a.sent == t.a.sent + [data]
    ensures r.a.fd.sq == t.a.fd.sq && r.a.Ctl().nextNs == t.a.Ctl().nextNs
  {
    hide DoSend;
    hide Tidy;
    hide Goes;
    hide FdSpec.SendPacket;
    hide Agrees;
    hide Seq;
    hide Succ;
    hide AddressToPeer;
    hide AddressOf;
    hide Fd.Valid;
    var x, act := t.a, Send(FD_PRIMARY_ADDR, data);
    GoesOne(t, true, act);
    r := Step(t, true, act);
    SendReady(x, like, c, data);
  }

  lemma SendReady(x: Station, like: Fd, c: nat, data: seq<byte>)
    requires Ready(x, like, c) && |x.sent| < c + |like.iq.slots| && |data| <= like.mtu
    ensures var y := DoSend(x, FD_PRIMARY_ADDR, data);
      && Ready(y, like, c) && y.sent == x.sent + [data] && y.fd.sq == x.fd.sq && y.Ctl().nextNs == x.Ctl().nextNs
  {
    hide DoSend;
    hide Agrees;
    hide Seq;
    hide Succ;
    hide NoCr;
    hide BitExact;
    hide IControl;
    hide HasFree;
    var y, address := DoSend(x, FD_PRIMARY_ADDR, data), Addr(x);
    HearsAddress(x, AddressOf(like, 0));
    RoomLeft(x, like, c);
    BackPressureExact(x.fd, FD_PRIMARY_ADDR, data, c, x.sent);
    SendTidy(x, FD_PRIMARY_ADDR, data, like);
    SentIs(x, FD_PRIMARY_ADDR, data);
    AcceptedGrows(x, FD_PRIMARY_ADDR, data);
    var j := SendCases(x, FD_PRIMARY_ADDR, data);
    assert x.fd.Valid();
    WindowBound(x.fd.iq.slots, address, c, |x.sent|, x.sent);
    SeqSucc(|x.sent|);
    ControlRoundTrip(x.Ctl().lastNs, x.Ctl().nextNr);
    AllocateAgrees(x.fd.iq.slots, address, c, |x.sent|, x.sent, j, IFrameFor(x.fd, 0, data));
  }

  lemma AcceptedGrows(x: Station, address: byte, data: seq<byte>)
    requires x.fd.Valid() && FdSpec.SendPacket(x.fd, address, data).1.Ok?
    ensures DoSend(x, address, data).sent == x.sent + [data]
  {
    hide FdSpec.SendPacket;
  }

  /** The same packet until n have been accepted in all. */
  lemma {:induction false} SendUpTo(t: Session, like: Fd, c: nat, data: seq<byte>, n: nat) returns (r: Session)
    requires Ready(t.a, like, c) && |t.a.sent| <= n <= c + |like.iq.slots| && |data| <= like.mtu && !t.over
    ensures Goes(t, r, true) && r == t.(a := r.a) && Ready(r.a, like, c)
    ensures |r.a.sent| == n && t.a.sent <= r.a.sent && forall i :: |t.a.sent| <= i < n ==> r.a.sent[i] == data
    ensures r.a.fd.sq == t.a.fd.sq && r.a.Ctl().nextNs == t.a.Ctl().nextNs
    decreases n - |t.a.sent|
  {
    hide Goes;
    hide Tidy;
    hide Hears;
    hide InWindow;
    if |t.a.sent| == n {
      GoesNone(t);
      r := t;
    } else {
      var u := SendOne(t, like, c, data);
      r := SendUpTo(u, like, c, data, n);
      GoesTrans(t, u, r, true);
    }
  }

  // ----- What the sender transmits -----

  /** The frame x sends next, if its window starts at c. */
  function NextIndex(x: Station, c: nat): nat
    requires |x.fd.peers| == 1
  {
    IndexFrom(c, x.Ctl().nextNs)
  }

  /** No service frame waits. */
  predicate Silent(x: Station) {
    forall j :: 0 <= j < |x.fd.sq.slots| ==> x.fd.sq.slots[j].None?
  }

  /** p is an I-frame for this address, numbered as frame i, with this payload. */
  ghost predicate Numbered(p: Packet, address: byte, i: nat, payload: seq<byte>) {
    && p.tag.TagI? && |p.bytes| >= 2 && p.bytes[0] == address
    && IsI(p.bytes[1]) && !IsU(p.bytes[1]) && HighSeq(p.bytes[1]) == Seq(i) && p.bytes[2..] == payload
  }

  lemma FrameBytes(x: Station, like: Fd, c: nat)
    requires Ready(x, like, c) && NextIndex(x, c) < |x.sent|
    ensures var i := NextIndex(x, c);
      && Eligible(x.fd, 0) && x.Ctl().nextNs == Seq(i) && x.Ctl().nextNr <= 7
      && NextIFrame(x.fd, 0) == [Addr(x), IControl(Seq(i), x.Ctl().nextNr)] + x.sent[i]
  {
    hide Seq;
    hide IControl;
    hide IndexFrom;
    hide Agrees;
    hide Tidy;
    hide AddressToPeer;
    HearsAddress(x, AddressOf(like, 0));
    assert x.Ctl().Valid();
    var ns, i := x.Ctl().nextNs, NextIndex(x, c);
    WindowBound(x.fd.iq.slots, Addr(x), c, |x.sent|, x.sent);
    IndexFromSeq(c, ns);
    FindAgrees(x.fd.iq.slots, Addr(x), c, |x.sent|, x.sent, ns);
    SeqEqual(i, |x.sent|);
    var slot := x.fd.iq.slots[Find(x.fd.iq.slots, IFrame, Addr(x), ns, 0).value].value;
    assert slot.ToBytes()[1 := IControl(ns, x.Ctl().nextNr)] == [Addr(x), IControl(ns, x.Ctl().nextNr)] + slot.payload;
  }

  lemma AdvancedReady(x: Station, like: Fd, c: nat)
    requires Ready(x, like, c) && BitExact(Advanced(x).fd)
    ensures Ready(Advanced(x), like, c) && Advanced(x).sent == x.sent && Advanced(x).fd.sq == x.fd.sq
  {
    hide Agrees;
    hide Seq;
    hide Succ;
    hide NoCr;
    hide BitExact;
    SuccSmall(x.Ctl().nextNs);
    var x' := Advanced(x);
    SameShrinks(x.fd, x'.fd);
    ShrinksTidy(x, x', like);
    assert x'.fd.Valid();
  }

  /** One I-frame is transmitted. */
  lemma TransmitOne(t: Session, like: Fd, c: nat) returns (r: Session)
    requires Ready(t.a, like, c) && Silent(t.a) && NextIndex(t.a, c) < |t.a.sent| && !t.over
    ensures Goes(t, r, true) && Ready(r.a, like, c) && r.a == Advanced(t.a)
    ensures |r.ab| == |t.ab| + 1 && r == t.(a := r.a, ab := t.ab + [r.ab[|t.ab|]])
    ensures var i := NextIndex(t.a, c);
      && r.a.Ctl().nextNs == Seq(i + 1) && Numbered(r.ab[|t.ab|], AddressOf(like, 0), i, t.a.sent[i])
  {
    hide Goes;
    hide Tidy;
    hide Agrees;
    hide Seq;
    hide Succ;
    hide IControl;
    hide Eligible;
    hide NextIFrame;
    hide AddressToPeer;
    hide AddressOf;
    hide IndexFrom;
    hide IsI;
    hide IsU;
    hide HighSeq;
    hide Fd.Valid;
    hide FirstOccupied;
    var x, i := t.a, NextIndex(t.a, c);
    HearsAddress(x, AddressOf(like, 0));
    FrameBytes(x, like, c);
    ControlRoundTrip(Seq(i), x.Ctl().nextNr);
    SeqSucc(i);
    FirstIsNone(x.fd.sq.slots, 0);
    assert FirstEligible(x.fd, 0) == Some(0);
    assert x.fd.peers[0 := Advanced(x).fd.peers[0]] == Advanced(x).fd.peers;
    GoesOne(t, true, Transmit);
    r := Step(t, true, Transmit);
    TidyBit(x, like);
    GenerateKeepsBit(x.fd);
    AdvancedReady(x, like, c);
  }

  /** All accepted frames from the next one on are transmitted. */
  lemma {:induction false} TransmitAll(t: Session, like: Fd, c: nat) returns (r: Session)
    requires Ready(t.a, like, c) && Silent(t.a) && NextIndex(t.a, c) <= |t.a.sent| && !t.over
    ensures Goes(t, r, true) && Ready(r.a, like, c) && Silent(r.a) && r.a.sent == t.a.sent
    ensures t.ab <= r.ab && r == t.(a := r.a, ab := r.ab) && r.a.Ctl().nextNs == Seq(|t.a.sent|)
    ensures |r.ab| == |t.ab| + |t.a.sent| - NextIndex(t.a, c)
    ensures forall q :: |t.ab| <= q < |r.ab| ==>
      var i := NextIndex(t.a, c) + (q - |t.ab|);
      Numbered(r.ab[q], AddressOf(like, 0), i, t.a.sent[i])
    decreases |t.a.sent| - NextIndex(t.a, c)
  {
    hide Goes;
    hide Tidy;
    hide Agrees;
    hide Seq;
    hide Succ;
    hide Hears;
    hide IndexFrom;
    hide Numbered;
    var x, i := t.a, NextIndex(t.a, c);
    WindowBound(x.fd.iq.slots, AddressOf(like, 0), c, |x.sent|, x.sent);
    IndexFromSeq(c, x.Ctl().nextNs);
    if i == |x.sent| {
      GoesNone(t);
      r := t;
    } else {
      var u := TransmitOne(t, like, c);
      IndexInWindow(c, i + 1);
      r := TransmitAll(u, like, c);
      GoesTrans(t, u, r, true);
    }
  }

  // ----- What is taken, and what is lost -----

  /** No connection request. */
  predicate Mild(address: byte, p: Packet) {
    U(p) ==> p.bytes == [address, UA_CONTROL]
  }

  ghost predicate BothListen(t: Session, address: byte) {
    !t.over && Listening(t.a, address) && Listening(t.b, address)
  }

  lemma UaChangesNothing(fd: Fd, address: byte)
    requires Hears(fd, address)
    ensures OnFrame(fd, [address, UA_CONTROL]) == fd
  {
    hide AddressToPeer;
    hide AddressOf;
    UControlRoundTrip();
  }

  /** The packet in front does not matter: a UA is taken without effect, anything else is lost. */
  lemma DropOne(t: Session, address: byte) returns (r: Session)
    requires BothListen(t, address) && t.ba != [] && Mild(address, t.ba[0])
    ensures Goes(t, r, false) && BothListen(r, address)
    ensures r == t.(a := r.a, ba := t.ba[1..]) && r.a.fd == t.a.fd && r.a.sent == t.a.sent
  {
    hide Goes;
    hide OnFrame;
    hide AddressToPeer;
    hide AddressOf;
    hide IControl;
    hide RrControl;
    hide RejControl;
    hide FindFree;
    if U(t.ba[0]) {
      UControlRoundTrip();
      UaChangesNothing(t.a.fd, address);
      assert !IsI(UA_CONTROL);
      GoesOne(t, true, Receive);
      r := Step(t, true, Receive);
    } else {
      GoesOne(t, false, Lose(0));
      r := Step(t, false, Lose(0));
      assert t.ba[..0] + t.ba[1..] == t.ba[1..];
    }
  }

  lemma {:induction false} DropTo(t: Session, address: byte, k: nat) returns (r: Session)
    requires BothListen(t, address) && k <= |t.ba| && forall q :: 0 <= q < k ==> Mild(address, t.ba[q])
    ensures Goes(t, r, false) && BothListen(r, address)
    ensures r == t.(a := r.a, ba := t.ba[k..]) && r.a.fd == t.a.fd && r.a.sent == t.a.sent
    decreases k
  {
    hide Goes;
    hide Mild;
    hide Hears;
    if k == 0 {
      GoesNone(t);
      r := t;
    } else {
      var u := DropOne(t, address);
      r := DropTo(u, address, k - 1);
      GoesTrans(t, u, r, false);
    }
  }

  /** A supervisory frame with this acknowledgement. */
  predicate Supervisory(p: Packet, address: byte, ack: byte) {
    p.tag.TagS? && (p.bytes == [address, RrControl(ack)] || p.bytes == [address, RejControl(ack)])
  }

  lemma OnSKeeps(fd: Fd, address: byte, p: Packet, ack: byte)
    requires Hears(fd, address) && Supervisory(p, address, ack) && ack <= 7
    ensures |p.bytes| >= 2 && !IsI(p.bytes[1])
    ensures var r := OnFrame(fd, p.bytes);
      && Moved(fd, r, address, ack) && r.sq == fd.sq && r.delivered == fd.delivered
      && (r.peers[0].ctl.nextNs == fd.peers[0].ctl.nextNs || r.peers[0].ctl.nextNs == ack)
      && (p.bytes == [address, RrControl(ack)] ==> r.peers[0].ctl.nextNs == fd.peers[0].ctl.nextNs)
      && r.peers[0].ctl.nextNr == fd.peers[0].ctl.nextNr
  {
    hide RrControl;
    hide RejControl;
    hide AddressToPeer;
    hide AddressOf;
    hide FreeAllNs;
    hide HighSeq;
    hide SType;
    hide IsI;
    hide IsU;
    hide IsS;
    hide Fd.Valid;
    ControlRoundTrip(0, ack);
    OnSMoves(fd, address, p.bytes);
    CtlOk(fd, 0);
    ShapeOf(fd);
  }

  /** An acknowledgement is taken; nothing changes but what OnSKeeps says. */
  lemma TakeAck(t: Session, address: byte, ack: byte) returns (r: Session)
    requires !t.over && Listening(t.a, address) && t.ba != [] && Supervisory(t.ba[0], address, ack) && ack <= 7
    ensures Goes(t, r, true) && !r.over && Listening(r.a, address)
    ensures r == t.(a := r.a, ba := t.ba[1..]) && r.a.sent == t.a.sent && |t.ba[0].bytes| >= 2
    ensures r.a.fd == OnFrame(t.a.fd, t.ba[0].bytes) && Moved(t.a.fd, r.a.fd, address, ack)
    ensures r.a.fd.sq == t.a.fd.sq && r.a.fd.delivered == t.a.fd.delivered && r.a.Ctl().nextNr == t.a.Ctl().nextNr
    ensures r.a.Ctl().nextNs == t.a.Ctl().nextNs || r.a.Ctl().nextNs == ack
    ensures t.ba[0].bytes == [address, RrControl(ack)] ==> r.a.Ctl().nextNs == t.a.Ctl().nextNs
  {
    hide Goes;
    hide OnFrame;
    hide AddressToPeer;
    hide AddressOf;
    hide FindFree;
    hide RrControl;
    hide RejControl;
    hide FreeAllNs;
    OnSKeeps(t.a.fd, address, t.ba[0], ack);
    OnFrameValid(t.a.fd, t.ba[0].bytes);
    GoesOne(t, true, Receive);
    r := Step(t, true, Receive);
  }

  /** An acknowledgement in the window moves it up. */
  lemma TakeAckTo(t: Session, like: Fd, c: nat, a: nat) returns (r: Session)
    requires Ready(t.a, like, c) && !t.over && c <= a <= |t.a.sent|
    requires t.ba != [] && Supervisory(t.ba[0], AddressOf(like, 0), Seq(a))
    ensures Goes(t, r, true) && !r.over && Ready(r.a, like, a)
    ensures r == t.(a := r.a, ba := t.ba[1..]) && r.a.sent == t.a.sent && r.a.fd.sq == t.a.fd.sq
    ensures r.a.Ctl().nextNs == t.a.Ctl().nextNs || r.a.Ctl().nextNs == Seq(a)
    ensures t.ba[0].bytes == [AddressOf(like, 0), RrControl(Seq(a))] ==> r.a.Ctl().nextNs == t.a.Ctl().nextNs
  {
    hide Goes;
    hide Tidy;
    hide Agrees;
    hide Seq;
    hide OnFrame;
    hide Supervisory;
    hide AddressToPeer;
    hide AddressOf;
    hide Shrinks;
    hide Confirmed;
    hide FreeAllNs;
    var address := AddressOf(like, 0);
    r := TakeAck(t, address, Seq(a));
    FreeAllAgrees(t.a.fd.iq.slots, address, c, a, |t.a.sent|, t.a.sent);
    TidyBit(t.a, like);
    FrameKeepsBit(t.a.fd, t.ba[0].bytes);
    OnFrameShrinks(t.a.fd, t.ba[0].bytes);
    ShrinksTidy(t.a, r.a, like);
  }

  // ----- After a frame was taken against the condition -----

  /** y expects frame m and has nothing to say. */
  ghost predicate Expects(y: Station, address: byte, m: nat) {
    Listening(y, address) && Silent(y) && y.Got() == m && y.Ctl().nextNr == Seq(m)
  }

  /**
   The sender knows that m frames have arrived, nothing is under way to the receiver, and
   an acknowledgement of n frames, overtaken by that of m, is about to arrive.
   */
  ghost predicate Caught(u: Session, like: Fd, m: nat, n: nat) {
    && !u.over && Ready(u.a, like, m) && Silent(u.a) && u.ab == []
    && n < m <= |u.a.sent| <= n + 7
    && Expects(u.b, AddressOf(like, 0), m)
    && u.ba != [] && Supervisory(u.ba[0], AddressOf(like, 0), Seq(n))
    && forall q :: 0 <= q < |u.ba| ==> Mild(AddressOf(like, 0), u.ba[q])
  }

  /** What is under way from one connected station to another, and what waits there, is mild. */
  lemma MildUnderWay(x: Station, xy: seq<Packet>, y: Station, yx: seq<Packet>)
    requires Both(x, xy, y, yx) && x.State() == Connected && y.State() == Connected
    ensures forall q :: 0 <= q < |xy| ==> Mild(Addr(x), xy[q])
    ensures forall j :: 0 <= j < |x.fd.sq.slots| ==> !SabmSlot(x.fd.sq.slots[j])
  {
    hide Local;
    hide Data;
    hide Acks;
    hide Ahead;
    hide Order;
    hide Spoken;
    OutOfOrder.UnderWay(y, yx, x, xy);
    forall q | 0 <= q < |xy| ensures Mild(Addr(x), xy[q]) {
      SpokenMild(Addr(x), xy[q]);
    }
  }

  lemma SpokenMild(address: byte, p: Packet)
    requires Spoken(address, p) && !IsSabm(p)
    ensures Mild(address, p)
  {}

  lemma MildSlot(x: Station, i: nat)
    requires Local(x) && i < |x.fd.sq.slots| && x.fd.sq.slots[i].Some? && !SabmSlot(x.fd.sq.slots[i])
    ensures Mild(Addr(x), WaitingAt(x, i))
  {
    hide Seq;
    hide RrControl;
    hide RejControl;
    hide AddressOf;
    hide Local;
    LocalSlot(x, i);
    ServiceBytes(x, i);
  }

  lemma MildWaiting(x: Station, xy: seq<Packet>, y: Station, yx: seq<Packet>)
    requires Both(x, xy, y, yx) && x.State() == Connected && y.State() == Connected
    ensures forall q :: 0 <= q < |Waiting(x, 0)| ==> Mild(Addr(x), Waiting(x, 0)[q])
  {
    hide Local;
    hide Data;
    hide Acks;
    hide Handshake;
    hide Mild;
    hide Waiting;
    hide WaitingAt;
    MildUnderWay(x, xy, y, yx);
    forall q | 0 <= q < |Waiting(x, 0)| ensures Mild(Addr(x), Waiting(x, 0)[q]) {
      var i := WaitingFrom(x, 0, q);
      MildSlot(x, i);
    }
  }

  /** And what waits at the receiver after the frame. */
  lemma MildSwapped(x: Station, xy: seq<Packet>, y: Station, yx: seq<Packet>, x': Station, j: nat, k: nat)
    requires Both(x, xy, y, yx) && x.State() == Connected && y.State() == Connected
    requires Swapped(x, x', j, k) && |x'.slotAck| == |x'.fd.sq.slots|
    ensures forall q :: 0 <= q < |Waiting(x', 0)| ==> Mild(Addr(x), Waiting(x', 0)[q])
    ensures x'.fd.sq.slots[j].Some? && Supervisory(WaitingAt(x', j), Addr(x), Seq(x'.Got()))
    ensures x'.fd.sq.slots[k].Some? && Supervisory(WaitingAt(x', k), Addr(x), Seq(x.slotAck[k]))
  {
    hide Local;
    hide Data;
    hide Acks;
    hide Handshake;
    hide Waiting;
    hide Seq;
    hide RrControl;
    hide RejControl;
    hide IControl;
    hide AddressOf;
    MildUnderWay(x, xy, y, yx);
    assert WaitingAt(x', j).bytes == [Addr(x), x'.fd.sq.slots[j].value.header.control];
    LocalSlot(x, k);
    ServiceBytes(x, k);
    assert WaitingAt(x', k) == WaitingAt(x, k);
    forall q | 0 <= q < |Waiting(x', 0)| ensures Mild(Addr(x), Waiting(x', 0)[q]) {
      var i := WaitingFrom(x', 0, q);
      if i != j {
        assert WaitingAt(x', i) == WaitingAt(x, i);
        MildSlot(x, i);
      }
    }
  }

  lemma ReadySame(x: Station, x': Station, like: Fd, c: nat)
    requires Ready(x, like, c) && x'.fd == x.fd && x'.sent == x.sent && |x'.slotAck| == |x.slotAck|
    ensures Ready(x', like, c)
  {
    hide AddressOf;
    hide Hears;
    hide Agrees;
    hide BitExact;
  }

  lemma ReadySilent(x: Station, x': Station, like: Fd, c: nat)
    requires Ready(x, like, c) && x' == x.(fd := x.fd.(sq := x'.fd.sq)) && Listening(x', AddressOf(like, 0))
    ensures Ready(x', like, c)
  {
    hide Hears;
    hide Agrees;
    hide NoCr;
  }

  lemma InvReady(s: Session, like: Fd)
    requires Inv(s) && s.a.State() == Connected && Tidy(s.a, like)
    ensures Ready(s.a, like, s.a.conf) && Addr(s.a) == AddressOf(like, 0)
  {
    hide Acks;
    hide Handshake;
    hide SlotOk;
    hide Agrees;
    hide Seq;
    LocalHears(s.a);
    DataWindow(s.a, s.ab, s.b);
  }

  /** Both stations say what they have to say; what goes to the receiver arrives without effect. */
  lemma Hush(t: Session, like: Fd, c: nat) returns (r: Session)
    requires !t.over && Ready(t.a, like, c) && Listening(t.b, AddressOf(like, 0))
    requires forall q :: 0 <= q < |t.ab| ==> Mild(AddressOf(like, 0), t.ab[q])
    requires |t.a.slotAck| == |t.a.fd.sq.slots|
    requires forall q :: 0 <= q < |Waiting(t.a, 0)| ==> Mild(AddressOf(like, 0), Waiting(t.a, 0)[q])
    ensures Goes(t, r, false) && !r.over && Ready(r.a, like, c) && Silent(r.a) && r.ab == [] && r.a.sent == t.a.sent
    ensures |t.b.slotAck| == |t.b.fd.sq.slots| && r.ba == t.ba + Waiting(t.b, 0)
    ensures Listening(r.b, AddressOf(like, 0)) && Silent(r.b) && r.b.fd == t.b.fd.(sq := r.b.fd.sq)
  {
    hide Goes;
    hide Tidy;
    hide Hears;
    hide InWindow;
    hide Mild;
    hide Waiting;
    var address := AddressOf(like, 0);
    var u := Flush(t, address, 0);
    GoesAnyway(t, u);
    var v' := Flush(Flip(u), address, 0);
    GoesFlip(u, v', true);
    GoesAnyway(u, Flip(v'));
    var v := Flip(v');
    assert v.ab == t.ab + Waiting(t.a, 0);
    ReadySilent(t.a, v.a, like, c);
    var w' := DropTo(Flip(v), address, |v.ab|);
    GoesFlip(v, w', false);
    r := Flip(w');
    GoesTrans(t, u, v, false);
    GoesTrans(t, v, r, false);
  }

  /** From a frame taken against the condition, keeping it from then on, to a sender that is caught. */
  lemma Catch(s: Session, like: Fd) returns (u: Session, n: nat)
    requires Inv(s) && !s.over && s.a.State() == Connected && s.b.State() == Connected && Tidy(s.a, like)
    requires s.ab != [] && s.ab[0].tag.TagI? && |s.ab[0].bytes| >= 2 && !AnswersInOrder(s.b.fd, s.ab[0].bytes)
    ensures Possible(Flip(s), Receive)
    ensures var t := Step(s, false, Receive);
      && Goes(t, u, false) && Caught(u, like, t.b.Got(), n) && u.a.sent == s.a.sent
      && u.b.fd == t.b.fd.(sq := u.b.fd.sq) && s.a.conf <= n
      && t.b.Got() == s.b.Got() + (if s.ab[0].tag.idx == s.b.Got() then 1 else 0)
      && (s.ab[0].tag.idx == s.b.Got() ==> |t.b.fd.peers| == 1 && !t.b.fd.peers[0].sentReject)
  {
    hide Goes;
    hide Tidy;
    hide Hears;
    hide InWindow;
    hide Mild;
    hide Waiting;
    hide WaitingAt;
    hide Supervisory;
    hide DoReceive;
    hide AnswersInOrder;
    hide Data;
    hide Acks;
    hide Handshake;
    hide SlotOk;
    hide RrControl;
    hide RejControl;
    hide Seq;
    hide AddressOf;
    hide AddressToPeer;
    BothInv(s);
    InvReady(s, like);
    var address := AddressOf(like, 0);
    var j, k := TookAnyway(s.b, s.ba, s.a, s.ab);
    var t := Step(s, false, Receive);
    var y := DoReceive(s.b, s.ab[0]);
    assert t == Session(s.a, y, s.ab[1..], s.ba, false);
    n := s.b.slotAck[k];
    var m := y.Got();
    MildUnderWay(s.a, s.ab, s.b, s.ba);
    MildWaiting(s.a, s.ab, s.b, s.ba);
    MildUnderWay(s.b, s.ba, s.a, s.ab);
    MildSwapped(s.b, s.ba, s.a, s.ab, y, j, k);
    var v := Hush(t, like, s.a.conf);
    var p, q := WaitingOrder(y, 0, j, k);
    assert forall i :: 0 <= i < |v.ba| ==> Mild(address, v.ba[i]);
    assert v.ba[|s.ba| + p] == WaitingAt(y, j) && v.ba[|s.ba| + q] == WaitingAt(y, k);
    CaughtBounds(s, k);
    u := Pick(t, v, like, s.a.conf, m, n, |s.ba| + p, |s.ba| + q);
  }

  lemma CaughtBounds(s: Session, k: nat)
    requires Inv(s) && k < |s.b.fd.sq.slots| && PendingS(s.b.fd.sq.slots[k])
    ensures s.a.conf <= s.b.slotAck[k] && s.a.conf <= s.b.Got() && |s.a.sent| <= s.b.slotAck[k] + 7
  {
    hide Local;
    hide Handshake;
    hide Agrees;
    hide DataPacket;
    hide ServicePacket;
    hide Seq;
    WindowBound(s.a.fd.iq.slots, Addr(s.a), s.a.conf, |s.a.sent|, s.a.sent);
  }

  /** Of all that is under way the sender takes packet p and is about to take packet q. */
  lemma Pick(t: Session, v: Session, like: Fd, c: nat, m: nat, n: nat, p: nat, q: nat) returns (u: Session)
    requires Goes(t, v, false) && !v.over && Ready(v.a, like, c) && Silent(v.a) && v.ab == []
    requires Expects(v.b, AddressOf(like, 0), m) && c <= m && n < m <= |v.a.sent| <= n + 7
    requires forall i :: 0 <= i < |v.ba| ==> Mild(AddressOf(like, 0), v.ba[i])
    requires p < q < |v.ba|
    requires Supervisory(v.ba[p], AddressOf(like, 0), Seq(m)) && Supervisory(v.ba[q], AddressOf(like, 0), Seq(n))
    ensures Goes(t, u, false) && Caught(u, like, m, n) && u.a.sent == v.a.sent && u.b == v.b
  {
    hide Goes;
    hide Tidy;
    hide Hears;
    hide InWindow;
    hide Mild;
    hide Supervisory;
    hide Seq;
    hide AddressOf;
    var address := AddressOf(like, 0);
    var w := DropTo(v, address, p);
    ReadySame(v.a, w.a, like, c);
    var x := TakeAckTo(w, like, c, m);
    GoesAnyway(w, x);
    u := DropTo(x, address, q - p - 1);
    ReadySame(x.a, u.a, like, m);
    assert u.ba == v.ba[q..];
    GoesTrans(t, v, w, false);
    GoesTrans(t, w, x, false);
    GoesTrans(t, x, u, false);
  }

  // ----- What the receiver does next -----

  /** The first station takes an I-frame under the number it expects. */
  lemma TakeNumbered(t: Session, address: byte, m: nat, i: nat, payload: seq<byte>) returns (r: Session)
    requires !t.over && Expects(t.a, address, m) && t.ba != [] && Numbered(t.ba[0], address, i, payload)
    requires Seq(i) == Seq(m)
    ensures Goes(t, r, true) && r.b == t.b && !r.over && Listening(r.a, address)
    ensures r.a.Got() == m + 1 && r.a.fd.delivered[m].1 == payload && r.a.sent == t.a.sent
  {
    hide Goes;
    hide OnFrame;
    hide AddressToPeer;
    hide AddressOf;
    hide FindFree;
    hide Seq;
    hide HighSeq;
    hide IsI;
    hide IsU;
    var p := t.ba[0];
    NumberedAccepted(t.a.fd, address, p, payload);
    OnFrameValid(t.a.fd, p.bytes);
    GoesOne(t, true, Receive);
    r := Step(t, true, Receive);
  }

  lemma NumberedAccepted(fd: Fd, address: byte, p: Packet, payload: seq<byte>)
    requires Hears(fd, address) && |p.bytes| >= 2 && p.bytes[0] == address && IsI(p.bytes[1]) && !IsU(p.bytes[1])
    requires HighSeq(p.bytes[1]) == fd.peers[0].ctl.nextNr && p.bytes[2..] == payload
    ensures Hears(OnFrame(fd, p.bytes), address)
    ensures var now := OnFrame(fd, p.bytes).delivered;
      |now| == |fd.delivered| + 1 && now[|fd.delivered|].1 == payload
  {
    hide AddressToPeer;
    hide AddressOf;
    hide HighSeq;
    hide LowSeq;
    hide IsI;
    hide IsU;
    hide Succ;
    hide RrControl;
    hide FindFree;
    hide Rotated;
    hide FreeAllNs;
    hide Confirmed;
    OnIMoves(fd, address, p.bytes);
  }

  /** The first station refuses an I-frame under another number and asks for the one it expects. */
  lemma RefuseNumbered(t: Session, address: byte, m: nat, i: nat, payload: seq<byte>) returns (r: Session, j: nat)
    requires !t.over && Expects(t.a, address, m) && t.ba != [] && Numbered(t.ba[0], address, i, payload)
    requires Seq(i) != Seq(m) && !t.a.fd.peers[0].sentReject
    ensures Goes(t, r, true) && !r.over && r == t.(a := r.a, ba := t.ba[1..])
    ensures Listening(r.a, address) && r.a.Got() == m && r.a.Ctl().nextNr == Seq(m) && r.a.sent == t.a.sent
    ensures j < |r.a.fd.sq.slots| && r.a.fd.sq.slots[j] == Some(ServiceFrame(SFrame, address, RejControl(Seq(m))))
    ensures forall k :: 0 <= k < |r.a.fd.sq.slots| && k != j ==> r.a.fd.sq.slots[k].None?
  {
    hide Goes;
    hide OnFrame;
    hide AddressToPeer;
    hide AddressOf;
    hide FindFree;
    hide Seq;
    hide HighSeq;
    hide IsI;
    hide IsU;
    hide RejControl;
    var p := t.ba[0];
    j := NumberedRefused(t.a.fd, address, p, payload);
    OnFrameValid(t.a.fd, p.bytes);
    GoesOne(t, true, Receive);
    r := Step(t, true, Receive);
  }

  lemma NumberedRefused(fd: Fd, address: byte, p: Packet, payload: seq<byte>) returns (j: nat)
    requires Hears(fd, address) && |p.bytes| >= 2 && p.bytes[0] == address && IsI(p.bytes[1]) && !IsU(p.bytes[1])
    requires HighSeq(p.bytes[1]) != fd.peers[0].ctl.nextNr && !fd.peers[0].sentReject
    requires forall k :: 0 <= k < |fd.sq.slots| ==> fd.sq.slots[k].None?
    ensures var r := OnFrame(fd, p.bytes);
      && Hears(r, address) && r.delivered == fd.delivered && r.peers[0].ctl.nextNr == fd.peers[0].ctl.nextNr
      && j < |fd.sq.slots|
      && r.sq.slots == fd.sq.slots[j := Some(ServiceFrame(SFrame, address, RejControl(fd.peers[0].ctl.nextNr)))]
  {
    hide AddressToPeer;
    hide HighSeq;
    hide LowSeq;
    hide IsI;
    hide IsU;
    hide RejControl;
    hide Confirm;
    hide FindFree;
    hide Rotated;
    hide NoCr;
    hide Fd.Valid;
    ShapeOf(fd);
    CtlOk(fd, 0);
    var c := Confirm(fd, 0, LowSeq(p.bytes[1]));
    ConfirmIs(fd, LowSeq(p.bytes[1]));
    OnIMoves(fd, address, p.bytes);
    EmptyHasFree(fd);
    j := FindFree(fd.sq.slots, fd.sq.lookup, 0).value;
    assert OnFrame(fd, p.bytes) == Refuse(c, 0);
  }

  lemma ConfirmIs(fd: Fd, nr: byte)
    requires |fd.peers| == 1 && fd.peers[0].ctl.Valid() && nr <= 7
    ensures var c := Confirm(fd, 0, nr);
      && c.sq == fd.sq && c.delivered == fd.delivered && c.localAddr == fd.localAddr
      && |c.peers| == 1 && c.peers[0] == fd.peers[0].(ctl := c.peers[0].ctl)
      && c.peers[0].ctl.nextNr == fd.peers[0].ctl.nextNr
  {
    hide FreeAllNs;
    hide Confirmed;
    hide AddressOf;
  }

  lemma EmptyHasFree(fd: Fd)
    requires fd.Valid() && forall k :: 0 <= k < |fd.sq.slots| ==> fd.sq.slots[k].None?
    ensures FindFree(fd.sq.slots, fd.sq.lookup, 0).Some?
  {
    FindFreeComplete(fd.sq.slots, fd.sq.lookup, 0);
    assert fd.sq.slots[0].None?;
  }

  // ----- Release: the condition is exact for every window -----

  /** Both stations still hold what they accepted and the other has not delivered. */
  ghost predicate BothKept(r: Session) {
    |r.a.fd.peers| == |r.b.fd.peers| == 1 && Kept(r.a, r.b) && Kept(r.b, r.a)
  }

  lemma GoneIsNotKept(x: Station, y: Station, m: nat)
    requires |x.fd.peers| == 1 && y.Got() == m < |x.sent|
    requires Find(x.fd.iq.slots, IFrame, Addr(x), Seq(m), 0).None?
    ensures !Kept(x, y)
  {
    hide Seq;
    hide AddressOf;
  }

  lemma StaleReleases(x: Station, like: Fd, m: nat, n: nat)
    requires Ready(x, like, m) && n < m < |x.sent| <= n + 8
    ensures var slots := FreeAllNs(x.fd.iq.slots, Addr(x), Confirmed(Seq(m), Seq(n)));
      Find(slots, IFrame, Addr(x), Seq(m), 0).None?
  {
    hide Agrees;
    hide Seq;
    hide Tidy;
    hide FreeAllNs;
    hide IndexFrom;
    HearsAddress(x, AddressOf(like, 0));
    var address, l := Addr(x), |x.sent|;
    if l <= n + 7 {
      OlderClears(x.fd.iq.slots, address, m, x.sent, n);
    } else {
      SeqEqual(n, n + 8);
      WindowBound(x.fd.iq.slots, address, m, l, x.sent);
      FreeAllAgrees(x.fd.iq.slots, address, m, l, l, x.sent);
      var slots := FreeAllNs(x.fd.iq.slots, address, Confirmed(Seq(m), Seq(n)));
      IndexFromSeq(l, Seq(m));
      FindAgrees(slots, address, l, l, x.sent, Seq(m));
    }
  }

  /** The sender that is caught gives up a frame that was not delivered. */
  lemma CaughtReleases(u: Session, like: Fd, m: nat, n: nat) returns (r: Session)
    requires Caught(u, like, m, n)
    ensures Goes(u, r, false) && !r.over && !BothKept(r)
  {
    hide Goes;
    hide Tidy;
    hide Hears;
    hide Agrees;
    hide Mild;
    hide Seq;
    hide AddressOf;
    hide AddressToPeer;
    hide RrControl;
    hide RejControl;
    hide Confirmed;
    hide FreeAllNs;
    hide Kept;
    var address := AddressOf(like, 0);
    var v := u;
    GoesNone(u);
    if |u.a.sent| == m {
      SlotsExist(u.a, like);
      v := SendOne(u, like, m, []);
      GoesAnyway(u, v);
    }
    r := TakeAck(v, address, Seq(n));
    GoesAnyway(v, r);
    GoesTrans(u, v, r, false);
    StaleReleases(v.a, like, m, n);
    HearsAddress(v.a, address);
    HearsAddress(r.a, address);
    GoneIsNotKept(r.a, r.b, m);
  }

  lemma SlotsExist(x: Station, like: Fd)
    requires Tidy(x, like) && Listening(x, AddressOf(like, 0))
    ensures 1 <= |like.iq.slots| <= 7
  {
    hide AddressOf;
    hide BitExact;
  }

  /**
   For every window: taking an I-frame is safe for what is not delivered yet, in every
   continuation that keeps the condition, if and only if it keeps the condition itself.
   */
  lemma ReleaseExactIff(s0: Session, s: Session)
    requires Init(s0) && Runs(s0, s) && !s.over && s.ab != [] && s.ab[0].tag.TagI?
    ensures Possible(Flip(s), Receive)
    ensures AnswersInOrder(s.b.fd, s.ab[0].bytes) <==>
      forall r :: Runs(Step(s, false, Receive), r) && !r.over ==> BothKept(r)
  {
    hide RunFrom;
    hide Init;
    hide Inv;
    hide Tidy;
    hide AnswersInOrder;
    hide Possible;
    hide Step;
    hide BothKept;
    hide Goes;
    hide Caught;
    var acts :| RunFrom(s0, acts) == Some(s);
    FrontIsPossible(s0, s, acts);
    var t := Step(s, false, Receive);
    if AnswersInOrder(s.b.fd, s.ab[0].bytes) {
      RunsOn(s0, s, false, Receive);
      forall r | Runs(t, r) && !r.over ensures BothKept(r) {
        RunsTrans(s0, t, r);
        ReachedKept(s0, r);
      }
    } else {
      var u, n := Catch(s, s0.a.fd);
      var r := CaughtReleases(u, s0.a.fd, t.b.Got(), n);
      GoesTrans(t, u, r, false);
      GoesRuns(t, r, false);
    }
  }

  lemma ReachedKept(s: Session, r: Session)
    requires Init(s) && Runs(s, r) && !r.over
    ensures BothKept(r)
  {
    hide RunFrom;
    hide Kept;
    var acts :| RunFrom(s, acts) == Some(r);
    NoPrematureRelease(s, acts);
  }

  lemma FrontIsPossible(s0: Session, s: Session, acts: seq<(bool, Action)>)
    requires Init(s0) && RunFrom(s0, acts) == Some(s) && !s.over && s.ab != [] && s.ab[0].tag.TagI?
    ensures Inv(s) && Tidy(s.a, s0.a.fd) && Possible(Flip(s), Receive) && |s.ab[0].bytes| >= 2 && |s.b.fd.peers| == 1
    ensures s.a.State() == Connected && s.b.State() == Connected
    ensures AnswersInOrder(s.b.fd, s.ab[0].bytes) ==> Enabled(Flip(s), Receive)
    ensures Step(s, false, Receive).b == DoReceive(s.b, s.ab[0])
  {
    hide RunFrom;
    hide Init;
    hide Data;
    hide Acks;
    hide Handshake;
    hide SlotOk;
    hide Tidy;
    hide DoReceive;
    hide AnswersInOrder;
    RunGood(s0, acts);
    TidyInSession(s0, acts);
    FlipInv(s);
    PacketLong(Flip(s));
    BothConnected(Flip(s));
  }

  // ----- Delivery: the condition is exact for a window of seven -----

  /** A payload that differs from the given one. */
  function Other(data: seq<byte>): (e: seq<byte>)
    ensures e != data && |e| <= 1
  {
    if data == [] then [0] else []
  }

  /** What is delivered at either end is a prefix of what was accepted at the other. */
  ghost predicate BothPrefix(r: Session) {
    Prefix(r.a, r.b) && Prefix(r.b, r.a)
  }

  /**
   The sender believes frame m delivered, may send up to frame m + 8, and the receiver
   still expects number m: frame m + 8 is delivered in its place.
   */
  lemma WrongDelivered(u: Session, like: Fd, c: nat, m: nat) returns (r: Session)
    requires !u.over && Ready(u.a, like, c) && Silent(u.a) && u.ab == [] && Expects(u.b, AddressOf(like, 0), m)
    requires m < |u.a.sent| <= m + 8 && m + 9 <= c + |like.iq.slots| && NextIndex(u.a, c) <= m + 8 && like.mtu >= 1
    ensures Goes(u, r, false) && !BothPrefix(r)
  {
    hide Goes;
    hide Tidy;
    hide Hears;
    hide InWindow;
    hide Numbered;
    hide NextIndex;
    hide Seq;
    hide AddressOf;
    var address, e := AddressOf(like, 0), Other(u.a.sent[m]);
    var v := SendUpTo(u, like, c, e, m + 9);
    SameNext(u.a, v.a, c);
    var w := TransmitAll(v, like, c);
    var last := |w.ab| - 1;
    assert Numbered(w.ab[last], address, m + 8, w.a.sent[m + 8]);
    NumberedMild(w.ab, address, last, NextIndex(v.a, c), v.a.sent);
    var x' := DropTo(Flip(w), address, last);
    GoesFlip(w, x', false);
    SeqEqual(m, m + 8);
    var y' := TakeNumbered(x', address, m, m + 8, e);
    GoesAnyway(x', y');
    GoesTrans(Flip(w), x', y', false);
    GoesFlip(w, y', false);
    r := Flip(y');
    GoesAnyway(u, v);
    GoesAnyway(v, w);
    GoesTrans(u, v, w, false);
    GoesTrans(u, w, r, false);
    assert r.b.fd.delivered[m].1 == e != r.a.sent[m];
  }

  lemma SameNext(x: Station, x': Station, c: nat)
    requires |x.fd.peers| == 1 == |x'.fd.peers| && x'.Ctl().nextNs == x.Ctl().nextNs
    ensures NextIndex(x', c) == NextIndex(x, c)
  {}

  lemma NumberedMild(xy: seq<Packet>, address: byte, k: nat, i: nat, sent: Log)
    requires k <= |xy| && i + k <= |sent|
    requires forall q :: 0 <= q < k ==> Numbered(xy[q], address, i + q, sent[i + q])
    ensures forall q :: 0 <= q < k ==> Mild(address, xy[q])
  {
    hide IsI;
    hide IsU;
    hide HighSeq;
    forall q | 0 <= q < k ensures Mild(address, xy[q]) {
      assert Numbered(xy[q], address, i + q, sent[i + q]);
    }
  }

  /** The sender that is caught sends a full window, loses it, and takes the stale acknowledgement. */
  lemma Misled(u: Session, like: Fd, m: nat, n: nat) returns (r: Session)
    requires Caught(u, like, m, n) && |like.iq.slots| == 7
    ensures Goes(u, r, false) && !r.over && Ready(r.a, like, n + 8) && Silent(r.a) && r.ab == []
    ensures |r.a.sent| == m + 7 && Expects(r.b, AddressOf(like, 0), m) && r.b.fd == u.b.fd && r.ba == u.ba[1..]
    ensures NextIndex(r.a, n + 8) <= m + 7
  {
    hide Goes;
    hide Tidy;
    hide Hears;
    hide InWindow;
    hide Numbered;
    hide NextIndex;
    hide Seq;
    hide AddressOf;
    hide Supervisory;
    hide Mild;
    var address := AddressOf(like, 0);
    var v := SendUpTo(u, like, m, [], m + 7);
    NextIn(v.a, like, m);
    var w := TransmitAll(v, like, m);
    NumberedMild(w.ab, address, |w.ab|, NextIndex(v.a, m), v.a.sent);
    var x' := DropTo(Flip(w), address, |w.ab|);
    GoesFlip(w, x', false);
    var x := Flip(x');
    SeqEqual(n, n + 8);
    r := TakeAckTo(x, like, m, n + 8);
    GoesAnyway(u, v);
    GoesAnyway(v, w);
    GoesAnyway(x, r);
    GoesTrans(u, v, w, false);
    GoesTrans(u, w, x, false);
    GoesTrans(u, x, r, false);
    NextAt(r.a, n + 8, m + 7);
  }

  lemma NextIn(x: Station, like: Fd, c: nat)
    requires Ready(x, like, c)
    ensures c <= NextIndex(x, c) <= c + 7
  {
    hide AddressOf;
    hide Tidy;
    hide Seq;
    hide IndexFrom;
    assert x.Ctl().Valid();
    IndexFromSeq(c, x.Ctl().nextNs);
  }

  lemma NextExactly(x: Station, c: nat, i: nat)
    requires |x.fd.peers| == 1 && c <= i < c + 8 && x.Ctl().nextNs == Seq(i)
    ensures NextIndex(x, c) == i
  {
    hide Seq;
    hide IndexFrom;
    IndexInWindow(c, i);
  }

  lemma NextAt(x: Station, c: nat, i: nat)
    requires |x.fd.peers| == 1 && c <= i < c + 8 && (x.Ctl().nextNs == Seq(i) || x.Ctl().nextNs == Seq(c))
    ensures NextIndex(x, c) <= i
  {
    hide Seq;
    hide IndexFrom;
    IndexInWindow(c, i);
    IndexInWindow(c, c);
  }

  /** The receiver asks again for frame m; to the sender this confirms seven frames more. */
  lemma AskedAgain(u: Session, like: Fd, m: nat) returns (r: Session)
    requires !u.over && Ready(u.a, like, m + 1) && Silent(u.a) && u.ab == [] && |like.iq.slots| == 7
    requires |u.a.sent| == m + 7 && NextIndex(u.a, m + 1) <= m + 7
    requires Expects(u.b, AddressOf(like, 0), m) && !u.b.fd.peers[0].sentReject
    requires forall q :: 0 <= q < |u.ba| ==> Mild(AddressOf(like, 0), u.ba[q])
    ensures Goes(u, r, false) && !r.over && Ready(r.a, like, m + 8) && Silent(r.a) && r.ab == []
    ensures |r.a.sent| == m + 8 && Expects(r.b, AddressOf(like, 0), m) && NextIndex(r.a, m + 8) <= m + 8
  {
    hide Goes;
    hide Tidy;
    hide Hears;
    hide InWindow;
    hide Numbered;
    hide NextIndex;
    hide Seq;
    hide AddressOf;
    hide Supervisory;
    hide Mild;
    hide RejControl;
    hide Waiting;
    hide WaitingAt;
    var address := AddressOf(like, 0);
    var v := SendUpTo(u, like, m + 1, [], m + 8);
    SameNext(u.a, v.a, m + 1);
    var w := TransmitAll(v, like, m + 1);
    var last := |w.ab| - 1;
    assert Numbered(w.ab[last], address, m + 7, w.a.sent[m + 7]);
    NumberedMild(w.ab, address, last, NextIndex(v.a, m + 1), v.a.sent);
    var x' := DropTo(Flip(w), address, last);
    SeqEqual(m, m + 7);
    var y', j := RefuseNumbered(x', address, m, m + 7, w.a.sent[m + 7]);
    GoesAnyway(x', y');
    GoesTrans(Flip(w), x', y', false);
    GoesFlip(w, y', false);
    var y := Flip(y');
    r := HearAgain(y, like, m, j);
    GoesAnyway(u, v);
    GoesAnyway(v, w);
    GoesTrans(u, v, w, false);
    GoesTrans(u, w, y, false);
    GoesTrans(u, y, r, false);
  }

  lemma HearAgain(y: Session, like: Fd, m: nat, j: nat) returns (r: Session)
    requires !y.over && Ready(y.a, like, m + 1) && Silent(y.a) && y.ab == [] && |y.a.sent| == m + 8
    requires y.a.Ctl().nextNs == Seq(m + 8)
    requires Listening(y.b, AddressOf(like, 0)) && y.b.Got() == m && y.b.Ctl().nextNr == Seq(m)
    requires j < |y.b.fd.sq.slots|
    requires y.b.fd.sq.slots[j] == Some(ServiceFrame(SFrame, AddressOf(like, 0), RejControl(Seq(m))))
    requires forall k :: 0 <= k < |y.b.fd.sq.slots| && k != j ==> y.b.fd.sq.slots[k].None?
    requires forall q :: 0 <= q < |y.ba| ==> Mild(AddressOf(like, 0), y.ba[q])
    ensures Goes(y, r, false) && !r.over && Ready(r.a, like, m + 8) && Silent(r.a) && r.ab == []
    ensures |r.a.sent| == m + 8 && Expects(r.b, AddressOf(like, 0), m) && NextIndex(r.a, m + 8) <= m + 8
  {
    hide Goes;
    hide Tidy;
    hide Hears;
    hide InWindow;
    hide NextIndex;
    hide Seq;
    hide AddressOf;
    hide Supervisory;
    hide RejControl;
    hide Waiting;
    var address := AddressOf(like, 0);
    var f := Flush(y, address, 0);
    GoesAnyway(y, f);
    var p := WaitingFinds(y.b, 0, j);
    OneWaits(y.b, address, j, RejControl(Seq(m)));
    var d := DropTo(f, address, |y.ba| + p);
    ReadySame(y.a, d.a, like, m + 1);
    assert d.ba[0] == WaitingAt(y.b, j);
    SeqEqual(m, m + 8);
    SupervisoryRej(y.b, address, j, Seq(m));
    r := TakeAckTo(d, like, m + 1, m + 8);
    GoesAnyway(d, r);
    GoesTrans(y, f, d, false);
    GoesTrans(y, d, r, false);
    NextAt(r.a, m + 8, m + 8);
  }

  lemma OneWaits(x: Station, address: byte, j: nat, control: byte)
    requires j < |x.fd.sq.slots| == |x.slotAck|
    requires x.fd.sq.slots[j] == Some(ServiceFrame(SFrame, address, control))
    requires forall k :: 0 <= k < |x.fd.sq.slots| && k != j ==> x.fd.sq.slots[k].None?
    ensures forall q :: 0 <= q < |Waiting(x, 0)| ==> Mild(address, Waiting(x, 0)[q])
  {
    hide Waiting;
    forall q | 0 <= q < |Waiting(x, 0)| ensures Mild(address, Waiting(x, 0)[q]) {
      var i := WaitingFrom(x, 0, q);
    }
  }

  lemma SupervisoryRej(x: Station, address: byte, j: nat, nr: byte)
    requires j < |x.fd.sq.slots| == |x.slotAck|
    requires x.fd.sq.slots[j] == Some(ServiceFrame(SFrame, address, RejControl(nr)))
    ensures Supervisory(WaitingAt(x, j), address, nr)
  {
    hide RejControl;
    assert WaitingAt(x, j).bytes == [address, RejControl(nr)];
  }

  /** With a window of seven the sender that is caught goes on to have a wrong payload delivered. */
  lemma CaughtMisdelivers(u: Session, like: Fd, m: nat, n: nat) returns (r: Session)
    requires Caught(u, like, m, n) && |like.iq.slots| == 7 && like.mtu >= 1
    requires m <= n + 6 || !u.b.fd.peers[0].sentReject
    ensures Goes(u, r, false) && !BothPrefix(r)
  {
    hide Goes;
    hide Tidy;
    hide Hears;
    hide InWindow;
    hide Mild;
    hide Supervisory;
    hide NextIndex;
    hide Seq;
    hide AddressOf;
    hide BothPrefix;
    var v := Misled(u, like, m, n);
    if m <= n + 6 {
      r := WrongDelivered(v, like, n + 8, m);
      GoesTrans(u, v, r, false);
    } else {
      assert n + 8 == m + 1;
      var w := AskedAgain(v, like, m);
      r := WrongDelivered(w, like, m + 8, m);
      GoesTrans(u, v, w, false);
      GoesTrans(u, w, r, false);
    }
  }

  /** The same without loss: the sender fills its window and takes the stale acknowledgement. */
  lemma MisledPlainly(u: Session, like: Fd, m: nat, n: nat) returns (w: Session)
    requires Caught(u, like, m, n) && |like.iq.slots| == 7 && m <= n + 6 && u.a.Ctl().nextNs == Seq(m)
    requires u.ba[0].bytes == [AddressOf(like, 0), RrControl(Seq(n))]
    ensures Goes(u, w, true) && !w.over && Ready(w.a, like, n + 8) && Silent(w.a) && w.ab == [] && w.b == u.b
    ensures |w.a.sent| == m + 7 && NextIndex(w.a, n + 8) == m + 8
  {
    hide Goes;
    hide Tidy;
    hide Hears;
    hide InWindow;
    hide NextIndex;
    hide Seq;
    hide AddressOf;
    hide Mild;
    hide RrControl;
    hide RejControl;
    var v := SendUpTo(u, like, m, [], m + 7);
    SeqEqual(n, n + 8);
    w := TakeAckTo(v, like, m, n + 8);
    SeqEqual(m, m + 8);
    NextExactly(w.a, n + 8, m + 8);
    GoesTrans(u, v, w, true);
  }

  /** If the sender is about to send the frame the receiver expects, frame m + 8 goes out in its place. */
  lemma MisdeliversPlainly(u: Session, like: Fd, m: nat, n: nat) returns (r: Session)
    requires Caught(u, like, m, n) && |like.iq.slots| == 7 && like.mtu >= 1
    requires m <= n + 6 && u.a.Ctl().nextNs == Seq(m)
    requires u.ba[0].bytes == [AddressOf(like, 0), RrControl(Seq(n))]
    ensures Goes(u, r, true) && !BothPrefix(r) && |r.a.sent| == m + 9 && r.b.Got() == m + 1
    ensures r.b.fd.delivered[m].1 == r.a.sent[m + 8] != r.a.sent[m]
    ensures !r.over && Listening(r.a, AddressOf(like, 0)) && Listening(r.b, AddressOf(like, 0))
  {
    hide Goes;
    hide Tidy;
    hide Hears;
    hide InWindow;
    hide Numbered;
    hide NextIndex;
    hide Seq;
    hide AddressOf;
    hide Supervisory;
    hide Mild;
    hide RrControl;
    var w := MisledPlainly(u, like, m, n);
    var e := Other(w.a.sent[m]);
    var x := SendUpTo(w, like, n + 8, e, m + 9);
    SameNext(w.a, x.a, n + 8);
    var y := TransmitOne(x, like, n + 8);
    SeqEqual(m, m + 8);
    var z := TakeNumbered(Flip(y), AddressOf(like, 0), m, m + 8, e);
    GoesFlip(y, z, true);
    r := Flip(z);
    GoesTrans(u, w, x, true);
    GoesTrans(u, x, y, true);
    GoesTrans(u, y, r, true);
    assert r.b.fd.delivered[m].1 == e == r.a.sent[m + 8] != r.a.sent[m];
  }

  /**
   For a window of seven: taking an I-frame keeps delivery in order, in every continuation
   that keeps the condition, if and only if it keeps the condition itself. The frame is
   the one expected, or not all seven frames are delivered and unconfirmed.
   */
  lemma DeliveryExactIff(s0: Session, s: Session)
    requires Init(s0) && Runs(s0, s) && !s.over && s.ab != [] && s.ab[0].tag.TagI?
    requires |s0.a.fd.iq.slots| == 7 && s0.a.fd.mtu >= 1
    requires s.ab[0].tag.idx == s.b.Got() || s.b.Got() < s.a.conf + 7
    ensures Possible(Flip(s), Receive)
    ensures AnswersInOrder(s.b.fd, s.ab[0].bytes) <==>
      forall r :: Runs(Step(s, false, Receive), r) ==> BothPrefix(r)
  {
    hide RunFrom;
    hide Init;
    hide Inv;
    hide Tidy;
    hide AnswersInOrder;
    hide Possible;
    hide Step;
    hide BothPrefix;
    hide Goes;
    var acts :| RunFrom(s0, acts) == Some(s);
    FrontIsPossible(s0, s, acts);
    var t := Step(s, false, Receive);
    if AnswersInOrder(s.b.fd, s.ab[0].bytes) {
      RunsOn(s0, s, false, Receive);
      forall r | Runs(t, r) ensures BothPrefix(r) {
        RunsTrans(s0, t, r);
        ReachedPrefix(s0, r);
      }
    } else {
      var u, n := Catch(s, s0.a.fd);
      var r := CaughtMisdelivers(u, s0.a.fd, t.b.Got(), n);
      GoesTrans(t, u, r, false);
      GoesRuns(t, r, false);
    }
  }

  lemma ReachedPrefix(s: Session, r: Session)
    requires Init(s) && Runs(s, r)
    ensures BothPrefix(r)
  {
    hide RunFrom;
    hide Inv;
    var acts :| RunFrom(s, acts) == Some(r);
    RunGood(s, acts);
  }
}
