/**
 Between the protocol and the octets: every frame a station hands its codec fits the
 decoder of a peer configured alike, so what the peer decodes is what was handed over,
 and a station as configured is one the session theorems start from.
 */
module Wire {
  import opened Base
  import opened Fcs
  import opened Framing
  import opened FdDefs
  import opened IQueueControl
  import opened FrameQueue
  import opened FdSpec
  import opened Receiver
  import Session
  import TinyFd

  /** Queued payloads respect the limit; service frames carry none. */
  ghost predicate Sized(fd: Fd) {
    && (forall j :: 0 <= j < |fd.iq.slots| && fd.iq.slots[j].Some? ==> |fd.iq.slots[j].value.payload| <= fd.mtu)
    && (forall j :: 0 <= j < |fd.sq.slots| && fd.sq.slots[j].Some? ==> fd.sq.slots[j].value.payload == [])
  }

  /** A frame on its way to the codec: two header octets, and no more than the codec's limit allows. */
  predicate Fits(mtu: nat, frame: seq<byte>) {
    2 <= |frame| <= mtu + 2
  }

  // ----- Every operation keeps the sizes -----

  lemma PutServiceSized(fd: Fd, f: FrameInfo)
    requires Sized(fd) && f.payload == []
    ensures Sized(PutService(fd, f)) && PutService(fd, f).mtu == fd.mtu
  {
    hide FindFree;
    hide Rotated;
  }

  /** What the I-queue gives up leaves the rest as it was. */
  ghost predicate Subslots(before: seq<Slot>, after: seq<Slot>) {
    |before| == |after| && forall j :: 0 <= j < |after| ==> after[j].None? || after[j] == before[j]
  }

  lemma {:induction false} ReleaseSubslots(slots: seq<Slot>, address: byte, nss: seq<byte>)
    ensures Subslots(slots, FreeAllNs(slots, address, nss))
    decreases |nss|
  {
    hide Find;
    if nss != [] {
      ReleaseSubslots(ReleaseNs(slots, address, nss[0]), address, nss[1..]);
    }
  }

  lemma SendPacketSized(fd: Fd, address: byte, data: seq<byte>)
    requires fd.Valid() && Sized(fd)
    ensures Sized(SendPacket(fd, address, data).0) && SendPacket(fd, address, data).0.mtu == fd.mtu
  {
    hide Fd.Valid;
    hide FindFree;
    hide Rotated;
    hide AddressOf;
    hide HasFree;
    hide SendTarget;
  }

  lemma SwitchSized(fd: Fd, p: nat)
    requires Sized(fd) && p < |fd.peers|
    ensures Sized(SwitchToConnected(fd, p)) && Sized(SwitchToDisconnected(fd, p))
    ensures SwitchToConnected(fd, p).mtu == fd.mtu == SwitchToDisconnected(fd, p).mtu
  {
    hide AddressOf;
    hide UserAddress;
    hide HasFree;
  }

  lemma ConfirmSized(fd: Fd, p: nat, nr: byte)
    requires Sized(fd) && p < |fd.peers| && fd.peers[p].ctl.Valid() && nr <= 7
    ensures Sized(Confirm(fd, p, nr)) && Confirm(fd, p, nr).mtu == fd.mtu && |Confirm(fd, p, nr).peers| == |fd.peers|
  {
    hide AddressOf;
    hide HasFree;
    hide FreeAllNs;
    hide Confirmed;
    ReleaseSubslots(fd.iq.slots, AddressOf(fd, p), Confirmed(fd.peers[p].ctl.confirmNs, nr));
  }

  lemma AnswerSized(fd: Fd, p: nat, payload: seq<byte>)
    requires Sized(fd) && p < |fd.peers|
    ensures Sized(Accept(fd, p, payload)) && Sized(Refuse(fd, p))
    ensures Accept(fd, p, payload).mtu == fd.mtu == Refuse(fd, p).mtu
  {
    hide AddressOf;
    hide UserAddress;
    hide PutService;
    hide Sized;
    SizedSame(fd);
    forall f: FrameInfo, g: Fd | f.payload == [] && Sized(g)
      ensures Sized(PutService(g, f)) && PutService(g, f).mtu == g.mtu
    {
      PutServiceSized(g, f);
    }
  }

  lemma SizedSame(fd: Fd)
    requires Sized(fd)
    ensures forall g: Fd :: g.iq == fd.iq && g.sq == fd.sq && g.mtu == fd.mtu ==> Sized(g)
  {}

  lemma OnFrameSized(fd: Fd, data: seq<byte>)
    requires fd.Valid() && Sized(fd)
    ensures Sized(OnFrame(fd, data)) && OnFrame(fd, data).mtu == fd.mtu
  {
    hide Fd.Valid;
    hide Sized;
    hide PutService;
    hide SwitchToConnected;
    hide SwitchToDisconnected;
    hide Confirm;
    hide Accept;
    hide Refuse;
    hide AddressToPeer;
    hide AddressOf;
    hide IsU;
    hide IsI;
    hide IsS;
    ShapeOf(fd);
    if |data| >= 2 && AddressToPeer(fd.peers, fd.localAddr, data[0]) < |fd.peers| {
      var p := AddressToPeer(fd.peers, fd.localAddr, data[0]);
      var c, u := data[1], PutU(fd, p, UA_CONTROL);
      PutServiceSized(fd, ServiceFrame(UFrame, AddressOf(fd, p), UA_CONTROL));
      PutServiceSized(fd, ServiceFrame(UFrame, AddressOf(fd, p), DM_CONTROL));
      PutServiceOnly(fd, ServiceFrame(UFrame, AddressOf(fd, p), UA_CONTROL));
      SwitchSized(fd, p);
      SwitchSized(u, p);
      CtlOk(fd, p);
      ConfirmSized(fd, p, LowSeq(c));
      ConfirmSized(fd, p, HighSeq(c));
      AnswerSized(Confirm(fd, p, LowSeq(c)), p, data[2..]);
      SizedSame(Confirm(fd, p, HighSeq(c)));
    }
  }

  lemma TimeoutSized(fd: Fd, p: nat, frameDue: bool, iDue: bool)
    requires Sized(fd) && p < |fd.peers|
    ensures Sized(TimeoutPeer(fd, p, frameDue, iDue)) && TimeoutPeer(fd, p, frameDue, iDue).mtu == fd.mtu
  {
    hide Sized;
    hide PutService;
    hide SwitchToDisconnected;
    hide AddressOf;
    SizedSame(fd);
    SwitchSized(fd, p);
    forall g: Fd | Sized(g) && |g.peers| == |fd.peers|
      ensures Sized(PutU(g, p, SABM_CONTROL)) && PutU(g, p, SABM_CONTROL).mtu == g.mtu
    {
      PutServiceSized(g, ServiceFrame(UFrame, AddressOf(g, p), SABM_CONTROL));
    }
    PutServiceOnly(fd, ServiceFrame(UFrame, AddressOf(fd, p), SABM_CONTROL));
    SizedSame(PutU(fd, p, SABM_CONTROL));
  }

  lemma {:induction false} TimeoutsSized(fd: Fd, frameDue: seq<bool>, iDue: seq<bool>, k: nat)
    requires Sized(fd) && k <= |fd.peers| && |frameDue| == |iDue| == |fd.peers|
    ensures Sized(Timeouts(fd, frameDue, iDue, k)) && Timeouts(fd, frameDue, iDue, k).mtu == fd.mtu
  {
    hide Sized;
    hide TimeoutPeer;
    if k > 0 {
      TimeoutsSized(fd, frameDue, iDue, k - 1);
      TimeoutSized(Timeouts(fd, frameDue, iDue, k - 1), k - 1, frameDue[k - 1], iDue[k - 1]);
    }
  }

  /** The frame handed to the codec is within the limit. */
  lemma GenerateSized(fd: Fd)
    requires Sized(fd)
    ensures Sized(Generate(fd).0) && Generate(fd).0.mtu == fd.mtu
    ensures Generate(fd).1.Some? ==> Fits(fd.mtu, Generate(fd).1.value)
  {
    hide Find;
    hide FirstOccupied;
    hide AddressOf;
  }

  /**
   So every frame a codec has taken is within the limit: one more call for transmission
   keeps that, whatever the timers do.
   */
  lemma RoundSized(fd: Fd, frameDue: seq<bool>, iDue: seq<bool>, busy: bool)
    requires Sized(fd) && |frameDue| == |iDue| == |fd.peers|
    ensures var (next, frame) := TinyFd.TinyFd.TxRound(fd, frameDue, iDue, busy);
      Sized(next) && next.mtu == fd.mtu && (frame.Some? ==> Fits(fd.mtu, frame.value))
  {
    hide Sized;
    hide Generate;
    hide Timeouts;
    TimeoutsSized(fd, frameDue, iDue, |frameDue|);
    GenerateSized(Timeouts(fd, frameDue, iDue, |frameDue|));
  }

  // ----- What the peer decodes -----

  /**
   The link carries whole frames in order: whatever part of a station's output has
   reached the peer's decoder, what has come out is a prefix of the frames the station
   handed over, with no error; and all of them once nothing is owed.
   */
  lemma LinkIsFifo(t: CrcType, mtu: nat, taken: seq<seq<byte>>, wire: seq<byte>, pending: seq<byte>, arrived: seq<byte>)
    requires forall f :: f in taken ==> Fits(mtu, f)
    requires wire + pending == EncodeAll(t, taken) && arrived <= wire
    ensures var run := RxFold(t, mtu + 2 + FieldSize(t), Idle, arrived);
      && Payloads(run.events) <= taken && BadCrc !in run.events
      && (pending == [] && arrived == wire ==> Payloads(run.events) == taken)
  {
    hide RxFold;
    hide EncodeAll;
    hide Payloads;
    var size := mtu + 2 + FieldSize(t);
    assert arrived <= EncodeAll(t, taken);
    PrefixRoundTrip(t, size, taken, arrived);
    StreamRoundTrip(t, size, Idle, taken);
    var run := RxFold(t, size, Idle, arrived);
    var n := |run.events|;
    assert run.events == Frames(taken)[..n] == Frames(taken[..n]);
    PayloadsOfFrames(taken[..n]);
    PayloadsOfFrames(taken);
    assert pending == [] ==> wire + pending == wire;
  }

  // ----- How sessions start -----

  /** A station as its configuration makes it, with nothing remembered. */
  ghost predicate Configured(x: Session.Station, config: TinyFd.TinyFdConfig)
    requires config.peersCount <= 255
  {
    TinyFd.TinyFd.Initial(x.fd, config) && x.conf == 0 && x.sent == [] && |x.slotAck| == U_QUEUE_MAX_SIZE
  }

  /** A primary for one peer and the secondary numbered 1 are two stations the session theorems speak of. */
  lemma ConfiguredInit(s: Session.Session, primary: TinyFd.TinyFdConfig, secondary: TinyFd.TinyFdConfig)
    requires primary.addr == 0 && primary.peersCount <= 1 && 1 <= primary.windowFrames <= 7
    requires secondary.addr == 1 && secondary.peersCount <= 255 && 1 <= secondary.windowFrames <= 7
    requires Configured(s.a, primary) && Configured(s.b, secondary) && s.ab == s.ba == [] && !s.over
    ensures Session.Init(s) && Sized(s.a.fd) && Sized(s.b.fd)
  {
    TinyFd.TinyFd.InitialValid(s.a.fd, primary);
    TinyFd.TinyFd.InitialValid(s.b.fd, secondary);
    assert StationAddress(1) == 5 && IsPrimaryAddress(1) && !IsPrimaryAddress(5) && NoCr(1) == 1 && NoCr(5) == 5;
    assert FindPeer(s.a.fd.peers, 5, 0) == 0;
    assert Session.Fresh(s.a, 5, Disconnected) && Session.Fresh(s.b, 5, Disconnected);
  }
}
