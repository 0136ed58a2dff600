/**
 A packet handed over before there is a connection: it is accepted, the connection resets
 the counters under it, and it then goes out in place of the first packet handed over
 afterwards. This is why a session's users send only while connected.
 */
module EarlyPackets {
  import opened Base
  import opened SeqNum
  import opened FdDefs
  import opened IQueueControl
  import opened FrameQueue
  import opened FdSpec
  import opened Window
  import opened Isolation
  import opened Reactions
  import opened Recovery
  import opened StationRun
  import TinyFd

  lemma RunOne(fd: Fd, op: Op)
    requires fd.Valid() && Fits(op, |fd.peers|)
    ensures Run(fd, [op]) == Do(fd, op)
  {
    hide Fd.Valid;
    hide Do;
    assert [op][..0] == [];
  }

  // ----- Accepted before the connection -----

  /** A packet may be handed over before there is a connection. */
  lemma EarlyAccepted(fd: Fd, config: TinyFd.TinyFdConfig, data: seq<byte>) returns (ready: Fd)
    requires Start(fd, config) && fd.Valid() && |fd.peers| == 1 && |data| <= fd.mtu
    ensures ready == SendPacket(fd, FD_PRIMARY_ADDR, data).0 && SendPacket(fd, FD_PRIMARY_ADDR, data).1.Ok?
    ensures |ready.peers| == 1 && PeerAgrees(ready, 0, 0, [data]) && ready.peers[0].state == Disconnected
    ensures ready.localAddr == fd.localAddr && ready.peers[0].addr == fd.peers[0].addr && ready.Valid()
  {
    hide NoCr;
    hide Rotated;
    hide IControl;
    hide Agrees;
    hide NewPeers;
    assert Seq(0) == 0 && Succ(0) == 1;
    hide Seq;
    hide Succ;
    OneAddress(fd, config);
    StartValid(fd, config);
    SendPacketValid(fd, FD_PRIMARY_ADDR, data);
    FindFreeComplete(fd.iq.slots, fd.iq.lookup, 0);
    FreshCounters(fd, config);
    NothingMine(fd.iq.slots, AddressOf(fd, 0));
    PutIPeer(fd, 0, data, 0, []);
    ready := SendPacket(fd, FD_PRIMARY_ADDR, data).0;
    assert [] + [data] == [data];
    SameWindow(PutI(fd, 0, data).0, ready, 0, 0, [data]);
  }

  lemma FreshCounters(fd: Fd, config: TinyFd.TinyFdConfig)
    requires Start(fd, config) && |fd.peers| == 1
    ensures fd.peers[0].ctl == CTL_ZERO && fd.iq.slots[0].None?
  {
    hide StationAddress;
  }

  /** But the connection then resets the counters under the queued frame, and no history explains the two. */
  lemma EarlyPacket(fd: Fd, config: TinyFd.TinyFdConfig, data: seq<byte>)
    requires Start(fd, config) && fd.Valid() && |fd.peers| == 1 && |data| <= fd.mtu
    ensures var a := AddressOf(fd, 0);
      var ready := Run(fd, [Send(FD_PRIMARY_ADDR, data)]);
      var after := OnFrame(ready, [a, SABM_CONTROL]);
      && |ready.peers| == 1 && PeerAgrees(ready, 0, 0, [data]) && !Tame(ready, [a, SABM_CONTROL], 0)
      && |after.peers| == 1 && after.peers[0].state == Connected && !Explained(after, 0)
  {
    hide NoCr;
    hide PeerAgrees;
    hide Explained;
    hide OnFrame;
    hide Start;
    hide SendPacket;
    hide Fd.Valid;
    hide AddressToPeer;
    var a := AddressOf(fd, 0);
    RunOne(fd, Send(FD_PRIMARY_ADDR, data));
    var ready := EarlyAccepted(fd, config, data);
    OneAddress(fd, config);
    SameAddress(fd, ready);
    UControlRoundTrip();
    CountersTell(ready, 0, 0, [data]);
    TameIff(ready, 0, [a, SABM_CONTROL], 0, [data]);
    hide Joins;
    RequestJoins(ready, [a, SABM_CONTROL], 0);
    JoinsConnects(ready, OnFrame(ready, [a, SABM_CONTROL]));
  }

  lemma JoinsConnects(fd: Fd, after: Fd)
    requires |fd.peers| == 1 && Joins(fd, after, 0)
    ensures |after.peers| == 1 && after.peers[0].state == Connected
  {
    hide UserAddress;
  }

  // ----- What goes out -----

  /** The I-frame under number 0 that a station with one peer queues first. */
  function FirstFrame(fd: Fd, data: seq<byte>): Slot
    requires |fd.peers| == 1
  {
    Some(FrameInfo(IFrame, FrameHeader(AddressOf(fd, 0), IControl(0, 0)), data))
  }

  lemma SlotZero(slots: seq<Slot>)
    requires |slots| >= 2 && slots[0].None? && slots[1].None?
    ensures FindFree(slots, 0, 0) == Some(0) && FindFree(slots, 1, 0) == Some(1) && Rotated(0, 1, |slots|) == 1
  {
    assert Rotated(0, 0, |slots|) == 0 && Rotated(1, 0, |slots|) == 1;
  }

  lemma EarlyQueued(fd: Fd, data: seq<byte>, j: nat)
    requires fd.Valid() && |fd.peers| == 1 && fd.peers[0].ctl == CTL_ZERO && fd.freeSlots && |data| <= fd.mtu
    requires j < 2 <= |fd.iq.slots| && fd.iq.lookup == j && fd.iq.slots[1].None? && fd.iq.slots[j].None?
    ensures var (after, r) := SendPacket(fd, FD_PRIMARY_ADDR, data);
      && r.Ok? && after.iq.slots == fd.iq.slots[j := FirstFrame(fd, data)] && (j == 0 ==> after.iq.lookup == 1)
      && after.peers == [fd.peers[0].(ctl := Ctl(0, 0, 1, 0))] && after.sq == fd.sq
      && after.localAddr == fd.localAddr && after.mtu == fd.mtu && after.maxRetries == fd.maxRetries
  {
    hide AddressOf;
    hide IControl;
    assert Succ(0) == 1;
    hide Succ;
    hide Rotated;
    var n := |fd.iq.slots|;
    RotatedValue(j, 0, n);
    RotatedValue(j, 1, n);
    assert FindFree(fd.iq.slots, j, 0) == Some(j);
  }

  /** The connection comes while the early packet is queued. */
  lemma EarlyJoined(ready: Fd, a: byte) returns (up: Fd)
    requires ready.Valid() && |ready.peers| == 1 && ready.peers[0].state == Disconnected && AddressOf(ready, 0) == a
    requires AddressToPeer(ready.peers, ready.localAddr, a) == 0
    requires ready.sq.slots == [None, None, None, None] && ready.sq.lookup == 0
    requires HasFree(ready.iq.slots)
    ensures up == OnFrame(ready, [a, SABM_CONTROL]) && up.Valid()
    ensures up.iq == ready.iq && up.freeSlots && up.mtu == ready.mtu && up.localAddr == ready.localAddr
    ensures up.peers == [Peer(Connected, ready.peers[0].addr, 0, false, CTL_ZERO, ready.maxRetries)]
    ensures up.sq.slots == [Some(ServiceFrame(UFrame, a, UA_CONTROL)), None, None, None]
  {
    hide AddressOf;
    hide AddressToPeer;
    hide Fd.Valid;
    UControlRoundTrip();
    up := OnFrame(ready, [a, SABM_CONTROL]);
    OnFrameValid(ready, [a, SABM_CONTROL]);
    SlotZero(ready.sq.slots);
    var asked := PutU(ready, 0, UA_CONTROL);
    assert up == SwitchToConnected(asked, 0);
  }

  /**
   And worse: of a packet handed over before the connection and one handed over after it,
   the first goes out, under the number that the second was given, and then nothing more.
   */
  lemma EarlyPacketReplaces(fd: Fd, config: TinyFd.TinyFdConfig, early: seq<byte>, late: seq<byte>)
    requires Start(fd, config) && fd.Valid() && |fd.peers| == 1 && config.windowFrames >= 2
    requires |early| <= fd.mtu && |late| <= fd.mtu
    ensures var a := AddressOf(fd, 0);
      var up := OnFrame(SendPacket(fd, FD_PRIMARY_ADDR, early).0, [a, SABM_CONTROL]);
      && up.Valid() && |up.peers| == 1 && up.peers[0].state == Connected
      && SendPacket(up, FD_PRIMARY_ADDR, late).1.Ok?
      && Outputs(SendPacket(up, FD_PRIMARY_ADDR, late).0, 3) == [[a, UA_CONTROL], [a, IControl(0, 0)] + early]
  {
    hide StationAddress;
    hide AddressOf;
    hide AddressToPeer;
    hide OnFrame;
    hide SendPacket;
    hide Outputs;
    hide IControl;
    hide FindFree;
    hide Fd.Valid;
    var a := AddressOf(fd, 0);
    OneAddress(fd, config);
    FreshCounters(fd, config);
    EarlyQueued(fd, early, 0);
    SendPacketValid(fd, FD_PRIMARY_ADDR, early);
    var ready := SendPacket(fd, FD_PRIMARY_ADDR, early).0;
    SameAddress(fd, ready);
    assert ready.sq.slots == [None, None, None, None];
    assert ready.iq.slots[1].None?;
    var up := EarlyJoined(ready, a);
    SameAddress(ready, up);
    EarlyQueued(up, late, 1);
    var both := SendPacket(up, FD_PRIMARY_ADDR, late).0;
    SameAddress(up, both);
    EarlyGoes(both, a, early);
  }

  lemma EarlyGoes(fd: Fd, a: byte, early: seq<byte>)
    requires |fd.peers| == 1 && fd.peers[0].state == Connected && fd.peers[0].ctl == Ctl(0, 0, 1, 0)
    requires AddressOf(fd, 0) == a && |fd.iq.slots| > 0 && fd.iq.slots[0] == FirstFrame(fd, early)
    requires fd.sq.slots == [Some(ServiceFrame(UFrame, a, UA_CONTROL)), None, None, None]
    ensures Outputs(fd, 3) == [[a, UA_CONTROL], [a, IControl(0, 0)] + early]
  {
    hide Outputs;
    hide IControl;
    hide NoCr;
    hide Generate;
    assert Succ(0) == 1;
    hide Succ;
    var first, next := Generate(fd).0, Flushed(fd);
    UaGoes(fd, a);
    OutputsOne(fd, next, [a, UA_CONTROL], 2);
    DataGoes(next, a, early);
    OutputsOne(next, Advance(next, 0), [a, IControl(0, 0)] + early, 1);
    NothingMore(Advance(next, 0));
  }

  lemma UaGoes(fd: Fd, a: byte)
    requires fd.sq.slots == [Some(ServiceFrame(UFrame, a, UA_CONTROL)), None, None, None]
    ensures Generate(fd) == (Flushed(fd), Some([a, UA_CONTROL]))
  {
    hide FirstEligible;
    hide NextIFrame;
    assert Flushed(fd).sq.slots == fd.sq.slots[0 := None];
    assert ServiceFrame(UFrame, a, UA_CONTROL).ToBytes() == [a, UA_CONTROL];
  }

  lemma DataGoes(fd: Fd, a: byte, early: seq<byte>)
    requires |fd.peers| == 1 && fd.peers[0].state == Connected && fd.peers[0].ctl == Ctl(0, 0, 1, 0)
    requires AddressOf(fd, 0) == a && |fd.iq.slots| > 0 && fd.iq.slots[0] == FirstFrame(fd, early)
    requires forall k :: 0 <= k < |fd.sq.slots| ==> fd.sq.slots[k].None?
    ensures Generate(fd) == (Advance(fd, 0), Some([a, IControl(0, 0)] + early))
  {
    hide AddressOf;
    FirstIsNone(fd.sq.slots, 0);
    ControlRoundTrip(0, 0);
    hide IControl;
    hide HighSeq;
    assert Matches(fd.iq.slots[0], IFrame, a, 0);
    assert Find(fd.iq.slots, IFrame, a, 0, 0) == Some(0);
    assert FirstEligible(fd, 0) == Some(0);
    var data := fd.iq.slots[0].value.ToBytes();
    assert data[1 := IControl(0, 0)] == [a, IControl(0, 0)] + early;
  }

  lemma NothingMore(fd: Fd)
    requires |fd.peers| == 1 && fd.peers[0].ctl.AllSent()
    requires forall k :: 0 <= k < |fd.sq.slots| ==> fd.sq.slots[k].None?
    ensures Outputs(fd, 1) == []
  {
    hide AddressOf;
    FirstIsNone(fd.sq.slots, 0);
    assert FirstEligible(fd, 0) == FirstEligible(fd, 1) == None;
  }
}
