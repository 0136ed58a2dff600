/**
 Who is meant: in every state of a configured station, what send_packet makes of any
 address, which secondary takes the frame, and under which number a user is told of it.
 */
module Addressing {
  import opened Base
  import opened SeqNum
  import opened FdDefs
  import opened IQueueControl
  import opened FrameQueue
  import opened FdSpec
  import opened Window
  import opened Isolation
  import opened Reactions
  import opened Recovery
  import opened StationRun
  import TinyFd

  // ----- Names -----

  /** The number of a primary's peer q. */
  function PeerNumber(q: nat): byte
    requires q < 255
  {
    q as bv8 + 1
  }

  /** What the six bits of an address field keep of a number. */
  function SixBits(number: byte): byte {
    number & 0x3f
  }

  lemma FieldFacts(a: byte, b: byte)
    ensures NoCr(StationAddress(a)) == StationAddress(a)
    ensures StationAddress(a) == StationAddress(b) <==> SixBits(a) == SixBits(b)
    ensures StationAddress(a) >> 2 == SixBits(a)
    ensures IsPrimaryAddress(StationAddress(a)) <==> SixBits(a) == 0
  {}

  lemma SixBitsSmall(a: byte)
    ensures Number(a) < 64 ==> SixBits(a) == a
  {}

  lemma SameNumber(a: byte, b: byte)
    ensures Number(a) == Number(b) <==> a == b
  {}

  lemma OctetOf(q: nat)
    requires q < 256
    ensures Number(q as bv8) == q
  {}

  lemma PeerNumberIs(q: nat)
    requires q < 255
    ensures Number(PeerNumber(q)) == q + 1
  {
    hide Number;
    OctetOf(q);
    PlusOne(q as bv8);
  }

  /** A primary: its peers are the secondaries numbered from 1. */
  ghost predicate Primary(fd: Fd) {
    && fd.Valid() && IsPrimaryAddress(fd.localAddr)
    && forall q :: 0 <= q < |fd.peers| ==> fd.peers[q].addr == StationAddress(PeerNumber(q))
  }

  /** The secondary with this number. */
  predicate Secondary(fd: Fd, m: byte) {
    && fd.Valid() && 1 <= Number(m) <= 63 && fd.localAddr == StationAddress(m)
    && |fd.peers| == 1 && IsPrimaryAddress(fd.peers[0].addr)
  }

  predicate SameNames(fd: Fd, after: Fd) {
    && |after.peers| == |fd.peers| && after.localAddr == fd.localAddr
    && forall q :: 0 <= q < |fd.peers| ==> after.peers[q].addr == fd.peers[q].addr
  }

  lemma DoKeepsNames(fd: Fd, op: Op)
    requires fd.Valid() && Fits(op, |fd.peers|)
    ensures SameNames(fd, Do(fd, op))
  {
    hide Fd.Valid;
    hide Eligible;
    hide NextIFrame;
    hide FindFree;
    hide OnFrame;
    hide TimeoutPeer;
    hide AddressOf;
    hide SendTarget;
    hide FirstOccupied;
    hide Succ;
    match op
    case Send(address, data) =>
    case Frame(bytes) => FrameTouchesOnePeer(fd, bytes);
    case Timers(frameDue, iDue) => TimeoutsKeepNames(fd, frameDue, iDue, |frameDue|);
    case Transmit =>
    case Hangup => ShapeOf(fd);
  }

  lemma {:induction false} TimeoutsKeepNames(fd: Fd, frameDue: seq<bool>, iDue: seq<bool>, k: nat)
    requires fd.Valid() && k <= |fd.peers| && |frameDue| == |iDue| == |fd.peers|
    ensures SameNames(fd, Timeouts(fd, frameDue, iDue, k))
  {
    hide Fd.Valid;
    hide TimeoutPeer;
    if k > 0 {
      TimeoutsKeepNames(fd, frameDue, iDue, k - 1);
      TimeoutsValid(fd, frameDue, iDue, k - 1);
      TimeoutOnly(Timeouts(fd, frameDue, iDue, k - 1), k - 1, frameDue[k - 1], iDue[k - 1]);
    }
  }

  lemma {:induction false} RunKeepsNames(fd: Fd, ops: seq<Op>)
    requires fd.Valid() && AllFit(ops, |fd.peers|)
    ensures SameNames(fd, Run(fd, ops))
  {
    hide Fd.Valid;
    hide Do;
    if ops != [] {
      var n := |ops| - 1;
      RunKeepsNames(fd, ops[..n]);
      DoKeepsNames(Run(fd, ops[..n]), ops[n]);
    }
  }

  /** Whatever happens to a station as configured, it and its peers keep their names. */
  lemma NamesInEveryState(fd: Fd, config: TinyFd.TinyFdConfig, ops: seq<Op>)
    requires Start(fd, config) && fd.Valid() && AllFit(ops, |fd.peers|)
    ensures config.addr == 0 ==>
      Primary(Run(fd, ops)) && |Run(fd, ops).peers| == if config.peersCount > 1 then config.peersCount else 1
    ensures 1 <= Number(config.addr) <= 63 ==> Secondary(Run(fd, ops), config.addr)
  {
    hide Run;
    hide Number;
    RunKeepsNames(fd, ops);
    NamesAtStart(fd, config);
  }

  lemma NamesAtStart(fd: Fd, config: TinyFd.TinyFdConfig)
    requires Start(fd, config) && fd.Valid()
    ensures config.addr == 0 ==>
      Primary(fd) && |fd.peers| == if config.peersCount > 1 then config.peersCount else 1
    ensures 1 <= Number(config.addr) <= 63 ==> Secondary(fd, config.addr)
  {
    hide StationAddress;
    hide Number;
    FieldFacts(config.addr, config.addr);
    SixBitsSmall(config.addr);
    ZeroNumber(config.addr);
  }

  /** A station takes itself for a primary when its number is a multiple of 64. */
  lemma RoleIff(fd: Fd, config: TinyFd.TinyFdConfig)
    requires Start(fd, config)
    ensures IsPrimaryAddress(fd.localAddr) <==> SixBits(config.addr) == 0
  {
    FieldFacts(config.addr, config.addr);
    ZeroBits();
  }

  lemma ZeroNumber(a: byte)
    ensures Number(a) == 0 <==> a == 0
  {
    SameNumber(a, 0);
  }

  // ----- Sending -----

  /** The lookup finds the first peer with this address field, if there is one. */
  lemma {:induction false} FindPeerLeast(peers: seq<Peer>, field: byte, i: nat)
    requires i <= |peers| <= 255
    ensures var p := FindPeer(peers, field, i);
      && (p == HDLC_INVALID_PEER_INDEX <==> forall q :: i <= q < |peers| ==> NoCr(peers[q].addr) != field)
      && (p < |peers| ==> NoCr(peers[p].addr) == field && forall q :: i <= q < p ==> NoCr(peers[q].addr) != field)
    decreases |peers| - i
  {
    hide NoCr;
    if i < |peers| && NoCr(peers[i].addr) != field {
      FindPeerLeast(peers, field, i + 1);
    }
  }

  /** Some peer has this number, as far as six bits tell. */
  ghost predicate Known(fd: Fd, number: byte)
    requires fd.Valid()
  {
    exists q :: 0 <= q < |fd.peers| && SixBits(PeerNumber(q)) == SixBits(number)
  }

  /** The field of a number denotes the first peer with that number. */
  lemma FieldDenotes(fd: Fd, number: byte)
    requires Primary(fd)
    ensures var p := AddressToPeer(fd.peers, fd.localAddr, StationAddress(number));
      && (p == HDLC_INVALID_PEER_INDEX <==> !Known(fd, number))
      && (p < |fd.peers| ==>
            && SixBits(PeerNumber(p)) == SixBits(number)
            && forall q :: 0 <= q < p ==> SixBits(PeerNumber(q)) != SixBits(number))
  {
    hide NoCr;
    hide StationAddress;
    hide SixBits;
    hide PeerNumber;
    FieldFacts(number, number);
    forall q | 0 <= q < |fd.peers|
      ensures NoCr(fd.peers[q].addr) == StationAddress(number) <==> SixBits(PeerNumber(q)) == SixBits(number)
    {
      FieldFacts(PeerNumber(q), number);
    }
    FindPeerLeast(fd.peers, StationAddress(number), 0);
  }

  /** Numbers from 1 to 63 are taken literally. */
  lemma NumberDenotes(fd: Fd, number: byte)
    requires Primary(fd) && 1 <= Number(number) <= 63
    ensures Known(fd, number) <==> Number(number) <= |fd.peers|
    ensures Number(number) <= |fd.peers| ==>
      AddressToPeer(fd.peers, fd.localAddr, StationAddress(number)) == Number(number) - 1
  {
    hide NoCr;
    hide StationAddress;
    hide SixBits;
    hide PeerNumber;
    hide Number;
    hide AddressToPeer;
    hide IsPrimaryAddress;
    FieldDenotes(fd, number);
    SixBitsSmall(number);
    forall q | 0 <= q < |fd.peers| && q < 63
      ensures SixBits(PeerNumber(q)) == SixBits(number) <==> q + 1 == Number(number)
    {
      PeerNumberIs(q);
      SixBitsSmall(PeerNumber(q));
      SameNumber(PeerNumber(q), number);
    }
    var n := Number(number) - 1;
    var p := AddressToPeer(fd.peers, fd.localAddr, StationAddress(number));
    if n < |fd.peers| {
      assert SixBits(PeerNumber(n)) == SixBits(number);
      assert p <= n && SixBits(PeerNumber(p)) == SixBits(number);
    }
  }

  /** One more I-frame under this address field is queued for peer p, and nothing else changed. */
  ghost predicate QueuesFor(fd: Fd, after: Fd, p: nat, field: byte, data: seq<byte>)
    requires p < |fd.peers|
  {
    var c := fd.peers[p].ctl;
    var slot := Some(FrameInfo(IFrame, FrameHeader(field, IControl(c.lastNs, c.nextNr)), data));
    && (exists j :: 0 <= j < |fd.iq.slots| && fd.iq.slots[j].None? && after.iq.slots == fd.iq.slots[j := slot])
    && after.peers == fd.peers[p := fd.peers[p].(ctl := c.(lastNs := Succ(c.lastNs)))]
    && after.sq == fd.sq && after.delivered == fd.delivered && after.connects == fd.connects
    && SettingsSame(fd, after) && after.txAvailable && after.freeSlots == HasFree(after.iq.slots)
  }

  /** What becomes of a packet of any size for peer p, whose address field this is. */
  ghost predicate SendsTo(fd: Fd, after: Fd, r: Result<Unit>, p: nat, field: byte, data: seq<byte>)
    requires p < |fd.peers|
  {
    && r == (if |data| > fd.mtu then Err(DataTooLarge) else if !fd.freeSlots then Err(Timeout)
             else if fd.peers[p].ctl.TxFull() || !HasFree(fd.iq.slots) then Err(Busy) else Ok(Unit))
    && (r.Ok? ==> QueuesFor(fd, after, p, field, data))
    && (r.Err? ==> after == fd)
  }

  lemma PutIQueues(fd: Fd, p: nat, data: seq<byte>)
    requires fd.Valid() && p < |fd.peers|
    ensures var (next, r) := PutI(fd, p, data);
      && r == (if fd.peers[p].ctl.TxFull() || !HasFree(fd.iq.slots) then Err(Busy) else Ok(Unit))
      && (r.Err? ==> next == fd)
      && (r.Ok? ==>
            var after := next.(txAvailable := true, freeSlots := HasFree(next.iq.slots));
            QueuesFor(fd, after, p, AddressOf(fd, p), data))
  {
    hide Succ;
    hide IControl;
    hide AddressOf;
    hide Rotated;
    FindFreeComplete(fd.iq.slots, fd.iq.lookup, 0);
  }

  lemma SendToTarget(fd: Fd, address: byte, data: seq<byte>)
    requires fd.Valid() && SendTarget(fd, address) < |fd.peers|
    ensures var (after, r) := SendPacket(fd, address, data);
      SendsTo(fd, after, r, SendTarget(fd, address), AddressOf(fd, SendTarget(fd, address)), data)
  {
    hide PutI;
    hide QueuesFor;
    hide SendTarget;
    hide AddressOf;
    hide HasFree;
    hide Ctl.TxFull;
    hide Fd.Valid;
    ShapeOf(fd);
    PutIQueues(fd, SendTarget(fd, address), data);
  }

  lemma FieldOf(fd: Fd, p: nat)
    requires Primary(fd) && p < |fd.peers|
    ensures AddressOf(fd, p) == StationAddress(PeerNumber(p))
  {
    hide StationAddress;
    FieldFacts(PeerNumber(p), PeerNumber(p));
  }

  /**
   A primary with at most 63 peers, told to send to number i + 1: the packet is queued once,
   addressed to that secondary, and for no other peer does anything change.
   */
  lemma SendToNumber(fd: Fd, i: nat, data: seq<byte>)
    requires Primary(fd) && i < |fd.peers| <= 63
    ensures var (after, r) := SendPacket(fd, PeerNumber(i), data);
      SendsTo(fd, after, r, i, StationAddress(PeerNumber(i)), data)
  {
    hide AddressToPeer;
    hide StationAddress;
    hide PeerNumber;
    hide Number;
    hide SendPacket;
    hide SendsTo;
    hide AddressOf;
    hide IsPrimaryAddress;
    PeerNumberIs(i);
    NumberDenotes(fd, PeerNumber(i));
    ZeroNumber(PeerNumber(i));
    FieldOf(fd, i);
    SendToTarget(fd, PeerNumber(i), data);
  }

  /** Number 0 stands for the first peer. */
  lemma SendToDefault(fd: Fd, data: seq<byte>)
    requires Primary(fd)
    ensures var (after, r) := SendPacket(fd, 0, data);
      SendsTo(fd, after, r, 0, StationAddress(1), data)
  {
    hide AddressToPeer;
    hide StationAddress;
    hide SendPacket;
    hide SendsTo;
    hide AddressOf;
    hide IsPrimaryAddress;
    FieldOf(fd, 0);
    SendToTarget(fd, 0, data);
  }

  /** For any address whatever: the packet is refused as addressed to nobody exactly when nobody has the number. */
  lemma UnknownIff(fd: Fd, number: byte, data: seq<byte>)
    requires Primary(fd)
    ensures var (after, r) := SendPacket(fd, number, data);
      && (r == Err(UnknownPeer) <==> |data| <= fd.mtu && number != 0 && !Known(fd, number))
      && (r == Err(UnknownPeer) ==> after == fd)
      && (1 <= Number(number) <= 63 ==> (r == Err(UnknownPeer) <==> |data| <= fd.mtu && Number(number) > |fd.peers|))
  {
    hide AddressToPeer;
    hide StationAddress;
    hide PutI;
    hide Number;
    hide AddressOf;
    hide IsPrimaryAddress;
    hide Known;
    FieldDenotes(fd, number);
    ZeroNumber(number);
    if 1 <= Number(number) <= 63 {
      NumberDenotes(fd, number);
    }
    if SendTarget(fd, number) < |fd.peers| {
      PutIQueues(fd, SendTarget(fd, number), data);
    }
  }

  /** A secondary sends to the primary under its own field, whether told 0 or its own number; all else is unknown. */
  lemma SecondarySends(fd: Fd, m: byte, number: byte, data: seq<byte>)
    requires Secondary(fd, m)
    ensures var (after, r) := SendPacket(fd, number, data);
      if SixBits(number) == 0 || SixBits(number) == SixBits(m) then SendsTo(fd, after, r, 0, StationAddress(m), data)
      else after == fd && r == if |data| > fd.mtu then Err(DataTooLarge) else Err(UnknownPeer)
  {
    hide StationAddress;
    hide PutI;
    hide Number;
    hide QueuesFor;
    hide SixBits;
    SecondaryFacts(m);
    FieldFacts(number, m);
    hide NoCr;
    hide IsPrimaryAddress;
    ZeroBits();
    assert AddressOf(fd, 0) == StationAddress(m);
    if SendTarget(fd, number) < |fd.peers| {
      SendToTarget(fd, number, data);
    }
  }

  lemma ZeroBits()
    ensures SixBits(0) == 0
  {}

  lemma SecondaryFacts(m: byte)
    requires 1 <= Number(m) <= 63
    ensures SixBits(m) == m && m != 0 && !IsPrimaryAddress(StationAddress(m))
    ensures NoCr(StationAddress(m)) == StationAddress(m)
    ensures StationAddress(m) >> 2 == m
  {
    hide StationAddress;
    hide Number;
    FieldFacts(m, m);
    SixBitsSmall(m);
    ZeroNumber(m);
  }

  // ----- Receiving -----

  /** Users are told the peer's number at a primary, and 0 at a secondary. */
  lemma UserNumbers(fd: Fd, p: nat)
    requires fd.Valid() && p < |fd.peers|
    ensures Primary(fd) ==> UserAddress(fd, p) == SixBits(PeerNumber(p))
    ensures Primary(fd) && p < 63 ==> UserAddress(fd, p) == PeerNumber(p)
    ensures forall m :: Secondary(fd, m) ==> UserAddress(fd, p) == 0
  {
    hide StationAddress;
    hide PeerNumber;
    hide SixBits;
    hide Number;
    if Primary(fd) {
      FieldOf(fd, p);
      FieldFacts(PeerNumber(p), PeerNumber(p));
      PeerNumberIs(p);
      SixBitsSmall(PeerNumber(p));
    }
    forall m | Secondary(fd, m) ensures UserAddress(fd, p) == 0 {
      SecondaryFacts(m);
    }
  }

  /** A secondary takes frames with its own field; a frame for another secondary is nobody's. */
  lemma OwnFieldOnly(fd: Fd, m: byte, n: byte, bytes: seq<byte>)
    requires Secondary(fd, m) && 1 <= Number(n) <= 63 && |bytes| >= 2 && bytes[0] == StationAddress(n)
    ensures FramePeer(fd, bytes) == if n == m then 0 else HDLC_INVALID_PEER_INDEX
    ensures n != m ==> OnFrame(fd, bytes) == fd
  {
    hide StationAddress;
    hide Number;
    SecondaryFacts(m);
    SecondaryFacts(n);
    FieldFacts(m, n);
    hide NoCr;
    hide SixBits;
    OthersDeaf(fd, bytes);
  }

  lemma OthersDeaf(fd: Fd, bytes: seq<byte>)
    requires fd.Valid()
    ensures FramePeer(fd, bytes) == HDLC_INVALID_PEER_INDEX ==> OnFrame(fd, bytes) == fd
  {
    hide AddressToPeer;
  }

  /** A primary takes a secondary's frames as those of the peer with that number. */
  lemma PeersField(fd: Fd, m: byte, bytes: seq<byte>)
    requires Primary(fd) && 1 <= Number(m) <= 63 && Number(m) <= |fd.peers|
    requires |bytes| >= 2 && bytes[0] == StationAddress(m)
    ensures FramePeer(fd, bytes) == Number(m) - 1
  {
    hide StationAddress;
    hide Number;
    hide AddressToPeer;
    NumberDenotes(fd, m);
  }

  // ----- From user to user -----

  /** The station has sent all it accepted for p, nothing waits, and nobody before p has anything to send. */
  ghost predicate AtRest(fd: Fd, p: nat, c: nat, log: Log)
    requires p < |fd.peers|
  {
    SendsNext(fd, p, c, |log|, log) && forall k :: 0 <= k < |fd.sq.slots| ==> fd.sq.slots[k].None?
  }

  /** A packet accepted at rest is the next frame handed over, as it is. */
  lemma AcceptedGoes(fd: Fd, p: nat, address: byte, data: seq<byte>, c: nat, log: Log)
    requires fd.Valid() && p < |fd.peers| && AtRest(fd, p, c, log)
    requires SendTarget(fd, address) == p && SendPacket(fd, address, data).1.Ok?
    ensures Generate(SendPacket(fd, address, data).0).1
      == Some([AddressOf(fd, p), IControl(Seq(|log|), fd.peers[p].ctl.nextNr)] + data)
  {
    hide PutI;
    hide Generate;
    hide SendTarget;
    hide AddressOf;
    hide Seq;
    hide IControl;
    hide Agrees;
    hide HasFree;
    hide QueuesFor;
    var after := SendPacket(fd, address, data).0;
    SendToTarget(fd, address, data);
    QueuedNext(fd, after, p, c, data, log);
    var longer := log + [data];
    assert longer[|log|] == data;
    NextGoes(after, p, c, |log|, longer);
  }

  lemma QueuedNext(fd: Fd, after: Fd, p: nat, c: nat, data: seq<byte>, log: Log)
    requires fd.Valid() && p < |fd.peers| && AtRest(fd, p, c, log) && QueuesFor(fd, after, p, AddressOf(fd, p), data)
    requires !fd.peers[p].ctl.TxFull()
    ensures |after.peers| == |fd.peers| && SendsNext(after, p, c, |log|, log + [data]) && after.sq == fd.sq
    ensures AddressOf(after, p) == AddressOf(fd, p) && after.peers[p].ctl.nextNr == fd.peers[p].ctl.nextNr
  {
    hide NoCr;
    hide Seq;
    hide Succ;
    hide IControl;
    hide HighSeq;
    hide Agrees;
    hide HasFree;
    var ctl, l := fd.peers[p].ctl, |log|;
    WindowBound(fd.iq.slots, AddressOf(fd, p), c, l, log);
    SeqSucc(l);
    SeqEqual(l + 1, c);
    CtlOk(fd, p);
    ControlRoundTrip(Seq(l), ctl.nextNr);
    var f := FrameInfo(IFrame, FrameHeader(AddressOf(fd, p), IControl(ctl.lastNs, ctl.nextNr)), data);
    var j :| 0 <= j < |fd.iq.slots| && fd.iq.slots[j].None? && after.iq.slots == fd.iq.slots[j := Some(f)];
    AllocateAgrees(fd.iq.slots, AddressOf(fd, p), c, l, log, j, f);
    assert AddressOf(after, p) == AddressOf(fd, p);
  }

  /** A connected receiver that expects frame n delivers it. */
  lemma ArrivesAt(fd: Fd, q: nat, field: byte, n: nat, nr: byte, data: seq<byte>)
    requires fd.Valid() && nr <= 7
    requires IsFor(fd, [field, IControl(Seq(n), nr)] + data, q)
    requires fd.peers[q].state == Connected && fd.peers[q].ctl.nextNr == Seq(n)
    ensures OnFrame(fd, [field, IControl(Seq(n), nr)] + data).delivered == fd.delivered + [(UserAddress(fd, q), data)]
  {
    hide OnFrame;
    hide FramePeer;
    hide Seq;
    hide IControl;
    hide UserAddress;
    hide Acknowledged;
    hide Answers;
    hide HighSeq;
    hide IsI;
    hide LowSeq;
    hide RrControl;
    hide Succ;
    ControlRoundTrip(Seq(n), nr);
    var bytes := [field, IControl(Seq(n), nr)] + data;
    assert bytes[2..] == data;
    ExpectedDelivered(fd, bytes, q);
  }

  /**
   From the primary's user to the secondary's: the packet handed over for number i + 1 is
   delivered, under 0, by the secondary with that number that expects it; every other
   secondary takes no notice.
   */
  lemma PacketArrives(fd: Fd, i: nat, data: seq<byte>, c: nat, log: Log, other: Fd, m: byte)
    requires Primary(fd) && i < |fd.peers| <= 63 && AtRest(fd, i, c, log)
    requires SendPacket(fd, PeerNumber(i), data).1.Ok? && Secondary(other, m)
    requires other.peers[0].state == Connected && other.peers[0].ctl.nextNr == Seq(|log|)
    ensures var sent := Generate(SendPacket(fd, PeerNumber(i), data).0).1;
      && sent.Some?
      && (m == PeerNumber(i) ==> OnFrame(other, sent.value).delivered == other.delivered + [(0, data)])
      && (m != PeerNumber(i) ==> OnFrame(other, sent.value) == other)
  {
    hide Generate;
    hide OnFrame;
    hide SendPacket;
    hide AddressToPeer;
    hide AddressOf;
    hide AtRest;
    hide StationAddress;
    hide PeerNumber;
    hide Number;
    hide Seq;
    hide IControl;
    hide UserAddress;
    PeerNumberIs(i);
    NumberDenotes(fd, PeerNumber(i));
    ZeroNumber(PeerNumber(i));
    FieldOf(fd, i);
    CtlOk(fd, i);
    AcceptedGoes(fd, i, PeerNumber(i), data, c, log);
    var bytes := [StationAddress(PeerNumber(i)), IControl(Seq(|log|), fd.peers[i].ctl.nextNr)] + data;
    OwnFieldOnly(other, m, PeerNumber(i), bytes);
    UserNumbers(other, 0);
    if m == PeerNumber(i) {
      ArrivesAt(other, 0, StationAddress(m), |log|, fd.peers[i].ctl.nextNr, data);
    }
  }

  /** And back: the primary's user is given the packet under the secondary's number. */
  lemma PacketReturns(fd: Fd, m: byte, data: seq<byte>, c: nat, log: Log, primary: Fd)
    requires Secondary(fd, m) && AtRest(fd, 0, c, log) && SendPacket(fd, 0, data).1.Ok?
    requires Primary(primary) && Number(m) <= |primary.peers| <= 63
    requires primary.peers[Number(m) - 1].state == Connected
    requires primary.peers[Number(m) - 1].ctl.nextNr == Seq(|log|)
    ensures var sent := Generate(SendPacket(fd, 0, data).0).1;
      && sent.Some? && FramePeer(primary, sent.value) == Number(m) - 1
      && OnFrame(primary, sent.value).delivered == primary.delivered + [(m, data)]
  {
    hide Generate;
    hide OnFrame;
    hide SendPacket;
    hide AddressToPeer;
    hide AtRest;
    hide StationAddress;
    hide PeerNumber;
    hide Number;
    hide Seq;
    hide IControl;
    hide UserAddress;
    hide NoCr;
    SecondaryFacts(m);
    assert AddressOf(fd, 0) == StationAddress(m);
    CtlOk(fd, 0);
    AcceptedGoes(fd, 0, 0, data, c, log);
    var bytes := [StationAddress(m), IControl(Seq(|log|), fd.peers[0].ctl.nextNr)] + data;
    PeersField(primary, m, bytes);
    var q := Number(m) - 1;
    PeerNumberIs(q);
    SameNumber(m, PeerNumber(q));
    UserNumbers(primary, q);
    ArrivesAt(primary, q, StationAddress(m), |log|, fd.peers[0].ctl.nextNr, data);
  }
}
