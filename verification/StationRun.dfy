/**
 Any number of operations on one station, whatever its user, its channel and its clock do,
 from the state a configuration makes: what holds in every reachable state.
 */
module StationRun {
  import opened Base
  import opened SeqNum
  import opened FdDefs
  import opened IQueueControl
  import opened FrameQueue
  import opened FdSpec
  import opened Window
  import opened Isolation
  import opened Reactions
  import opened Timers
  import Session
  import SessionTheorems
  import TinyFd

  datatype Op =
    | Send(address: byte, data: seq<byte>)
    | Frame(bytes: seq<byte>)
    | Timers(frameDue: seq<bool>, iDue: seq<bool>)
    | Transmit
    | Hangup

  /** The clock says of every peer what has elapsed. */
  predicate Fits(op: Op, peers: nat) {
    op.Timers? ==> |op.frameDue| == |op.iDue| == peers
  }

  function Do(fd: Fd, op: Op): (r: Fd)
    requires fd.Valid() && Fits(op, |fd.peers|)
    ensures r.Valid() && |r.peers| == |fd.peers|
  {
    hide Fd.Valid;
    hide OnFrame;
    hide Generate;
    hide FdSpec.Disconnect;
    hide SendPacket;
    DoValid(fd, op);
    match op
    case Send(address, data) => SendPacket(fd, address, data).0
    case Frame(bytes) => OnFrame(fd, bytes)
    case Timers(frameDue, iDue) => Timeouts(fd, frameDue, iDue, |frameDue|)
    case Transmit => Generate(fd).0
    case Hangup => FdSpec.Disconnect(fd).0
  }

  lemma DoValid(fd: Fd, op: Op)
    requires fd.Valid() && Fits(op, |fd.peers|)
    ensures 1 <= |fd.peers|
    ensures op.Send? ==>
      var r := SendPacket(fd, op.address, op.data).0; r.Valid() && |r.peers| == |fd.peers|
    ensures op.Frame? ==> var r := OnFrame(fd, op.bytes); r.Valid() && |r.peers| == |fd.peers|
    ensures op.Timers? ==> Timeouts(fd, op.frameDue, op.iDue, |fd.peers|).Valid()
    ensures op.Transmit? ==> var r := Generate(fd).0; r.Valid() && |r.peers| == |fd.peers|
    ensures op.Hangup? ==> var r := FdSpec.Disconnect(fd).0; r.Valid() && |r.peers| == |fd.peers|
  {
    hide Fd.Valid;
    hide OnFrame;
    hide Eligible;
    hide NextIFrame;
    hide FindFree;
    hide Rotated;
    hide AddressOf;
    hide SendTarget;
    hide FirstOccupied;
    ShapeOf(fd);
    match op
    case Send(address, data) => SendPacketValid(fd, address, data);
    case Frame(bytes) => OnFrameValid(fd, bytes);
    case Timers(frameDue, iDue) => TimeoutsValid(fd, frameDue, iDue, |frameDue|);
    case Transmit => GenerateValid(fd);
    case Hangup =>
      PutServiceValid(fd, ServiceFrame(UFrame, AddressOf(fd, 0), DISC_CONTROL));
      StateValid(PutU(fd, 0, DISC_CONTROL), 0, Disconnecting);
  }

  lemma {:induction false} TimeoutsValid(fd: Fd, frameDue: seq<bool>, iDue: seq<bool>, k: nat)
    requires fd.Valid() && k <= |fd.peers| && |frameDue| == |iDue| == |fd.peers|
    ensures Timeouts(fd, frameDue, iDue, k).Valid()
  {
    hide Fd.Valid;
    hide TimeoutPeer;
    if k > 0 {
      TimeoutsValid(fd, frameDue, iDue, k - 1);
      TimeoutValid(Timeouts(fd, frameDue, iDue, k - 1), k - 1, frameDue[k - 1], iDue[k - 1]);
    }
  }

  predicate AllFit(ops: seq<Op>, peers: nat) {
    forall i :: 0 <= i < |ops| ==> Fits(ops[i], peers)
  }

  function Run(fd: Fd, ops: seq<Op>): (r: Fd)
    requires fd.Valid() && AllFit(ops, |fd.peers|)
    ensures r.Valid() && |r.peers| == |fd.peers|
  {
    hide Fd.Valid;
    hide Do;
    if ops == [] then fd
    else Do(Run(fd, ops[..|ops| - 1]), ops[|ops| - 1])
  }

  // ----- The advertised free slot -----

  lemma {:induction false} TimeoutsKeepBit(fd: Fd, frameDue: seq<bool>, iDue: seq<bool>, k: nat)
    requires fd.Valid() && k <= |fd.peers| && |frameDue| == |iDue| == |fd.peers|
    ensures BitSound(fd) ==> BitSound(Timeouts(fd, frameDue, iDue, k))
    ensures BitExact(fd) ==> BitExact(Timeouts(fd, frameDue, iDue, k))
  {
    hide Fd.Valid;
    hide TimeoutPeer;
    hide BitSound;
    hide BitExact;
    if k > 0 {
      TimeoutsKeepBit(fd, frameDue, iDue, k - 1);
      TimeoutsValid(fd, frameDue, iDue, k - 1);
      TimeoutKeepsBit(Timeouts(fd, frameDue, iDue, k - 1), k - 1, frameDue[k - 1], iDue[k - 1]);
    }
  }

  lemma DisconnectKeepsBit(fd: Fd)
    requires fd.Valid()
    ensures BitSound(fd) ==> BitSound(FdSpec.Disconnect(fd).0)
    ensures BitExact(fd) ==> BitExact(FdSpec.Disconnect(fd).0)
  {
    hide FindFree;
    hide Rotated;
    hide AddressOf;
  }

  lemma DoKeepsBit(fd: Fd, op: Op)
    requires fd.Valid() && Fits(op, |fd.peers|)
    ensures BitSound(fd) ==> BitSound(Do(fd, op))
    ensures BitExact(fd) ==> BitExact(Do(fd, op))
  {
    hide Fd.Valid;
    hide OnFrame;
    hide Generate;
    hide FdSpec.Disconnect;
    hide SendPacket;
    hide BitSound;
    hide BitExact;
    match op
    case Send(address, data) => SendKeepsBit(fd, address, data);
    case Frame(bytes) => FrameKeepsBit(fd, bytes);
    case Timers(frameDue, iDue) => TimeoutsKeepBit(fd, frameDue, iDue, |frameDue|);
    case Transmit => GenerateKeepsBit(fd);
    case Hangup => DisconnectKeepsBit(fd);
  }

  /** What a configuration makes of a station. */
  ghost predicate Start(fd: Fd, config: TinyFd.TinyFdConfig) {
    config.peersCount <= 255 && 1 <= config.windowFrames <= 7 && TinyFd.TinyFd.Initial(fd, config)
  }

  lemma StartValid(fd: Fd, config: TinyFd.TinyFdConfig)
    requires Start(fd, config)
    ensures fd.Valid() && BitSound(fd) && (|fd.peers| == 1 ==> BitExact(fd))
  {
    TinyFd.TinyFd.InitialValid(fd, config);
    assert fd.iq.slots[0].None?;
  }

  /**
   In every reachable state, whatever was received: a free slot that is advertised is
   there; and on a connected station with one peer a free slot is advertised.
   */
  lemma {:induction false} BitInEveryState(fd: Fd, config: TinyFd.TinyFdConfig, ops: seq<Op>)
    requires Start(fd, config)
    ensures fd.Valid()
    ensures AllFit(ops, |fd.peers|) ==>
      BitSound(Run(fd, ops)) && (|fd.peers| == 1 ==> BitExact(Run(fd, ops)))
  {
    hide Start;
    hide Fd.Valid;
    hide Do;
    hide BitSound;
    hide BitExact;
    StartValid(fd, config);
    if ops != [] && AllFit(ops, |fd.peers|) {
      var n := |ops| - 1;
      BitInEveryState(fd, config, ops[..n]);
      DoKeepsBit(Run(fd, ops[..n]), ops[n]);
    }
  }

  // ----- The event for the transmitter -----

  /** Whenever there is anything in a queue, the event that says so is raised. */
  predicate EventSound(fd: Fd) {
    fd.txAvailable || (Empty(fd.sq.slots) && Empty(fd.iq.slots))
  }

  predicate Empty(slots: seq<Slot>) {
    forall j :: 0 <= j < |slots| ==> slots[j].None?
  }

  /** The queues hold no more than before, or the event is raised. */
  ghost predicate QuietSame(fd: Fd, after: Fd) {
    && (fd.txAvailable ==> after.txAvailable)
    && (after.txAvailable
        || (Empty(fd.sq.slots) && Empty(fd.iq.slots) ==> Empty(after.sq.slots) && Empty(after.iq.slots)))
  }

  lemma AnswersRaise(fd: Fd, after: Fd, p: nat, kind: FrameType, control: byte)
    requires p < |fd.peers| && |fd.sq.slots| > 0 && Answers(fd, after, p, kind, control)
    requires Empty(fd.iq.slots) ==> Empty(after.iq.slots)
    ensures QuietSame(fd, after)
  {
    hide AddressOf;
    if Empty(fd.sq.slots) {
      assert fd.sq.slots[0].None?;
    }
  }

  lemma ReleasedEmpty(fd: Fd, p: nat, nr: byte)
    requires fd.Valid() && p < |fd.peers| && nr <= 7
    ensures Empty(fd.iq.slots) ==> Empty(SlotsAfter(fd, p, nr))
  {
    hide FreeAllNs;
    hide AddressOf;
    FreeAllKeeps(fd.iq.slots, AddressOf(fd, p), Confirmed(fd.peers[p].ctl.confirmNs, nr));
  }

  lemma DataRaises(fd: Fd, frame: seq<byte>, p: nat)
    requires fd.Valid() && IsFor(fd, frame, p) && |frame| >= 2 && !IsU(frame[1]) && |fd.sq.slots| > 0
    ensures QuietSame(fd, OnFrame(fd, frame))
  {
    hide OnFrame;
    hide FramePeer;
    hide AddressOf;
    hide UserAddress;
    hide Answers;
    hide SlotsAfter;
    hide LowSeq;
    hide HighSeq;
    hide RrControl;
    hide RejControl;
    hide Succ;
    hide SType;
    hide HasFree;
    var after, nr := OnFrame(fd, frame), fd.peers[p].ctl.nextNr;
    if !TakesData(fd, p) {
      UnconnectedDenied(fd, frame, p);
      AnswersRaise(fd, after, p, UFrame, DM_CONTROL);
    } else if IsI(frame[1]) {
      ReleasedEmpty(fd, p, LowSeq(frame[1]));
      if HighSeq(frame[1]) == nr {
        ExpectedDelivered(fd, frame, p);
        AnswersRaise(fd, after, p, SFrame, RrControl(Succ(nr)));
      } else {
        UnexpectedRejectedOnce(fd, frame, p);
        if !fd.peers[p].sentReject {
          AnswersRaise(fd, after, p, SFrame, RejControl(nr));
        }
      }
    } else {
      ReleasedEmpty(fd, p, HighSeq(frame[1]));
      assert IsS(frame[1]);
      SupervisoryTunes(fd, frame, p);
    }
  }

  lemma UnnumberedRaises(fd: Fd, frame: seq<byte>, p: nat)
    requires fd.Valid() && IsFor(fd, frame, p) && |frame| >= 2 && IsU(frame[1]) && |fd.sq.slots| > 0
    ensures QuietSame(fd, OnFrame(fd, frame))
  {
    hide OnFrame;
    hide FramePeer;
    hide AddressOf;
    hide UserAddress;
    hide Answers;
    hide Queues;
    hide IsU;
    hide UType;
    hide HasFree;
    var after := OnFrame(fd, frame);
    if Calls(frame[1]) {
      RequestJoins(fd, frame, p);
      if fd.peers[p].state == Connected {
        assert Answers(fd, after, p, UFrame, UA_CONTROL) by { AnswersAre(fd, after, p); }
        AnswersRaise(fd, after, p, UFrame, UA_CONTROL);
      }
    } else if HangsUp(frame[1]) {
      EndLeaves(fd, frame, p);
      AnswersRaise(fd, after, p, UFrame, UA_CONTROL);
    } else if Denies(frame[1]) {
      EndLeaves(fd, frame, p);
    } else if Confirms(frame[1]) {
      ConfirmationSwitches(fd, frame, p);
    } else {
      OthersIgnored(fd, frame);
    }
  }

  lemma AnswersAre(fd: Fd, after: Fd, p: nat)
    requires p < |fd.peers| && after.txAvailable == (fd.txAvailable || HasFree(fd.sq.slots))
    requires Queues(fd.sq.slots, after.sq.slots, FrameInfo(UFrame, FrameHeader(AddressOf(fd, p), UA_CONTROL), []))
    ensures Answers(fd, after, p, UFrame, UA_CONTROL)
  {}

  lemma FrameRaises(fd: Fd, frame: seq<byte>)
    requires fd.Valid()
    ensures QuietSame(fd, OnFrame(fd, frame))
  {
    hide OnFrame;
    hide FramePeer;
    hide IsU;
    hide UType;
    var p := FramePeer(fd, frame);
    if p == HDLC_INVALID_PEER_INDEX {
      OthersIgnored(fd, frame);
    } else {
      IsForLong(fd, frame, p);
      if IsU(frame[1]) {
        UnnumberedRaises(fd, frame, p);
      } else {
        DataRaises(fd, frame, p);
      }
    }
  }

  lemma TimersRaise(fd: Fd, frameDue: seq<bool>, iDue: seq<bool>)
    requires Clocked(fd, frameDue, iDue, |fd.peers|)
    ensures QuietSame(fd, Timeouts(fd, frameDue, iDue, |fd.peers|))
  {
    hide Timeouts;
    hide PeersTicked;
    hide Losses;
    hide Abandoned;
    hide Resends;
    hide Requested;
    EveryPeerTicks(fd, frameDue, iDue, |fd.peers|);
    var after := Timeouts(fd, frameDue, iDue, |fd.peers|);
    if !after.txAvailable && Empty(fd.sq.slots) {
      assert fd.sq.slots[0].None?;
      assert Dialled(fd, frameDue, |fd.peers|) == 0;
      hide Dialled;
      hide Empty;
      OccupiedEmpty(fd.sq.slots);
      OccupiedEmpty(after.sq.slots);
    }
  }

  lemma OccupiedEmpty(slots: seq<Slot>)
    ensures Empty(slots) <==> Occupied(slots) == 0
  {
    if Empty(slots) {
      OccupiedNone(slots);
    } else {
      var j :| 0 <= j < |slots| && slots[j].Some?;
      OccupiedTake(slots, j);
    }
  }

  lemma DoRaises(fd: Fd, op: Op)
    requires fd.Valid() && Fits(op, |fd.peers|) && EventSound(fd)
    ensures EventSound(Do(fd, op))
  {
    hide Fd.Valid;
    hide OnFrame;
    hide Timeouts;
    hide FindFree;
    hide Rotated;
    hide AddressOf;
    hide SendTarget;
    hide FirstOccupied;
    hide FirstEligible;
    hide NextIFrame;
    match op
    case Send(address, data) => ShapeOf(fd);
    case Frame(bytes) => FrameRaises(fd, bytes);
    case Timers(frameDue, iDue) => TimersRaise(fd, frameDue, iDue);
    case Transmit =>
    case Hangup => ShapeOf(fd);
  }

  /** In every reachable state: when there is a frame to hand over, the event that ends a wait for one is raised. */
  lemma {:induction false} EventInEveryState(fd: Fd, config: TinyFd.TinyFdConfig, ops: seq<Op>)
    requires Start(fd, config) && fd.Valid() && AllFit(ops, |fd.peers|)
    ensures EventSound(Run(fd, ops))
    ensures Generate(Run(fd, ops)).1.Some? ==> Run(fd, ops).txAvailable
    decreases |ops|
  {
    hide Fd.Valid;
    hide Do;
    hide NextIFrame;
    if ops != [] {
      hide Start;
      hide EventSound;
      var n := |ops| - 1;
      EventInEveryState(fd, config, ops[..n]);
      DoRaises(Run(fd, ops[..n]), ops[n]);
    }
    SoundMeansRaised(Run(fd, ops));
  }

  lemma SoundMeansRaised(fd: Fd)
    requires EventSound(fd)
    ensures Generate(fd).1.Some? ==> fd.txAvailable
  {
    hide NextIFrame;
    hide AddressOf;
  }

  // ----- Every window -----

  /** A frame for a peer that is tame for it, or for no peer. */
  predicate TameFrame(fd: Fd, bytes: seq<byte>)
    requires fd.Valid()
  {
    var p := FramePeer(fd, bytes);
    p == HDLC_INVALID_PEER_INDEX || Tame(fd, bytes, p)
  }

  predicate TameRun(fd: Fd, ops: seq<Op>)
    requires fd.Valid() && AllFit(ops, |fd.peers|)
  {
    hide Fd.Valid;
    ops != [] ==>
      var n := |ops| - 1;
      TameRun(fd, ops[..n]) && (ops[n].Frame? ==> TameFrame(Run(fd, ops[..n]), ops[n].bytes))
  }

  /** What this operation makes the station accept for peer p. */
  function AcceptedBy(fd: Fd, op: Op, p: nat): Log
    requires fd.Valid()
  {
    if op.Send? && SendPacket(fd, op.address, op.data).1.Ok? && SendTarget(fd, op.address) == p then [op.data] else []
  }

  /** The payloads accepted for peer p, oldest first. */
  function Accepted(fd: Fd, ops: seq<Op>, p: nat): Log
    requires fd.Valid() && AllFit(ops, |fd.peers|)
  {
    if ops == [] then []
    else
      var n := |ops| - 1;
      Accepted(fd, ops[..n], p) + AcceptedBy(Run(fd, ops[..n]), ops[n], p)
  }

  predicate Suffix(a: Log, b: Log) {
    |a| <= |b| && a == b[|b| - |a|..]
  }

  lemma {:induction false} TimeoutsKeepWindows(
    fd: Fd, frameDue: seq<bool>, iDue: seq<bool>, k: nat, c: seq<nat>, log: seq<Log>)
    returns (c': seq<nat>, log': seq<Log>)
    requires fd.Valid() && k <= |fd.peers| && |frameDue| == |iDue| == |fd.peers| && AllAgree(fd, c, log)
    ensures AllAgree(Timeouts(fd, frameDue, iDue, k), c', log') && |log'| == |log|
    ensures forall q :: 0 <= q < |log| ==> log'[q] == log[q] || log'[q] == []
  {
    hide Fd.Valid;
    hide TimeoutPeer;
    hide PeerAgrees;
    hide OnlyPeer;
    hide DistinctAddresses;
    c', log' := c, log;
    if k > 0 {
      c', log' := TimeoutsKeepWindows(fd, frameDue, iDue, k - 1, c, log);
      TimeoutsValid(fd, frameDue, iDue, k - 1);
      var mid := Timeouts(fd, frameDue, iDue, k - 1);
      TimeoutKeepsWindows(mid, k - 1, frameDue[k - 1], iDue[k - 1], c', log');
      if GivesUp(mid.peers[k - 1], iDue[k - 1]) {
        c', log' := c'[k - 1 := 0], log'[k - 1 := []];
      }
    }
  }

  lemma DisconnectKeepsWindows(fd: Fd, c: seq<nat>, log: seq<Log>)
    requires fd.Valid() && AllAgree(fd, c, log)
    ensures AllAgree(FdSpec.Disconnect(fd).0, c, log)
  {
    hide PeerAgrees;
    hide FindFree;
    hide Rotated;
    hide NoCr;
    var after := FdSpec.Disconnect(fd).0;
    forall p | 0 <= p < |fd.peers|
      ensures PeerToAddress(after.peers, after.localAddr, p) == PeerToAddress(fd.peers, fd.localAddr, p)
      ensures PeerAgrees(after, p, c[p], log[p])
    {
      SameWindow(fd, after, p, c[p], log[p]);
    }
  }

  lemma DoKeepsWindows(fd: Fd, op: Op, c: seq<nat>, log: seq<Log>) returns (c': seq<nat>, log': seq<Log>)
    requires fd.Valid() && Fits(op, |fd.peers|) && AllAgree(fd, c, log) && (op.Frame? ==> TameFrame(fd, op.bytes))
    ensures AllAgree(Do(fd, op), c', log') && |log'| == |log|
    ensures forall q :: 0 <= q < |log| ==> log'[q] == [] || log'[q] == log[q] + AcceptedBy(fd, op, q)
  {
    hide Fd.Valid;
    hide OnFrame;
    hide Generate;
    hide FdSpec.Disconnect;
    hide SendPacket;
    hide PeerAgrees;
    hide DistinctAddresses;
    c', log' := c, log;
    match op
    case Send(address, data) =>
      SendKeepsWindows(fd, address, data, c, log);
      if SendPacket(fd, address, data).1.Ok? {
        var p := SendTarget(fd, address);
        log' := log[p := log[p] + [data]];
      }
    case Frame(bytes) =>
      c', log' := FrameKeepsWindows(fd, bytes, c, log);
    case Timers(frameDue, iDue) =>
      c', log' := TimeoutsKeepWindows(fd, frameDue, iDue, |frameDue|, c, log);
    case Transmit => GenerateKeepsWindows(fd, c, log);
    case Hangup => DisconnectKeepsWindows(fd, c, log);
  }

  /** A station as configured has agreeing windows as soon as its peers' addresses differ. */
  lemma StartAgrees(fd: Fd, config: TinyFd.TinyFdConfig) returns (c: seq<nat>, log: seq<Log>)
    requires Start(fd, config) && (config.peersCount <= 64 || !IsPrimaryAddress(fd.localAddr))
    ensures AllAgree(fd, c, log) && log == seq(|fd.peers|, _ => [])
  {
    hide NoCr;
    hide StationAddress;
    hide Agrees;
    assert Seq(0) == 0;
    hide Seq;
    NewPeersDistinctIff(fd.localAddr, config.peersCount);
    c, log := seq(|fd.peers|, _ => 0), seq(|fd.peers|, _ => []);
    forall p | 0 <= p < |fd.peers| ensures PeerAgrees(fd, p, c[p], log[p]) {
      NothingMine(fd.iq.slots, AddressOf(fd, p));
    }
  }

  /**
   In every state that tame frames lead to, for a station with at most 64 peers: every
   peer's window and the shared queue agree, and what they hold is the end of what
   send_packet accepted for that peer.
   */
  lemma {:induction false} WindowsInEveryState(fd: Fd, config: TinyFd.TinyFdConfig, ops: seq<Op>)
    returns (c: seq<nat>, log: seq<Log>)
    requires Start(fd, config) && (config.peersCount <= 64 || !IsPrimaryAddress(fd.localAddr)) && fd.Valid()
    requires AllFit(ops, |fd.peers|) && TameRun(fd, ops)
    ensures AllAgree(Run(fd, ops), c, log)
    ensures forall q :: 0 <= q < |log| ==> Suffix(log[q], Accepted(fd, ops, q))
  {
    hide Start;
    hide Fd.Valid;
    hide Do;
    hide TameFrame;
    hide PeerAgrees;
    hide DistinctAddresses;
    hide IsPrimaryAddress;
    hide AcceptedBy;
    if ops == [] {
      c, log := StartAgrees(fd, config);
    } else {
      var n := |ops| - 1;
      var d, tails := WindowsInEveryState(fd, config, ops[..n]);
      c, log := DoKeepsWindows(Run(fd, ops[..n]), ops[n], d, tails);
      forall q | 0 <= q < |log| ensures Suffix(log[q], Accepted(fd, ops, q)) {
        SuffixAppend(tails[q], Accepted(fd, ops[..n], q), AcceptedBy(Run(fd, ops[..n]), ops[n], q));
      }
    }
  }

  lemma SuffixAppend(a: Log, b: Log, more: Log)
    requires Suffix(a, b)
    ensures Suffix(a + more, b + more) && Suffix([], b + more)
  {}

  /** So send_packet never reports Busy in such a state, and with one connected peer its result is exact. */
  lemma NeverBusy(fd: Fd, config: TinyFd.TinyFdConfig, ops: seq<Op>, address: byte, data: seq<byte>)
    requires Start(fd, config) && (config.peersCount <= 64 || !IsPrimaryAddress(fd.localAddr)) && fd.Valid()
    requires AllFit(ops, |fd.peers|) && TameRun(fd, ops)
    ensures var now := Run(fd, ops);
      && SendPacket(now, address, data).1 != Err(Busy)
      && (|now.peers| == 1 && now.peers[0].state == Connected && |data| <= now.mtu && SendTarget(now, address) == 0 ==>
            SendPacket(now, address, data).1 == if HasFree(now.iq.slots) then Ok(Unit) else Err(Timeout))
  {
    hide Start;
    hide Run;
    hide TameRun;
    hide PeerAgrees;
    hide DistinctAddresses;
    hide IsPrimaryAddress;
    hide BitExact;
    hide SendPacket;
    hide SendTarget;
    var c, log := WindowsInEveryState(fd, config, ops);
    BitInEveryState(fd, config, ops);
    var now := Run(fd, ops);
    RoomMeansOk(now, address, data, c, log);
    if |now.peers| == 1 && now.peers[0].state == Connected && |data| <= now.mtu && SendTarget(now, address) == 0 {
      BackPressureExact(now, address, data, c[0], log[0]);
    }
  }

  lemma RoomMeansOk(fd: Fd, address: byte, data: seq<byte>, c: seq<nat>, log: seq<Log>)
    requires fd.Valid() && BitSound(fd) && AllAgree(fd, c, log)
    ensures SendPacket(fd, address, data).1 != Err(Busy)
  {
    hide NoCr;
    hide Seq;
    hide Succ;
    hide Agrees;
    hide IControl;
    hide AddressToPeer;
    FindFreeComplete(fd.iq.slots, fd.iq.lookup, 0);
    var p := SendTarget(fd, address);
    if p < |fd.peers| && HasFree(fd.iq.slots) {
      RoomInWindow(fd.iq.slots, AddressOf(fd, p), c[p], |log[p]|, log[p]);
    }
  }

  // ----- A frame that is not tame -----

  lemma RunTwo(fd: Fd, first: Op, second: Op)
    requires fd.Valid() && Fits(first, |fd.peers|) && Fits(second, |fd.peers|)
    ensures Run(fd, [first, second]) == Do(Do(fd, first), second)
  {
    hide Fd.Valid;
    hide Do;
    var ops := [first, second];
    assert ops[..1] == [first] && ops[..1][..0] == [];
    assert Run(fd, ops[..1]) == Do(fd, first);
  }

  /** A request connects a station with one peer. */
  lemma RequestConnects(fd: Fd, config: TinyFd.TinyFdConfig) returns (up: Fd)
    requires Start(fd, config) && fd.Valid() && |fd.peers| == 1
    ensures var a := AddressOf(fd, 0);
      && up == OnFrame(fd, [a, SABM_CONTROL]) && |up.peers| == 1 && up.peers[0].state == Connected
      && PeerAgrees(up, 0, 0, []) && AddressOf(up, 0) == a && AddressToPeer(up.peers, up.localAddr, a) == 0
      && up.mtu == fd.mtu && HasFree(up.iq.slots)
  {
    hide NoCr;
    hide PutService;
    hide Agrees;
    hide NewPeers;
    hide AddressToPeer;
    var a := AddressOf(fd, 0);
    var asked := PutU(fd, 0, UA_CONTROL);
    OneAddress(fd, config);
    UControlRoundTrip();
    up := OnFrame(fd, [a, SABM_CONTROL]);
    PutServiceOnly(fd, ServiceFrame(UFrame, a, UA_CONTROL));
    assert up == SwitchToConnected(asked, 0);
    assert up.peers[0].ctl == CTL_ZERO && up.peers[0].addr == fd.peers[0].addr;
    SameAddress(fd, up);
    assert Seq(0) == 0;
    assert fd.iq.slots[0].None?;
    NothingMine(up.iq.slots, a);
  }

  lemma OneAddress(fd: Fd, config: TinyFd.TinyFdConfig)
    requires Start(fd, config) && |fd.peers| == 1
    ensures AddressToPeer(fd.peers, fd.localAddr, AddressOf(fd, 0)) == 0 && fd.peers[0].state == Disconnected
  {
    hide NoCr;
    AddressRoundTrip(fd.peers, fd.localAddr, 0);
  }

  /** And then it accepts a packet. */
  lemma FirstPacketQueued(up: Fd, data: seq<byte>) returns (ready: Fd)
    requires up.Valid() && |up.peers| == 1 && up.peers[0].state == Connected && BitExact(up)
    requires PeerAgrees(up, 0, 0, []) && HasFree(up.iq.slots) && |data| <= up.mtu
    ensures ready == SendPacket(up, FD_PRIMARY_ADDR, data).0 && SendPacket(up, FD_PRIMARY_ADDR, data).1.Ok?
    ensures |ready.peers| == 1 && PeerAgrees(ready, 0, 0, [data]) && ready.peers[0].state == Connected
    ensures ready.localAddr == up.localAddr && ready.peers[0].addr == up.peers[0].addr
  {
    hide NoCr;
    hide FindFree;
    hide Rotated;
    hide PeerAgrees;
    hide Succ;
    hide IControl;
    BackPressureExact(up, FD_PRIMARY_ADDR, data, 0, []);
    ready := SendPacket(up, FD_PRIMARY_ADDR, data).0;
    var none: seq<Log> := [[]];
    assert AllAgree(up, [0], none);
    SendKeepsWindows(up, FD_PRIMARY_ADDR, data, [0], none);
    assert none[0] + [data] == [data] && none[0 := [data]] == [[data]];
  }

  /**
   Such a frame occurs: a station with one peer, connected at the peer's request, accepts a
   packet; before it has transmitted anything an RR for two frames arrives. The packet is
   released, and no history explains the counters.
   */
  lemma StrayAck(fd: Fd, config: TinyFd.TinyFdConfig, data: seq<byte>)
    requires Start(fd, config) && fd.Valid() && |fd.peers| == 1 && |data| <= fd.mtu
    ensures var a := AddressOf(fd, 0);
      var ready := Run(fd, [Frame([a, SABM_CONTROL]), Send(FD_PRIMARY_ADDR, data)]);
      var after := OnFrame(ready, [a, RrControl(2)]);
      && |ready.peers| == 1 && PeerAgrees(ready, 0, 0, [data]) && !Tame(ready, [a, RrControl(2)], 0)
      && |after.peers| == 1 && !Explained(after, 0)
  {
    hide NoCr;
    hide FindFree;
    hide Rotated;
    hide PeerAgrees;
    hide Explained;
    hide OnFrame;
    hide Start;
    hide SendPacket;
    hide Fd.Valid;
    var a := AddressOf(fd, 0);
    RunTwo(fd, Frame([a, SABM_CONTROL]), Send(FD_PRIMARY_ADDR, data));
    StartValid(fd, config);
    FrameKeepsBit(fd, [a, SABM_CONTROL]);
    OnFrameValid(fd, [a, SABM_CONTROL]);
    var up := RequestConnects(fd, config);
    var ready := FirstPacketQueued(up, data);
    SendPacketValid(up, FD_PRIMARY_ADDR, data);
    ControlRoundTrip(0, 2);
    CountersTell(ready, 0, 0, [data]);
    assert IndexFrom(0, 2) == 2;
    TameIff(ready, 0, [a, RrControl(2)], 0, [data]);
  }

  // ----- In a session -----

  lemma StepKeepsBit(s: Session.Session, act: Session.Action)
    requires Session.Possible(s, act) && BitExact(s.a.fd)
    ensures BitExact(Session.StepA(s, act).a.fd)
  {
    hide Fd.Valid;
    hide OnFrame;
    hide Generate;
    hide TimeoutPeer;
    hide SendPacket;
    match act
    case Send(address, data) => SendKeepsBit(s.a.fd, address, data);
    case Timer(frameDue, iDue) => TimeoutKeepsBit(s.a.fd, 0, frameDue, iDue);
    case Transmit => GenerateKeepsBit(s.a.fd);
    case Receive => FrameKeepsBit(s.a.fd, s.ba[0].bytes);
    case Lose(_) =>
  }

  lemma {:induction false} BitsInSession(s: Session.Session, acts: seq<(bool, Session.Action)>)
    requires Session.Init(s) && Session.RunFrom(s, acts).Some?
    ensures var r := Session.RunFrom(s, acts).value;
      BitExact(r.a.fd) && BitExact(r.b.fd)
  {
    hide Session.Enabled;
    hide Session.Possible;
    hide Session.StepA;
    if acts != [] {
      hide Session.Init;
      hide BitExact;
      var n := |acts| - 1;
      BitsInSession(s, acts[..n]);
      var r := Session.RunFrom(s, acts[..n]).value;
      var t := if acts[n].0 then r else Session.Flip(r);
      StepKeepsBit(t, acts[n].1);
      StepKeepsOther(t, acts[n].1);
    } else {
      assert s.a.fd.iq.slots[0].None? && s.b.fd.iq.slots[0].None?;
    }
  }

  lemma StepKeepsOther(s: Session.Session, act: Session.Action)
    requires Session.Possible(s, act)
    ensures Session.StepA(s, act).b == s.b
  {
    hide OnFrame;
    hide Generate;
    hide TimeoutPeer;
    hide SendPacket;
  }

  /** While a session lasts, a connected station accepts a packet of legal size exactly when a slot is free. */
  lemma SessionBackPressure(s: Session.Session, acts: seq<(bool, Session.Action)>, address: byte, data: seq<byte>)
    requires Session.Init(s) && Session.RunFrom(s, acts).Some? && !Session.RunFrom(s, acts).value.over
    ensures var x := Session.RunFrom(s, acts).value.a;
      && x.fd.Valid() && |x.fd.peers| == 1
      && (x.State() == Connected && |data| <= x.fd.mtu && SendTarget(x.fd, address) == 0 ==>
            SendPacket(x.fd, address, data).1 == if HasFree(x.fd.iq.slots) then Ok(Unit) else Err(Timeout))
  {
    hide Session.RunFrom;
    hide Session.Local;
    hide Session.Acks;
    hide Session.Handshake;
    hide Agrees;
    hide BitExact;
    hide SendPacket;
    hide SendTarget;
    hide Seq;
    SessionTheorems.RunGood(s, acts);
    BitsInSession(s, acts);
    var x := Session.RunFrom(s, acts).value.a;
    if x.State() == Connected && |data| <= x.fd.mtu && SendTarget(x.fd, address) == 0 {
      BackPressureExact(x.fd, address, data, x.conf, x.sent);
    }
  }
}
