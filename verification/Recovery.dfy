/**
 Sending again: after a request for retransmission, or after a retry timer, the station
 transmits what waits and then every unconfirmed frame from the one asked for to the last,
 each with the payload that was accepted.
 */
module Recovery {
  import opened Base
  import opened SeqNum
  import opened FdDefs
  import opened FrameQueue
  import opened FdSpec
  import opened Window
  import opened Isolation
  import opened Reactions
  import opened Timers

  // ----- What goes out -----

  /** What the next n frames handed to the codec are. */
  function Outputs(fd: Fd, n: nat): seq<seq<byte>>
    decreases n
  {
    if n == 0 then []
    else
      match Generate(fd)
      case (next, None) => []
      case (next, Some(bytes)) => [bytes] + Outputs(next, n - 1)
  }

  /** And the station after that. */
  function After(fd: Fd, n: nat): Fd
    decreases n
  {
    if n == 0 then fd else After(Generate(fd).0, n - 1)
  }

  /** The octets of the frames in the service slots from i on, in slot order. */
  function ServiceBytes(slots: seq<Slot>, i: nat): seq<seq<byte>>
    requires i <= |slots|
    decreases |slots| - i
  {
    if i == |slots| then []
    else if slots[i].None? then ServiceBytes(slots, i + 1)
    else [slots[i].value.ToBytes()] + ServiceBytes(slots, i + 1)
  }

  /** Frames a to |log| - 1 under their numbers, acknowledging nr. */
  function DataBytes(address: byte, nr: byte, log: Log, a: nat): seq<seq<byte>>
    requires a <= |log|
    decreases |log| - a
  {
    if a == |log| then []
    else [[address, IControl(Seq(a), nr)] + log[a]] + DataBytes(address, nr, log, a + 1)
  }

  function Flushed(fd: Fd): Fd {
    fd.(sq := fd.sq.(slots := seq(|fd.sq.slots|, _ => None)))
  }

  lemma {:induction false} ServiceBytesSame(a: seq<Slot>, b: seq<Slot>, i: nat)
    requires i <= |a| == |b| && forall k :: i <= k < |a| ==> a[k] == b[k]
    ensures ServiceBytes(a, i) == ServiceBytes(b, i)
    decreases |a| - i
  {
    if i < |a| {
      ServiceBytesSame(a, b, i + 1);
    }
  }

  lemma OneServiceGoes(fd: Fd, i: nat)
    requires i < |fd.sq.slots| && fd.sq.slots[i].Some? && forall k :: 0 <= k < i ==> fd.sq.slots[k].None?
    ensures var next := fd.(sq := fd.sq.(slots := fd.sq.slots[i := None]));
      && Generate(fd) == (next, Some(fd.sq.slots[i].value.ToBytes()))
      && ServiceBytes(next.sq.slots, i + 1) == ServiceBytes(fd.sq.slots, i + 1) && Flushed(next) == Flushed(fd)
  {
    hide FirstOccupied;
    hide FirstEligible;
    hide NextIFrame;
    hide ServiceBytes;
    FirstIs(fd.sq.slots, 0, i);
    ServiceBytesSame(fd.sq.slots, fd.sq.slots[i := None], i + 1);
  }

  lemma OutputsOne(fd: Fd, next: Fd, bytes: seq<byte>, n: nat)
    requires Generate(fd) == (next, Some(bytes))
    ensures Outputs(fd, 1 + n) == [bytes] + Outputs(next, n) && After(fd, 1 + n) == After(next, n)
  {
    hide Generate;
  }

  /** Service frames go first, in slot order, each once. */
  lemma {:induction false} ServiceFirst(fd: Fd, i: nat, n: nat)
    requires i <= |fd.sq.slots| && forall k :: 0 <= k < i ==> fd.sq.slots[k].None?
    ensures Outputs(fd, |ServiceBytes(fd.sq.slots, i)| + n) == ServiceBytes(fd.sq.slots, i) + Outputs(Flushed(fd), n)
    ensures After(fd, |ServiceBytes(fd.sq.slots, i)| + n) == After(Flushed(fd), n)
    decreases |fd.sq.slots| - i
  {
    hide Generate;
    hide Outputs;
    hide After;
    if i == |fd.sq.slots| {
      assert Flushed(fd).sq.slots == fd.sq.slots;
    } else {
      hide Flushed;
      if fd.sq.slots[i].None? {
        ServiceFirst(fd, i + 1, n);
      } else {
        var next := fd.(sq := fd.sq.(slots := fd.sq.slots[i := None]));
        var rest, bytes := ServiceBytes(fd.sq.slots, i + 1), fd.sq.slots[i].value.ToBytes();
        OneServiceGoes(fd, i);
        OutputsOne(fd, next, bytes, |rest| + n);
        ServiceFirst(next, i + 1, n);
        assert [bytes] + (rest + Outputs(Flushed(fd), n)) == [bytes] + rest + Outputs(Flushed(fd), n);
      }
    }
  }

  /** Peers before p have nothing to send. */
  predicate FirstInLine(fd: Fd, p: nat)
    requires p < |fd.peers|
  {
    forall q :: 0 <= q < p ==> fd.peers[q].state != Connected || fd.peers[q].ctl.nextNs == fd.peers[q].ctl.lastNs
  }

  /** The next frame of peer p is frame a of its log. */
  ghost predicate SendsNext(fd: Fd, p: nat, c: nat, a: nat, log: Log)
    requires p < |fd.peers|
  {
    && PeerAgrees(fd, p, c, log) && c <= a <= |log|
    && fd.peers[p].state == Connected && fd.peers[p].ctl.nextNs == Seq(a) && FirstInLine(fd, p)
  }

  lemma {:induction false} LineIs(fd: Fd, p: nat, i: nat)
    requires i <= p < |fd.peers| && FirstInLine(fd, p) && Eligible(fd, p)
    ensures FirstEligible(fd, i) == Some(p)
    decreases p - i
  {
    hide AddressOf;
    if i < p {
      LineIs(fd, p, i + 1);
    }
  }

  lemma NextGoes(fd: Fd, p: nat, c: nat, a: nat, log: Log)
    requires p < |fd.peers| && SendsNext(fd, p, c, a, log) && a < |log|
    requires forall k :: 0 <= k < |fd.sq.slots| ==> fd.sq.slots[k].None?
    ensures Generate(fd) ==
      (Advance(fd, p), Some([AddressOf(fd, p), IControl(Seq(a), fd.peers[p].ctl.nextNr)] + log[a]))
  {
    hide AddressOf;
    hide Seq;
    hide IControl;
    hide Agrees;
    hide FirstEligible;
    hide FirstOccupied;
    hide IndexFrom;
    FirstIsNone(fd.sq.slots, 0);
    WindowBound(fd.iq.slots, AddressOf(fd, p), c, |log|, log);
    SeqEqual(a, |log|);
    IndexInWindow(c, a);
    FindAgrees(fd.iq.slots, AddressOf(fd, p), c, |log|, log, Seq(a));
    LineIs(fd, p, 0);
    var slot := fd.iq.slots[Find(fd.iq.slots, IFrame, AddressOf(fd, p), Seq(a), 0).value].value;
    var control := IControl(Seq(a), fd.peers[p].ctl.nextNr);
    assert slot.ToBytes()[1 := control] == [AddressOf(fd, p), control] + slot.payload;
  }

  lemma AdvancedNext(fd: Fd, p: nat, c: nat, a: nat, log: Log)
    requires p < |fd.peers| && SendsNext(fd, p, c, a, log) && a < |log|
    ensures SendsNext(Advance(fd, p), p, c, a + 1, log)
    ensures AddressOf(Advance(fd, p), p) == AddressOf(fd, p) && Advance(fd, p).sq == fd.sq
    ensures |Advance(fd, p).peers| == |fd.peers|
    ensures Advance(fd, p).peers[p].ctl.nextNr == fd.peers[p].ctl.nextNr
  {
    hide NoCr;
    hide Seq;
    hide Succ;
    hide Agrees;
    SeqSucc(a);
    SameWindow(fd, Advance(fd, p), p, c, log);
  }

  /** From there on, all frames up to the last go out in order, each with its payload. */
  lemma {:induction false} DataInOrder(fd: Fd, p: nat, c: nat, a: nat, log: Log)
    requires p < |fd.peers| && SendsNext(fd, p, c, a, log)
    requires forall k :: 0 <= k < |fd.sq.slots| ==> fd.sq.slots[k].None?
    ensures Outputs(fd, |log| - a) == DataBytes(AddressOf(fd, p), fd.peers[p].ctl.nextNr, log, a)
    decreases |log| - a
  {
    hide SendsNext;
    hide Generate;
    hide IControl;
    hide AddressOf;
    hide Seq;
    hide Advance;
    BoundOf(fd, p, c, a, log);
    if a < |log| {
      NextGoes(fd, p, c, a, log);
      AdvancedNext(fd, p, c, a, log);
      DataInOrder(Advance(fd, p), p, c, a + 1, log);
    }
  }

  lemma SendsAll(fd: Fd, p: nat, c: nat, a: nat, log: Log)
    requires p < |fd.peers| && SendsNext(fd, p, c, a, log)
    ensures var waiting := ServiceBytes(fd.sq.slots, 0);
      Outputs(fd, |waiting| + |log| - a)
        == waiting + DataBytes(AddressOf(fd, p), fd.peers[p].ctl.nextNr, log, a)
  {
    hide SendsNext;
    hide Outputs;
    hide After;
    hide AddressOf;
    hide ServiceBytes;
    hide DataBytes;
    BoundOf(fd, p, c, a, log);
    ServiceFirst(fd, 0, |log| - a);
    FlushedNext(fd, p, c, a, log);
    DataInOrder(Flushed(fd), p, c, a, log);
  }

  lemma BoundOf(fd: Fd, p: nat, c: nat, a: nat, log: Log)
    requires p < |fd.peers| && SendsNext(fd, p, c, a, log)
    ensures a <= |log|
  {}

  lemma FlushedNext(fd: Fd, p: nat, c: nat, a: nat, log: Log)
    requires p < |fd.peers| && SendsNext(fd, p, c, a, log)
    ensures SendsNext(Flushed(fd), p, c, a, log)
    ensures AddressOf(Flushed(fd), p) == AddressOf(fd, p)
  {
    hide NoCr;
    hide Agrees;
    hide Seq;
    SameWindow(fd, Flushed(fd), p, c, log);
  }

  // ----- On request -----

  /** A request for retransmission from a peer that is connected, whose number lies in the window. */
  predicate AsksAgain(fd: Fd, data: seq<byte>, p: nat)
    requires fd.Valid()
  {
    && IsFor(fd, data, p) && IsS(data[1])
    && (SType(data[1]) == HDLC_S_FRAME_TYPE_REJ || SType(data[1]) == HDLC_S_FRAME_TYPE_SREJ)
    && fd.peers[p].state == Connected && AckInWindow(fd.peers[p].ctl, HighSeq(data[1]))
  }

  /**
   After a REJ or SREJ for frame a, what waits goes out and then frames a, a + 1, ... up to
   the last one accepted, each under its number with its payload; then nothing of this peer.
   */
  lemma RequestResends(fd: Fd, data: seq<byte>, p: nat, c: nat, log: Log)
    requires fd.Valid() && AsksAgain(fd, data, p) && PeerAgrees(fd, p, c, log) && FirstInLine(fd, p)
    ensures var after, a, waiting := OnFrame(fd, data), IndexFrom(c, HighSeq(data[1])), ServiceBytes(fd.sq.slots, 0);
      && a <= |log|
      && Outputs(after, |waiting| + |log| - a)
           == waiting + DataBytes(AddressOf(fd, p), fd.peers[p].ctl.nextNr, log, a)
  {
    hide OnFrame;
    hide Outputs;
    hide ServiceBytes;
    hide DataBytes;
    hide PeerAgrees;
    hide IsS;
    hide SType;
    hide AddressOf;
    hide IndexFrom;
    hide AckInWindow;
    CountersTell(fd, p, c, log);
    RequestRewinds(fd, data, p, c, log);
    SendsAll(OnFrame(fd, data), p, IndexFrom(c, HighSeq(data[1])), IndexFrom(c, HighSeq(data[1])), log);
  }

  lemma RequestRewinds(fd: Fd, data: seq<byte>, p: nat, c: nat, log: Log)
    requires fd.Valid() && AsksAgain(fd, data, p) && PeerAgrees(fd, p, c, log) && FirstInLine(fd, p)
    ensures var after, a := OnFrame(fd, data), IndexFrom(c, HighSeq(data[1]));
      && |after.peers| == |fd.peers| && SendsNext(after, p, a, a, log)
      && after.sq == fd.sq && AddressOf(after, p) == AddressOf(fd, p)
      && after.peers[p].ctl.nextNr == fd.peers[p].ctl.nextNr
  {
    hide OnFrame;
    hide PeerAgrees;
    hide FramePeer;
    hide IsU;
    hide IsI;
    hide SType;
    hide IndexFrom;
    hide HighSeq;
    hide NoCr;
    hide SlotsAfter;
    hide AckInWindow;
    hide IsS;
    IsForLong(fd, data, p);
    var after, nr := OnFrame(fd, data), HighSeq(data[1]);
    CountersTell(fd, p, c, log);
    SupervisoryTunes(fd, data, p);
    IndexFromSeq(c, nr);
    RequestAgrees(fd, data, p, c, log);
  }

  lemma RequestAgrees(fd: Fd, data: seq<byte>, p: nat, c: nat, log: Log)
    requires fd.Valid() && AsksAgain(fd, data, p) && PeerAgrees(fd, p, c, log)
    ensures |OnFrame(fd, data).peers| == |fd.peers|
    ensures PeerAgrees(OnFrame(fd, data), p, IndexFrom(c, HighSeq(data[1])), log)
  {
    hide OnS;
    hide OnI;
    hide OnU;
    hide PeerAgrees;
    hide SType;
    hide AddressToPeer;
    hide IndexFrom;
    hide AckInWindow;
    hide AddressOf;
    IsForLong(fd, data, p);
    NotU(data[1]);
    assert !IsI(data[1]);
    hide IsU;
    hide IsI;
    hide IsS;
    CountersTell(fd, p, c, log);
    OnSPeer(fd, p, data, c, log);
    OnSValid(fd, p, data);
    assert OnFrame(fd, data) == OnS(fd, p, data);
  }

  // ----- After a timeout -----

  /** After the clock has rewound peer p, every unconfirmed frame goes out again. */
  lemma TimeoutResends(fd: Fd, frameDue: seq<bool>, iDue: seq<bool>, p: nat, c: nat, log: Log)
    requires Clocked(fd, frameDue, iDue, |fd.peers|) && p < |fd.peers| && PeerAgrees(fd, p, c, log)
    requires DistinctAddresses(fd.peers, fd.localAddr) && Resends(fd.peers[p], iDue[p])
    requires FirstInLine(Timeouts(fd, frameDue, iDue, |fd.peers|), p)
    ensures var after := Timeouts(fd, frameDue, iDue, |fd.peers|);
      var waiting := ServiceBytes(after.sq.slots, 0);
      && c < |log|
      && Outputs(after, |waiting| + |log| - c)
           == waiting + DataBytes(AddressOf(fd, p), fd.peers[p].ctl.nextNr, log, c)
  {
    hide Timeouts;
    hide Outputs;
    hide ServiceBytes;
    hide DataBytes;
    hide AddressOf;
    hide Called;
    hide FramesDropped;
    hide Seq;
    hide Agrees;
    hide EventRaised;
    hide Losses;
    hide FirstInLine;
    var after := Timeouts(fd, frameDue, iDue, |fd.peers|);
    EveryPeerTicks(fd, frameDue, iDue, |fd.peers|);
    SameAddresses(fd, after, p);
    CountersTell(fd, p, c, log);
    TimeoutKeeps(fd, frameDue, iDue, p, c, log);
    SameWindowAgrees(fd, after, p, c, log);
    SendsAll(after, p, c, c, log);
  }

  /** The frames of a peer that is not given up stay where they are. */
  lemma TimeoutKeeps(fd: Fd, frameDue: seq<bool>, iDue: seq<bool>, p: nat, c: nat, log: Log)
    requires Clocked(fd, frameDue, iDue, |fd.peers|) && p < |fd.peers| && !GivesUp(fd.peers[p], iDue[p])
    requires DistinctAddresses(fd.peers, fd.localAddr)
    ensures SameFor(fd.iq.slots, Timeouts(fd, frameDue, iDue, |fd.peers|).iq.slots, AddressOf(fd, p))
  {
    hide Timeouts;
    hide GivesUp;
    hide Called;
    hide PeersTicked;
    hide EventRaised;
    hide Losses;
    hide NoCr;
    hide Fd.Valid;
    EveryPeerTicks(fd, frameDue, iDue, |fd.peers|);
    var after := Timeouts(fd, frameDue, iDue, |fd.peers|);
    forall q | 0 <= q < |fd.peers| && GivesUp(fd.peers[q], iDue[q]) ensures AddressOf(fd, q) != AddressOf(fd, p) {
      assert q < p ==> PeerToAddress(fd.peers, fd.localAddr, q) != PeerToAddress(fd.peers, fd.localAddr, p);
    }
    forall j | 0 <= j < |fd.iq.slots| && Addressed(fd.iq.slots[j], AddressOf(fd, p))
      ensures after.iq.slots[j] == fd.iq.slots[j]
    {
      assert !Abandoned(fd, iDue, |fd.peers|, fd.iq.slots[j]);
    }
  }

  lemma SameWindowAgrees(fd: Fd, after: Fd, p: nat, c: nat, log: Log)
    requires p < |fd.peers| == |after.peers| && PeerAgrees(fd, p, c, log)
    requires SameFor(fd.iq.slots, after.iq.slots, AddressOf(fd, p)) && AddressOf(after, p) == AddressOf(fd, p)
    requires after.peers[p].ctl.confirmNs == fd.peers[p].ctl.confirmNs
    requires after.peers[p].ctl.lastNs == fd.peers[p].ctl.lastNs
    ensures PeerAgrees(after, p, c, log)
  {
    hide Agrees;
    hide Seq;
    hide AddressOf;
    hide SameFor;
    SameForAgrees(fd.iq.slots, after.iq.slots, AddressOf(fd, p), c, |log|, log);
  }
}
