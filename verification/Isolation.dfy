/**
 Many peers behind one station: addresses identify peers, what concerns one peer leaves
 the others alone, every peer's window agrees with the shared queue, and the advertised
 free slot is really there.
 */
module Isolation {
  import opened Base
  import opened SeqNum
  import opened FdDefs
  import opened IQueueControl
  import opened FrameQueue
  import opened FdSpec
  import opened Window

  // ----- Addresses -----

  ghost predicate DistinctAddresses(peers: seq<Peer>, localAddr: byte) {
    forall p, q :: 0 <= p < q < |peers| ==> PeerToAddress(peers, localAddr, p) != PeerToAddress(peers, localAddr, q)
  }

  lemma StationAddressesDiffer(i: nat, j: nat)
    requires i < j < 64
    ensures NoCr(StationAddress(i as bv8 + 1)) != NoCr(StationAddress(j as bv8 + 1))
  {
    hide NoCr;
    hide StationAddress;
    var a, b: bv8 := i as bv8, j as bv8;
    assert a != b && a < 64 && b < 64;
    StationAddressInjective(a, b);
  }

  lemma StationAddressInjective(a: byte, b: byte)
    requires a != b && a < 64 && b < 64
    ensures NoCr(StationAddress(a + 1)) != NoCr(StationAddress(b + 1))
  {}

  /**
   A primary's peers have different addresses exactly when there are at most 64 of them:
   the shift drops the two top bits, so the 65th gets the address of the first.
   */
  lemma NewPeersDistinctIff(localAddr: byte, count: nat)
    requires count <= 255
    ensures DistinctAddresses(NewPeers(localAddr, count), localAddr) <==> count <= 64 || !IsPrimaryAddress(localAddr)
  {
    hide NoCr;
    hide StationAddress;
    var ps := NewPeers(localAddr, count);
    if count <= 64 || !IsPrimaryAddress(localAddr) {
      forall p, q | 0 <= p < q < |ps| ensures PeerToAddress(ps, localAddr, p) != PeerToAddress(ps, localAddr, q) {
        StationAddressesDiffer(p, q);
      }
    } else {
      Collision();
      assert PeerToAddress(ps, localAddr, 0) == PeerToAddress(ps, localAddr, 64);
    }
  }

  lemma Collision()
    ensures StationAddress(64 as bv8 + 1) == StationAddress(0 as bv8 + 1)
  {}

  lemma NoCrIdempotent(a: byte)
    ensures NoCr(NoCr(a)) == NoCr(a) && NoCr(NoCr(a) | HDLC_CR_BIT) == NoCr(a)
  {}

  lemma {:induction false} FindPeerFinds(peers: seq<Peer>, p: nat, i: nat)
    requires i <= p < |peers| <= 255
    requires forall j :: i <= j < p ==> NoCr(peers[j].addr) != NoCr(peers[p].addr)
    ensures FindPeer(peers, NoCr(peers[p].addr), i) == p
    decreases p - i
  {
    hide NoCr;
    if i < p {
      FindPeerFinds(peers, p, i + 1);
    }
  }

  /** Index to address field and back, whether or not the command/response bit is set. */
  lemma AddressRoundTrip(peers: seq<Peer>, localAddr: byte, p: nat)
    requires p < |peers| <= 255 && DistinctAddresses(peers, localAddr)
    requires !IsPrimaryAddress(localAddr) ==> |peers| == 1
    ensures var a := PeerToAddress(peers, localAddr, p);
      AddressToPeer(peers, localAddr, a) == p && AddressToPeer(peers, localAddr, a | HDLC_CR_BIT) == p
  {
    hide NoCr;
    if IsPrimaryAddress(localAddr) {
      NoCrIdempotent(peers[p].addr);
      forall j | 0 <= j < p ensures NoCr(peers[j].addr) != NoCr(peers[p].addr) {
        assert PeerToAddress(peers, localAddr, j) != PeerToAddress(peers, localAddr, p);
      }
      FindPeerFinds(peers, p, 0);
    } else {
      NoCrIdempotent(localAddr);
    }
  }

  // ----- What concerns one peer leaves the others alone -----

  /** Apart from peer p, its frames in the shared queue and the station-wide bits, nothing changed. */
  ghost predicate OnlyPeer(fd: Fd, after: Fd, p: nat) {
    && |after.peers| == |fd.peers| && after.localAddr == fd.localAddr && |after.iq.slots| == |fd.iq.slots|
    && (forall q :: 0 <= q < |fd.peers| ==> after.peers[q].addr == fd.peers[q].addr)
    && (forall q :: 0 <= q < |fd.peers| && q != p ==> after.peers[q] == fd.peers[q])
    && (p < |fd.peers| ==> forall j :: 0 <= j < |fd.iq.slots| && after.iq.slots[j] != fd.iq.slots[j] ==>
          (fd.iq.slots[j].None? || Addressed(fd.iq.slots[j], AddressOf(fd, p)))
          && (after.iq.slots[j].None? || Addressed(after.iq.slots[j], AddressOf(fd, p))))
    && (p >= |fd.peers| ==> after.iq == fd.iq)
  }

  lemma OnlyTrans(fd: Fd, mid: Fd, after: Fd, p: nat)
    requires OnlyPeer(fd, mid, p) && OnlyPeer(mid, after, p)
    ensures OnlyPeer(fd, after, p)
  {
    hide NoCr;
    if p < |fd.peers| {
      assert AddressOf(mid, p) == AddressOf(fd, p);
    }
  }

  lemma ConfirmOnly(fd: Fd, p: nat, nr: byte)
    requires fd.Valid() && p < |fd.peers| && nr <= 7
    ensures OnlyPeer(fd, Confirm(fd, p, nr), p)
  {
    hide FreeAllNs;
    hide NoCr;
    FreeAllKeeps(fd.iq.slots, AddressOf(fd, p), Confirmed(fd.peers[p].ctl.confirmNs, nr));
  }

  lemma SwitchOnly(fd: Fd, p: nat)
    requires fd.Valid() && p < |fd.peers|
    ensures OnlyPeer(fd, SwitchToConnected(fd, p), p)
    ensures OnlyPeer(fd, SwitchToDisconnected(fd, p), p)
  {
    hide NoCr;
  }

  lemma OnIOnly(fd: Fd, p: nat, data: seq<byte>)
    requires fd.Valid() && p < |fd.peers| && |data| >= 2
    ensures OnlyPeer(fd, OnI(fd, p, data), p)
  {
    hide NoCr;
    hide Succ;
    hide LowSeq;
    hide HighSeq;
    hide RrControl;
    hide RejControl;
    hide FindFree;
    hide Confirm;
    hide OnlyPeer;
    var c := Confirm(fd, p, LowSeq(data[1]));
    ConfirmOnly(fd, p, LowSeq(data[1]));
    ConfirmValid(fd, p, LowSeq(data[1]));
    AnswerOnly(c, p, data[2..]);
    OnlyTrans(fd, c, Refuse(c, p), p);
    OnlyTrans(fd, c, Accept(c, p, data[2..]), p);
  }

  lemma AnswerOnly(fd: Fd, p: nat, payload: seq<byte>)
    requires p < |fd.peers|
    ensures OnlyPeer(fd, Refuse(fd, p), p) && OnlyPeer(fd, Accept(fd, p, payload), p)
  {
    hide NoCr;
    hide Succ;
    hide RrControl;
    hide RejControl;
    hide FindFree;
  }

  lemma OnSOnly(fd: Fd, p: nat, data: seq<byte>)
    requires fd.Valid() && p < |fd.peers| && |data| >= 2
    ensures OnlyPeer(fd, OnS(fd, p, data), p)
  {
    hide NoCr;
    hide HighSeq;
    hide SType;
    hide Confirm;
    var c := Confirm(fd, p, HighSeq(data[1]));
    ConfirmOnly(fd, p, HighSeq(data[1]));
    ConfirmValid(fd, p, HighSeq(data[1]));
    OnlyTrans(fd, c, OnS(fd, p, data), p);
  }

  lemma OnUOnly(fd: Fd, p: nat, control: byte)
    requires fd.Valid() && p < |fd.peers|
    ensures OnlyPeer(fd, OnU(fd, p, control), p)
  {
    hide NoCr;
    hide UType;
    hide SwitchToConnected;
    hide SwitchToDisconnected;
    hide FindFree;
    var asked := PutU(fd, p, UA_CONTROL);
    PutServiceValid(fd, ServiceFrame(UFrame, AddressOf(fd, p), UA_CONTROL));
    assert OnlyPeer(fd, asked, p);
    SwitchOnly(fd, p);
    SwitchOnly(asked, p);
    OnlyTrans(fd, asked, SwitchToConnected(asked, p), p);
    OnlyTrans(fd, asked, SwitchToDisconnected(asked, p), p);
  }

  /** The peer a received frame is for. */
  function FramePeer(fd: Fd, data: seq<byte>): (p: nat)
    requires fd.Valid()
    ensures p < |fd.peers| || p == HDLC_INVALID_PEER_INDEX
  {
    if |data| < 2 then HDLC_INVALID_PEER_INDEX else AddressToPeer(fd.peers, fd.localAddr, data[0])
  }

  /** Any received octets whatever touch at most the peer their address names. */
  lemma FrameTouchesOnePeer(fd: Fd, data: seq<byte>)
    requires fd.Valid()
    ensures OnlyPeer(fd, OnFrame(fd, data), FramePeer(fd, data))
  {
    hide NoCr;
    hide IsU;
    hide IsI;
    hide IsS;
    hide OnI;
    hide OnS;
    hide OnU;
    hide FindFree;
    hide AddressToPeer;
    if |data| >= 2 {
      var p := AddressToPeer(fd.peers, fd.localAddr, data[0]);
      if p != HDLC_INVALID_PEER_INDEX {
        OnUOnly(fd, p, data[1]);
        OnIOnly(fd, p, data);
        OnSOnly(fd, p, data);
      }
    }
  }

  // ----- Every peer's window -----

  ghost predicate PeerAgrees(fd: Fd, p: nat, c: nat, log: Log)
    requires p < |fd.peers|
  {
    && fd.peers[p].ctl.confirmNs == Seq(c) && fd.peers[p].ctl.lastNs == Seq(|log|)
    && Agrees(fd.iq.slots, AddressOf(fd, p), c, |log|, log)
  }

  /** For every peer: c[p] frames confirmed, the rest of log[p] in the queue. */
  ghost predicate AllAgree(fd: Fd, c: seq<nat>, log: seq<Log>) {
    && |c| == |log| == |fd.peers|
    && DistinctAddresses(fd.peers, fd.localAddr)
    && forall p :: 0 <= p < |fd.peers| ==> PeerAgrees(fd, p, c[p], log[p])
  }

  lemma OthersAgree(fd: Fd, after: Fd, p: nat, q: nat, c: nat, log: Log)
    requires OnlyPeer(fd, after, p) && q < |fd.peers| && q != p && DistinctAddresses(fd.peers, fd.localAddr)
    requires PeerAgrees(fd, q, c, log)
    ensures PeerAgrees(after, q, c, log)
  {
    hide NoCr;
    hide Agrees;
    hide Seq;
    assert AddressOf(after, q) == AddressOf(fd, q);
    if p < |fd.peers| {
      assert AddressOf(fd, p) != AddressOf(fd, q);
    }
    SameForAgrees(fd.iq.slots, after.iq.slots, AddressOf(fd, q), c, |log|, log);
  }

  /** Once the peer concerned agrees again, all do. */
  lemma Reassemble(fd: Fd, after: Fd, p: nat, c: seq<nat>, log: seq<Log>, c': nat, log': Log)
    requires AllAgree(fd, c, log) && p < |fd.peers| && OnlyPeer(fd, after, p) && PeerAgrees(after, p, c', log')
    ensures AllAgree(after, c[p := c'], log[p := log'])
  {
    hide NoCr;
    hide PeerAgrees;
    forall q | 0 <= q < |fd.peers|
      ensures PeerAgrees(after, q, if q == p then c' else c[q], if q == p then log' else log[q])
    {
      if q != p {
        OthersAgree(fd, after, p, q, c[q], log[q]);
      }
    }
    forall q, r | 0 <= q < r < |fd.peers|
      ensures PeerToAddress(after.peers, after.localAddr, q) != PeerToAddress(after.peers, after.localAddr, r)
    {
      assert PeerToAddress(fd.peers, fd.localAddr, q) != PeerToAddress(fd.peers, fd.localAddr, r);
    }
  }

  lemma Untouched(fd: Fd, after: Fd, c: seq<nat>, log: seq<Log>)
    requires AllAgree(fd, c, log) && OnlyPeer(fd, after, HDLC_INVALID_PEER_INDEX) && |fd.peers| <= 255
    ensures AllAgree(after, c, log)
  {
    hide NoCr;
    hide PeerAgrees;
    forall q | 0 <= q < |fd.peers| ensures PeerAgrees(after, q, c[q], log[q]) {
      OthersAgree(fd, after, HDLC_INVALID_PEER_INDEX, q, c[q], log[q]);
    }
    forall q, r | 0 <= q < r < |fd.peers|
      ensures PeerToAddress(after.peers, after.localAddr, q) != PeerToAddress(after.peers, after.localAddr, r)
    {
      assert PeerToAddress(fd.peers, fd.localAddr, q) != PeerToAddress(fd.peers, fd.localAddr, r);
    }
  }

  lemma SameWindow(fd: Fd, after: Fd, p: nat, c: nat, log: Log)
    requires p < |fd.peers| == |after.peers| && PeerAgrees(fd, p, c, log)
    requires after.iq.slots == fd.iq.slots && AddressOf(after, p) == AddressOf(fd, p)
    requires after.peers[p].ctl.confirmNs == fd.peers[p].ctl.confirmNs
    requires after.peers[p].ctl.lastNs == fd.peers[p].ctl.lastNs
    ensures PeerAgrees(after, p, c, log)
  {
    hide Agrees;
    hide Seq;
  }

  lemma NothingMine(slots: seq<Slot>, address: byte)
    requires forall j :: 0 <= j < |slots| ==> !Mine(slots[j], address)
    ensures Agrees(slots, address, 0, 0, [])
  {
    hide IndexFrom;
  }

  lemma EmptyWindow(slots: seq<Slot>, address: byte, c: nat, log: Log)
    requires Agrees(slots, address, c, c, log)
    ensures Agrees(slots, address, 0, 0, [])
  {
    hide IndexFrom;
    forall j | 0 <= j < |slots| ensures !Mine(slots[j], address) {
      if Mine(slots[j], address) {
        IndexFromSeq(c, Ns(slots[j]));
      }
    }
    NothingMine(slots, address);
  }

  /** N(R) lies between the oldest unconfirmed frame and the next one to be numbered. */
  predicate AckInWindow(ctl: Ctl, nr: byte) {
    Gap(ctl.confirmNs, nr) <= Gap(ctl.confirmNs, ctl.lastNs)
  }

  /**
   What a caller has to check for the window to follow: an acknowledgement lies in the
   window, and a request that resets the counters finds nothing unconfirmed.
   */
  predicate Tame(fd: Fd, data: seq<byte>, p: nat)
    requires p < |fd.peers| && |data| >= 2
  {
    var state, ctl, kind := fd.peers[p].state, fd.peers[p].ctl, UType(data[1]);
    if IsU(data[1]) then
      (((kind == HDLC_U_FRAME_TYPE_SABM || kind == HDLC_U_FRAME_TYPE_SNRM) && state != Connected)
        || (kind == HDLC_U_FRAME_TYPE_UA && state == Connecting)) ==> !ctl.HasUnconfirmed()
    else if state != Connected && state != Disconnecting then true
    else if IsI(data[1]) then AckInWindow(ctl, LowSeq(data[1]))
    else IsS(data[1]) ==> AckInWindow(ctl, HighSeq(data[1]))
  }

  /** The counters tell what the history would. */
  lemma CountersTell(fd: Fd, p: nat, c: nat, log: Log)
    requires p < |fd.peers| && PeerAgrees(fd, p, c, log)
    ensures c <= |log| && (fd.peers[p].ctl.HasUnconfirmed() <==> c < |log|)
    ensures forall nr: byte :: AckInWindow(fd.peers[p].ctl, nr) <==> IndexFrom(c, nr) <= |log|
  {
    hide Gap;
    hide Seq;
    hide AddressOf;
    WindowBound(fd.iq.slots, AddressOf(fd, p), c, |log|, log);
    GapOfSeq(c, |log|);
    SeqEqual(c, |log|);
  }

  lemma ConfirmPeer(fd: Fd, p: nat, nr: byte, c: nat, log: Log)
    requires fd.Valid() && p < |fd.peers| && nr <= 7 && PeerAgrees(fd, p, c, log) && IndexFrom(c, nr) <= |log|
    ensures PeerAgrees(Confirm(fd, p, nr), p, IndexFrom(c, nr), log)
  {
    hide NoCr;
    hide Seq;
    hide IndexFrom;
    hide Agrees;
    IndexFromSeq(c, nr);
    AckIff(fd.iq.slots, AddressOf(fd, p), c, |log|, log, nr);
    assert AddressOf(Confirm(fd, p, nr), p) == AddressOf(fd, p);
  }

  lemma SwitchPeer(fd: Fd, p: nat, c: nat, log: Log)
    requires fd.Valid() && p < |fd.peers| && PeerAgrees(fd, p, c, log)
    ensures fd.peers[p].state == Connected ==> PeerAgrees(SwitchToConnected(fd, p), p, c, log)
    ensures fd.peers[p].state != Connected && c == |log| ==> PeerAgrees(SwitchToConnected(fd, p), p, 0, [])
    ensures fd.peers[p].state == Disconnected ==> PeerAgrees(SwitchToDisconnected(fd, p), p, c, log)
    ensures fd.peers[p].state != Disconnected ==> PeerAgrees(SwitchToDisconnected(fd, p), p, 0, [])
  {
    hide NoCr;
    hide Agrees;
    assert Seq(0) == 0;
    hide Seq;
    assert AddressOf(SwitchToConnected(fd, p), p) == AddressOf(fd, p);
    assert AddressOf(SwitchToDisconnected(fd, p), p) == AddressOf(fd, p);
    if c == |log| {
      EmptyWindow(fd.iq.slots, AddressOf(fd, p), c, log);
    }
    if fd.peers[p].state != Disconnected {
      NothingMine(SwitchToDisconnected(fd, p).iq.slots, AddressOf(fd, p));
    }
  }

  lemma OnUPeer(fd: Fd, p: nat, data: seq<byte>, c: nat, log: Log) returns (c': nat, log': Log)
    requires fd.Valid() && p < |fd.peers| && |data| >= 2 && IsU(data[1]) && PeerAgrees(fd, p, c, log)
    requires Tame(fd, data, p)
    ensures PeerAgrees(OnU(fd, p, data[1]), p, c', log') && (log' == log || log' == [])
  {
    hide NoCr;
    hide UType;
    hide PeerAgrees;
    hide AckInWindow;
    CountersTell(fd, p, c, log);
    hide FindFree;
    hide SwitchToConnected;
    hide SwitchToDisconnected;
    hide IsU;
    hide IndexFrom;
    var asked := PutU(fd, p, UA_CONTROL);
    PutServiceValid(fd, ServiceFrame(UFrame, AddressOf(fd, p), UA_CONTROL));
    SameWindow(fd, asked, p, c, log);
    SwitchPeer(fd, p, c, log);
    SwitchPeer(asked, p, c, log);
    var kind, state := UType(data[1]), fd.peers[p].state;
    var joins := ((kind == HDLC_U_FRAME_TYPE_SABM || kind == HDLC_U_FRAME_TYPE_SNRM) && state != Connected)
      || (kind == HDLC_U_FRAME_TYPE_UA && state == Connecting);
    var leaves := (kind == HDLC_U_FRAME_TYPE_UA && state == Disconnecting)
      || ((kind == HDLC_U_FRAME_TYPE_DISC || kind == HDLC_U_FRAME_TYPE_DM) && state != Disconnected);
    if joins || leaves {
      c', log' := 0, [];
    } else {
      c', log' := c, log;
    }
  }

  /** Every received frame that is tame keeps every peer's window in agreement with the queue. */
  lemma FrameKeepsWindows(fd: Fd, data: seq<byte>, c: seq<nat>, log: seq<Log>) returns (c': seq<nat>, log': seq<Log>)
    requires fd.Valid() && AllAgree(fd, c, log)
    requires FramePeer(fd, data) == HDLC_INVALID_PEER_INDEX
      || Tame(fd, data, FramePeer(fd, data))
    ensures AllAgree(OnFrame(fd, data), c', log') && |log'| == |log|
    ensures forall q :: 0 <= q < |log| ==> log'[q] == log[q] || (q == FramePeer(fd, data) && log'[q] == [])
  {
    hide OnI;
    hide OnS;
    hide OnU;
    hide OnlyPeer;
    hide PeerAgrees;
    hide NoCr;
    hide IsU;
    hide IsI;
    hide IsS;
    hide FindFree;
    hide IndexFrom;
    hide Tame;
    FrameTouchesOnePeer(fd, data);
    c', log' := c, log;
    var after, p := OnFrame(fd, data), FramePeer(fd, data);
    if p == HDLC_INVALID_PEER_INDEX {
      Untouched(fd, after, c, log);
    } else {
      var cp, lp := OnePeer(fd, p, data, c[p], log[p]);
      Reassemble(fd, after, p, c, log, cp, lp);
      c', log' := c[p := cp], log[p := lp];
    }
  }

  lemma OnePeer(fd: Fd, p: nat, data: seq<byte>, c: nat, log: Log) returns (c': nat, log': Log)
    requires fd.Valid() && |data| >= 2 && p == AddressToPeer(fd.peers, fd.localAddr, data[0]) < |fd.peers|
    requires PeerAgrees(fd, p, c, log) && Tame(fd, data, p)
    ensures |OnFrame(fd, data).peers| == |fd.peers|
    ensures PeerAgrees(OnFrame(fd, data), p, c', log') && (log' == log || log' == [])
  {
    hide OnI;
    hide OnS;
    hide OnU;
    hide PeerAgrees;
    hide AckInWindow;
    CountersTell(fd, p, c, log);
    hide NoCr;
    hide IsU;
    hide IsI;
    hide IsS;
    hide FindFree;
    hide IndexFrom;
    OnFrameValid(fd, data);
    c', log' := c, log;
    if IsU(data[1]) {
      c', log' := OnUPeer(fd, p, data, c, log);
    } else if fd.peers[p].state != Connected && fd.peers[p].state != Disconnecting {
      SameWindow(fd, PutU(fd, p, DM_CONTROL), p, c, log);
    } else if IsI(data[1]) {
      c' := IndexFrom(c, LowSeq(data[1]));
      OnIPeer(fd, p, data, c, log);
    } else if IsS(data[1]) {
      c' := IndexFrom(c, HighSeq(data[1]));
      OnSPeer(fd, p, data, c, log);
    }
  }

  // ----- And no other frame does -----

  /** Some history explains what peer p's window and its slots hold. */
  ghost predicate Explained(fd: Fd, p: nat)
    requires p < |fd.peers|
  {
    exists c: nat, log: Log :: PeerAgrees(fd, p, c, log)
  }

  lemma SameExplained(fd: Fd, after: Fd, p: nat)
    requires p < |fd.peers| == |after.peers|
    requires after.iq.slots == fd.iq.slots && AddressOf(after, p) == AddressOf(fd, p)
    requires after.peers[p].ctl.confirmNs == fd.peers[p].ctl.confirmNs
    requires after.peers[p].ctl.lastNs == fd.peers[p].ctl.lastNs
    ensures Explained(after, p) <==> Explained(fd, p)
  {
    hide PeerAgrees;
    if Explained(fd, p) {
      var c: nat, log: Log :| PeerAgrees(fd, p, c, log);
      SameWindow(fd, after, p, c, log);
    }
    if Explained(after, p) {
      var c: nat, log: Log :| PeerAgrees(after, p, c, log);
      SameWindow(after, fd, p, c, log);
    }
  }

  /** Counters that differ announce queued frames, so some slot is the peer's. */
  lemma AgreesEmpty(fd: Fd, p: nat, c: nat, log: Log)
    requires p < |fd.peers| && PeerAgrees(fd, p, c, log)
    ensures (forall j :: 0 <= j < |fd.iq.slots| ==> !Mine(fd.iq.slots[j], AddressOf(fd, p)))
      <==> fd.peers[p].ctl.confirmNs == fd.peers[p].ctl.lastNs
  {
    hide IndexFrom;
    hide NoCr;
    SeqEqual(c, |log|);
    if c < |log| {
      assert Has(fd.iq.slots, AddressOf(fd, p), Seq(c));
    } else {
      EmptyWindow(fd.iq.slots, AddressOf(fd, p), c, log);
      forall j | 0 <= j < |fd.iq.slots| ensures !Mine(fd.iq.slots[j], AddressOf(fd, p)) {
        if Mine(fd.iq.slots[j], AddressOf(fd, p)) {
          IndexFromSeq(c, Ns(fd.iq.slots[j]));
        }
      }
    }
  }

  lemma AckExplainedIff(fd: Fd, p: nat, nr: byte, c: nat, log: Log)
    requires fd.Valid() && p < |fd.peers| && nr <= 7 && PeerAgrees(fd, p, c, log)
    ensures Explained(Confirm(fd, p, nr), p) <==> IndexFrom(c, nr) <= |log|
  {
    hide NoCr;
    hide Seq;
    hide IndexFrom;
    hide Agrees;
    hide Mine;
    hide FreeAllNs;
    hide Confirmed;
    var after := Confirm(fd, p, nr);
    assert AddressOf(after, p) == AddressOf(fd, p);
    AckIff(fd.iq.slots, AddressOf(fd, p), c, |log|, log, nr);
    WindowBound(fd.iq.slots, AddressOf(fd, p), c, |log|, log);
    assert after.iq.slots == FreeAllNs(fd.iq.slots, AddressOf(fd, p), Confirmed(Seq(c), nr));
    assert after.peers[p].ctl.confirmNs == nr && after.peers[p].ctl.lastNs == Seq(|log|);
    assert IndexFrom(c, nr) > |log| ==> nr != Seq(|log|);
    assert IndexFrom(c, nr) > |log| ==>
      forall j :: 0 <= j < |after.iq.slots| ==> !Mine(after.iq.slots[j], AddressOf(after, p));
    if IndexFrom(c, nr) <= |log| {
      ConfirmPeer(fd, p, nr, c, log);
    } else if Explained(after, p) {
      var d: nat, l: Log :| PeerAgrees(after, p, d, l);
      AgreesEmpty(after, p, d, l);
      assert false;
    }
  }

  lemma ResetExplainedIff(fd: Fd, p: nat, c: nat, log: Log)
    requires fd.Valid() && p < |fd.peers| && PeerAgrees(fd, p, c, log) && fd.peers[p].state != Connected
    ensures Explained(SwitchToConnected(fd, p), p) <==> c == |log|
  {
    hide NoCr;
    hide Seq;
    hide Agrees;
    var after := SwitchToConnected(fd, p);
    assert AddressOf(after, p) == AddressOf(fd, p);
    WindowBound(fd.iq.slots, AddressOf(fd, p), c, |log|, log);
    SeqEqual(c, |log|);
    AgreesEmpty(fd, p, c, log);
    if c == |log| {
      SwitchPeer(fd, p, c, log);
    } else if Explained(after, p) {
      var d: nat, l: Log :| PeerAgrees(after, p, d, l);
      AgreesEmpty(after, p, d, l);
      assert false;
    }
  }

  /**
   The condition is exact: when the peer's window agrees with the queue, a received frame
   leaves some history that explains both if and only if it is tame.
   */
  lemma TameIff(fd: Fd, p: nat, data: seq<byte>, c: nat, log: Log)
    requires fd.Valid() && |data| >= 2 && p == AddressToPeer(fd.peers, fd.localAddr, data[0]) < |fd.peers|
    requires PeerAgrees(fd, p, c, log)
    ensures |OnFrame(fd, data).peers| == |fd.peers|
    ensures Explained(OnFrame(fd, data), p) <==> Tame(fd, data, p)
  {
    hide OnI;
    hide OnS;
    hide PeerAgrees;
    hide AckInWindow;
    CountersTell(fd, p, c, log);
    hide NoCr;
    hide IsU;
    hide IsI;
    hide IsS;
    hide FindFree;
    hide IndexFrom;
    hide SwitchToConnected;
    hide SwitchToDisconnected;
    hide PutService;
    hide UType;
    OnFrameValid(fd, data);
    if Tame(fd, data, p) {
      var c', log' := OnePeer(fd, p, data, c, log);
    } else if IsU(data[1]) {
      var asked := PutU(fd, p, UA_CONTROL);
      PutServiceValid(fd, ServiceFrame(UFrame, AddressOf(fd, p), UA_CONTROL));
      PutServiceOnly(fd, ServiceFrame(UFrame, AddressOf(fd, p), UA_CONTROL));
      SameWindow(fd, asked, p, c, log);
      ResetExplainedIff(fd, p, c, log);
      ResetExplainedIff(asked, p, c, log);
    } else if IsI(data[1]) {
      AckExplainedIff(fd, p, LowSeq(data[1]), c, log);
      OnIExplained(fd, p, data);
    } else {
      AckExplainedIff(fd, p, HighSeq(data[1]), c, log);
      OnSExplained(fd, p, data);
    }
  }

  lemma OnIExplained(fd: Fd, p: nat, data: seq<byte>)
    requires fd.Valid() && p < |fd.peers| && |data| >= 2
    ensures |OnI(fd, p, data).peers| == |fd.peers| && |Confirm(fd, p, LowSeq(data[1])).peers| == |fd.peers|
    ensures Explained(OnI(fd, p, data), p) <==> Explained(Confirm(fd, p, LowSeq(data[1])), p)
  {
    hide NoCr;
    hide Succ;
    hide RrControl;
    hide RejControl;
    hide FindFree;
    hide Confirm;
    hide Explained;
    hide LowSeq;
    hide HighSeq;
    var mid := Confirm(fd, p, LowSeq(data[1]));
    ConfirmValid(fd, p, LowSeq(data[1]));
    SameExplained(mid, Refuse(mid, p), p);
    SameExplained(mid, Accept(mid, p, data[2..]), p);
  }

  lemma OnSExplained(fd: Fd, p: nat, data: seq<byte>)
    requires fd.Valid() && p < |fd.peers| && |data| >= 2
    ensures |OnS(fd, p, data).peers| == |fd.peers| && |Confirm(fd, p, HighSeq(data[1])).peers| == |fd.peers|
    ensures Explained(OnS(fd, p, data), p) <==> Explained(Confirm(fd, p, HighSeq(data[1])), p)
  {
    hide NoCr;
    hide Confirm;
    hide Explained;
    hide HighSeq;
    hide SType;
    ConfirmValid(fd, p, HighSeq(data[1]));
    SameExplained(Confirm(fd, p, HighSeq(data[1])), OnS(fd, p, data), p);
  }

  lemma OnIPeer(fd: Fd, p: nat, data: seq<byte>, c: nat, log: Log)
    requires fd.Valid() && p < |fd.peers| && |data| >= 2 && PeerAgrees(fd, p, c, log)
    requires IndexFrom(c, LowSeq(data[1])) <= |log|
    ensures PeerAgrees(OnI(fd, p, data), p, IndexFrom(c, LowSeq(data[1])), log)
  {
    hide NoCr;
    hide Succ;
    hide RrControl;
    hide RejControl;
    hide FindFree;
    hide Confirm;
    hide PeerAgrees;
    hide IndexFrom;
    hide LowSeq;
    hide HighSeq;
    var nr := LowSeq(data[1]);
    var mid := Confirm(fd, p, nr);
    ConfirmValid(fd, p, nr);
    ConfirmPeer(fd, p, nr, c, log);
    SameWindow(mid, Refuse(mid, p), p, IndexFrom(c, nr), log);
    SameWindow(mid, Accept(mid, p, data[2..]), p, IndexFrom(c, nr), log);
  }

  lemma OnSPeer(fd: Fd, p: nat, data: seq<byte>, c: nat, log: Log)
    requires fd.Valid() && p < |fd.peers| && |data| >= 2 && PeerAgrees(fd, p, c, log)
    requires IndexFrom(c, HighSeq(data[1])) <= |log|
    ensures PeerAgrees(OnS(fd, p, data), p, IndexFrom(c, HighSeq(data[1])), log)
  {
    hide NoCr;
    hide Confirm;
    hide PeerAgrees;
    hide IndexFrom;
    hide HighSeq;
    hide SType;
    var nr := HighSeq(data[1]);
    ConfirmValid(fd, p, nr);
    ConfirmPeer(fd, p, nr, c, log);
    SameWindow(Confirm(fd, p, nr), OnS(fd, p, data), p, IndexFrom(c, nr), log);
  }

  // ----- The other operations -----

  lemma PutIPeer(fd: Fd, p: nat, data: seq<byte>, c: nat, log: Log)
    requires fd.Valid() && p < |fd.peers| && PeerAgrees(fd, p, c, log)
    ensures var (after, r) := PutI(fd, p, data);
      && OnlyPeer(fd, after, p) && after.Valid() && (r.Err? ==> after == fd && r == Err(Busy))
      && PeerAgrees(after, p, c, if r.Ok? then log + [data] else log)
  {
    hide Seq;
    hide Succ;
    hide IControl;
    hide HighSeq;
    hide Agrees;
    hide NoCr;
    hide Rotated;
    var ctl, l := fd.peers[p].ctl, |log|;
    var r := FindFree(fd.iq.slots, fd.iq.lookup, 0);
    WindowBound(fd.iq.slots, AddressOf(fd, p), c, l, log);
    SeqSucc(l);
    SeqEqual(l + 1, c);
    if PutI(fd, p, data).1.Ok? {
      CtlOk(fd, p);
      SuccSmall(ctl.lastNs);
      ControlRoundTrip(Seq(l), ctl.nextNr);
      AllocateAgrees(fd.iq.slots, AddressOf(fd, p), c, l, log, r.value, IFrameFor(fd, p, data));
      assert AddressOf(PutI(fd, p, data).0, p) == AddressOf(fd, p);
    }
  }

  /** A send extends the window of the peer it is for, or changes nothing; no other window moves. */
  lemma SendKeepsWindows(fd: Fd, address: byte, data: seq<byte>, c: seq<nat>, log: seq<Log>)
    requires fd.Valid() && AllAgree(fd, c, log)
    ensures var (after, r) := SendPacket(fd, address, data);
      && (r.Err? ==> after == fd)
      && (r.Ok? ==> SendTarget(fd, address) < |fd.peers|)
      && (r.Ok? ==> AllAgree(after, c, log[SendTarget(fd, address) := log[SendTarget(fd, address)] + [data]]))
  {
    hide PutI;
    hide PeerAgrees;
    hide OnlyPeer;
    hide NoCr;
    var (after, r) := SendPacket(fd, address, data);
    var p := SendTarget(fd, address);
    if p != HDLC_INVALID_PEER_INDEX {
      PutIPeer(fd, p, data, c[p], log[p]);
      if r.Ok? {
        var mid := PutI(fd, p, data).0;
        Reassemble(fd, mid, p, c, log, c[p], log[p] + [data]);
        assert c[p := c[p]] == c;
        SameAll(mid, after, c, log[p := log[p] + [data]]);
      }
    }
  }

  lemma SameAll(fd: Fd, after: Fd, c: seq<nat>, log: seq<Log>)
    requires AllAgree(fd, c, log)
    requires after.peers == fd.peers && after.localAddr == fd.localAddr && after.iq.slots == fd.iq.slots
    ensures AllAgree(after, c, log)
  {
    hide PeerAgrees;
    forall p | 0 <= p < |fd.peers| ensures PeerAgrees(after, p, c[p], log[p]) {
      SameWindow(fd, after, p, c[p], log[p]);
    }
  }

  lemma TimeoutOnly(fd: Fd, p: nat, frameDue: bool, iDue: bool)
    requires fd.Valid() && p < |fd.peers|
    ensures OnlyPeer(fd, TimeoutPeer(fd, p, frameDue, iDue), p)
  {
    hide AddressOf;
    hide PutService;
    hide SwitchToDisconnected;
    SwitchOnly(fd, p);
    PutServiceOnly(fd, ServiceFrame(UFrame, AddressOf(fd, p), SABM_CONTROL));
    if fd.peers[p].retries > 0 {
      var once := fd.(peers := fd.peers[p := fd.peers[p].(retries := fd.peers[p].retries - 1)]);
      PutServiceOnly(once, ServiceFrame(UFrame, AddressOf(once, p), SABM_CONTROL));
    }
  }

  /** The retry timer of an unanswered peer whose retries are used up. */
  predicate GivesUp(peer: Peer, iDue: bool) {
    peer.state == Connected && peer.ctl.HasUnconfirmed() && iDue && peer.retries == 0
  }

  lemma TimeoutIs(fd: Fd, p: nat, frameDue: bool, iDue: bool)
    requires p < |fd.peers|
    ensures var after := TimeoutPeer(fd, p, frameDue, iDue);
      && |after.peers| == |fd.peers|
      && if GivesUp(fd.peers[p], iDue) then after == SwitchToDisconnected(fd, p)
         else
           && after.iq == fd.iq && after.peers[p].ctl.confirmNs == fd.peers[p].ctl.confirmNs
           && after.peers[p].ctl.lastNs == fd.peers[p].ctl.lastNs
  {
    hide PutService;
    hide AddressOf;
    PutServiceOnly(fd, ServiceFrame(UFrame, AddressOf(fd, p), SABM_CONTROL));
    if fd.peers[p].retries > 0 {
      var once := fd.(peers := fd.peers[p := fd.peers[p].(retries := fd.peers[p].retries - 1)]);
      PutServiceOnly(once, ServiceFrame(UFrame, AddressOf(once, p), SABM_CONTROL));
    }
  }

  /** A timer firing for peer p rewinds it, dials, or gives it up and drops its frames; no other window moves. */
  lemma TimeoutKeepsWindows(fd: Fd, p: nat, frameDue: bool, iDue: bool, c: seq<nat>, log: seq<Log>)
    requires fd.Valid() && p < |fd.peers| && AllAgree(fd, c, log)
    ensures var after := TimeoutPeer(fd, p, frameDue, iDue);
      && OnlyPeer(fd, after, p)
      && if GivesUp(fd.peers[p], iDue) then AllAgree(after, c[p := 0], log[p := []]) else AllAgree(after, c, log)
  {
    hide Fd.Valid;
    hide TimeoutPeer;
    hide PeerAgrees;
    hide SwitchToDisconnected;
    hide DistinctAddresses;
    TimeoutOnly(fd, p, frameDue, iDue);
    TimeoutIs(fd, p, frameDue, iDue);
    var after := TimeoutPeer(fd, p, frameDue, iDue);
    if GivesUp(fd.peers[p], iDue) {
      SwitchPeer(fd, p, c[p], log[p]);
      Reassemble(fd, after, p, c, log, 0, []);
    } else {
      assert c[p := c[p]] == c && log[p := log[p]] == log;
      SameWindow(fd, after, p, c[p], log[p]);
      Reassemble(fd, after, p, c, log, c[p], log[p]);
    }
  }

  /** Handing frames to the transmitter moves no window. */
  lemma GenerateKeepsWindows(fd: Fd, c: seq<nat>, log: seq<Log>)
    requires fd.Valid() && AllAgree(fd, c, log)
    ensures AllAgree(Generate(fd).0, c, log)
  {
    hide NoCr;
    hide Succ;
    hide PeerAgrees;
    hide Eligible;
    hide NextIFrame;
    var after := Generate(fd).0;
    match FirstOccupied(fd.sq.slots, 0)
    case Some(i) => SameAll(fd, after, c, log);
    case None =>
      match FirstEligible(fd, 0)
      case None =>
      case Some(p) =>
        SameWindow(fd, after, p, c[p], log[p]);
        Reassemble(fd, after, p, c, log, c[p], log[p]);
        assert c[p := c[p]] == c && log[p := log[p]] == log;
  }

  // ----- Back-pressure -----

  /** The advertised free slot is there. */
  predicate BitSound(fd: Fd) {
    fd.freeSlots ==> HasFree(fd.iq.slots)
  }

  /** For a station with one peer: while connected, a free slot is also advertised. */
  predicate BitExact(fd: Fd) {
    |fd.peers| == 1 && BitSound(fd) && (fd.peers[0].state == Connected ==> (fd.freeSlots <==> HasFree(fd.iq.slots)))
  }

  lemma ReleaseFree(before: seq<Slot>, after: seq<Slot>)
    requires |after| == |before| && forall j :: 0 <= j < |before| ==> after[j] == before[j] || after[j].None?
    ensures HasFree(before) ==> HasFree(after)
  {}

  lemma FrameKeepsBit(fd: Fd, data: seq<byte>)
    requires fd.Valid()
    ensures BitSound(fd) ==> BitSound(OnFrame(fd, data))
    ensures BitExact(fd) ==> BitExact(OnFrame(fd, data))
  {
    hide NoCr;
    hide IsU;
    hide IsI;
    hide IsS;
    hide OnI;
    hide OnS;
    hide OnU;
    hide FindFree;
    hide AddressToPeer;
    hide HasFree;
    if |data| >= 2 {
      var p := AddressToPeer(fd.peers, fd.localAddr, data[0]);
      if p != HDLC_INVALID_PEER_INDEX {
        OnUBit(fd, p, data[1]);
        OnIBit(fd, p, data);
        OnSBit(fd, p, data);
      }
    }
  }

  lemma ConfirmBit(fd: Fd, p: nat, nr: byte)
    requires fd.Valid() && p < |fd.peers| && nr <= 7
    ensures var after := Confirm(fd, p, nr);
      && (BitSound(fd) ==> BitSound(after)) && (BitExact(fd) ==> BitExact(after))
      && |after.peers| == |fd.peers| && after.peers[p].state == fd.peers[p].state
  {
    hide FreeAllNs;
    FreeAllKeeps(fd.iq.slots, AddressOf(fd, p), Confirmed(fd.peers[p].ctl.confirmNs, nr));
    ReleaseFree(fd.iq.slots, Confirm(fd, p, nr).iq.slots);
  }

  lemma OnIBit(fd: Fd, p: nat, data: seq<byte>)
    requires fd.Valid() && p < |fd.peers| && |data| >= 2
    ensures BitSound(fd) ==> BitSound(OnI(fd, p, data))
    ensures BitExact(fd) ==> BitExact(OnI(fd, p, data))
  {
    hide NoCr;
    hide Succ;
    hide LowSeq;
    hide HighSeq;
    hide RrControl;
    hide RejControl;
    hide FindFree;
    hide Confirm;
    hide HasFree;
    ConfirmBit(fd, p, LowSeq(data[1]));
  }

  lemma OnSBit(fd: Fd, p: nat, data: seq<byte>)
    requires fd.Valid() && p < |fd.peers| && |data| >= 2
    ensures BitSound(fd) ==> BitSound(OnS(fd, p, data))
    ensures BitExact(fd) ==> BitExact(OnS(fd, p, data))
  {
    hide HighSeq;
    hide SType;
    hide Confirm;
    hide HasFree;
    ConfirmBit(fd, p, HighSeq(data[1]));
  }

  lemma OnUBit(fd: Fd, p: nat, control: byte)
    requires fd.Valid() && p < |fd.peers|
    ensures BitSound(fd) ==> BitSound(OnU(fd, p, control))
    ensures BitExact(fd) ==> BitExact(OnU(fd, p, control))
  {
    hide NoCr;
    hide UType;
    hide FindFree;
    hide SwitchToConnected;
    hide SwitchToDisconnected;
    hide HasFree;
    SwitchBit(fd, p);
    SwitchBit(PutU(fd, p, UA_CONTROL), p);
  }

  lemma SwitchBit(fd: Fd, p: nat)
    requires p < |fd.peers|
    ensures BitSound(fd) ==> BitSound(SwitchToConnected(fd, p)) && BitSound(SwitchToDisconnected(fd, p))
    ensures BitExact(fd) ==> BitExact(SwitchToDisconnected(fd, p))
    ensures BitExact(fd) ==> BitExact(SwitchToConnected(fd, p))
  {
    hide NoCr;
    ReleaseFree(fd.iq.slots, SwitchToDisconnected(fd, p).iq.slots);
  }

  lemma SendKeepsBit(fd: Fd, address: byte, data: seq<byte>)
    requires fd.Valid()
    ensures BitSound(fd) ==> BitSound(SendPacket(fd, address, data).0)
    ensures BitExact(fd) ==> BitExact(SendPacket(fd, address, data).0)
  {
    hide NoCr;
    hide Succ;
    hide IControl;
    hide SendTarget;
    hide FindFree;
    hide HasFree;
    hide Allocated;
  }

  lemma TimeoutKeepsBit(fd: Fd, p: nat, frameDue: bool, iDue: bool)
    requires fd.Valid() && p < |fd.peers|
    ensures BitSound(fd) ==> BitSound(TimeoutPeer(fd, p, frameDue, iDue))
    ensures BitExact(fd) ==> BitExact(TimeoutPeer(fd, p, frameDue, iDue))
  {
    hide NoCr;
    hide FindFree;
    hide HasFree;
    hide SwitchToDisconnected;
    SwitchBit(fd, p);
  }

  lemma GenerateKeepsBit(fd: Fd)
    ensures BitSound(fd) ==> BitSound(Generate(fd).0)
    ensures BitExact(fd) ==> BitExact(Generate(fd).0)
  {
    hide NoCr;
    hide Succ;
    hide HasFree;
    hide Eligible;
    hide NextIFrame;
  }

  /**
   Back-pressure is exact: on a connected station with one peer a payload of legal size is
   accepted when a slot is free and times out when none is. Busy never happens.
   */
  lemma BackPressureExact(fd: Fd, address: byte, data: seq<byte>, c: nat, log: Log)
    requires fd.Valid() && BitExact(fd) && fd.peers[0].state == Connected && PeerAgrees(fd, 0, c, log)
    requires |data| <= fd.mtu && SendTarget(fd, address) == 0
    ensures SendPacket(fd, address, data).1 == if HasFree(fd.iq.slots) then Ok(Unit) else Err(Timeout)
  {
    hide NoCr;
    hide Seq;
    hide Succ;
    hide Agrees;
    hide IControl;
    hide SendTarget;
    FindFreeComplete(fd.iq.slots, fd.iq.lookup, 0);
    if HasFree(fd.iq.slots) {
      RoomInWindow(fd.iq.slots, AddressOf(fd, 0), c, |log|, log);
    }
  }
}
