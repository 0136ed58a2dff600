/**
 What a received frame makes of a station with any number of peers, one lemma for each
 kind of frame: the state of the peer it is for, its counters, its slots, what waits to be
 transmitted and what the user is told.
 */
module Reactions {
  import opened Base
  import opened SeqNum
  import opened FdDefs
  import opened IQueueControl
  import opened FrameQueue
  import opened FdSpec
  import opened Window
  import opened Isolation

  // ----- Answers -----

  /** The frame waits in a slot that was free and nothing else changed; a full queue drops it. */
  ghost predicate Queues(before: seq<Slot>, after: seq<Slot>, f: FrameInfo) {
    if HasFree(before) then exists j :: 0 <= j < |before| && before[j].None? && after == before[j := Some(f)]
    else after == before
  }

  /** This answer, addressed as peer p is, was given, and the event raised if it found a slot. */
  ghost predicate Answers(fd: Fd, after: Fd, p: nat, kind: FrameType, control: byte)
    requires p < |fd.peers|
  {
    && Queues(fd.sq.slots, after.sq.slots, FrameInfo(kind, FrameHeader(AddressOf(fd, p), control), []))
    && after.txAvailable == (fd.txAvailable || HasFree(fd.sq.slots))
  }

  /** No I-frame was delivered, nothing was reported and the I-queue is as it was. */
  predicate DataSame(fd: Fd, after: Fd) {
    after.iq == fd.iq && after.delivered == fd.delivered && after.freeSlots == fd.freeSlots
  }

  predicate SettingsSame(fd: Fd, after: Fd) {
    && after.localAddr == fd.localAddr && after.mode == fd.mode
    && after.maxRetries == fd.maxRetries && after.mtu == fd.mtu
  }

  lemma PutServiceQueues(fd: Fd, f: FrameInfo)
    requires |fd.sq.slots| > 0 && fd.sq.lookup < |fd.sq.slots|
    ensures var after := PutService(fd, f);
      && Queues(fd.sq.slots, after.sq.slots, f) && after.txAvailable == (fd.txAvailable || HasFree(fd.sq.slots))
      && after == fd.(sq := after.sq, txAvailable := after.txAvailable)
  {
    FindFreeComplete(fd.sq.slots, fd.sq.lookup, 0);
  }

  lemma PutAnswers(fd: Fd, p: nat, kind: FrameType, control: byte)
    requires fd.Valid() && p < |fd.peers|
    ensures var after := PutService(fd, ServiceFrame(kind, AddressOf(fd, p), control));
      && Answers(fd, after, p, kind, control) && SettingsSame(fd, after) && DataSame(fd, after)
      && after.peers == fd.peers && after.connects == fd.connects
      && after == fd.(sq := after.sq, txAvailable := after.txAvailable)
  {
    hide AddressOf;
    PutServiceQueues(fd, ServiceFrame(kind, AddressOf(fd, p), control));
  }

  /** The frame is for peer p. */
  predicate IsFor(fd: Fd, data: seq<byte>, p: nat)
    requires fd.Valid()
  {
    p == FramePeer(fd, data) < |fd.peers|
  }

  lemma IsForLong(fd: Fd, data: seq<byte>, p: nat)
    requires fd.Valid() && IsFor(fd, data, p)
    ensures |data| >= 2 && p == AddressToPeer(fd.peers, fd.localAddr, data[0]) < |fd.peers| <= 255
  {}

  // ----- Requests -----

  predicate Calls(control: byte) {
    IsU(control) && (UType(control) == HDLC_U_FRAME_TYPE_SABM || UType(control) == HDLC_U_FRAME_TYPE_SNRM)
  }

  predicate Confirms(control: byte) {
    IsU(control) && UType(control) == HDLC_U_FRAME_TYPE_UA
  }

  predicate HangsUp(control: byte) {
    IsU(control) && UType(control) == HDLC_U_FRAME_TYPE_DISC
  }

  predicate Denies(control: byte) {
    IsU(control) && UType(control) == HDLC_U_FRAME_TYPE_DM
  }

  /** Peer p starts afresh: connected, with the full retry budget, and the user is told; unless it was connected. */
  ghost predicate Joins(fd: Fd, after: Fd, p: nat)
    requires p < |fd.peers|
  {
    var was := fd.peers[p];
    && after.iq == fd.iq && after.delivered == fd.delivered && SettingsSame(fd, after)
    && if was.state == Connected then
         after.peers == fd.peers && after.connects == fd.connects && after.freeSlots == fd.freeSlots
       else
         && after.peers == fd.peers[p := Peer(Connected, was.addr, 0, false, Ctl(0, 0, 0, 0), fd.maxRetries)]
         && after.connects == fd.connects + [(UserAddress(fd, p), true)]
         && after.txAvailable && after.freeSlots == (fd.freeSlots || HasFree(fd.iq.slots))
  }

  /** Peer p is disconnected, its counters and slots are cleared and the user is told; unless it was disconnected. */
  ghost predicate Leaves(fd: Fd, after: Fd, p: nat)
    requires p < |fd.peers|
  {
    var was := fd.peers[p];
    && after.delivered == fd.delivered && after.freeSlots == fd.freeSlots && SettingsSame(fd, after)
    && if was.state == Disconnected then
         after.peers == fd.peers && after.connects == fd.connects && after.iq == fd.iq
       else
         && after.peers == fd.peers[p := Peer(Disconnected, was.addr, 0, false, Ctl(0, 0, 0, 0), was.retries)]
         && after.connects == fd.connects + [(UserAddress(fd, p), false)]
         && |after.iq.slots| == |fd.iq.slots| && after.iq.lookup == fd.iq.lookup
         && (forall j :: 0 <= j < |fd.iq.slots| ==>
               after.iq.slots[j] == if Addressed(fd.iq.slots[j], AddressOf(fd, p)) then None else fd.iq.slots[j])
  }

  lemma SwitchedJoins(fd: Fd, p: nat)
    requires p < |fd.peers|
    ensures Joins(fd, SwitchToConnected(fd, p), p) && SwitchToConnected(fd, p).sq == fd.sq
    ensures fd.peers[p].state == Connected ==> SwitchToConnected(fd, p) == fd
    ensures Leaves(fd, SwitchToDisconnected(fd, p), p) && SwitchToDisconnected(fd, p).sq == fd.sq
    ensures SwitchToDisconnected(fd, p).txAvailable == fd.txAvailable
  {
    hide AddressOf;
    hide UserAddress;
  }

  /** A connection request is answered with UA and connects. */
  lemma RequestJoins(fd: Fd, data: seq<byte>, p: nat)
    requires fd.Valid() && IsFor(fd, data, p) && Calls(data[1])
    ensures var after := OnFrame(fd, data);
      && Joins(fd, after, p)
      && after.txAvailable == (fd.txAvailable || HasFree(fd.sq.slots) || fd.peers[p].state != Connected)
      && Queues(fd.sq.slots, after.sq.slots, FrameInfo(UFrame, FrameHeader(AddressOf(fd, p), UA_CONTROL), []))
  {
    hide SwitchToConnected;
    hide PutService;
    hide Queues;
    hide IsU;
    hide UType;
    hide FramePeer;
    hide AddressToPeer;
    hide AddressOf;
    IsForLong(fd, data, p);
    var asked := PutU(fd, p, UA_CONTROL);
    PutAnswers(fd, p, UFrame, UA_CONTROL);
    SwitchedJoins(asked, p);
    SameUser(fd, asked, p);
    assert OnFrame(fd, data) == SwitchToConnected(asked, p);
  }

  lemma SameUser(fd: Fd, after: Fd, p: nat)
    requires p < |fd.peers| && after.peers == fd.peers && after.localAddr == fd.localAddr
    ensures UserAddress(after, p) == UserAddress(fd, p) && AddressOf(after, p) == AddressOf(fd, p)
  {}

  /** A confirmation connects a station that asked for it, disconnects one that asked for that, and is else ignored. */
  lemma ConfirmationSwitches(fd: Fd, data: seq<byte>, p: nat)
    requires fd.Valid() && IsFor(fd, data, p) && Confirms(data[1])
    ensures var after, state := OnFrame(fd, data), fd.peers[p].state;
      && after.sq == fd.sq
      && (state == Connecting ==> Joins(fd, after, p))
      && (state == Disconnecting ==> Leaves(fd, after, p) && after.txAvailable == fd.txAvailable)
      && (state != Connecting && state != Disconnecting ==> after == fd)
  {
    hide SwitchToConnected;
    hide SwitchToDisconnected;
    hide PutService;
    hide IsU;
    hide UType;
    hide FramePeer;
    hide AddressToPeer;
    hide AddressOf;
    hide Joins;
    hide Leaves;
    IsForLong(fd, data, p);
    SwitchedJoins(fd, p);
  }

  /** DISC and DM end the connection; DISC is answered with UA, DM with nothing. */
  lemma EndLeaves(fd: Fd, data: seq<byte>, p: nat)
    requires fd.Valid() && IsFor(fd, data, p) && (HangsUp(data[1]) || Denies(data[1]))
    ensures var after := OnFrame(fd, data);
      && Leaves(fd, after, p)
      && (HangsUp(data[1]) ==> Answers(fd, after, p, UFrame, UA_CONTROL))
      && (Denies(data[1]) ==> after.sq == fd.sq && after.txAvailable == fd.txAvailable)
  {
    hide SwitchToDisconnected;
    hide PutService;
    hide Queues;
    hide IsU;
    hide UType;
    hide FramePeer;
    hide AddressToPeer;
    hide AddressOf;
    hide UserAddress;
    IsForLong(fd, data, p);
    var asked := PutU(fd, p, UA_CONTROL);
    PutAnswers(fd, p, UFrame, UA_CONTROL);
    SwitchedJoins(asked, p);
    SwitchedJoins(fd, p);
    SameUser(fd, asked, p);
    assert OnFrame(fd, data) == SwitchToDisconnected(if HangsUp(data[1]) then asked else fd, p);
  }

  /** So after either, peer p is disconnected; if it was not before, nothing of it is left and the user is told once. */
  lemma EndedForGood(fd: Fd, data: seq<byte>, p: nat)
    requires fd.Valid() && IsFor(fd, data, p) && (HangsUp(data[1]) || Denies(data[1]))
    ensures var after, open := OnFrame(fd, data), fd.peers[p].state != Disconnected;
      && |after.peers| == |fd.peers| && after.peers[p].state == Disconnected
      && after.connects == fd.connects + (if open then [(UserAddress(fd, p), false)] else [])
      && (open ==> after.peers[p].ctl == Ctl(0, 0, 0, 0) && CountMine(after.iq.slots, AddressOf(fd, p)) == 0)
      && (HangsUp(data[1]) && HasFree(fd.sq.slots) ==>
            exists j :: 0 <= j < |fd.sq.slots| && fd.sq.slots[j].None? && after.sq.slots ==
              fd.sq.slots[j := Some(FrameInfo(UFrame, FrameHeader(AddressOf(fd, p), UA_CONTROL), []))])
  {
    hide OnFrame;
    hide FramePeer;
    hide IsU;
    hide AddressOf;
    hide UserAddress;
    hide HangsUp;
    hide Denies;
    EndLeaves(fd, data, p);
    if fd.peers[p].state != Disconnected {
      CountNone(OnFrame(fd, data).iq.slots, AddressOf(fd, p));
    }
  }

  /** Frames that are too short, for nobody, or of an unknown unnumbered kind change nothing. */
  lemma OthersIgnored(fd: Fd, data: seq<byte>)
    requires fd.Valid()
    requires FramePeer(fd, data) == HDLC_INVALID_PEER_INDEX || (IsU(data[1]) && !Calls(data[1]) && !Confirms(data[1])
      && !HangsUp(data[1]) && !Denies(data[1]))
    ensures OnFrame(fd, data) == fd
  {
    hide IsU;
    hide UType;
    hide AddressToPeer;
  }

  // ----- Data -----

  /** An I- or S-frame for a peer that is not connected is answered with DM and has no other effect. */
  lemma UnconnectedDenied(fd: Fd, data: seq<byte>, p: nat)
    requires fd.Valid() && IsFor(fd, data, p) && !IsU(data[1])
    requires fd.peers[p].state !in {Connected, Disconnecting}
    ensures var after := OnFrame(fd, data);
      && Answers(fd, after, p, UFrame, DM_CONTROL) && SettingsSame(fd, after) && DataSame(fd, after)
      && after.peers == fd.peers && after.connects == fd.connects
  {
    hide PutService;
    hide Queues;
    hide IsU;
    hide FramePeer;
    hide AddressToPeer;
    hide AddressOf;
    IsForLong(fd, data, p);
    PutAnswers(fd, p, UFrame, DM_CONTROL);
  }

  /** The slots after an acknowledgement: Window.AckIff says which frames are gone. */
  function SlotsAfter(fd: Fd, p: nat, nr: byte): seq<Slot>
    requires fd.Valid() && p < |fd.peers| && nr <= 7
  {
    FreeAllNs(fd.iq.slots, AddressOf(fd, p), Confirmed(fd.peers[p].ctl.confirmNs, nr))
  }

  /** An acknowledgement of nr was taken for peer p, which is now like this; nothing was reported. */
  ghost predicate Acknowledged(fd: Fd, after: Fd, p: nat, nr: byte, now: Peer)
    requires fd.Valid() && p < |fd.peers| && nr <= 7
  {
    && after.peers == fd.peers[p := now] && now.state == fd.peers[p].state && now.addr == fd.peers[p].addr
    && now.ctl.confirmNs == nr && now.ctl.lastNs == fd.peers[p].ctl.lastNs
    && after.iq == fd.iq.(slots := SlotsAfter(fd, p, nr))
    && after.freeSlots == (fd.freeSlots || HasFree(SlotsAfter(fd, p, nr)))
    && after.connects == fd.connects && SettingsSame(fd, after)
  }

  predicate TakesData(fd: Fd, p: nat)
    requires p < |fd.peers|
  {
    fd.peers[p].state == Connected || fd.peers[p].state == Disconnecting
  }

  lemma ConfirmIs(fd: Fd, p: nat, nr: byte)
    requires fd.Valid() && p < |fd.peers| && nr <= 7
    ensures var after := Confirm(fd, p, nr);
      var was := fd.peers[p];
      && Acknowledged(fd, after, p, nr, was.(ctl := was.ctl.(confirmNs := nr)))
      && after.sq == fd.sq && after.delivered == fd.delivered && after.txAvailable == fd.txAvailable
      && after.Valid() && AddressOf(after, p) == AddressOf(fd, p) && UserAddress(after, p) == UserAddress(fd, p)
  {
    hide NoCr;
    hide FreeAllNs;
    hide HasFree;
    ConfirmValid(fd, p, nr);
  }

  /** The expected I-frame is delivered under the peer's user address and acknowledged by an RR for the next one. */
  lemma ExpectedDelivered(fd: Fd, data: seq<byte>, p: nat)
    requires fd.Valid() && IsFor(fd, data, p) && IsI(data[1]) && TakesData(fd, p)
    requires HighSeq(data[1]) == fd.peers[p].ctl.nextNr
    ensures var after, was, nr := OnFrame(fd, data), fd.peers[p], Succ(fd.peers[p].ctl.nextNr);
      && Acknowledged(fd, after, p, LowSeq(data[1]),
           was.(sentNr := nr, sentReject := false, ctl := was.ctl.(confirmNs := LowSeq(data[1]), nextNr := nr)))
      && after.delivered == fd.delivered + [(UserAddress(fd, p), data[2..])]
      && Answers(fd, after, p, SFrame, RrControl(nr))
  {
    hide PutService;
    hide Confirm;
    hide Queues;
    hide FramePeer;
    hide AddressToPeer;
    hide PeerToAddress;
    hide IsPrimaryAddress;
    hide LowSeq;
    hide HighSeq;
    hide Succ;
    hide RrControl;
    hide RejControl;
    hide SlotsAfter;
    IsForLong(fd, data, p);
    NotU(data[1]);
    hide IsI;
    hide IsU;
    var nr := Succ(fd.peers[p].ctl.nextNr);
    ConfirmIs(fd, p, LowSeq(data[1]));
    var mid := Confirm(fd, p, LowSeq(data[1]));
    assert OnFrame(fd, data) == Accept(mid, p, data[2..]);
    AcceptIs(mid, p, data[2..]);
  }

  lemma NotU(control: byte)
    ensures IsI(control) || IsS(control) ==> !IsU(control)
    ensures IsI(control) ==> !IsS(control)
  {}

  lemma AcceptIs(fd: Fd, p: nat, payload: seq<byte>)
    requires fd.Valid() && p < |fd.peers|
    ensures var after, was, nr := Accept(fd, p, payload), fd.peers[p], Succ(fd.peers[p].ctl.nextNr);
      && after == fd.(peers := fd.peers[p := was.(sentNr := nr, sentReject := false, ctl := was.ctl.(nextNr := nr))],
                      delivered := fd.delivered + [(UserAddress(fd, p), payload)],
                      sq := after.sq, txAvailable := after.txAvailable)
      && Answers(fd, after, p, SFrame, RrControl(nr))
  {
    hide PutService;
    hide Queues;
    hide Succ;
    hide RrControl;
    hide NoCr;
    var was, nr := fd.peers[p], Succ(fd.peers[p].ctl.nextNr);
    var next := fd.(peers := fd.peers[p := was.(sentNr := nr, sentReject := false, ctl := was.ctl.(nextNr := nr))],
                    delivered := fd.delivered + [(UserAddress(fd, p), payload)]);
    AcceptingValid(fd, p, payload);
    PutAnswers(next, p, SFrame, RrControl(nr));
    assert AddressOf(next, p) == AddressOf(fd, p);
  }

  /** Any other I-frame is not delivered; a REJ for the expected one goes out for the first of them only. */
  lemma UnexpectedRejectedOnce(fd: Fd, data: seq<byte>, p: nat)
    requires fd.Valid() && IsFor(fd, data, p) && IsI(data[1]) && TakesData(fd, p)
    requires HighSeq(data[1]) != fd.peers[p].ctl.nextNr
    ensures var after, was := OnFrame(fd, data), fd.peers[p];
      && Acknowledged(fd, after, p, LowSeq(data[1]),
           was.(sentReject := true, ctl := was.ctl.(confirmNs := LowSeq(data[1]))))
      && after.delivered == fd.delivered
      && if was.sentReject then after.sq == fd.sq && after.txAvailable == fd.txAvailable
         else Answers(fd, after, p, SFrame, RejControl(was.ctl.nextNr))
  {
    hide PutService;
    hide Confirm;
    hide Queues;
    hide FramePeer;
    hide AddressToPeer;
    hide NoCr;
    hide IsPrimaryAddress;
    hide LowSeq;
    hide HighSeq;
    hide RejControl;
    hide SlotsAfter;
    IsForLong(fd, data, p);
    NotU(data[1]);
    hide IsI;
    hide IsU;
    ConfirmIs(fd, p, LowSeq(data[1]));
    var mid := Confirm(fd, p, LowSeq(data[1]));
    assert OnFrame(fd, data) == Refuse(mid, p);
    var next := mid.(peers := mid.peers[p := mid.peers[p].(sentReject := true)]);
    RejectingValid(mid, p);
    PutAnswers(next, p, SFrame, RejControl(mid.peers[p].ctl.nextNr));
    assert AddressOf(next, p) == AddressOf(mid, p);
    if mid.peers[p].sentReject {
      assert mid.peers[p := mid.peers[p].(sentReject := true)] == mid.peers;
    }
  }

  /** RR restores the retries, REJ and SREJ go back to the frame asked for, RNR does neither. */
  lemma SupervisoryTunes(fd: Fd, data: seq<byte>, p: nat)
    requires fd.Valid() && IsFor(fd, data, p) && IsS(data[1]) && TakesData(fd, p)
    ensures var after, was, nr := OnFrame(fd, data), fd.peers[p], HighSeq(data[1]);
      var acked, kind := was.ctl.(confirmNs := nr), SType(data[1]);
      && after.sq == fd.sq && after.delivered == fd.delivered
      && (kind == HDLC_S_FRAME_TYPE_RR ==>
            && Acknowledged(fd, after, p, nr, was.(retries := fd.maxRetries, ctl := acked))
            && after.txAvailable == fd.txAvailable)
      && (kind == HDLC_S_FRAME_TYPE_REJ || kind == HDLC_S_FRAME_TYPE_SREJ ==>
            && Acknowledged(fd, after, p, nr, was.(ctl := acked.(nextNs := nr)))
            && after.txAvailable)
      && (kind !in {HDLC_S_FRAME_TYPE_RR, HDLC_S_FRAME_TYPE_REJ, HDLC_S_FRAME_TYPE_SREJ} ==>
            && Acknowledged(fd, after, p, nr, was.(ctl := acked))
            && after.txAvailable == fd.txAvailable)
  {
    hide Confirm;
    hide FramePeer;
    hide AddressToPeer;
    hide NoCr;
    hide HighSeq;
    hide SType;
    hide SlotsAfter;
    IsForLong(fd, data, p);
    NotU(data[1]);
    var control := data[1];
    assert !IsI(control) by { NotU(control); }
    hide IsI;
    hide IsU;
    hide IsS;
    ConfirmIs(fd, p, HighSeq(data[1]));
    assert OnFrame(fd, data) == OnS(fd, p, data);
  }
}
