/**
 The end of a connection: what disconnect queues, what the peer makes of it, and that an
 exchange without losses leaves both ends disconnected with nothing of the connection left.
 */
module Farewell {
  import opened Base
  import opened SeqNum
  import opened FdDefs
  import opened IQueueControl
  import opened FrameQueue
  import opened FdSpec
  import opened Isolation
  import opened Reactions
  import opened Timers
  import opened Recovery
  import opened Addressing

  // ----- Hanging up -----

  /** Disconnecting succeeds exactly when a service slot is free; then a DISC to the first peer waits. */
  lemma DisconnectExact(fd: Fd)
    requires fd.Valid()
    ensures 1 <= |fd.peers|
    ensures var (after, r) := FdSpec.Disconnect(fd);
      && r == (if HasFree(fd.sq.slots) then Ok(Unit) else Err(Busy))
      && (r.Err? ==> after == fd)
      && (r.Ok? ==>
            && Answers(fd, after, 0, UFrame, DISC_CONTROL)
            && after.peers == fd.peers[0 := fd.peers[0].(state := Disconnecting)]
            && DataSame(fd, after) && SettingsSame(fd, after) && after.connects == fd.connects && after.Valid())
  {
    hide AddressOf;
    hide Queues;
    hide PutService;
    FindFreeComplete(fd.sq.slots, fd.sq.lookup, 0);
    PutAnswers(fd, 0, UFrame, DISC_CONTROL);
    PutServiceValid(fd, ServiceFrame(UFrame, AddressOf(fd, 0), DISC_CONTROL));
    StateValid(PutU(fd, 0, DISC_CONTROL), 0, Disconnecting);
  }

  // ----- One frame at one end -----

  /** The frame asks for a connection. */
  predicate Asks(frame: seq<byte>) {
    |frame| >= 2 && Calls(frame[1])
  }

  /** The frame ends the connection of a station with one peer in this state. */
  predicate Closes(fd: Fd, state: FdState, frame: seq<byte>)
    requires fd.Valid()
  {
    FramePeer(fd, frame) == 0
      && (HangsUp(frame[1]) || Denies(frame[1]) || (state == Disconnecting && Confirms(frame[1])))
  }

  /** Nothing is left of the connection. */
  ghost predicate Gone(fd: Fd)
    requires |fd.peers| == 1
  {
    && fd.peers[0].state == Disconnected && fd.peers[0].ctl == Ctl(0, 0, 0, 0)
    && forall j :: 0 <= j < |fd.iq.slots| ==> !Addressed(fd.iq.slots[j], AddressOf(fd, 0))
  }

  predicate OnePeer(fd: Fd) {
    fd.Valid() && |fd.peers| == 1
  }

  /** The station is as good as gone, or as it was. */
  ghost predicate EndsIf(fd: Fd, after: Fd, closes: bool)
    requires |fd.peers| == 1
  {
    && OnePeer(after) && SameNames(fd, after)
    && if closes then Gone(after) && after.connects == fd.connects + [(UserAddress(fd, 0), false)]
       else after.peers[0].state == fd.peers[0].state && after.connects == fd.connects
  }

  /** What any frame but a request makes of a station that is connected or hanging up. */
  lemma OneFrame(fd: Fd, frame: seq<byte>)
    requires OnePeer(fd) && fd.peers[0].state in {Connected, Disconnecting} && !Asks(frame)
    ensures EndsIf(fd, OnFrame(fd, frame), Closes(fd, fd.peers[0].state, frame))
  {
    hide OnFrame;
    hide FramePeer;
    hide IsU;
    hide IsI;
    hide IsS;
    hide UType;
    hide AddressOf;
    hide UserAddress;
    hide Answers;
    hide LowSeq;
    hide HighSeq;
    hide SlotsAfter;
    hide RrControl;
    hide RejControl;
    hide SType;
    OnFrameValid(fd, frame);
    FrameTouchesOnePeer(fd, frame);
    SameSelf(fd, OnFrame(fd, frame));
    if FramePeer(fd, frame) == HDLC_INVALID_PEER_INDEX {
      OthersIgnored(fd, frame);
    } else {
      IsForLong(fd, frame, 0);
      if IsU(frame[1]) {
        EndFrame(fd, frame);
      } else {
        DataKeepsUp(fd, frame);
      }
    }
  }

  lemma SameSelf(fd: Fd, after: Fd)
    requires |fd.peers| == 1 && SameNames(fd, after)
    ensures AddressOf(after, 0) == AddressOf(fd, 0) && UserAddress(after, 0) == UserAddress(fd, 0)
  {}

  /** I- and S-frames do not change the state. */
  lemma DataKeepsUp(fd: Fd, frame: seq<byte>)
    requires OnePeer(fd) && IsFor(fd, frame, 0) && !IsU(frame[1]) && fd.peers[0].state in {Connected, Disconnecting}
    ensures var after := OnFrame(fd, frame);
      |after.peers| == 1 && after.peers[0].state == fd.peers[0].state && after.connects == fd.connects
    ensures !HangsUp(frame[1]) && !Denies(frame[1]) && !Confirms(frame[1])
  {
    hide OnFrame;
    hide FramePeer;
    hide UType;
    hide AddressOf;
    hide UserAddress;
    hide Answers;
    hide LowSeq;
    hide HighSeq;
    hide SlotsAfter;
    hide RrControl;
    hide RejControl;
    hide SType;
    IsForLong(fd, frame, 0);
    KindsCover(frame[1]);
    hide IsU;
    hide IsI;
    hide IsS;
    if IsI(frame[1]) {
      if HighSeq(frame[1]) == fd.peers[0].ctl.nextNr {
        ExpectedDelivered(fd, frame, 0);
      } else {
        UnexpectedRejectedOnce(fd, frame, 0);
      }
    } else {
      SupervisoryTunes(fd, frame, 0);
    }
  }

  lemma KindsCover(control: byte)
    ensures IsU(control) || IsI(control) || IsS(control)
  {}

  lemma EndFrame(fd: Fd, frame: seq<byte>)
    requires OnePeer(fd) && IsFor(fd, frame, 0) && IsU(frame[1]) && !Calls(frame[1])
    requires fd.peers[0].state in {Connected, Disconnecting} && OnePeer(OnFrame(fd, frame))
    requires SameNames(fd, OnFrame(fd, frame))
    ensures EndsIf(fd, OnFrame(fd, frame), Closes(fd, fd.peers[0].state, frame))
  {
    hide OnFrame;
    hide FramePeer;
    hide IsU;
    hide UType;
    hide AddressOf;
    hide UserAddress;
    hide Answers;
    hide Fd.Valid;
    IsForLong(fd, frame, 0);
    KindsApart(frame[1]);
    SameSelf(fd, OnFrame(fd, frame));
    hide Calls;
    hide HangsUp;
    hide Denies;
    hide Confirms;
    if HangsUp(frame[1]) || Denies(frame[1]) {
      EndLeaves(fd, frame, 0);
    } else if Confirms(frame[1]) {
      ConfirmationSwitches(fd, frame, 0);
    } else {
      OthersIgnored(fd, frame);
    }
  }

  lemma KindsApart(control: byte)
    ensures Confirms(control) ==> !HangsUp(control) && !Denies(control)
  {}

  /** A station that is gone stays gone, whatever comes but a request. */
  lemma StaysGone(fd: Fd, frame: seq<byte>)
    requires OnePeer(fd) && Gone(fd) && !Asks(frame)
    ensures var after := OnFrame(fd, frame);
      OnePeer(after) && SameNames(fd, after) && Gone(after) && after.connects == fd.connects
  {
    hide OnFrame;
    hide FramePeer;
    hide IsU;
    hide UType;
    hide AddressOf;
    hide UserAddress;
    hide Answers;
    OnFrameValid(fd, frame);
    FrameTouchesOnePeer(fd, frame);
    SameSelf(fd, OnFrame(fd, frame));
    if FramePeer(fd, frame) == HDLC_INVALID_PEER_INDEX {
      OthersIgnored(fd, frame);
    } else {
      IsForLong(fd, frame, 0);
      if !IsU(frame[1]) {
        UnconnectedDenied(fd, frame, 0);
      } else if HangsUp(frame[1]) || Denies(frame[1]) {
        EndLeaves(fd, frame, 0);
      } else if Confirms(frame[1]) {
        ConfirmationSwitches(fd, frame, 0);
      } else {
        OthersIgnored(fd, frame);
      }
    }
  }

  // ----- Many frames at one end -----

  /** No frame of the list asks for a connection. */
  predicate NoneAsks(frames: seq<seq<byte>>) {
    forall k :: 0 <= k < |frames| ==> !Asks(frames[k])
  }

  ghost predicate SomeCloses(fd: Fd, state: FdState, frames: seq<seq<byte>>)
    requires fd.Valid()
  {
    exists k :: 0 <= k < |frames| && Closes(fd, state, frames[k])
  }

  lemma SameCloses(fd: Fd, after: Fd, state: FdState, frame: seq<byte>)
    requires OnePeer(fd) && OnePeer(after) && SameNames(fd, after)
    ensures Closes(after, state, frame) <==> Closes(fd, state, frame)
  {
    hide IsU;
    hide UType;
    SameAddress(fd, after);
    hide AddressToPeer;
  }

  /**
   Whatever frames arrive, short of a request: the connection ends if and only if one of
   them closes it, and then nothing is left of it and the user is told once.
   */
  lemma {:induction false} FramesEnd(fd: Fd, frames: seq<seq<byte>>)
    requires OnePeer(fd) && fd.peers[0].state in {Connected, Disconnecting} && NoneAsks(frames)
    ensures EndsIf(fd, OnFrames(fd, frames), SomeCloses(fd, fd.peers[0].state, frames))
    decreases |frames|
  {
    hide OnFrame;
    hide Closes;
    hide Gone;
    hide UserAddress;
    hide Asks;
    if frames != [] {
      var n, state := |frames| - 1, fd.peers[0].state;
      FramesEnd(fd, frames[..n]);
      var mid := OnFrames(fd, frames[..n]);
      assert forall k :: 0 <= k < n ==> frames[..n][k] == frames[k];
      SameSelf(fd, mid);
      SameCloses(fd, mid, state, frames[n]);
      if SomeCloses(fd, state, frames[..n]) {
        StaysGone(mid, frames[n]);
      } else {
        OneFrame(mid, frames[n]);
      }
    }
  }

  // ----- What waits meanwhile -----

  /** Waiting frames stay where they are, and none that is added asks for a connection. */
  ghost predicate Grows(before: seq<Slot>, after: seq<Slot>) {
    && |after| == |before|
    && (forall j :: 0 <= j < |before| && before[j].Some? ==> after[j] == before[j])
    && (forall j :: 0 <= j < |before| && before[j].None? && after[j].Some? ==> !Calls(after[j].value.header.control))
  }

  lemma AnswerGrows(before: seq<Slot>, after: seq<Slot>, f: FrameInfo)
    requires Queues(before, after, f) && !Calls(f.header.control)
    ensures Grows(before, after)
  {
    hide Calls;
    if HasFree(before) {
      var j :| 0 <= j < |before| && before[j].None? && after == before[j := Some(f)];
    }
  }

  lemma AnswersAreNoRequests(nr: byte)
    requires nr <= 7
    ensures !Calls(UA_CONTROL) && !Calls(DM_CONTROL) && !Calls(DISC_CONTROL)
    ensures !Calls(RrControl(nr)) && !Calls(RejControl(nr))
  {
    UControlRoundTrip();
    ControlRoundTrip(0, nr);
  }

  /** Whatever arrives. */
  lemma FrameGrows(fd: Fd, frame: seq<byte>)
    requires fd.Valid()
    ensures Grows(fd.sq.slots, OnFrame(fd, frame).sq.slots)
  {
    hide OnFrame;
    hide FramePeer;
    hide IsU;
    hide UType;
    hide AddressOf;
    hide UserAddress;
    hide Queues;
    hide Joins;
    hide Leaves;
    hide RrControl;
    hide RejControl;
    hide Calls;
    AnswersAreNoRequests(0);
    var p, after := FramePeer(fd, frame), OnFrame(fd, frame);
    if p == HDLC_INVALID_PEER_INDEX {
      OthersIgnored(fd, frame);
    } else {
      IsForLong(fd, frame, p);
      if !IsU(frame[1]) {
        DataGrows(fd, frame, p);
      } else if Calls(frame[1]) {
        RequestJoins(fd, frame, p);
        AnswerGrows(fd.sq.slots, after.sq.slots, ServiceFrame(UFrame, AddressOf(fd, p), UA_CONTROL));
      } else if HangsUp(frame[1]) {
        EndLeaves(fd, frame, p);
        AnswerGrows(fd.sq.slots, after.sq.slots, ServiceFrame(UFrame, AddressOf(fd, p), UA_CONTROL));
      } else if Denies(frame[1]) {
        EndLeaves(fd, frame, p);
      } else if Confirms(frame[1]) {
        ConfirmationSwitches(fd, frame, p);
      } else {
        OthersIgnored(fd, frame);
      }
    }
  }

  lemma DataGrows(fd: Fd, frame: seq<byte>, p: nat)
    requires fd.Valid() && IsFor(fd, frame, p) && |frame| >= 2 && !IsU(frame[1])
    ensures Grows(fd.sq.slots, OnFrame(fd, frame).sq.slots)
  {
    hide OnFrame;
    hide FramePeer;
    hide AddressOf;
    hide UserAddress;
    hide Queues;
    hide Acknowledged;
    hide LowSeq;
    hide HighSeq;
    hide RrControl;
    hide RejControl;
    hide Calls;
    hide Succ;
    hide SType;
    KindsCover(frame[1]);
    hide IsU;
    hide IsI;
    hide IsS;
    CtlOk(fd, p);
    var nr, after := fd.peers[p].ctl.nextNr, OnFrame(fd, frame);
    SuccSmall(nr);
    AnswersAreNoRequests(nr);
    AnswersAreNoRequests(Succ(nr));
    if !TakesData(fd, p) {
      UnconnectedDenied(fd, frame, p);
      AnswerGrows(fd.sq.slots, after.sq.slots, ServiceFrame(UFrame, AddressOf(fd, p), DM_CONTROL));
    } else if !IsI(frame[1]) {
      SupervisoryTunes(fd, frame, p);
    } else if HighSeq(frame[1]) == nr {
      ExpectedDelivered(fd, frame, p);
      AnswerGrows(fd.sq.slots, after.sq.slots, ServiceFrame(SFrame, AddressOf(fd, p), RrControl(Succ(nr))));
    } else {
      UnexpectedRejectedOnce(fd, frame, p);
      if !fd.peers[p].sentReject {
        AnswerGrows(fd.sq.slots, after.sq.slots, ServiceFrame(SFrame, AddressOf(fd, p), RejControl(nr)));
      }
    }
  }

  lemma {:induction false} FramesGrow(fd: Fd, frames: seq<seq<byte>>)
    requires fd.Valid()
    ensures Grows(fd.sq.slots, OnFrames(fd, frames).sq.slots)
    decreases |frames|
  {
    hide OnFrame;
    hide Fd.Valid;
    hide Calls;
    if frames != [] {
      var n := |frames| - 1;
      FramesGrow(fd, frames[..n]);
      FrameGrows(OnFrames(fd, frames[..n]), frames[n]);
    }
  }

  /** No request for a connection waits. */
  predicate NoRequest(slots: seq<Slot>) {
    forall j :: 0 <= j < |slots| && slots[j].Some? ==> !Calls(slots[j].value.header.control)
  }

  lemma {:induction false} WaitingAsksNothing(slots: seq<Slot>, i: nat)
    requires i <= |slots| && NoRequest(slots)
    ensures NoneAsks(ServiceBytes(slots, i))
    decreases |slots| - i
  {
    hide Calls;
    if i < |slots| {
      WaitingAsksNothing(slots, i + 1);
    }
  }

  /** What waits is among what goes out. */
  lemma {:induction false} WaitingGoes(slots: seq<Slot>, i: nat, j: nat) returns (k: nat)
    requires i <= j < |slots| && slots[j].Some?
    ensures k < |ServiceBytes(slots, i)| && ServiceBytes(slots, i)[k] == slots[j].value.ToBytes()
    decreases j - i
  {
    if i == j {
      k := 0;
    } else {
      k := WaitingGoes(slots, i + 1, j);
      k := if slots[i].None? then k else k + 1;
    }
  }

  // ----- Both ends -----

  /** All that waits at a station, as it goes out, and the station then. */
  function Burst(fd: Fd): seq<seq<byte>> {
    Outputs(fd, |ServiceBytes(fd.sq.slots, 0)|)
  }

  function Spent(fd: Fd): Fd {
    After(fd, |ServiceBytes(fd.sq.slots, 0)|)
  }

  /** A station whose one peer is not connected has nothing but service frames to transmit. */
  lemma BurstIs(fd: Fd)
    requires OnePeer(fd) && fd.peers[0].state != Connected
    ensures Burst(fd) == ServiceBytes(fd.sq.slots, 0) && Spent(fd) == Flushed(fd)
    ensures Generate(Spent(fd)).1.None?
  {
    hide ServiceBytes;
    ServiceFirst(fd, 0, 0);
    FirstIsNone(Flushed(fd).sq.slots, 0);
    assert !Eligible(Flushed(fd), 0);
    assert FirstEligible(Flushed(fd), 0) == FirstEligible(Flushed(fd), 1) == None;
  }

  /** Two stations with one peer each, which is the other. */
  predicate Pair(x: Fd, y: Fd) {
    && OnePeer(x) && OnePeer(y)
    && AddressToPeer(x.peers, x.localAddr, AddressOf(y, 0)) == 0
    && AddressToPeer(y.peers, y.localAddr, AddressOf(x, 0)) == 0
  }

  /** Hanging up puts a DISC among the frames that go out. */
  lemma DiscGoes(x: Fd) returns (k: nat)
    requires OnePeer(x) && FdSpec.Disconnect(x).1.Ok? && NoRequest(x.sq.slots)
    ensures var h := FdSpec.Disconnect(x).0;
      && OnePeer(h) && SameNames(x, h) && h.peers[0].state == Disconnecting && h.connects == x.connects
      && k < |Burst(h)| && Burst(h)[k] == [AddressOf(x, 0), DISC_CONTROL] && NoneAsks(Burst(h))
  {
    hide FdSpec.Disconnect;
    hide AddressOf;
    hide Burst;
    hide Spent;
    hide Queues;
    hide ServiceBytes;
    hide Calls;
    DisconnectExact(x);
    var h := FdSpec.Disconnect(x).0;
    var f := FrameInfo(UFrame, FrameHeader(AddressOf(x, 0), DISC_CONTROL), []);
    var j := QueuedAt(x.sq.slots, h.sq.slots, f);
    AnswersAreNoRequests(0);
    AnswerGrows(x.sq.slots, h.sq.slots, f);
    BurstIs(h);
    k := WaitingGoes(h.sq.slots, 0, j);
    WaitingAsksNothing(h.sq.slots, 0);
    assert f.ToBytes() == [AddressOf(x, 0), DISC_CONTROL];
  }

  lemma QueuedAt(before: seq<Slot>, after: seq<Slot>, f: FrameInfo) returns (j: nat)
    requires Queues(before, after, f) && HasFree(before)
    ensures j < |after| && after[j] == Some(f)
  {
    j :| 0 <= j < |before| && before[j].None? && after == before[j := Some(f)];
  }

  /** A DISC that arrives while a slot is free leaves a UA among what waits, however many frames follow. */
  lemma DiscConfirmed(y: Fd, frames: seq<seq<byte>>, k: nat) returns (j: nat)
    requires OnePeer(y) && k < |frames| && HasFree(OnFrames(y, frames[..k]).sq.slots)
    requires FramePeer(y, frames[k]) == 0 && HangsUp(frames[k][1])
    ensures var slots := OnFrames(y, frames).sq.slots;
      j < |slots| && slots[j] == Some(FrameInfo(UFrame, FrameHeader(AddressOf(y, 0), UA_CONTROL), []))
  {
    hide OnFrame;
    hide FramePeer;
    hide HangsUp;
    hide Calls;
    hide NoCr;
    hide Queues;
    hide Leaves;
    var mid := OnFrames(y, frames[..k]);
    FramesKeepNames(y, frames[..k]);
    SameSelf(y, mid);
    SameFor0(y, mid, frames[k]);
    EndLeaves(mid, frames[k], 0);
    OnFramesSnoc(y, frames[..k], frames[k]);
    assert frames[..k] + [frames[k]] == frames[..k + 1];
    assert frames == frames[..k + 1] + frames[k + 1..];
    OnFramesAppend(y, frames[..k + 1], frames[k + 1..]);
    FramesGrow(OnFrames(y, frames[..k + 1]), frames[k + 1..]);
    j := QueuedAt(mid.sq.slots, OnFrame(mid, frames[k]).sq.slots,
      FrameInfo(UFrame, FrameHeader(AddressOf(y, 0), UA_CONTROL), []));
  }

  lemma SameFor0(fd: Fd, after: Fd, frame: seq<byte>)
    requires OnePeer(fd) && OnePeer(after) && SameNames(fd, after)
    ensures FramePeer(after, frame) == FramePeer(fd, frame)
  {
    SameAddress(fd, after);
    hide AddressToPeer;
  }

  lemma {:induction false} FramesKeepNames(fd: Fd, frames: seq<seq<byte>>)
    requires fd.Valid()
    ensures SameNames(fd, OnFrames(fd, frames))
    decreases |frames|
  {
    hide OnFrame;
    hide Fd.Valid;
    hide FramePeer;
    if frames != [] {
      var n := |frames| - 1;
      FramesKeepNames(fd, frames[..n]);
      FrameTouchesOnePeer(OnFrames(fd, frames[..n]), frames[n]);
    }
  }

  /** The UA among what y transmits closes the connection at the end that hung up. */
  lemma ConfirmationCloses(x: Fd, y: Fd, h: Fd, frames: seq<seq<byte>>, k: nat, toX: seq<seq<byte>>)
    requires Pair(x, y) && OnePeer(h) && SameNames(x, h)
    requires h.peers[0].state == Disconnecting && h.connects == x.connects
    requires k < |frames| && FramePeer(y, frames[k]) == 0 && HangsUp(frames[k][1])
    requires HasFree(OnFrames(y, frames[..k]).sq.slots) && NoRequest(y.sq.slots) && NoneAsks(toX)
    requires OnePeer(OnFrames(y, frames)) && OnFrames(y, frames).peers[0].state != Connected
    requires OnePeer(Spent(h)) && Spent(h) == Flushed(h)
    ensures var last := OnFrames(Spent(h), toX + Burst(OnFrames(y, frames)));
      OnePeer(last) && Gone(last) && last.connects == x.connects + [(UserAddress(x, 0), false)]
  {
    hide OnFrames;
    hide Burst;
    hide Spent;
    hide AddressToPeer;
    hide AddressOf;
    hide UserAddress;
    hide Calls;
    hide Gone;
    hide HangsUp;
    hide ServiceBytes;
    var down := OnFrames(y, frames);
    var j := DiscConfirmed(y, frames, k);
    BurstIs(down);
    var i := WaitingGoes(down.sq.slots, 0, j);
    FramesGrow(y, frames);
    GrowsNoRequest(y.sq.slots, down.sq.slots);
    WaitingAsksNothing(down.sq.slots, 0);
    var back := toX + Burst(down);
    var ua := [AddressOf(y, 0), UA_CONTROL];
    assert FrameInfo(UFrame, FrameHeader(AddressOf(y, 0), UA_CONTROL), []).ToBytes() == ua;
    assert back[|toX| + i] == ua;
    FlushedSame(x, h);
    UaCloses(x, Flushed(h), back, |toX| + i, ua);
    FramesEnd(Spent(h), back);
    SameSelf(x, Flushed(h));
  }

  lemma GrowsNoRequest(before: seq<Slot>, after: seq<Slot>)
    requires Grows(before, after) && NoRequest(before)
    ensures NoRequest(after)
  {
    hide Calls;
  }

  lemma FlushedSame(x: Fd, h: Fd)
    requires OnePeer(h) && |x.peers| == 1 && SameNames(x, h)
    ensures SameNames(x, Flushed(h)) && Flushed(h).peers == h.peers && Flushed(h).connects == h.connects
  {}

  lemma UaCloses(x: Fd, h: Fd, back: seq<seq<byte>>, i: nat, ua: seq<byte>)
    requires OnePeer(x) && OnePeer(h) && SameNames(x, h) && i < |back| && back[i] == ua
    requires |ua| == 2 && AddressToPeer(x.peers, x.localAddr, ua[0]) == 0 && ua[1] == UA_CONTROL
    ensures SomeCloses(h, Disconnecting, back)
  {
    SameAddress(x, h);
    hide AddressToPeer;
    UControlRoundTrip();
    assert Closes(h, Disconnecting, back[i]);
  }

  /**
   One end hangs up; each takes what was under way to it and all that the other transmits.
   If a slot for the answer is free when the DISC arrives, both ends are disconnected,
   nothing is left of the connection at either, each user has been told once, and neither
   had anything more to transmit. No request for a connection takes part.
   */
  lemma BothEnd(x: Fd, y: Fd, toY: seq<seq<byte>>, toX: seq<seq<byte>>) returns (k: nat)
    requires Pair(x, y) && y.peers[0].state in {Connected, Disconnecting} && FdSpec.Disconnect(x).1.Ok?
    requires NoRequest(x.sq.slots) && NoRequest(y.sq.slots) && NoneAsks(toY) && NoneAsks(toX)
    ensures FdSpec.Disconnect(x).0.Valid()
    ensures var h := FdSpec.Disconnect(x).0;
      var frames := toY + Burst(h);
      var down := OnFrames(y, frames);
      && Spent(h).Valid() && Generate(Spent(h)).1.None?
      && k < |frames| && frames[k] == [AddressOf(x, 0), DISC_CONTROL]
      && OnePeer(Spent(down)) && Gone(Spent(down)) && Generate(Spent(down)).1.None?
      && Spent(down).connects == y.connects + [(UserAddress(y, 0), false)]
      && (HasFree(OnFrames(y, frames[..k]).sq.slots) ==>
            var last := OnFrames(Spent(h), toX + Burst(down));
            OnePeer(last) && Gone(last) && last.connects == x.connects + [(UserAddress(x, 0), false)])
  {
    hide FdSpec.Disconnect;
    hide OnFrames;
    hide Burst;
    hide Spent;
    hide Generate;
    hide Closes;
    hide NoCr;
    hide Calls;
    hide Asks;
    hide Gone;
    var at := DiscGoes(x);
    k := |toY| + at;
    var h := FdSpec.Disconnect(x).0;
    var frames := toY + Burst(h);
    BurstIs(h);
    DiscCloses(x, y, frames, k);
    FramesEnd(y, frames);
    var down := OnFrames(y, frames);
    GoneSpent(down);
    if HasFree(OnFrames(y, frames[..k]).sq.slots) {
      ConfirmationCloses(x, y, h, frames, k, toX);
    }
  }

  lemma DiscCloses(x: Fd, y: Fd, frames: seq<seq<byte>>, k: nat)
    requires Pair(x, y) && k < |frames| && frames[k] == [AddressOf(x, 0), DISC_CONTROL]
    ensures FramePeer(y, frames[k]) == 0 && HangsUp(frames[k][1]) && SomeCloses(y, y.peers[0].state, frames)
  {
    hide AddressOf;
    hide AddressToPeer;
    UControlRoundTrip();
    assert Closes(y, y.peers[0].state, frames[k]);
  }

  lemma GoneSpent(fd: Fd)
    requires OnePeer(fd) && Gone(fd)
    ensures fd.peers[0].state == Disconnected
    ensures OnePeer(Spent(fd)) && Gone(Spent(fd)) && Spent(fd).connects == fd.connects && Generate(Spent(fd)).1.None?
  {
    hide Spent;
    hide Generate;
    hide NoCr;
    BurstIs(fd);
    assert AddressOf(Flushed(fd), 0) == AddressOf(fd, 0);
  }

  /**
   Without an answer the end that hung up waits on: neither the clock nor any other frame
   short of a request changes its state, and the DISC is not sent again.
   */
  lemma NotRepeated(fd: Fd, frames: seq<seq<byte>>, frameDue: seq<bool>, iDue: seq<bool>)
    requires OnePeer(fd) && fd.peers[0].state == Disconnecting && NoneAsks(frames)
    requires !SomeCloses(fd, Disconnecting, frames) && |frameDue| == |iDue| == 1
    ensures var waiting := OnFrames(fd, frames);
      && OnePeer(waiting) && waiting.peers[0].state == Disconnecting && waiting.connects == fd.connects
      && Timeouts(waiting, frameDue, iDue, 1) == waiting && Generate(Spent(waiting)).1.None?
  {
    hide OnFrames;
    hide Spent;
    hide Generate;
    hide AddressOf;
    hide TimeoutPeer;
    FramesEnd(fd, frames);
    var waiting := OnFrames(fd, frames);
    BurstIs(waiting);
    LeavingTicks(waiting, 0, frameDue[0], iDue[0]);
    assert Timeouts(waiting, frameDue, iDue, 0) == waiting;
  }
}
