/**
 The clock and many peers: one call treats every peer, each by its own state and timers,
 and says exactly what becomes of its state, its frames, the requests that go out and what
 the user is told.
 */
module Timers {
  import opened Base
  import opened FdDefs
  import opened IQueueControl
  import opened FrameQueue
  import opened FdSpec
  import opened Isolation
  import opened Reactions

  /** A request for a connection goes out: the first one in balanced mode, or another while retries are left. */
  predicate Dials(mode: FdMode, peer: Peer, due: bool) {
    && due
    && ((mode == Abm && (peer.state == Disconnected || peer.state == FdIdle))
        || (peer.state == Connecting && peer.retries > 0))
  }

  /** Unconfirmed frames are sent again. */
  predicate Resends(peer: Peer, due: bool) {
    due && peer.state == Connected && peer.ctl.confirmNs != peer.ctl.lastNs && peer.retries > 0
  }

  /** What the clock makes of a peer. */
  function Ticked(mode: FdMode, peer: Peer, frameDue: bool, iDue: bool): Peer {
    if Dials(mode, peer, frameDue) then
      peer.(state := Connecting, retries := if peer.state == Connecting then peer.retries - 1 else peer.retries)
    else if peer.state == Connecting && frameDue then peer.(state := Disconnected)
    else if Resends(peer, iDue) then
      peer.(retries := peer.retries - 1, ctl := peer.ctl.(nextNs := peer.ctl.confirmNs))
    else if GivesUp(peer, iDue) then Peer(Disconnected, peer.addr, 0, false, Ctl(0, 0, 0, 0), 0)
    else peer
  }

  predicate Clocked(fd: Fd, frameDue: seq<bool>, iDue: seq<bool>, k: nat) {
    fd.Valid() && k <= |fd.peers| && |frameDue| == |iDue| == |fd.peers|
  }

  /** How many of the first k peers a request goes out to. */
  function Dialled(fd: Fd, frameDue: seq<bool>, k: nat): nat
    requires k <= |fd.peers| == |frameDue|
  {
    if k == 0 then 0
    else Dialled(fd, frameDue, k - 1) + if Dials(fd.mode, fd.peers[k - 1], frameDue[k - 1]) then 1 else 0
  }

  function Request(fd: Fd, p: nat): Slot
    requires p < |fd.peers|
  {
    Some(FrameInfo(UFrame, FrameHeader(AddressOf(fd, p), SABM_CONTROL), []))
  }

  /** The request to peer p is in a slot that was free. */
  ghost predicate Requested(fd: Fd, after: Fd, p: nat)
    requires p < |fd.peers| && |after.sq.slots| == |fd.sq.slots|
  {
    exists j :: 0 <= j < |fd.sq.slots| && fd.sq.slots[j].None? && after.sq.slots[j] == Request(fd, p)
  }

  /** What fills a slot that was free is the request to one of the first k peers. */
  ghost predicate IsRequest(fd: Fd, frameDue: seq<bool>, k: nat, s: Slot)
    requires k <= |fd.peers| == |frameDue|
  {
    exists p :: 0 <= p < k && Dials(fd.mode, fd.peers[p], frameDue[p]) && s == Request(fd, p)
  }

  /** Every request finds a slot as long as there is one, in the order of the peers; nothing else is queued. */
  ghost predicate Called(fd: Fd, after: Fd, frameDue: seq<bool>, k: nat)
    requires k <= |fd.peers| == |frameDue|
  {
    && |after.sq.slots| == |fd.sq.slots|
    && (forall j :: 0 <= j < |fd.sq.slots| && fd.sq.slots[j].Some? ==> after.sq.slots[j] == fd.sq.slots[j])
    && (forall j :: 0 <= j < |fd.sq.slots| && fd.sq.slots[j].None? && after.sq.slots[j].Some? ==>
          IsRequest(fd, frameDue, k, after.sq.slots[j]))
    && (forall p | 0 <= p < k && Dials(fd.mode, fd.peers[p], frameDue[p]) ::
          Occupied(fd.sq.slots) + Dialled(fd, frameDue, p) < |fd.sq.slots| ==> Requested(fd, after, p))
    && Occupied(after.sq.slots) == Least(|fd.sq.slots|, Occupied(fd.sq.slots) + Dialled(fd, frameDue, k))
  }

  function Least(a: nat, b: nat): nat {
    if a < b then a else b
  }

  /** The slot holds a frame for a peer that is given up. */
  ghost predicate Abandoned(fd: Fd, iDue: seq<bool>, k: nat, s: Slot)
    requires k <= |fd.peers| == |iDue|
  {
    exists p :: 0 <= p < k && GivesUp(fd.peers[p], iDue[p]) && Addressed(s, AddressOf(fd, p))
  }

  /** The user is told of every peer given up, in the order of the peers. */
  function Losses(fd: Fd, iDue: seq<bool>, k: nat): seq<(byte, bool)>
    requires k <= |fd.peers| == |iDue|
  {
    if k == 0 then []
    else
      var lost := GivesUp(fd.peers[k - 1], iDue[k - 1]);
      Losses(fd, iDue, k - 1) + if lost then [(UserAddress(fd, k - 1), false)] else []
  }

  /** The peers that have had their turn are as the clock makes them, the others as they were. */
  ghost predicate PeersTicked(fd: Fd, after: Fd, frameDue: seq<bool>, iDue: seq<bool>, k: nat)
    requires k <= |fd.peers| == |frameDue| == |iDue|
  {
    && |after.peers| == |fd.peers|
    && (forall p :: 0 <= p < k ==> after.peers[p] == Ticked(fd.mode, fd.peers[p], frameDue[p], iDue[p]))
    && (forall p :: k <= p < |fd.peers| ==> after.peers[p] == fd.peers[p])
  }

  ghost predicate FramesDropped(fd: Fd, after: Fd, iDue: seq<bool>, k: nat)
    requires k <= |fd.peers| == |iDue|
  {
    && |after.iq.slots| == |fd.iq.slots| && after.iq.lookup == fd.iq.lookup
    && forall j :: 0 <= j < |fd.iq.slots| ==>
         after.iq.slots[j] == if Abandoned(fd, iDue, k, fd.iq.slots[j]) then None else fd.iq.slots[j]
  }

  /** The event is raised when a request or a retransmission is due. */
  ghost predicate EventRaised(fd: Fd, after: Fd, iDue: seq<bool>, requests: nat, k: nat)
    requires k <= |fd.peers| == |iDue|
  {
    after.txAvailable <==>
      || fd.txAvailable || (requests > 0 && HasFree(fd.sq.slots))
      || exists p :: 0 <= p < k && Resends(fd.peers[p], iDue[p])
  }

  // ----- One peer -----

  /** The station after one peer has had its turn. */
  ghost predicate OneTicked(fd: Fd, after: Fd, p: nat, frameDue: bool, iDue: bool)
    requires p < |fd.peers|
  {
    var was := fd.peers[p];
    var dials, lost := Dials(fd.mode, was, frameDue), GivesUp(was, iDue);
    && after.peers == fd.peers[p := Ticked(fd.mode, was, frameDue, iDue)]
    && SettingsSame(fd, after) && after.delivered == fd.delivered && after.freeSlots == fd.freeSlots
    && (if dials then Queues(fd.sq.slots, after.sq.slots, Request(fd, p).value) else after.sq == fd.sq)
    && after.txAvailable == (fd.txAvailable || Resends(was, iDue) || (dials && HasFree(fd.sq.slots)))
    && after.connects == fd.connects + (if lost then [(UserAddress(fd, p), false)] else [])
    && OneDropped(fd, after, p, lost)
  }

  /** If p is lost its frames are gone. */
  predicate OneDropped(fd: Fd, after: Fd, p: nat, lost: bool)
    requires p < |fd.peers|
  {
    && |after.iq.slots| == |fd.iq.slots| && after.iq.lookup == fd.iq.lookup
    && forall j :: 0 <= j < |fd.iq.slots| ==>
         && (lost && Addressed(fd.iq.slots[j], AddressOf(fd, p)) ==> after.iq.slots[j] == None)
         && (!lost || !Addressed(fd.iq.slots[j], AddressOf(fd, p)) ==> after.iq.slots[j] == fd.iq.slots[j])
  }

  lemma OneTicks(fd: Fd, p: nat, frameDue: bool, iDue: bool)
    requires fd.Valid() && p < |fd.peers|
    ensures OneTicked(fd, TimeoutPeer(fd, p, frameDue, iDue), p, frameDue, iDue)
  {
    hide TimeoutPeer;
    hide OneTicked;
    match fd.peers[p].state
    case Disconnected => IdleTicks(fd, p, frameDue, iDue);
    case FdIdle => IdleTicks(fd, p, frameDue, iDue);
    case Connecting => CallingTicks(fd, p, frameDue, iDue);
    case Connected => ConnectedTicks(fd, p, frameDue, iDue);
    case Disconnecting => LeavingTicks(fd, p, frameDue, iDue);
  }

  lemma IdleTicks(fd: Fd, p: nat, frameDue: bool, iDue: bool)
    requires fd.Valid() && p < |fd.peers| && (fd.peers[p].state == Disconnected || fd.peers[p].state == FdIdle)
    ensures OneTicked(fd, TimeoutPeer(fd, p, frameDue, iDue), p, frameDue, iDue)
  {
    hide PutService;
    hide Queues;
    hide AddressOf;
    hide UserAddress;
    PutAnswers(fd, p, UFrame, SABM_CONTROL);
  }

  lemma CallingTicks(fd: Fd, p: nat, frameDue: bool, iDue: bool)
    requires fd.Valid() && p < |fd.peers| && fd.peers[p].state == Connecting
    ensures OneTicked(fd, TimeoutPeer(fd, p, frameDue, iDue), p, frameDue, iDue)
  {
    hide PutService;
    hide Queues;
    hide AddressOf;
    hide UserAddress;
    var was := fd.peers[p];
    if was.retries > 0 {
      var once := fd.(peers := fd.peers[p := was.(retries := was.retries - 1)]);
      RetriesValid(fd, p, was.retries - 1);
      PutAnswers(once, p, UFrame, SABM_CONTROL);
      SameAddresses(fd, once, p);
    }
  }

  lemma ConnectedTicks(fd: Fd, p: nat, frameDue: bool, iDue: bool)
    requires fd.Valid() && p < |fd.peers| && fd.peers[p].state == Connected
    ensures OneTicked(fd, TimeoutPeer(fd, p, frameDue, iDue), p, frameDue, iDue)
  {
    hide SwitchToDisconnected;
    hide AddressOf;
    hide UserAddress;
    SwitchedJoins(fd, p);
  }

  /** A station that has asked for the end of the connection is left alone by the clock. */
  lemma LeavingTicks(fd: Fd, p: nat, frameDue: bool, iDue: bool)
    requires p < |fd.peers| && fd.peers[p].state == Disconnecting
    ensures TimeoutPeer(fd, p, frameDue, iDue) == fd
    ensures OneTicked(fd, fd, p, frameDue, iDue)
  {
    hide AddressOf;
    hide UserAddress;
  }

  lemma SameAddresses(fd: Fd, after: Fd, p: nat)
    requires p < |fd.peers| == |after.peers|
    requires after.localAddr == fd.localAddr && after.peers[p].addr == fd.peers[p].addr
    ensures AddressOf(after, p) == AddressOf(fd, p) && UserAddress(after, p) == UserAddress(fd, p)
    ensures Request(after, p) == Request(fd, p)
  {}

  // ----- The loop -----

  lemma QueuedOccupies(before: seq<Slot>, after: seq<Slot>, f: FrameInfo) returns (j: nat)
    requires Queues(before, after, f)
    ensures if HasFree(before) then j < |before| && before[j].None? && after == before[j := Some(f)]
      else after == before
    ensures Occupied(after) == Least(|before|, Occupied(before) + 1)
  {
    OccupiedIff(before);
    j := 0;
    if HasFree(before) {
      j :| 0 <= j < |before| && before[j].None? && after == before[j := Some(f)];
      OccupiedPut(before, j, f);
    }
  }

  /** The queue after one more request, as seen from the k-th peer. */
  ghost predicate OneMore(fd: Fd, mid: Fd, after: Fd, k: nat, j: nat)
    requires 0 < k <= |fd.peers|
  {
    if HasFree(mid.sq.slots) then
      j < |mid.sq.slots| && mid.sq.slots[j].None? && after.sq.slots == mid.sq.slots[j := Request(fd, k - 1)]
    else after.sq.slots == mid.sq.slots
  }

  lemma OnlyRequests(fd: Fd, mid: Fd, after: Fd, frameDue: seq<bool>, k: nat, j: nat)
    requires 0 < k <= |fd.peers| == |frameDue| && Called(fd, mid, frameDue, k - 1)
    requires Dials(fd.mode, fd.peers[k - 1], frameDue[k - 1]) && OneMore(fd, mid, after, k, j)
    ensures |after.sq.slots| == |fd.sq.slots|
    ensures forall i :: 0 <= i < |fd.sq.slots| && fd.sq.slots[i].None? && after.sq.slots[i].Some? ==>
      IsRequest(fd, frameDue, k, after.sq.slots[i])
  {
    hide Request;
    hide Dials;
    hide Occupied;
    hide HasFree;
    forall i | 0 <= i < |fd.sq.slots| && fd.sq.slots[i].None? && after.sq.slots[i].Some?
      ensures IsRequest(fd, frameDue, k, after.sq.slots[i])
    {
      if mid.sq.slots[i].Some? {
        assert IsRequest(fd, frameDue, k - 1, mid.sq.slots[i]);
      }
    }
  }

  lemma StillRequested(fd: Fd, mid: Fd, after: Fd, k: nat, j: nat, p: nat)
    requires 0 < k <= |fd.peers| && OneMore(fd, mid, after, k, j) && p < |fd.peers|
    requires |mid.sq.slots| == |fd.sq.slots| && Requested(fd, mid, p)
    ensures Requested(fd, after, p)
  {
    hide AddressOf;
    hide HasFree;
    var i :| 0 <= i < |fd.sq.slots| && fd.sq.slots[i].None? && mid.sq.slots[i] == Request(fd, p);
    assert after.sq.slots[i] == mid.sq.slots[i];
  }

  lemma NowRequested(fd: Fd, mid: Fd, after: Fd, frameDue: seq<bool>, k: nat, j: nat)
    requires 0 < k <= |fd.peers| == |frameDue| && Called(fd, mid, frameDue, k - 1) && OneMore(fd, mid, after, k, j)
    requires Occupied(fd.sq.slots) + Dialled(fd, frameDue, k - 1) < |fd.sq.slots|
    ensures Requested(fd, after, k - 1)
  {
    hide Request;
    hide Dials;
    hide Occupied;
    OccupiedIff(mid.sq.slots);
    assert fd.sq.slots[j].None?;
  }

  lemma NobodyCalled(fd: Fd, mid: Fd, after: Fd, frameDue: seq<bool>, k: nat)
    requires 0 < k <= |fd.peers| == |frameDue| && Called(fd, mid, frameDue, k - 1)
    requires !Dials(fd.mode, fd.peers[k - 1], frameDue[k - 1]) && after.sq == mid.sq
    ensures Called(fd, after, frameDue, k)
  {
    hide Request;
    hide Dials;
    hide Occupied;
    forall i | 0 <= i < |fd.sq.slots| && fd.sq.slots[i].None? && after.sq.slots[i].Some?
      ensures IsRequest(fd, frameDue, k, after.sq.slots[i])
    {
      assert IsRequest(fd, frameDue, k - 1, mid.sq.slots[i]);
    }
    forall p | 0 <= p < k && Dials(fd.mode, fd.peers[p], frameDue[p])
      && Occupied(fd.sq.slots) + Dialled(fd, frameDue, p) < |fd.sq.slots|
      ensures Requested(fd, after, p)
    {
      assert Requested(fd, mid, p);
    }
  }

  lemma AllRequested(fd: Fd, mid: Fd, after: Fd, frameDue: seq<bool>, k: nat, j: nat)
    requires 0 < k <= |fd.peers| == |frameDue| && Called(fd, mid, frameDue, k - 1) && OneMore(fd, mid, after, k, j)
    ensures |after.sq.slots| == |fd.sq.slots|
    ensures forall p | 0 <= p < k && Dials(fd.mode, fd.peers[p], frameDue[p]) ::
      Occupied(fd.sq.slots) + Dialled(fd, frameDue, p) < |fd.sq.slots| ==> Requested(fd, after, p)
  {
    hide Request;
    hide Dials;
    hide Occupied;
    hide HasFree;
    hide OneMore;
    hide Requested;
    SameSlotCount(fd, mid, after, k, j);
    forall p | 0 <= p < k && Dials(fd.mode, fd.peers[p], frameDue[p])
      && Occupied(fd.sq.slots) + Dialled(fd, frameDue, p) < |fd.sq.slots|
      ensures Requested(fd, after, p)
    {
      if p < k - 1 {
        StillRequested(fd, mid, after, k, j, p);
      } else {
        NowRequested(fd, mid, after, frameDue, k, j);
      }
    }
  }

  lemma SameSlotCount(fd: Fd, mid: Fd, after: Fd, k: nat, j: nat)
    requires 0 < k <= |fd.peers| && OneMore(fd, mid, after, k, j)
    ensures |after.sq.slots| == |mid.sq.slots|
    ensures forall i :: 0 <= i < |mid.sq.slots| && mid.sq.slots[i].Some? ==> after.sq.slots[i] == mid.sq.slots[i]
  {
    hide Request;
  }

  lemma NextCalled(fd: Fd, mid: Fd, after: Fd, frameDue: seq<bool>, k: nat)
    requires 0 < k <= |fd.peers| == |frameDue| && Called(fd, mid, frameDue, k - 1)
    requires if Dials(fd.mode, fd.peers[k - 1], frameDue[k - 1])
      then Queues(mid.sq.slots, after.sq.slots, Request(fd, k - 1).value) else after.sq == mid.sq
    ensures Called(fd, after, frameDue, k)
  {
    hide AddressOf;
    hide Dials;
    hide Queues;
    hide Occupied;
    hide Requested;
    hide IsRequest;
    if Dials(fd.mode, fd.peers[k - 1], frameDue[k - 1]) {
      var j := QueuedOccupies(mid.sq.slots, after.sq.slots, Request(fd, k - 1).value);
      assert OneMore(fd, mid, after, k, j);
      hide HasFree;
      OnlyRequests(fd, mid, after, frameDue, k, j);
      AllRequested(fd, mid, after, frameDue, k, j);
      SameSlotCount(fd, mid, after, k, j);
    } else {
      hide Called;
      NobodyCalled(fd, mid, after, frameDue, k);
    }
  }

  lemma NextDropped(fd: Fd, mid: Fd, after: Fd, iDue: seq<bool>, k: nat)
    requires 0 < k <= |fd.peers| == |iDue| == |mid.peers| && FramesDropped(fd, mid, iDue, k - 1)
    requires AddressOf(mid, k - 1) == AddressOf(fd, k - 1)
    requires OneDropped(mid, after, k - 1, GivesUp(fd.peers[k - 1], iDue[k - 1]))
    ensures FramesDropped(fd, after, iDue, k)
  {
    hide AddressOf;
    hide GivesUp;
    forall j | 0 <= j < |fd.iq.slots|
      ensures after.iq.slots[j] == if Abandoned(fd, iDue, k, fd.iq.slots[j]) then None else fd.iq.slots[j]
    {
      assert Abandoned(fd, iDue, k - 1, fd.iq.slots[j]) ==> mid.iq.slots[j].None?;
    }
  }

  /**
   After the loop, for every peer and every slot: who is dialled, rewound or given up, whose
   frames are gone, which requests wait and what the user has been told.
   */
  lemma {:induction false} EveryPeerTicks(fd: Fd, frameDue: seq<bool>, iDue: seq<bool>, k: nat)
    requires Clocked(fd, frameDue, iDue, k)
    ensures var after := Timeouts(fd, frameDue, iDue, k);
      && PeersTicked(fd, after, frameDue, iDue, k)
      && FramesDropped(fd, after, iDue, k)
      && Called(fd, after, frameDue, k)
      && EventRaised(fd, after, iDue, Dialled(fd, frameDue, k), k)
      && after.connects == fd.connects + Losses(fd, iDue, k)
      && SettingsSame(fd, after) && after.delivered == fd.delivered && after.freeSlots == fd.freeSlots
      && after.Valid()
  {
    hide TimeoutPeer;
    hide Fd.Valid;
    hide Ticked;
    hide Dials;
    hide Resends;
    hide GivesUp;
    hide AddressOf;
    hide UserAddress;
    hide Queues;
    hide Called;
    hide HasFree;
    hide FramesDropped;
    hide OneDropped;
    if k == 0 {
      NothingYet(fd, frameDue, iDue);
    } else {
      EveryPeerTicks(fd, frameDue, iDue, k - 1);
      var mid := Timeouts(fd, frameDue, iDue, k - 1);
      var after := Timeouts(fd, frameDue, iDue, k);
      OneTicks(mid, k - 1, frameDue[k - 1], iDue[k - 1]);
      TimeoutValid(mid, k - 1, frameDue[k - 1], iDue[k - 1]);
      SameAddresses(fd, mid, k - 1);
      NextCalled(fd, mid, after, frameDue, k);
      NextDropped(fd, mid, after, iDue, k);
      EventOn(fd, mid, after, frameDue, iDue, k);
    }
  }

  lemma NothingYet(fd: Fd, frameDue: seq<bool>, iDue: seq<bool>)
    requires Clocked(fd, frameDue, iDue, 0)
    ensures FramesDropped(fd, fd, iDue, 0) && Called(fd, fd, frameDue, 0)
  {
    OccupiedIff(fd.sq.slots);
  }

  lemma EventOn(fd: Fd, mid: Fd, after: Fd, frameDue: seq<bool>, iDue: seq<bool>, k: nat)
    requires 0 < k <= |fd.peers| == |iDue| == |frameDue| && Called(fd, mid, frameDue, k - 1)
    requires EventRaised(fd, mid, iDue, Dialled(fd, frameDue, k - 1), k - 1)
    requires after.txAvailable == (mid.txAvailable || Resends(fd.peers[k - 1], iDue[k - 1])
      || (Dials(fd.mode, fd.peers[k - 1], frameDue[k - 1]) && HasFree(mid.sq.slots)))
    ensures EventRaised(fd, after, iDue, Dialled(fd, frameDue, k), k)
  {
    hide Dials;
    hide Resends;
    hide AddressOf;
    hide Occupied;
    OccupiedIff(fd.sq.slots);
    OccupiedIff(mid.sq.slots);
  }

  // ----- What it means for each peer -----

  lemma {:induction false} DialledGrow(fd: Fd, frameDue: seq<bool>, p: nat, k: nat)
    requires p < k <= |fd.peers| == |frameDue|
    ensures Dialled(fd, frameDue, k)
      >= Dialled(fd, frameDue, p) + if Dials(fd.mode, fd.peers[p], frameDue[p]) then 1 else 0
    decreases k
  {
    hide Dials;
    if p < k - 1 {
      DialledGrow(fd, frameDue, p, k - 1);
    }
  }

  /** A request waits for peer p, or no slot is left. */
  ghost predicate RequestedOrFull(fd: Fd, after: Fd, p: nat)
    requires p < |fd.peers|
  {
    |after.sq.slots| == |fd.sq.slots| && (Requested(fd, after, p) || !HasFree(after.sq.slots))
  }

  lemma EveryRequest(fd: Fd, after: Fd, frameDue: seq<bool>, p: nat)
    requires p < |fd.peers| == |frameDue| && Called(fd, after, frameDue, |fd.peers|)
    requires Dials(fd.mode, fd.peers[p], frameDue[p])
    ensures RequestedOrFull(fd, after, p)
  {
    hide Dials;
    hide AddressOf;
    hide Requested;
    DialledGrow(fd, frameDue, p, |fd.peers|);
    OccupiedIff(after.sq.slots);
  }

  /** Every peer of a station, by its state, after one call: nobody is passed over. */
  lemma EachPeer(fd: Fd, frameDue: seq<bool>, iDue: seq<bool>, p: nat)
    requires Clocked(fd, frameDue, iDue, |fd.peers|) && p < |fd.peers|
    ensures var after, was := Timeouts(fd, frameDue, iDue, |fd.peers|), fd.peers[p];
      var now, unconfirmed := after.peers[p], was.ctl.confirmNs != was.ctl.lastNs;
      && ((was.state == Disconnected || was.state == FdIdle) && fd.mode == Abm && frameDue[p] ==>
            now == was.(state := Connecting) && RequestedOrFull(fd, after, p))
      && (was.state == Connecting && frameDue[p] && was.retries > 0 ==>
            now == was.(retries := was.retries - 1) && RequestedOrFull(fd, after, p))
      && (was.state == Connecting && frameDue[p] && was.retries == 0 ==> now == was.(state := Disconnected))
      && (was.state == Connected && unconfirmed && iDue[p] && was.retries > 0 ==>
            && now == was.(retries := was.retries - 1, ctl := was.ctl.(nextNs := was.ctl.confirmNs))
            && after.txAvailable)
      && (was.state == Connected && unconfirmed && iDue[p] && was.retries == 0 ==>
            && now == Peer(Disconnected, was.addr, 0, false, Ctl(0, 0, 0, 0), 0)
            && |after.iq.slots| == |fd.iq.slots|
            && forall j :: 0 <= j < |after.iq.slots| ==> !Addressed(after.iq.slots[j], AddressOf(fd, p)))
      && (was.state == Disconnecting ==> now == was)
      && (was.state == Connected && !(unconfirmed && iDue[p]) ==> now == was)
      && (was.state != Connected && !frameDue[p] ==> now == was)
      && ((was.state == Disconnected || was.state == FdIdle) && fd.mode == Nrm ==> now == was)
  {
    hide Timeouts;
    hide Called;
    hide AddressOf;
    hide Losses;
    hide Fd.Valid;
    hide RequestedOrFull;
    EveryPeerTicks(fd, frameDue, iDue, |fd.peers|);
    var after := Timeouts(fd, frameDue, iDue, |fd.peers|);
    if Dials(fd.mode, fd.peers[p], frameDue[p]) {
      EveryRequest(fd, after, frameDue, p);
    }
    if GivesUp(fd.peers[p], iDue[p]) {
      LostFramesGone(fd, after, iDue, p);
    }
  }

  lemma LostFramesGone(fd: Fd, after: Fd, iDue: seq<bool>, p: nat)
    requires p < |fd.peers| == |iDue| && FramesDropped(fd, after, iDue, |fd.peers|) && GivesUp(fd.peers[p], iDue[p])
    ensures forall j :: 0 <= j < |after.iq.slots| ==> !Addressed(after.iq.slots[j], AddressOf(fd, p))
  {
    hide AddressOf;
    hide GivesUp;
    forall j | 0 <= j < |after.iq.slots| ensures !Addressed(after.iq.slots[j], AddressOf(fd, p)) {
      if Addressed(fd.iq.slots[j], AddressOf(fd, p)) {
        assert Abandoned(fd, iDue, |fd.peers|, fd.iq.slots[j]);
      }
    }
  }
}
