/**
 One full-duplex station as a value, and what each operation makes of it. The class in
 TinyFd is proved to compute these functions; the protocol theorems are about them.
 */
module FdSpec {
  import opened Base
  import opened SeqNum
  import opened FdDefs
  import opened IQueueControl
  import opened FrameQueue

  datatype Peer = Peer(state: FdState, addr: byte, sentNr: byte, sentReject: bool, ctl: Ctl, retries: nat)

  datatype Fd = Fd(
    peers: seq<Peer>, localAddr: byte,
    iq: Queue, sq: Queue,
    // Event bits: a free I-slot is advertised, there may be something to send.
    freeSlots: bool, txAvailable: bool,
    mode: FdMode, maxRetries: nat, mtu: nat,
    // What the callbacks were given, oldest first.
    delivered: seq<(byte, seq<byte>)>, connects: seq<(byte, bool)>)
  {
    predicate Valid() {
      && 1 <= |peers| <= 255
      && (forall p :: 0 <= p < |peers| ==> peers[p].ctl.Valid())
      && 1 <= |iq.slots| <= 7 && iq.lookup < |iq.slots|
      && |sq.slots| == U_QUEUE_MAX_SIZE && sq.lookup < |sq.slots|
    }
  }

  // ----- Addresses -----

  function NoCr(address: byte): byte {
    address & !HDLC_CR_BIT
  }

  predicate IsPrimaryAddress(address: byte) {
    NoCr(address) == HDLC_PRIMARY_ADDR | HDLC_E_BIT
  }

  function StationAddress(address: byte): byte {
    (address << 2) | HDLC_E_BIT
  }

  /** The peers a station is created with: numbered secondaries, or the one primary. */
  function NewPeers(localAddr: byte, count: nat): (ps: seq<Peer>)
    requires count <= 255
    ensures |ps| == if IsPrimaryAddress(localAddr) && count > 1 then count else 1
  {
    var n := if count > 1 then count else 1;
    if IsPrimaryAddress(localAddr) then seq(n, i requires 0 <= i < n => NewPeer(StationAddress(i as bv8 + 1)))
    else [NewPeer(HDLC_PRIMARY_ADDR | HDLC_E_BIT)]
  }

  function NewPeer(addr: byte): Peer {
    Peer(Disconnected, addr, 0, false, CTL_ZERO, 0)
  }

  function PeerToAddress(peers: seq<Peer>, localAddr: byte, p: nat): byte
    requires p < |peers|
  {
    if IsPrimaryAddress(localAddr) then NoCr(peers[p].addr) else NoCr(localAddr)
  }

  function FindPeer(peers: seq<Peer>, address: byte, i: nat): (p: nat)
    requires i <= |peers|
    ensures i <= p < |peers| || p == HDLC_INVALID_PEER_INDEX
    decreases |peers| - i
  {
    if i == |peers| then HDLC_INVALID_PEER_INDEX
    else if NoCr(peers[i].addr) == address then i
    else FindPeer(peers, address, i + 1)
  }

  function AddressToPeer(peers: seq<Peer>, localAddr: byte, address: byte): (p: nat)
    requires |peers| >= 1
    ensures p < |peers| || p == HDLC_INVALID_PEER_INDEX
  {
    if IsPrimaryAddress(localAddr) then FindPeer(peers, NoCr(address), 0)
    else if NoCr(address) == NoCr(localAddr) || IsPrimaryAddress(NoCr(address)) then 0
    else HDLC_INVALID_PEER_INDEX
  }

  function AddressOf(fd: Fd, p: nat): byte
    requires p < |fd.peers|
  {
    PeerToAddress(fd.peers, fd.localAddr, p)
  }

  /** The address handed to callbacks. */
  function UserAddress(fd: Fd, p: nat): byte
    requires p < |fd.peers|
  {
    if IsPrimaryAddress(fd.localAddr) then AddressOf(fd, p) >> 2 else FD_PRIMARY_ADDR
  }

  // ----- Queueing -----

  function ServiceFrame(kind: FrameType, address: byte, control: byte): FrameInfo {
    FrameInfo(kind, FrameHeader(address, control), [])
  }

  /** Queues a supervisory or unnumbered frame; a full queue drops it. */
  function PutService(fd: Fd, f: FrameInfo): Fd {
    if FindFree(fd.sq.slots, fd.sq.lookup, 0).None? then fd
    else fd.(sq := Allocated(fd.sq, f), txAvailable := true)
  }

  function PutU(fd: Fd, p: nat, control: byte): Fd
    requires p < |fd.peers|
  {
    PutService(fd, ServiceFrame(UFrame, AddressOf(fd, p), control))
  }

  function PutS(fd: Fd, p: nat, control: byte): Fd
    requires p < |fd.peers|
  {
    PutService(fd, ServiceFrame(SFrame, AddressOf(fd, p), control))
  }

  function IFrameFor(fd: Fd, p: nat, data: seq<byte>): FrameInfo
    requires p < |fd.peers|
  {
    var c := fd.peers[p].ctl;
    FrameInfo(IFrame, FrameHeader(AddressOf(fd, p), IControl(c.lastNs, c.nextNr)), data)
  }

  function PutI(fd: Fd, p: nat, data: seq<byte>): (Fd, Result<Unit>)
    requires p < |fd.peers|
  {
    var c := fd.peers[p].ctl;
    if c.TxFull() || FindFree(fd.iq.slots, fd.iq.lookup, 0).None? then (fd, Err(Busy))
    else
      (fd.(iq := Allocated(fd.iq, IFrameFor(fd, p, data)),
           peers := fd.peers[p := fd.peers[p].(ctl := c.(lastNs := Succ(c.lastNs)))]),
       Ok(Unit))
  }

  /** The peer a caller's address names: 0 stands for the first. */
  function SendTarget(fd: Fd, address: byte): (p: nat)
    requires fd.Valid()
    ensures p < |fd.peers| || p == HDLC_INVALID_PEER_INDEX
  {
    if address == FD_PRIMARY_ADDR then 0
    else AddressToPeer(fd.peers, fd.localAddr, StationAddress(address))
  }

  function SendPacket(fd: Fd, address: byte, data: seq<byte>): (Fd, Result<Unit>)
    requires fd.Valid()
  {
    if |data| > fd.mtu then (fd, Err(DataTooLarge))
    else if SendTarget(fd, address) == HDLC_INVALID_PEER_INDEX then (fd, Err(UnknownPeer))
    else if !fd.freeSlots then (fd, Err(Timeout))
    else
      var (next, r) := PutI(fd, SendTarget(fd, address), data);
      if r.Err? then (next, r)
      else (next.(txAvailable := true, freeSlots := fd.freeSlots && HasFree(next.iq.slots)), r)
  }

  function Disconnect(fd: Fd): (Fd, Result<Unit>)
    requires fd.Valid()
  {
    if FindFree(fd.sq.slots, fd.sq.lookup, 0).None? then (fd, Err(Busy))
    else
      (PutU(fd, 0, DISC_CONTROL).(peers := fd.peers[0 := fd.peers[0].(state := Disconnecting)]), Ok(Unit))
  }

  // ----- Receiving -----

  /** Takes an acknowledgement: confirmed frames leave the queue. */
  function Confirm(fd: Fd, p: nat, nr: byte): Fd
    requires p < |fd.peers| && fd.peers[p].ctl.Valid() && nr <= 7
  {
    var c := fd.peers[p].ctl;
    var slots := FreeAllNs(fd.iq.slots, AddressOf(fd, p), Confirmed(c.confirmNs, nr));
    fd.(iq := fd.iq.(slots := slots),
        peers := fd.peers[p := fd.peers[p].(ctl := c.(confirmNs := nr))],
        freeSlots := fd.freeSlots || HasFree(slots))
  }

  /** An I-frame out of sequence: ask for the expected one, once. */
  function Refuse(fd: Fd, p: nat): Fd
    requires p < |fd.peers|
  {
    if fd.peers[p].sentReject then fd
    else
      PutS(fd.(peers := fd.peers[p := fd.peers[p].(sentReject := true)]), p, RejControl(fd.peers[p].ctl.nextNr))
  }

  /** The expected I-frame: deliver it and acknowledge. */
  function Accept(fd: Fd, p: nat, payload: seq<byte>): Fd
    requires p < |fd.peers|
  {
    var nr := Succ(fd.peers[p].ctl.nextNr);
    var peer := fd.peers[p].(ctl := fd.peers[p].ctl.(nextNr := nr), sentReject := false, sentNr := nr);
    var next := fd.(peers := fd.peers[p := peer], delivered := fd.delivered + [(UserAddress(fd, p), payload)]);
    PutS(next, p, RrControl(nr))
  }

  function OnI(fd: Fd, p: nat, data: seq<byte>): Fd
    requires p < |fd.peers| && fd.peers[p].ctl.Valid() && |data| >= 2
  {
    var c := Confirm(fd, p, LowSeq(data[1]));
    if HighSeq(data[1]) != c.peers[p].ctl.nextNr then Refuse(c, p) else Accept(c, p, data[2..])
  }

  function Rewind(fd: Fd, p: nat, ns: byte): Fd
    requires p < |fd.peers|
  {
    fd.(peers := fd.peers[p := fd.peers[p].(ctl := fd.peers[p].ctl.(nextNs := ns))], txAvailable := true)
  }

  function OnS(fd: Fd, p: nat, data: seq<byte>): Fd
    requires p < |fd.peers| && fd.peers[p].ctl.Valid() && |data| >= 2
  {
    var nr := HighSeq(data[1]);
    var c := Confirm(fd, p, nr);
    var kind := SType(data[1]);
    if kind == HDLC_S_FRAME_TYPE_RR then
      c.(peers := c.peers[p := c.peers[p].(retries := fd.maxRetries)])
    else if kind == HDLC_S_FRAME_TYPE_REJ || kind == HDLC_S_FRAME_TYPE_SREJ then Rewind(c, p, nr)
    else c
  }

  function ResetPeer(peer: Peer): Peer {
    peer.(ctl := CTL_ZERO, sentNr := 0, sentReject := false)
  }

  function SwitchToConnected(fd: Fd, p: nat): Fd
    requires p < |fd.peers|
  {
    if fd.peers[p].state == Connected then fd
    else
      fd.(peers := fd.peers[p := ResetPeer(fd.peers[p]).(state := Connected, retries := fd.maxRetries)],
          txAvailable := true,
          freeSlots := fd.freeSlots || HasFree(fd.iq.slots),
          connects := fd.connects + [(UserAddress(fd, p), true)])
  }

  function SwitchToDisconnected(fd: Fd, p: nat): Fd
    requires p < |fd.peers|
  {
    if fd.peers[p].state == Disconnected then fd
    else
      fd.(peers := fd.peers[p := ResetPeer(fd.peers[p]).(state := Disconnected)],
          iq := fd.iq.(slots := ResetSlots(fd.iq.slots, AddressOf(fd, p))),
          connects := fd.connects + [(UserAddress(fd, p), false)])
  }

  function OnU(fd: Fd, p: nat, control: byte): Fd
    requires p < |fd.peers|
  {
    var kind := UType(control);
    if kind == HDLC_U_FRAME_TYPE_SABM || kind == HDLC_U_FRAME_TYPE_SNRM then
      SwitchToConnected(PutU(fd, p, UA_CONTROL), p)
    else if kind == HDLC_U_FRAME_TYPE_UA then
      if fd.peers[p].state == Connecting then SwitchToConnected(fd, p)
      else if fd.peers[p].state == Disconnecting then SwitchToDisconnected(fd, p)
      else fd
    else if kind == HDLC_U_FRAME_TYPE_DISC then SwitchToDisconnected(PutU(fd, p, UA_CONTROL), p)
    else if kind == HDLC_U_FRAME_TYPE_DM then SwitchToDisconnected(fd, p)
    else fd
  }

  function OnFrame(fd: Fd, data: seq<byte>): Fd
    requires fd.Valid()
  {
    if |data| < 2 then fd
    else
      var p := AddressToPeer(fd.peers, fd.localAddr, data[0]);
      if p == HDLC_INVALID_PEER_INDEX then fd
      else if IsU(data[1]) then OnU(fd, p, data[1])
      else if fd.peers[p].state != Connected && fd.peers[p].state != Disconnecting then PutU(fd, p, DM_CONTROL)
      else if IsI(data[1]) then OnI(fd, p, data)
      else if IsS(data[1]) then OnS(fd, p, data)
      else fd
  }

  // ----- Timers: whether a timeout has elapsed is an input -----

  function TimeoutPeer(fd: Fd, p: nat, frameDue: bool, iDue: bool): Fd
    requires p < |fd.peers|
  {
    var peer := fd.peers[p];
    match peer.state
    case Disconnected => if fd.mode == Abm && frameDue then Dial(fd, p) else fd
    case FdIdle => if fd.mode == Abm && frameDue then Dial(fd, p) else fd
    case Connecting =>
      if !frameDue then fd
      else if peer.retries == 0 then fd.(peers := fd.peers[p := peer.(state := Disconnected)])
      else PutU(fd.(peers := fd.peers[p := peer.(retries := peer.retries - 1)]), p, SABM_CONTROL)
    case Connected =>
      if !(peer.ctl.HasUnconfirmed() && iDue) then fd
      else if peer.retries == 0 then SwitchToDisconnected(fd, p)
      else Rewind(fd.(peers := fd.peers[p := peer.(retries := peer.retries - 1)]), p, peer.ctl.confirmNs)
    case Disconnecting => fd
  }

  /** Asks for a connection. */
  function Dial(fd: Fd, p: nat): Fd
    requires p < |fd.peers|
  {
    var asked := PutU(fd, p, SABM_CONTROL);
    asked.(peers := asked.peers[p := asked.peers[p].(state := Connecting)])
  }

  function Timeouts(fd: Fd, frameDue: seq<bool>, iDue: seq<bool>, k: nat): (r: Fd)
    requires k <= |fd.peers| && |frameDue| == |iDue| == |fd.peers|
    ensures |r.peers| == |fd.peers|
  {
    if k == 0 then fd
    else TimeoutPeer(Timeouts(fd, frameDue, iDue, k - 1), k - 1, frameDue[k - 1], iDue[k - 1])
  }

  // ----- Sending -----

  /** Whether peer p has an I-frame that may go out now. */
  predicate Eligible(fd: Fd, p: nat)
    requires p < |fd.peers|
  {
    var c := fd.peers[p].ctl;
    && fd.peers[p].state == Connected && !c.AllSent()
    && Find(fd.iq.slots, IFrame, AddressOf(fd, p), c.nextNs, 0).Some?
  }

  function FirstEligible(fd: Fd, i: nat): (r: Option<nat>)
    requires i <= |fd.peers|
    ensures r.Some? ==> i <= r.value < |fd.peers| && Eligible(fd, r.value)
    ensures r.Some? ==> forall j :: i <= j < r.value ==> !Eligible(fd, j)
    ensures r.None? ==> forall j :: i <= j < |fd.peers| ==> !Eligible(fd, j)
    decreases |fd.peers| - i
  {
    if i == |fd.peers| then None else if Eligible(fd, i) then Some(i) else FirstEligible(fd, i + 1)
  }

  /** The octets of the I-frame peer p sends next: its own address, N(S) and the current N(R). */
  function NextIFrame(fd: Fd, p: nat): (data: seq<byte>)
    requires p < |fd.peers| && Eligible(fd, p)
    ensures |data| >= 2
  {
    var c := fd.peers[p].ctl;
    var slot := fd.iq.slots[Find(fd.iq.slots, IFrame, AddressOf(fd, p), c.nextNs, 0).value].value;
    slot.ToBytes()[1 := IControl(c.nextNs, c.nextNr)]
  }

  /** Peer p has sent one more frame. */
  function Advance(fd: Fd, p: nat): Fd
    requires p < |fd.peers|
  {
    var peer := fd.peers[p];
    fd.(peers := fd.peers[p := peer.(ctl := peer.ctl.(nextNs := Succ(peer.ctl.nextNs)), retries := fd.maxRetries)])
  }

  /** What an idle transmitter is given: a service frame if there is one, else an I-frame. */
  function Generate(fd: Fd): (Fd, Option<seq<byte>>) {
    match FirstOccupied(fd.sq.slots, 0)
    case Some(i) =>
      (fd.(sq := fd.sq.(slots := fd.sq.slots[i := None])), Some(fd.sq.slots[i].value.ToBytes()))
    case None =>
      match FirstEligible(fd, 0)
      case None => (fd, None)
      case Some(p) =>
        (Advance(fd, p), Some(NextIFrame(fd, p)))
  }

  // ----- Every operation keeps the shape -----

  lemma PutServiceValid(fd: Fd, f: FrameInfo)
    requires fd.Valid()
    ensures PutService(fd, f).Valid() && PutService(fd, f).peers == fd.peers
  {}

  /** A station with one peer is known by the addresses alone. */
  lemma SameAddress(fd: Fd, up: Fd)
    requires |fd.peers| == |up.peers| == 1 && up.localAddr == fd.localAddr && up.peers[0].addr == fd.peers[0].addr
    ensures AddressOf(up, 0) == AddressOf(fd, 0)
    ensures forall a :: AddressToPeer(up.peers, up.localAddr, a) == AddressToPeer(fd.peers, fd.localAddr, a)
  {
    hide NoCr;
  }

  /** Queueing a service frame touches nothing but the service queue and the event. */
  lemma PutServiceOnly(fd: Fd, f: FrameInfo)
    ensures var r := PutService(fd, f); r == fd.(sq := r.sq, txAvailable := r.txAvailable)
  {}

  lemma PutIValid(fd: Fd, p: nat, data: seq<byte>)
    requires fd.Valid() && p < |fd.peers|
    ensures PutI(fd, p, data).0.Valid()
    ensures forall f: FrameInfo ::
      |Allocated(fd.iq, f).slots| == |fd.iq.slots| && Allocated(fd.iq, f).lookup < |fd.iq.slots|
  {
    hide Succ;
    hide IControl;
    hide Rotated;
    SuccSmall(fd.peers[p].ctl.lastNs);
  }

  lemma ConfirmValid(fd: Fd, p: nat, nr: byte)
    requires fd.Valid() && p < |fd.peers| && nr <= 7
    ensures Confirm(fd, p, nr).Valid() && |Confirm(fd, p, nr).peers| == |fd.peers|
  {}

  lemma MovedUpValid(fd: Fd, p: nat, nr: byte)
    requires fd.Valid() && p < |fd.peers| && nr <= 7
    ensures fd.(peers := fd.peers[p := fd.peers[p].(ctl := fd.peers[p].ctl.(confirmNs := nr))]).Valid()
  {}

  lemma RefuseAcceptValid(fd: Fd, p: nat, payload: seq<byte>)
    requires fd.Valid() && p < |fd.peers|
    ensures Refuse(fd, p).Valid() && |Refuse(fd, p).peers| == |fd.peers|
    ensures Accept(fd, p, payload).Valid() && |Accept(fd, p, payload).peers| == |fd.peers|
  {
    hide Succ;
    hide RrControl;
    hide RejControl;
    hide FindFree;
    SuccSmall(fd.peers[p].ctl.nextNr);
  }

  lemma OnIValid(fd: Fd, p: nat, data: seq<byte>)
    requires fd.Valid() && p < |fd.peers| && |data| >= 2
    ensures OnI(fd, p, data).Valid() && |OnI(fd, p, data).peers| == |fd.peers|
  {
    hide Refuse;
    hide Accept;
    hide Fd.Valid;
    hide Confirm;
    CtlOk(fd, p);
    ConfirmValid(fd, p, LowSeq(data[1]));
    RefuseAcceptValid(Confirm(fd, p, LowSeq(data[1])), p, data[2..]);
  }

  lemma ShapeOf(fd: Fd)
    requires fd.Valid()
    ensures 1 <= |fd.peers| <= 255
  {}

  lemma SendPacketValid(fd: Fd, address: byte, data: seq<byte>)
    requires fd.Valid()
    ensures SendPacket(fd, address, data).0.Valid()
  {
    hide PutI;
    if SendTarget(fd, address) < |fd.peers| {
      PutIValid(fd, SendTarget(fd, address), data);
    }
  }

  /** Half-way through a refusal or an acceptance the station is well-formed too. */
  lemma RejectingValid(fd: Fd, p: nat)
    requires fd.Valid() && p < |fd.peers|
    ensures fd.(peers := fd.peers[p := fd.peers[p].(sentReject := true)]).Valid()
  {}

  lemma StateValid(fd: Fd, p: nat, state: FdState)
    requires fd.Valid() && p < |fd.peers|
    ensures fd.(peers := fd.peers[p := fd.peers[p].(state := state)]).Valid()
  {}

  lemma RetriesValid(fd: Fd, p: nat, retries: nat)
    requires fd.Valid() && p < |fd.peers|
    ensures fd.(peers := fd.peers[p := fd.peers[p].(retries := retries)]).Valid()
  {}

  lemma EventsValid(fd: Fd, free: bool, available: bool)
    requires fd.Valid()
    ensures fd.(freeSlots := free, txAvailable := available).Valid()
  {}

  lemma JoinValid(fd: Fd, p: nat)
    requires fd.Valid() && p < |fd.peers|
    ensures
      fd.(peers := fd.peers[p := ResetPeer(fd.peers[p]).(state := Connected, retries := fd.maxRetries)]).Valid()
  {}

  lemma RewindValid(fd: Fd, p: nat, ns: byte)
    requires fd.Valid() && p < |fd.peers| && ns <= 7
    ensures Rewind(fd, p, ns).Valid()
  {}

  lemma TimeoutValid(fd: Fd, p: nat, frameDue: bool, iDue: bool)
    requires fd.Valid() && p < |fd.peers|
    ensures TimeoutPeer(fd, p, frameDue, iDue).Valid()
  {
    hide SwitchToDisconnected;
    hide PutService;
    hide Rewind;
    hide Fd.Valid;
    var peer := fd.peers[p];
    SwitchValid(fd, p);
    StateValid(fd, p, Disconnected);
    PutServiceValid(fd, ServiceFrame(UFrame, AddressOf(fd, p), SABM_CONTROL));
    StateValid(PutU(fd, p, SABM_CONTROL), p, Connecting);
    if peer.retries > 0 {
      var once := fd.(peers := fd.peers[p := peer.(retries := peer.retries - 1)]);
      RetriesValid(fd, p, peer.retries - 1);
      PutServiceValid(once, ServiceFrame(UFrame, AddressOf(once, p), SABM_CONTROL));
      CtlOk(fd, p);
      RewindValid(once, p, peer.ctl.confirmNs);
    }
  }

  lemma AdvanceValid(fd: Fd, p: nat)
    requires fd.Valid() && p < |fd.peers|
    ensures Advance(fd, p).Valid()
  {
    hide Succ;
    SuccSmall(fd.peers[p].ctl.nextNs);
  }

  lemma GenerateValid(fd: Fd)
    requires fd.Valid()
    ensures Generate(fd).0.Valid()
    ensures Generate(fd).1.Some? ==> |Generate(fd).1.value| >= 2
  {
    hide Succ;
    hide Eligible;
    hide IControl;
    match FirstOccupied(fd.sq.slots, 0)
    case Some(i) =>
    case None =>
      match FirstEligible(fd, 0)
      case None =>
      case Some(p) => SuccSmall(fd.peers[p].ctl.nextNs);
  }

  lemma AcceptingValid(fd: Fd, p: nat, payload: seq<byte>)
    requires fd.Valid() && p < |fd.peers|
    ensures var nr := Succ(fd.peers[p].ctl.nextNr);
      var peer := fd.peers[p].(ctl := fd.peers[p].ctl.(nextNr := nr), sentReject := false, sentNr := nr);
      fd.(peers := fd.peers[p := peer], delivered := fd.delivered + [(UserAddress(fd, p), payload)]).Valid()
  {
    hide Succ;
    hide UserAddress;
    SuccSmall(fd.peers[p].ctl.nextNr);
  }

  lemma CtlOk(fd: Fd, p: nat)
    requires fd.Valid() && p < |fd.peers|
    ensures fd.peers[p].ctl.Valid()
  {}

  lemma OnSValid(fd: Fd, p: nat, data: seq<byte>)
    requires fd.Valid() && p < |fd.peers| && |data| >= 2
    ensures OnS(fd, p, data).Valid() && |OnS(fd, p, data).peers| == |fd.peers|
  {
    hide Confirm;
    ConfirmValid(fd, p, HighSeq(data[1]));
  }

  lemma SwitchValid(fd: Fd, p: nat)
    requires fd.Valid() && p < |fd.peers|
    ensures SwitchToConnected(fd, p).Valid() && |SwitchToConnected(fd, p).peers| == |fd.peers|
    ensures SwitchToDisconnected(fd, p).Valid() && |SwitchToDisconnected(fd, p).peers| == |fd.peers|
  {}

  lemma OnUValid(fd: Fd, p: nat, control: byte)
    requires fd.Valid() && p < |fd.peers|
    ensures OnU(fd, p, control).Valid() && |OnU(fd, p, control).peers| == |fd.peers|
  {
    hide SwitchToConnected;
    hide SwitchToDisconnected;
    hide PutService;
    hide UType;
    PutServiceValid(fd, ServiceFrame(UFrame, AddressOf(fd, p), UA_CONTROL));
    SwitchValid(fd, p);
    SwitchValid(PutU(fd, p, UA_CONTROL), p);
  }

  lemma OnFrameValid(fd: Fd, data: seq<byte>)
    requires fd.Valid()
    ensures OnFrame(fd, data).Valid()
    ensures |OnFrame(fd, data).peers| == |fd.peers|
  {
    hide OnI;
    hide OnS;
    hide OnU;
    hide PutService;
    hide IsU;
    hide IsI;
    hide IsS;
    if |data| >= 2 {
      var p := AddressToPeer(fd.peers, fd.localAddr, data[0]);
      if p != HDLC_INVALID_PEER_INDEX {
        OnUValid(fd, p, data[1]);
        OnIValid(fd, p, data);
        OnSValid(fd, p, data);
        PutServiceValid(fd, ServiceFrame(UFrame, AddressOf(fd, p), DM_CONTROL));
      }
    }
  }

  /** The frames of a list, one after the other. */
  function OnFrames(fd: Fd, frames: seq<seq<byte>>): (r: Fd)
    requires fd.Valid()
    ensures r.Valid() && |r.peers| == |fd.peers|
  {
    if frames == [] then fd
    else
      var r := OnFrames(fd, frames[..|frames| - 1]);
      OnFrameValid(r, frames[|frames| - 1]);
      OnFrame(r, frames[|frames| - 1])
  }

  lemma OnFramesNone(fd: Fd)
    requires fd.Valid()
    ensures OnFrames(fd, []) == fd
  {}

  lemma OnFramesSnoc(fd: Fd, frames: seq<seq<byte>>, frame: seq<byte>)
    requires fd.Valid()
    ensures OnFrames(fd, frames + [frame]) == OnFrame(OnFrames(fd, frames), frame)
  {
    hide OnFrame;
    assert (frames + [frame])[..|frames|] == frames;
  }

  lemma {:induction false} OnFramesAppend(fd: Fd, a: seq<seq<byte>>, b: seq<seq<byte>>)
    requires fd.Valid()
    ensures OnFrames(fd, a + b) == OnFrames(OnFrames(fd, a), b)
    decreases |b|
  {
    hide OnFrame;
    if b == [] {
      assert a + b == a;
    } else {
      var n := |b| - 1;
      OnFramesAppend(fd, a, b[..n]);
      assert a + b == a + b[..n] + [b[n]] && b == b[..n] + [b[n]];
      OnFramesSnoc(fd, a + b[..n], b[n]);
    }
  }

  /** When there was nothing to hand over, there still is not. */
  lemma GenerateAgain(fd: Fd)
    ensures Generate(fd).1.None? ==> Generate(fd).0 == fd
  {}
}
