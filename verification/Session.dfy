/**
 Two stations and the frames in flight between them, as a step system. A run starts with
 both stations fresh and contains the whole handshake. Frames travel in order; I- and
 S-frames may be lost at any moment, timers may fire at any moment.

 History: each packet is tagged with the unbounded frame numbers that its three-bit
 fields stand for, each station remembers what it was asked to send and how much of it is
 confirmed, and each service slot remembers the acknowledgement it carries.
 */
module Session {
  import opened Base
  import opened SeqNum
  import opened FdDefs
  import opened IQueueControl
  import opened FrameQueue
  import opened FdSpec
  import opened Window

  datatype Tag = TagI(idx: nat, ack: nat) | TagS(ack: nat) | TagU

  datatype Packet = Packet(bytes: seq<byte>, tag: Tag)

  datatype Station = Station(fd: Fd, conf: nat, sent: Log, slotAck: seq<nat>) {
    function State(): FdState
      requires |fd.peers| == 1
    {
      fd.peers[0].state
    }

    function Ctl(): Ctl
      requires |fd.peers| == 1
    {
      fd.peers[0].ctl
    }

    /** How many frames this station has delivered to its user. */
    function Got(): nat {
      |fd.delivered|
    }
  }

  /** over: a station has left Connected, which ends the session. */
  datatype Session = Session(a: Station, b: Station, ab: seq<Packet>, ba: seq<Packet>, over: bool)

  datatype Action =
    | Send(address: byte, data: seq<byte>)
    | Timer(frameDue: bool, iDue: bool)
    | Transmit
    | Receive
    | Lose(at: nat)

  function Flip(s: Session): Session {
    Session(s.b, s.a, s.ba, s.ab, s.over)
  }

  // ----- The start -----

  /** A station with one peer under the given address field, in the given state, to which nothing has happened. */
  predicate Fresh(x: Station, address: byte, state: FdState) {
    && x.fd.Valid() && |x.fd.peers| == 1
    && AddressOf(x.fd, 0) == address && AddressToPeer(x.fd.peers, x.fd.localAddr, address) == 0
    && x.State() == state && x.Ctl() == CTL_ZERO && !x.fd.peers[0].sentReject
    && (forall j :: 0 <= j < |x.fd.iq.slots| ==> x.fd.iq.slots[j].None?)
    && (forall j :: 0 <= j < |x.fd.sq.slots| ==> x.fd.sq.slots[j].None?)
    && x.fd.sq.lookup == 0 && x.fd.freeSlots
    && x.fd.delivered == []
    && x.fd.connects == (if state == Connected then [(UserAddress(x.fd, 0), true)] else [])
    && x.conf == 0 && x.sent == [] && |x.slotAck| == U_QUEUE_MAX_SIZE
  }

  /** Two new stations, or two that have just become connected, and nothing under way. */
  ghost predicate Init(s: Session) {
    && (exists address: byte, state: FdState {:trigger Fresh(s.a, address, state)} ::
          state in {Disconnected, Connected} && Fresh(s.a, address, state) && Fresh(s.b, address, state))
    && s.ab == [] && s.ba == [] && !s.over
  }

  // ----- Steps of the first station -----

  predicate PendingS(s: Slot) {
    s.Some? && s.value.frameType == SFrame
  }

  /** The N(R) of a connected station's answer to this I-frame, if it is answered. */
  function Answer(fd: Fd, bytes: seq<byte>): Option<byte>
    requires |fd.peers| == 1 && |bytes| >= 2
  {
    var peer := fd.peers[0];
    if AddressToPeer(fd.peers, fd.localAddr, bytes[0]) != 0 then None
    else if HighSeq(bytes[1]) == peer.ctl.nextNr then Some(Succ(peer.ctl.nextNr))
    else if peer.sentReject then None
    else Some(peer.ctl.nextNr)
  }

  /**
   The answer to an I-frame will not overtake another: every supervisory frame behind the
   slot it will take carries the same number.
   */
  predicate AnswersInOrder(fd: Fd, bytes: seq<byte>)
    requires |fd.peers| == 1 && |bytes| >= 2
  {
    var free, answer := FindFree(fd.sq.slots, fd.sq.lookup, 0), Answer(fd, bytes);
    free.Some? && answer.Some? ==>
      forall k :: free.value < k < |fd.sq.slots| && PendingS(fd.sq.slots[k]) ==>
        HighSeq(fd.sq.slots[k].value.header.control) == answer.value
  }

  /**
   What can happen. Users send while connected; the retry timer of an unanswered connection
   request does not fire; U-frames are not lost.
   */
  predicate Possible(s: Session, act: Action) {
    && !s.over && s.a.fd.Valid() && |s.a.fd.peers| == 1 && |s.a.slotAck| == |s.a.fd.sq.slots|
    && match act
       case Send(_, _) => s.a.State() == Connected
       case Timer(frameDue, _) => s.a.State() == Connecting ==> !frameDue
       case Transmit => true
       case Receive => s.ba != [] && |s.ba[0].bytes| >= 2
       case Lose(at) => at < |s.ab| && s.ab[at].tag != TagU
  }

  /** And what the guarantees are about: an I-frame is taken only when its answer will not overtake another. */
  predicate Enabled(s: Session, act: Action)
    ensures Enabled(s, act) ==> Possible(s, act)
  {
    && Possible(s, act)
    && (act.Receive? && IsI(s.ba[0].bytes[1]) ==> AnswersInOrder(s.a.fd, s.ba[0].bytes))
  }

  function DoSend(x: Station, address: byte, data: seq<byte>): Station
    requires x.fd.Valid()
  {
    var (fd, r) := SendPacket(x.fd, address, data);
    x.(fd := fd, sent := if r.Ok? then x.sent + [data] else x.sent)
  }

  /** The tag of the packet an idle transmitter would send. */
  function NextTag(x: Station): Tag
    requires x.fd.Valid() && |x.fd.peers| == 1 && |x.slotAck| == |x.fd.sq.slots|
  {
    match FirstOccupied(x.fd.sq.slots, 0)
    case Some(j) => if PendingS(x.fd.sq.slots[j]) then TagS(x.slotAck[j]) else TagU
    case None => TagI(IndexFrom(x.conf, x.Ctl().nextNs), x.Got())
  }

  /** The confirmation history after a packet: an acknowledgement is taken by a station that is connected. */
  function NextConf(x: Station, tag: Tag): nat
    requires |x.fd.peers| == 1
  {
    if x.State() != Connected then x.conf
    else match tag
      case TagI(_, ack) => ack
      case TagS(ack) => ack
      case TagU => x.conf
  }

  function DoReceive(x: Station, packet: Packet): Station
    requires x.fd.Valid() && |x.fd.peers| == 1 && |x.slotAck| == |x.fd.sq.slots|
  {
    var fd := OnFrame(x.fd, packet.bytes);
    var slotAck := match FindFree(x.fd.sq.slots, x.fd.sq.lookup, 0)
      case None => x.slotAck
      case Some(j) => x.slotAck[j := |fd.delivered|];
    Station(fd, NextConf(x, packet.tag), x.sent, slotAck)
  }

  /** The station was connected and is no longer. */
  predicate Left(before: Fd, after: Fd)
    requires |before.peers| == 1
  {
    before.peers[0].state == Connected && !(|after.peers| == 1 && after.peers[0].state == Connected)
  }

  function StepA(s: Session, act: Action): Session
    requires Possible(s, act)
  {
    match act
    case Send(address, data) => s.(a := DoSend(s.a, address, data))
    case Timer(frameDue, iDue) =>
      var fd := TimeoutPeer(s.a.fd, 0, frameDue, iDue);
      s.(a := s.a.(fd := fd), over := Left(s.a.fd, fd))
    case Transmit =>
      var (fd, out) := Generate(s.a.fd);
      s.(a := s.a.(fd := fd), ab := if out.Some? then s.ab + [Packet(out.value, NextTag(s.a))] else s.ab)
    case Receive =>
      var x := DoReceive(s.a, s.ba[0]);
      s.(a := x, ba := s.ba[1..], over := Left(s.a.fd, x.fd))
    case Lose(at) => s.(ab := s.ab[..at] + s.ab[at + 1..])
  }

  /** One step of either station. */
  function Step(s: Session, first: bool, act: Action): Session
    requires Possible(if first then s else Flip(s), act)
  {
    if first then StepA(s, act) else Flip(StepA(Flip(s), act))
  }

  /** Any sequence of enabled steps; None if one of them was not enabled. */
  function RunFrom(s: Session, acts: seq<(bool, Action)>): Option<Session> {
    if acts == [] then Some(s)
    else
      var n := |acts| - 1;
      var (first, act) := acts[n];
      match RunFrom(s, acts[..n])
      case None => None
      case Some(r) => if Enabled(if first then r else Flip(r), act) then Some(Step(r, first, act)) else None
  }

  // ----- The invariant -----

  predicate U(p: Packet) { p.tag == TagU }

  predicate PendingU(s: Slot) {
    s.Some? && s.value.frameType == UFrame
  }

  function AckOf(p: Packet): nat
    requires !U(p)
  {
    match p.tag
    case TagI(_, ack) => ack
    case TagS(ack) => ack
  }

  function Addr(x: Station): byte
    requires |x.fd.peers| == 1
  {
    AddressOf(x.fd, 0)
  }

  /** A service slot holds a well-formed frame; a supervisory one carries the acknowledgement remembered for it. */
  predicate SlotOk(x: Station, j: nat)
    requires |x.fd.peers| == 1 && j < |x.fd.sq.slots| == |x.slotAck|
  {
    var s := x.fd.sq.slots[j];
    s.Some? ==>
      && s.value.header.address == Addr(x) && s.value.payload == []
      && s.value.frameType != IFrame
      && (PendingU(s) ==> s.value.header.control == SABM_CONTROL || s.value.header.control == UA_CONTROL)
      && (PendingS(s) ==>
            && (s.value.header.control == RrControl(Seq(x.slotAck[j]))
                || s.value.header.control == RejControl(Seq(x.slotAck[j])))
            && x.slotAck[j] <= x.Got())
  }

  /** Nothing has happened yet at a station that is not connected, except for its own request. */
  ghost predicate Blank(x: Station)
    requires |x.fd.peers| == 1
  {
    && x.conf == 0 && x.sent == [] && x.fd.delivered == [] && x.Ctl() == CTL_ZERO
    && (forall j :: 0 <= j < |x.fd.iq.slots| ==> x.fd.iq.slots[j].None?)
  }

  ghost predicate Local(x: Station)
    ensures Local(x) ==>
      x.fd.Valid() && |x.fd.peers| == 1 && |x.slotAck| == |x.fd.sq.slots| == U_QUEUE_MAX_SIZE
  {
    && x.fd.Valid() && |x.fd.peers| == 1 && |x.slotAck| == U_QUEUE_MAX_SIZE
    && AddressToPeer(x.fd.peers, x.fd.localAddr, Addr(x)) == 0
    && x.State() in {Disconnected, Connecting, Connected}
    && x.fd.connects == (if x.State() == Connected then [(UserAddress(x.fd, 0), true)] else [])
    && (x.State() != Connected ==> Blank(x))
    && (x.State() == Disconnected ==> x.fd.sq.lookup == 0 && x.fd.sq.slots[0].None?)
    && (x.State() == Connecting ==> x.fd.sq.lookup == 1)
    && (x.State() != Connected ==>
          !PendingS(x.fd.sq.slots[0]) && forall j :: 1 <= j < |x.fd.sq.slots| ==> x.fd.sq.slots[j].None?)
    && (forall j :: 0 <= j < |x.fd.sq.slots| ==> SlotOk(x, j))
    && (forall j, k | 0 <= j < k < |x.fd.sq.slots| && PendingS(x.fd.sq.slots[j]) && PendingS(x.fd.sq.slots[k]) ::
          x.slotAck[j] <= x.slotAck[k])
  }

  /** An I-packet of x carries the payload of the frame it is tagged with. */
  predicate DataPacket(x: Station, p: Packet)
    requires |x.fd.peers| == 1
  {
    p.tag.TagI? ==>
      && p.tag.idx < |x.sent|
      && p.bytes == [Addr(x), IControl(Seq(p.tag.idx), Seq(p.tag.ack))] + x.sent[p.tag.idx]
  }

  /** Data from x to y: what is sent, what is under way, what has arrived. */
  ghost predicate Data(x: Station, xy: seq<Packet>, y: Station)
    requires |x.fd.peers| == 1 && |y.fd.peers| == 1
  {
    && x.conf <= y.Got() <= |x.sent|
    && x.Ctl().confirmNs == Seq(x.conf) && x.Ctl().lastNs == Seq(|x.sent|)
    && y.Ctl().nextNr == Seq(y.Got())
    && Agrees(x.fd.iq.slots, Addr(x), x.conf, |x.sent|, x.sent)
    && (forall i :: 0 <= i < y.Got() ==> y.fd.delivered[i].1 == x.sent[i])
    && (forall q :: 0 <= q < |xy| ==> DataPacket(x, xy[q]))
    && (forall q :: 0 <= q < |xy| && xy[q].tag.TagI? ==> y.Got() <= xy[q].tag.idx + 7)
    && (forall p, q | 0 <= p < q < |xy| && xy[p].tag.TagI? && xy[q].tag.TagI? :: xy[p].tag.idx <= xy[q].tag.idx + 6)
  }

  /** The octets of S- and U-packets are what their tags say. */
  predicate ServicePacket(y: Station, p: Packet)
    requires |y.fd.peers| == 1
  {
    && (p.tag.TagS? ==>
          p.bytes == [Addr(y), RrControl(Seq(p.tag.ack))] || p.bytes == [Addr(y), RejControl(Seq(p.tag.ack))])
    && (p.tag.TagU? ==> p.bytes == [Addr(y), SABM_CONTROL] || p.bytes == [Addr(y), UA_CONTROL])
  }

  /** Acknowledgements from y to x never go back, neither under way nor waiting, and never run ahead. */
  ghost predicate Acks(y: Station, yx: seq<Packet>, x: Station)
    requires |x.fd.peers| == 1 && |y.fd.peers| == 1 && |y.slotAck| == |y.fd.sq.slots|
  {
    && (forall q :: 0 <= q < |yx| ==> ServicePacket(y, yx[q]))
    && (forall q :: 0 <= q < |yx| && !U(yx[q]) ==> x.conf <= AckOf(yx[q]) <= y.Got())
    && (forall p, q | 0 <= p < q < |yx| && !U(yx[p]) && !U(yx[q]) :: AckOf(yx[p]) <= AckOf(yx[q]))
    && (forall j :: 0 <= j < |y.fd.sq.slots| && PendingS(y.fd.sq.slots[j]) ==> x.conf <= y.slotAck[j])
    && (forall q, j | 0 <= q < |yx| && !U(yx[q]) && 0 <= j < |y.fd.sq.slots| && PendingS(y.fd.sq.slots[j]) ::
          AckOf(yx[q]) <= y.slotAck[j])
  }

  predicate IsSabm(p: Packet) { U(p) && |p.bytes| == 2 && p.bytes[1] == SABM_CONTROL }

  predicate IsUa(p: Packet) { U(p) && |p.bytes| == 2 && p.bytes[1] == UA_CONTROL }

  predicate SabmSlot(s: Slot) { PendingU(s) && s.value.header.control == SABM_CONTROL }

  predicate UaSlot(s: Slot) { PendingU(s) && s.value.header.control == UA_CONTROL }

  predicate HasU(xy: seq<Packet>) {
    exists q :: 0 <= q < |xy| && U(xy[q])
  }

  predicate HasUa(xy: seq<Packet>) {
    exists q :: 0 <= q < |xy| && IsUa(xy[q])
  }

  predicate HasUSlot(x: Station) {
    exists j :: 0 <= j < |x.fd.sq.slots| && PendingU(x.fd.sq.slots[j])
  }

  /** A SABM or UA is ahead of everything that y could not take yet. */
  ghost predicate Ahead(x: Station, xy: seq<Packet>, y: Station)
    requires |x.fd.peers| == 1 && |y.fd.peers| == 1
  {
    && (y.State() != Connected ==>
          && (forall q :: 0 <= q < |xy| && !U(xy[q]) ==> HasU(xy[..q]))
          && (x.State() == Connected ==> HasU(xy) || HasUSlot(x))
          && (forall j :: 0 <= j < |x.fd.sq.slots| ==> !PendingS(x.fd.sq.slots[j])))
    && (x.State() != Connected ==> forall q :: 0 <= q < |xy| ==> U(xy[q]))
  }

  /** x says at most one SABM, then at most one UA. */
  ghost predicate Order(x: Station, xy: seq<Packet>) {
    && (forall p, q | 0 <= p < q < |xy| && U(xy[p]) && U(xy[q]) :: IsSabm(xy[p]) && IsUa(xy[q]))
    && (forall j :: 0 <= j < |x.fd.sq.slots| && SabmSlot(x.fd.sq.slots[j]) ==> j == 0 && !HasU(xy))
    && (forall j :: 0 <= j < |x.fd.sq.slots| && UaSlot(x.fd.sq.slots[j]) ==> j <= 1 && !HasUa(xy))
    && (forall j, k | 0 <= j < |x.fd.sq.slots| && 0 <= k < |x.fd.sq.slots| &&
                      UaSlot(x.fd.sq.slots[j]) && UaSlot(x.fd.sq.slots[k]) :: j == k)
  }

  /** What the U-frames x still has to say tell about the states. */
  ghost predicate Meaning(x: Station, xy: seq<Packet>, y: Station)
    requires |x.fd.peers| == 1 && |y.fd.peers| == 1
  {
    && (x.State() == Disconnected ==> xy == [] && y.State() != Connected)
    && (y.State() == Connected ==>
          && (forall j :: 0 <= j < |x.fd.sq.slots| ==> !SabmSlot(x.fd.sq.slots[j]))
          && (forall q :: 0 <= q < |xy| ==> !IsSabm(xy[q])))
    && (x.State() != Connected || y.State() == Disconnected ==>
          && (forall j :: 0 <= j < |x.fd.sq.slots| ==> !UaSlot(x.fd.sq.slots[j]))
          && !HasUa(xy))
  }

  ghost predicate Handshake(x: Station, xy: seq<Packet>, y: Station)
    requires |x.fd.peers| == 1 && |y.fd.peers| == 1
  {
    Ahead(x, xy, y) && Order(x, xy) && Meaning(x, xy, y)
  }

  ghost predicate Inv(s: Session) {
    && Local(s.a) && Local(s.b) && Addr(s.a) == Addr(s.b)
    && Data(s.a, s.ab, s.b) && Data(s.b, s.ba, s.a)
    && Acks(s.a, s.ab, s.b) && Acks(s.b, s.ba, s.a)
    && Handshake(s.a, s.ab, s.b) && Handshake(s.b, s.ba, s.a)
  }

  // ----- What a run guarantees -----

  /** What y delivered is a prefix of what x was asked to send. */
  ghost predicate Prefix(x: Station, y: Station) {
    && |y.fd.delivered| <= |x.sent|
    && forall i :: 0 <= i < |y.fd.delivered| ==> y.fd.delivered[i].1 == x.sent[i]
  }

  /** Every frame of x that y has not delivered still sits in x's queue under its number. */
  ghost predicate Kept(x: Station, y: Station)
    requires |x.fd.peers| == 1
  {
    forall i: nat {:trigger Seq(i)} :: y.Got() <= i < |x.sent| ==>
      var r := Find(x.fd.iq.slots, IFrame, Addr(x), Seq(i), 0);
      r.Some? && x.fd.iq.slots[r.value].value.payload == x.sent[i]
  }
}
