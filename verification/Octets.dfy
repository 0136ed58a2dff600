/**
 Two stations and the octets between them: users hand over packets, each station is polled
 for octets with buffers of any size and fed octets in portions of any size, and octets
 under way may be damaged. Every run of this system is a run of the session, so what is
 delivered is a prefix of what was accepted.
 */
module Octets {
  import opened Base
  import opened Fcs
  import Framing
  import opened FdDefs
  import opened FrameQueue
  import opened FdSpec
  import opened Window
  import opened Receiver
  import opened Session
  import opened SessionProof
  import opened SessionTheorems
  import opened Wire
  import HdlcLl
  import TinyFd

  /** A station with its codec: what it was asked to send, the octets still owed, and the decoder. */
  datatype End = End(fd: Fd, sent: Log, owed: seq<byte>, rx: Rx)

  datatype Link = Link(a: End, b: End, ab: seq<byte>, ba: seq<byte>, over: bool)

  /** Both codecs are configured alike. */
  datatype Format = Format(t: CrcType, mtu: nat) {
    function Size(): nat { mtu + 2 + FieldSize(t) }
  }

  datatype Move =
    | Accept(address: byte, data: seq<byte>)
    | Poll(room: nat, frameDue: bool, iDue: bool)
    | Feed(count: nat)
    | Damage(at: nat, octet: byte)

  function Turned(l: Link): Link {
    Link(l.b, l.a, l.ba, l.ab, l.over)
  }

  // ----- Moves of the first station -----

  /** What the decoder of e makes of these octets. */
  function Decoded(f: Format, e: End, octets: seq<byte>): Run {
    RxFold(f.t, f.Size(), e.rx, octets)
  }

  /** Each of these frames, taken in turn, is answered in order. */
  predicate AllInOrder(fd: Fd, frames: seq<seq<byte>>)
    requires fd.Valid() && |fd.peers| == 1
  {
    forall i :: 0 <= i < |frames| && |frames[i]| >= 2 && IsI(frames[i][1]) ==>
      AnswersInOrder(OnFrames(fd, frames[..i]), frames[i])
  }

  /** The frames that will come out of what is under way to b and still owed by a. */
  function Coming(f: Format, l: Link): seq<seq<byte>> {
    Payloads(Decoded(f, l.b, l.ab + l.a.owed).events)
  }

  /** left is all without some I- and S-frames. */
  predicate Thinner(all: seq<seq<byte>>, left: seq<seq<byte>>) {
    if all == [] then left == []
    else
      || (left != [] && left[0] == all[0] && Thinner(all[1..], left[1..]))
      || (|all[0]| >= 2 && !IsU(all[0][1]) && Thinner(all[1..], left))
  }

  /** A decoder that is outside a frame, or has just met a flag. */
  predicate Clean(s: Rx) {
    s.Idle? || s.buf == []
  }

  /** I- and S-frames are lost, nothing else comes out of them, and the decoder ends clean. */
  predicate SomeLost(f: Format, l: Link, damaged: Link) {
    && Clean(Decoded(f, damaged.b, damaged.ab + damaged.a.owed).state)
    && Thinner(Coming(f, l), Coming(f, damaged))
  }

  function Damaged(l: Link, at: nat, octet: byte): Link
    requires at < |l.ab|
  {
    l.(ab := l.ab[at := octet])
  }

  predicate Allowed(f: Format, l: Link, m: Move) {
    && !l.over && l.a.fd.Valid() && |l.a.fd.peers| == 1
    && match m
       case Accept(_, _) => l.a.fd.peers[0].state == Connected
       case Poll(_, frameDue, _) => l.a.fd.peers[0].state == Connecting ==> !frameDue
       case Feed(count) =>
         count <= |l.ba| && AllInOrder(l.a.fd, Payloads(Decoded(f, l.a, l.ba[..count]).events))
       case Damage(at, octet) => at < |l.ab| && SomeLost(f, l, Damaged(l, at, octet))
  }

  function Moved(f: Format, l: Link, m: Move): Link
    requires Allowed(f, l, m)
  {
    match m
    case Accept(address, data) =>
      var (fd, r) := SendPacket(l.a.fd, address, data);
      l.(a := l.a.(fd := fd, sent := if r.Ok? then l.a.sent + [data] else l.a.sent))
    case Poll(room, frameDue, iDue) =>
      var (fd, frame) := TinyFd.TinyFd.TxRound(l.a.fd, [frameDue], [iDue], l.a.owed != []);
      var owed := l.a.owed + if frame.Some? then Framing.Encode(f.t, frame.value) else [];
      var n := HdlcLl.Min(room, |owed|);
      l.(a := l.a.(fd := fd, owed := owed[n..]), ab := l.ab + owed[..n],
         over := Left(l.a.fd, TimeoutPeer(l.a.fd, 0, frameDue, iDue)))
    case Feed(count) =>
      var run := Decoded(f, l.a, l.ba[..count]);
      var fd := OnFrames(l.a.fd, Payloads(run.events));
      l.(a := l.a.(fd := fd, rx := run.state), ba := l.ba[count..], over := Left(l.a.fd, fd))
    case Damage(at, octet) => Damaged(l, at, octet)
  }

  function LinkRun(f: Format, l: Link, moves: seq<(bool, Move)>): Option<Link> {
    if moves == [] then Some(l)
    else
      var n := |moves| - 1;
      var (first, m) := moves[n];
      match LinkRun(f, l, moves[..n])
      case None => None
      case Some(r) =>
        if !Allowed(f, if first then r else Turned(r), m) then None
        else if first then Some(Moved(f, r, m))
        else Some(Turned(Moved(f, Turned(r), m)))
  }

  // ----- The session behind a link -----

  function BytesOf(ps: seq<Packet>): (r: seq<seq<byte>>)
    ensures |r| == |ps| && forall i :: 0 <= i < |ps| ==> r[i] == ps[i].bytes
  {
    seq(|ps|, i requires 0 <= i < |ps| => ps[i].bytes)
  }

  /** What is under way from a to b as octets is what is under way in the session as packets. */
  ghost predicate Carries(f: Format, l: Link, xy: seq<Packet>) {
    Clean(Decoded(f, l.b, l.ab + l.a.owed).state) && Coming(f, l) == BytesOf(xy)
  }

  /** The link l is the session s, seen as octets. */
  ghost predicate Shows(f: Format, l: Link, s: Session) {
    && l.over == s.over
    && l.a.fd.delivered == s.a.fd.delivered && l.b.fd.delivered == s.b.fd.delivered
    && l.a.sent == s.a.sent && l.b.sent == s.b.sent
    && (!l.over ==> Same(f, l, s))
  }

  ghost predicate Same(f: Format, l: Link, s: Session) {
    && Inv(s) && l.a.fd == s.a.fd && l.b.fd == s.b.fd
    && l.a.sent == s.a.sent && l.b.sent == s.b.sent
    && Sized(l.a.fd) && Sized(l.b.fd) && l.a.fd.mtu == l.b.fd.mtu == f.mtu
    && Carries(f, l, s.ab) && Carries(f, Turned(l), s.ba)
  }

  // ----- A packet is handed over -----

  lemma AcceptShows(f: Format, l: Link, s: Session, address: byte, data: seq<byte>)
    requires Same(f, l, s) && l.over == s.over && Allowed(f, l, Accept(address, data))
    ensures Enabled(s, Send(address, data))
    ensures Shows(f, Moved(f, l, Accept(address, data)), StepA(s, Send(address, data)))
  {
    hide Inv;
    hide SendPacket;
    hide RxFold;
    hide Sized;
    InvShape(s);
    SendInv(s, address, data);
    SendPacketSized(l.a.fd, address, data);
    SendDelivers(l.a.fd, address, data);
    NotOver(s, Send(address, data));
    var m := Moved(f, l, Accept(address, data));
    assert Decoded(f, m.b, m.ab + m.a.owed) == Decoded(f, l.b, l.ab + l.a.owed);
    assert Decoded(f, m.a, m.ba + m.b.owed) == Decoded(f, l.a, l.ba + l.b.owed);
  }

  lemma InvShape(s: Session)
    requires Inv(s)
    ensures s.a.fd.Valid() && |s.a.fd.peers| == 1 && |s.a.slotAck| == |s.a.fd.sq.slots|
    ensures s.b.fd.Valid() && |s.b.fd.peers| == 1 && |s.b.slotAck| == |s.b.fd.sq.slots|
  {
    hide Data;
    hide Acks;
    hide Handshake;
    hide SlotOk;
  }

  lemma SendDelivers(fd: Fd, address: byte, data: seq<byte>)
    requires fd.Valid()
    ensures SendPacket(fd, address, data).0.delivered == fd.delivered
  {
    hide Fd.Valid;
    hide SendTarget;
  }

  // ----- A station is polled -----

  lemma TimerShows(f: Format, l: Link, s: Session, frameDue: bool, iDue: bool) returns (timed: Link)
    requires Same(f, l, s) && l.over == s.over && Allowed(f, l, Poll(0, frameDue, iDue))
    ensures Enabled(s, Timer(frameDue, iDue))
    ensures var fd := TimeoutPeer(l.a.fd, 0, frameDue, iDue);
      timed == l.(a := l.a.(fd := fd), over := Left(l.a.fd, fd)) && Shows(f, timed, StepA(s, Timer(frameDue, iDue)))
  {
    hide Inv;
    hide TimeoutPeer;
    hide RxFold;
    hide Sized;
    InvShape(s);
    TimerInv(s, frameDue, iDue);
    TimeoutSized(l.a.fd, 0, frameDue, iDue);
    TimeoutDelivers(l.a.fd, frameDue, iDue);
    var fd := TimeoutPeer(l.a.fd, 0, frameDue, iDue);
    timed := l.(a := l.a.(fd := fd), over := Left(l.a.fd, fd));
    assert Decoded(f, timed.b, timed.ab + timed.a.owed) == Decoded(f, l.b, l.ab + l.a.owed);
    assert Decoded(f, timed.a, timed.ba + timed.b.owed) == Decoded(f, l.a, l.ba + l.b.owed);
  }

  lemma TimeoutDelivers(fd: Fd, frameDue: bool, iDue: bool)
    requires |fd.peers| == 1
    ensures TimeoutPeer(fd, 0, frameDue, iDue).delivered == fd.delivered
  {
    hide AddressOf;
  }

  /** The station behind the codec transmits: its frame is now owed. */
  function Chosen(f: Format, l: Link): Link {
    var (fd, frame) := Generate(l.a.fd);
    l.(a := l.a.(fd := fd, owed := l.a.owed + if frame.Some? then Framing.Encode(f.t, frame.value) else []))
  }

  /** A frame met by a clean decoder, between what came before and what comes after. */
  lemma FrameBetween(f: Format, rx: Rx, u: seq<byte>, e: seq<byte>, event: Event, rest: seq<byte>)
    requires RxFold(f.t, f.Size(), RxFold(f.t, f.Size(), rx, u).state, e) == Run(Idle, [event])
    ensures var all, after := RxFold(f.t, f.Size(), rx, u + (e + rest)), RxFold(f.t, f.Size(), Idle, rest);
      && all.state == after.state
      && Payloads(all.events) ==
           Payloads(RxFold(f.t, f.Size(), rx, u).events) + (Payloads([event]) + Payloads(after.events))
  {
    hide RxFold;
    hide Payloads;
    var after := RxFold(f.t, f.Size(), Idle, rest).events;
    ChunkIndependence(f.t, f.Size(), RxFold(f.t, f.Size(), rx, u).state, e, rest);
    ChunkIndependence(f.t, f.Size(), rx, u, e + rest);
    PayloadsAppend([event], after);
    PayloadsAppend(RxFold(f.t, f.Size(), rx, u).events, [event] + after);
  }

  /** One more frame at the end. */
  lemma FrameAppended(f: Format, rx: Rx, u: seq<byte>, p: seq<byte>)
    requires Clean(RxFold(f.t, f.Size(), rx, u).state) && Wire.Fits(f.mtu, p)
    ensures var all := RxFold(f.t, f.Size(), rx, u + Framing.Encode(f.t, p));
      all.state == Idle && Payloads(all.events) == Payloads(RxFold(f.t, f.Size(), rx, u).events) + [p]
  {
    hide RxFold;
    hide Payloads;
    hide Framing.Encode;
    var e := Framing.Encode(f.t, p);
    RoundTrip(f.t, f.Size(), RxFold(f.t, f.Size(), rx, u).state, p);
    FrameBetween(f, rx, u, e, Receiver.Frame(p), []);
    RxNone(f.t, f.Size(), Idle);
    PayloadsOne(p);
    assert Payloads([]) == [] by { PayloadsNone(); }
    assert e + [] == e;
  }

  lemma PayloadsNone()
    ensures Payloads([]) == [] && Payloads([BadCrc]) == []
  {
    assert [BadCrc][..0] == [];
  }

  lemma ChosenShows(f: Format, l: Link, s: Session)
    requires Same(f, l, s) && l.over == s.over == false && l.a.owed == []
    ensures Enabled(s, Transmit) && Shows(f, Chosen(f, l), StepA(s, Transmit))
  {
    hide Inv;
    hide Generate;
    hide RxFold;
    hide Payloads;
    hide Sized;
    hide Framing.Encode;
    hide NextTag;
    hide DoReceive;
    hide DoSend;
    hide TimeoutPeer;
    InvShape(s);
    TransmitInv(s);
    GenerateSized(l.a.fd);
    GenerateDelivers(l.a.fd);
    NotOver(s, Transmit);
    var m := Chosen(f, l);
    var (fd, frame) := Generate(l.a.fd);
    assert l.ab + l.a.owed == l.ab;
    assert Decoded(f, m.a, m.ba + m.b.owed) == Decoded(f, l.a, l.ba + l.b.owed);
    if frame.Some? {
      FrameAppended(f, l.b.rx, l.ab, frame.value);
      assert m.ab + m.a.owed == l.ab + Framing.Encode(f.t, frame.value);
      assert BytesOf(StepA(s, Transmit).ab) == BytesOf(s.ab) + [frame.value];
    } else {
      assert m.ab + m.a.owed == l.ab;
    }
  }

  lemma PayloadsOne(p: seq<byte>)
    ensures Payloads([Receiver.Frame(p)]) == [p]
  {
    assert [Receiver.Frame(p)][..0] == [];
  }

  lemma GenerateDelivers(fd: Fd)
    ensures Generate(fd).0.delivered == fd.delivered
  {
    hide Eligible;
    hide NextIFrame;
  }

  /** Octets move from the codec to the channel; nothing else changes. */
  lemma GivenShows(f: Format, l: Link, s: Session, n: nat)
    requires Shows(f, l, s) && n <= |l.a.owed|
    ensures Shows(f, l.(a := l.a.(owed := l.a.owed[n..]), ab := l.ab + l.a.owed[..n]), s)
  {
    hide Inv;
    hide RxFold;
    hide Sized;
    var m := l.(a := l.a.(owed := l.a.owed[n..]), ab := l.ab + l.a.owed[..n]);
    assert m.ab + m.a.owed == l.ab + l.a.owed;
    assert Decoded(f, m.a, m.ba + m.b.owed) == Decoded(f, l.a, l.ba + l.b.owed);
  }

  lemma RoundIs(fd: Fd, frameDue: bool, iDue: bool)
    requires |fd.peers| == 1
    ensures Timeouts(fd, [frameDue], [iDue], 1) == TimeoutPeer(fd, 0, frameDue, iDue)
  {
    hide TimeoutPeer;
    assert Timeouts(fd, [frameDue], [iDue], 0) == fd;
  }

  /** A session as the first or the second station sees it. */
  function Seen(s: Session, first: bool): Session {
    if first then s else Flip(s)
  }

  lemma SeenStep(s: Session, first: bool, act: Action)
    requires Possible(Seen(s, first), act)
    ensures Seen(Step(s, first, act), first) == StepA(Seen(s, first), act)
  {
    hide StepA;
    hide Possible;
  }

  lemma PollShows(f: Format, l: Link, s0: Session, s: Session, first: bool, room: nat, frameDue: bool, iDue: bool)
    returns (r: Session)
    requires Runs(s0, s) && Shows(f, l, Seen(s, first)) && Allowed(f, l, Poll(room, frameDue, iDue))
    ensures Runs(s0, r) && Shows(f, Moved(f, l, Poll(room, frameDue, iDue)), Seen(r, first))
  {
    hide Same;
    hide Runs;
    hide Generate;
    hide TimeoutPeer;
    hide Possible;
    hide Enabled;
    hide StepA;
    hide Step;
    hide Left;
    hide Framing.Encode;
    var timed := TimerShows(f, l, Seen(s, first), frameDue, iDue);
    RunsOn(s0, s, first, Timer(frameDue, iDue));
    SeenStep(s, first, Timer(frameDue, iDue));
    r := Step(s, first, Timer(frameDue, iDue));
    RoundIs(l.a.fd, frameDue, iDue);
    var m := Moved(f, l, Poll(room, frameDue, iDue));
    var chosen := timed;
    if l.a.owed == [] {
      chosen := Chosen(f, timed);
      GenerateDelivers(timed.a.fd);
      if !timed.over {
        ChosenShows(f, timed, Seen(r, first));
        RunsOn(s0, r, first, Transmit);
        SeenStep(r, first, Transmit);
        r := Step(r, first, Transmit);
      }
    }
    var n := HdlcLl.Min(room, |chosen.a.owed|);
    GivenShows(f, chosen, Seen(r, first), n);
    assert m == chosen.(a := chosen.a.(owed := chosen.a.owed[n..]), ab := chosen.ab + chosen.a.owed[..n]);
  }

  // ----- A station is fed -----

  /** The frames in front are taken one by one. */
  lemma {:induction false} ReceiveMany(s0: Session, s: Session, first: bool, frames: seq<seq<byte>>)
    returns (r: Session)
    requires Runs(s0, s) && Inv(Seen(s, first)) && !s.over
    requires |frames| <= |Seen(s, first).ba| && frames == BytesOf(Seen(s, first).ba)[..|frames|]
    requires Seen(s, first).a.fd.Valid() && |Seen(s, first).a.fd.peers| == 1
    requires AllInOrder(Seen(s, first).a.fd, frames)
    ensures Runs(s0, r) && Inv(Seen(r, first)) && !r.over
    ensures var x, y := Seen(s, first), Seen(r, first);
      y == x.(a := y.a, ba := x.ba[|frames|..]) && y.a.fd == OnFrames(x.a.fd, frames) && y.a.sent == x.a.sent
    ensures !Left(Seen(s, first).a.fd, Seen(r, first).a.fd)
    decreases |frames|
  {
    hide Inv;
    hide Runs;
    hide OnFrame;
    hide IsI;
    hide AnswersInOrder;
    hide NextConf;
    hide FindFree;
    if frames == [] {
      r := s;
      OnFramesNone(Seen(s, first).a.fd);
    } else {
      var n := |frames| - 1;
      assert forall i :: 0 <= i < n ==> frames[..n][..i] == frames[..i];
      var t := ReceiveMany(s0, s, first, frames[..n]);
      var x := Seen(t, first);
      InvShape(x);
      PacketLong(x);
      assert x.ba[0] == Seen(s, first).ba[n];
      assert frames[n] == x.ba[0].bytes;
      ReceiveInv(x);
      RunsOn(s0, t, first, Receive);
      SeenStep(t, first, Receive);
      r := Step(t, first, Receive);
      assert frames == frames[..n] + [frames[n]];
      OnFramesSnoc(Seen(s, first).a.fd, frames[..n], frames[n]);
      assert x.ba[1..] == Seen(s, first).ba[n + 1..];
    }
  }

  lemma {:induction false} OnFramesSized(fd: Fd, frames: seq<seq<byte>>)
    requires fd.Valid() && Sized(fd)
    ensures Sized(OnFrames(fd, frames)) && OnFrames(fd, frames).mtu == fd.mtu
  {
    hide Fd.Valid;
    hide OnFrame;
    hide Sized;
    if frames == [] {
      OnFramesNone(fd);
    } else {
      var n := |frames| - 1;
      OnFramesSized(fd, frames[..n]);
      OnFrameSized(OnFrames(fd, frames[..n]), frames[n]);
    }
  }

  /** The octets taken now and those still to come make up what the session has under way. */
  lemma FedFront(f: Format, l: Link, s: Session, count: nat)
    requires Carries(f, Turned(l), s.ba) && count <= |l.ba|
    ensures var run := Decoded(f, l.a, l.ba[..count]);
      var frames := Payloads(run.events);
      && |frames| <= |s.ba| && frames == BytesOf(s.ba)[..|frames|]
      && Carries(f, Turned(l.(a := l.a.(rx := run.state), ba := l.ba[count..])), s.ba[|frames|..])
  {
    hide RxFold;
    var run := Decoded(f, l.a, l.ba[..count]);
    var frames := Payloads(run.events);
    var rest := l.ba[count..] + l.b.owed;
    assert l.ba[..count] + rest == l.ba + l.b.owed;
    ChunkIndependence(f.t, f.Size(), l.a.rx, l.ba[..count], rest);
    var later := RxFold(f.t, f.Size(), run.state, rest);
    PayloadsAppend(run.events, later.events);
    assert frames + Payloads(later.events) == BytesOf(s.ba);
    assert BytesOf(s.ba[|frames|..]) == Payloads(later.events);
  }

  lemma FeedShows(f: Format, l: Link, s0: Session, s: Session, first: bool, count: nat) returns (r: Session)
    requires Runs(s0, s) && Shows(f, l, Seen(s, first)) && Allowed(f, l, Feed(count))
    ensures Runs(s0, r) && Shows(f, Moved(f, l, Feed(count)), Seen(r, first))
  {
    hide Inv;
    hide Runs;
    hide Sized;
    hide RxFold;
    hide OnFrames;
    hide AllInOrder;
    hide Left;
    var x := Seen(s, first);
    InvShape(x);
    FedFront(f, l, x, count);
    var frames := Payloads(Decoded(f, l.a, l.ba[..count]).events);
    r := ReceiveMany(s0, s, first, frames);
    OnFramesSized(l.a.fd, frames);
    var m := Moved(f, l, Feed(count));
    assert Decoded(f, m.b, m.ab + m.a.owed) == Decoded(f, l.b, l.ab + l.a.owed);
    assert Coming(f, m) == Coming(f, l);
    var fed := l.(a := l.a.(rx := m.a.rx), ba := m.ba);
    assert Decoded(f, m.a, m.ba + m.b.owed) == Decoded(f, fed.a, fed.ba + fed.b.owed);
  }

  // ----- Octets under way are damaged -----

  lemma NotUFrame(s: Session, i: nat)
    requires Inv(s) && i < |s.ab| && |s.ab[i].bytes| >= 2 && !IsU(s.ab[i].bytes[1])
    ensures s.ab[i].tag != TagU
  {
    hide Local;
    hide Data;
    hide Handshake;
    UControlRoundTrip();
    assert ServicePacket(s.a, s.ab[i]);
  }

  lemma LoseIs(s: Session, i: nat)
    requires Inv(s) && !s.over && i < |s.ab| && s.ab[i].tag != TagU
    ensures Enabled(s, Lose(i)) && StepA(s, Lose(i)) == s.(ab := s.ab[..i] + s.ab[i + 1..])
    ensures Inv(StepA(s, Lose(i)))
  {
    hide Inv;
    InvShape(s);
    LoseInv(s, i);
  }

  lemma BytesWithout(xy: seq<Packet>, k: nat)
    requires k < |xy|
    ensures BytesOf(xy[..k] + xy[k + 1..])[..k] == BytesOf(xy)[..k]
    ensures BytesOf(xy[..k] + xy[k + 1..])[k..] == BytesOf(xy)[k..][1..]
  {}

  /** The packets from k on whose frames do not come out are lost. */
  lemma {:induction false} LoseMany(s0: Session, s: Session, first: bool, k: nat, left: seq<seq<byte>>)
    returns (r: Session)
    requires Runs(s0, s) && Inv(Seen(s, first)) && !s.over && k <= |Seen(s, first).ab|
    requires Thinner(BytesOf(Seen(s, first).ab)[k..], left)
    ensures Runs(s0, r) && Inv(Seen(r, first)) && !r.over
    ensures var x, y := Seen(s, first), Seen(r, first);
      y == x.(ab := y.ab) && BytesOf(y.ab) == BytesOf(x.ab)[..k] + left
    decreases |Seen(s, first).ab| - k
  {
    hide Inv;
    hide Runs;
    hide IsU;
    hide Enabled;
    hide Step;
    hide StepA;
    var x := Seen(s, first);
    var all := BytesOf(x.ab)[k..];
    if k == |x.ab| {
      r := s;
    } else if left != [] && left[0] == all[0] && Thinner(all[1..], left[1..]) {
      assert BytesOf(x.ab)[k + 1..] == all[1..];
      r := LoseMany(s0, s, first, k + 1, left[1..]);
      assert BytesOf(x.ab)[..k + 1] + left[1..] == BytesOf(x.ab)[..k] + left;
    } else {
      assert all[0] == x.ab[k].bytes;
      NotUFrame(x, k);
      LoseIs(x, k);
      RunsOn(s0, s, first, Lose(k));
      SeenStep(s, first, Lose(k));
      BytesWithout(x.ab, k);
      r := LoseMany(s0, Step(s, first, Lose(k)), first, k, left);
    }
  }

  lemma DamageShows(f: Format, l: Link, s0: Session, s: Session, first: bool, at: nat, octet: byte) returns (r: Session)
    requires Runs(s0, s) && Shows(f, l, Seen(s, first)) && Allowed(f, l, Damage(at, octet))
    ensures Runs(s0, r) && Shows(f, Moved(f, l, Damage(at, octet)), Seen(r, first))
  {
    hide Inv;
    hide Runs;
    hide Sized;
    hide RxFold;
    hide Thinner;
    hide Payloads;
    hide TimeoutPeer;
    hide Generate;
    hide OnFrames;
    hide SendPacket;
    hide AllInOrder;
    var x, m := Seen(s, first), Damaged(l, at, octet);
    assert BytesOf(x.ab)[0..] == BytesOf(x.ab);
    r := LoseMany(s0, s, first, 0, Coming(f, m));
    assert BytesOf(x.ab)[..0] == [];
    assert Decoded(f, m.a, m.ba + m.b.owed) == Decoded(f, l.a, l.ba + l.b.owed);
  }

  // ----- What damage does -----

  lemma {:induction false} NoFlagNoEvent(f: Format, s: Rx, w: seq<byte>)
    requires Framing.FLAG !in w
    ensures RxFold(f.t, f.Size(), s, w).events == []
  {
    if w != [] {
      NoFlagNoEvent(f, s, w[..|w| - 1]);
      assert w[|w| - 1] in w;
    }
  }

  /** A frame that has not ended has not come out. */
  lemma NothingYet(f: Format, s: Rx, p: seq<byte>, k: nat)
    requires Clean(s) && k < |Framing.Encode(f.t, p)|
    ensures RxFold(f.t, f.Size(), s, Framing.Encode(f.t, p)[..k]).events == []
  {
    hide RxFold;
    hide Framing.Stuff;
    var e := Framing.Encode(f.t, p);
    if k == 0 {
      RxNone(f.t, f.Size(), s);
      assert e[..0] == [];
    } else {
      var body := Framing.Stuff(p + Field(f.t, p));
      Framing.StuffShape(p + Field(f.t, p));
      assert e[..k] == [Framing.FLAG] + body[..k - 1];
      RxFirst(f.t, f.Size(), s, Framing.FLAG, body[..k - 1]);
      assert forall b :: b in body[..k - 1] ==> b in body;
      NoFlagNoEvent(f, RxByte(f.t, f.Size(), s, Framing.FLAG).state, body[..k - 1]);
    }
  }

  /** From a clean decoder a frame is rejected as from an idle one. */
  lemma RejectedClean(f: Format, s: Rx, p: seq<byte>, k: nat, octet: byte)
    requires Clean(s) && f.t != CrcOff && |p| + FieldSize(f.t) <= f.Size()
    requires 0 < k < |Framing.Encode(f.t, p)| - 1 && octet != Framing.Encode(f.t, p)[k]
    requires !Framing.Special(Framing.Encode(f.t, p)[k]) && !Framing.Special(octet)
    ensures RxFold(f.t, f.Size(), s, Framing.Encode(f.t, p)[k := octet]) == Run(Idle, [BadCrc])
  {
    hide RxFold;
    hide Framing.Encode;
    var d := Framing.Encode(f.t, p)[k := octet];
    CorruptionRejected(f.t, f.Size(), p, k, octet);
    Framing.EncodeShape(f.t, p);
    assert d == [Framing.FLAG] + d[1..];
    RxFirst(f.t, f.Size(), Idle, Framing.FLAG, d[1..]);
    RxFirst(f.t, f.Size(), s, Framing.FLAG, d[1..]);
  }

  lemma {:induction false} ThinnerSame(all: seq<seq<byte>>)
    ensures Thinner(all, all)
  {
    if all != [] {
      ThinnerSame(all[1..]);
    }
  }

  lemma {:induction false} ThinnerOne(before: seq<seq<byte>>, p: seq<byte>, after: seq<seq<byte>>)
    requires |p| >= 2 && !IsU(p[1])
    ensures Thinner(before + ([p] + after), before + after)
  {
    if before == [] {
      ThinnerSame(after);
      assert before + ([p] + after) == [p] + after && before + after == after;
    } else {
      ThinnerOne(before[1..], p, after);
      assert (before + ([p] + after))[1..] == before[1..] + ([p] + after);
      assert (before + after)[1..] == before[1..] + after;
    }
  }

  /** What has come out of the front of a stream is the front of what comes out of it. */
  lemma FrontFirst(f: Format, s: Rx, front: seq<byte>, rest: seq<byte>)
    ensures var a, all := RxFold(f.t, f.Size(), s, front), RxFold(f.t, f.Size(), s, front + rest);
      && all.state == RxFold(f.t, f.Size(), a.state, rest).state
      && Payloads(all.events) == Payloads(a.events) + Payloads(RxFold(f.t, f.Size(), a.state, rest).events)
  {
    hide RxFold;
    hide Payloads;
    ChunkIndependence(f.t, f.Size(), s, front, rest);
    var a := RxFold(f.t, f.Size(), s, front);
    PayloadsAppend(a.events, RxFold(f.t, f.Size(), a.state, rest).events);
  }

  /** What comes out of a stream with the frame, and with the frame spoilt. */
  lemma Spoils(f: Format, s: Rx, u: seq<byte>, p: seq<byte>, v: seq<byte>, k: nat, octet: byte)
    requires f.t != CrcOff && 2 <= |p| <= f.mtu + 2
    requires Clean(RxFold(f.t, f.Size(), s, u).state) && Clean(RxFold(f.t, f.Size(), Idle, v).state)
    requires 0 < k < |Framing.Encode(f.t, p)| - 1 && octet != Framing.Encode(f.t, p)[k]
    requires !Framing.Special(Framing.Encode(f.t, p)[k]) && !Framing.Special(octet)
    ensures var e := Framing.Encode(f.t, p);
      var before := Payloads(RxFold(f.t, f.Size(), s, u).events);
      var after := Payloads(RxFold(f.t, f.Size(), Idle, v).events);
      var good, bad := RxFold(f.t, f.Size(), s, u + (e + v)), RxFold(f.t, f.Size(), s, u + (e[k := octet] + v));
      && Payloads(good.events) == before + ([p] + after) && Payloads(bad.events) == before + after && Clean(bad.state)
  {
    hide RxFold;
    hide Payloads;
    hide Framing.Encode;
    var e := Framing.Encode(f.t, p);
    var now := RxFold(f.t, f.Size(), s, u).state;
    RoundTrip(f.t, f.Size(), now, p);
    RejectedClean(f, now, p, k, octet);
    FrameBetween(f, s, u, e, Receiver.Frame(p), v);
    FrameBetween(f, s, u, e[k := octet], BadCrc, v);
    PayloadsOne(p);
    PayloadsNone();
    assert [] + Payloads(RxFold(f.t, f.Size(), Idle, v).events) == Payloads(RxFold(f.t, f.Size(), Idle, v).events);
  }

  /** A part of a stream that ends inside the frame has brought out no more than what precedes the frame. */
  lemma FedOut(f: Format, s: Rx, fed: seq<byte>, u: seq<byte>, p: seq<byte>, k: nat, whole: seq<byte>, rest: seq<byte>)
    requires Clean(RxFold(f.t, f.Size(), s, u).state) && k < |Framing.Encode(f.t, p)|
    requires fed + whole == u + (Framing.Encode(f.t, p)[..k] + rest) && |fed| <= |u| + k
    ensures Payloads(RxFold(f.t, f.Size(), s, fed).events) <= Payloads(RxFold(f.t, f.Size(), s, u).events)
  {
    hide RxFold;
    hide Payloads;
    hide Framing.Encode;
    var part := Framing.Encode(f.t, p)[..k];
    FedBefore(f, s, fed, u, part, whole, rest);
    NothingYet(f, RxFold(f.t, f.Size(), s, u).state, p, k);
    FrontFirst(f, s, u, part);
    PayloadsNone();
    assert Payloads(RxFold(f.t, f.Size(), s, u).events) + [] == Payloads(RxFold(f.t, f.Size(), s, u).events);
  }

  /**
   Damage as it happens: one plain octet inside a frame that is not a U-frame is replaced
   by another plain one. The octet is under way; of the frame, a part may have been fed
   already and a part may still be owed. The check field turns the damage into a loss.
   The decoder of the second station was fed the octets fed since it was in the state s.
   */
  lemma DamageLoses(
    f: Format, l: Link, s: Rx, fed: seq<byte>, u: seq<byte>, p: seq<byte>, v: seq<byte>, k: nat, octet: byte)
    requires f.t != CrcOff && l.b.rx == RxFold(f.t, f.Size(), s, fed).state
    requires fed + (l.ab + l.a.owed) == u + (Framing.Encode(f.t, p) + v)
    requires Clean(RxFold(f.t, f.Size(), s, u).state) && Clean(RxFold(f.t, f.Size(), Idle, v).state)
    requires 2 <= |p| <= f.mtu + 2 && !IsU(p[1])
    requires 0 < k < |Framing.Encode(f.t, p)| - 1 && octet != Framing.Encode(f.t, p)[k]
    requires !Framing.Special(Framing.Encode(f.t, p)[k]) && !Framing.Special(octet)
    requires |fed| <= |u| + k < |fed| + |l.ab|
    ensures SomeLost(f, l, Damaged(l, |u| + k - |fed|, octet))
  {
    hide RxFold;
    hide Payloads;
    hide Framing.Encode;
    hide IsU;
    hide Thinner;
    var e := Framing.Encode(f.t, p);
    var m := Damaged(l, |u| + k - |fed|, octet);
    var whole, spoilt := l.ab + l.a.owed, m.ab + m.a.owed;
    SpoiltStream(l, fed, u, e, v, k, octet);
    Spoils(f, s, u, p, v, k, octet);
    FedOut(f, s, fed, u, p, k, whole, e[k..] + v);
    FrontFirst(f, s, fed, whole);
    FrontFirst(f, s, fed, spoilt);
    OneTakenOut(Payloads(RxFold(f.t, f.Size(), s, fed).events), Payloads(RxFold(f.t, f.Size(), s, u).events), p,
                Payloads(RxFold(f.t, f.Size(), Idle, v).events), Coming(f, l), Coming(f, m));
  }

  lemma SpoiltStream(l: Link, fed: seq<byte>, u: seq<byte>, e: seq<byte>, v: seq<byte>, k: nat, octet: byte)
    requires fed + (l.ab + l.a.owed) == u + (e + v) && k < |e| && |fed| <= |u| + k < |fed| + |l.ab|
    ensures var m := Damaged(l, |u| + k - |fed|, octet); fed + (m.ab + m.a.owed) == u + (e[k := octet] + v)
    ensures fed + (l.ab + l.a.owed) == u + (e[..k] + (e[k..] + v))
  {
    var at := |u| + k - |fed|;
    var m := Damaged(l, at, octet);
    assert m.ab + m.a.owed == (l.ab + l.a.owed)[at := octet];
    assert fed + (m.ab + m.a.owed) == (fed + (l.ab + l.a.owed))[|u| + k := octet];
    assert e == e[..k] + e[k..];
  }

  lemma OneTakenOut(
    out: seq<seq<byte>>, before: seq<seq<byte>>, p: seq<byte>, after: seq<seq<byte>>,
    all: seq<seq<byte>>, left: seq<seq<byte>>)
    requires |p| >= 2 && !IsU(p[1]) && out <= before
    requires out + all == before + ([p] + after) && out + left == before + after
    ensures Thinner(all, left)
  {
    hide IsU;
    hide Thinner;
    var rest := before[|out|..];
    assert before == out + rest;
    assert out + all == out + (rest + ([p] + after)) && out + left == out + (rest + after);
    SameRest(out, all, rest + ([p] + after));
    SameRest(out, left, rest + after);
    ThinnerOne(rest, p, after);
  }

  lemma SameRest(out: seq<seq<byte>>, a: seq<seq<byte>>, b: seq<seq<byte>>)
    requires out + a == out + b
    ensures a == b
  {
    assert (out + a)[|out|..] == a && (out + b)[|out|..] == b;
  }

  /** What was fed ends before the octet that is damaged, so it has brought out no more than what precedes the frame. */
  lemma FedBefore(
    f: Format, s: Rx, fed: seq<byte>, u: seq<byte>, part: seq<byte>, whole: seq<byte>, rest: seq<byte>)
    requires fed + whole == u + (part + rest) && |fed| <= |u + part|
    ensures Payloads(RxFold(f.t, f.Size(), s, fed).events) <= Payloads(RxFold(f.t, f.Size(), s, u + part).events)
  {
    hide RxFold;
    hide Payloads;
    assert u + (part + rest) == u + part + rest;
    assert (fed + whole)[..|u + part|] == u + part;
    assert fed == (u + part)[..|fed|];
    FrontFirst(f, s, fed, (u + part)[|fed|..]);
    assert fed + (u + part)[|fed|..] == u + part;
  }

  // ----- Every run -----

  lemma TurnedShows(f: Format, l: Link, s: Session)
    ensures Shows(f, l, s) <==> Shows(f, Turned(l), Flip(s))
  {
    hide Inv;
    hide Carries;
    hide Sized;
    FlipInv(s);
    assert Turned(Turned(l)) == l;
  }

  lemma MoveShows(f: Format, l: Link, s0: Session, s: Session, first: bool, m: Move) returns (r: Session)
    requires Runs(s0, s) && Shows(f, l, Seen(s, first)) && Allowed(f, l, m)
    ensures Runs(s0, r) && Shows(f, Moved(f, l, m), Seen(r, first))
  {
    hide Shows;
    hide Runs;
    hide Allowed;
    hide Moved;
    match m
    case Accept(address, data) =>
      r := AcceptedShows(f, l, s0, s, first, address, data);
    case Poll(room, frameDue, iDue) => r := PollShows(f, l, s0, s, first, room, frameDue, iDue);
    case Feed(count) => r := FeedShows(f, l, s0, s, first, count);
    case Damage(at, octet) => r := DamageShows(f, l, s0, s, first, at, octet);
  }

  lemma AcceptedShows(f: Format, l: Link, s0: Session, s: Session, first: bool, address: byte, data: seq<byte>)
    returns (r: Session)
    requires Runs(s0, s) && Shows(f, l, Seen(s, first)) && Allowed(f, l, Accept(address, data))
    ensures Runs(s0, r) && Shows(f, Moved(f, l, Accept(address, data)), Seen(r, first))
  {
    hide Same;
    hide Runs;
    hide Possible;
    hide Enabled;
    hide StepA;
    hide Step;
    hide SendPacket;
    AcceptShows(f, l, Seen(s, first), address, data);
    RunsOn(s0, s, first, Send(address, data));
    SeenStep(s, first, Send(address, data));
    r := Step(s, first, Send(address, data));
  }

  /** Two stations as configured, with codecs configured alike, and nothing under way. */
  ghost predicate Begun(f: Format, l: Link, primary: TinyFd.TinyFdConfig, secondary: TinyFd.TinyFdConfig) {
    && primary.addr == 0 && primary.peersCount <= 1 && 1 <= primary.windowFrames <= 7
    && secondary.addr == 1 && secondary.peersCount <= 255 && 1 <= secondary.windowFrames <= 7
    && TinyFd.TinyFd.Initial(l.a.fd, primary) && TinyFd.TinyFd.Initial(l.b.fd, secondary)
    && primary.crcType == secondary.crcType == f.t && l.a.fd.mtu == l.b.fd.mtu == f.mtu
    && l == Link(End(l.a.fd, [], [], Idle), End(l.b.fd, [], [], Idle), [], [], false)
  }

  function Behind(l: Link): Session {
    Session(Station(l.a.fd, 0, [], [0, 0, 0, 0]), Station(l.b.fd, 0, [], [0, 0, 0, 0]), [], [], false)
  }

  lemma BegunShows(f: Format, l: Link, primary: TinyFd.TinyFdConfig, secondary: TinyFd.TinyFdConfig)
    requires Begun(f, l, primary, secondary)
    ensures Init(Behind(l)) && Runs(Behind(l), Behind(l)) && Shows(f, l, Behind(l))
  {
    hide Inv;
    hide Init;
    hide TinyFd.TinyFd.Initial;
    hide Sized;
    var s := Behind(l);
    ConfiguredInit(s, primary, secondary);
    InitInv(s);
    assert RunFrom(s, []) == Some(s);
    RxNone(f.t, f.Size(), Idle);
    assert l.ab + l.a.owed == [] && l.ba + l.b.owed == [];
    BegunDelivered(l, primary, secondary);
  }

  lemma BegunDelivered(l: Link, primary: TinyFd.TinyFdConfig, secondary: TinyFd.TinyFdConfig)
    requires primary.peersCount <= 255 && secondary.peersCount <= 255
    requires TinyFd.TinyFd.Initial(l.a.fd, primary) && TinyFd.TinyFd.Initial(l.b.fd, secondary)
    ensures l.a.fd.delivered == l.b.fd.delivered == []
  {}

  /** Every run of octets is a run of the session. */
  lemma {:induction false} OctetsRefineSession(
    f: Format, l: Link, primary: TinyFd.TinyFdConfig, secondary: TinyFd.TinyFdConfig, moves: seq<(bool, Move)>)
    returns (s: Session)
    requires Begun(f, l, primary, secondary) && LinkRun(f, l, moves).Some?
    ensures Init(Behind(l)) && Runs(Behind(l), s) && Shows(f, LinkRun(f, l, moves).value, s)
  {
    hide Begun;
    hide Shows;
    hide Runs;
    hide Init;
    hide Allowed;
    hide Moved;
    BegunShows(f, l, primary, secondary);
    if moves == [] {
      s := Behind(l);
    } else {
      var n := |moves| - 1;
      var (first, m) := moves[n];
      var t := OctetsRefineSession(f, l, primary, secondary, moves[..n]);
      var r := LinkRun(f, l, moves[..n]).value;
      TurnedShows(f, r, t);
      var view := if first then r else Turned(r);
      s := MoveShows(f, view, Behind(l), t, first, m);
      TurnedShows(f, Moved(f, view, m), Flip(s));
      TurnedShows(f, Moved(f, view, m), s);
      assert Flip(Flip(s)) == s;
    }
  }

  /**
   End to end, in octets: from two configured stations on, whatever is handed over,
   however the octets are cut, whenever timers fire and whatever is damaged, the payloads
   delivered at one end are a prefix of those accepted at the other, both ways.
   */
  lemma DeliveredOverOctets(
    f: Format, l: Link, primary: TinyFd.TinyFdConfig, secondary: TinyFd.TinyFdConfig, moves: seq<(bool, Move)>)
    requires Begun(f, l, primary, secondary) && LinkRun(f, l, moves).Some?
    ensures var r := LinkRun(f, l, moves).value;
      PayloadsOf(r.b.fd.delivered) <= r.a.sent && PayloadsOf(r.a.fd.delivered) <= r.b.sent
  {
    hide Begun;
    hide LinkRun;
    hide RunFrom;
    hide Init;
    hide Same;
    var s := OctetsRefineSession(f, l, primary, secondary, moves);
    var acts :| RunFrom(Behind(l), acts) == Some(s);
    DeliveryIsPrefix(Behind(l), acts);
  }
}
