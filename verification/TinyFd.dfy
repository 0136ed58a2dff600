/**
 The full-duplex protocol object. Every method is proved to do to the station, seen as a
 value, what FdSpec says, and to hand the codec whole frames only.
 */
module TinyFd {
  import opened Base
  import opened SeqNum
  import opened FdDefs
  import opened FdSpec
  import Fcs
  import Framing
  import Receiver
  import HdlcLl
  import IQueueControl
  import FrameQueue
  import Peers

  datatype TinyFdConfig = TinyFdConfig(
    crcType: Fcs.CrcType, windowFrames: nat, mtu: nat, retries: nat,
    addr: byte, peersCount: nat, mode: FdMode, rxBufSize: nat)

  class TinyFd {
    const hdlc: HdlcLl.HdlcLl
    const peerMgr: Peers.PeerManager
    const iQueue: FrameQueue.FrameQueue
    const sQueue: FrameQueue.FrameQueue
    const mode: FdMode
    const retries: nat
    const mtu: nat

    // Event bits.
    var hasFreeSlots: bool
    var txDataAvailable: bool

    // What the user callbacks were given.
    ghost var delivered: seq<(byte, seq<byte>)>
    ghost var connects: seq<(byte, bool)>

    /** The two queues, with their slots. */
    ghost function Queues(): set<object> {
      {iQueue, iQueue.frames, sQueue, sQueue.frames}
    }

    ghost function Repr(): set<object> {
      {this, hdlc} + Queues() + peerMgr.Objects()
    }

    /** Nothing is shared. */
    ghost predicate Separate() {
      && peerMgr.Separate()
      && iQueue != sQueue && iQueue.frames != sQueue.frames
      && {this, hdlc} !! Queues() && {this, hdlc} !! peerMgr.Objects() && Queues() !! peerMgr.Objects()
      && (this as object) != hdlc
    }

    ghost function View(): Fd
      reads Repr()
    {
      Fd(peerMgr.View(), peerMgr.localAddr, iQueue.View(), sQueue.View(),
         hasFreeSlots, txDataAvailable, mode, retries, mtu, delivered, connects)
    }

    ghost predicate Valid()
      reads Repr()
    {
      Separate() && hdlc.Valid() && iQueue.Valid() && sQueue.Valid() && View().Valid()
    }

    /** What a configuration makes of a station before anything has happened. */
    static ghost predicate Initial(v: Fd, config: TinyFdConfig)
      requires config.peersCount <= 255
    {
      var localAddr := if config.addr == 0 then HDLC_PRIMARY_ADDR | HDLC_E_BIT else StationAddress(config.addr);
      && v.localAddr == localAddr && v.peers == NewPeers(localAddr, config.peersCount)
      && |v.iq.slots| == config.windowFrames && |v.sq.slots| == U_QUEUE_MAX_SIZE
      && (forall i :: 0 <= i < |v.iq.slots| ==> v.iq.slots[i].None?)
      && (forall i :: 0 <= i < |v.sq.slots| ==> v.sq.slots[i].None?)
      && v.iq.lookup == v.sq.lookup == 0
      && v.freeSlots && v.mode == config.mode && v.maxRetries == config.retries
      && v.mtu == (if config.mtu > 0 then config.mtu else 64)
      && v.delivered == [] && v.connects == []
    }

    constructor Init(config: TinyFdConfig)
      requires 1 <= config.windowFrames <= 7 && config.rxBufSize > 0 && config.peersCount <= 255
      ensures Valid() && fresh(Repr()) && Initial(View(), config)
      ensures hdlc.crcType == config.crcType && hdlc.physMtu == mtu + 2 + Fcs.FieldSize(config.crcType)
      ensures hdlc.RxView() == Receiver.Idle && hdlc.txData == None && hdlc.rxFrames == []
    {
      hide StationAddress;
      hide NoCr;
      hide HdlcLl.HdlcLl.Valid;
      hide HdlcLl.HdlcLl.RxView;
      hide Fd.Valid;
      hide NewPeers;
      hide Fcs.FieldSize;
      hide Peers.ObjectsOf;
      hide Peers.ViewsOf;
      hide IsPrimaryAddress;
      hide HdlcLl.HdlcLl.TxValid;
      hide HdlcLl.HdlcLl.Pending;
      var localAddr := if config.addr == 0 then HDLC_PRIMARY_ADDR | HDLC_E_BIT else StationAddress(config.addr);
      var size := if config.mtu > 0 then config.mtu else 64;
      mtu := size;
      hdlc := new HdlcLl.HdlcLl(config.crcType, size + 2, config.rxBufSize);
      iQueue := new FrameQueue.FrameQueue(config.windowFrames);
      sQueue := new FrameQueue.FrameQueue(U_QUEUE_MAX_SIZE);
      peerMgr := new Peers.PeerManager(localAddr, config.peersCount);
      mode := config.mode;
      retries := config.retries;
      hasFreeSlots := true;
      txDataAvailable := false;
      delivered, connects := [], [];
      new;
      forall o: object | o in peerMgr.Objects() ensures o !in {this, hdlc} + Queues() {
        Peers.OnlyPeersAndCounters(peerMgr.peers, o);
      }
      InitialValid(View(), config);
    }

    static lemma InitialValid(v: Fd, config: TinyFdConfig)
      requires 1 <= config.windowFrames <= 7 && config.peersCount <= 255 && Initial(v, config)
      ensures v.Valid()
    {
      hide StationAddress;
      hide NoCr;
    }

    /** Creates a station; window sizes outside 1 to 7 and an empty receive buffer are refused. */
    static method New(config: TinyFdConfig) returns (r: Result<TinyFd>)
      requires config.peersCount <= 255
      ensures r.Ok? <==> 1 <= config.windowFrames <= 7 && config.rxBufSize > 0
      ensures r.Err? ==> r.error == InvalidData
      ensures r.Ok? ==> fresh(r.value) && r.value.Valid() && Initial(r.value.View(), config)
    {
      if config.windowFrames == 0 || config.windowFrames > 7 || config.rxBufSize == 0 {
        return Err(InvalidData);
      }
      var fd := new TinyFd.Init(config);
      return Ok(fd);
    }

    method PutUSFrame(frameType: FrameType, header: FrameHeader, data: seq<byte>) returns (r: Result<Unit>)
      requires Valid()
      modifies this`txDataAvailable, sQueue, sQueue.frames
      ensures Valid()
      ensures View() == PutService(old(View()), FrameInfo(frameType, header, data))
      ensures r ==
        if FrameQueue.FindFree(old(View()).sq.slots, old(View()).sq.lookup, 0).Some? then Ok(Unit) else Err(Busy)
    {
      hide HdlcLl.HdlcLl.Valid;
      hide FrameQueue.FindFree;
      hide Fd.Valid;
      PutServiceValid(View(), FrameInfo(frameType, header, data));
      var index := sQueue.Allocate(frameType, header, data);
      if index.Some? {
        txDataAvailable := true;
        return Ok(Unit);
      } else {
        return Err(Busy);
      }
    }

    // ----- Sending to a peer -----

    method PutIFrame(peer: nat, addrField: byte, data: seq<byte>) returns (r: Result<Unit>)
      requires Valid() && peer < |View().peers| && addrField == AddressOf(View(), peer)
      modifies iQueue, iQueue.frames, peerMgr.peers[peer].iQueueControl
      ensures Valid()
      ensures (View(), r) == PutI(old(View()), peer, data)
    {
      hide HdlcLl.HdlcLl.Valid;
      hide FrameQueue.FindFree;
      hide Succ;
      hide IControl;
      hide NoCr;
      hide Fd.Valid;
      hide FrameQueue.Rotated;
      hide Peers.ObjectsOf;
      hide Peers.ViewsOf;
      CtlOk(View(), peer);
      var info := peerMgr.peers[peer];
      PeerInRepr(peer);
      PutIValid(View(), peer, data);
      if info.iQueueControl.TxFull() {
        return Err(Busy);
      }
      var ns := info.iQueueControl.lastNs;
      var nr := info.iQueueControl.nextNr;
      var header := FrameHeader(addrField, IControl(ns, nr));
      var index := iQueue.Allocate(IFrame, header, data);
      if index.Some? {
        info.iQueueControl.MoveToNextNs();
        peerMgr.PeerChanged(peer);
        return Ok(Unit);
      } else {
        peerMgr.PeerChanged(peer);
        assert View() == old(View());
        return Err(Busy);
      }
    }

    lemma PeerInRepr(peer: nat)
      requires Separate() && peer < |peerMgr.peers|
      ensures peerMgr.peers[peer] in peerMgr.Objects() && peerMgr.peers[peer].iQueueControl in peerMgr.Objects()
    {
      assert peerMgr.peers[peer] in peerMgr.peers;
    }

    method SendPacket(address: byte, data: seq<byte>, timeoutMs: nat) returns (r: Result<Unit>)
      requires Valid()
      modifies this`hasFreeSlots, this`txDataAvailable, iQueue, iQueue.frames, peerMgr.Objects()
      ensures Valid()
      ensures (View(), r) == FdSpec.SendPacket(old(View()), address, data)
    {
      hide HdlcLl.HdlcLl.Valid;
      hide FrameQueue.FindFree;
      hide FrameQueue.Rotated;
      hide Fd.Valid;
      hide NoCr;
      hide HdlcLl.HdlcLl.TxValid;
      hide HdlcLl.HdlcLl.Pending;
      hide HdlcLl.HdlcLl.RxView;
      hide Peers.ObjectsOf;
      hide Peers.ViewsOf;
      hide PutI;
      hide FrameQueue.HasFree;
      hide StationAddress;
      hide AddressToPeer;
      hide IsPrimaryAddress;
      hide PeerToAddress;
      ShapeOf(View());
      SendPacketValid(View(), address, data);
      if |data| > mtu {
        return Err(DataTooLarge);
      }
      var peer := 0;
      if address != FD_PRIMARY_ADDR {
        peer := peerMgr.AddressFieldToPeer(StationAddress(address));
        assert View() == old(View());
      }
      if peer == HDLC_INVALID_PEER_INDEX {
        return Err(UnknownPeer);
      }
      // The caller holds the station exclusively, so nothing raises the event during the wait.
      var left := timeoutMs;
      while !hasFreeSlots && left > 0 {
        left := left - 1;
      }
      if !hasFreeSlots {
        return Err(Timeout);
      }
      PeerInRepr(peer);
      PutIValid(View(), peer, data);
      r := SendTo(peer, data);
    }

    /** Queues a packet for this peer and updates the events. */
    method SendTo(peer: nat, data: seq<byte>) returns (r: Result<Unit>)
      requires Valid() && peer < |View().peers| && PutI(View(), peer, data).0.Valid()
      modifies this`hasFreeSlots, this`txDataAvailable, iQueue, iQueue.frames, peerMgr.peers[peer].iQueueControl
      ensures Valid() && r == PutI(old(View()), peer, data).1
      ensures var next := PutI(old(View()), peer, data).0;
        View() == if r.Err? then next
                  else next.(txAvailable := true,
                             freeSlots := old(View()).freeSlots && FrameQueue.HasFree(next.iq.slots))
    {
      hide HdlcLl.HdlcLl.Valid;
      hide FrameQueue.FindFree;
      hide FrameQueue.Rotated;
      hide Fd.Valid;
      hide NoCr;
      hide Peers.ObjectsOf;
      hide Peers.ViewsOf;
      hide IsPrimaryAddress;
      hide PeerToAddress;
      hide PutI;
      hide FrameQueue.HasFree;
      PeerInRepr(peer);
      var addrField := peerMgr.PeerToAddressField(peer);
      r := PutIFrame(peer, addrField, data);
      if r.Err? {
        return;
      }
      EventsValid(View(), hasFreeSlots && iQueue.HasFreeSlots(), true);
      txDataAvailable := true;
      if !iQueue.HasFreeSlots() {
        hasFreeSlots := false;
      }
    }

    // ----- Receiving -----

    /** Confirms sent frames up to nr and releases them. */
    method TakeAck(peer: nat, addr: byte, nr: byte)
      requires Valid() && peer < |View().peers| && addr == AddressOf(View(), peer) && nr <= 7
      modifies this`hasFreeSlots, iQueue.frames, peerMgr.peers[peer].iQueueControl
      ensures Valid()
      ensures View() == Confirm(old(View()), peer, nr)
    {
      hide HdlcLl.HdlcLl.Valid;
      hide FrameQueue.FindFree;
      hide FrameQueue.Rotated;
      hide Fd.Valid;
      hide NoCr;
      hide HdlcLl.HdlcLl.TxValid;
      hide HdlcLl.HdlcLl.Pending;
      hide HdlcLl.HdlcLl.RxView;
      hide Peers.ObjectsOf;
      hide Peers.ViewsOf;
      hide FrameQueue.FreeAllNs;
      hide FrameQueue.HasFree;
      hide IQueueControl.Confirmed;
      hide IsPrimaryAddress;
      hide PeerToAddress;
      ConfirmValid(View(), peer, nr);
      CtlOk(View(), peer);
      PeerInRepr(peer);
      var seqs := MoveUp(peer, nr);
      ReleaseFrames(addr, seqs);
      if iQueue.HasFreeSlots() {
        hasFreeSlots := true;
      }
      assert hdlc.Valid() && sQueue.Valid() && iQueue.Valid();
      assert View() == Confirm(old(View()), peer, nr);
    }

    /** Moves the lower end of the peer's window up to nr; the numbers passed are to be released. */
    method MoveUp(peer: nat, nr: byte) returns (seqs: seq<byte>)
      requires Valid() && peer < |View().peers| && nr <= 7
      modifies peerMgr.peers[peer].iQueueControl
      ensures Valid()
      ensures var v := old(View());
        View() == v.(peers := v.peers[peer := v.peers[peer].(ctl := v.peers[peer].ctl.(confirmNs := nr))])
      ensures View().peers[peer].ctl.Valid() && old(View()).peers[peer].ctl.Valid()
      ensures seqs == IQueueControl.Confirmed(old(View()).peers[peer].ctl.confirmNs, nr)
    {
      hide HdlcLl.HdlcLl.Valid;
      hide FrameQueue.FindFree;
      hide FrameQueue.Rotated;
      hide Fd.Valid;
      hide NoCr;
      hide Peers.ObjectsOf;
      hide Peers.ViewsOf;
      hide IQueueControl.Confirmed;
      hide IsPrimaryAddress;
      hide PeerToAddress;
      MovedUpValid(View(), peer, nr);
      CtlOk(View(), peer);
      PeerInRepr(peer);
      var confirmed;
      confirmed, seqs := peerMgr.peers[peer].iQueueControl.ConfirmSentFrames(nr);
      peerMgr.PeerChanged(peer);
      assert hdlc.Valid() && sQueue.Valid() && iQueue.Valid();
    }

    method ReleaseFrames(addr: byte, seqs: seq<byte>)
      modifies iQueue.frames
      ensures iQueue.View() == old(iQueue.View()).(slots := FrameQueue.FreeAllNs(old(iQueue.View()).slots, addr, seqs))
    {
      ghost var before := iQueue.View().slots;
      for i := 0 to |seqs|
        invariant iQueue.lookupIndex == old(iQueue.lookupIndex)
        invariant FrameQueue.FreeAllNs(before, addr, seqs) == FrameQueue.FreeAllNs(iQueue.View().slots, addr, seqs[i..])
      {
        assert seqs[i..][0] == seqs[i] && seqs[i..][1..] == seqs[i + 1..];
        iQueue.FreeByNs(addr, seqs[i]);
      }
    }

    method OnIFrameReceived(peer: nat, data: seq<byte>)
      requires Valid() && peer < |View().peers| && |data| >= 2
      modifies this`hasFreeSlots, this`txDataAvailable, this`delivered, iQueue.frames, sQueue, sQueue.frames,
               peerMgr.peers[peer], peerMgr.peers[peer].iQueueControl
      ensures Valid()
      ensures View() == OnI(old(View()), peer, data)
    {
      hide HdlcLl.HdlcLl.Valid;
      hide FrameQueue.FindFree;
      hide FrameQueue.Rotated;
      hide Fd.Valid;
      hide NoCr;
      hide Peers.ObjectsOf;
      hide Peers.ViewsOf;
      hide LowSeq;
      hide HighSeq;
      hide Succ;
      hide RrControl;
      hide RejControl;
      hide Confirm;
      CtlOk(View(), peer);
      OnIValid(View(), peer, data);
      PeerInRepr(peer);
      var info := peerMgr.peers[peer];
      var ns, nr := HighSeq(data[1]), LowSeq(data[1]);
      var addr := peerMgr.PeerToAddressField(peer);
      TakeAck(peer, addr, nr);
      ghost var mid := View();
      CtlOk(mid, peer);
      RefuseAcceptValid(mid, peer, data[2..]);
      if ns != info.iQueueControl.nextNr {
        Reject(peer, addr);
        return;
      }
      AcceptFrame(peer, addr, data[2..]);
    }

    /** Asks once for the frame that is expected. */
    method Reject(peer: nat, addr: byte)
      requires Valid() && peer < |View().peers| && addr == AddressOf(View(), peer) && Refuse(View(), peer).Valid()
      modifies this`txDataAvailable, sQueue, sQueue.frames, peerMgr.peers[peer]
      ensures Valid()
      ensures View() == Refuse(old(View()), peer)
    {
      hide HdlcLl.HdlcLl.Valid;
      hide FrameQueue.FindFree;
      hide FrameQueue.Rotated;
      hide Fd.Valid;
      hide NoCr;
      hide Peers.ObjectsOf;
      hide Peers.ViewsOf;
      hide RejControl;
      PeerInRepr(peer);
      var info := peerMgr.peers[peer];
      if !info.sentReject {
        RejectingValid(View(), peer);
        info.sentReject := true;
        peerMgr.PeerChanged(peer);
        var r := PutUSFrame(SFrame, FrameHeader(addr, RejControl(info.iQueueControl.nextNr)), []);
      }
    }

    /** Delivers the payload and acknowledges it. */
    method AcceptFrame(peer: nat, addr: byte, payload: seq<byte>)
      requires Valid() && peer < |View().peers| && addr == AddressOf(View(), peer)
      requires Accept(View(), peer, payload).Valid()
      modifies this`txDataAvailable, this`delivered, sQueue, sQueue.frames,
               peerMgr.peers[peer], peerMgr.peers[peer].iQueueControl
      ensures Valid()
      ensures View() == Accept(old(View()), peer, payload)
    {
      hide HdlcLl.HdlcLl.Valid;
      hide FrameQueue.FindFree;
      hide FrameQueue.Rotated;
      hide Fd.Valid;
      hide NoCr;
      hide Peers.ObjectsOf;
      hide Peers.ViewsOf;
      hide RrControl;
      hide Succ;
      PeerInRepr(peer);
      CtlOk(View(), peer);
      AcceptingValid(View(), peer, payload);
      var info := peerMgr.peers[peer];
      ghost var user := UserAddress(View(), peer);
      info.iQueueControl.MoveToNextFrameToReceive();
      info.sentReject := false;
      var newNr := info.iQueueControl.nextNr;
      info.sentNr := newNr;
      peerMgr.PeerChanged(peer);
      delivered := delivered + [(user, payload)];
      var r := PutUSFrame(SFrame, FrameHeader(addr, RrControl(newNr)), []);
    }

    method OnSFrameReceived(peer: nat, data: seq<byte>)
      requires Valid() && peer < |View().peers| && |data| >= 2
      modifies this`hasFreeSlots, this`txDataAvailable, iQueue.frames,
               peerMgr.peers[peer], peerMgr.peers[peer].iQueueControl
      ensures Valid()
      ensures View() == OnS(old(View()), peer, data)
    {
      hide HdlcLl.HdlcLl.Valid;
      hide FrameQueue.FindFree;
      hide FrameQueue.Rotated;
      hide Fd.Valid;
      hide NoCr;
      hide HdlcLl.HdlcLl.TxValid;
      hide HdlcLl.HdlcLl.Pending;
      hide HdlcLl.HdlcLl.RxView;
      hide Peers.ObjectsOf;
      hide Peers.ViewsOf;
      hide HighSeq;
      hide SType;
      hide Confirm;
      hide IsPrimaryAddress;
      hide PeerToAddress;
      CtlOk(View(), peer);
      OnSValid(View(), peer, data);
      PeerInRepr(peer);
      var info := peerMgr.peers[peer];
      var nr, sType := HighSeq(data[1]), SType(data[1]);
      var addr := peerMgr.PeerToAddressField(peer);
      TakeAck(peer, addr, nr);
      CtlOk(View(), peer);
      Tune(peer, sType, nr);
    }

    /** What a supervisory frame asks for besides its acknowledgement. */
    method Tune(peer: nat, sType: byte, nr: byte)
      requires Valid() && peer < |View().peers| && nr <= 7
      modifies this`txDataAvailable, peerMgr.peers[peer], peerMgr.peers[peer].iQueueControl
      ensures Valid()
      ensures var v := old(View());
        View() ==
          if sType == HDLC_S_FRAME_TYPE_RR then v.(peers := v.peers[peer := v.peers[peer].(retries := v.maxRetries)])
          else if sType == HDLC_S_FRAME_TYPE_REJ || sType == HDLC_S_FRAME_TYPE_SREJ then Rewind(v, peer, nr)
          else v
    {
      hide HdlcLl.HdlcLl.Valid;
      hide FrameQueue.FindFree;
      hide FrameQueue.Rotated;
      hide Fd.Valid;
      hide NoCr;
      hide Peers.ObjectsOf;
      hide Peers.ViewsOf;
      hide IsPrimaryAddress;
      hide PeerToAddress;
      hide Rewind;
      if sType == HDLC_S_FRAME_TYPE_RR {
        RestoreRetries(peer);
      } else if sType == HDLC_S_FRAME_TYPE_REJ || sType == HDLC_S_FRAME_TYPE_SREJ {
        RewindTo(peer, nr);
      }
    }

    method RestoreRetries(peer: nat)
      requires Valid() && peer < |View().peers|
      modifies peerMgr.peers[peer]
      ensures Valid()
      ensures var v := old(View());
        View() == v.(peers := v.peers[peer := v.peers[peer].(retries := v.maxRetries)])
    {
      hide HdlcLl.HdlcLl.Valid;
      hide FrameQueue.FindFree;
      hide FrameQueue.Rotated;
      hide Fd.Valid;
      hide NoCr;
      hide Peers.ObjectsOf;
      hide Peers.ViewsOf;
      hide IsPrimaryAddress;
      hide PeerToAddress;
      RetriesValid(View(), peer, retries);
      PeerInRepr(peer);
      peerMgr.peers[peer].retries := retries;
      peerMgr.PeerChanged(peer);
      assert hdlc.Valid() && sQueue.Valid() && iQueue.Valid();
    }

    method RewindTo(peer: nat, nr: byte)
      requires Valid() && peer < |View().peers| && nr <= 7
      modifies this`txDataAvailable, peerMgr.peers[peer].iQueueControl
      ensures Valid() && View() == Rewind(old(View()), peer, nr)
    {
      hide HdlcLl.HdlcLl.Valid;
      hide FrameQueue.FindFree;
      hide FrameQueue.Rotated;
      hide Fd.Valid;
      hide NoCr;
      hide Peers.ObjectsOf;
      hide Peers.ViewsOf;
      hide IsPrimaryAddress;
      hide PeerToAddress;
      RewindValid(View(), peer, nr);
      PeerInRepr(peer);
      CtlOk(View(), peer);
      var rewound := peerMgr.peers[peer].iQueueControl.RetransmitFrame(nr);
      txDataAvailable := true;
      peerMgr.PeerChanged(peer);
      assert hdlc.Valid() && sQueue.Valid() && iQueue.Valid();
    }

    method SwitchToConnected(peer: nat)
      requires Valid() && peer < |View().peers|
      modifies this`hasFreeSlots, this`txDataAvailable, this`connects,
               peerMgr.peers[peer], peerMgr.peers[peer].iQueueControl
      ensures Valid()
      ensures View() == FdSpec.SwitchToConnected(old(View()), peer)
    {
      hide HdlcLl.HdlcLl.Valid;
      hide FrameQueue.FindFree;
      hide FrameQueue.Rotated;
      hide Fd.Valid;
      hide NoCr;
      hide HdlcLl.HdlcLl.TxValid;
      hide HdlcLl.HdlcLl.Pending;
      hide HdlcLl.HdlcLl.RxView;
      hide Peers.ObjectsOf;
      hide Peers.ViewsOf;
      hide FrameQueue.HasFree;
      hide IsPrimaryAddress;
      hide PeerToAddress;
      SwitchValid(View(), peer);
      PeerInRepr(peer);
      ghost var user := UserAddress(View(), peer);
      if peerMgr.peers[peer].state != Connected {
        Join(peer);
        EventsValid(View(), hasFreeSlots || iQueue.HasFreeSlots(), true);
        txDataAvailable := true;
        if iQueue.HasFreeSlots() {
          hasFreeSlots := true;
        }
        connects := connects + [(user, true)];
        assert hdlc.Valid() && sQueue.Valid() && iQueue.Valid();
        assert View() == FdSpec.SwitchToConnected(old(View()), peer);
      }
    }

    /** The peer's part of a connection. */
    method Join(peer: nat)
      requires Valid() && peer < |View().peers|
      modifies peerMgr.peers[peer], peerMgr.peers[peer].iQueueControl
      ensures Valid()
      ensures var v := old(View());
        View() == v.(peers := v.peers[peer := ResetPeer(v.peers[peer]).(state := Connected, retries := v.maxRetries)])
    {
      hide HdlcLl.HdlcLl.Valid;
      hide FrameQueue.FindFree;
      hide FrameQueue.Rotated;
      hide Fd.Valid;
      hide NoCr;
      hide Peers.ObjectsOf;
      hide Peers.ViewsOf;
      JoinValid(View(), peer);
      PeerInRepr(peer);
      var info := peerMgr.peers[peer];
      info.state := Connected;
      info.ResetConnection();
      info.retries := retries;
      peerMgr.PeerChanged(peer);
      assert hdlc.Valid() && sQueue.Valid() && iQueue.Valid();
    }

    method SwitchToDisconnected(peer: nat)
      requires Valid() && peer < |View().peers|
      modifies this`connects, iQueue.frames, peerMgr.peers[peer], peerMgr.peers[peer].iQueueControl
      ensures Valid()
      ensures View() == FdSpec.SwitchToDisconnected(old(View()), peer)
    {
      hide HdlcLl.HdlcLl.Valid;
      hide FrameQueue.FindFree;
      hide FrameQueue.Rotated;
      hide Fd.Valid;
      hide NoCr;
      hide Peers.ObjectsOf;
      hide Peers.ViewsOf;
      hide FrameQueue.ResetSlots;
      SwitchValid(View(), peer);
      PeerInRepr(peer);
      ghost var user := UserAddress(View(), peer);
      var addrField := peerMgr.PeerToAddressField(peer);
      var info := peerMgr.peers[peer];
      if info.state != Disconnected {
        info.state := Disconnected;
        info.ResetConnection();
        peerMgr.PeerChanged(peer);
        iQueue.ResetFor(addrField);
        connects := connects + [(user, false)];
        assert hdlc.Valid() && sQueue.Valid() && iQueue.Valid();
        assert View() == FdSpec.SwitchToDisconnected(old(View()), peer);
      }
    }

    method OnUFrameReceived(peer: nat, data: seq<byte>)
      requires Valid() && peer < |View().peers| && |data| >= 2
      modifies this`hasFreeSlots, this`txDataAvailable, this`connects, iQueue.frames, sQueue, sQueue.frames,
               peerMgr.peers[peer], peerMgr.peers[peer].iQueueControl
      ensures Valid()
      ensures View() == OnU(old(View()), peer, data[1])
    {
      hide HdlcLl.HdlcLl.Valid;
      hide FrameQueue.FindFree;
      hide FrameQueue.Rotated;
      hide Fd.Valid;
      hide NoCr;
      hide Peers.ObjectsOf;
      hide Peers.ViewsOf;
      hide UType;
      hide FdSpec.SwitchToConnected;
      hide FdSpec.SwitchToDisconnected;
      PeerInRepr(peer);
      var uType := UType(data[1]);
      var addr := peerMgr.PeerToAddressField(peer);
      var info := peerMgr.peers[peer];
      if uType == HDLC_U_FRAME_TYPE_SABM || uType == HDLC_U_FRAME_TYPE_SNRM {
        var r := PutUSFrame(UFrame, FrameHeader(addr, UA_CONTROL), []);
        SwitchToConnected(peer);
      } else if uType == HDLC_U_FRAME_TYPE_UA {
        if info.state == Connecting {
          SwitchToConnected(peer);
        } else if info.state == Disconnecting {
          SwitchToDisconnected(peer);
        }
      } else if uType == HDLC_U_FRAME_TYPE_DISC {
        var r := PutUSFrame(UFrame, FrameHeader(addr, UA_CONTROL), []);
        SwitchToDisconnected(peer);
      } else if uType == HDLC_U_FRAME_TYPE_DM {
        SwitchToDisconnected(peer);
      }
    }

    /** Routes a decoded frame to the peer its address names. */
    method OnFrameReceived(data: seq<byte>)
      requires Valid()
      modifies this`hasFreeSlots, this`txDataAvailable, this`delivered, this`connects,
               iQueue.frames, sQueue, sQueue.frames, peerMgr.Objects()
      ensures Valid()
      ensures View() == OnFrame(old(View()), data)
    {
      hide HdlcLl.HdlcLl.Valid;
      hide FrameQueue.FindFree;
      hide FrameQueue.Rotated;
      hide Fd.Valid;
      hide NoCr;
      hide Peers.ObjectsOf;
      hide Peers.ViewsOf;
      hide IsU;
      hide IsI;
      hide IsS;
      hide OnI;
      hide OnS;
      hide OnU;
      hide AddressToPeer;
      if |data| < 2 {
        return;
      }
      var address, control := data[0], data[1];
      ShapeOf(View());
      var peer := peerMgr.AddressFieldToPeer(address);
      assert View() == old(View());
      if peer == HDLC_INVALID_PEER_INDEX {
        return;
      }
      PeerInRepr(peer);
      if IsU(control) {
        OnUFrameReceived(peer, data);
      } else {
        var state := peerMgr.peers[peer].state;
        if state != Connected && state != Disconnecting {
          var addr := peerMgr.PeerToAddressField(peer);
          var r := PutUSFrame(UFrame, FrameHeader(addr, DM_CONTROL), []);
        } else if IsI(control) {
          OnIFrameReceived(peer, data);
        } else if IsS(control) {
          OnSFrameReceived(peer, data);
        }
      }
    }

    method Disconnect() returns (r: Result<Unit>)
      requires Valid()
      modifies this`txDataAvailable, sQueue, sQueue.frames, peerMgr.peers[0]
      ensures Valid()
      ensures (View(), r) == FdSpec.Disconnect(old(View()))
    {
      hide HdlcLl.HdlcLl.Valid;
      hide FrameQueue.FindFree;
      hide FrameQueue.Rotated;
      hide Fd.Valid;
      hide NoCr;
      hide Peers.ObjectsOf;
      hide Peers.ViewsOf;
      ShapeOf(View());
      PeerInRepr(0);
      var address := peerMgr.PeerToAddressField(0);
      r := PutUSFrame(UFrame, FrameHeader(address, DISC_CONTROL), []);
      if r.Err? {
        return;
      }
      StateValid(View(), 0, Disconnecting);
      label asked:
      peerMgr.peers[0].state := Disconnecting;
      peerMgr.PeerChanged@asked(0);
      assert hdlc.Valid() && sQueue.Valid() && iQueue.Valid();
    }

    // ----- Timers -----

    /** Asks for a connection. */
    method Dial(peer: nat)
      requires Valid() && peer < |View().peers|
      modifies this`txDataAvailable, sQueue, sQueue.frames, peerMgr.peers[peer]
      ensures Valid()
      ensures View() == FdSpec.Dial(old(View()), peer)
    {
      hide HdlcLl.HdlcLl.Valid;
      hide FrameQueue.FindFree;
      hide FrameQueue.Rotated;
      hide Fd.Valid;
      hide NoCr;
      hide Peers.ObjectsOf;
      hide Peers.ViewsOf;
      PeerInRepr(peer);
      var addr := peerMgr.PeerToAddressField(peer);
      var r := PutUSFrame(UFrame, FrameHeader(addr, SABM_CONTROL), []);
      StateValid(View(), peer, Connecting);
      label asked:
      peerMgr.peers[peer].state := Connecting;
      peerMgr.PeerChanged@asked(peer);
      assert hdlc.Valid() && sQueue.Valid() && iQueue.Valid();
    }

    /** The unanswered request: repeat it, or fall back. */
    method Redial(peer: nat)
      requires Valid() && peer < |View().peers| && View().peers[peer].state == Connecting
      modifies this`txDataAvailable, sQueue, sQueue.frames, peerMgr.peers[peer]
      ensures Valid()
      ensures View() == TimeoutPeer(old(View()), peer, true, false)
    {
      hide HdlcLl.HdlcLl.Valid;
      hide FrameQueue.FindFree;
      hide FrameQueue.Rotated;
      hide Fd.Valid;
      hide NoCr;
      hide Peers.ObjectsOf;
      hide IsPrimaryAddress;
      hide PeerToAddress;
      hide Peers.ViewsOf;
      TimeoutValid(View(), peer, true, false);
      PeerInRepr(peer);
      var info := peerMgr.peers[peer];
      if info.retries == 0 {
        info.state := Disconnected;
        peerMgr.PeerChanged(peer);
        assert hdlc.Valid() && sQueue.Valid() && iQueue.Valid();
      } else {
        RetriesValid(View(), peer, info.retries - 1);
        info.retries := info.retries - 1;
        peerMgr.PeerChanged(peer);
        assert hdlc.Valid() && sQueue.Valid() && iQueue.Valid();
        var addr := peerMgr.PeerToAddressField(peer);
        var r := PutUSFrame(UFrame, FrameHeader(addr, SABM_CONTROL), []);
      }
    }

    /** Unconfirmed frames: rewind to the first of them, or give the connection up. */
    method Retry(peer: nat)
      requires Valid() && peer < |View().peers| && View().peers[peer].state == Connected
      requires View().peers[peer].ctl.HasUnconfirmed()
      modifies this`txDataAvailable, this`connects, iQueue.frames,
               peerMgr.peers[peer], peerMgr.peers[peer].iQueueControl
      ensures Valid()
      ensures View() == TimeoutPeer(old(View()), peer, false, true)
    {
      hide HdlcLl.HdlcLl.Valid;
      hide FrameQueue.FindFree;
      hide FrameQueue.Rotated;
      hide Fd.Valid;
      hide NoCr;
      hide Peers.ObjectsOf;
      hide Peers.ViewsOf;
      hide FdSpec.SwitchToDisconnected;
      hide IsPrimaryAddress;
      hide PeerToAddress;
      TimeoutValid(View(), peer, false, true);
      CtlOk(View(), peer);
      PeerInRepr(peer);
      var info := peerMgr.peers[peer];
      if info.retries == 0 {
        SwitchToDisconnected(peer);
      } else {
        info.retries := info.retries - 1;
        var confirmNs := info.iQueueControl.confirmNs;
        var rewound := info.iQueueControl.RetransmitFrame(confirmNs);
        peerMgr.PeerChanged(peer);
        txDataAvailable := true;
        assert hdlc.Valid() && sQueue.Valid() && iQueue.Valid();
        assert View() == TimeoutPeer(old(View()), peer, false, true);
      }
    }

    /** One peer's timers; the clock is an input. */
    method CheckPeer(peer: nat, frameDue: bool, iDue: bool)
      requires Valid() && peer < |View().peers|
      modifies this`txDataAvailable, this`connects, iQueue.frames, sQueue, sQueue.frames,
               peerMgr.peers[peer], peerMgr.peers[peer].iQueueControl
      ensures Valid()
      ensures View() == TimeoutPeer(old(View()), peer, frameDue, iDue)
    {
      hide HdlcLl.HdlcLl.Valid;
      hide FrameQueue.FindFree;
      hide FrameQueue.Rotated;
      hide Fd.Valid;
      hide NoCr;
      hide Peers.ObjectsOf;
      hide Peers.ViewsOf;
      hide FdSpec.SwitchToDisconnected;
      hide FdSpec.Dial;
      PeerInRepr(peer);
      var info := peerMgr.peers[peer];
      match info.state
      case Disconnected =>
        if mode == Abm && frameDue {
          Dial(peer);
        }
      case FdIdle =>
        if mode == Abm && frameDue {
          Dial(peer);
        }
      case Connecting =>
        if frameDue {
          Redial(peer);
        }
      case Connected =>
        if info.iQueueControl.HasUnconfirmedFrames() && iDue {
          Retry(peer);
        }
      case Disconnecting =>
    }

    method CheckTimeouts(frameDue: seq<bool>, iDue: seq<bool>)
      requires Valid() && |frameDue| == |iDue| == |View().peers|
      modifies this`txDataAvailable, this`connects, iQueue.frames, sQueue, sQueue.frames, peerMgr.Objects()
      ensures Valid()
      ensures View() == Timeouts(old(View()), frameDue, iDue, |frameDue|)
    {
      hide HdlcLl.HdlcLl.Valid;
      hide FrameQueue.FindFree;
      hide FrameQueue.Rotated;
      hide Fd.Valid;
      hide NoCr;
      hide Peers.ObjectsOf;
      hide Peers.ViewsOf;
      hide TimeoutPeer;
      for p := 0 to |peerMgr.peers|
        invariant Valid()
        invariant View() == Timeouts(old(View()), frameDue, iDue, p)
      {
        PeerInRepr(p);
        CheckPeer(p, frameDue[p], iDue[p]);
      }
    }

    // ----- Transmitting -----

    /** The codec's receiving half is as it was. */
    twostate predicate RxSame()
      reads hdlc
    {
      hdlc.RxView() == old(hdlc.RxView()) && hdlc.rxFrames == old(hdlc.rxFrames)
    }

    /** The codec has taken exactly this frame, or nothing. */
    twostate predicate Handed(frame: Option<seq<byte>>)
      reads hdlc
    {
      && hdlc.txData == frame && hdlc.wire == old(hdlc.wire)
      && hdlc.taken == old(hdlc.taken) + if frame.Some? then [frame.value] else []
    }

    /** Gives an idle codec the frame in service slot i and empties the slot. */
    method SendSlot(i: nat)
      requires Valid() && hdlc.txData == None && FrameQueue.FirstOccupied(View().sq.slots, 0) == Some(i)
      modifies hdlc`txData, hdlc`txPos, hdlc`txState, hdlc`taken, sQueue.frames
      ensures Valid() && RxSame() && Handed(hdlc.txData)
      ensures (View(), hdlc.txData) == Generate(old(View()))
    {
      hide HdlcLl.HdlcLl.Valid;
      hide HdlcLl.HdlcLl.Pending;
      hide HdlcLl.HdlcLl.TxValid;
      hide FrameQueue.FindFree;
      hide FrameQueue.Rotated;
      hide Fd.Valid;
      hide NoCr;
      hide Peers.ObjectsOf;
      hide Peers.ViewsOf;
      hide FrameQueue.FirstOccupied;
      GenerateValid(View());
      ghost var v := View();
      var frame := sQueue.Get(i);
      var r := hdlc.PutFrame(frame.value.ToBytes());
      sQueue.Free(i);
      assert iQueue.Valid() && sQueue.Valid() && hdlc.Valid();
      assert View() == Generate(v).0;
    }

    /** Gives an idle codec the first waiting service frame, if there is one. */
    method SendService() returns (sent: bool)
      requires Valid() && hdlc.txData == None
      modifies hdlc`txData, hdlc`txPos, hdlc`txState, hdlc`taken, sQueue.frames
      ensures Valid() && RxSame()
      ensures sent <==> FrameQueue.FirstOccupied(old(View()).sq.slots, 0).Some?
      ensures sent ==> (View(), hdlc.txData) == Generate(old(View()))
      ensures !sent ==> View() == old(View()) && hdlc.txData == None
      ensures Handed(hdlc.txData)
    {
      hide HdlcLl.HdlcLl.Valid;
      hide HdlcLl.HdlcLl.Pending;
      hide HdlcLl.HdlcLl.TxValid;
      hide FrameQueue.FindFree;
      hide FrameQueue.Rotated;
      hide Fd.Valid;
      hide NoCr;
      hide Peers.ObjectsOf;
      hide Peers.ViewsOf;
      hide Generate;
      for i := 0 to sQueue.Capacity()
        invariant FrameQueue.FirstOccupied(old(View()).sq.slots, 0) == FrameQueue.FirstOccupied(old(View()).sq.slots, i)
        invariant Valid() && View() == old(View()) && hdlc.txData == None
        invariant RxSame() && Handed(None)
      {
        if sQueue.Get(i).Some? {
          SendSlot(i);
          return true;
        }
      }
      return false;
    }

    /** The octets of the next I-frame of this peer, if it has one that may go out. */
    method NextFrameOf(peer: nat) returns (data: Option<seq<byte>>)
      requires Valid() && peer < |View().peers|
      ensures data == if Eligible(View(), peer) then Some(NextIFrame(View(), peer)) else None
    {
      hide HdlcLl.HdlcLl.Valid;
      hide HdlcLl.HdlcLl.Pending;
      hide HdlcLl.HdlcLl.TxValid;
      hide FrameQueue.FindFree;
      hide FrameQueue.Rotated;
      hide Fd.Valid;
      hide NoCr;
      hide Peers.ObjectsOf;
      hide Peers.ViewsOf;
      hide IControl;
      hide FrameQueue.Find;
      PeerInRepr(peer);
      var info := peerMgr.peers[peer];
      if info.state != Connected {
        return None;
      }
      if info.iQueueControl.AllFramesAreSent() {
        return None;
      }
      var ns, nr := info.iQueueControl.nextNs, info.iQueueControl.nextNr;
      var addr := peerMgr.PeerToAddressField(peer);
      var found := iQueue.GetNext(IFrame, addr, ns);
      assert View() == old(View());
      if found.None? {
        return None;
      }
      return Some(found.value.1.ToBytes()[1 := IControl(ns, nr)]);
    }

    /** Gives an idle codec this peer's I-frame and moves on to the next. */
    method CommitSend(peer: nat, data: seq<byte>)
      requires Valid() && hdlc.txData == None && peer < |View().peers| && data != []
      modifies hdlc`txData, hdlc`txPos, hdlc`txState, hdlc`taken, peerMgr.peers[peer], peerMgr.peers[peer].iQueueControl
      ensures Valid() && RxSame() && Handed(Some(data))
      ensures View() == Advance(old(View()), peer)
    {
      hide HdlcLl.HdlcLl.Valid;
      hide HdlcLl.HdlcLl.Pending;
      hide HdlcLl.HdlcLl.TxValid;
      hide Fd.Valid;
      hide NoCr;
      hide Peers.ObjectsOf;
      hide Peers.ViewsOf;
      hide Succ;
      AdvanceValid(View(), peer);
      PeerInRepr(peer);
      CtlOk(View(), peer);
      var r := hdlc.PutFrame(data);
      var info := peerMgr.peers[peer];
      info.iQueueControl.AdvanceNextNs();
      info.retries := retries;
      peerMgr.PeerChanged(peer);
      assert iQueue.Valid() && sQueue.Valid();
      assert View() == Advance(old(View()), peer);
    }

    /** Gives an idle codec the next I-frame of this peer, if it has one that may go out. */
    method SendFor(peer: nat) returns (sent: bool)
      requires Valid() && hdlc.txData == None && peer < |View().peers|
      modifies hdlc`txData, hdlc`txPos, hdlc`txState, hdlc`taken, peerMgr.peers[peer], peerMgr.peers[peer].iQueueControl
      ensures Valid() && RxSame() && Handed(hdlc.txData)
      ensures sent <==> Eligible(old(View()), peer)
      ensures sent ==> View() == Advance(old(View()), peer) && hdlc.txData == Some(NextIFrame(old(View()), peer))
      ensures !sent ==> View() == old(View()) && hdlc.txData == None
    {
      hide HdlcLl.HdlcLl.Valid;
      hide HdlcLl.HdlcLl.Pending;
      hide HdlcLl.HdlcLl.TxValid;
      hide Fd.Valid;
      hide NoCr;
      hide Peers.ObjectsOf;
      hide Peers.ViewsOf;
      hide Eligible;
      hide NextIFrame;
      hide Advance;
      PeerInRepr(peer);
      var data := NextFrameOf(peer);
      assert View() == old(View()) && hdlc.Valid() && iQueue.Valid() && sQueue.Valid();
      sent := data.Some?;
      if sent {
        CommitSend(peer, data.value);
      }
    }

    /** Gives an idle codec the next I-frame of the first peer that has one. */
    method SendIFrame()
      requires Valid() && hdlc.txData == None && FrameQueue.FirstOccupied(View().sq.slots, 0) == None
      modifies hdlc`txData, hdlc`txPos, hdlc`txState, hdlc`taken, peerMgr.Objects()
      ensures Valid() && RxSame()
      ensures (View(), hdlc.txData) == Generate(old(View())) && Handed(hdlc.txData)
    {
      hide HdlcLl.HdlcLl.Valid;
      hide HdlcLl.HdlcLl.Pending;
      hide HdlcLl.HdlcLl.TxValid;
      hide FrameQueue.FindFree;
      hide FrameQueue.Rotated;
      hide Fd.Valid;
      hide NoCr;
      hide Peers.ObjectsOf;
      hide Peers.ViewsOf;
      hide Advance;
      hide Eligible;
      hide NextIFrame;
      for p := 0 to |peerMgr.peers|
        invariant FirstEligible(old(View()), 0) == FirstEligible(old(View()), p)
        invariant Valid() && View() == old(View()) && hdlc.txData == None
        invariant RxSame() && Handed(None)
      {
        PeerInRepr(p);
        var sent := SendFor(p);
        if sent {
          return;
        }
      }
    }

    /** An idle codec is given one frame: service frames first. A busy one is left alone. */
    method GenerateTxFrames()
      requires Valid()
      modifies hdlc`txData, hdlc`txPos, hdlc`txState, hdlc`taken, sQueue.frames, peerMgr.Objects()
      ensures Valid() && RxSame()
      ensures old(hdlc.txData).Some? ==>
        && View() == old(View()) && hdlc.txData == old(hdlc.txData)
        && hdlc.taken == old(hdlc.taken) && hdlc.wire == old(hdlc.wire)
      ensures old(hdlc.txData).None? ==> (View(), hdlc.txData) == Generate(old(View())) && Handed(hdlc.txData)
    {
      hide HdlcLl.HdlcLl.Valid;
      hide HdlcLl.HdlcLl.Pending;
      hide HdlcLl.HdlcLl.TxValid;
      hide FrameQueue.FindFree;
      hide FrameQueue.Rotated;
      hide Fd.Valid;
      hide NoCr;
      hide Peers.ObjectsOf;
      hide Peers.ViewsOf;
      hide Generate;
      if hdlc.IsTxBusy() {
        return;
      }
      var sent := SendService();
      if !sent {
        SendIFrame();
      }
    }

    // ----- The byte interface -----

    /** Hands every decoded frame to the protocol, oldest first. */
    method Drain()
      requires Valid()
      modifies hdlc`rxFrames, this`hasFreeSlots, this`txDataAvailable, this`delivered, this`connects,
               iQueue.frames, sQueue, sQueue.frames, peerMgr.Objects()
      ensures Valid() && hdlc.rxFrames == []
      ensures View() == OnFrames(old(View()), old(hdlc.rxFrames))
      ensures hdlc.RxView() == old(hdlc.RxView())
    {
      hide HdlcLl.HdlcLl.Valid;
      hide HdlcLl.HdlcLl.Pending;
      hide HdlcLl.HdlcLl.TxValid;
      hide Fd.Valid;
      hide Peers.ObjectsOf;
      hide Peers.ViewsOf;
      hide OnFrame;
      ghost var done: seq<seq<byte>> := [];
      ghost var all := hdlc.rxFrames;
      while hdlc.rxFrames != []
        invariant Valid() && all == done + hdlc.rxFrames
        invariant View() == OnFrames(old(View()), done)
        invariant hdlc.RxView() == old(hdlc.RxView())
        decreases |hdlc.rxFrames|
      {
        ghost var v := View();
        var frame := hdlc.GetRxFrame();
        assert View() == v && hdlc.Valid() && iQueue.Valid() && sQueue.Valid();
        assert all == done + [frame.value] + hdlc.rxFrames;
        OnFramesSnoc(old(View()), done, frame.value);
        OnFrameReceived(frame.value);
        done := done + [frame.value];
      }
      assert done == all;
    }

    /**
     Takes octets from the channel, in any portions. The station does what the frames in
     them ask for, in order; frames that fail their check are skipped; everything is consumed.
     */
    method OnRxData(data: seq<byte>)
      requires Valid() && hdlc.rxFrames == []
      modifies hdlc`rxBuf, hdlc`rxState, hdlc`rxPtr, hdlc`rxEscape, hdlc`rxFrames,
               this`hasFreeSlots, this`txDataAvailable, this`delivered, this`connects,
               iQueue.frames, sQueue, sQueue.frames, peerMgr.Objects()
      ensures Valid() && hdlc.rxFrames == []
      ensures var run := Receiver.RxFold(hdlc.crcType, hdlc.physMtu, old(hdlc.RxView()), data);
        && hdlc.RxView() == run.state
        && View() == OnFrames(old(View()), Receiver.Payloads(run.events))
    {
      hide HdlcLl.HdlcLl.Valid;
      hide HdlcLl.HdlcLl.Pending;
      hide HdlcLl.HdlcLl.TxValid;
      hide Fd.Valid;
      hide Peers.ObjectsOf;
      hide Peers.ViewsOf;
      hide OnFrames;
      hide Receiver.RxFold;
      var remaining := data;
      ghost var fed: seq<byte> := [];
      ghost var start := hdlc.RxView();
      Receiver.RxNone(hdlc.crcType, hdlc.physMtu, start);
      OnFramesNone(View());
      while remaining != []
        invariant Valid() && hdlc.rxFrames == [] && data == fed + remaining
        invariant hdlc.RxView() == Receiver.RxFold(hdlc.crcType, hdlc.physMtu, start, fed).state
        invariant View() ==
          OnFrames(old(View()), Receiver.Payloads(Receiver.RxFold(hdlc.crcType, hdlc.physMtu, start, fed).events))
        decreases |remaining|
      {
        ghost var v := View();
        ghost var before := Receiver.RxFold(hdlc.crcType, hdlc.physMtu, start, fed);
        var consumed, err := FeedCodec(remaining);
        if consumed == 0 && err.None? {
          break;
        }
        ghost var portion := remaining[..consumed];
        ghost var run := Receiver.RxFold(hdlc.crcType, hdlc.physMtu, before.state, portion);
        Receiver.ChunkIndependence(hdlc.crcType, hdlc.physMtu, start, fed, portion);
        Receiver.PayloadsAppend(before.events, run.events);
        ghost var frames := hdlc.rxFrames;
        Drain();
        OnFramesAppend(old(View()), Receiver.Payloads(before.events), frames);
        assert fed + portion + remaining[consumed..] == data;
        fed := fed + portion;
        remaining := remaining[consumed..];
      }
      assert fed == data;
    }

    lemma ValidRx()
      ensures hdlc.Valid() <==> hdlc.RxValid() && hdlc.TxHistory()
    {}

    /** One call of the codec's receiver. */
    method FeedCodec(data: seq<byte>) returns (consumed: nat, err: Option<TinyError>)
      requires Valid() && hdlc.rxFrames == [] && data != []
      modifies hdlc`rxBuf, hdlc`rxState, hdlc`rxPtr, hdlc`rxEscape, hdlc`rxFrames
      ensures Valid() && View() == old(View()) && 0 < consumed <= |data|
      ensures var run := Receiver.RxFold(hdlc.crcType, hdlc.physMtu, old(hdlc.RxView()), data[..consumed]);
        hdlc.RxView() == run.state && hdlc.rxFrames == Receiver.Payloads(run.events)
    {
      hide Receiver.RxFold;
      hide Fd.Valid;
      hide HdlcLl.HdlcLl.Valid;
      hide HdlcLl.HdlcLl.RxView;
      hide HdlcLl.HdlcLl.RxValid;
      hide HdlcLl.HdlcLl.TxHistory;
      hide Peers.ObjectsOf;
      hide Peers.ViewsOf;
      ValidRx();
      consumed, err := hdlc.RunRx(data);
      assert hdlc.rxFrames[0..] == hdlc.rxFrames;
      Receiver.PayloadsWithError(hdlc.rxFrames, err.Some?);
      ValidRx();
      assert View() == old(View()) && iQueue.Valid() && sQueue.Valid();
    }

    /** What one call of GetTxData makes of the station, the codec being idle or not, and what it hands over. */
    static function TxRound(v: Fd, frameDue: seq<bool>, iDue: seq<bool>, busy: bool): (Fd, Option<seq<byte>>)
      requires |frameDue| == |iDue| == |v.peers|
    {
      var timed := Timeouts(v, frameDue, iDue, |frameDue|);
      if busy then (timed, None) else Generate(timed)
    }

    /**
     Fills the buffer. The octets given out are what the codec still owed, then the frame
     chosen now if the codec was idle, as many as fit; frames are never mixed, and a second
     choice after an empty result never finds anything the first did not.
     */
    method GetTxData(out: array<byte>, frameDue: seq<bool>, iDue: seq<bool>, timeoutMs: nat) returns (written: nat)
      requires Valid() && |frameDue| == |iDue| == |View().peers| && out !in Repr()
      modifies out, this`txDataAvailable, this`connects, hdlc, iQueue.frames, sQueue, sQueue.frames, peerMgr.Objects()
      ensures Valid() && written <= out.Length && RxSame()
      ensures hdlc.wire == old(hdlc.wire) + out[..written]
      ensures var (v, frame) := TxRound(old(View()), frameDue, iDue, old(hdlc.txData).Some?);
        View() == v && hdlc.taken == old(hdlc.taken) + if frame.Some? then [frame.value] else []
      ensures var frame := TxRound(old(View()), frameDue, iDue, old(hdlc.txData).Some?).1;
        var owed := old(hdlc.Pending()) + if frame.Some? then Framing.Encode(hdlc.crcType, frame.value) else [];
        && written == HdlcLl.Min(out.Length, |owed|)
        && out[..written] == owed[..written] && hdlc.Pending() == owed[written..]
    {
      hide HdlcLl.HdlcLl.Valid;
      hide HdlcLl.HdlcLl.Pending;
      hide HdlcLl.HdlcLl.TxValid;
      hide Fd.Valid;
      hide Generate;
      hide Timeouts;
      hide Peers.ObjectsOf;
      hide Peers.ViewsOf;
      hide TxRound;
      hide Framing.Encode;
      ghost var frame := TxRound(View(), frameDue, iDue, hdlc.txData.Some?).1;
      CodecHistory();
      written := FillBuffer(out, frameDue, iDue, timeoutMs);
      CodecHistory();
      GivenOut(hdlc.crcType, old(hdlc.wire), old(hdlc.Pending()), old(hdlc.taken), frame,
               hdlc.wire, hdlc.Pending(), hdlc.taken, out[..written]);
    }

    /** Timers, a choice if the codec is idle, and the codec's output; a second attempt if nothing came out. */
    method FillBuffer(out: array<byte>, frameDue: seq<bool>, iDue: seq<bool>, timeoutMs: nat) returns (written: nat)
      requires Valid() && |frameDue| == |iDue| == |View().peers| && out !in Repr()
      modifies out, this`txDataAvailable, this`connects, hdlc, iQueue.frames, sQueue, sQueue.frames, peerMgr.Objects()
      ensures Valid() && written <= out.Length && RxSame()
      ensures hdlc.wire == old(hdlc.wire) + out[..written] && (written < out.Length ==> hdlc.txData == None)
      ensures var (v, frame) := TxRound(old(View()), frameDue, iDue, old(hdlc.txData).Some?);
        View() == v && hdlc.taken == old(hdlc.taken) + if frame.Some? then [frame.value] else []
    {
      hide HdlcLl.HdlcLl.Valid;
      hide HdlcLl.HdlcLl.Pending;
      hide HdlcLl.HdlcLl.TxValid;
      hide Fd.Valid;
      hide Generate;
      hide Timeouts;
      hide Peers.ObjectsOf;
      hide Peers.ViewsOf;
      CheckTimeouts(frameDue, iDue);
      ghost var timed := View();
      GenerateTxFrames();
      written := Emit(out);
      if written == 0 && timeoutMs > 0 {
        var left := timeoutMs;
        while !txDataAvailable && left > 0 {
          left := left - 1;
        }
        if txDataAvailable {
          GenerateAgain(timed);
          GenerateTxFrames();
          written := Emit(out);
        }
      }
    }

    lemma CodecHistory()
      requires hdlc.Valid()
      ensures hdlc.TxValid() && hdlc.wire + hdlc.Pending() == Framing.EncodeAll(hdlc.crcType, hdlc.taken)
      ensures hdlc.txData == None ==> hdlc.Pending() == []
    {}

    /** From the history before and after: what was given out is the front of what was owed. */
    static lemma GivenOut(
      t: Fcs.CrcType, wire: seq<byte>, owed: seq<byte>, taken: seq<seq<byte>>, frame: Option<seq<byte>>,
      wire': seq<byte>, owed': seq<byte>, taken': seq<seq<byte>>, given: seq<byte>)
      requires wire + owed == Framing.EncodeAll(t, taken) && wire' + owed' == Framing.EncodeAll(t, taken')
      requires taken' == taken + (if frame.Some? then [frame.value] else []) && wire' == wire + given
      ensures given + owed' == owed + if frame.Some? then Framing.Encode(t, frame.value) else []
    {
      hide Framing.EncodeAll;
      hide Framing.Encode;
      var more := if frame.Some? then Framing.Encode(t, frame.value) else [];
      if frame.Some? {
        Framing.EncodeAllOne(t, taken, frame.value);
      }
      assert taken + [] == taken && wire + owed + more == wire + (owed + more);
      assert wire + (given + owed') == wire + given + owed';
      assert (wire + (given + owed'))[|wire|..] == given + owed';
      assert (wire + (owed + more))[|wire|..] == owed + more;
    }

    /** Runs the codec's transmitter and forgets its notifications. */
    method Emit(out: array<byte>) returns (written: nat)
      requires Valid() && out !in Repr()
      modifies out, hdlc`txState, hdlc`txData, hdlc`txPos, hdlc`txCrc, hdlc`txCrcBitsSent, hdlc`txEscape,
               hdlc`txSentFrames, hdlc`wire
      ensures Valid() && View() == old(View()) && RxSame() && written <= out.Length
      ensures hdlc.taken == old(hdlc.taken) && hdlc.wire == old(hdlc.wire) + out[..written]
      ensures written == 0 ==> hdlc.txData == old(hdlc.txData)
      ensures written < out.Length ==> hdlc.txData == None
    {
      hide HdlcLl.HdlcLl.RxValid;
      hide HdlcLl.HdlcLl.TxHistory;
      hide HdlcLl.HdlcLl.Pending;
      hide HdlcLl.HdlcLl.TxValid;
      hide Fd.Valid;
      hide Peers.ObjectsOf;
      hide Peers.ViewsOf;
      written := hdlc.RunTx(out);
      assert hdlc.Valid();
      ForgetSent();
      assert View() == old(View()) && iQueue.Valid() && sQueue.Valid();
    }

    method ForgetSent()
      modifies hdlc`txSentFrames
      ensures hdlc.txSentFrames == []
    {
      while hdlc.txSentFrames != []
        decreases |hdlc.txSentFrames|
      {
        var frame := hdlc.GetTxSentFrame();
      }
    }
  }
}
