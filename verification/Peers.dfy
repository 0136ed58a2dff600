/** The remote stations one station talks to. */
module Peers {
  import opened Base
  import opened FdDefs
  import opened FdSpec
  import IQueueControl

  class PeerInfo {
    const addr: byte
    const iQueueControl: IQueueControl.IQueueControl
    var state: FdState
    var sentNr: byte
    var sentReject: bool
    var retries: nat

    ghost function View(): Peer
      reads this, iQueueControl
    {
      Peer(state, addr, sentNr, sentReject, iQueueControl.View(), retries)
    }

    constructor (addr: byte)
      ensures View() == NewPeer(addr) && fresh(iQueueControl)
    {
      this.addr := addr;
      iQueueControl := new IQueueControl.IQueueControl();
      state := Disconnected;
      sentNr := 0;
      sentReject := false;
      retries := 0;
    }

    method ResetConnection()
      modifies this, iQueueControl
      ensures View() == ResetPeer(old(View()))
    {
      iQueueControl.Reset();
      sentNr := 0;
      sentReject := false;
    }
  }

  ghost function ObjectsOf(ps: seq<PeerInfo>): set<object> {
    (set p: PeerInfo | p in ps :: p as object) + (set p: PeerInfo | p in ps :: p.iQueueControl as object)
  }

  lemma OnlyPeersAndCounters(ps: seq<PeerInfo>, o: object)
    requires o in ObjectsOf(ps)
    ensures o is PeerInfo || o is IQueueControl.IQueueControl
  {}

  ghost function ViewsOf(ps: seq<PeerInfo>): (v: seq<Peer>)
    reads ObjectsOf(ps)
    ensures |v| == |ps| && forall i :: 0 <= i < |ps| ==> v[i] == ps[i].View()
  {
    if ps == [] then []
    else
      var n := |ps| - 1;
      assert ObjectsOf(ps[..n]) <= ObjectsOf(ps);
      assert ps[n] in ps;
      assert (ps[n] as object) in ObjectsOf(ps);
      assert (ps[n].iQueueControl as object) in ObjectsOf(ps);
      ViewsOf(ps[..n]) + [ps[n].View()]
  }

  class PeerManager {
    const peers: seq<PeerInfo>
    const localAddr: byte
    var nextPeer: nat

    /** Everything the peers consist of. */
    ghost function Objects(): set<object> {
      ObjectsOf(peers)
    }

    /** Each peer has its own state. */
    ghost predicate Separate() {
      && 1 <= |peers| <= 255
      && forall i, j | 0 <= i < j < |peers| :: peers[i] != peers[j] && peers[i].iQueueControl != peers[j].iQueueControl
    }

    ghost function View(): (v: seq<Peer>)
      reads Objects()
      ensures |v| == |peers| && forall i :: 0 <= i < |peers| ==> v[i] == peers[i].View()
    {
      ViewsOf(peers)
    }

    constructor (localAddr: byte, peersCount: nat)
      requires peersCount <= 255
      ensures Separate() && fresh(Objects()) && this.localAddr == localAddr && nextPeer == 0
      ensures View() == NewPeers(localAddr, peersCount)
    {
      hide NoCr;
      hide StationAddress;
      var count := if peersCount > 1 then peersCount else 1;
      var ps: seq<PeerInfo>;
      if IsPrimaryAddress(localAddr) {
        ps := Secondaries(count);
      } else {
        var p := new PeerInfo(HDLC_PRIMARY_ADDR | HDLC_E_BIT);
        ps := [p];
      }
      peers := ps;
      this.localAddr := localAddr;
      nextPeer := 0;
      new;
      forall o | o in Objects() ensures fresh(o) {}
    }

    /** The loop that creates a primary's peers, with consecutive addresses. */
    static method Secondaries(count: nat) returns (ps: seq<PeerInfo>)
      requires count <= 255
      ensures |ps| == count && forall j :: 0 <= j < count ==> fresh(ps[j]) && fresh(ps[j].iQueueControl)
      ensures forall j :: 0 <= j < count ==> ps[j].View() == NewPeer(StationAddress(j as bv8 + 1))
      ensures forall j, k | 0 <= j < k < count :: ps[j] != ps[k] && ps[j].iQueueControl != ps[k].iQueueControl
    {
      hide StationAddress;
      ps := [];
      for i := 0 to count
        invariant |ps| == i
        invariant forall j :: 0 <= j < i ==> fresh(ps[j]) && fresh(ps[j].iQueueControl)
        invariant forall j :: 0 <= j < i ==> ps[j].View() == NewPeer(StationAddress(j as bv8 + 1))
        invariant forall j, k | 0 <= j < k < i :: ps[j] != ps[k] && ps[j].iQueueControl != ps[k].iQueueControl
      {
        var p := new PeerInfo(StationAddress(i as bv8 + 1));
        ps := ps + [p];
      }
    }

    /** When only one peer's objects have changed, only its entry in the view has. */
    twostate lemma PeerChanged(p: nat)
      requires Separate() && p < |peers|
      requires forall i :: 0 <= i < |peers| && i != p ==> unchanged(peers[i]) && unchanged(peers[i].iQueueControl)
      ensures View() == old(View())[p := peers[p].View()]
    {}

    predicate IsPrimaryStation() {
      IsPrimaryAddress(localAddr)
    }

    /** The address field that names the secondary on the link to this peer. */
    function PeerToAddressField(peer: nat): (address: byte)
      requires peer < |peers|
      reads Objects()
      ensures address == PeerToAddress(View(), localAddr, peer)
    {
      if IsPrimaryStation() then NoCr(peers[peer].addr) else NoCr(localAddr)
    }

    method AddressFieldToPeer(address: byte) returns (peer: nat)
      requires 1 <= |peers|
      ensures peer == AddressToPeer(View(), localAddr, address)
    {
      hide NoCr;
      var addrNoCr := NoCr(address);
      if IsPrimaryStation() {
        for i := 0 to |peers|
          invariant FindPeer(View(), addrNoCr, 0) == FindPeer(View(), addrNoCr, i)
        {
          if NoCr(peers[i].addr) == addrNoCr {
            return i;
          }
        }
        return HDLC_INVALID_PEER_INDEX;
      } else {
        if addrNoCr == NoCr(localAddr) || IsPrimaryAddress(addrNoCr) {
          return 0;
        }
        return HDLC_INVALID_PEER_INDEX;
      }
    }

    method SwitchToNextPeer() returns (peer: nat)
      requires |peers| >= 1
      modifies this`nextPeer
      ensures peer == nextPeer == (old(nextPeer) + 1) % |peers| < |peers|
    {
      nextPeer := (nextPeer + 1) % |peers|;
      peer := nextPeer;
    }
  }
}
