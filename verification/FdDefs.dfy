/** Constants, states, frame records and the bit-packed control octets of the full-duplex protocol. */
module FdDefs {
  import opened Base
  import opened SeqNum

  const FD_PRIMARY_ADDR: byte := 0x00
  const HDLC_I_FRAME_BITS: byte := 0x00
  const HDLC_I_FRAME_MASK: byte := 0x01
  const HDLC_S_FRAME_BITS: byte := 0x01
  const HDLC_S_FRAME_MASK: byte := 0x03
  const HDLC_S_FRAME_TYPE_RR: byte := 0x00
  const HDLC_S_FRAME_TYPE_REJ: byte := 0x08
  const HDLC_S_FRAME_TYPE_SREJ: byte := 0x0c
  const HDLC_S_FRAME_TYPE_MASK: byte := 0x0c
  const HDLC_U_FRAME_BITS: byte := 0x03
  const HDLC_U_FRAME_MASK: byte := 0x03
  const HDLC_U_FRAME_TYPE_UA: byte := 0x60
  const HDLC_U_FRAME_TYPE_DM: byte := 0x0c
  const HDLC_U_FRAME_TYPE_SABM: byte := 0x2c
  const HDLC_U_FRAME_TYPE_SNRM: byte := 0x80
  const HDLC_U_FRAME_TYPE_DISC: byte := 0x40
  const HDLC_U_FRAME_TYPE_MASK: byte := 0xec
  const HDLC_P_BIT: byte := 0x10
  const HDLC_F_BIT: byte := 0x10
  const HDLC_CR_BIT: byte := 0x02
  const HDLC_E_BIT: byte := 0x01
  const HDLC_PRIMARY_ADDR: byte := 0x00
  const HDLC_INVALID_PEER_INDEX: nat := 0xff
  const U_QUEUE_MAX_SIZE: nat := 4

  datatype FdMode = Abm | Nrm

  datatype FdState = FdIdle | Disconnected | Connecting | Connected | Disconnecting

  datatype FrameType = UFrame | SFrame | IFrame

  datatype FrameHeader = FrameHeader(address: byte, control: byte)

  datatype FrameInfo = FrameInfo(frameType: FrameType, header: FrameHeader, payload: seq<byte>) {
    function ToBytes(): (data: seq<byte>)
      ensures |data| == 2 + |payload|
    {
      [header.address, header.control] + payload
    }
  }

  // ----- Control octets -----

  function IControl(ns: byte, nr: byte): byte {
    (ns << 5) | (nr << 1) | HDLC_I_FRAME_BITS
  }

  function RrControl(nr: byte): byte {
    HDLC_S_FRAME_BITS | HDLC_S_FRAME_TYPE_RR | (nr << 5)
  }

  function RejControl(nr: byte): byte {
    HDLC_S_FRAME_BITS | HDLC_S_FRAME_TYPE_REJ | (nr << 5) | HDLC_P_BIT
  }

  const SABM_CONTROL: byte := HDLC_U_FRAME_TYPE_SABM | HDLC_U_FRAME_BITS | HDLC_P_BIT
  const UA_CONTROL: byte := HDLC_U_FRAME_TYPE_UA | HDLC_U_FRAME_BITS | HDLC_F_BIT
  const DISC_CONTROL: byte := HDLC_U_FRAME_TYPE_DISC | HDLC_U_FRAME_BITS | HDLC_P_BIT
  const DM_CONTROL: byte := HDLC_U_FRAME_TYPE_DM | HDLC_U_FRAME_BITS

  predicate IsU(control: byte) {
    control & HDLC_U_FRAME_MASK == HDLC_U_FRAME_BITS
  }

  predicate IsI(control: byte) {
    control & HDLC_I_FRAME_MASK == HDLC_I_FRAME_BITS
  }

  predicate IsS(control: byte) {
    control & HDLC_S_FRAME_MASK == HDLC_S_FRAME_BITS
  }

  function UType(control: byte): byte {
    control & HDLC_U_FRAME_TYPE_MASK
  }

  function SType(control: byte): byte {
    control & HDLC_S_FRAME_TYPE_MASK
  }

  /** N(S) of an I-frame; N(R) of an S-frame sits in the same bits. */
  function HighSeq(control: byte): (b: byte)
    ensures b <= 7
  {
    (control >> 5) & SEQ_BITS_MASK
  }

  /** N(R) of an I-frame. */
  function LowSeq(control: byte): (b: byte)
    ensures b <= 7
  {
    (control >> 1) & SEQ_BITS_MASK
  }

  /** The numbers packed into a control octet are the numbers a receiver unpacks, and the kinds are told apart. */
  lemma ControlRoundTrip(ns: byte, nr: byte)
    requires ns <= 7 && nr <= 7
    ensures var c := IControl(ns, nr); IsI(c) && !IsU(c) && HighSeq(c) == ns && LowSeq(c) == nr
    ensures var c := RrControl(nr);
      IsS(c) && !IsI(c) && !IsU(c) && HighSeq(c) == nr && SType(c) == HDLC_S_FRAME_TYPE_RR
    ensures var c := RejControl(nr);
      IsS(c) && !IsI(c) && !IsU(c) && HighSeq(c) == nr && SType(c) == HDLC_S_FRAME_TYPE_REJ
  {}

  lemma UControlRoundTrip()
    ensures IsU(SABM_CONTROL) && UType(SABM_CONTROL) == HDLC_U_FRAME_TYPE_SABM
    ensures IsU(UA_CONTROL) && UType(UA_CONTROL) == HDLC_U_FRAME_TYPE_UA
    ensures IsU(DISC_CONTROL) && UType(DISC_CONTROL) == HDLC_U_FRAME_TYPE_DISC
    ensures IsU(DM_CONTROL) && UType(DM_CONTROL) == HDLC_U_FRAME_TYPE_DM
  {}
}
