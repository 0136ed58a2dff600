/**
 The streaming codec: two octet-level state machines that can be interrupted
 anywhere. The receiver's loop is proved against the fold of Receiver, the
 transmitter's against the encoding of Framing.
 */
module HdlcLl {
  import opened Base
  import opened Fcs
  import opened FcsProofs
  import opened Framing
  import opened Receiver
  import Crc

  datatype ResetFlags = Both | TxOnly | RxOnly

  datatype RxState = RxStart | RxData | RxEnd

  datatype TxState = TxStart | TxData | TxCrc | TxEnd

  function Min(a: nat, b: nat): nat {
    if a < b then a else b
  }

  /** What is left to send of bs when the escape octet of its first octet has, or has not, gone out. */
  function StuffRest(bs: seq<byte>, escaped: bool): seq<byte>
    requires escaped ==> bs != []
  {
    if escaped then [Flip(bs[0])] + Stuff(bs[1..]) else Stuff(bs)
  }

  class HdlcLl {
    const crcType: CrcType
    const physMtu: nat

    var rxBuf: seq<byte>
    var rxState: RxState
    var rxPtr: nat
    var rxEscape: bool

    var txState: TxState
    var txData: Option<seq<byte>>
    var txPos: nat
    var txCrc: bv32
    var txCrcBitsSent: nat
    var txEscape: bool

    var rxFrames: seq<seq<byte>>
    var txSentFrames: seq<seq<byte>>

    // History since the transmitter was created or reset: frames taken, octets given out.
    ghost var taken: seq<seq<byte>>
    ghost var wire: seq<byte>

    ghost predicate RxValid()
      reads this`rxBuf, this`rxState, this`rxPtr
    {
      && rxState != RxEnd
      && (rxState == RxData ==> rxPtr == |rxBuf| <= physMtu)
    }

    ghost predicate TxValid()
      reads this`txState, this`txData, this`txPos, this`txCrc, this`txCrcBitsSent, this`txEscape
    {
      && (txState != TxStart ==> txData.Some?)
      && (txData.Some? ==> txData.value != [])
      && (txState in {TxData, TxCrc} ==> txCrc == CrcValue(crcType, txData.value))
      && (txState == TxData ==>
            && txPos <= |txData.value|
            && (txEscape ==> txPos < |txData.value| && Special(txData.value[txPos])))
      && (txState == TxCrc ==>
            && txCrcBitsSent % 8 == 0 && txCrcBitsSent <= 8 * FieldSize(crcType)
            && (txEscape ==> txCrcBitsSent < 8 * FieldSize(crcType) && Special(OctetOf(txCrc, txCrcBitsSent / 8))))
    }

    /** The octets still owed to the wire for the frame in hand. */
    ghost function Pending(): seq<byte>
      requires TxValid()
      reads this`txState, this`txData, this`txPos, this`txCrc, this`txCrcBitsSent, this`txEscape
    {
      if txData.None? then []
      else
        var field := Field(crcType, txData.value);
        match txState
        case TxStart => Encode(crcType, txData.value)
        case TxData => StuffRest(txData.value[txPos..], txEscape) + (Stuff(field) + [FLAG])
        case TxCrc => StuffRest(field[txCrcBitsSent / 8..], txEscape) + [FLAG]
        case TxEnd => [FLAG]
    }

    /** The output so far is whole frames, except that the last may still be under way. */
    ghost predicate TxHistory()
      reads this`wire, this`taken, this`txState, this`txData, this`txPos, this`txCrc, this`txCrcBitsSent, this`txEscape
    {
      TxValid() && wire + Pending() == EncodeAll(crcType, taken)
    }

    ghost predicate Valid()
      reads this`rxBuf, this`rxState, this`rxPtr, this`wire, this`taken,
            this`txState, this`txData, this`txPos, this`txCrc, this`txCrcBitsSent, this`txEscape
    {
      RxValid() && TxHistory()
    }

    /** The receiver as the pure machine sees it. */
    ghost function RxView(): Rx
      reads this`rxBuf, this`rxState, this`rxEscape
    {
      if rxState == RxStart then Idle else Open(rxBuf, rxEscape)
    }

    constructor (crcType: CrcType, mtu: nat, rxBufSize: nat)
      requires rxBufSize > 0
      ensures Valid() && RxView() == Idle && txData == None && rxFrames == []
      ensures taken == [] && wire == []
      ensures this.crcType == crcType
      ensures physMtu == if mtu > 0 then mtu + FieldSize(crcType) else rxBufSize
    {
      this.crcType := crcType;
      physMtu := if mtu > 0 then mtu + FieldSize(crcType) else rxBufSize;
      rxBuf := [];
      rxState := RxStart;
      rxPtr := 0;
      rxEscape := false;
      txState := TxStart;
      txData := None;
      txPos := 0;
      txCrc := 0;
      txCrcBitsSent := 0;
      txEscape := false;
      rxFrames := [];
      txSentFrames := [];
      taken := [];
      wire := [];
    }

    /** Creates a codec; an empty receive buffer is refused. */
    static method New(crcType: CrcType, mtu: nat, rxBufSize: nat) returns (r: Result<HdlcLl>)
      ensures r.Ok? <==> rxBufSize > 0
      ensures r.Err? ==> r.error == InvalidData
      ensures r.Ok? ==> fresh(r.value) && r.value.Valid() && r.value.RxView() == Idle && !r.value.txData.Some?
      ensures r.Ok? ==> r.value.crcType == crcType
      ensures r.Ok? ==> r.value.physMtu == if mtu > 0 then mtu + FieldSize(crcType) else rxBufSize
    {
      if rxBufSize == 0 {
        return Err(InvalidData);
      }
      var codec := new HdlcLl(crcType, mtu, rxBufSize);
      return Ok(codec);
    }

    method Reset(flags: ResetFlags)
      requires Valid()
      modifies this
      ensures Valid() && rxFrames == old(rxFrames) && txSentFrames == old(txSentFrames)
      ensures RxView() == if flags == TxOnly then old(RxView()) else Idle
      ensures flags == RxOnly ==> Pending() == old(Pending()) && wire == old(wire) && taken == old(taken)
      ensures flags != RxOnly ==> txData == None && Pending() == [] && wire == [] && taken == []
    {
      hide RxValid;
      hide TxValid;
      hide Pending;
      if flags != TxOnly {
        ResetRx();
      }
      if flags != RxOnly {
        ResetTx();
      }
    }

    method ResetRx()
      modifies this`rxState, this`rxBuf, this`rxPtr, this`rxEscape
      ensures RxValid() && RxView() == Idle
    {
      rxState := RxStart;
      rxBuf := [];
      rxPtr := 0;
      rxEscape := false;
    }

    method ResetTx()
      modifies this`txData, this`txPos, this`txEscape, this`txState, this`txCrcBitsSent, this`wire, this`taken
      ensures TxHistory() && txData == None && Pending() == [] && wire == [] && taken == []
    {
      txData := None;
      txPos := 0;
      txEscape := false;
      txState := TxStart;
      txCrcBitsSent := 0;
      wire, taken := [], [];
    }

    /** Takes a frame unless one is in hand; an empty frame is accepted and forgotten. */
    method PutFrame(data: seq<byte>) returns (r: Result<Unit>)
      requires Valid()
      modifies this`txData, this`txPos, this`txState, this`taken
      ensures Valid()
      ensures r == if data != [] && old(txData).Some? then Err(Busy) else Ok(Unit)
      ensures data != [] && r.Ok? ==>
        txData == Some(data) && taken == old(taken) + [data] && Pending() == Encode(crcType, data)
      ensures data == [] || r.Err? ==>
        txData == old(txData) && taken == old(taken) && Pending() == old(Pending())
    {
      hide CrcValue;
      hide EncodeAll;
      hide Encode;
      hide Stuff;
      hide Field;
      if data == [] {
        return Ok(Unit);
      }
      if txData.Some? {
        return Err(Busy);
      }
      EncodeAllOne(crcType, taken, data);
      txData := Some(data);
      txPos := 0;
      taken := taken + [data];
      return Ok(Unit);
    }

    predicate IsTxBusy()
      reads this
    {
      txData.Some?
    }

    // ----- Receiving -----

    /** The check value found behind the payload. */
    method ReadCrcFromBuffer(payloadLen: nat) returns (value: bv32)
      requires payloadLen + FieldSize(crcType) == |rxBuf|
      ensures value == ReadLe(rxBuf[payloadLen..])
    {
      hide CrcValue;
      hide Accumulate;
      var size := FieldSize(crcType);
      value := 0;
      for i := 0 to size
        invariant value == ReadLe(rxBuf[payloadLen..payloadLen + i])
      {
        var part := rxBuf[payloadLen..payloadLen + i + 1];
        assert part[..i] == rxBuf[payloadLen..payloadLen + i];
        value := Accumulate(value, rxBuf[payloadLen + i], i);
      }
      assert rxBuf[payloadLen..payloadLen + size] == rxBuf[payloadLen..];
    }

    /**
     Feeds octets to the receiver until they run out or a frame fails its check. The
     state and the frames are those of the octet-by-octet machine on what was consumed;
     an error stops the call right after the octet that caused it. Input is always
     consumed, so a caller that feeds the rest again makes progress.
     */
    method RunRx(data: seq<byte>) returns (consumed: nat, error: Option<TinyError>)
      requires RxValid()
      modifies this`rxBuf, this`rxState, this`rxPtr, this`rxEscape, this`rxFrames
      ensures RxValid()
      ensures consumed <= |data| && (data != [] ==> consumed > 0)
      ensures error == None ==> consumed == |data|
      ensures error == None || error == Some(WrongCrc)
      ensures old(rxFrames) <= rxFrames
      ensures RxFold(crcType, physMtu, old(RxView()), data[..consumed])
        == Run(RxView(), Frames(rxFrames[|old(rxFrames)|..]) + if error.Some? then [BadCrc] else [])
    {
      hide CrcValue;
      hide Flip;
      hide ReadLe;
      hide Field;
      hide RxFold;
      hide RxByte;
      hide Passes;
      var pos := 0;
      consumed := 0;
      error := None;
      ghost var start := RxView();
      RxNone(crcType, physMtu, start);
      assert data[..0] == [];
      assert rxFrames[|rxFrames|..] == [];
      while pos < |data| || rxState == RxEnd
        invariant consumed == pos <= |data|
        invariant rxState == RxEnd ==> pos > 0 && data[pos - 1] == FLAG
        invariant rxState != RxStart ==> rxPtr == |rxBuf| <= physMtu
        invariant error == None
        invariant old(rxFrames) <= rxFrames
        invariant RxFold(crcType, physMtu, start, data[..if rxState == RxEnd then pos - 1 else pos])
          == Run(RxView(), Frames(rxFrames[|old(rxFrames)|..]))
        decreases |data| - pos, if rxState == RxEnd then 1 else 0
      {
        ghost var before := rxFrames;
        if rxState == RxStart {
          FoldStep(crcType, physMtu, start, data, pos);
          RxIdleByte(crcType, physMtu, data[pos]);
          var octet := data[pos];
          pos, consumed := pos + 1, consumed + 1;
          if octet == FLAG {
            rxEscape := false;
            rxBuf := [];
            rxPtr := 0;
            rxState := RxData;
          }
        } else if rxState == RxData {
          FoldStep(crcType, physMtu, start, data, pos);
          RxOpenByte(crcType, physMtu, rxBuf, rxEscape, data[pos]);
          var octet := data[pos];
          pos, consumed := pos + 1, consumed + 1;
          if octet == FLAG {
            rxState := RxEnd;
            continue;
          }
          if octet == ESCAPE {
            rxEscape := true;
            continue;
          }
          var decoded := if rxEscape then Flip(octet) else octet;
          rxEscape := false;
          if rxPtr < physMtu {
            rxBuf := rxBuf + [decoded];
            rxPtr := rxPtr + 1;
          }
        } else {
          FoldStep(crcType, physMtu, start, data, pos - 1);
          RxClose(crcType, physMtu, rxBuf, rxEscape);
          if rxBuf == [] {
            rxEscape := false;
            rxState := RxData;
            continue;
          }
          rxState := RxStart;
          var len := |rxBuf|;
          if len > physMtu {
            assert false;
            error := Some(DataTooLarge);
            break;
          }
          var crcSize := FieldSize(crcType);
          if len < crcSize {
            TooShort(crcType, rxBuf);
            error := Some(WrongCrc);
            break;
          }
          var payloadLen := len - crcSize;
          var calculated := Crc.Calculate(crcType, rxBuf[..payloadLen]);
          var found := ReadCrcFromBuffer(payloadLen);
          PassesWhen(crcType, rxBuf, found, calculated);
          if calculated != found {
            error := Some(WrongCrc);
            break;
          }
          FramesSnoc(rxFrames[|old(rxFrames)|..], rxBuf[..payloadLen]);
          assert (rxFrames + [rxBuf[..payloadLen]])[|old(rxFrames)|..]
              == rxFrames[|old(rxFrames)|..] + [rxBuf[..payloadLen]];
          rxFrames := rxFrames + [rxBuf[..payloadLen]];
          rxBuf := [];
        }
      }
    }

    method GetRxFrame() returns (frame: Option<seq<byte>>)
      modifies this`rxFrames
      ensures old(rxFrames) == [] ==> frame == None && rxFrames == []
      ensures old(rxFrames) != [] ==> frame == Some(old(rxFrames)[0]) && rxFrames == old(rxFrames)[1..]
    {
      if rxFrames == [] {
        frame := None;
      } else {
        frame := Some(rxFrames[0]);
        rxFrames := rxFrames[1..];
      }
    }

    // ----- Sending -----

    /** Part of a step of the transmitter: n octets from the front of what was owed, and no other change. */
    twostate predicate Emitted(out: array<byte>, at: nat, n: nat)
      requires old(TxValid()) && TxValid()
      reads this, out
    {
      && n <= |old(Pending())| && at + n <= out.Length
      && out[at..at + n] == old(Pending())[..n]
      && Pending() == old(Pending())[n..]
      && forall j :: 0 <= j < at || at + n <= j < out.Length ==> out[j] == old(out[j])
    }

    method TxSendStart(out: array<byte>, at: nat) returns (n: nat)
      requires TxValid() && txState == TxStart && at < out.Length
      modifies out, this`txState, this`txPos, this`txCrc, this`txEscape
      ensures TxValid() && Emitted(out, at, n)
      ensures n == 0 ==> txData == None && txState == TxStart
    {
      hide CrcValue;
      hide OctetOf;
      hide Stuff;
      hide Field;
      if txData.None? {
        return 0;
      }
      EncodeUnfold(crcType, txData.value);
      txCrc := Crc.Calculate(crcType, txData.value);
      out[at] := FLAG;
      txState := TxData;
      txPos := 0;
      txEscape := false;
      assert txData.value[0..] == txData.value;
      return 1;
    }

    method TxSendData(out: array<byte>, at: nat) returns (n: nat)
      requires TxValid() && txState == TxData && at < out.Length
      modifies out, this`txState, this`txPos, this`txCrcBitsSent, this`txEscape
      ensures TxValid() && Emitted(out, at, n)
      ensures n == 0 ==> txState == TxCrc
    {
      hide CrcValue;
      hide Emitted;
      hide Pending;
      if txPos >= |txData.value| {
        TxDataDone(out, at);
        return 0;
      }
      var octet := txData.value[txPos];
      if octet == FLAG || octet == ESCAPE {
        TxSendSpecial(out, at);
        return 1;
      }
      n := TxSendPlain(out, at);
    }

    /** The payload is out: the check field is next. */
    method TxDataDone(out: array<byte>, at: nat)
      requires TxValid() && txState == TxData && txPos >= |txData.value| && at < out.Length
      modifies this`txState, this`txCrcBitsSent, this`txEscape
      ensures TxValid() && Emitted(out, at, 0) && txState == TxCrc
    {
      hide CrcValue;
      hide Flip;
      hide Field;
      hide Stuff;
      hide StuffRest;
      ghost var field := Field(crcType, txData.value);
      RestNothing(txData.value[txPos..], field);
      txState := TxCrc;
      txCrcBitsSent := 0;
      txEscape := false;
      assert field[0..] == field;
    }

    /** An octet that needs an escape: the escape first, the flipped octet with the next call. */
    method TxSendSpecial(out: array<byte>, at: nat)
      requires TxValid() && txState == TxData && at < out.Length
      requires txPos < |txData.value| && Special(txData.value[txPos])
      modifies out, this`txPos, this`txEscape
      ensures TxValid() && Emitted(out, at, 1)
    {
      hide CrcValue;
      hide Flip;
      hide Field;
      hide Stuff;
      hide StuffRest;
      hide Special;
      var data := txData.value;
      RestUnfold(data, txPos, Stuff(Field(crcType, data)) + [FLAG]);
      if !txEscape {
        out[at] := ESCAPE;
        txEscape := true;
      } else {
        out[at] := Flip(data[txPos]);
        txEscape := false;
        txPos := txPos + 1;
      }
    }

    /** Octets that need no escape, as many as fit. */
    method TxSendPlain(out: array<byte>, at: nat) returns (n: nat)
      requires TxValid() && txState == TxData && at < out.Length
      requires txPos < |txData.value| && !Special(txData.value[txPos])
      modifies out, this`txPos
      ensures TxValid() && Emitted(out, at, n) && n > 0
    {
      hide CrcValue;
      hide Field;
      hide Stuff;
      hide StuffRest;
      hide Special;
      var data := txData.value;
      n := TxSendRun(out, at);
      RestRun(data, old(txPos), txPos, Stuff(Field(crcType, data)) + [FLAG]);
    }

    /** The inner loop: a run of octets that need no escape. */
    method TxSendRun(out: array<byte>, at: nat) returns (n: nat)
      requires TxValid() && txState == TxData && at < out.Length
      requires txPos < |txData.value| && !Special(txData.value[txPos])
      modifies out, this`txPos
      ensures n > 0 && old(txPos) + n == txPos <= |txData.value| && at + n <= out.Length
      ensures out[at..at + n] == txData.value[old(txPos)..txPos]
      ensures forall k :: old(txPos) <= k < txPos ==> !Special(txData.value[k])
      ensures forall j :: 0 <= j < at || at + n <= j < out.Length ==> out[j] == old(out[j])
    {
      var data := txData.value;
      n := 0;
      while at + n < out.Length && txPos < |data|
        invariant txPos == old(txPos) + n <= |data| && at + n <= out.Length
        invariant n == 0 ==> !Special(data[txPos])
        invariant forall k :: old(txPos) <= k < txPos ==> !Special(data[k])
        invariant forall j :: 0 <= j < at || at + n <= j < out.Length ==> out[j] == old(out[j])
        invariant out[at..at + n] == data[old(txPos)..txPos]
      {
        var b := data[txPos];
        if b == FLAG || b == ESCAPE {
          break;
        }
        ghost var sent := out[at..at + n];
        out[at + n] := b;
        n := n + 1;
        txPos := txPos + 1;
        assert out[at..at + n - 1] == sent;
        assert out[at..at + n] == sent + [b];
        assert data[old(txPos)..txPos] == data[old(txPos)..txPos - 1] + [b];
      }
    }

    method TxSendCrc(out: array<byte>, at: nat) returns (n: nat)
      requires TxValid() && txState == TxCrc && at < out.Length
      modifies out, this`txState, this`txCrcBitsSent, this`txEscape
      ensures TxValid() && Emitted(out, at, n)
      ensures n == 0 ==> txState == TxEnd
    {
      hide CrcValue;
      hide Emitted;
      hide Pending;
      if txCrcBitsSent >= FieldSize(crcType) * 8 {
        TxCrcDone(out, at);
        return 0;
      }
      TxSendCheckOctet(out, at);
      return 1;
    }

    /** The check field is out: the closing flag is next. */
    method TxCrcDone(out: array<byte>, at: nat)
      requires TxValid() && txState == TxCrc && txCrcBitsSent >= FieldSize(crcType) * 8 && at < out.Length
      modifies this`txState
      ensures TxValid() && Emitted(out, at, 0) && txState == TxEnd
    {
      hide CrcValue;
      hide Encode;
      hide OctetOf;
      hide Stuff;
      hide StuffRest;
      hide Field;
      RestNothing(Field(crcType, txData.value)[txCrcBitsSent / 8..], []);
      txState := TxEnd;
    }

    /** One octet of the check field, or its escape. */
    method TxSendCheckOctet(out: array<byte>, at: nat)
      requires TxValid() && txState == TxCrc && txCrcBitsSent < FieldSize(crcType) * 8 && at < out.Length
      modifies out, this`txCrcBitsSent, this`txEscape
      ensures TxValid() && Emitted(out, at, 1)
    {
      hide CrcValue;
      hide Encode;
      hide Flip;
      hide OctetOf;
      hide ShiftedOctet;
      hide Stuff;
      hide StuffRest;
      hide Field;
      ghost var field := Field(crcType, txData.value);
      ghost var k := txCrcBitsSent / 8;
      ShiftedIsOctetOf(txCrc, txCrcBitsSent);
      FieldOctet(crcType, txData.value, k);
      RestUnfold(field, k, [FLAG]);
      var octet := ShiftedOctet(txCrc, txCrcBitsSent);
      if octet == FLAG || octet == ESCAPE {
        TxSendCheckSpecial(out, at);
        return;
      }
      out[at] := octet;
      txCrcBitsSent := txCrcBitsSent + 8;
    }

    /** A check octet that needs an escape: the escape first, the flipped octet with the next call. */
    method TxSendCheckSpecial(out: array<byte>, at: nat)
      requires TxValid() && txState == TxCrc && txCrcBitsSent < FieldSize(crcType) * 8 && at < out.Length
      requires Special(OctetOf(txCrc, txCrcBitsSent / 8))
      modifies out, this`txCrcBitsSent, this`txEscape
      ensures TxValid() && Emitted(out, at, 1)
    {
      hide CrcValue;
      hide Encode;
      hide Flip;
      hide OctetOf;
      hide ShiftedOctet;
      hide Stuff;
      hide StuffRest;
      hide Field;
      hide Special;
      ghost var field := Field(crcType, txData.value);
      ghost var k := txCrcBitsSent / 8;
      ShiftedIsOctetOf(txCrc, txCrcBitsSent);
      FieldOctet(crcType, txData.value, k);
      RestUnfold(field, k, [FLAG]);
      if !txEscape {
        out[at] := ESCAPE;
        txEscape := true;
      } else {
        out[at] := Flip(ShiftedOctet(txCrc, txCrcBitsSent));
        txEscape := false;
        txCrcBitsSent := txCrcBitsSent + 8;
      }
    }

    method TxSendEnd(out: array<byte>, at: nat) returns (n: nat)
      requires TxValid() && txState == TxEnd && at < out.Length
      modifies out, this`txState, this`txData, this`txEscape, this`txSentFrames
      ensures TxValid() && Emitted(out, at, n) && n == 1
      ensures txData == None && txState == TxStart
      ensures txSentFrames == old(txSentFrames) + [old(txData).value]
    {
      hide CrcValue;
      hide Flip;
      hide Field;
      out[at] := FLAG;
      txState := TxStart;
      txEscape := false;
      txSentFrames := txSentFrames + [txData.value];
      txData := None;
      return 1;
    }

    /** One turn of the transmitter's loop, whichever state it is in. */
    method TxStep(out: array<byte>, at: nat) returns (n: nat)
      requires TxValid() && at < out.Length
      modifies out, this`txState, this`txData, this`txPos, this`txCrc, this`txCrcBitsSent, this`txEscape,
               this`txSentFrames
      ensures TxValid() && Emitted(out, at, n)
      ensures n == 0 ==>
        if old(txData).None? then txState == old(txState) else TxRank(txState) < TxRank(old(txState))
      ensures n > 0 && txState == old(txState) ==> txData == old(txData)
      ensures txData.Some? ==> txData == old(txData) && txSentFrames == old(txSentFrames)
      ensures txData.None? && old(txData).Some? ==> txSentFrames == old(txSentFrames) + [old(txData).value]
      ensures txData.None? && old(txData).None? ==> txSentFrames == old(txSentFrames)
    {
      hide HdlcLl.Pending;
      match txState {
        case TxStart => n := TxSendStart(out, at);
        case TxData => n := TxSendData(out, at);
        case TxCrc => n := TxSendCrc(out, at);
        case TxEnd => n := TxSendEnd(out, at);
      }
    }

    /**
     Fills the buffer with as much of the owed octets as fits. On a non-empty buffer
     nothing comes out exactly when no frame is in hand. A frame is reported sent when
     its last flag went out.
     */
    method RunTx(out: array<byte>) returns (written: nat)
      requires Valid()
      modifies out, this`txState, this`txData, this`txPos, this`txCrc, this`txCrcBitsSent, this`txEscape,
               this`txSentFrames, this`wire
      ensures Valid()
      ensures written == Min(out.Length, |old(Pending())|)
      ensures out[..written] == old(Pending())[..written] && out[written..] == old(out[written..])
      ensures Pending() == old(Pending())[written..] && wire == old(wire) + out[..written]
      ensures out.Length > 0 ==> (written == 0 <==> old(txData) == None)
      ensures written == 0 ==> txData == old(txData)
      ensures txData == if Pending() == [] then None else old(txData)
      ensures txSentFrames == old(txSentFrames) +
        if old(txData).Some? && Pending() == [] then [old(txData).value] else []
    {
      hide HdlcLl.Pending;
      hide HdlcLl.TxValid;
      hide EncodeAll;
      PendingNonempty();
      ghost var owed := Pending();
      written := TxLoop(out);
      PendingNonempty();
      assert owed == owed[..written] + owed[written..];
      wire := wire + out[..written];
      assert wire + Pending() == old(wire) + (out[..written] + Pending());
    }

    /** The loop of RunTx. */
    method TxLoop(out: array<byte>) returns (written: nat)
      requires TxValid()
      modifies out, this`txState, this`txData, this`txPos, this`txCrc, this`txCrcBitsSent, this`txEscape,
               this`txSentFrames
      ensures TxValid() && written <= |old(Pending())| && written <= out.Length
      ensures written < out.Length ==> txData == None
      ensures out[..written] == old(Pending())[..written] && Pending() == old(Pending())[written..]
      ensures out[written..] == old(out[written..])
      ensures txData.Some? ==> txData == old(txData) && txSentFrames == old(txSentFrames)
      ensures txData.None? ==>
        txSentFrames == old(txSentFrames) + if old(txData).Some? then [old(txData).value] else []
    {
      hide HdlcLl.Pending;
      hide HdlcLl.TxValid;
      ghost var owed := Pending();
      written := 0;
      while written < out.Length
        invariant written <= out.Length && TxValid() && written <= |owed|
        invariant out[..written] == owed[..written] && Pending() == owed[written..]
        invariant forall j :: written <= j < out.Length ==> out[j] == old(out[j])
        invariant txData.Some? ==> txData == old(txData) && txSentFrames == old(txSentFrames)
        invariant txData.None? && old(txData).Some? ==> txSentFrames == old(txSentFrames) + [old(txData).value]
        invariant txData.None? && old(txData).None? ==> txSentFrames == old(txSentFrames)
        decreases out.Length - written, TxRank(txState)
      {
        ghost var sent := out[..written];
        ghost var left := Pending();
        var previous := txState;
        var n := TxStep(out, written);
        if n == 0 {
          if txState == previous {
            break;
          }
        } else {
          assert out[..written] == sent;
          SplitOff(owed, written, n);
          assert out[..written + n] == sent + left[..n];
          written := written + n;
        }
      }
    }

    /** Something is owed exactly while a frame is in hand. */
    lemma PendingNonempty()
      requires TxValid()
      ensures Pending() == [] <==> txData.None?
    {}

    method GetTxSentFrame() returns (frame: Option<seq<byte>>)
      modifies this`txSentFrames
      ensures old(txSentFrames) == [] ==> frame == None && txSentFrames == []
      ensures old(txSentFrames) != [] ==>
        frame == Some(old(txSentFrames)[0]) && txSentFrames == old(txSentFrames)[1..]
    {
      if txSentFrames == [] {
        frame := None;
      } else {
        frame := Some(txSentFrames[0]);
        txSentFrames := txSentFrames[1..];
      }
    }
  }

  function TxRank(s: TxState): nat {
    match s
    case TxStart => 0
    case TxData => 2
    case TxCrc => 1
    case TxEnd => 0
  }

  lemma SplitOff(owed: seq<byte>, w: nat, n: nat)
    requires w + n <= |owed|
    ensures owed[..w] + owed[w..][..n] == owed[..w + n] && owed[w..][n..] == owed[w + n..]
  {}

  // ----- Single steps of the fold, for the loop above -----

  lemma FoldStep(t: CrcType, mtu: nat, s: Rx, w: seq<byte>, i: nat)
    requires i < |w|
    ensures var r := RxFold(t, mtu, s, w[..i]);
      var q := RxByte(t, mtu, r.state, w[i]);
      RxFold(t, mtu, s, w[..i + 1]) == Run(q.state, r.events + q.events)
  {
    assert w[..i + 1][..i] == w[..i];
  }

  lemma RxIdleByte(t: CrcType, mtu: nat, b: byte)
    ensures RxByte(t, mtu, Idle, b) == Run(if b == FLAG then Open([], false) else Idle, [])
  {}

  function Append(buf: seq<byte>, d: byte, mtu: nat): seq<byte> {
    if |buf| < mtu then buf + [d] else buf
  }

  lemma RxOpenByte(t: CrcType, mtu: nat, buf: seq<byte>, esc: bool, b: byte)
    requires |buf| <= mtu
    ensures b == ESCAPE ==> RxByte(t, mtu, Open(buf, esc), b) == Run(Open(buf, true), [])
    ensures !Special(b) ==>
      RxByte(t, mtu, Open(buf, esc), b) == Run(Open(Append(buf, if esc then Flip(b) else b, mtu), false), [])
  {}

  lemma RxClose(t: CrcType, mtu: nat, buf: seq<byte>, esc: bool)
    ensures RxByte(t, mtu, Open(buf, esc), FLAG)
      == if buf == [] then Run(Open([], false), []) else Run(Idle, [Check(t, buf)])
  {}

  lemma TooShort(t: CrcType, buf: seq<byte>)
    requires |buf| < FieldSize(t)
    ensures !Passes(t, buf)
  {}

  lemma PassesWhen(t: CrcType, buf: seq<byte>, found: bv32, calculated: bv32)
    requires FieldSize(t) <= |buf| && found == ReadLe(buf[|buf| - FieldSize(t)..])
    requires calculated == CrcValue(t, buf[..|buf| - FieldSize(t)])
    ensures Passes(t, buf) <==> calculated == found
  {}

  lemma FramesSnoc(ps: seq<seq<byte>>, p: seq<byte>)
    ensures Frames(ps + [p]) == Frames(ps) + [Frame(p)]
  {}

  // ----- Single steps of the encoding -----

  lemma EncodeUnfold(t: CrcType, p: seq<byte>)
    ensures Encode(t, p) == [FLAG] + (StuffRest(p, false) + (Stuff(Field(t, p)) + [FLAG]))
  {
    hide Field;
    StuffAppend(p, Field(t, p));
  }

  lemma FieldOctet(t: CrcType, p: seq<byte>, k: nat)
    requires k < FieldSize(t)
    ensures Field(t, p)[k] == OctetOf(CrcValue(t, p), k)
  {
    hide CrcValue;
    hide OctetOf;
  }

  lemma RestNothing(bs: seq<byte>, field: seq<byte>)
    requires bs == []
    ensures StuffRest(bs, false) == [] && StuffRest(field, false) == Stuff(field)
    ensures forall tail: seq<byte> :: StuffRest(bs, false) + tail == tail
  {
    assert forall tail: seq<byte> :: [] + tail == tail;
  }

  /** The next octet owed when position i of bs is up, and what is owed after it. */
  lemma RestUnfold(bs: seq<byte>, i: nat, tail: seq<byte>)
    requires i < |bs|
    ensures var now, next := bs[i..], bs[i + 1..];
      && now != []
      && (Special(bs[i]) ==> StuffRest(now, false) + tail == [ESCAPE] + (StuffRest(now, true) + tail))
      && StuffRest(now, true) + tail == [Flip(bs[i])] + (StuffRest(next, false) + tail)
      && (!Special(bs[i]) ==> StuffRest(now, false) + tail == [bs[i]] + (StuffRest(next, false) + tail))
  {
    var now, next := bs[i..], bs[i + 1..];
    assert now[0] == bs[i] && now[1..] == next;
    assert Stuff(now) == StuffOctet(bs[i]) + Stuff(next);
    if Special(bs[i]) {
      assert Stuff(now) == [ESCAPE] + ([Flip(bs[i])] + Stuff(next));
    }
  }

  /** A run without special octets is owed as it stands. */
  lemma {:induction false} RestRun(bs: seq<byte>, i: nat, j: nat, tail: seq<byte>)
    requires i <= j <= |bs| && forall k :: i <= k < j ==> !Special(bs[k])
    ensures StuffRest(bs[i..], false) + tail == bs[i..j] + (StuffRest(bs[j..], false) + tail)
    decreases j - i
  {
    hide StuffRest;
    if i < j {
      RestUnfold(bs, i, tail);
      RestRun(bs, i + 1, j, tail);
      assert bs[i..j] == [bs[i]] + bs[i + 1..j];
    }
  }

  /** The octet the transmitter cuts out of the check value. */
  function ShiftedOctet(v: bv32, bits: nat): byte
    requires bits < 32
  {
    ((v >> bits) & 0xff) as bv8
  }

  lemma ShiftedIsOctetOf(v: bv32, bits: nat)
    requires bits < 32 && bits % 8 == 0
    ensures ShiftedOctet(v, bits) == OctetOf(v, bits / 8)
  {
    assert bits == 0 || bits == 8 || bits == 16 || bits == 24;
    assert (v >> 24) & 0xff == v >> 24;
  }
}
