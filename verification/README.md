# Tiny Protocol: a verified model of the full-duplex link

This project models the three layers of the full-duplex protocol of Tiny Protocol and proves
what each promises and what they promise together.

* **FCS.** The table-driven CRC-16 and CRC-32 and the byte sum (`Crc`, `CrcTables`) are proved
  equal to the bit-serial shift registers of appendix C of RFC 1662 (`Fcs`, `FcsProofs`). From
  the register follow the residue test, in both directions, and burst detection.
* **Framing.** The streaming codec (`HdlcLl`) is proved, octet by octet and for every buffer
  size, against a pure stuffing function (`Framing`, section 4.2 of RFC 1662) and a pure fold
  over octets (`Receiver`). The one-shot codec (`HdlcEncoder`) is proved against the same
  format, and the inputs on which the two encoders agree are given exactly. `OneShot` says what
  the one-shot decoder makes of any wire, and when the two decoders agree.
* **One station.** `IQueueControl`, `FrameQueue`, `Peers` and `TinyFd` are classes whose methods
  update the same fields as the original and are proved to compute the functions of `FdSpec`,
  where a station is a value. `Window` relates three-bit numbers and slots to unbounded frame
  indices. For a station with any number of peers: `Reactions` says what each kind of received
  frame does, `Timers` what the clock does to every peer, `Addressing` who is meant by an
  address and who takes the frame, `Recovery` what is sent again and in which order,
  `Isolation` what one operation keeps, and `StationRun` what holds in every state that
  operations lead to from a configuration. `Farewell` is the end of a connection at both ends,
  `EarlyPackets` what becomes of packets handed over before there is one.
* **Two stations.** `Session` is a step system of two stations and the frames in flight; it
  contains the SABM/UA handshake, frame loss, REJ and timer rewinds, and `SessionTheorems`
  proves safety over every run. `Healing` proves that lost frames are sent again and arrive,
  `Unheard` gives the one state after a loss from which that fails. `OutOfOrder` proves that
  the one condition a run needs is exact, `LostFrames` gives runs that violate it, one that
  loses a packet and one that delivers a wrong one, and `Exactness` shows the condition to be
  necessary for release and delivery. `Quiescence` and `Settling` prove that a lossless
  exchange comes to rest, taking turns or in any order. `Wire` and `Octets` join the layers.

History that the code does not keep is explicit: the codec has ghost sequences of the frames it
took and the octets it gave out; callbacks are appends to ghost sequences; a packet in flight
carries the unbounded numbers that its three-bit fields stand for.

## How the layers fit together

`Octets` is the two stations with their codecs and the octets between them. Its moves are the
contracts of the class methods: a packet is handed over (`TinyFd.TinyFd.SendPacket`), a station
is polled with a buffer of any size (`TinyFd.TinyFd.GetTxData`), a station is fed octets in
portions of any size (`TinyFd.TinyFd.OnRxData`), and octets under way are damaged.
`Octets.OctetsRefineSession` shows every run of it to be a run of `Session`: the octets still
to come decode to exactly the session's packets, because every frame handed over fits the
peer's decoder (`Wire.RoundSized`), a decoder recovers whole frames however they are cut
(`Receiver.ChunkIndependence`, `Receiver.RoundTrip`), and a damaged frame is lost and not misread
(`Receiver.CorruptionRejected`, `Octets.DamageLoses`, which covers frames partly fed or partly owed). `Octets.DeliveredOverOctets` is the result.

## What turned out differently from what one would expect

* **An acknowledgement outside the window empties it.** The confirm loop runs until its counter
  equals N(R), whatever N(R) is. `Isolation.TameIff` says, in terms of the counters before the
  frame, exactly which acknowledgements and connection requests leave queue and counters in
  agreement; `StationRun.StrayAck` is a frame that does not.
* **Acknowledgements can overtake each other.** The service queue is filled in rotation and
  emptied from slot 0, so neither `NoPrematureRelease` nor in-order delivery holds of the code as
  it stands. `LostFrames.FrameLost` and `LostFrames.PacketsSkipped` are runs from two configured
  stations in which, once connected, nothing is lost and no timer fires: after the first a
  packet that was accepted and never delivered is no longer queued; in the second, with a window
  of seven, the thirteenth accepted packet is delivered as the fifth, and both stations stay
  connected. A session run therefore takes an I-frame only if its answer will not overtake
  another (`Session.AnswersInOrder`, a test on the octets and the station before the call).
  How much this condition is worth is proved, too. For every window,
  `Exactness.ReleaseExactIff`: taking a frame is safe for what is not delivered yet, whatever
  follows that keeps the condition, if and only if it keeps the condition itself. For a window
  of seven, the default, `Exactness.DeliveryExactIff` says the same of delivery in order.
  `OutOfOrder.Overtaken` says what becomes of the sender's queue wherever the condition fails.
  `SessionTheorems.OneAnswerSuffices`: never holding two supervisory frames is enough.
* **A primary addresses at most 64 peers.** The address shift drops two bits, so the 65th peer
  has the first one's address (`Isolation.NewPeersDistinctIff`).
* **The default check type differs between the codecs.** The one-shot codec writes and expects
  zero, the streaming one CRC-32 (`HdlcEncoder.CodecsAgreeIff`, `HdlcEncoder.CodecsDiffer`).
* **An empty frame without a check field is not a frame** for the one-shot decoder
  (`HdlcEncoder.DecodeEncodeIff`).
* **A full service queue drops answers.** The last acknowledgement may then never be sent, so
  `Settling.Moves` counts a reception as a move only when its answer finds a slot; a station
  whose queue is full has something to transmit first (`Settling.TakesOrSends`).
* **A REJ is said once.** A receiver that has refused a frame is silent until it accepts one.
  When the last acknowledgement and then the REJ are lost, a packet that was delivered stays
  unacknowledged, although its sender keeps sending it (`Unheard.UnheardReached`,
  `Unheard.NeverAcknowledged`). Where a loss has left nothing under way, this is the only
  obstacle to acknowledging everything (`Unheard.SettlesIff`).
* **A packet can be handed over too early.** `send_packet` does not ask for a connection, and
  the connection resets the counters but keeps the queue. Of a packet accepted before it and
  one accepted after it, the first is sent under the number of the second and the second is
  not sent (`EarlyPackets.EarlyPacketReplaces`).
* **A DISC is not repeated.** No timer runs for a station that is disconnecting. If the answer
  finds no slot at the peer, it waits on (`Farewell.BothEnd`, `Farewell.NotRepeated`).
* **Numbers are taken modulo 64.** Number 65 reaches the first peer, and a station given a
  multiple of 64 takes itself for a primary (`Addressing.UnknownIff`, `Addressing.RoleIff`).
* **Only four requests fit.** A primary that dials more peers than there are service slots marks
  all of them as connecting, though the request to the others was dropped
  (`Timers.EveryPeerTicks`).
* **A frame beyond the limit is cut off.** The error for it cannot occur; without a check field
  the rest is delivered (`Receiver.AnyLengthJudged`, `Receiver.CutDelivered`).
* **The one-shot decoder leaves what it collected** in the result when the check fails, where its
  comment says that the result is empty (`OneShot.VerdictIff`). And it does not treat an escape
  directly in front of a flag as the streaming receiver does (`OneShot.AbortDisagrees`).

## Model

| member | source | states |
|---|---|---|
| Crc.Crc8.SumBytes | src/proto/crc.rs:124-128 | The loop adds every octet modulo 256 |
| Crc.Crc16.SumByte | src/proto/crc.rs:151-153 | One table step is eight ticks of the shift register with polynomial 0x8408 |
| Crc.Crc16.SumBytes | src/proto/crc.rs:156-160 | The table-driven loop equals the bit-serial register fed with the same octets |
| Crc.Crc32.SumByte | src/proto/crc.rs:182-184 | One table step is eight ticks of the shift register with polynomial 0xEDB88320 |
| Crc.Crc32.SumBytes | src/proto/crc.rs:187-191 | The table-driven loop equals the bit-serial register fed with the same octets |
| Crc.Calculate | src/proto/hdlc/low_level_ll.rs:439-458 | The check value of each type, with CRC-32 for the default type and 0 when off |
| CrcTables.Table16Ticks | src/proto/crc.rs:30-49 | Every entry of the 16-bit table is its index after eight ticks |
| CrcTables.Table32Ticks | src/proto/crc.rs:51-80 | Every entry of the 32-bit table is its index after eight ticks |
| FcsProofs.TableStep16 | src/proto/crc.rs:152 | For every register and octet, the table step equals the bit-serial one |
| FcsProofs.TableStep32 | src/proto/crc.rs:183 | For every register and octet, the table step equals the bit-serial one |
| FcsProofs.Serial16Injective | src/proto/crc.rs:156-160 | Different registers stay different under any common suffix |
| FcsProofs.Serial32Injective | src/proto/crc.rs:187-191 | Different registers stay different under any common suffix |
| FcsProofs.ResidueIff | src/proto/crc.rs:229-231 | Appending a field drives the register to the good constant if and only if it is the message's own field, low octet first |
| FcsProofs.PassesIffResidue | src/proto/hdlc/low_level_ll.rs:265-273 | The receiver's comparison accepts exactly the frames with the good residue, which are exactly message plus its own field |
| FcsProofs.BurstDetected | src/proto/crc.rs:137-197 | Two different frames of any length that differ only within as many consecutive octets as the field has cannot both pass |
| FcsProofs.Sum8IsTotal | src/proto/crc.rs:124-128 | As a number, the register of CRC-8 is the sum of the octets modulo 256 |
| FcsProofs.Crc8IsNumber | src/proto/crc.rs:131-133 | As a number, CRC-8 is 255 less that sum |
| Framing.EncodeShape | src/proto/hdlc/low_level_ll.rs:298-435 | A frame has n + 2 to 2n + 2 octets and flags at its ends only |
| Receiver.ChunkIndependence | src/proto/hdlc/low_level_ll.rs:193-284 | Splitting the wire anywhere changes neither frames nor errors nor the final state, for every wire |
| Receiver.RxStuffed | src/proto/hdlc/low_level_ll.rs:215-243 | Unstuffing undoes stuffing |
| Receiver.RoundTrip | src/proto/hdlc/low_level_ll.rs:193-284 | A frame that fits, met outside a frame or just after a flag, is delivered and nothing else happens |
| Receiver.AnyLengthJudged | src/proto/hdlc/low_level_ll.rs:236-281 | A frame of any length gives one event: its first octets, up to the limit, are judged as if they were all |
| Receiver.CutDelivered | src/proto/hdlc/low_level_ll.rs:236-240 | Without a check field, a frame beyond the limit is delivered cut off |
| Receiver.StreamRoundTrip | src/proto/hdlc/low_level_ll.rs:193-293 | Concatenated frames come back as the same list |
| Receiver.PrefixRoundTrip | src/proto/hdlc/low_level_ll.rs:193-293 | At any moment the frames seen are a prefix of the list, without an error |
| Receiver.SelfSynchronising | src/proto/hdlc/low_level_ll.rs:200-257 | From any receiver state the loss is exact: nothing with an empty buffer, else the junk is judged and the first frame lost |
| Receiver.RxDamaged | src/proto/hdlc/low_level_ll.rs:215-243 | Replacing one plain octet of a stuffed body changes exactly one octet of the unstuffed frame |
| Receiver.OneOctetRejected | src/proto/hdlc/low_level_ll.rs:265-273 | A frame with any one octet replaced fails the check under every type but Off |
| Receiver.CorruptionRejected | src/proto/hdlc/low_level_ll.rs:215-273 | A frame with one interior plain octet replaced by another plain one gives WrongCrc and no frame |
| Receiver.DamageIsLocal | src/proto/hdlc/low_level_ll.rs:193-284 | Such damage costs one frame of a stream and no other |
| HdlcLl.HdlcLl.New | src/proto/hdlc/low_level_ll.rs:122-150 | Refuses an empty receive buffer; otherwise the limit includes the check field |
| HdlcLl.HdlcLl.constructor | src/proto/hdlc/low_level_ll.rs:127-149 | A new codec is idle both ways and has no history |
| HdlcLl.HdlcLl.Reset | src/proto/hdlc/low_level_ll.rs:153-167 | Resets one direction without disturbing the other |
| HdlcLl.HdlcLl.PutFrame | src/proto/hdlc/low_level_ll.rs:173-183 | Takes a frame unless one is in hand; from then on exactly its encoding is owed |
| HdlcLl.HdlcLl.ReadCrcFromBuffer | src/proto/hdlc/low_level_ll.rs:460-470 | Reads the field low octet first |
| HdlcLl.HdlcLl.RunRx | src/proto/hdlc/low_level_ll.rs:193-284 | State, frames and error are those of the pure fold on what was consumed; input is always consumed; DataTooLarge cannot occur; End never survives a call |
| HdlcLl.HdlcLl.GetRxFrame | src/proto/hdlc/low_level_ll.rs:287-293 | Hands out the oldest frame |
| HdlcLl.HdlcLl.TxSendStart | src/proto/hdlc/low_level_ll.rs:334-351 | Gives out the opening flag of the frame in hand |
| HdlcLl.HdlcLl.TxSendData | src/proto/hdlc/low_level_ll.rs:353-391 | Gives out a prefix of what is owed, or moves on without output |
| HdlcLl.HdlcLl.TxSendRun | src/proto/hdlc/low_level_ll.rs:379-390 | The run loop gives out plain octets only and as they are owed |
| HdlcLl.HdlcLl.TxSendCrc | src/proto/hdlc/low_level_ll.rs:393-420 | The check field is stuffed like the payload and interruptible between escape and octet |
| HdlcLl.HdlcLl.TxSendEnd | src/proto/hdlc/low_level_ll.rs:422-435 | The closing flag ends the frame and reports it sent |
| HdlcLl.HdlcLl.RunTx | src/proto/hdlc/low_level_ll.rs:298-321 | For every buffer size the next octets owed come out, as many as fit; all output is whole encodings in order; 0 on a non-empty buffer means no frame is in hand |
| HdlcLl.HdlcLl.GetTxSentFrame | src/proto/hdlc/low_level_ll.rs:324-330 | Hands out the oldest notification |
| HdlcEncoder.HdlcEncoder.Encode | src/proto/hdlc/low_level.rs:88-131 | The loops write flag, stuffed payload and field, flag |
| HdlcEncoder.HdlcEncoder.Decode | src/proto/hdlc/low_level.rs:138-197 | The loop consumes up to the first flag that follows an octet and judges what it collected; the judgement is characterised by `OneShot.VerdictIff` |
| HdlcEncoder.DecodeEncode | src/proto/hdlc/low_level.rs:88-197 | Whatever follows, decoding an encoded frame succeeds, returns the payload and consumes exactly the frame |
| HdlcEncoder.DecodeEncodeIff | src/proto/hdlc/low_level.rs:144-151 | That holds if and only if the payload is non-empty or there is a check field |
| HdlcEncoder.EmptyFrameRunsOn | src/proto/hdlc/low_level.rs:146-151 | The exception: two flags are skipped and the next frame is decoded instead |
| HdlcEncoder.DecodeAllEncodeAll | src/proto/hdlc/low_level.rs:138-197 | Decoding again and again recovers a list of frames |
| HdlcEncoder.StuffInjective | src/proto/hdlc/low_level.rs:111-118 | Different contents never look the same on the wire |
| HdlcEncoder.CodecsAgreeIff | src/proto/hdlc/low_level.rs:91-109 | Both codecs write the same octets if and only if the type is not the default, or CRC-32 happens to be 0 |
| HdlcEncoder.CodecsDiffer | src/proto/hdlc/low_level.rs:107-108 | A payload on which they do not |
| HdlcEncoder.OneShotToStreaming | src/proto/hdlc/low_level.rs:88-131 | A frame encoded in one shot is delivered by the streaming receiver |
| OneShot.VerdictIff | src/proto/hdlc/low_level.rs:165-196 | On every wire: success if and only if what was collected is the result followed by its own check field, invalid data if and only if it is shorter than a field, otherwise a wrong check, and then the collected octets are handed out |
| OneShot.DamagedNotDecoded | src/proto/hdlc/low_level.rs:138-197 | An encoded frame with one interior plain octet replaced by another gives a wrong check, whatever follows, under every type with a check |
| OneShot.DecodersAgree | src/proto/hdlc/low_level.rs:144-197 | On every wire with no escape directly in front of a flag, the one-shot verdict is the event of the streaming receiver on the octets consumed |
| OneShot.AbortDisagrees | src/proto/hdlc/low_level.rs:152-155 | A wire with such an escape on which the two differ |
| FdDefs.ControlRoundTrip | src/proto/fd/protocol.rs:365 | Packed numbers are the numbers a receiver unpacks, and I, RR and REJ are told apart |
| FdDefs.UControlRoundTrip | src/proto/fd/defines.rs:134-160 | Each U control octet is recognised as its own kind |
| SeqNum.SeqEqual | src/proto/fd/defines.rs:173 | Three-bit numbers of frames less than eight apart are equal only for equal frames |
| SeqNum.IndexFromSeq | src/proto/fd/i_queue_control.rs:92-105 | A three-bit number and a base less than eight behind determine the frame |
| IQueueControl.IQueueControl.ConfirmSentFrames | src/proto/fd/i_queue_control.rs:92-105 | The loop ends, confirms up to N(R) round the circle and reports each number in order |
| IQueueControl.IQueueControl.RetransmitFrame | src/proto/fd/i_queue_control.rs:109-119 | Only the next number to send moves |
| IQueueControl.IQueueControl.MoveToNextNs | src/proto/fd/i_queue_control.rs:147-149 | Only the last number moves, by one modulo eight |
| IQueueControl.IQueueControl.MoveToPreviousNs | src/proto/fd/i_queue_control.rs:142-144 | Takes back one allocation |
| IQueueControl.IQueueControl.AdvanceNextNs | src/proto/fd/i_queue_control.rs:152-154 | Only the next number to send moves, by one modulo eight |
| IQueueControl.IQueueControl.MoveToNextFrameToReceive | src/proto/fd/i_queue_control.rs:137-139 | Only the expected number moves, by one modulo eight |
| IQueueControl.ConfirmedSeq | src/proto/fd/i_queue_control.rs:97-103 | In unbounded terms, the loop confirms exactly the frames from the confirmed one up to the acknowledged one |
| FrameQueue.FindFreeComplete | src/proto/fd/frame_queue.rs:86-97 | The rotating search fails only on a full queue, wherever it starts |
| FrameQueue.FrameQueue.Allocate | src/proto/fd/frame_queue.rs:86-97 | Fills the first free slot in rotating order and moves the start behind it, or changes nothing |
| FrameQueue.FrameQueue.GetNext | src/proto/fd/frame_queue.rs:101-116 | The first slot of this kind, address and, for I-frames, number |
| FrameQueue.FrameQueue.FreeByNs | src/proto/fd/frame_queue.rs:149-161 | Empties the first I-slot with this address and number and no other |
| FrameQueue.FrameQueue.ResetFor | src/proto/fd/frame_queue.rs:65-73 | Empties exactly the slots of one address |
| FrameQueue.FrameQueue.Reset | src/proto/fd/frame_queue.rs:57-62 | Empties all slots and returns the search to the start |
| FrameQueue.FrameQueue.HasFreeSlots | src/proto/fd/frame_queue.rs:76-78 | True exactly when some slot is empty |
| FrameQueue.FrameQueue.Count | src/proto/fd/frame_queue.rs:164-166 | The number of occupied slots |
| FrameQueue.OccupiedIff | src/proto/fd/frame_queue.rs:164-171 | The count stays below the capacity exactly when a slot is free |
| FrameQueue.FrameQueue.Free | src/proto/fd/frame_queue.rs:129-133 | Empties one slot, or nothing beyond the end |
| Window.AllocateAgrees | src/proto/fd/protocol.rs:363-374 | Queueing the next frame extends the window by one |
| Window.FindAgrees | src/proto/fd/frame_queue.rs:101-116 | Looking a number up finds the payload it denotes in the window, or nothing outside it |
| Window.FreeAllAgrees | src/proto/fd/protocol.rs:479-488 | An acknowledgement inside the window releases exactly the frames it confirms |
| Window.AckIff | src/proto/fd/i_queue_control.rs:97-103 | The window moves if and only if N(R) lies in it; otherwise every queued frame of the peer is released |
| Window.CountAgrees | src/proto/fd/frame_queue.rs:164-166 | A peer occupies exactly as many slots as its window is long |
| Window.RoomInWindow | src/proto/fd/i_queue_control.rs:167-169 | With at most seven slots, a free slot means the window is not full |
| Peers.PeerInfo.ResetConnection | src/proto/fd/peers.rs:89-98 | Resets the counters and the reject flag, keeps state, address and retries |
| Peers.PeerManager.constructor | src/proto/fd/peers.rs:116-136 | Peers with consecutive addresses for a primary, the primary itself for a secondary, no two sharing state |
| Peers.PeerManager.PeerToAddressField | src/proto/fd/peers.rs:152-158 | The address field of a peer, without the command/response bit |
| Peers.PeerManager.AddressFieldToPeer | src/proto/fd/peers.rs:161-180 | The loop finds the first peer with this address |
| Peers.PeerManager.SwitchToNextPeer | src/proto/fd/peers.rs:183-186 | The next peer round the circle |
| Isolation.NewPeersDistinctIff | src/proto/fd/peers.rs:120-129 | A station's peers have different addresses if and only if it is a secondary or has at most 64 |
| Isolation.AddressRoundTrip | src/proto/fd/peers.rs:152-180 | Index to address to index is the identity, with and without the command/response bit |
| Isolation.FrameTouchesOnePeer | src/proto/fd/protocol.rs:380-412 | Any octets received change at most one peer and only its slots of the shared queue |
| Isolation.FrameKeepsWindows | src/proto/fd/protocol.rs:380-564 | Every tame frame keeps every peer's window and the shared queue in agreement |
| Isolation.TameIff | src/proto/fd/protocol.rs:380-587 | Agreement survives a frame if and only if its N(R) lies between confirm_ns and last_ns and it resets no counters under unconfirmed frames |
| Isolation.SendKeepsWindows | src/proto/fd/protocol.rs:259-295 | A send extends the addressed peer's window by this payload, or changes no window |
| Isolation.TimeoutKeepsWindows | src/proto/fd/protocol.rs:607-664 | A peer's timer moves no window; exactly a peer that is given up loses its frames |
| Isolation.GenerateKeepsWindows | src/proto/fd/protocol.rs:666-711 | Transmitting moves no window |
| Isolation.FrameKeepsBit | src/proto/fd/protocol.rs:489-491 | Any received octets keep the free-slot bit sound, and exact with one peer |
| Isolation.SendKeepsBit | src/proto/fd/protocol.rs:289-292 | Sending keeps the free-slot bit sound, and exact with one peer |
| Isolation.TimeoutKeepsBit | src/proto/fd/protocol.rs:607-664 | Timers keep the free-slot bit sound, and exact with one peer |
| Isolation.GenerateKeepsBit | src/proto/fd/protocol.rs:666-711 | Transmitting keeps the free-slot bit sound, and exact with one peer |
| Isolation.BackPressureExact | src/proto/fd/protocol.rs:259-295 | While connected with one peer, a payload of legal size is accepted if a slot is free and times out if not; never Busy |
| StationRun.TimeoutsKeepWindows | src/proto/fd/protocol.rs:607-664 | The loop over all peers keeps every window; only peers that are given up lose theirs |
| StationRun.DisconnectKeepsWindows | src/proto/fd/protocol.rs:241-253 | A user's disconnect moves no window |
| StationRun.BitInEveryState | src/proto/fd/protocol.rs:190-191 | From any configuration, after any operations and any received octets: an advertised slot is free; with one connected peer a free slot is advertised |
| StationRun.WindowsInEveryState | src/proto/fd/protocol.rs:259-711 | From any configuration with at most 64 peers, after any operations with tame frames: every window agrees with the queue and holds the end of what was accepted for its peer |
| StationRun.NeverBusy | src/proto/fd/protocol.rs:259-295 | In those states send_packet never reports Busy, and with one connected peer accepts exactly when a slot is free |
| StationRun.SessionBackPressure | src/proto/fd/protocol.rs:259-295 | The same in every state of a session |
| StationRun.StrayAck | src/proto/fd/i_queue_control.rs:97-103 | A reachable station and an RR that is not tame for it: no history explains the counters afterwards |
| StationRun.EventInEveryState | src/proto/fd/protocol.rs:335-341 | In every reachable state, when there is a frame to hand over the event that ends a wait is raised |
| EarlyPackets.EarlyPacket | src/proto/fd/protocol.rs:566-587 | A packet accepted before the connection is one that the connection request finds unconfirmed; no history explains the counters afterwards |
| EarlyPackets.EarlyPacketReplaces | src/proto/fd/protocol.rs:566-587 | Then the early packet goes out under the number of the first packet accepted afterwards, and nothing more |
| Reactions.RequestJoins | src/proto/fd/protocol.rs:414-463 | SABM and SNRM: UA waits if a slot is free; the peer starts afresh and the user is told, unless it was connected |
| Reactions.ConfirmationSwitches | src/proto/fd/protocol.rs:429-440 | UA connects a peer that is connecting, disconnects one that is disconnecting, and is else ignored |
| Reactions.EndLeaves | src/proto/fd/protocol.rs:441-453 | DISC and DM: state, counters, exactly the peer's slots and the report; DISC is answered with UA, DM is not |
| Reactions.EndedForGood | src/proto/fd/protocol.rs:589-605 | After either the peer is disconnected; if it was not before, its counters are zero, it has no slot and the user is told once |
| Reactions.OthersIgnored | src/proto/fd/protocol.rs:381-390 | Frames too short, for nobody or of an unknown kind change nothing |
| Reactions.UnconnectedDenied | src/proto/fd/protocol.rs:398-406 | An I- or S-frame for a peer that is not connected leaves a DM and nothing else |
| Reactions.ExpectedDelivered | src/proto/fd/protocol.rs:511-527 | The expected I-frame is delivered under the peer's number, and an RR for the next one waits |
| Reactions.UnexpectedRejectedOnce | src/proto/fd/protocol.rs:496-509 | Any other I-frame is not delivered; a REJ for the expected one waits for the first of them only |
| Reactions.SupervisoryTunes | src/proto/fd/protocol.rs:530-564 | RR restores the retries, REJ and SREJ go back to the frame asked for, anything else only acknowledges |
| Timers.EveryPeerTicks | src/proto/fd/protocol.rs:607-664 | After the loop, for every peer and slot at once: who is dialled, rewound or given up, whose frames are gone, which requests wait, what the users are told and in which order |
| Timers.EachPeer | src/proto/fd/protocol.rs:607-664 | No peer is passed over: what one call makes of each, by its state, retries and timers |
| Timers.LeavingTicks | src/proto/fd/protocol.rs:661 | The clock does nothing to a peer that is disconnecting |
| Recovery.ServiceFirst | src/proto/fd/protocol.rs:671-680 | All waiting service frames go out before any data, in slot order, each once |
| Recovery.DataInOrder | src/proto/fd/protocol.rs:682-710 | Then the peer's frames from the next to the last, each under its number with the payload accepted for it |
| Recovery.RequestResends | src/proto/fd/protocol.rs:552-561 | After a REJ or SREJ for a frame in the window, what goes out is what waits and then that frame and all later ones, each with its payload |
| Recovery.TimeoutResends | src/proto/fd/protocol.rs:645-659 | After the retry timer, what waits and then every unconfirmed frame |
| Addressing.NamesInEveryState | src/proto/fd/protocol.rs:165-184 | Whatever happens to a station as configured, it and its peers keep their addresses |
| Addressing.RoleIff | src/proto/fd/protocol.rs:165-169 | A station takes itself for a primary if and only if its number is a multiple of 64 |
| Addressing.SendToNumber | src/proto/fd/protocol.rs:259-295 | With at most 63 peers, a packet for number i + 1 is queued once, under that secondary's address; every refusal is exact and changes nothing |
| Addressing.SendToDefault | src/proto/fd/protocol.rs:267-272 | Number 0 stands for the first peer |
| Addressing.UnknownIff | src/proto/fd/protocol.rs:273-281 | For any number: unknown if and only if the size is legal and no peer has it modulo 64; from 1 to 63, if and only if it exceeds the number of peers |
| Addressing.SecondarySends | src/proto/fd/protocol.rs:259-295 | A secondary sends to its primary under its own address, told 0 or its own number; all else is unknown |
| Addressing.UserNumbers | src/proto/fd/protocol.rs:474-477 | Users are told a peer's number at a primary, and 0 at a secondary |
| Addressing.OwnFieldOnly | src/proto/fd/peers.rs:161-180 | A secondary takes frames under its own address; frames for another change nothing |
| Addressing.PeersField | src/proto/fd/peers.rs:161-180 | A primary takes a secondary's frames as those of the peer with its number |
| Addressing.PacketArrives | src/proto/fd/protocol.rs:259-528 | From user to user: a packet for number i + 1 is delivered by that secondary, under 0, and by no other |
| Addressing.PacketReturns | src/proto/fd/protocol.rs:259-528 | And back: the primary's user is given it under the secondary's number |
| Farewell.DisconnectExact | src/proto/fd/protocol.rs:241-253 | Disconnecting succeeds if and only if a service slot is free; then a DISC waits and only the state changes |
| Farewell.FramesEnd | src/proto/fd/protocol.rs:380-466 | Any frames short of a request end the connection if and only if one of them closes it; then nothing is left of it and the user is told once |
| Farewell.DiscConfirmed | src/proto/fd/protocol.rs:441-450 | A DISC that finds a free slot leaves a UA waiting, whatever follows |
| Farewell.BothEnd | src/proto/fd/protocol.rs:241-605 | One end hangs up and each takes all that the other transmits: both are disconnected with nothing left and each user told once, if a slot for the answer was free |
| Farewell.NotRepeated | src/proto/fd/protocol.rs:661 | Without an answer the end that hung up waits on; the DISC is not sent again |
| TinyFd.TinyFd.Init | src/proto/fd/protocol.rs:165-206 | What a configuration makes of a station; the codec's limit leaves room for the header |
| TinyFd.TinyFd.New | src/proto/fd/protocol.rs:160-207 | Refuses windows outside 1 to 7 and an empty receive buffer, accepts all else |
| TinyFd.TinyFd.PutUSFrame | src/proto/fd/protocol.rs:348-355 | Queues a service frame and raises the event, or reports Busy and changes nothing |
| TinyFd.TinyFd.PutIFrame | src/proto/fd/protocol.rs:357-378 | Queues under the next number, or reports Busy and changes nothing |
| TinyFd.TinyFd.SendPacket | src/proto/fd/protocol.rs:259-295 | The new station and the result are those of the specification, including every refusal; waiting changes nothing. Who is sent what: `Addressing.SendToNumber` |
| TinyFd.TinyFd.TakeAck | src/proto/fd/protocol.rs:479-491 | Confirms up to N(R), releases those frames of this peer, updates the bit |
| TinyFd.TinyFd.OnIFrameReceived | src/proto/fd/protocol.rs:468-528 | Takes the acknowledgement, then delivers and acknowledges the expected frame or rejects once |
| TinyFd.TinyFd.OnSFrameReceived | src/proto/fd/protocol.rs:530-564 | Takes the acknowledgement; RR restores the retries, REJ and SREJ rewind. What is then sent: `Recovery.RequestResends` |
| TinyFd.TinyFd.OnUFrameReceived | src/proto/fd/protocol.rs:414-466 | Handshake and disconnection, by kind and state; the effects are those of `Reactions` and `Farewell` |
| TinyFd.TinyFd.OnFrameReceived | src/proto/fd/protocol.rs:380-412 | Dispatch by address, kind and state; a data frame to an unconnected peer is answered with DM |
| TinyFd.TinyFd.SwitchToConnected | src/proto/fd/protocol.rs:566-587 | Resets the counters once, on the change of state, and reports it |
| TinyFd.TinyFd.SwitchToDisconnected | src/proto/fd/protocol.rs:589-605 | Resets the counters, drops the peer's frames, reports it |
| TinyFd.TinyFd.Disconnect | src/proto/fd/protocol.rs:241-253 | Queues DISC for the first peer, or reports Busy and changes nothing |
| TinyFd.TinyFd.CheckTimeouts | src/proto/fd/protocol.rs:607-664 | The loop treats the peers in order, each by its state and timers; the outcome for all of them is `Timers.EveryPeerTicks` |
| TinyFd.TinyFd.GenerateTxFrames | src/proto/fd/protocol.rs:666-711 | An idle codec gets the first service frame, else the first peer's next I-frame with the current N(R); a busy one is left alone |
| TinyFd.TinyFd.OnRxData | src/proto/fd/protocol.rs:298-319 | The station does what the frames of the pure fold ask for, in order; everything is consumed and damaged frames are skipped |
| TinyFd.TinyFd.GetTxData | src/proto/fd/protocol.rs:323-344 | Exactly as many octets as fit come out, and they are the front of what was owed followed by the encoding of the frame chosen now; the rest stays owed |
| SessionTheorems.RunGood | src/proto/fd/protocol.rs:357-378 | Every run keeps the session invariant until the session ends, and in-order delivery even then |
| SessionTheorems.DeliveryIsPrefix | src/proto/fd/protocol.rs:468-564 | In every run, in both directions at once, what is delivered is a prefix of what was accepted |
| SessionTheorems.NoPrematureRelease | src/proto/fd/protocol.rs:479-488 | Confirmed, delivered and sent are ordered and within seven; every accepted undelivered payload is still queued under its number |
| SessionTheorems.HandshakeSafe | src/proto/fd/protocol.rs:414-440 | No DM or DISC is produced, each station resets once before any data, a SABM or UA precedes all that a peer cannot take yet |
| SessionTheorems.OneAnswerSuffices | src/proto/fd/protocol.rs:499-527 | Never holding two supervisory frames implies the condition under which I-frames are taken |
| Healing.RejectTaken | src/proto/fd/protocol.rs:552-557 | A station that takes a REJ for the frame its peer expects is back where a lossless exchange starts |
| Healing.RejectAnswered | src/proto/fd/protocol.rs:552-557 | Whatever else is under way, the frame sent after a REJ is the frame it asks for, with its payload |
| Healing.RejectLost | src/proto/fd/protocol.rs:496-506 | If the REJ is lost too, only one more frame is missing |
| Healing.TimerHeals | src/proto/fd/protocol.rs:645-659 | From there the retry timer leads back to where an exchange starts |
| Healing.LossHealed | src/proto/fd/protocol.rs:496-564 | Any number of frames lost in a row are sent again when one behind them arrives, and the exchange then delivers and acknowledges all that was accepted |
| Healing.SilenceHealed | src/proto/fd/protocol.rs:645-659 | If the last frames are lost, so that no REJ comes, the retry timer does the same |
| Unheard.NeverAcknowledged | src/proto/fd/protocol.rs:496-506 | All delivered, not all acknowledged, the REJ said: whatever the clock, the channel and the stations do without another packet, the frames stay unacknowledged or the session ends |
| Unheard.UnheardReached | src/proto/fd/protocol.rs:496-506 | Such a state is reached by losing one acknowledgement and one REJ |
| Unheard.SettlesIff | src/proto/fd/protocol.rs:468-664 | When nothing is under way and retries are left, all that was accepted can still be delivered and acknowledged, if and only if it is not that state |
| SessionProof.SendInv | src/proto/fd/protocol.rs:259-295 | Sending keeps the session invariant |
| SessionProof.LoseInv | src/proto/fd/protocol.rs:298-319 | Losing any I- or S-frame keeps it |
| SessionProof.TimerInv | src/proto/fd/protocol.rs:607-664 | Dialling and rewinding keep it; giving up ends the session with delivery in order |
| SessionProof.TransmitInv | src/proto/fd/protocol.rs:666-711 | Transmitting keeps it: what goes out is in the window when it is sent |
| SessionReceive.ReceiveI | src/proto/fd/protocol.rs:468-528 | Three bits decide rightly whether the frame is the next one |
| SessionReceive.ReceiveS | src/proto/fd/protocol.rs:530-564 | An acknowledgement that arrives lies in the window |
| SessionReceive.ReceiveU | src/proto/fd/protocol.rs:414-440 | SABM and UA connect without losing or repeating anything |
| OutOfOrder.OlderClears | src/proto/fd/i_queue_control.rs:97-103 | An acknowledgement older than the window, by up to seven, releases everything in it |
| OutOfOrder.ArriveSwapped | src/proto/fd/protocol.rs:468-564 | Whatever else is under way, an acknowledgement followed by an older one leaves nothing in the sender's queue |
| OutOfOrder.Flush | src/proto/fd/protocol.rs:671-680 | Service frames leave in slot order, not in the order in which they were queued |
| OutOfOrder.Overtaken | src/proto/fd/frame_queue.rs:88-93 | In any state of a session, if the frame in front is taken against the condition, the sender's queue is empty once everything has crossed; what was not delivered is lost |
| OutOfOrder.ReceiveInvIff | src/proto/fd/protocol.rs:496-527 | Taking an I-frame keeps the session invariant if and only if its answer will not overtake another |
| LostFrames.SendMany | src/proto/fd/protocol.rs:259-295 | While slots are free, every send of legal size is accepted |
| LostFrames.Connect | src/proto/fd/protocol.rs:841-854 | A request and its confirmation connect two configured stations |
| LostFrames.LastSlotReached | src/proto/fd/frame_queue.rs:88-93 | Ordinary rounds bring the receiver's search to the last slot |
| LostFrames.OvertakingReached | src/proto/fd/protocol.rs:666-711 | From there two frames in a row lead to a state in which the condition fails |
| LostFrames.FrameLost | src/proto/fd/protocol.rs:479-488 | Two configured stations connect, and from there, by sending, transmitting and receiving alone, a state is reached in which an accepted, undelivered packet is no longer queued |
| LostFrames.PacketsSkipped | src/proto/fd/protocol.rs:468-528 | In the same way, with a window of seven, the thirteenth accepted packet is delivered as the fifth |
| Exactness.Catch | src/proto/fd/frame_queue.rs:86-97 | After a frame taken against the condition, keeping it, the sender comes to know of the newer acknowledgement with the older one next to arrive |
| Exactness.CaughtReleases | src/proto/fd/i_queue_control.rs:97-103 | Then a frame that was not delivered is released, for every window |
| Exactness.CaughtMisdelivers | src/proto/fd/protocol.rs:468-528 | Then, with a window of seven, another payload is delivered in place of the expected one |
| Exactness.ReleaseExactIff | src/proto/fd/protocol.rs:479-527 | For every window and every reachable state: all continuations that keep the condition keep what is not delivered, if and only if the frame in front keeps it |
| Exactness.DeliveryExactIff | src/proto/fd/protocol.rs:468-528 | For a window of seven: all continuations that keep the condition deliver in order, if and only if the frame in front keeps it; the frame is the one expected, or not all seven are delivered and unconfirmed |
| Quiescence.TurnKeeps | src/proto/fd/protocol.rs:857-872 | Each turn with something to transmit lowers the measure of work left; an idle turn changes nothing |
| Quiescence.ExchangeSettles | src/proto/fd/protocol.rs:857-872 | The exchange ends with everything delivered and acknowledged, windows empty, counters equal, both ways |
| Quiescence.InitInTurn | src/proto/fd/protocol.rs:841-854 | Two freshly connected stations may start the exchange |
| Quiescence.SendInTurn | src/proto/fd/protocol.rs:259-295 | So may they after any sends on either side |
| Settling.MoveLowers | src/proto/fd/protocol.rs:468-711 | Every transmission and every reception, by either station, lowers the work that is left, frames under way included |
| Settling.TakesOrSends | src/proto/fd/protocol.rs:666-711 | A station to which something is under way can take it, or has something to transmit first |
| Settling.RestIsSettled | src/proto/fd/protocol.rs:857-872 | Where neither station can act, everything is delivered and acknowledged and the counters are equal, both ways |
| Settling.EveryRunSettles | src/proto/fd/protocol.rs:857-872 | So every interleaving ends, within the work it started with, in such a state |
| Settling.InTurnFlows | src/proto/fd/protocol.rs:841-854 | It may start after a connection and any sends |
| Wire.GenerateSized | src/proto/fd/protocol.rs:666-711 | Every frame handed to the codec has 2 to mtu + 2 octets |
| Wire.OnFrameSized | src/proto/fd/protocol.rs:380-412 | Received frames keep the queues within the limit |
| Wire.SendPacketSized | src/proto/fd/protocol.rs:260-262 | So does sending |
| Wire.RoundSized | src/proto/fd/protocol.rs:323-344 | So does a call for transmission, timers included, and its frame is within the limit |
| Wire.LinkIsFifo | src/proto/fd/protocol.rs:171-177 | The peer decodes a prefix of the frames handed over, without error, and all of them once nothing is owed |
| Wire.ConfiguredInit | src/proto/fd/protocol.rs:160-207 | A primary for one peer and the secondary numbered 1, as configured, are a session's start |
| Octets.PollShows | src/proto/fd/protocol.rs:323-344 | A call for transmission with any buffer is a timer step and at most one transmission of the session |
| Octets.FeedShows | src/proto/fd/protocol.rs:298-319 | Octets fed in any portion are receptions of the session, one for each frame they complete |
| Octets.DamageLoses | src/proto/hdlc/low_level_ll.rs:215-273 | Replacing a plain octet under way by another makes the I- or S-frame around it, and no other, not come out, wherever the rest of that frame is |
| Octets.DamageShows | src/proto/hdlc/low_level_ll.rs:244-281 | Damage of any octet that only makes I- and S-frames not come out is losses of the session |
| Octets.OctetsRefineSession | src/proto/fd/protocol.rs:298-344 | Every run of stations, codecs and octets is a run of the session |
| Octets.DeliveredOverOctets | src/proto/fd/protocol.rs:298-344 | End to end in octets, whatever is cut, delayed or damaged: delivered is a prefix of accepted, both ways |

## Left out

- SessionTheorems.DeliveryIsPrefix: runs take an I-frame only if its answer will not overtake another, because without that it is false (`LostFrames.PacketsSkipped`, `Exactness.DeliveryExactIff`); U-frames are not lost, users send only while connected (otherwise `EarlyPackets.EarlyPacketReplaces`), and the retry timer of an unanswered SABM does not fire.
- Exactness.DeliveryExactIff: does not decide windows below seven, where a wrong payload needs the overtaken acknowledgement to be further behind, nor a refused frame while all seven frames of a full window are delivered and unconfirmed; `Exactness.ReleaseExactIff` has neither limit.
- SessionTheorems.NoPrematureRelease: stated while the session lasts; once a station has left Connected its counters and queue are reset and nothing is claimed beyond in-order delivery.
- SessionTheorems.HandshakeSafe: does not cover a second SABM on a connected link, nor SABM while disconnecting; both reset, or fail to reset, counters under queued frames, which `Isolation.TameIff` describes for one station.
- SessionTheorems.RunGood: the two stations have one peer each; for a primary with several peers the theorems are those of `Isolation` and `StationRun`, about one station, because its peers' answers share one service queue.
- Settling.EveryRunSettles: a reception whose answer finds no free slot is not a move; the answer would be dropped and the last acknowledgement with it.
- Octets.DeliveredOverOctets: damage may make any I- and S-frames not come out; an undetected change, which any check field allows, and the loss of U-frames are not covered. Octets are fed under the condition of the session.
- TinyFd.TinyFd.SendPacket: the wait counts its milliseconds down; nothing can raise the event meanwhile, because the call holds the station exclusively and the event group is its private field.
- TinyFd.TinyFd.CheckTimeouts: whether a timer has elapsed is an input for each peer; timestamps and durations are not modelled.
- HdlcLl.HdlcLl.RunRx: that a frame cut off at the limit fails its check is not claimed, because it need not.
- IQueueControl.IQueueControl.ConfirmSentFrames: the callback is the protocol's own, which collects the number and never refuses; likewise for retransmission.
- Callbacks, threads, locks and the condition variable: callbacks are appends to ghost logs, event bits are booleans.
- Fields nothing reads: the selective-reject mask, the keep-alive flag, the peer's own event bits, the queue's mtu, the capacity hint of the receive buffer.
- Integer widths of `retries`, positions and lengths: natural numbers, because none can overflow; sequence numbers, addresses, control octets and check registers are bit-vectors of the original width.
- Healing.LossHealed: the lost frames are consecutive and go one way while the other direction is at rest; losses in both directions at once are covered by safety only.
- Unheard.SettlesIff: speaks of a sender whose peer has nothing to send itself; an I-frame of the peer would carry the acknowledgement.
- Farewell.BothEnd: each station has one peer, and no request for a connection takes part; a SABM that crosses a DISC connects again.
- Addressing.SendToNumber: at most 63 peers, because the 64th shares its address with the primary and later ones share theirs with earlier peers; `Addressing.UnknownIff` has no such limit.
- Reconnection after a session ends, and liveness over a link that never stops losing frames: the code does not promise them.
- NRM polling, selective reject and round-robin among peers: not part of the code's behaviour beyond what is modelled.
- `high_level.rs`, `light.rs`, `node.rs` and `frame.rs`: wrappers around the modelled layers.
