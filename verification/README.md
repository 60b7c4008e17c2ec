# A verified model of openhop_core

openhop_core lets a host talk to a LoRa modem and act as a companion node of a
mesh. This project models, in Dafny, the parts where a mistake loses or invents
packets: the modem's wire framing and its CRC, the KISS codec, the threads of the
KISS modem host, the companion's bounded tables and contact store, its frame-login
sessions, and its request driver.

| file | models |
|---|---|
| `Bytes.dfy`, `Options.dfy`, `Sequences.dfy` | bytes, bitwise exclusive or, optional values, one sequence operation |
| `Crc16.dfy`, `CrcOrder.dfy`, `CrcCodeword.dfy`, `CrcCheck.dfy` | CRC-16/CCITT-FALSE and what damage it detects; the order of x modulo its polynomial; errors in a message and its CRC together; its check value |
| `WireFraming.dfy` | `SYNC CMD LEN PAYLOAD CRC` frames and the receive loop of the USB and TCP drivers |
| `KissCodec.dfy` | KISS encoder, byte-wise decoder and bulk decoder of the modem and serial wrappers |
| `ModemFrames.dfy` | how the modem host sorts a decoded frame |
| `SetHardware.dfy`, `TxVerdict.dfy`, `TxReasons.dfy`, `RxPairing.dfy` | the three protocols between the host's threads |
| `Recency.dfy` | ordered dictionaries, and "the latest entry of every key" |
| `PacketFilter.dfy` | the packet-hash cache, the duplicate filter and the blacklist |
| `MessageQueue.dfy`, `RecencyTables.dfy` | the offline queue, the path cache, the ACK table |
| `ContactStore.dfy`, `ContactLoad.dfy`, `Adverts.dfy`, `AdvertOverlap.dfy` | the contact store and its bulk load, the advert pipeline that drives it, and advert events that overlap |
| `FrameLogin.dfy` | login sessions reused across a client's retries, and the plain logins that share their callback slot |
| `FloodScope.dfy`, `Retry.dfy` | the region of a flood, and the request driver |

Objects the code updates in place are classes; each of their methods is tied by its
contract to a function of the old state, and the theorems are about those functions
over whole runs. Code that runs on several threads, or across awaits, is a step
system: a step is a region under a lock, one unprotected assignment, or a stretch
between two awaits, and the theorems range over every sequence of steps. Clocks,
reads, link failures, reply arrival and the writes of other tasks are inputs of the
steps. Times are reals.

## What turned out differently from the documentation

The model follows the code. Where the code does not do what its comments say, there
is a witness and the exact condition.

- Both bulk decoders are documented as "behaviorally identical" to the byte-wise
  ones. They are not: `KissCodec.DecodersDiffer` has a stream they read differently,
  and `KissCodec.DecodersAgreeIffClean` says exactly when they agree.
- The serial driver accepts 512 bytes to send, but its decoder counts the command
  byte in its limit of 512, and port 12 turns the command byte of a data frame into a
  delimiter: `KissCodec.SerialSendReachesIff`.
- `build_frame` accepts payloads up to 65535 bytes and the receive loop only up to
  287: `WireFraming.FrameReturnsIffWithinCap`.
- The store's capacity is not an invariant: an `add`, `update`, `add_or_overwrite` or
  `add_transient` that puts a real contact under the key of a transient one is not
  checked, nor is an `add_transient` of a new real one.
  `ContactStore.PromotionBreaksCap` is a run; `ContactStore.CapsHoldIff` is exact. Saving
  and loading such a store loses a contact: `ContactLoad.ReloadRestoresIff`.
- `add` is documented to return False for a key that exists, and `update` for one that
  does not. Each calls the other and stores the contact, unless it is new and the store
  is full.
- Signal metrics do not always follow their packet: `RxPairing.FlushedMetricsSlip` is a
  run, and `RxPairing.MetricsMeetTheirPacketIff` says that every run keeps the pairing
  exactly as long as every step meets the guard of its branch.
- A login can be left waiting where no reply reaches it: by a command that joins, or by
  a clear, before the owner's first send is resolved (`FrameLogin.JoinOrphans`,
  `FrameLogin.ClearOrphans`), and by a plain login for the same key, which takes the
  one callback slot of that key and never gives it back
  (`FrameLogin.PlainLoginOrphans`, `FrameLogin.LostSlotStaysLost`).
  `FrameLogin.ReachableIffNeverOrphans` is exact over every run.
- A SetHardware command can be answered by a reply that arrived before it:
  `SetHardware.OldReplyAnswers`; `SetHardware.PredatesIff` says exactly when. So can one
  that has not written its request yet: `SetHardware.EarlyReplyAnswers` and
  `SetHardware.OlderThanRequestIff`.
- A DATA send only queues its frame; a worker thread writes it later. The send can be
  told a status that is no answer to its frame: one that came before the frame was
  queued (`TxVerdict.ConfirmedBeforeWritten`), one that came while it was still in the
  buffer (`TxVerdict.ConfirmedWhileBuffered`), or the TX_DONE of a frame that an earlier
  send left there (`TxVerdict.LeftoverFrameConfirms`). `TxVerdict.ToldTooEarlyIff` says
  exactly when, and `TxVerdict.VerdictIsEarned` has the bound that always holds.
- Every attempt after the first is documented to flood. A proxy that refuses to have its
  route masked stays on it: `Retry.RefusedMaskGoesDirect`; `Retry.RetryFloodsIff` is exact.
- Advert events are tasks of their own and can overlap at the callbacks they await. Then
  a client that follows the callbacks can be left with an older contact than the store
  has: `AdvertOverlap.OverlapMisleads`; `AdvertOverlap.ConsistentIffNeverDisturbs` is exact.

## Model

| member | source | states |
|---|---|---|
| `Crc16.ShiftOut` | src/openhop_core/hardware/protocol_constants.py:114-119 | the inner shift loop, for any number of bits, computes the iterated bit step |
| `Crc16.Crc16Ccitt` | src/openhop_core/hardware/protocol_constants.py:109-120 | the nested loop computes the CRC function that every theorem below is about |
| `Crc16.CrcIsFeed` | src/openhop_core/hardware/protocol_constants.py:109-120 | the byte-wise integer register, mixed in eight bits at a time, equals a 16-bit serial shift register fed the message one bit at a time |
| `Crc16.CrcIsSerial` | src/openhop_core/hardware/protocol_constants.py:109-120 | for every message the CRC is the serial register started with sixteen set bits and fed the message, most significant bit first |
| `CrcCheck.CheckValue` | tests/hardware/test_protocol_constants.py:35-42 | the check value of CRC-16/CCITT-FALSE: the nine ASCII digits give 0x29B1 |
| `Crc16.CrcBound` | src/openhop_core/hardware/protocol_constants.py:109-120 | the CRC fits two bytes for every message |
| `Crc16.StepLinear` | src/openhop_core/hardware/protocol_constants.py:115-119 | one shift is linear over exclusive or |
| `Crc16.FeedLinear` | src/openhop_core/hardware/protocol_constants.py:109-120 | the difference of two registers depends only on the difference of their starts and of their messages |
| `Crc16.FeedClear` | src/openhop_core/hardware/protocol_constants.py:109-120 | zero bits never make a non-clear register clear, nor a clear one non-clear |
| `Crc16.BurstDetected` | src/openhop_core/hardware/protocol_constants.py:109-120 | messages of any equal length that differ, and only inside some 16 consecutive bits at any bit offset, have different CRCs |
| `Crc16.AdjacentBytesDetected` | src/openhop_core/hardware/protocol_constants.py:109-120 | any change confined to two adjacent bytes, anywhere in a message of any length, changes the CRC |
| `Crc16.OddErrorsDetected` | src/openhop_core/hardware/protocol_constants.py:109-120 | messages that differ in an odd number of bits, wherever they are, have different CRCs |
| `CrcOrder.PowerPlus` | src/openhop_core/hardware/protocol_constants.py:109-120 | the register after m + n steps from 1 is the product of those after m and after n, modulo the polynomial |
| `CrcOrder.OrderOfX` | src/openhop_core/hardware/protocol_constants.py:109-120 | stepping the register from 1 returns to 1 exactly after the multiples of 32767 steps |
| `CrcOrder.EqualCrcsIff` | src/openhop_core/hardware/protocol_constants.py:109-120 | two messages of one length share a CRC exactly when their difference leaves a clear register clear |
| `CrcOrder.DoubleErrorMissedIff` | src/openhop_core/hardware/protocol_constants.py:109-120 | messages of any one length that differ in exactly two bits share a CRC exactly when these are a multiple of 32767 bits apart |
| `CrcOrder.FewErrorsDetected` | src/openhop_core/hardware/protocol_constants.py:109-120 | in messages of up to 4095 bytes every change of one, two or three bits, wherever they are, changes the CRC |
| `CrcCodeword.MissedIff` | src/openhop_core/hardware/protocol_constants.py:109-139 | a changed message passes with a changed CRC exactly when the register, fed the change of the message, ends as the change of the CRC |
| `CrcCodeword.PowersEqualIff` | src/openhop_core/hardware/protocol_constants.py:109-139 | two powers of x are equal exactly when their exponents differ by a multiple of 32767 |
| `CrcCodeword.FewCodewordErrorsDetected` | src/openhop_core/hardware/protocol_constants.py:109-139 | one, two or three flipped bits in a message of up to 4093 bytes and its CRC together never make another message with its CRC |
| `CrcCodeword.BorderMissedIff` | src/openhop_core/hardware/protocol_constants.py:109-139 | a change of the last byte and of the low CRC byte that follows it passes exactly when they change by 0x89 and 0xA1 |
| `WireFraming.BuildFrame` | src/openhop_core/hardware/protocol_constants.py:123-139 | the frame byte by byte: 0xAA, the command, the length low byte first, the payload, and the CRC of all but the first byte, low byte first; fails exactly for payloads over 65535 bytes |
| `WireFraming.PingFrame` | src/openhop_core/hardware/protocol_constants.py:123-139 | a ping is AA FF 00 00 FF 03 |
| `WireFraming.RxWorker.constructor` | src/openhop_core/hardware/usb_radio.py:987-1005 | starts with an empty buffer and nothing dispatched |
| `WireFraming.RxWorker.FindSync` | src/openhop_core/hardware/usb_radio.py:1006-1050 | finds the first SYNC of the buffer, or that there is none |
| `WireFraming.RxWorker.Receive` | src/openhop_core/hardware/usb_radio.py:1006-1050 | one read terminates, and takes buffer and dispatched frames to the state the handler function gives |
| `WireFraming.RxWorker.LinkLost` | src/openhop_core/hardware/tcp_radio.py:833-856 | losing the link drops the buffer and dispatches nothing |
| `WireFraming.DrainPrefix` | src/openhop_core/hardware/usb_radio.py:1006-1050 | whatever bytes come later, parsing the whole equals the frames dispatched now, then parsing the kept bytes with the later ones |
| `WireFraming.ResidueIsBounded` | src/openhop_core/hardware/usb_radio.py:1006-1050 | the bytes kept after a read hold no complete frame and are at most 292 |
| `WireFraming.ChunkIndependence` | src/openhop_core/hardware/tcp_radio.py:864-905 | for every stream, every cutting into reads and every placement of link losses, exactly the frames of one offline recursive parser on each session are dispatched, and at most 292 bytes are buffered |
| `WireFraming.WireParses` | src/openhop_core/hardware/usb_radio.py:1006-1050 | a built frame within the cap, in front of anything, is delivered and what follows is parsed as if alone |
| `WireFraming.RoundTrip` | src/openhop_core/hardware/protocol_constants.py:123-139 | concatenated frames with payloads up to 287 bytes parse back to exactly the same list |
| `WireFraming.FrameReturnsIffWithinCap` | src/openhop_core/hardware/usb_radio.py:1006-1050 | of the frames `build_frame` accepts, exactly those with at most 287 payload bytes come back |
| `WireFraming.ParsedPayloadsFit` | src/openhop_core/hardware/usb_radio.py:1006-1050 | no stream makes the receiver deliver a payload over 287 bytes |
| `WireFraming.CutDelivers` | src/openhop_core/hardware/usb_radio.py:1006-1050 | starting anywhere in a stream of frames without inner SYNC bytes loses the frames before and the one cut, no other |
| `WireFraming.ResyncAfterGarbage` | src/openhop_core/hardware/usb_radio.py:1006-1050 | after any garbage, every frame that starts 292 or more bytes past it is delivered, in order, with nothing after (frames without inner SYNC bytes) |
| `WireFraming.DamageIsContained` | src/openhop_core/hardware/usb_radio.py:1006-1050 | damage inside two adjacent bytes of command or payload costs that frame and nothing else, whatever follows |
| `WireFraming.FewBitErrorsAreContained` | src/openhop_core/hardware/usb_radio.py:1006-1050 | one, two or three flipped bits anywhere in command, payload and CRC field together cost that frame and nothing else, whatever follows |
| `WireFraming.CrcDamageIsContained` | src/openhop_core/hardware/usb_radio.py:1006-1050 | so does any damage of the CRC field |
| `WireFraming.BorderDamageMissedIff` | src/openhop_core/hardware/usb_radio.py:1006-1050 | changing the last payload byte and the low CRC byte yields another valid frame exactly when they change by 0x89 and 0xA1, and otherwise costs that frame and nothing else |
| `KissCodec.KissDecoder.constructor` | src/openhop_core/hardware/kiss_modem_wrapper.py:345-347 | a fresh decoder is outside a frame, with nothing buffered and no error |
| `KissCodec.KissDecoder.DecodeByte` | src/openhop_core/hardware/kiss_modem_wrapper.py:2136-2178 | the byte-wise decoder is the delimiter-first automaton, in either dialect |
| `KissCodec.KissDecoder.Find` | src/openhop_core/hardware/kiss_modem_wrapper.py:2219-2220 | the first position of a byte from a start, or that there is none |
| `KissCodec.KissDecoder.TakeEscaped` | src/openhop_core/hardware/kiss_modem_wrapper.py:2202-2216 | the byte behind an escape: only the two transposed codes are data, capped in the serial dialect and not in the modem's |
| `KissCodec.KissDecoder.TakeRun` | src/openhop_core/hardware/kiss_modem_wrapper.py:2228-2242 | a run of plain bytes is appended whole, or costs one error and the frame |
| `KissCodec.KissDecoder.TakeDelimiter` | src/openhop_core/hardware/kiss_modem_wrapper.py:2247-2258 | a delimiter outside an escape takes the automaton's step |
| `KissCodec.KissDecoder.Decode` | src/openhop_core/hardware/kiss_modem_wrapper.py:2180-2261 | the bulk decoder, run by run, is the byte-by-byte fold of the escape-first automaton |
| `KissCodec.ChunkIndependence` | src/openhop_core/hardware/kiss_modem_wrapper.py:2180-2261 | from every state, every chunking of a stream gives the same frames, error count and final state as the whole |
| `KissCodec.StepsAgreeIff` | src/openhop_core/hardware/kiss_serial_wrapper.py:606-740 | on one byte the two decoders agree exactly unless FEND or FESC meets a pending escape |
| `KissCodec.DecodersAgreeIffClean` | src/openhop_core/hardware/kiss_modem_wrapper.py:2136-2261 | they agree after every prefix of a stream, in frames, errors and state, exactly when no pending escape meets FEND or FESC |
| `KissCodec.NoSplitEscapeIsClean` | src/openhop_core/hardware/kiss_serial_wrapper.py:606-740 | a condition on the bytes alone that makes a stream such |
| `KissCodec.DecodersDiffer` | src/openhop_core/hardware/kiss_modem_wrapper.py:2143-2156 | on C0 00 41 DB C0 the byte-wise decoder delivers 00 41, the bulk decoder nothing and one error |
| `KissCodec.EncodeFrame` | src/openhop_core/hardware/kiss_modem_wrapper.py:2108-2134 | C0, the raw command, bytes without C0 in which every DB is followed by DC or DD and which stand for the data, C0 |
| `KissCodec.EscapeMeansData` | src/openhop_core/hardware/kiss_modem_wrapper.py:2108-2134 | for all data, reading DB DC as C0, DB DD as DB and every other byte as itself gives the data back |
| `KissCodec.DecodersUnescape` | src/openhop_core/hardware/kiss_modem_wrapper.py:2136-2261 | both decoders add to a frame, within 512 bytes, exactly what well-escaped bytes stand for, read in those bytes |
| `KissCodec.WireFrameDecodes` | src/openhop_core/hardware/kiss_modem_wrapper.py:2136-2261 | a fresh decoder makes of the bytes between two C0 the frame they stand for: one to 512 bytes, two to 512 for serial |
| `KissCodec.SerialCommandCollides` | src/openhop_core/hardware/kiss_serial_wrapper.py:575-604 | which ports and commands give a raw command byte that is a delimiter |
| `KissCodec.FramesDecode` | src/openhop_core/hardware/kiss_modem_wrapper.py:2108-2261 | behind any stream of encoded frames: exactly the deliverable ones in order, and one error for each over the cap |
| `KissCodec.StreamDecodes` | src/openhop_core/hardware/kiss_modem_wrapper.py:2108-2261 | for every decoder state, list of encoded frames and chunking: a pending escape costs the first frame and one error, otherwise nothing is lost |
| `KissCodec.AllDelivered` | src/openhop_core/hardware/kiss_serial_wrapper.py:575-740 | frames with at most 511 data bytes, and at least one for serial, are all delivered, unchanged and in order, without error |
| `KissCodec.FrameReturnsIff` | src/openhop_core/hardware/kiss_serial_wrapper.py:575-740 | one frame returns exactly when its command byte is no delimiter, its data fits and, for serial, is not empty |
| `KissCodec.SerialSendReachesIff` | src/openhop_core/hardware/kiss_serial_wrapper.py:200-215 | what the serial driver agrees to send reaches a peer exactly when the port is not 12 and there are 1 to 511 bytes |
| `KissCodec.EncodedStreamsAreClean` | src/openhop_core/hardware/kiss_modem_wrapper.py:2108-2134 | no stream the encoder produces has a FESC before FEND or FESC, and each begins and ends with FEND |
| `KissCodec.DecodersAgreeOnEncoded` | src/openhop_core/hardware/kiss_serial_wrapper.py:606-740 | on everything the encoder produces, from every state without a pending escape, the two decoders agree after every prefix |
| `SetHardware.ResponseBox.constructor` | src/openhop_core/hardware/kiss_modem_wrapper.py:419-424 | the mailbox starts empty and unarmed |
| `SetHardware.ResponseBox.Deliver` | src/openhop_core/hardware/kiss_modem_wrapper.py:2390-2417 | a reply goes to the armed command if that expects it, replacing an earlier one, otherwise to the bounded queue that drops its oldest |
| `SetHardware.ResponseBox.TakeQueuedOrArm` | src/openhop_core/hardware/kiss_modem_wrapper.py:1428-1482 | the queue scan takes out only the first acceptable reply and keeps the order of the rest; without one the mailbox is armed |
| `SetHardware.ResponseBox.Disarm` | src/openhop_core/hardware/kiss_modem_wrapper.py:1478-1482 | leaving a command stops it expecting and changes nothing else |
| `SetHardware.SingleFlight` | src/openhop_core/hardware/kiss_modem_wrapper.py:1399-1482 | every step of callers, receive thread and shutdown keeps the single-flight invariant |
| `SetHardware.SingleFlightFromStart` | src/openhop_core/hardware/kiss_modem_wrapper.py:1399-1482 | over every interleaving each returned reply arrived, is in its own caller's acceptable set, is no TX_DONE, RX_META or TX_BUSY, and answers one command only |
| `ModemFrames.RouteIff` | src/openhop_core/hardware/kiss_modem_wrapper.py:2297-2417 | each kind of frame by its bytes, both ways: data 00, metrics 06 F9, TX_DONE 06 F8, TX_BUSY 06 F1 07, any other 06 a reply |
| `SetHardware.AcceptableIff` | src/openhop_core/hardware/kiss_modem_wrapper.py:1428-1435 | a command is answered by its code with the top bit set and by F1; 09, 0A, 18 and 19 also by F0, and 19 by 9A; by nothing else |
| `SetHardware.MatchingReplyReturns` | src/openhop_core/hardware/kiss_modem_wrapper.py:2390-2417 | in every reachable state a waiting command returns the next matching reply; any other joins the newest 32 queued and leaves it waiting |
| `SetHardware.WokenHasReply` | src/openhop_core/hardware/kiss_modem_wrapper.py:1451-1482 | in every run without a shutdown a command that wakes finds its reply |
| `SetHardware.EmptyReturns` | src/openhop_core/hardware/kiss_modem_wrapper.py:1451-1482 | a command returns empty when its request cannot be written, when it gives up, and when a shutdown wakes it without a reply |
| `SetHardware.PredatesIff` | src/openhop_core/hardware/kiss_modem_wrapper.py:1428-1482 | a command returns a reply older than itself exactly when its scan finds an acceptable older one queued; what it waits for is always newer |
| `SetHardware.OldReplyAnswers` | src/openhop_core/hardware/kiss_modem_wrapper.py:1428-1450 | a run in which a reply nobody asked for answers the next command of its kind |
| `SetHardware.OlderThanRequestIff` | src/openhop_core/hardware/kiss_modem_wrapper.py:1451-1471 | a command that wrote its request returns a reply that came before the write exactly when it already had one then and none that it accepts came in since |
| `SetHardware.EarlyReplyAnswers` | src/openhop_core/hardware/kiss_modem_wrapper.py:1451-1471 | a run in which a reply comes after arming and before the write |
| `TxVerdict.RunKeepsInv` | src/openhop_core/hardware/kiss_modem_wrapper.py:1345-1397 | assignment by assignment of the sender, the workers, the receive thread and whoever closes, stops or reopens the link, a stored result belongs to the current sender's window |
| `TxVerdict.VerdictIsEarned` | src/openhop_core/hardware/kiss_modem_wrapper.py:1345-1397 | over every interleaving, True is returned only if a TX_DONE with status 0x01 was processed after the send cleared the result and before it returned, and no other was stored later; a bad status and an abort are what they say |
| `TxVerdict.ConfirmedBeforeWritten` | src/openhop_core/hardware/kiss_modem_wrapper.py:1345-1352 | a run in which a TX_DONE that comes before the frame is queued confirms it |
| `TxVerdict.ConfirmedWhileBuffered` | src/openhop_core/hardware/kiss_modem_wrapper.py:1264-1267 | a run in which one that comes while the frame is still buffered does |
| `TxVerdict.LeftoverFrameConfirms` | src/openhop_core/hardware/kiss_modem_wrapper.py:2489-2508 | a run in which the frame of a send that gave up is written in the window of the next and its TX_DONE confirms that one, its own frame still buffered |
| `TxVerdict.AllWritesRecorded` | src/openhop_core/hardware/kiss_modem_wrapper.py:2489-2508 | over every run a frame is in one place only, queued, taken out or written; each is written at most once, after it was queued; and the record of finished sends says which step wrote their frame, if one had |
| `TxVerdict.ToldTooEarlyIff` | src/openhop_core/hardware/kiss_modem_wrapper.py:1345-1397 | over every run, the status a send is told is older than the write of its own frame exactly when that frame had not been written before the return, or no status was stored between its write and the return; and the step recorded as that write is the one that writes it |
| `TxReasons.ReasonsHold` | src/openhop_core/hardware/kiss_modem_wrapper.py:1345-1397 | over every interleaving the reason of every finished send was true at the step at which it returned: refused, lost link, shutdown, busy or silent modem, and what the stored result said |
| `TxReasons.RefusedIff` | src/openhop_core/hardware/kiss_modem_wrapper.py:1260-1272 | a send is refused exactly when its frame is not taken or 1024 are waiting |
| `TxReasons.PollingSenderIsTold` | src/openhop_core/hardware/kiss_modem_wrapper.py:1358-1367 | a polling sender is told of a lost link exactly when the link is degraded or stopped, is woken by whoever sets the event, and reads the result stored by then |
| `TxReasons.DoneFrameIsTold` | src/openhop_core/hardware/kiss_modem_wrapper.py:2368-2372 | a TX_DONE frame wakes it with its status, or without one with the result as it was |
| `TxReasons.LateSenderIsTold` | src/openhop_core/hardware/kiss_modem_wrapper.py:1369-1382 | when its time is up it is told of a shutdown if there is one, else of a busy modem if one was noted, else that nothing came |
| `TxReasons.TimeoutMentionsBusyIff` | src/openhop_core/hardware/kiss_modem_wrapper.py:1345-1382 | over every interleaving a timed-out send mentions a busy modem exactly when a TX_BUSY was noted between its clearing of that mark and its return |
| `TxVerdict.BusyIsTransparent` | src/openhop_core/hardware/kiss_modem_wrapper.py:2374-2402 | deleting every TX_BUSY frame of a run changes no verdict, only the wording of a timeout |
| `RxPairing.PendingRx.constructor` | src/openhop_core/hardware/kiss_modem_wrapper.py:442-442 | starts with nothing pending |
| `RxPairing.PendingRx.Accept` | src/openhop_core/hardware/kiss_modem_wrapper.py:2316-2330 | a Data frame is queued with its deadline, or dropped when 64 are pending |
| `RxPairing.PendingRx.Pair` | src/openhop_core/hardware/kiss_modem_wrapper.py:2339-2366 | metrics release the oldest pending frame with them, if there is one |
| `RxPairing.PendingRx.FlushExpired` | src/openhop_core/hardware/kiss_modem_wrapper.py:2420-2441 | the head-only flush loop |
| `RxPairing.PendingRx.ClearPending` | src/openhop_core/hardware/kiss_modem_wrapper.py:2443-2447 | a link change drops what is pending and delivers nothing |
| `RxPairing.RunKeepsInv` | src/openhop_core/hardware/kiss_modem_wrapper.py:2316-2366 | over every run deadlines stay in order and at most 64 frames are pending |
| `RxPairing.WaitsForMetrics` | src/openhop_core/hardware/kiss_modem_wrapper.py:2316-2330 | a frame no metrics follow stays through every flush earlier than 0.25 seconds after it and leaves, last of all that wait and without metrics, with the first flush from then on |
| `RxPairing.OverrunsAreCounted` | src/openhop_core/hardware/kiss_modem_wrapper.py:2316-2330 | over every run each Data frame is accepted, while fewer than 64 wait, or counted as an error |
| `RxPairing.FlushIsComplete` | src/openhop_core/hardware/kiss_modem_wrapper.py:2420-2441 | looking only at the head leaves nothing expired and releases nothing early |
| `RxPairing.FlushIsTurns` | src/openhop_core/hardware/kiss_modem_wrapper.py:2420-2441 | the loop equals its lock-protected turns one after another, so other threads may run in between |
| `RxPairing.ArrivalOrderIsKept` | src/openhop_core/hardware/kiss_modem_wrapper.py:2316-2366 | between clears, delivered payloads followed by pending ones are exactly the accepted ones in arrival order |
| `RxPairing.MetricsMeetTheirPacketIff` | src/openhop_core/hardware/kiss_modem_wrapper.py:2316-2366 | over every run, flushes and clears included: after every prefix all Data frames are delivered or pending in order and the n-th metrics are on the n-th packet, exactly when each Data finds room, each metrics a frame, each flush no expired head and each clear nothing pending |
| `RxPairing.FailedGuardUnpairs` | src/openhop_core/hardware/kiss_modem_wrapper.py:2420-2447 | any step that fails its guard breaks the pairing at once |
| `RxPairing.FlushedMetricsSlip` | src/openhop_core/hardware/kiss_modem_wrapper.py:2420-2441 | a run with one expired head in which late metrics reach the wrong packet |
| `PacketFilter.NewHashCache` | src/openhop_core/protocol/packet_filter.py:111-118 | construction fails exactly for a negative TTL or a limit that is not positive |
| `PacketFilter.PacketHashCache.constructor` | src/openhop_core/protocol/packet_filter.py:111-118 | starts empty with the given TTL and limit |
| `PacketFilter.PacketHashCache.EvictExpired` | src/openhop_core/protocol/packet_filter.py:120-125 | drops the expired entries at the head |
| `PacketFilter.PacketHashCache.CheckAndAdd` | src/openhop_core/protocol/packet_filter.py:127-143 | answers whether the key is still cached, then refreshes and bounds the table |
| `PacketFilter.EvictIsFit` | src/openhop_core/protocol/packet_filter.py:120-125 | on the ordered table, evicting from the head removes every expired entry and no other |
| `PacketFilter.NoLongerSuffixFits` | src/openhop_core/protocol/packet_filter.py:120-143 | the longest fitting suffix is the longest: no longer one is short and young enough |
| `PacketFilter.CacheEqualsHistory` | src/openhop_core/protocol/packet_filter.py:120-143 | under a non-decreasing clock the table is a function of the whole call history: the distinct keys by latest call, the longest suffix within limit and TTL |
| `PacketFilter.HitIffInWindow` | src/openhop_core/protocol/packet_filter.py:127-143 | True is answered exactly for the keys in that suffix |
| `PacketFilter.Filter.constructor` | src/openhop_core/protocol/packet_filter.py:24-29 | starts with empty tables |
| `PacketFilter.Filter.IsDuplicate` | src/openhop_core/protocol/packet_filter.py:35-42 | a read-only answer from the tracked time and the window |
| `PacketFilter.Filter.TrackPacket` | src/openhop_core/protocol/packet_filter.py:44-46 | stores the time of a hash, which the next two theorems read back |
| `PacketFilter.HashesEqualHistory` | src/openhop_core/protocol/packet_filter.py:44-46 | without cleanups the table holds exactly the latest track of every hash since it was last cleared |
| `PacketFilter.DuplicateIffRecentlyTracked` | src/openhop_core/protocol/packet_filter.py:35-88 | over every run with a non-decreasing clock, cleanups and clears included, a hash is a duplicate exactly when the last call that tracked it, since the last clear, is younger than the window |
| `PacketFilter.Filter.Blacklist` | src/openhop_core/protocol/packet_filter.py:48-60 | moves the hash to the newest end, evicting the oldest beyond 4096 |
| `PacketFilter.Filter.IsBlacklisted` | src/openhop_core/protocol/packet_filter.py:62-72 | a read-only answer from the insertion time and the TTL |
| `PacketFilter.Filter.CleanupOldHashes` | src/openhop_core/protocol/packet_filter.py:74-88 | removes what is older than window and TTL, keeping the rest in order |
| `PacketFilter.CleanupLeavesUnexpired` | src/openhop_core/protocol/packet_filter.py:74-88 | after a cleanup, whatever came before it, both tables hold exactly what was tracked or banned and has not expired |
| `PacketFilter.Filter.Clear` | src/openhop_core/protocol/packet_filter.py:98-102 | empties both tables |
| `PacketFilter.CleanupIsTransparent` | src/openhop_core/protocol/packet_filter.py:35-88 | a table that lags another only by cleaned-up entries answers every later query alike, although only the larger one may have to evict |
| `PacketFilter.CleanupIsTransparentFromStart` | src/openhop_core/protocol/packet_filter.py:35-88 | for every run with a non-decreasing clock, inserting cleanups anywhere changes no answer |
| `PacketFilter.BlacklistEqualsHistory` | src/openhop_core/protocol/packet_filter.py:48-60 | apart from cleanups the blacklist is a function of the call history: the last 4096 distinct hashes banned since the last clear, each with its latest ban, in that order |
| `PacketFilter.BlacklistedIffRecentlyBanned` | src/openhop_core/protocol/packet_filter.py:48-102 | over every run with a non-decreasing clock, cleanups and clears included, a hash is blacklisted exactly when its latest ban is among these and younger than the TTL |
| `MessageQueue.OldestChannel` | src/openhop_core/companion/message_queue.py:41-47 | the first channel message, or that there is none |
| `MessageQueue.IndexOf` | src/openhop_core/companion/message_queue.py:63-74 | the first entry with an identity, or that there is none |
| `MessageQueue.OfflineQueue.constructor` | src/openhop_core/companion/message_queue.py:21-25 | starts empty, with an empty record |
| `MessageQueue.OfflineQueue.Push` | src/openhop_core/companion/message_queue.py:32-49 | refused exactly when storage is off or the queue is full of direct messages; otherwise appended, at capacity after giving up the oldest channel message |
| `MessageQueue.OfflineQueue.Pop` | src/openhop_core/companion/message_queue.py:51-55 | takes the oldest |
| `MessageQueue.OfflineQueue.PopLast` | src/openhop_core/companion/message_queue.py:57-61 | takes the newest |
| `MessageQueue.OfflineQueue.RemoveMessage` | src/openhop_core/companion/message_queue.py:63-74 | takes the entry with that identity, and says whether there was one |
| `MessageQueue.OfflineQueue.Clear` | src/openhop_core/companion/message_queue.py:95-97 | takes everything |
| `MessageQueue.RunKeepsInv` | src/openhop_core/companion/message_queue.py:32-97 | over every run the queue is a subsequence of the accepted pushes in push order, within its limit; every accepted push is queued, taken or evicted, one of these only; only channel messages are evicted |
| `MessageQueue.DirectMessagesAreKept` | src/openhop_core/companion/message_queue.py:32-97 | in every run an accepted direct message is queued exactly until the consumer takes it |
| `MessageQueue.EvictedAreOldest` | src/openhop_core/companion/message_queue.py:41-47 | in every run each evicted message was pushed before every channel message still queued |
| `MessageQueue.PushIsQueued` | src/openhop_core/companion/message_queue.py:32-49 | a push that is not refused is queued behind all others; in a full queue it costs exactly one channel message, otherwise none |
| `MessageQueue.ConsumerTakes` | src/openhop_core/companion/message_queue.py:51-97 | the consumer takes the oldest, the newest, the oldest with an identity, or all, and nothing else leaves |
| `RecencyTables.PathCache.constructor` | src/openhop_core/companion/path_cache.py:19-21 | starts empty with the given limit |
| `RecencyTables.PathCache.Update` | src/openhop_core/companion/path_cache.py:23-39 | moves the prefix to the newest end with what was heard now, evicting the oldest; fails exactly where an empty deque is popped |
| `RecencyTables.PathCacheEqualsHistory` | src/openhop_core/companion/path_cache.py:23-39 | for a positive limit the cache holds exactly the last distinct prefixes, each with its latest path, ordered by latest update |
| `RecencyTables.AckTable.constructor` | src/openhop_core/companion/companion_base.py:142-142 | starts with nothing pending |
| `RecencyTables.AckTable.Track` | src/openhop_core/companion/base_send.py:1666-1677 | a resend refreshes its CRC; beyond 64 the oldest are evicted |
| `RecencyTables.AckTable.TryConfirm` | src/openhop_core/companion/base_send.py:1679-1690 | fires exactly for a pending CRC, which it removes, with the round-trip time since its latest send |
| `RecencyTables.TripMs` | src/openhop_core/companion/base_send.py:1688-1688 | that time is never negative, and within half a millisecond of the elapsed time |
| `RecencyTables.Rounded` | src/openhop_core/companion/base_send.py:1688-1688 | rounding is to a nearest whole number, a tie to the even one |
| `RecencyTables.AtMostOneConfirmation` | src/openhop_core/companion/base_send.py:1666-1690 | over every run each track call is confirmed at most once, and a confirmed call is no longer pending |
| `RecencyTables.EvictedOnlyByNewer` | src/openhop_core/companion/base_send.py:1666-1677 | an unacknowledged CRC leaves only when 64 more recently tracked ones are pending |
| `RecencyTables.ConfirmTakesOne` | src/openhop_core/companion/base_send.py:1679-1690 | an acknowledgement of a pending CRC confirms the call that tracked it and removes that CRC alone; any other changes nothing |
| `RecencyTables.PendingWasTracked` | src/openhop_core/companion/base_send.py:1666-1690 | in every run a pending CRC was tracked at its time, and neither tracked nor acknowledged again since |
| `RecencyTables.TrackedIsPending` | src/openhop_core/companion/base_send.py:1666-1690 | in every run such a CRC is pending unless 64 later calls tracked others |
| `ContactStore.Oldest` | src/openhop_core/companion/contact_store.py:119-134 | the first of those that qualify with the smallest lastmod, or that none qualifies |
| `ContactStore.Store.constructor` | src/openhop_core/companion/contact_store.py:57-60 | both maps start empty |
| `ContactStore.Store.Assign` | src/openhop_core/companion/contact_store.py:105-106 | contact and proxy are stored together under the same key |
| `ContactStore.ProxiesShowContacts` | src/openhop_core/companion/contact_store.py:22-34 | every contact has a proxy under its key and at its place that shows it field by field |
| `ContactStore.Store.Add` | src/openhop_core/companion/contact_store.py:99-107 | stores an existing key always, a new one below the limit; the proxy map mirrors the contact map |
| `ContactStore.Store.Update` | src/openhop_core/companion/contact_store.py:163-169 | stores just as `Add` does, the two calling each other |
| `ContactStore.Store.RemoveKey` | src/openhop_core/companion/contact_store.py:171-177 | removes the key from both maps, and says whether it was there |
| `ContactStore.Store.FindOldestEvictable` | src/openhop_core/companion/contact_store.py:119-134 | the search loop finds the oldest contact that is neither favourite nor transient |
| `ContactStore.Store.AddOrOverwrite` | src/openhop_core/companion/contact_store.py:109-142 | when full, gives up that contact and reports its key, or refuses |
| `ContactStore.Store.AddTransient` | src/openhop_core/companion/contact_store.py:144-161 | the transient pool of eight reuses its oldest slot |
| `ContactStore.Store.LoadFrom` | src/openhop_core/companion/contact_store.py:222-232 | replaces everything by what the three results about loading describe |
| `ContactLoad.LoadIsPrefix` | src/openhop_core/companion/contact_store.py:222-232 | for every list and limit the keys stored are those of a prefix, in the order they first appear, each with its last contact in the prefix; the prefix is the whole list, or the shortest with as many keys as the limit |
| `ContactLoad.LoadKeepsOrder` | src/openhop_core/companion/contact_store.py:222-232 | contacts with different keys are loaded in order, as many as fit |
| `ContactLoad.ReloadRestoresIff` | src/openhop_core/companion/contact_store.py:288-294 | loading the contacts that are saved, which are those that are not transient, restores exactly these in order if and only if they are within the limit |
| `ContactStore.OverwriteEvictsOldest` | src/openhop_core/companion/contact_store.py:109-142 | the victim is no favourite and not transient, none of that kind is older, and every other contact stays as it is |
| `ContactStore.OverwriteFailsIff` | src/openhop_core/companion/contact_store.py:117-137 | an overwrite fails, changing nothing, exactly for a new contact and a full store of favourites, transient contacts and contacts dated 0xFFFFFFFF or later |
| `ContactStore.TransientReusesOldest` | src/openhop_core/companion/contact_store.py:144-161 | from eight transient contacts on, a new one takes the place of the first with the smallest lastmod; before that, and under a known key, nothing is given up |
| `ContactStore.StepKeepsCapsIff` | src/openhop_core/companion/contact_store.py:99-177 | from within the caps an operation leaves them exactly when it brings a real contact in without a capacity check, in place of a transient one or through `add_transient`, while the real contacts are at the limit |
| `ContactStore.CapsHoldIff` | src/openhop_core/companion/contact_store.py:99-232 | over every run real contacts stay within the limit and all within the limit plus eight exactly when no operation does that |
| `ContactStore.PromotionBreaksCap` | src/openhop_core/companion/contact_store.py:163-169 | a run of three operations that ends with two real contacts under a limit of one |
| `Adverts.Companion.constructor` | src/openhop_core/companion/companion_base.py:90-93 | a companion starts with empty stores and no callback fired |
| `Adverts.Companion.ApplyAdvertToStores` | src/openhop_core/companion/base_contacts.py:251-324 | path-cache entry, stored contacts, returned contact and callbacks after one advert; nothing for an advert without key prefix or name |
| `Adverts.Companion.HandleNodeDiscovered` | src/openhop_core/companion/base_events.py:44-89 | the event handler drops own, unusable and stale adverts and otherwise applies and notifies |
| `Adverts.ClientMirrorsStore` | src/openhop_core/companion/base_contacts.py:251-324 | for every sequence of adverts and preferences handled one after another, a client that follows only the deletion and advert callbacks has exactly the store: each eviction is reported under the evicted key; the node's own key is never stored |
| `Adverts.AdvertsKeepLocalState` | src/openhop_core/companion/base_events.py:44-89 | while a key stays stored, the timestamps received for it strictly increase, the last one is stored, and flags, route and sync state never change |
| `Adverts.HandleRefreshes` | src/openhop_core/companion/base_contacts.py:284-293 | one usable advert newer than the stored one replaces name, type, position, times and packet by its own; a missing packet leaves the one known before |
| `Adverts.StoreShowsLatest` | src/openhop_core/companion/base_events.py:44-89 | while a key stays stored, through every sequence of adverts, the stored contact shows its latest usable advert, field by field |
| `Adverts.NewContactStoredIff` | src/openhop_core/companion/base_contacts.py:294-324 | an unknown contact is stored, as it came and with its flags clear, exactly when its type is admitted, it came fewer hops than the limit, and there is room or a contact that may be overwritten and leave to do so |
| `Adverts.AdvertIsReported` | src/openhop_core/companion/base_events.py:44-89 | every advert that is not dropped ends with a discovery callback that shows the contact as stored, reports a full store exactly when only room was missing, and is the newest of at most sixteen path entries |
| `AdvertOverlap.StoreIsSequential` | src/openhop_core/companion/base_events.py:44-89 | however events overlap at the callbacks they await, the store is what it is when they are handled in order of arrival |
| `AdvertOverlap.EventFinishes` | src/openhop_core/companion/base_events.py:77-89 | an event left to run makes all its remaining callbacks in order and ends |
| `AdvertOverlap.HandleShape` | src/openhop_core/companion/base_contacts.py:251-324 | an event is dropped, changes nothing, stores one contact, or stores one in place of another, and its callbacks say which |
| `AdvertOverlap.ConsistentIsMirror` | src/openhop_core/companion/base_callbacks.py:378-386 | a consistent client to whom nothing is outstanding has exactly the store |
| `AdvertOverlap.StepConsistentIff` | src/openhop_core/companion/base_callbacks.py:378-386 | a step leaves the client consistent exactly unless it is an event that is not dropped while a report is outstanding about its stored key or, for a new key that takes another's place, about the key it evicts |
| `AdvertOverlap.ReplacesIff` | src/openhop_core/companion/base_contacts.py:286-318 | a new contact evicts exactly when auto-add and overwrite apply, the hop limit does not, the store is full and has something to give up |
| `AdvertOverlap.ConsistentIffNeverDisturbs` | src/openhop_core/companion/base_callbacks.py:378-386 | over every interleaving, after every prefix the client has what is stored or is about to be told it, exactly when no event is one of these |
| `AdvertOverlap.OverlapMisleads` | src/openhop_core/companion/base_contacts.py:310-318 | a run that leaves the client with the older of two adverts and nothing outstanding |
| `FrameLogin.StepKeepsInv` | src/openhop_core/companion/base_send.py:980-1098 | every step keeps: one session per key, its callback attached exactly while it is in the map and no plain login has taken the slot since; and a plain login's callback only while it is under way |
| `FrameLogin.RunKeepsInv` | src/openhop_core/companion/base_send.py:841-1098 | so does every interleaving of commands, plain logins, replies, waiters and clears |
| `FrameLogin.TimeoutsAreDue` | src/openhop_core/companion/base_send.py:1041-1062 | over every interleaving under a clock that does not go back, no waiter times out before a deadline its session had been given |
| `FrameLogin.WaiterTimesOutIff` | src/openhop_core/companion/base_send.py:1041-1074 | in every run an unanswered waiter that gets its turn ends with a timeout, its session dropped, exactly when 120 seconds have passed since its latest refresh |
| `FrameLogin.CancelledWaiterEnds` | src/openhop_core/companion/base_send.py:1088-1098 | a cancelled waiter ends with its next turn |
| `FrameLogin.OldWaiterKeepsNewer` | src/openhop_core/companion/base_send.py:1066-1070 | a waiter that ends leaves every other session stored and attached, a newer one for its own key included, and every plain login attached |
| `FrameLogin.ClearKeepsInv` | src/openhop_core/companion/base_send.py:1088-1098 | a clear empties the session map and leaves attached exactly the callbacks of plain logins |
| `FrameLogin.StepKeepsReachableIff` | src/openhop_core/companion/base_send.py:841-1098 | from a state where a reply would reach every session and plain login that waits, exactly these steps end that: the owner's failed send after another command set the session waiting, a first successful send on a session without its slot, and a plain login or a new session that takes a slot still waited on |
| `FrameLogin.ReachableIffNeverOrphans` | src/openhop_core/companion/base_send.py:841-1098 | over every run, a reply would reach every login that waits, after every prefix, exactly when no step is one of these |
| `FrameLogin.LostSlotStaysLost` | src/openhop_core/companion/base_send.py:1005-1015 | a session that has lost its slot never gets it back: no run brings it a reply |
| `FrameLogin.DisciplinedRunsStayReachable` | src/openhop_core/companion/base_send.py:980-1098 | if no command joins and nothing clears a session whose owner's first send is unresolved, no plain login starts for a key whose slot is taken and no command while a plain login has it, a reply reaches every login that waits in every run |
| `FrameLogin.ReplyCompletes` | src/openhop_core/node/handlers/login_response.py:371-390 | a reply for a waiting session's key makes its waiter return the answer when it next runs |
| `FrameLogin.PlainLoginIsAnswered` | src/openhop_core/node/handlers/login_response.py:371-390 | a reply for the key of a reachable plain login answers it and touches no session |
| `FrameLogin.RaisedSendIsJoined` | src/openhop_core/companion/base_send.py:1033-1038 | a session whose transmission raised stays stored, and the next command for its key joins it |
| `FrameLogin.JoinOrphans` | src/openhop_core/companion/base_send.py:1033-1038 | a run in which a join and the owner's failed send leave a waiter no reply reaches |
| `FrameLogin.ClearOrphans` | src/openhop_core/companion/base_send.py:1088-1098 | a run in which a clear during the first send does |
| `FrameLogin.SlotTaken` | src/openhop_core/companion/base_send.py:869-891 | in any state, a plain login for the key of a waiting session leaves that session stored and out of reach, even after it has ended |
| `FrameLogin.PlainLoginOrphans` | src/openhop_core/companion/base_send.py:869-891 | a run from the start in which it does |
| `FloodScope.FloodScopes.constructor` | src/openhop_core/companion/companion_base.py:118-121 | starts without override, on the persisted default |
| `FloodScope.FloodScopes.SetFloodScope` | src/openhop_core/companion/base_config.py:241-254 | a usable key becomes the override, anything else clears it; either ends an unscoped request |
| `FloodScope.FloodScopes.SetFloodUnscoped` | src/openhop_core/companion/base_config.py:256-262 | the unscoped request is set and nothing else changes |
| `FloodScope.FloodScopes.SetDefaultFloodScope` | src/openhop_core/companion/base_config.py:264-281 | sets or clears the default, and is refused exactly for a name that is blank once shortened |
| `FloodScope.FloodScopes.SetFloodRegion` | src/openhop_core/companion/base_config.py:297-311 | the derived key becomes the override; fails without effect exactly when no key can be derived |
| `FloodScope.FloodScopes.ApplyFloodScope` | src/openhop_core/companion/base_config.py:313-369 | an undecided flood is decided by unscoped request, then override, then default, and marked even if plain; a decided or direct packet is left alone |
| `FloodScope.DefaultIsLatest` | src/openhop_core/companion/base_config.py:264-318 | the default in force is what the latest accepted default call alone asked for |
| `FloodScope.DefaultUntouched` | src/openhop_core/companion/base_config.py:264-318 | without one it is what was persisted |
| `FloodScope.DecisionIsLatest` | src/openhop_core/companion/base_config.py:241-369 | after every sequence of calls the region depends only on the latest overriding call and the default in force |
| `FloodScope.DecisionWithoutOverride` | src/openhop_core/companion/base_config.py:241-369 | without one the default decides |
| `FloodScope.DefaultIsStored` | src/openhop_core/companion/base_config.py:264-281 | a default is stored under the first thirty characters of its name without the white space around them and with the first sixteen bytes of its key, and refused when nothing else is in the name |
| `FloodScope.DefaultKeyIff` | src/openhop_core/companion/base_config.py:283-318 | a stored default counts exactly when its name is not blank and its first sixteen bytes are not all zero; a short key is filled up with zeros |
| `Retry.TakeBuiltPacket` | src/openhop_core/companion/base_send.py:1250-1290 | a packet that already carries a decision is an error; any other, and none, is passed on |
| `Retry.BuildRetryPacket` | src/openhop_core/companion/base_send.py:1292-1350 | a retry packet is built as if the contact had no path, unless that cannot be masked; the route is as before on every exit |
| `Retry.Attempt` | src/openhop_core/companion/base_send.py:1220-1247 | one attempt, for any builder: what is sent, how long it waits, how it ends when the send or the wait raises, and that nothing but other tasks changes route or scope |
| `Retry.RequestWithRetries` | src/openhop_core/companion/base_send.py:1195-1248 | at most three packets; with a builder that floods exactly without a path, each packet after the first is a decided flood exactly unless it has a path that cannot be masked; it goes on exactly while waits time out, the budget lasts and packets are fresh, and raises exactly when a send, a wait or the builder does; every flood carries the region in force when sent and is marked; no wait passes the budget; the stored route is untouched at every await and on every exit; no wait ends after the budget is spent |
| `Retry.RetryFloodsIff` | src/openhop_core/companion/base_send.py:1292-1350 | with such a builder, a retry is a flood, marked and in the region in force, exactly when the route can be masked or the contact holds none |
| `Retry.RefusedMaskGoesDirect` | src/openhop_core/companion/base_send.py:1336-1343 | a run of three attempts through a proxy that refuses the mask, all by the stored route and undecided |

## Left out

- Serial, socket, GPIO, SPI and websocket I/O, port discovery and reconnection: reads and writes are inputs; `sx1262_wrapper.py` depends on chip registers and interrupts.
- Cryptography and transport codes: a scoped packet records the key its codes come from, and deriving a region's key is a function parameter that may reject a name.
- `Packet`, `PacketBuilder` and `PathUtils`: only the route type and the two marks of a packet; path-hash mode only as the mark that makes a packet not fresh.
- Retry.RequestWithRetries: the adaptive timeout is an input, and the tag registered for a response is not modelled.
- FrameLogin.RunKeepsInv: stored passwords and the contents of a reply are not modelled; a lookup that fails changes no session and is not a step.
- FrameLogin, AdvertOverlap and TxVerdict are step systems on values: their state is shared by tasks that interleave at awaits, or by threads without a lock.
- FloodScope.FloodScopes.ApplyFloodScope: `_apply_default_flood_scope`, the dispatcher's resolver and reply scopes are not modelled.
- Adverts.Companion.HandleNodeDiscovered: a contact is a value, so a caller that keeps and changes a stored contact object is not captured; one client listens, and a callback that raises is not modelled.
- ContactStore: proxies are rebuilt on every store and not changed from outside; lookups, persistence as dictionaries and plain `clear` are not modelled.
- WireFraming.RxWorker.Receive: an exception raised while a frame is dispatched, which ends the turn with complete frames still buffered, is not modelled.
- KissCodec.KissDecoder.Decode: an exception raised while a completed frame is dispatched is not modelled; completed frames are collected in order.
- SetHardware.SingleFlightFromStart: the early returns while reconnecting, degraded or shutting down touch no shared state and are not steps.
- TxVerdict.VerdictIsEarned: the early returns before the in-flight lock are not steps; writing a frame to the port is one step; the fields that other threads assign may change in any order, which covers the orders of the code.
- Floating-point rounding of clocks; `timing.py` and `cayenne_lpp.py`; statistics and logging, except the decoders' error count.
- `_SeenCache`, channels, telemetry, the frame server's command parsing and the repeater are not part of this model.
