# Link stack of the simulated ESC: a verified model

A simulated ESC is presented to real configurators through a stack of hand-written
protocol machines: a virtual USB serial device, a fake flight controller with MSP, a
command line and BLHeli 4-way passthrough, a one-wire linker, and the DShot and serial
framing of the signal wire. This project models those machines, and the settings,
parameter files and sound sources beside them, and proves what they keep over every run.

How it is laid out:

| file | what it holds |
|---|---|
| Bytes, Bits, Reals, Crc, Division | byte strings, xor, times, the three CRCs as folds of an injective step, and as the polynomial remainders they stand for |
| MspFraming | MSPv1, MSPv2 and MSPv2-over-v1, and the incremental parser |
| SerialPackets, OneWire, DshotFrame, LinkFaults | what goes over the signal wire, and how a link may damage it |
| FourWayServer, FourWaySession, FourWayClient, FourWayTransfers, FourWayCommands, FourWayAuthority | the 4-way server, its independence of chunking, its agreement with the independent client, transfers and all other commands end to end, and which ESC it may talk to |
| FourWayFaults, FourWayLink, CutRequests | what a faulty link makes the server run, for one request into any buffer and for whole conversations, exactly when something else runs, and two sessions in which it does |
| UsbipDevice, UsbipSession, UsbipCompletions | the USB/IP device, all interleavings of its threads, and what each completion says and when |
| Configuration | the flight controller's settings store |
| FlightController, FlightRequests, FlightRuns, FlightSafety | the flight controller's handlers; what each request does in terms of its bytes; its two threads as a machine of lock sections with an audit of its trace; the proof that every run passes |
| SerialBridge, SerialBridgeRuns | the one-wire linker and its runs |
| Audio | the loop and block forms of the two sound sources |
| ParamText, Doubles, ParamNumbers, Params | parameter text, its numbers as doubles, and settings images |

Code that works in place is a class or a loop, proved equal to a function on values; the
lemmas are about those functions. Threads are atomic steps at lock boundaries: the USB
writer releases its lock between turns, and the DShot thread samples its time before it
takes the lock. Time is an argument.

Where the code differs from its comments or from what one would expect of it, the code is
modelled:

- A 4-way frame with a bad check is called already answered
  (SITL/sitl_fourway_server.py:181); nothing is sent.
- Selecting an already connected ESC that no longer answers resets it and, if that does
  not help, leaves it in the connected set (SITL/sitl_fourway_server.py:152-169). "Flash
  traffic reaches only an ESC that has not been reset since its last answer" is therefore
  false; `FourWayAuthority.RespondAuthorised` gives the exact condition per command,
  `FourWayAuthority.FedAuthorised` for anything fed, and
  `FourWayAuthority.StaleReinitHappens` a session that breaks it.
- What a cut request leaves in the server's buffer is completed by whatever comes next: its
  own second copy, since the faulty endpoint joins the copies (SITL/sitl_faults.py:144-149),
  or the client's undamaged retry. The completed frame can be a valid request that nobody
  sent. `FourWayFaults.FaultyRequestHarmless` and `FourWayLink.OnlySentExactly` say exactly
  when; `CutRequests.RepeatedCutWrites` and `CutRequests.RetriedCutWrites` are flash writes
  nobody asked for.
- The DShot loop compares the time it sampled before waiting for the lock
  (SITL/msp_stub_fc.py:237-247). The two second silence rule holds for that time, not for
  the time a frame leaves: `FlightSafety.DrivenExactly` and
  `FlightSafety.StaleSampleDrives`.
- The scalar peak follower (SITL/sitl_tones.py:347-351) is not the recurrence its
  vectorised form implements: `Audio.FollowIsPeak` and `Audio.FollowNearPeak`.
- A parameter value with a long fraction can be read as the next whole number, since it is
  rounded to a double before it is cut (SITL/sitl_params.py:266): `ParamNumbers.NumberRead`.
- A bulk IN request can come back short while the writer has more in hand, between its call and
  its lock (SITL/sitl_usbip.py:327-339): `UsbipCompletions.ShortLeavesNothing` says exactly when.
- `encode` accepts messages its own parser does not return: `MspFraming.RoundTripExactly`.

To verify everything: `dafny verify dfyconfig.toml` with Dafny 4.11.

## Model

| member | source | states |
|---|---|---|
| Crc.Crc16Xmodem | SITL/sitl_fourway_server.py:65-73 | The register loop computes the fold that all the 4-way lemmas are about; the independent client (esc_eeprom_fc.py:82-87) has the same loop |
| Crc.Crc16Boot | SITL/sitl_fourway.py:49-59 | The bootloader loop, which never mixes the byte in but compares two low bits and shifts both, computes the same value as the usual reflected form |
| Crc.BootBit | SITL/sitl_fourway.py:53-58 | One turn of that interleaved loop is one shift of the mixed register |
| Crc.Crc8Loop | SITL/msp_framing.py:8-14 | The MSP CRC-8 loop computes the fold the framing lemmas are about |
| Crc.FoldDetectsOneByte | SITL/sitl_fourway_server.py:65-73 | For any check whose step is injective in register and byte: changing one byte anywhere in a message of any length changes the result |
| Crc.XmodemResidue | SITL/sitl_fourway_server.py:206-212 | A frame passes the big-endian comparison if and only if the register over the whole frame, check bytes included, ends at zero |
| Crc.XmodemDetectsOneByte | SITL/sitl_fourway_server.py:65-73 | One wrong byte, however many bits of it, always changes the 4-way check value |
| Crc.BootResidue | SITL/sitl_fourway.py:62-63 | A frame carries its own little-endian check value if and only if the bootloader register over all of it ends at zero |
| Crc.BootDetectsOneByte | SITL/sitl_fourway.py:49-59 | One wrong byte always changes the bootloader check value |
| Crc.Crc8Residue | SITL/msp_framing.py:71-73 | A message with one more byte ends at zero if and only if that byte is its CRC-8 |
| Crc.Crc8DetectsOneByte | SITL/msp_framing.py:8-14 | One wrong byte always changes the MSPv2 check value |
| Crc.XorSumDetectsOneByte | SITL/msp_framing.py:17-18 | One wrong byte always changes the MSPv1 check value |
| Division.Crc8Divides | SITL/msp_framing.py:8-14 | The MSPv2 check value is the remainder, by long division over the two-element field, of the message and eight zero bits by x^8+x^7+x^6+x^4+x^2+1 |
| Division.XmodemDivides | SITL/sitl_fourway_server.py:65-73 | The 4-way check value is the remainder of the message and sixteen zero bits by x^16+x^12+x^5+1 |
| Division.BootDivides | SITL/sitl_fourway.py:49-59 | The bootloader check value is the remainder by x^16+x^15+x^2+1, bytes and value taken low bit first |
| Division.XorSumParity | SITL/msp_framing.py:17-18 | Each bit of the MSPv1 check value is the parity of that bit over the message |
| MspFraming.Parser.Next | SITL/msp_framing.py:38-83 | The incremental parser returns exactly the next frame of its buffer by the value-level definition, and leaves exactly the bytes behind it |
| MspFraming.Parser.DrainAll | SITL/msp_stub_fc.py:532-553 | Calling next until it returns nothing gives all frames of the buffer, and ends |
| MspFraming.TurnStable | SITL/msp_framing.py:44-83 | Once the parser has decided about the front of its buffer, bytes that arrive later do not change the decision |
| MspFraming.DrainTwoChunks | SITL/msp_framing.py:38-83 | Draining after one chunk and again after the next gives the frames and rest of draining both at once |
| MspFraming.ChunkingIrrelevant | SITL/msp_framing.py:38-83 | Every split of every byte stream gives the same frames and leaves the same bytes as draining once at the end |
| MspFraming.TurnOfEncoded | SITL/msp_framing.py:21-29 | One encoded message, whatever follows it, is consumed whole and read back as its command, payload and framing |
| MspFraming.RoundTrip | SITL/msp_framing.py:21-83 | Any list of messages in mixed framings, each behind noise in which no packet starts, parses to exactly that list with an empty buffer |
| MspFraming.RoundTripExactly | SITL/msp_framing.py:21-83 | A message that encode accepts, with any version number, comes back if and only if it is not MSPv1 command 255 and not a native payload over 1024 bytes |
| MspFraming.CorruptedMessageDropped | SITL/msp_framing.py:64-83 | A wrong byte behind the header, other than in the length, makes the parser consume exactly that packet and deliver nothing |
| MspFraming.OneMessageLost | SITL/msp_framing.py:38-83 | On a wire of any messages in mixed framings behind noise, one such wrong byte costs exactly the message it is in: all others arrive in order and nothing is left over |
| MspFraming.EncodedBytes | SITL/msp_framing.py:21-35 | Every encoded message byte by byte, and exactly which cannot be encoded |
| MspFraming.OnlyPackets | SITL/msp_framing.py:44-83 | Whatever the parser delivers was on the wire as a whole packet of its framing, command and payload, byte by byte but for the flag it skips |
| MspFraming.CliMark | SITL/msp_framing.py:44-49 | A # in front of the buffer opens the command line, and nothing else does |
| SerialPackets.SendSerial | SITL/sitl_dshot.py:203-213 | The loop that clears its gap flag after the first packet sends exactly the packets the value-level split gives |
| SerialPackets.UnpackPacked | SITL/sitl_dshot.py:117-136 | A serial packet of 1 to 255 bytes unpacks to its flags and bytes |
| SerialPackets.PacketsReassemble | SITL/sitl_dshot.py:203-213 | The packets of any byte string rebuild it, each carries 1 to 200 bytes, and only the first can carry the gap flag |
| SerialPackets.PacketBytes | SITL/sitl_dshot.py:117-118 | A serial packet byte by byte |
| SerialPackets.PacketsFull | SITL/sitl_dshot.py:203-213 | There are as few packets as 200 bytes each allow: all but the last are full |
| OneWire.Bench.Write | SITL/sitl_fourway.py:148-154 | The imperative client produces the traffic and result of the value-level write for every way the ESC may answer |
| OneWire.Bench.ReadFlash | SITL/sitl_fourway.py:166-180 | The same for reads: data only from a complete, acknowledged reply whose check passes |
| OneWire.ReadsFront | SITL/sitl_dshot.py:221-234 | A read takes the front of what the ESC returned, as much as was asked for or all there is |
| OneWire.WriteSendsPrefix | SITL/sitl_fourway.py:122-154 | A write sends one, three or all four of its frames; the upload needs an acknowledged address, the program frame both earlier acks, and success means all three acks came |
| OneWire.HistoryReassembles | SITL/sitl_dshot.py:165-178 | Whatever is sent in whatever order, the packets to one ESC rebuild exactly the bytes sent to it |
| OneWire.WriteGap | SITL/sitl_fourway.py:135-141 | However the ESC answers a write, its packets rebuild the bytes sent, hold 1 to 200 each, and exactly one asks for a gap: the third, the first of the upload, when the upload was sent |
| OneWire.BufferSizeRecovered | SITL/sitl_fourway.py:131-136 | Every size from 1 to 256 is announced recoverably, 256 by the high byte |
| OneWire.RequestRecovered | SITL/sitl_fourway.py:122-175 | Address and size of a request can be read back from its frame, a read of 256 being sent as zero |
| OneWire.CheckedFrame | SITL/sitl_fourway.py:62-63 | Every frame the client builds passes the bootloader check, and none does with one byte wrong |
| LinkFaults.ApplyInPlace | SITL/sitl_faults.py:72-124 | Cutting and flipping the working copy in place delivers exactly the frames of the value-level fault model, for every random choice |
| LinkFaults.FlipChanges | SITL/sitl_faults.py:99-101 | A flipped bit makes a different byte, and flipping it again restores it |
| LinkFaults.FlipsOneBit | SITL/sitl_faults.py:99-101 | A flip changes the bit it names and no other |
| DshotFrame.FrameReads | SITL/sitl_dshot.py:60-66 | Every frame is a 16 bit word from which the telemetry bit and the low eleven bits of the value can be read back |
| DshotFrame.FrameChecks | SITL/sitl_dshot.py:52-72 | The reply check accepts a composed frame if and only if it was made for a bidirectional link and not deliberately corrupted |
| DshotFrame.FrameNibbles | SITL/sitl_dshot.py:52-66 | The four nibbles of an intact frame cancel on a plain link and give all ones on a bidirectional one |
| DshotFrame.NibbleDamageRefused | SITL/sitl_dshot.py:69-72 | Two accepted frames that agree in three nibbles agree in the fourth, so any change within one nibble of an accepted frame is refused |
| DshotFrame.PeriodReads | SITL/sitl_dshot.py:75-102 | A normalised speed is never taken for extended telemetry and decodes to its period |
| DshotFrame.TelemetryReads | SITL/sitl_dshot.py:75-98 | Extended telemetry reads back as its kind and value where it is expected, and as a period elsewhere |
| DshotFrame.PeriodsDistinct | SITL/sitl_dshot.py:101-102 | Different normalised speeds decode to different periods |
| FourWayServer.Server.NextFrame | SITL/sitl_fourway_server.py:188-214 | Pulling a frame leaves exactly the bytes after it, and the noise before it is dropped, as the value-level definition says |
| FourWayServer.Server.Connect | SITL/sitl_fourway_server.py:152-169 | Probe, one reset where possible, then probes for as long as the window lasts; connected grows only on an answer |
| FourWayServer.Server.Handle | SITL/sitl_fourway_server.py:223-302 | Every command handler changes the session and the ESC traffic, and answers, exactly as the value-level command does |
| FourWayServer.Server.Feed | SITL/sitl_fourway_server.py:173-186 | The feed loop ends, and its session, traffic and replies are those of the value-level feed |
| FourWayServer.AnswerLength | SITL/sitl_fourway_server.py:216-221 | Every valid request has an answer of 1 to 256 parameters, so the over-long error cannot occur |
| FourWaySession.PullExtended | SITL/sitl_fourway_server.py:188-214 | Later bytes do not change what has been pulled; where more were needed, pulling resumes as if they had been there |
| FourWaySession.FeedTwoChunks | SITL/sitl_fourway_server.py:173-186 | Unless the first chunk ends the session, feeding two chunks gives the replies, ESC traffic and state of feeding both at once, for any ESC |
| FourWaySession.ChunkingIrrelevant | SITL/sitl_fourway_server.py:173-186 | The same for every split of a whole stream, noise, dropped frames and exit commands included; after an exit only the bytes left unread may differ |
| FourWaySession.ServedExtendsLog | SITL/sitl_fourway_server.py:173-302 | Feeding only adds to the traffic of a session |
| FourWaySession.ServedRunsFrames | SITL/sitl_fourway_server.py:173-186 | Serving a buffer is running, one after another and up to an exit, exactly the valid frames found in it: nothing else in the buffer has any effect |
| FourWaySession.FedRuns | SITL/sitl_fourway_server.py:173-186 | One feed, whatever was waiting: the commands it runs, whether it ends the session, and the bytes it leaves waiting |
| FourWayClient.ReadReply | SITL/scripts/esc_eeprom_fc.py:113-135 | The accumulating loop returns the parse of the chunks it has read |
| FourWayClient.ReplyChunking | SITL/scripts/esc_eeprom_fc.py:113-135 | How a reply is split on its way does not change what the client reads |
| FourWayClient.RequestRecovered | SITL/scripts/esc_eeprom_fc.py:97-104 | A request with 0 to 256 parameters, behind any mark-free noise and before any bytes, is pulled out by the server whole |
| FourWayClient.ReplyRead | SITL/sitl_fourway_server.py:216-221 | Every reply the server can send is read by the client as the same command, parameters and ack, and carries the address |
| FourWayClient.Exchange | SITL/sitl_fourway_server.py:223-302 | One exchange: the server recovers exactly what was asked (an empty parameter as one zero byte), runs it once, and the client reads its answer however it is split |
| FourWayClient.CorruptRequestDropped | SITL/sitl_fourway_server.py:206-212 | One wrong byte other than the start mark or the length: no command runs, no traffic, no reply, and the session is unchanged |
| FourWayClient.CorruptReplyRefused | SITL/scripts/esc_eeprom_fc.py:113-135 | The mirror for replies: with one wrong byte other than the start mark or the length, and whatever follows, the client reads a bad check and no answer |
| FourWayFaults.DeliveredFrames | SITL/sitl_faults.py:144-149 | The table of what one read of the faulty endpoint makes of one valid request, short of flipping a bit of its mark or length: the valid frames in the joined copies, for every choice of drop, cut, flip and repeat |
| FourWayFaults.CutTwice | SITL/sitl_faults.py:99-108 | What a cut request sent twice holds: nothing, unless five bytes or more were kept and the second copy completes the first; then the completed frame if its check passes, and whatever valid frames the rest of the second copy holds |
| FourWayFaults.FaultyRequestHarmless | SITL/sitl_faults.py:72-149 | Whatever the link does to one request, with whatever bytes waiting from before: the server runs that request and nothing else, if anything, if and only if the delivery does not complete, behind those bytes, a frame that passes its check and is not the request, nor hold one behind the completed frame |
| FourWayFaults.StrangerInEmptyBuffer | SITL/sitl_faults.py:72-149 | Where nothing waits, and short of a flip of the mark or length, that takes a request cut and repeated whose copies together make another valid frame or whose second copy holds one behind |
| FourWayFaults.HeadTakes | SITL/sitl_fourway_server.py:188-214 | Five or more bytes that a settled session keeps waiting fix the length of the next frame, and it takes at least one byte of whatever comes next |
| FourWayFaults.RetryAfterCut | SITL/sitl_faults.py:91-97 | A request cut after five bytes or more and then sent again whole: the retry completes the first, the completed frame runs if its check passes, and the retry itself runs if and only if it repeats with the period of the cut |
| FourWayLink.ConversationRuns | SITL/sitl_faults.py:144-149 | A conversation of any number of requests, each damaged in its own way and fed as the endpoint delivers it, is exactly the commands completed in it, up to an exit |
| FourWayLink.OnlySentExactly | SITL/sitl_faults.py:72-149 | For every conversation from any buffer: every command run is a request sent by then, if and only if no delivery completes a valid frame that was not |
| FourWayLink.OnlySentMeans | SITL/sitl_faults.py:72-149 | Such a conversation runs only requests that were sent in it |
| FourWayLink.UncutConversation | SITL/sitl_faults.py:72-149 | While nothing is cut, nor a mark or length flipped, whatever is dropped, flipped and repeated: exactly the requests that got through run, once or twice each, in the order they were sent |
| CutRequests.RepeatedCutWrites | SITL/sitl_faults.py:144-149 | A two byte flash write whose second byte is not 0x2F, cut after six bytes and repeated, makes the server run a flash write of [0x64, 0x2F] that nobody asked for, whatever the ESC answers |
| CutRequests.RetriedCutWrites | SITL/sitl_faults.py:91-97 | So does the same write cut once and then sent again whole: the first delivery runs nothing and leaves six bytes, and the undamaged retry behind them is that write |
| CutRequests.RetryNotOnlySent | SITL/sitl_faults.py:91-97 | Hence that two request conversation does not run only what was sent |
| CutRequests.DoubledCheck | SITL/sitl_fourway_server.py:65-73 | Why: the check value of the first seven of those joined bytes is the next two |
| FourWayClient.LostMarkRunsParameter | SITL/sitl_fourway_server.py:193-199 | Why the mark is excluded: with the mark lost, a complete request inside a parameter is run |
| FourWayTransfers.ReadEndToEnd | SITL/sitl_fourway_server.py:271-278 | A flash or EEPROM read, target connected or not, brings the client exactly the bytes the ESC sent, if and only if one is connected, it acknowledged the address and its reply was complete and checked; otherwise an error; and exactly what goes to the ESC meanwhile |
| FourWayTransfers.WriteEndToEnd | SITL/sitl_fourway_server.py:280-285 | A flash or EEPROM write sends nothing without a connected target, else a prefix of its four frames up to the first missing acknowledgement, and the client reads success if and only if all three came |
| FourWayCommands.SelectEndToEnd | SITL/sitl_fourway_server.py:251-261 | Selecting an ESC: the client reads OK and four signature bytes, named by their place in the ESC's own answer, if and only if the index is in range and a probe was answered; general error if none was, invalid command out of range; and exactly the probes and the reset on the wire |
| FourWayCommands.AliveEndToEnd | SITL/sitl_fourway_server.py:242-249 | A keep alive: to a connected target only, which must answer 0xC1 or is dropped; what the client reads and what is on the wire |
| FourWayCommands.ResetEndToEnd | SITL/sitl_fourway_server.py:263-269 | A reset: the run frame to any ESC in range, which is then not connected; invalid command otherwise |
| FourWayCommands.EraseEndToEnd | SITL/sitl_fourway_server.py:287-296 | An erase: OK if and only if a target is connected and acknowledged both frames, the page echoed either way |
| FourWayCommands.InterfaceEndToEnd | SITL/sitl_fourway_server.py:223-240 | Every other command: its literal answer, no traffic, and only an exit ends the session |
| FourWayCommands.FrameBytes | SITL/sitl_fourway.py:110-185 | The bootloader frames byte by byte |
| FourWayCommands.MessageBytes | SITL/sitl_fourway_server.py:216-221 | A request and its reply byte by byte |
| FourWayAuthority.RespondSound | SITL/sitl_fourway_server.py:223-302 | Each command keeps the invariant (connected ESCs are live, target and connected in range) if and only if, resets counting, it is not a stale re-selection; and from the invariant it sends flash traffic and keep alives only to a live ESC |
| FourWayAuthority.RespondAuthorised | SITL/sitl_fourway_server.py:223-302 | Exactly when one command keeps all traffic authorised, resets counting or not, from any state: when it is no keep alive, read, write or erase for a connected target, or that target is live |
| FourWayAuthority.RunAuthorised | SITL/sitl_fourway_server.py:223-302 | Over any list of commands: all traffic stays authorised, resets counting, if and only if no command is for an ESC that is stale at that point; stale means selected again in vain with a reset and not since selected with success, or dropped |
| FourWayAuthority.FedAuthorised | SITL/sitl_fourway_server.py:173-302 | The same if and only if for any bytes fed at any point of a session, through the parser |
| FourWayAuthority.ConnectWorked | SITL/sitl_fourway_server.py:152-169 | What the whole connect procedure does to an ESC's standing, reset or not |
| FourWayAuthority.ServedSound | SITL/sitl_fourway_server.py:173-302 | The invariant over everything one feed may contain, resets not counting; and resets counting, where no re-selection in it is stale |
| FourWayAuthority.StaleReinitHappens | SITL/sitl_fourway_server.py:152-169 | A whole session from scratch, in complete requests through the parser and for any number of reprobes: an ESC that answers once is selected, selected again and read; it stays connected after the second selection, and the read breaks authority |
| FourWayAuthority.StaleReinitReachesResetEsc | SITL/sitl_fourway_server.py:271-278 | After any stale re-selection, the next keep alive, read, write or erase goes to an ESC that was reset and has not answered since |
| FourWayAuthority.WithoutResetsNeverStale | SITL/sitl_fourway_server.py:137-150 | Where no ESC can be reset, no re-selection in any feed is stale |
| FourWayAuthority.WithoutResetsAuthorised | SITL/sitl_fourway_server.py:137-150 | Where no ESC can be reset, any list of commands keeps all traffic authorised, resets counting |
| UsbipDevice.UsbipServer.WriteOnce | SITL/sitl_usbip.py:327-339 | One locked turn of the writer: complete the oldest request with what fits, or hold all the bytes |
| UsbipDevice.UsbipServer.Write | SITL/sitl_usbip.py:327-339 | Uninterrupted, the loop ends and answers the waiting requests in order |
| UsbipDevice.UsbipServer.SubmitBulkIn | SITL/sitl_usbip.py:511-518 | A read request is completed from held bytes or queued, never both |
| UsbipDevice.UsbipServer.UnlinkUrb | SITL/sitl_usbip.py:520-537 | At most one waiting request is removed, and the reply says whether one was |
| UsbipDevice.ReplyFits | SITL/sitl_usbip.py:547-590 | No control reply is longer than asked for, but the two that are always one byte |
| UsbipDevice.StallsExactly | SITL/sitl_usbip.py:547-590 | Exactly which control requests stall |
| UsbipSession.RunKeepsAll | SITL/sitl_usbip.py:327-397 | Over every interleaving of writer, session and reader: delivered, held and unsent bytes are exactly those offered, in order; every request number waits, was completed once or was removed once; held bytes and waiting requests never coexist; the reader gets exactly the accepted bytes |
| UsbipSession.NextStream | SITL/sitl_usbip.py:327-339 | Each single step keeps the stream complete and in order |
| UsbipSession.NextFate | SITL/sitl_usbip.py:478-537 | Each single step keeps every request at exactly one fate, and interrupt requests uncompleted |
| UsbipSession.UnlinkTellsTheTruth | SITL/sitl_usbip.py:520-537 | ST_UNLINKED is reported if and only if the victim was waiting, and afterwards it no longer waits |
| UsbipSession.KindStable | SITL/sitl_usbip.py:478-537 | A submitted request keeps its kind through every later step of the session |
| UsbipSession.LineReadsBack | SITL/sitl_usbip.py:577-582 | After any run, detaching and attaching included, a request for the line coding is answered at once with the last one of at least seven bytes that was set in the run, or else the one at start, cut to the asked length |
| UsbipCompletions.CompletionsRight | SITL/sitl_usbip.py:478-518 | Over every run, every completion fits its request: a read has status OK, carries no more than was asked and says how much; a write is acknowledged in full; an unknown endpoint stalls; an interrupt request is never completed |
| UsbipCompletions.CompletesExactly | SITL/sitl_usbip.py:327-339 | Exactly when a step completes a bulk IN request, and that it then carries what was asked or, if there is less, all there is |
| UsbipCompletions.ShortLeavesNothing | SITL/sitl_usbip.py:511-518 | After a short completion nothing is held; something is unsent if and only if a new request took the held bytes while the writer still had some in hand |
| UsbipCompletions.ShortWithUnsent | SITL/sitl_usbip.py:327-339 | A run where that happens |
| UsbipCompletions.FirstComeFirstServed | SITL/sitl_usbip.py:478-537 | Over every run, the bulk IN requests completed are the first of those submitted and not unlinked, in order, and while attached the rest wait in order |
| UsbipCompletions.AttachBegins | SITL/sitl_usbip.py:366-397 | A session begins with exactly the bytes the writer had in hand when the last ended and those written since: held bytes do not outlive a session |
| Configuration.Configuration.Validate | SITL/msp_betaflight.py:70-80 | The checks accept exactly the valid settings |
| Configuration.Configuration.SetMotor | SITL/msp_betaflight.py:100-111 | Assign-validate-restore changes all motor settings or none |
| Configuration.Configuration.SetRegister | SITL/msp_betaflight.py:113-129 | A register is replaced as a whole, with its read-only byte, or everything stays |
| Configuration.Configuration.CliSet | SITL/msp_betaflight.py:136-152 | One setting changes, or none |
| Configuration.Configuration.Save | SITL/msp_betaflight.py:86-95 | Valid settings that reach the file become the saved ones; otherwise the saved ones stay |
| Configuration.MotorReadsBack | SITL/msp_betaflight.py:100-111 | Accepted motor settings are returned by the read command byte for byte (the direction flag as 0 or 1), and nothing else changes |
| Configuration.RegisterReadsBack | SITL/msp_betaflight.py:113-129 | An accepted register is returned as sent, followed by its old read-only byte if it has one; no other register or setting changes |
| Configuration.SettingReadsBack | SITL/msp_betaflight.py:131-152 | A setting accepted by the CLI is shown by it; the other three, the other registers and the other bytes of the register are as before |
| Configuration.ApplyKeeps | SITL/msp_betaflight.py:86-152 | Every request keeps settings valid, register lengths, mixer type and read-only byte, and brings in no unsupported feature; a refused one changes nothing; only save changes what reboot restores |
| Configuration.RunKeepsSettings | SITL/msp_betaflight.py:86-152 | After any run of requests from any settings a file may hold: all of that holds, the features are as at the start or supported, and a reboot brings back exactly what was last saved |
| Configuration.DefaultsSane | SITL/msp_betaflight.py:25-53 | The factory settings are such a valid start for every even pole count from 2 to 100 |
| Configuration.MotorAccepted | SITL/msp_betaflight.py:100-111 | Exactly which motor settings are accepted, by the bytes of the payload |
| Configuration.RegisterAccepted | SITL/msp_betaflight.py:113-129 | Exactly which registers are accepted: lengths, feature bits 12 and 27, mixer and protocol |
| Configuration.SettingAccepted | SITL/msp_betaflight.py:136-152 | Exactly which CLI settings are accepted |
| FlightController.DshotValueRange | SITL/msp_stub_fc.py:228-233 | A motor value maps to 0 up to 1000 and to 49..2047 above, never into the command range |
| FlightController.DshotValueLinear | SITL/msp_stub_fc.py:228-233 | Between off and full the throttle is the whole part of the straight line from 48 to 2047 |
| FlightController.DshotValueMonotone | SITL/msp_stub_fc.py:228-233 | A higher motor value never gives a lower throttle |
| FlightController.SetMotorAllOrNone | SITL/msp_stub_fc.py:358-369 | MSP_SET_MOTOR is accepted exactly for a well-formed payload with all values in range, and then sets every motor; otherwise none |
| FlightController.StubFc.SendTo | SITL/msp_stub_fc.py:258-282 | One motor's turn: telemetry command queued when wanted, queued command sent and counted down, else the throttle |
| FlightController.StubFc.Turn | SITL/msp_stub_fc.py:235-250 | A locked turn of the DShot loop sends to every motor, after stopping them all when the link was silent, or does nothing in the other modes |
| FlightController.StubFc.RebootFc | SITL/msp_stub_fc.py:321-341 | The reboot stops every motor, restores the saved settings, forgets the telemetry, restarts the readiness delay, and resets the ESCs exactly when the wire format changes |
| FlightController.StubFc.QueueCommands | SITL/msp_stub_fc.py:403-425 | The queueing loops give each addressed motor the listed commands in order, a zero clearing its queue |
| FlightController.StubFc.Handle | SITL/msp_stub_fc.py:352-436 | Every request handler changes the controller, queues and motors as the value-level dispatch does, and fails exactly where it does, reads and output reordering included |
| FlightController.StubFc.CliCommand | SITL/msp_stub_fc.py:459-493 | set, save and exit in CLI mode, a failed save not rebooting |
| FlightRequests.CommandsExactly | SITL/msp_stub_fc.py:403-414 | Exactly when a DShot command request is accepted, by its bytes and the motors: a motor above 1000 takes only stops, no queue passes 32; a refused one changes nothing |
| FlightRequests.CommandsObeyed | SITL/msp_stub_fc.py:415-425 | What an accepted one does: each addressed motor drops all before the last stop and queues the rest twenty times each, the last telemetry switch deciding; nothing else changes |
| FlightRequests.StopsExactly | SITL/msp_stub_fc.py:352-402 | Exactly which requests stop the motors, refused or not; the others leave motors and queues alone |
| FlightRequests.AcceptsExactly | SITL/msp_stub_fc.py:352-436 | Which requests are accepted, where settings do not decide |
| FlightRequests.StoreFollows | SITL/msp_stub_fc.py:378-397 | The controller's settings change exactly as the store's own requests say, so all that is proved of its runs holds here |
| FlightRequests.CliStoreFollows | SITL/msp_stub_fc.py:459-475 | The same for the command line |
| FlightRequests.RebootStartsOver | SITL/msp_stub_fc.py:321-341 | After a reboot every motor is as new, the settings are the saved ones, and the ESCs are reset if and only if the wire format changed |
| FlightRequests.EdtExactly | SITL/msp_stub_fc.py:258-269 | Exactly when a turn queues a telemetry switch of its own |
| FlightRequests.EdtSent | SITL/msp_stub_fc.py:270-282 | And that its first copy is the same turn's frame |
| FlightSafety.Run | SITL/msp_stub_fc.py:235-256 | In every run of both threads, the host and the clock: the invariant (modes, books, queues of at most 32 commands numbered 1..47 with 1..20 repeats, motor values 1000..2000, valid settings, known protocol) holds |
| FlightSafety.EveryEventPermitted | SITL/msp_stub_fc.py:235-282 | Every frame ever sent: only in MSP mode; throttle 0 or 49..2047, commands 1..47; in the wire format its ESC has seen since the last reboot that changed it; silent until exactly the later of two seconds after the last reboot and the quiet time of its motor (0.04 s after the last copy of command 12, 0.3 s after 1 to 5); silent or a telemetry switch when the sampled time is over two seconds past the last request; a command is accepted only for a motor that is off, and its frame carries the next command owed; any other frame past the deadline carries exactly the throttle of the motor value last set, and only when nothing is owed; and the mode changes to 4-way or CLI only with the motors off and nothing owed |
| FlightSafety.WiresNeverShared | SITL/msp_stub_fc.py:495-552 | Between entering a mode and the next change of mode, DShot frames occur only in MSP mode and ESC traffic only in 4-way mode |
| FlightSafety.TrafficNeedsSession | SITL/msp_stub_fc.py:495-518 | Every 4-way transmission follows the start of a session that is still open |
| FlightSafety.NothingLost | SITL/msp_stub_fc.py:403-425 | Every command accepted since a motor was last stopped was sent twenty times in order or is queued with exactly its missing repeats; and the traffic of the open 4-way session went only to ESCs that had answered |
| FlightSafety.FramesCarryTheirValue | SITL/sitl_dshot.py:60-66 | Every value sent in any run survives the eleven bit frame |
| FlightSafety.NextAudited | SITL/msp_stub_fc.py:343-552 | Each single step of either thread keeps every motor's books and passes the audit |
| FlightSafety.DrivenExactly | SITL/msp_stub_fc.py:235-282 | A turn sends a motor anything but silence or a telemetry switch if and only if its sampled time is at most two seconds after the last request and past the deadlines, the wire is free, and a command other than 13 and 14 heads the queue, or the queue is empty and the motor on |
| FlightSafety.ThrottleSentExactly | SITL/msp_stub_fc.py:235-282 | A turn sends a motor throttle if and only if its sampled time is at most two seconds after the last request and past the deadlines, the wire is free, the queue empty and the motor on |
| FlightSafety.StaleSampleDrives | SITL/msp_stub_fc.py:237-247 | Judged by the time the frame leaves, the two seconds are not kept: a run in which the sender waits for the lock and then drives the motor |
| SerialBridge.Bridge.Hear | SITL/sitl_serial_bridge.py:123-142 | Wire time, echo queue, pending frame and gap after a chunk from the host |
| SerialBridge.Bridge.FlushEcho | SITL/sitl_serial_bridge.py:144-147 | The popping loop echoes exactly the ripe chunks at the front of the queue, in order |
| SerialBridge.Bridge.LoopOnce | SITL/sitl_serial_bridge.py:185-196 | One turn of the loop does what the value-level turn says, reply or no reply |
| SerialBridgeRuns.RunPermitted | SITL/sitl_serial_bridge.py:123-196 | Over every run with clock readings in order: a chunk is echoed once, in order, and ESC bytes come only when none is owed; the reset comes once, half a second after a frame, before any reply; a resend comes only between the reset and three seconds later, a tenth of a second after the last send, and repeats the current frame (its last 512 bytes once chunks were joined) |
| SerialBridgeRuns.TurnExactly | SITL/sitl_serial_bridge.py:185-196 | After every run, exactly what one more turn writes, from what was written before and what the turn reads: the chunk, the echoes owed (all of them before ESC bytes, else those whose time has come up to the first that is not due), the ESC bytes, a reset, a resend |
| SerialBridgeRuns.ResetsExactly | SITL/sitl_serial_bridge.py:159-183 | A quiet turn resets the ESC if and only if resetting is on, it was never heard nor reset, and a frame waited half a second; it resends that frame if and only if a reset at most three seconds ago is unanswered and the last send was a tenth of a second ago |
| SerialBridgeRuns.WireSpeed | SITL/sitl_serial_bridge.py:123-142 | A byte takes ten bits at 19200 baud |
| SerialBridgeRuns.EchoIsPrefix | SITL/sitl_serial_bridge.py:144-157 | With the echo on, echoed bytes are at every moment a prefix of the bytes the host sent, and all of them whenever ESC bytes are written |
| SerialBridgeRuns.EarlyEchoMeansReply | SITL/sitl_serial_bridge.py:144-157 | A chunk echoed before its last bit was due is followed, after echoes only, by ESC bytes |
| SerialBridgeRuns.AtMostOneReset | SITL/sitl_serial_bridge.py:159-183 | At most one reset and thirty resends in any run, and none where resetting is off |
| Audio.RampLineIsLoop | SITL/sitl_tones.py:212-230 | The clipped line is the gain loop after any number of samples |
| Audio.PhaseLineIsLoop | SITL/sitl_tones.py:218-234 | The straight phase is the wrapped one up to whole turns, and steps of at most a turn keep the loop within one |
| Audio.PhasesAgree | SITL/sitl_tones.py:218-234 | The phase kept after a block is the loop's, except that a full turn is kept as none |
| Audio.SineDevice.ReadLoop | SITL/sitl_tones.py:225-237 | The scalar loop produces the stepwise gains and phases |
| Audio.SineDevice.ReadBlock | SITL/sitl_tones.py:205-224 | The block form produces the same gains, and leaves the same gain |
| Audio.PlayablePrefix | SITL/sitl_tones.py:364-369 | The playable positions come first, so their count is where they end |
| Audio.PlaceLine | SITL/sitl_tones.py:366-384 | Position and fade before any sample of the loop, in closed form |
| Audio.PeakLineIsPeak | SITL/sitl_tones.py:385-391 | The scaled running maximum is the recurrence max(abs x, decay times peak) |
| Audio.FollowIsPeak | SITL/sitl_tones.py:347-351 | Over any block, the scalar follower equals that recurrence after every sample if and only if no sample lies above the decayed peak and not above the peak |
| Audio.FollowNearPeak | SITL/sitl_tones.py:347-351 | Over any block the scalar peak lies between the recurrence and one decay below it |
| Audio.PhysDevice.Refill | SITL/sitl_tones.py:318-333 | All samples are kept up to a second of them, beyond that the newest half second from its start; the consume ratio is what is left over a tenth of a second, kept within 0 and 4 |
| Audio.PhysDevice.ReadLoop | SITL/sitl_tones.py:337-358 | The scalar loop: samples, fades, peaks, position and trimmed buffer by the stepwise definitions |
| Audio.PhysDevice.ReadBlock | SITL/sitl_tones.py:360-398 | The vectorised block: the same samples, fades, position and buffer, every index in range, with the recurrence's peaks |
| Audio.ReadersAgree | SITL/sitl_tones.py:337-398 | The two readers agree in samples and fades; in everything, if and only if no sample lies in the gap; and their peaks always within one decay |
| Audio.BetweenIsStraight | SITL/sitl_tones.py:339-342 | A sample lies on the straight line between its neighbours |
| Audio.TrimKeepsPlace | SITL/sitl_tones.py:354-357 | Dropping played samples changes nothing still to be heard |
| Audio.BlocksJoin | SITL/sitl_tones.py:337-357 | Two blocks with the trim between them are one long block: places, fades and values |
| Audio.FadeAndDecay | SITL/sitl_tones.py:345-351 | A fade takes a thousand samples; a peak loses three parts in a hundred thousand each |
| Audio.RampNears | SITL/sitl_tones.py:225-229 | One step brings the gain nearer by the step, or all the way, and never past |
| Params.ImageOverrides | SITL/sitl_params.py:282-296 | The loop over offsets collects exactly the named bytes that differ and the offsets without a name, in order |
| Params.BuildImage | SITL/sitl_params.py:238-249 | Whatever the order of the overrides, the loop fails exactly where a name is unknown or a value, negative ones included, is no byte, and else writes each at its place |
| Params.ParseFile | SITL/sitl_params.py:252-267 | The line loop gives the settings of the value-level parse, or its first error |
| Params.FormatFile | SITL/sitl_params.py:299-322 | The printing loops build the value-level text |
| ParamNumbers.SpelledRead | SITL/sitl_params.py:266 | Any sign, digits before and after a point and exponent are read as the whole part, with its sign, of the double nearest to those digits at that exponent; an infinite one is refused |
| Doubles.WholeExactly | SITL/sitl_params.py:266 | Below 2^53 that is the whole part of the number itself, or the next whole number, if and only if the number is within half a spacing of doubles of it (ties to even) |
| Doubles.CoarseIs | SITL/sitl_params.py:266 | From 2^53 on it is the nearest multiple, ties to even, of the power of two that keeps 53 bits |
| ParamNumbers.UnderscoresIgnored | SITL/sitl_params.py:266 | Underscores between digits are ignored, and anywhere else refuse the number |
| ParamNumbers.NumberRead | SITL/sitl_params.py:266 | A whole number below 2^53 with any fraction behind it is read as itself with its sign, or as the next one exactly where the fraction rounds up to it |
| ParamNumbers.DecimalRead | SITL/sitl_params.py:266 | Every whole number below 2^53 is read as itself |
| ParamNumbers.PointMoves | SITL/sitl_params.py:266 | Moving the point to the right by as many digits as the exponent falls changes nothing |
| Params.EntryFields | SITL/sitl_params.py:316-321 | An entry line, padding and comment included, has the name and the decimal byte as its two fields |
| Params.ParseOfFormat | SITL/sitl_params.py:252-322 | Parsing the text printed for any image, with any header, gives exactly its named overrides |
| Params.BuildRestores | SITL/sitl_params.py:238-296 | Building from an image's overrides gives the image back if and only if no unnamed byte differs from the base |
| Params.TextRestores | SITL/sitl_params.py:238-322 | The same through the printed text |
| Params.LineExactly | SITL/sitl_params.py:256-266 | What one line does: exactly when it is skipped, sets a parameter (its name in any case), or ends the file as unknown or malformed |
| Params.CommasSeparate | SITL/sitl_params.py:257 | Spaces and commas in any mixture separate name and value, and a comment may follow |
| Params.BuildExactly | SITL/sitl_params.py:238-249 | Exactly which overrides make an image, and every byte of it |
| Params.HeaderPrinted | SITL/sitl_params.py:299-306 | Each header line is printed behind "# " |
| Params.ListedReads | SITL/sitl_params.py:307-315 | The unnamed offsets are noted in decimal, all of them in order |
| Params.EntryColumns | SITL/sitl_params.py:316-321 | The columns of an entry line |
| ParamText.LinesRead | SITL/sitl_params.py:256-257 | What is written line by line is read line by line |
| ParamText.CrLfLinesRead | SITL/sitl_params.py:256-257 | So are lines that end in CR LF |
| Params.KvByteRoundTrip | SITL/sitl_params.py:153-161 | Every stored Kv byte comes back from its Kv value |
| Params.KvWithinTwenty | SITL/sitl_params.py:153-161 | A Kv value comes back within 20 if and only if it lies from 0 to 10240 |
| Params.KvNearest | SITL/sitl_params.py:153-156 | Half way between two bytes the even one is taken |

## Left out

- GUI code, audio devices and sinks, sockets, ptys, sysfs and Windows attach handling, packaging and runner scripts, DroneCAN panels, capture and plotting tools: foreign calls or user interface.
- The bootloader and the firmware: an ESC is any function from the whole history of frames and resets to the bytes it returns before the client stops waiting. Read timeouts and stale serial bytes are part of that choice, so `flush_serial` has no effect of its own.
- The three seconds of reprobing after a reset are a bound on the number of probes, which may depend on the history.
- The client cache and the device-info structure read of the one-wire client (`read_devinfo_struct`) are not modelled; nothing in the 4-way server uses them.
- Send failures, negative USB/IP lengths and request numbers reused while in flight; USB descriptors are a parameter.
- The USB/IP header exchange before a session and the byte layout of its messages: messages are values.
- Random numbers, rates and delays of the link faults: every outcome they allow is a choice; the tally of injected faults has no effect.
- `_fourway` discards bytes that arrived while a reply was prepared (msp_stub_fc.py:495-518); here they are chunks that never arrive.
- What MSP reads answer (sensor values, telemetry, names); whether they succeed is modelled.
- Telemetry decoding into rpm, temperature and voltage: only the flag that telemetry was seen matters to the sender, and it may be set at any moment.
- The pacing of the DShot loop (`nxt`): any turn may find a frame due. Lock sections take no time; time passes between them.
- A controller built without its motor threads (`motor` false, msp_stub_fc.py:132): the model has them.
- Loading settings from a file: runs start from any valid settings.
- CLI text (echo, backspace, listing): the CLI is the list of actions its lines amount to.
- The wall clock of the linker is taken to be in order, and its readings arbitrary.
- Floating-point rounding: audio, Kv conversion and times are over the reals. Soft clipping, 16 bit rounding and the sine are applied to equal arguments by both forms and left out.
- Notes and melody matching (`events_to_notes`, `match_notes`, sitl_tones.py:58-73, 509-521), capture back end and EEPROM poller: they would add easier members only.
- Params.ParseOfFormat: parameter table, base image, fixed comment lines and engineering values are parameters (any table of distinct upper-case names at distinct offsets below 192, any one-line comments), not the listed constants.
- Params.ParseFile: only ASCII digits are digits and only ASCII letters change case.
- FlightController.StubFc: the motor objects are values in one sequence field, so aliasing of motor objects is not captured.
- OneWire.Bench: all clients write one log; which of two ESCs heard its bytes first in real time is not captured beyond the order of sending.
