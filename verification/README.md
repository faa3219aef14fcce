# E-DIO24 driver, simulator and command generator: a verified model

The E-DIO24 is a 24-bit digital I/O device that is driven over TCP by small checksummed frames. This
project models the frame library (`src/libedio24.c`), the receive paths of the client and of the device
simulator (`utils/edio24cli.c`, `utils/edio24sim.c`), the command generator (`utils/gencctcmd.c`) and the
support functions they use (`utils/utils.c`), and proves what they guarantee together:

* **Framing.** For every byte stream, garbage included, every way of splitting it into chunks and every
  buffer size, the read callbacks consume the same frames, keep the same bytes and drop the same bytes as
  if the stream had arrived in one piece (`Framing.AnyFragmentation`); the frames are those of the unique
  segmentation of the stream (`Framing.CutIsTheSegmentation`). The classes `Client.EdioClient` and
  `Server.EdioServer`, with real buffers and overlap-safe moves, carry this as their invariant.
* **Request and reply.** In every state of every run of client and simulator over two ordered byte
  channels, each request is waiting, or its reply is on the way, or its reply was counted, and the i-th
  response answers the i-th request (`Pipeline.RunInvariant`); no run can get stuck
  (`Pipeline.EveryRunCanFinish`). The read callbacks and the command interpreter of the two classes are
  the steps of these runs (`Pipeline.DeliverToServer`, `Pipeline.DeliverToClient`, `EndToEnd.SendLine`),
  and the client's own counters balance (`Pipeline.CountersBalance`).
* **Commands.** Typed pin lists are parsed, printed, parsed again, expanded to text lines, compiled to
  frames, delivered in arbitrary pieces and executed on a device with a 24-bit latch and direction register;
  from any state the attenuators and power pins end up as asked (`Device.AttenuationDelivered`, `Device.TypedAttenuation`, `Device.PowerDelivered`), also
  behind any earlier traffic in any run of client and simulator (`EndToEnd.AttenuationInPipeline`,
  `EndToEnd.PowerInPipeline`).
* **Support.** Binary search with insertion point and comparison bound, lookup by name against a linear
  scan, tab-separated columns, in-place stripping, hexadecimal buffers, the doubling list.

Layout: `Bytes`, `Memory`, `Frame` (what frames mean), `Codec` (builders and readers on buffers), `Framing`
(streams), `Client`, `Replies`, `Server`, `Pipeline`, `Bits`, `Text`, `PinList`, `Gencctcmd`, `Commands`,
`Device`, `EndToEnd`, `Search`, `Boards`, `HexBuf`, `Strip`. `dafny verify dfyconfig.toml` checks everything.

## Where the code falls short of its intent

The model follows the code; where a promise fails, the exact condition under which it holds is proved.

* `src/libedio24.c:1576` tells the reply builder that the output buffer has the size of a pointer. The
  constant 8 is modelled (`Replies.PointerSize`) next to the capacity checked at line 1561
  (`Replies.OutputSize`). With 8, the packet for a request is a proper reply for every earlier content of
  the simulator's output buffer (37 bytes or more) if and only if the reply has at most one payload byte
  (`Replies.PointerSizedRoomSuffices`). For every other request there is a buffer content that makes the
  client count no response ever again (`Pipeline.PointerSizeSilencesExactly`); reading the inputs with a
  zeroed buffer is such a case (`Pipeline.DinReadCanSilence`). The pipeline results hold for both settings,
  over the requests each setting can answer.
* `src/libedio24.c:1574-1576` uses the output buffer as payload source, so the payload is the former start of
  that buffer; `Replies.Outgoing` says exactly which bytes go out.
* `src/libedio24.c:869` bounds value reads by the buffered bytes instead of the frame and the callers ignore
  failures, so a short memory read is answered by the bytes behind it or by uninitialised variables
  (`Replies.ShortMemReadPeeksAhead`); `Replies.MemReadSettledExactly` gives the exact condition.
* `src/libedio24.c:511` ignores the payload length; the room for it is a precondition of
  `Codec.CreateConfMemW`. The 16-bit count field cannot hold longer payloads (`Frame.RoundTrip`).
* `src/libedio24.c:382` sends the BLINKLED opcode for the firmware command, and `utils/edio24cli.c:316` sends a
  status request for `Reset`. Neither CMD_RESET nor CMD_FIRMWARE is known to the receivers.
* `utils/edio24cli.c:327-338` reads the arguments of all memory-read lines at one offset; only `ConfigMemoryR`
  is sent as typed (`Commands.MemReadArguments`). `UserMemoryR` and `UserMemoryW` are ignored.
* A direction command can itself clock an attenuator whose pin was an input at low level with its latch bit set;
  the exact value it then takes is part of `Device.AttenuationCompiled` (`Device.OpeningIsHarmless`).
* The two halves of an attenuation are cut to eight bits, so they add up to the requested value exactly up
  to 510 (`Device.AttenuationAddsUp`).
* `utils/gencctcmd.c:622` also skips tabs, so a blank column yields a later one
  (`Boards.ColumnIsField` has the exact condition).
* Neither receiver looks at the start byte; `Frame.Msg` keeps it as a field.
* A changed count byte can go unnoticed (`Frame.CountByteErrorCanPass`); every other single-byte change is
  found (`Frame.SingleByteError`).

## Model

| member | source | states |
|---|---|---|
| Bytes.SumUpdate | src/libedio24.c:86-96 | replacing one byte moves the byte sum by exactly the difference |
| Bytes.LESplit | src/libedio24.c:456-459 | the builders' byte split keeps the number, read back little-endian |
| Frame.VerifiesIsWholeSum | src/libedio24.c:985-1002 | a frame passes verification exactly if all its bytes sum to 255 modulo 256 |
| Frame.RoundTrip | src/libedio24.c:985-1043 | decoding undoes encoding, whatever follows, exactly for payloads below 65536 bytes |
| Frame.Layout | src/libedio24.c:1016-1043 | start, command, frame id and status in the first four bytes, the count little-endian, then the payload, and all bytes summing to 255 |
| Frame.RequestHeader | src/libedio24.c:164-190 | requests start with 0xDB, command, frame id, 0 |
| Frame.EncodeVerifies | src/libedio24.c:985-1043 | every built frame stands alone, verifies and decodes to what was built |
| Frame.DecodeIsLeftInverse | src/libedio24.c:985-1002 | every verifying frame is the encoding of the record it decodes to |
| Frame.CountOfEncode | src/libedio24.c:820-839 | the decoded count is the payload length modulo 65536 |
| Frame.SingleByteError | src/libedio24.c:985-1002 | a single wrong byte is always found unless a count byte shrank and the shorter prefix sums up |
| Frame.CountByteErrorCanPass | src/libedio24.c:996-999 | that exception occurs: a frame that still verifies with a smaller count |
| Memory.MemMove | src/libedio24.c:517 | destination holds the former source bytes, also when both overlap, and nothing else changes |
| Codec.RemoveHead | utils/edio24cli.c:127-136 | the unprocessed rest of the buffer is moved to the front unchanged |
| Codec.Checksum | src/libedio24.c:86-96 | the wrapping 8-bit loop computes the byte sum modulo 256 |
| Codec.ReadCount | src/libedio24.c:820-839 | the little-endian count of a header, error below six bytes |
| Codec.Verify | src/libedio24.c:985-1002 | success exactly for a complete head frame with the right checksum |
| Codec.ReadValue | src/libedio24.c:850-886 | the 32-bit shift-and-add loop returns the base-256 value of 0 to 4 bytes without loss, with all error returns |
| Codec.PairRoundTrip | src/libedio24.c:736-769 | the server's two 3-byte reads return the mask and value the builder was given |
| Codec.AddressRoundTrip | src/libedio24.c:448-478 | the server's two 2-byte reads return address and count |
| Codec.CreateDinR | src/libedio24.c:164-190 | exactly the encoded empty request is written, the frame id moves on; too small a buffer changes nothing |
| Codec.CreateShort | src/libedio24.c:201-354 | the same for the seven builders that patch the command byte and recompute the checksum |
| Codec.CreateFirmware | src/libedio24.c:368-396 | the firmware builder writes a BLINKLED frame with the two key bytes |
| Codec.CreateBlinkLed | src/libedio24.c:407-433 | the one-byte LED request |
| Codec.CreateDOutW | src/libedio24.c:736-769 | mask and value, three bytes each, lowest first |
| Codec.CreateDConfW | src/libedio24.c:781-793 | the same payload under the configuration command, checksum recomputed |
| Codec.CreateConfMemR | src/libedio24.c:448-478 | address and count, two bytes each |
| Codec.CreateMemR | src/libedio24.c:548-674 | the three derived memory reads |
| Codec.CreateConfMemW | src/libedio24.c:501-536 | the payload is what the source held before the call, wherever it overlaps the output buffer |
| Codec.CreateMemW | src/libedio24.c:578-724 | the three derived memory writes |
| Codec.CreateRespond | src/libedio24.c:1016-1043 | reply bit, frame id, status and the former source bytes, also from the output buffer itself |
| Framing.Judge | src/libedio24.c:1264-1368 | an accepted length is the frame length and lies within the buffered bytes |
| Framing.VerdictOnFrame | src/libedio24.c:1274-1368 | the verdict on a complete head frame in terms of its bytes: accepted exactly with a sum of 255 and one of the 18 opcodes of the switches, 0x51 and 0x60 not among them; which error comes first on either side |
| Framing.MissingIsLeast | src/libedio24.c:1264-1285 | the exact number of missing bytes, and that fewer never settle the verdict |
| Framing.JudgeIsStable | src/libedio24.c:1274-1285 | the verdict on a complete head frame depends on that frame alone |
| Framing.CutIsTheSegmentation | utils/edio24cli.c:115-151 | repeated acceptance computes the unique segmentation into verified known frames that fit the buffer |
| Framing.CutResumes | utils/edio24cli.c:115-151 | cutting may stop and resume anywhere in the stream |
| Framing.FillCuts | utils/edio24cli.c:177-202 | copying and processing in turns equals cutting everything at once, with the stall at a full buffer |
| Framing.ReadChunkContinues | utils/edio24cli.c:163-203 | one callback takes the state after a stream to the state after the longer stream |
| Framing.AnyFragmentation | utils/edio24cli.c:101-203 | fragmentation independence for all bytes, all chunkings and all buffer sizes |
| Framing.ByteConservation | utils/edio24cli.c:127-202 | received bytes are consumed verified frames, then buffered bytes, then dropped bytes; drops only with a full buffer |
| Framing.GoodStream | utils/edio24cli.c:101-203 | good frames and an unfinished tail: exactly these frames, exactly the tail kept, stall if and only if the tail exceeds the buffer |
| Framing.DrainedStaysDrained | utils/edio24cli.c:115-151 | running the processing loop again changes nothing |
| Framing.DeadExactlyWhenHopeless | src/libedio24.c:1274-1368 | no continuation is ever consumed exactly if the command is unknown, the frame too long or complete and wrong |
| Framing.StickyFailure | utils/edio24cli.c:115-151 | once the head is hopeless no later chunk changes what was consumed |
| Framing.PrefixOfGood | utils/edio24cli.c:115-151 | a prefix of good frames yields whole frames and less than one more |
| Client.VerifyTcp | src/libedio24.c:1240-1369 | 0, 1, 2 or -1 with the processed or missing size, one for each verdict on the buffered bytes |
| Client.EdioClient.constructor | utils/edio24cli.c:519-523 | the zeroed client is in the state after the empty stream |
| Client.EdioClient.ProcessData | utils/edio24cli.c:101-154 | consumes and counts exactly the frames at the front of the buffer |
| Client.EdioClient.CopyAndProcess | utils/edio24cli.c:176-196 | the copying loop, its stall included |
| Client.EdioClient.OnRead | utils/edio24cli.c:163-203 | after any calls the client is in the state the received stream determines |
| Replies.PlainShape | src/libedio24.c:1465-1556 | for the 14 opcodes other than memory reads: the status is left alone and the payload has 3, 4, 2, 12 or 0 bytes |
| Replies.PlainPacket | src/libedio24.c:1561-1583 | the packet written for such a request decodes to its command with the reply bit, its frame id, status 0 and that many bytes |
| Replies.PlainAnswer | src/libedio24.c:1421-1583 | so does every answer of a run, a drawn failure of 1 to 6 apart |
| Replies.MemReadReply | src/libedio24.c:1498-1543 | a memory read is answered in full exactly if it asks for 1 to 1024 bytes up to 0x0F, 0x0EEF or 0xFF (the bootloader always), else with status 2 and no payload |
| Replies.MemReadAnswer | src/libedio24.c:1498-1583 | the packet that answers it decodes to exactly that |
| Replies.ShapeIsSettled | src/libedio24.c:1452-1556 | the reply size of a well-formed request depends neither on later bytes nor on unset variables |
| Replies.MemReadSettledExactly | src/libedio24.c:869-1543 | a memory read has a settled reply size exactly with address and size in the payload, or with a hopeless address |
| Replies.ShortMemReadPeeksAhead | src/libedio24.c:869 | a short memory read is answered differently depending on the next frame |
| Replies.OutgoingAnswers | src/libedio24.c:1561-1583 | whatever the output buffer held, the packet is a verifying reply with the request's command and frame id |
| Replies.PointerSizedRoomSuffices | src/libedio24.c:1561-1583 | with the pointer-sized capacity, the packet for a request is a proper reply for every possible content of the output buffer exactly if the reply has at most one payload byte |
| Server.PayloadSize | src/libedio24.c:1465-1556 | the switch computes status and size, unset variables included; literal sizes for everything but memory reads |
| Server.ProcessTcp | src/libedio24.c:1388-1584 | every return path with its sizes and the packet written |
| Server.WriteReply | src/libedio24.c:1572-1576 | the packet bytes after pattern and self-overlapping reply builder |
| Server.Realloc | utils/edio24sim.c:52-59 | keeps the old bytes and grows exactly if needed |
| Server.EdioServer.Round | utils/edio24sim.c:244-302 | one round answers a request, or enlarges the output buffer enough, or stops |
| Server.EdioServer.ProcessData | utils/edio24sim.c:224-308 | terminates; one packet per consumed request, in order; at most two rounds for each well-formed request |
| Server.EdioServer.CopyAndProcess | utils/edio24sim.c:328-352 | the copying loop; a stall closes the connection |
| Server.EdioServer.OnRead | utils/edio24sim.c:315-377 | after any calls the simulator is in the state the received stream determines; the connection is closed exactly if bytes were dropped |
| Pipeline.LinkDelivers | utils/edio24sim.c:315-353 | delivering any part of a link takes whole packets in order and drops nothing |
| Pipeline.ReplyIsAccepted | src/libedio24.c:1268-1368 | a proper reply is a frame the client accepts and mirrors its request |
| Pipeline.ClientReadsWholeReply | src/libedio24.c:1294-1347 | the fixed reply sizes of the simulator are the sizes the client reads |
| Pipeline.StepKeepsInv | utils/edio24sim.c:224-355 | sending and either read callback keep the invariant |
| Pipeline.EveryStateKeepsInv | utils/edio24cli.c:101-203 | the invariant holds in every reachable state |
| Pipeline.RunInvariant | utils/edio24cli.c:143-145 | requests are waiting, being answered or counted; the i-th response carries the i-th command with the reply bit and frame id i modulo 256 |
| Pipeline.QuietMeansAnswered | utils/edio24cli.c:163-203 | with empty channels every request has been counted and both buffers are empty |
| Pipeline.EveryRunCanFinish | utils/edio24sim.c:244-307 | from every reachable state all outstanding requests can be answered and counted |
| Pipeline.PointerSizeSilencesExactly | src/libedio24.c:1576 | with the pointer-sized capacity, some output buffer content makes the reply silence the client for good exactly for replies of two or more payload bytes |
| Pipeline.DinReadCanSilence | utils/edio24sim.c:242-292 | a concrete case: an input read as first request, the output buffer of 37 zero bytes, and no response is ever counted |
| Pipeline.CountersBalance | utils/edio24cli.c:391-392 | requests counted as sent are Sleep lines, counted responses, replies on the way, and waiting requests; the frame id is the number of requests modulo 256 |
| Pipeline.WritesAreAdmissible | src/libedio24.c:1472-1482 | the generated register writes are answered properly in every setting |
| Pipeline.DeliverToServer | utils/edio24sim.c:315-377 | the simulator object's callback is a step of the pipeline and does not close the connection |
| Pipeline.DeliverToClient | utils/edio24cli.c:163-203 | the client object's callback is a step of the pipeline |
| Text.StrtolReadsHex | utils/edio24cli.c:285-286 | a number printed with 0x%06X is read back up to what follows |
| Text.StrtolReads | utils/edio24cli.c:285-286 | blanks, sign, prefix and digits of any letter case are read as the signed number, clamped to 64 bits, up to what follows |
| Text.HexDigitsAre | utils/utils.c:560-590 | the hexadecimal digits of both letter cases and their values; nothing else is one |
| Text.DigitsAre | utils/gencctcmd.c:81-84 | the decimal digits, their values and how they are printed |
| Text.DecRoundTrip | utils/gencctcmd.c:82 | a number printed with %d is read back |
| Commands.ProcessCommand | utils/edio24cli.c:268-394 | one line sends at most one packet, counts it, and moves the frame id with it |
| Commands.ProcessFile | utils/edio24cli.c:397-404 | a file of lines sends the packets of its lines in order, numbered from the current frame id |
| Commands.TextToDevice | utils/edio24cli.c:280-294 | for all 24-bit masks and values, the printed line, with or without its newline, reaches the server's reads as mask and value |
| Commands.TypedWrite | utils/edio24cli.c:280-294 | a register write as typed, any separators: mask and value cut to 32 bits |
| Commands.TypedMemRead | utils/edio24cli.c:335-338 | a configuration memory read as typed: address and count cut to 16 bits |
| Commands.TypedMemWrite | utils/edio24cli.c:340-373 | a memory write as typed: address cut to 16 bits, data parsed; ignored with bad data |
| Commands.PlainNames | utils/edio24cli.c:296-322 | the opcode each argumentless command sends, whatever follows the name |
| Commands.BlinkAndFirmware | utils/edio24cli.c:311-325 | BlinkLED sends 0x50 with the number, FirmwareUpgrade 0x50 with its two key bytes |
| Commands.SleepLine | utils/edio24cli.c:376-382 | a Sleep line counts as a request with an empty packet |
| Commands.IgnoredLines | utils/edio24cli.c:384-387 | a line that starts with none of the names is ignored, and only memory writes among the others can be |
| Commands.MemWriteWithoutData | utils/edio24cli.c:340-373 | no data sends the address alone, text that is no data is ignored |
| Commands.MemReadArguments | utils/edio24cli.c:327-338 | what the three memory-read lines send for typed numbers: right, shifted, lost |
| Commands.MemWriteArguments | utils/edio24cli.c:340-377 | a memory-write line sends its address and up to 91 bytes as typed |
| PinList.ParseValuesAtten | utils/gencctcmd.c:30-102 | the index loop computes the scanner's result, partial results on failure included |
| PinList.ScanTokens | utils/gencctcmd.c:50-97 | the scanner gives every token list its meaning, an error at the first misplaced all or strange character |
| PinList.EveryTextIsTokens | utils/gencctcmd.c:50-97 | every argument is a token list with nothing or strange text behind it |
| PinList.WhatIsParsed | utils/gencctcmd.c:30-102 | return code, mask and value for every argument in terms of its tokens; empty arguments and a missing value are errors |
| PinList.ParseUndoesPrint | utils/gencctcmd.c:50-101 | a printed list with optional value and outer commas is parsed to exactly its pins and value |
| PinList.ParseListThenValue | utils/gencctcmd.c:50-101 | a typed list followed by a value likewise |
| PinList.ParseAllThenValue | utils/gencctcmd.c:64-72 | the word all selects every pin |
| PinList.BitOfSetAll | utils/gencctcmd.c:90-91 | the mask has exactly the listed bits |
| Gencctcmd.OutputAtten | utils/gencctcmd.c:177-230 | the lines printed for an argument, none if it does not parse |
| Gencctcmd.AttenTextSpelled | utils/gencctcmd.c:194-228 | the nine lines, letter by letter |
| Gencctcmd.OutputPower | utils/gencctcmd.c:137-162 | the lines printed for a power argument, none and an error return if it does not parse or names a value |
| Gencctcmd.PowerTextSpelled | utils/gencctcmd.c:152-160 | the three lines, letter by letter |
| Gencctcmd.DoSetAtten | utils/gencctcmd.c:1313-1422 | a connect line and the device's lines for each selected device in order |
| Gencctcmd.DoSetPower | utils/gencctcmd.c:1431-1475 | likewise for power, the root position shifted out |
| Gencctcmd.PairArgIsPinText | utils/gencctcmd.c:1355-1374 | the argument printed for equal halves lists pins 0,1 and 2,3 of the selected boards |
| Gencctcmd.SideArgIsPinText | utils/gencctcmd.c:1378-1417 | the arguments printed for unequal halves list the even or the odd pins |
| Gencctcmd.AttenTextIsExact | utils/gencctcmd.c:177-229 | the printed argument is parsed back and expanded with its own pins and value |
| Gencctcmd.PowerTextIsExact | utils/gencctcmd.c:1464-1471 | the printed power list is parsed back as the low eight board bits |
| Gencctcmd.SectionOfDevice | utils/gencctcmd.c:1348-1421 | every selected device has its section, the spelled connect line first, directly behind the smaller numbers; an unselected one adds nothing |
| Device.LatchCaptures | utils/gencctcmd.c:194-223 | from any latch and directions: all pins become outputs, the masked pins capture the value, everything else stays as described |
| Device.AttenuationCompiled | utils/gencctcmd.c:1313-1422 | from any latch and directions: all 24 pins end as outputs, halves stored for selected boards, other attenuators as they were when the pins became outputs, port 0 untouched, port 2 and selected pins zero |
| Device.OpeningIsHarmless | utils/gencctcmd.c:194-195 | exactly when making all pins outputs leaves an attenuator alone |
| Device.ClocksArePaused | utils/gencctcmd.c:205-213 | a pause stands directly before and behind every line that can clock an attenuator |
| Device.AttenuationAddsUp | utils/gencctcmd.c:1335-1345 | the halves add up to the value exactly for values up to 510 |
| Device.PowerCompiled | utils/gencctcmd.c:1431-1475 | from any latch and directions: all pins end as outputs, and the level of pin j of port 0 is high exactly if board j+1 is in the mask |
| Device.AnyDeliverySameEffect | utils/edio24sim.c:315-353 | packets have the same effect however the byte stream is split |
| Device.PlainTextIsDeliverable | utils/utils.c:268-270 | generated text, read line by line with its newlines, compiles to the same packets as without, each of them a frame the simulator takes |
| Device.AttenuationDelivered | utils/edio24cli.c:268-394 | generated text, newlines included, compiled, delivered in any pieces and executed, leaves the attenuators as asked |
| Device.PowerDelivered | utils/edio24cli.c:268-394 | the same for the power pins |
| Device.TypedAttenuation | utils/gencctcmd.c:1327-1345 | from typed board list and value to the stored halves |
| Device.TypedClusters | utils/gencctcmd.c:1319-1352 | a typed device list selects exactly the listed devices of the table whose address fits 200 characters |
| Device.TypedPower | utils/gencctcmd.c:1446-1451 | from typed board list to the power pins |
| EndToEnd.PacketIsRequest | utils/edio24cli.c:280-391 | every packet a command line puts on the wire is a request with the client's frame id, a listed opcode, and for memory reads address and count |
| EndToEnd.LineIsAccepted | src/libedio24.c:1294-1552 | every packet of at most 65 bytes that a line puts on the wire is taken by the simulator, and with the reply bit by the client |
| EndToEnd.LineIsSendable | src/libedio24.c:1465-1583 | and it may be sent in every run, up to bootloader reads above 1024 bytes; with the pointer-sized capacity if its reply has no payload |
| EndToEnd.SendLine | utils/edio24cli.c:268-394 | one command line on the client object is one Send step of the pipeline, or none for a Sleep line or an ignored one |
| EndToEnd.FileIsRun | utils/edio24cli.c:397-404 | from every reachable state the lines of a file lead to the reachable state with exactly their requests added |
| EndToEnd.SendFile | utils/edio24cli.c:397-404 | the client object that reads a file is in that state |
| EndToEnd.PlainTextIsSendable | utils/gencctcmd.c:137-230 | generated text may be sent in every setting, the pointer-sized capacity included |
| EndToEnd.TextHasRun | utils/edio24sim.c:224-355 | in any run that answered everything, the text last sent has run on the device behind all earlier requests |
| EndToEnd.AttenuationInPipeline | utils/gencctcmd.c:1313-1422 | in any run whose last requests are the attenuation text, once the channels are empty, every request is counted and the attenuators are set |
| EndToEnd.PowerInPipeline | utils/gencctcmd.c:1431-1475 | the same for the power text |
| EndToEnd.AttenuationReachable | utils/gencctcmd.c:1313-1422 | from every reachable state such a run exists |
| Search.BSearch | utils/utils.c:50-111 | a hit matches; on sorted data a miss gives the exact insertion point; at most floor(log2 n)+1 comparisons |
| Search.BitLengthIsLog | utils/utils.c:83-96 | the comparison bound is floor(log2 n)+1 |
| Boards.GetColumn | utils/gencctcmd.c:603-632 | the scanning loops compute the column: field number k trimmed if it is not blank and fits, -1 behind the last field or if it does not fit |
| Boards.ColumnIsFieldFrom | utils/gencctcmd.c:609-630 | the column for every line and number: the first nonblank field from there on, trimmed, if the field exists and the text fits |
| Boards.FieldsAreTheLine | utils/gencctcmd.c:611-617 | the fields joined by tabs are the line and none contains a tab |
| Boards.ColumnIsField | utils/gencctcmd.c:609-625 | the column is the trimmed field of that number exactly if it is not blank or only blanks follow |
| Boards.BoardList.Append | utils/gencctcmd.c:496-532 | contents grow by the row, capacity is 0 or 20 times a power of two, fewer than 2n moves for n rows |
| Boards.BoardList.Get | utils/gencctcmd.c:480-487 | the row of that number, if there is one |
| Boards.SortedIsAscending | utils/gencctcmd.c:887-902 | on rows sorted by name the comparison callback is ascending |
| Boards.FindBoard | utils/gencctcmd.c:912-922 | the binary search returns what a linear scan returns |
| Boards.GetColumnOfBoard | utils/gencctcmd.c:912-930 | field number column, trimmed, of the record whose trimmed first field is the name; -1 if there is none or the text is missing or too long |
| Boards.GetIpOfBoard | utils/gencctcmd.c:912-930 | that for field 5 |
| Boards.GetMacOfBoard | utils/gencctcmd.c:940-958 | that for field 4 |
| Boards.GetNgcmacOfBoard | utils/gencctcmd.c:968-986 | that for field 3 |
| Boards.StrCmpIsLexicographic | utils/gencctcmd.c:902 | the comparison is lexicographic order |
| Boards.NamedByFields | utils/gencctcmd.c:892-901 | what the callback asserts of the records, in terms of their fields |
| HexBuf.ParseHexBuf | utils/utils.c:557-604 | min(size, digits/2) bytes of the maximal digit run; nothing at or past the size is written |
| HexBuf.HexTextRoundTrip | utils/utils.c:557-604 | bytes written as 0x and hexadecimal text in any letter case are read back, whatever follows the digits |
| HexBuf.SpelledRoundTrip | utils/utils.c:557-604 | bytes spelled with lower-case or with upper-case digits are read back |
| HexBuf.WhatIsParsed | utils/utils.c:580-602 | for any digits: min(size, digits/2) bytes, the high digit first |
| HexBuf.WhatIsRefused | utils/utils.c:572-579 | an error exactly for nonempty text that has fewer than three characters or does not start with 0x |
| Strip.CStrStrip | utils/utils.c:411-452 | in place or into another buffer, the result is the stripped form of the former text; errors change nothing |
| Strip.TrimIsCore | utils/utils.c:411-452 | stripping removes only spaces, tabs, newlines and carriage returns and leaves none at either end |
| Strip.CoreIsTrim | utils/utils.c:411-452 | the stripped text is the only such substring |
| Strip.TrimIsIdempotent | utils/utils.c:411-452 | stripping twice changes nothing more; empty exactly for all-blank text |

## Left out

- Sockets, timers, signals, memory exhaustion, option parsing and usage text: a read callback gets arbitrary bytes, a write appends to a list.
- Connection teardown and reuse, and the client's shutdown when enough responses were counted: one connection per run. A stall of the simulator is recorded in `closed`.
- The UDP discovery and open exchange, names of commands and status codes, hex dumps and all diagnostics.
- NULL arguments: references are never null.
- Random failures and uninitialised memory are arbitrary values; only the ranges the code gives them are used.
- Pipeline.RunInvariant: covers well-formed requests of at most 65 bytes whose replies fit the client's 1031-byte buffer; larger bootloader reads stall the client by `Framing.GoodStream`.
- Server.ProcessTcp: when processing fails, the simulator sends its output buffer as it is; such packets are only counted (`junk`).
- Commands.ProcessCommand: excludes lines on which the code reads behind the string or overfills its 100-byte packet buffer; the delay of a Sleep line is not modelled, its empty packet is.
- PinList.ParseValuesAtten: pin numbers of 32 and more, undefined shifts in C, are taken modulo 32 (no result uses them); numbers are unbounded, where atoi stops at 31 bits.
- HexBuf.ParseHexBuf: characters above 127, which the code asserts away, count as non-digits.
- Boards.GetColumn: the result buffer needs one byte beyond its stated size for the terminator; the bytes of the result buffer are returned as a string.
- Gencctcmd.DoSetAtten: the output file is a list of lines; the port 1 and port 2 wiring in `Device`, and that a zero direction bit means output, are what the comments of `output_atten` say (`utils/gencctcmd.c:194-202`). An undriven pin keeps some fixed level.
- Strip.CStrStrip: a separate result buffer must have room for the terminator of a text that is not refused.
- File reading, the list and power-status queries, the Wireshark dissector and build files.
