# VLESS proxy: verified model

This project models the parts of the C++20 VLESS proxy whose correctness does not show in any
one function, and proves what they promise. It stands beside the repository and needs nothing
from it; `dafny verify dfyconfig.toml` checks all of it.

The byte-stream machines must not care how TCP cut the stream:

* **Vision padding** (`TlsRecord`, `VisionContext`, `VisionHello`, `VisionWriter`,
  `VisionReader`, `VisionSession`, `VisionDetection`, `VisionUplink`, `VisionDownlink`): the
  padding writer, the resumable unpadding reader, the TLS state they share and what it detects,
  and the relays around them, up to the inverse theorem over any segmentation.
* **Headers** (`BufferedStream`, `Addons`, `VlessHeader`, `VlessRequests`, `Socks5`): exact reads
  over arbitrary chunks, parsers and printers that invert each other and accept nothing else,
  and a target address that survives the way from the application to the server.
* **UDP** (`UdpRelay`, `UdpSessions`): length-prefixed framing and its inverse, session keys,
  and the exact condition under which the client's downlink loses nothing.
* **Configuration** (`Json`, `JsonText`, `JsonSound`, `JsonStandard`, `Decimal`, `Config`,
  `ConfigFile`, `ConfigLoading`): a recursive-descent parser that accepts exactly the layouts of JSON values,
  among them all of RFC 8259, and the round trip of the configuration file.

The concurrent parts must hold in every interleaving:

* **Operations in flight** (`OpRegistry`): the table of pending io_uring operations.
* **Connection lifecycle** (`Lifecycle`, `LifecycleProofs`, `LifecycleTheorems`,
  `LifecycleWaking`, `Connections`): a labelled step system of accept, submission, completion,
  connect, the two coroutines of a connection and the cleanup pass, with an invariant that
  every step keeps.
* **Logger** (`Logger`): producers, one worker and shutdown over a bounded queue.

`Bytes` and `Streams` hold what all of them use: bytes and 16-bit fields, sockets as lists of
pieces with an end that repeats for ever, sends that answer from a schedule of results;
`Parsing` holds what the header decoders return. `RelayPrefix` says when a relay over them keeps the order of the stream.

Conventions. An object whose methods change its fields is a class, and each method's contract
ties the new fields to a function of the old ones; the properties are lemmas about that
function. What comes from outside is a parameter: the pieces a read returns and the results of
sends, random draws (within the range the code asks for), the outcomes of handshakes and
connects, the descriptors the operating system hands out (any that are not open). Bit fields
that do not overlap are combined by addition; `VisionReader.Reader.Valid` and
`Addons.GroupFits` state that they do not overlap. Text is a string of characters of which the
bytes of a file are the first 256, so what holds for all strings holds for all byte strings.

Some properties fail without a condition. The condition is stated exactly, and an input on
which the property fails stands beside each:

* A relay sends a prefix of what it read: `RelayPrefix.PrefixExactly`. A short write counts as
  progress, so a send that fails behind it and then recovers skips bytes.
* Unpadding does not depend on the cutting: `VisionReader.CuttingDoesNotMatter`. The reader
  expects the first header in one piece, although it can resume everywhere else.
* TLS detection agrees with the extensions of the ServerHello:
  `VisionDetection.DetectionIsRightExactlyWhen`. A real selection of TLS 1.3 is missed when the
  first packet has fewer than six bytes, or the selection is cut between packets, lies behind a
  packet taken for another start, or lies behind the packets that are filtered: uplink pieces
  use up the same count, and a writer in direct copy filters no more. A message that selects
  nothing is taken for TLS 1.3 when the six bytes stand elsewhere in its record, for instance in
  its random; the excluded suite is overlooked in a short first packet.
* The first coroutine to end wakes the other: `LifecycleWaking.WokenExactly`. One that is
  suspended in a write to the side that ended is not woken.
* The client's UDP downlink loses nothing: `UdpSessions.SessionLosesNothingExactly`. What is read
  along with the response header is dropped, and so is a part frame at the end of a later read.
* The logger writes every accepted line: `Logger.LateLinesAreLost`. Lines logged after the
  worker has gone are accepted and lost.
* Whatever an application sends reaches the target: `Socks5.ServeApplication`. What is read along
  with its request stays in a buffer.
* A written configuration is loaded back: `Config.ConfigRoundTrip`. A user without a uuid is
  written but not loaded.
* A written configuration is standard JSON: `JsonStandard.PrintedIsStandardExactly`. Control
  characters other than tab, newline and carriage return are printed as they are.
* A code unit behind `\u` is read as a character: `JsonText.Utf8IsRightlyFormed`. The two halves of
  a surrogate pair are not combined.

## Model

| member | source | states |
|---|---|---|
| `Streams.Sink.WriteFull` | src/coro/async_stream.cpp:15-27 | Under any schedule of partial sends a return of k > 0 means exactly the first k bytes went out; otherwise nothing did and the refusal of the first send is returned |
| `Streams.PushedIsPrefix` | include/coro/async_stream.h:81-109 | As long as no gap opens (where a piece is cut short, the socket refuses the next send or nothing more is to be sent) what a relay sends is a prefix of the pieces it took up |
| `Streams.NothingSentExactly` | include/coro/async_stream.h:100-106 | A relay sends nothing exactly when the socket refuses the next send or every piece is empty |
| `Streams.AllSentExactly` | include/coro/async_stream.h:81-109 | A relay sends everything exactly when no send fails |
| `RelayPrefix.PrefixExactly` | include/coro/async_stream.h:81-109 | The bytes sent are a prefix of the bytes read for all contents of the given lengths exactly when no gap opens behind a piece cut short |
| `RelayPrefix.StickyHasNoGap` | include/coro/async_stream.h:81-109 | A socket that stays failed never leaves a gap, and as long as it has not failed everything was sent |
| `RelayPrefix.ShortWriteMeansFailed` | src/coro/async_stream.cpp:15-27 | On a socket that stays failed, a short write is only possible when the socket has failed for good |
| `RelayPrefix.ShortWriteThenRecoveryLosesBytes` | include/coro/async_stream.h:100-106 | A socket that refuses once behind a partial send and recovers makes the relay skip the middle of the stream, for a short write counts as progress |
| `RelayPrefix.RecoveryWithoutAGap` | include/coro/async_stream.h:100-106 | A socket that refuses between two pieces and recovers does no harm |
| `Streams.CopyStream` | include/coro/async_stream.h:81-109 | Sends exactly the pieces read, in order, until EOF, a read error or a write that returns 0 or less; true exactly on EOF; the bytes sent are a prefix of the bytes read as long as no gap opens, and all of them exactly when no send failed |
| `TlsRecord.WholeRecordsExactly` | src/proxy/vless/vision.cpp:304-346 | Accepted are exactly the concatenations of whole 17 03 03 hi lo records with a non-zero length and full payload (record layout of section 5.1 of RFC 8446) |
| `TlsRecord.RecordIs` | src/proxy/vless/vision.cpp:304-346 | A record is 17 03 03, the length of a non-empty payload, and that payload |
| `TlsRecord.IsCompleteRecord` | src/proxy/vless/vision.cpp:304-346 | The loop over a header counter and a record counter decides that recursive grammar |
| `VisionContext.FilterTls` | src/proxy/vless/vision.cpp:170-242 | The in-place update of the shared TLS state, including its search for supported_versions, is the filter function |
| `VisionContext.DetectHello` | src/proxy/vless/vision.cpp:174-206 | ServerHello and ClientHello detection, with the cipher suite behind a session id of any length |
| `VisionContext.ScanFor13` | src/proxy/vless/vision.cpp:208-235 | True exactly when the TLS 1.3 extension occurs at some offset of the window |
| `VisionContext.FilterKeepsSafe` | src/proxy/vless/vision.cpp:170-242 | Filtering keeps: packetsToFilter in 0..8, and enableXtls implies isTLS, isTLS12orAbove, cipher other than 0x1305 and packetsToFilter 0 |
| `VisionContext.NoticeKeepsSafe` | src/proxy/vless/vision.cpp:100-110 | What the reader does to the shared state keeps the same |
| `VisionContext.DownlinkShows` | src/proxy/vless/vision.cpp:170-233 | On the bytes: 16 03 03 and type 2 show TLS 1.2 or above, those or 16 03 and type 1 show TLS, splicing is enabled only for a suite other than 0x1305, and a packet that starts no ServerHello and continues none changes nothing else but the count |
| `VisionContext.UplinkShows` | src/proxy/vless/vision.cpp:100-110 | On the bytes: the start of a ClientHello shows TLS, and six or more unpadded bytes use up one packet, both only while the filter is open; nothing else changes |
| `VisionHello.FieldsByOffset` | src/proxy/vless/vision.cpp:175-193 | The offsets filterTls reads are those of the record length, the session id and the cipher suite of a ServerHello (section 4.1.3 of RFC 8446) |
| `VisionHello.SelectionOccurs` | src/proxy/vless/vision.cpp:208-219 | A ServerHello whose extensions select TLS 1.3 (supported_versions of section 4.2.1 of RFC 8446) has the six bytes filterTls looks for in its record |
| `VisionHello.SeenSplices` | src/proxy/vless/vision.cpp:170-242 | After any packets the filter alone has enabled splicing exactly when it reaches, among those it is open for, one that holds the six bytes in the part claimed by the last packet that began like a ServerHello, with a suite read so far other than the excluded one |
| `VisionHello.FirstPacket` | src/proxy/vless/vision.cpp:170-233 | Every field of the shared state after the first packet of a ServerHello, which may end before or behind the record |
| `VisionHello.WholeHelloUnderstood` | src/proxy/vless/vision.cpp:170-233 | A ServerHello in one packet closes the filter and enables splicing exactly when the six bytes occur in the record and the suite was not read as the excluded one; that is right exactly when an excluded suite is read, or another one is joined by a selection of TLS 1.3, or the six bytes do not occur |
| `VisionHello.HelloSplices` | src/proxy/vless/vision.cpp:170-233 | A ServerHello cut into any packets with anything behind it, of which n are filtered: with one start splicing is enabled exactly when the first packet has six bytes, the announcement lies in a filtered packet within the record, and the suite is not the excluded one or could not be read from the first packet |
| `VisionHello.CutAnnouncementIsMissed` | src/proxy/vless/vision.cpp:211-214 | A record cut inside the announcement is missed, the same record in one piece is not |
| `VisionHello.ExcludedSuiteIsOverlooked` | src/proxy/vless/vision.cpp:186-193 | In a record of 55 bytes the excluded suite is not read and splicing is enabled |
| `VisionHello.RandomTakenForAnnouncement` | src/proxy/vless/vision.cpp:208-226 | Every message whose random begins with the six bytes enables splicing, whatever its extensions |
| `VisionHello.Tls12TakenForTls13` | src/proxy/vless/vision.cpp:208-226 | A valid message without extensions is taken for TLS 1.3 |
| `VisionHello.LaterStartIsTaken` | src/proxy/vless/vision.cpp:174-206 | A second packet that begins with session id bytes like a ServerHello closes the filter before the announcement |
| `VisionDetection.SessionSees` | src/proxy/vless/vision.cpp:100-168 | A session enables splicing exactly when the filter alone does on as many of its downlink packets as come before uplink pieces have used up the shared count or the writer copies directly |
| `VisionDetection.SplicingFromHere` | src/proxy/vless/vision.cpp:100-242 | From any session without a detected ServerHello, over any further calls in both directions, splicing is enabled exactly when among those packets the filter reaches one that holds the six bytes in the part claimed by the last start, with a suite other than the excluded one |
| `VisionDetection.SplicingExactly` | src/proxy/vless/vision.cpp:100-242 | The same over every run of a connection |
| `VisionDetection.CutHelloUnderstood` | src/proxy/vless/vision.cpp:100-242 | A ServerHello cut into any downlink packets of a run, with anything behind it and uplink pieces anywhere: splicing is given by the starts among the packets that are filtered; with one start it is enabled exactly when the first packet has six bytes, the announcement lies in a filtered packet within the record, and the suite is not the excluded one or could not be read from the first packet |
| `VisionDetection.DetectionIsRightExactlyWhen` | src/proxy/vless/vision.cpp:100-242 | Measured by the extensions of the message, over any run: where splicing is due detection is right exactly when it is noticed in a filtered packet; where it is not due, exactly when nothing is noticed or the excluded suite was read |
| `VisionDetection.TwoAreFiltered` | src/proxy/vless/vision.cpp:115-168 | The first two packets of a connection, in a row, are both filtered, so a run detects what the filter alone detects |
| `VisionDetection.UplinkClosesTheFilter` | src/proxy/vless/vision.cpp:100-110 | A message in two packets is detected, and missed when seven uplink pieces come between them |
| `VisionDetection.DirectCopyTooSoon` | src/proxy/vless/vision.cpp:121-159 | A message one of whose packets is a whole application data record is missed, for the writer copies directly before the announcement, which the filter would have found |
| `VisionWriter.RoomIsExact` | src/proxy/vless/vision.cpp:258-263 | The unsigned subtraction wraps for a packet above the frame limit, and the cast to int32_t gives the true negative difference |
| `VisionWriter.PaddingFits` | src/proxy/vless/vision.cpp:246-264 | Every padding length fits its field; a padded frame keeps the 8192-byte limit; short TLS packets are brought to 900 bytes and the draw whatever their length, others get the draw, and where there is no room the frame is filled up |
| `VisionWriter.HeaderIsExact` | src/proxy/vless/vision.cpp:244-302 | A frame carries its content after a header whose two 16-bit fields are exact (the content field exactly below 65536 bytes), with the padding length drawn for it, and is at most 8192 bytes or has no padding |
| `VisionWriter.Writer.Process` | src/proxy/vless/vision.cpp:121-168 | One call of the writer is the step function, on the three fields, the shared state and the output; VisionSession.CommandExactly and AfterPadding say what that step is |
| `VisionWriter.Writer.Padding` | src/proxy/vless/vision.cpp:244-302 | The frame built through the buffer is the frame of the drawn padding length, with the UUID in front of the first one only |
| `VisionWriter.Writer.Fill` | src/proxy/vless/vision.cpp:266-302 | Filling the frame buffer by offset yields UUID, header, content and padding in order |
| `VisionReader.FeedConcat` | src/proxy/vless/vision.cpp:53-98 | The unpadding automaton may stop and resume between any two bytes |
| `VisionReader.Reader.Unframe` | src/proxy/vless/vision.cpp:53-98 | The two nested loops over three counters, which skip whole runs, compute the automaton that takes one byte at a time |
| `VisionReader.Reader.Process` | src/proxy/vless/vision.cpp:25-113 | One call is the automaton with the first-call test for the UUID, the switch to direct copy, and the ClientHello notice in the shared state |
| `VisionReader.ReadAllFeeds` | src/proxy/vless/vision.cpp:25-113 | Reading piece by piece is feeding the concatenation |
| `VisionReader.CuttingDoesNotMatter` | src/proxy/vless/vision.cpp:39-51 | The pieces unpad to the same bytes as the whole stream exactly when the first non-empty piece has at least 21 bytes or the stream is not padded |
| `VisionReader.PassedThrough` | src/proxy/vless/vision.cpp:39-51 | A stream that does not begin with the uuid, or shows less than the first header in its first piece, is passed through as it is |
| `VisionReader.FeedShrinks` | src/proxy/vless/vision.cpp:53-98 | Unpadding never lengthens a stream |
| `VisionSession.FrameRoundTrip` | src/proxy/vless/vision.cpp:53-98 | The reader turns a frame back into its content for every command, length and padding |
| `VisionSession.WholeRoundTrip` | src/proxy/vless/vision.cpp:121-168 | Unpadding the concatenated outputs gives the concatenated inputs, for any inputs, draws and TLS states |
| `VisionSession.RoundTrip` | src/proxy/vless/vision.cpp:25-168 | The same for the reader fed any cutting of the output whose first piece shows the first header |
| `VisionSession.RoundTripSoFar` | src/proxy/vless/vision.cpp:25-168 | After any number of pieces the reader has returned a prefix of the inputs |
| `VisionSession.EarlyCutIsNotUnpadded` | src/proxy/vless/vision.cpp:39-51 | A padded stream cut behind its first byte comes out with its padding |
| `VisionSession.AlwaysSafe` | src/proxy/vless/vision.cpp:100-242 | The TLS-state invariant holds over every interleaving of reader and writer calls |
| `VisionSession.DirectOnlyWhenEnabled` | src/proxy/vless/vision.cpp:144-159 | Over every interleaving a frame is DIRECT exactly when it switches the writer to direct copy, and only for whole application-data records with splicing enabled and a cipher suite other than 0x1305 |
| `VisionSession.CommandExactly` | src/proxy/vless/vision.cpp:121-168 | Over every run and for every packet of a padding writer: DIRECT exactly for whole application data records with TLS seen and splicing enabled; END exactly for such records without it, or when neither TLS 1.2 was seen nor more than one packet is left to filter; CONTINUE otherwise; and the new state in each case |
| `VisionSession.AfterPadding` | src/proxy/vless/vision.cpp:121-138 | Behind the padding phase packets go out as they are: the first is still filtered and begins direct copy, and in direct copy nothing is looked at |
| `VisionSession.AlwaysBounded` | src/proxy/vless/vision.cpp:126-168 | Without a ServerHello: while padding, the number of packets and packetsToFilter together stay within eight |
| `VisionSession.PaddingEndsBySeventhPacket` | src/proxy/vless/vision.cpp:161-166 | Without a ServerHello the padding phase is over by the seventh non-empty downlink packet, under any interleaving |
| `VisionSession.QuietRunPadsForSix` | src/proxy/vless/vision.cpp:126-168 | Seven is the bound: downlink packets without a TLS hello are padded exactly up to the sixth, with the shared state given |
| `VisionSession.SixPacketsStillPad` | src/proxy/vless/vision.cpp:161-166 | There is a legal run of six non-empty packets that is still padding |
| `VisionUplink.ForwardHandshakeRemaining` | src/server/vless_connection_relay_tcp.cpp:8-54 | What was read with the handshake is sent first, unpadded for Vision and as it is otherwise |
| `VisionUplink.RelayClientToTarget` | src/server/vless_connection_relay_tcp.cpp:91-124 | The loop and the switch to copyStream in mid-stream send exactly the unpadded pieces, in order |
| `VisionUplink.Uplink` | src/server/vless_connection_relay_tcp.cpp:33-54 | Handshake leftover and all client chunks together: the target receives a prefix of the whole stream unpadded at once as long as no gap opens, and all of it exactly when no send failed |
| `VisionUplink.UplinkMeaning` | src/server/vless_connection_relay_tcp.cpp:91-124 | The pieces pushed are the one-piece unpadding of the concatenated stream, as a prefix and in full under those conditions |
| `VisionUplink.SegmentationInvisible` | src/server/vless_connection_relay_tcp.cpp:91-124 | Two segmentations of one uplink, each showing the first header, put the same bytes on the target |
| `VisionUplink.PushAllConcat` | src/server/vless_connection_relay_tcp.cpp:8-54 | Pushing two lists of pieces one after the other is pushing them together |
| `VisionDownlink.RelayTargetToClient` | src/server/vless_connection_target_task.cpp:53-86 | The Vision branch of the target task sends exactly the writer's frames, whatever the other direction does to the shared TLS state between reads |
| `VisionDownlink.DownlinkMeaning` | src/server/vless_connection_target_task.cpp:53-86 | What is sent is a prefix of the framed stream as long as no gap opens, all of it exactly when no send failed, and then the client unpads exactly what the target sent |
| `UdpRelay.DeframeConcat` | src/server/vless_connection_relay_udp.cpp:16-40 | The deframer may stop anywhere and go on with its leftover in front of the next read |
| `UdpRelay.RestIsPartial` | src/server/vless_connection_relay_udp.cpp:18-38 | Before each read the pending buffer holds no whole frame |
| `UdpRelay.PartialFrame` | src/server/vless_connection_relay_udp.cpp:18-38 | Such a buffer is a strict prefix of one frame and at most 65536 bytes long |
| `UdpRelay.RelayClientToTarget` | src/server/vless_connection_relay_udp.cpp:8-55 | Over any chunks and leftover the target gets the datagrams of the whole stream in order up to the first refused write; true exactly on EOF with no refusal |
| `UdpRelay.SendWhole` | src/server/vless_connection_relay_udp.cpp:16-34 | The inner loop with its offset writes out the whole frames of the pending buffer |
| `UdpRelay.RelayTargetToClient` | src/server/vless_connection_relay_udp.cpp:57-90 | One length-prefixed frame for each datagram before the first empty one, which ends the relay; datagrams above 65535 bytes are passed over |
| `UdpRelay.NothingCutOffExactly` | src/server/vless_connection_relay_udp.cpp:62-65 | Nothing is cut off exactly when no datagram is empty |
| `UdpRelay.DeframeOne` | src/server/vless_connection_relay_udp.cpp:72-83 | The 16-bit length written is the length read |
| `UdpRelay.FramingRoundTrip` | src/server/vless_connection_relay_udp.cpp:8-90 | Any list of 1 to 65535 byte datagrams comes back from its frames unchanged, in order, with nothing left over |
| `UdpRelay.AnyFramingRoundTrip` | src/server/vless_connection_relay_udp.cpp:57-90 | Whatever datagrams are framed, exactly those of 1 to 65535 bytes come out |
| `UdpRelay.EmptyFrame` | src/server/vless_connection_relay_udp.cpp:18-38 | A frame of length 0 carries no datagram and hides none behind it |
| `UdpRelay.SentUpToRefusal` | src/server/vless_connection_relay_udp.cpp:26-32 | What goes out is the longest prefix of the datagrams whose writes are accepted |
| `UdpRelay.AnyTunnel` | src/server/vless_connection_relay_udp.cpp:8-90 | For any datagrams and any refusals at the far end, what is sent on is what a frame can carry of those before the first empty one, up to the first refusal |
| `UdpRelay.CuttingDoesNotMatter` | src/server/vless_connection_relay_udp.cpp:8-55 | What the relay sends when it is fed framed datagrams, however cut and whatever part arrived with the handshake, is the datagrams up to the first refusal, and all of them exactly when none is refused |
| `UdpRelay.TunnelRoundTrip` | src/server/vless_connection_relay_udp.cpp:8-90 | What one relay frames, however it is cut on the way, the other one sends on unchanged |
| `BufferedStream.UringBufferedStream.Consume` | include/coro/buffered_stream.h:73-86 | Takes the next bytes of the stream; the buffer is reclaimed when used up |
| `BufferedStream.UringBufferedStream.Read` | src/coro/buffered_stream.cpp:9-24 | Returns exactly the next bytes asked for over any chunks, or what is left at the end of the stream, and reads in no more pieces than that takes |
| `BufferedStream.TookTwice` | src/coro/buffered_stream.cpp:9-24 | Two reads in a row leave the buffer and the unread pieces as one read of both lengths would |
| `BufferedStream.UringBufferedStream.HoldsWhatWasReadAlong` | src/coro/buffered_stream.cpp:9-24 | After any reads what is held and what is unread follow from the pieces that arrived and the number of bytes still to come |
| `BufferedStream.UringBufferedStream.DrainRemaining` | src/coro/buffered_stream.cpp:34-41 | What is drained and the chunks not yet read are together the rest of the stream |
| `Addons.DecodeVarint` | src/proxy/vless/decoder.cpp:14-26 | The value is the sum of 7-bit groups modulo 2^64, of at most ten bytes; anything else is an error |
| `Addons.EncodeVarintDecodes` | src/proxy/vless/decoder.cpp:14-26 | Canonical base-128 encoding of any 64-bit value is read back |
| `Addons.GroupFits` | src/proxy/vless/decoder.cpp:17-25 | The shifted group and the sum so far do not overlap, so the | is an addition and only the tenth group can overflow |
| `Addons.TakeFieldSound` | src/proxy/vless/decoder.cpp:133-157 | A field read off the data is a well-formed wire-type 0 or 2 field and the data starts with its text |
| `Addons.TakeFieldComplete` | src/proxy/vless/decoder.cpp:133-157 | Every well-formed field is read as itself |
| `Addons.FieldsComplete` | src/proxy/vless/decoder.cpp:131-158 | Every sequence of well-formed fields is read as itself |
| `Addons.AddonsMeaning` | src/proxy/vless/decoder.cpp:131-158 | Data is accepted exactly when it is a sequence of well-formed fields, and gives the last flow and the last seed |
| `Addons.LastOfSays` | src/proxy/vless/decoder.cpp:145-151 | The last field of a number decides, and without one nothing is said |
| `Addons.ParseAddons` | src/proxy/vless/decoder.cpp:131-158 | The loop over positions terminates and computes that meaning |
| `VlessHeader.Decode` | src/proxy/vless/decoder.cpp:30-94 | Decoding over any chunks is parsing the concatenated stream, with the same error in the same place, and leaves exactly the unparsed rest |
| `VlessHeader.DecodeAddons` | src/proxy/vless/decoder.cpp:102-129 | The addons block is taken off the stream by its length byte and parsed |
| `VlessHeader.DecodeCommand` | src/proxy/vless/decoder.cpp:59-93 | The command switch: an address for TCP and UDP, fixed targets for Mux and Rvs, an error otherwise |
| `VlessHeader.ReadAddress` | src/proxy/vless/decoder.cpp:161-217 | Address type, address bytes and port, with an error for each missing or invalid part |
| `VlessHeader.ProcessHandshake` | src/server/vless_connection_handshake.cpp:64-76 | The header is decoded and what was read beyond it is kept: kept bytes and unread chunks are the rest of the stream |
| `VlessHeader.EncodeRequest` | src/proxy/vless/encoder.cpp:10-35 | Fails exactly for a domain of more than 255 bytes, otherwise builds the header bytes |
| `VlessHeader.AddressRoundTrip` | src/proxy/vless/encoder.cpp:59-79 | Every address is read back from its bytes, followed by anything |
| `VlessHeader.HeaderRoundTrip` | src/proxy/vless/encoder.cpp:10-35 | For a registered uuid and an address that can be encoded, decoding the encoded request gives back uuid, command, port and address and leaves the rest, exactly when the command is TCP or UDP |
| `VlessHeader.ServeRequest` | src/server/vless_connection_handshake.cpp:64-76 | The server's handshake over any chunks that carry a client's encoded header and anything behind it gives back the request and keeps, with what is still unread, what was behind it, exactly for a registered user and TCP or UDP; an unknown user and an unknown command are rejected |
| `VlessRequests.HeaderDecodes` | src/proxy/vless/decoder.cpp:30-94 | Every header of a registered user for TCP or UDP, with any well-formed addons of at most 255 bytes, decodes to the request it says: flow and seed are the payloads of the last fields numbered 1 and 2; what follows is left |
| `VlessRequests.OtherCommands` | src/proxy/vless/decoder.cpp:59-93 | Mux and Rvs stand for v1.mux.cool and v1.rvs.cool with port 0, keep flow and seed, and leave what follows the command; any other command is refused |
| `VlessRequests.IllFormedRefused` | src/proxy/vless/decoder.cpp:131-158 | A block that is no sequence of well-formed fields is refused whatever follows it |
| `VlessRequests.CutHeaderRefused` | src/proxy/vless/decoder.cpp:30-217 | A header cut short anywhere is refused with the error of the place where it ends |
| `VlessRequests.AcceptedIsAHeader` | src/proxy/vless/decoder.cpp:30-217 | What is accepted for TCP or UDP is the header of the request it gives, with some well-formed block, and what is left is what follows |
| `VlessRequests.ServeHeader` | src/server/vless_connection_handshake.cpp:64-76 | The server's handshake on any header over any chunks: the request with the flow and seed of its block, and what is kept and unread is what follows; an unknown user and an ill-formed block are refused |
| `VlessRequests.VisionHeader` | src/proxy/vless/decoder.cpp:133-157 | The header of a Vision client gives the flow xtls-rprx-vision and no seed |
| `VlessRequests.WrongBytesRefused` | src/proxy/vless/decoder.cpp:40-46 | Another version or address type is refused |
| `VlessRequests.ResponseDecodes` | src/proxy/vless/encoder.cpp:41-57 | A response with any addons is accepted exactly for version 0 and leaves what follows; one cut short is refused |
| `VlessHeader.UnknownUserRejected` | src/proxy/vless/decoder.cpp:51-53 | A header with an unregistered uuid is rejected whatever follows |
| `VlessHeader.DecodeResponse` | src/proxy/vless/encoder.cpp:41-57 | The response is accepted exactly with version 0 and complete addons |
| `VlessHeader.ResponseRoundTrip` | src/proxy/vless/encoder.cpp:37-57 | The client accepts a server's response exactly for version 0 and leaves what follows |
| `Socks5.ReadRequest` | src/proxy/socks5/socks5.cpp:113-162 | Reading a request over any chunks is parsing the concatenated stream, with every error of the source |
| `Socks5.ReadAddress` | src/proxy/socks5/socks5.cpp:129-160 | The address switch over the SOCKS5 type codes |
| `Socks5.WriteAddrPort` | src/proxy/socks5/socks5.cpp:66-84 | Fails exactly for a domain of more than 255 bytes, otherwise appends address and port |
| `Socks5.AddressRoundTrip` | src/proxy/socks5/socks5.cpp:66-84 | Every address is read back from its SOCKS5 bytes |
| `Socks5.ParseUdpDatagram` | src/proxy/socks5/socks5.cpp:177-230 | The position-based parser accepts exactly unfragmented datagrams with a whole address and port, and gives the payload |
| `Socks5.EncodeUdpDatagram` | src/proxy/socks5/socks5.cpp:232-244 | A zero header, the address and port, then the payload |
| `Socks5.DatagramRoundTrip` | src/proxy/socks5/socks5.cpp:177-244 | An encoded datagram is parsed back to the same target and payload (section 7 of RFC 1928) |
| `Socks5.RequestExactly` | src/proxy/socks5/socks5.cpp:113-162 | A request is accepted exactly when it is version 5, a command, a reserved byte, an address and a port, and is then that request |
| `Socks5.CutRequestRefused` | src/proxy/socks5/socks5.cpp:113-162 | A request cut short anywhere is refused with the error of the place where it ends |
| `Socks5.DatagramExactly` | src/proxy/socks5/socks5.cpp:177-230 | A datagram is accepted exactly when it is two reserved bytes, fragment 0, an address, a port and the payload |
| `Socks5.TypesOnTheWire` | src/client/vless_client.cpp:35-50 | The codes of the three address types in the two protocols |
| `Socks5.AcceptedIsEncodable` | src/client/vless_client.cpp:35-50 | The VLESS header of any accepted SOCKS5 request can be encoded, so encoding never throws |
| `Socks5.TargetPreserved` | src/client/vless_client.cpp:35-50 | The server decodes the same kind of address, the same bytes and the same port although the type codes differ |
| `Socks5.ConnectUplink` | src/client/socks5_connection.cpp:134-146 | The uplink reads the socket and not the buffer: what was read along with the request is lost, and nothing is lost exactly when nothing is buffered |
| `Socks5.ServeApplication` | src/client/socks5_connection.cpp:74-146 | From the request on: nothing is sent to the target without a CONNECT request, a tunnel and a reply; with them a session sends what is unread when the request has been read, and loses nothing exactly when no read of the request brought more along |
| `Socks5.EarlyDataIsLost` | src/client/socks5_connection.cpp:134-146 | Two bytes sent along with a request are lost |
| `Socks5.ApplicationRequest` | src/proxy/socks5/socks5.cpp:113-162 | What an application sends for a target is accepted as that target |
| `UdpSessions.KeysDecideDestinations` | src/client/socks5_udp_relay.cpp:88-91 | Two destinations share a session key exactly when they are equal, or are IPv6 addresses that inet_ntop prints alike |
| `UdpSessions.RecvOne` | src/client/socks5_udp_relay.cpp:149-176 | A datagram from the application becomes one frame for its target; unparsable and empty ones are dropped |
| `UdpSessions.DatagramReachesTarget` | src/client/socks5_udp_relay.cpp:149-176 | The payload an application addresses to a target is the datagram the server's relay takes out of that target's stream |
| `UdpSessions.OutgoingExactly` | src/client/socks5_udp_relay.cpp:147-176 | A datagram is sent on exactly when it is whole, no fragment and not empty, to its own target and framed as the server reads it |
| `UdpSessions.SplitRead` | src/client/socks5_udp_relay.cpp:245-259 | The whole frames of one read are delivered in order, the part frame at its end is dropped |
| `UdpSessions.SessionOut` | src/client/socks5_udp_relay.cpp:229-261 | As long as its loop goes on the session queues, read by read, one SOCKS5 datagram for each payload of the whole frames, and each parses to the session's destination and port and that payload |
| `UdpSessions.CutFrameIsLost` | src/client/socks5_udp_relay.cpp:245-252 | A frame cut behind its length is lost |
| `UdpSessions.DownlinkLosesNothingExactlyOnWholeReads` | src/client/socks5_udp_relay.cpp:245-252 | The server's datagrams all arrive exactly when every read ends where a frame ends |
| `UdpSessions.Session` | src/client/socks5_udp_relay.cpp:108-126 | From the response on: the handshake hands back what was read along with the header, the session drops it and queues the whole frames of every later read |
| `UdpSessions.SessionLosesNothingExactly` | src/client/vless_client.cpp:159-168 | Over any pieces that carry a response and the server's frames, the datagrams come out exactly when nothing is read along with the response and every later read ends where a frame ends |
| `UdpSessions.ApplicationGetsAllExactly` | src/client/socks5_udp_relay.cpp:229-261 | The application parses exactly the server's datagrams out of the queue under the same condition |
| `UdpSessions.FrameBehindResponseIsLost` | src/client/vless_client.cpp:159-168 | A response and a frame in one read lose the frame, although no later read cuts one |
| `OpRegistry.NextKeepsAgreement` | include/coro/uring_awaitable.h:60-112 | Every submission, abort, completion and cancelFd keeps the table equal to the grouping by fd of exactly the operations with a callback, with no empty bucket |
| `OpRegistry.NextKeepsOnce` | include/coro/uring_awaitable.h:105-165 | No step resumes a coroutine a second time |
| `OpRegistry.AlwaysAgrees` | include/coro/uring_awaitable.h:33-165 | Both hold over every run in which abortOp is called, as the submissions do, on the operation just registered |
| `OpRegistry.EveryRunAgrees` | include/coro/uring_awaitable.h:60-63 | In particular from the empty table on |
| `OpRegistry.DeadStaysDead` | include/coro/uring_awaitable.h:42-50 | Once an operation has completed or was cancelled nothing changes it again: a late completion resumes nothing |
| `OpRegistry.CancelledForGood` | include/coro/uring_awaitable.h:86-97 | After cancelFd no coroutine waiting on that fd is resumed through its operation, whatever happens next |
| `OpRegistry.FirstEventDecides` | include/coro/uring_awaitable.h:84-163 | From its submission on an operation waits until the first completion, abort or closing that concerns it: a completion resumes the coroutine once with its own result, an abort once with its error, a closing never |
| `OpRegistry.AbortResumesAgain` | include/coro/uring_awaitable.h:105-112 | abortOp keeps the handle, so it resumes at most once exactly when the operation was not resumed before or holds no handle |
| `OpRegistry.SubmitThenAbort` | include/coro/uring_awaitable.h:211-225 | A submission that finds no ring or no queue entry leaves the table as it was and resumes its coroutine once |
| `OpRegistry.PendingUringOps.Add` | include/coro/uring_awaitable.h:69-73 | Only operations with a real fd are filed, in the bucket of their fd |
| `OpRegistry.PendingUringOps.Remove` | include/coro/uring_awaitable.h:75-84 | The operation leaves its bucket, and an empty bucket leaves the table |
| `OpRegistry.PendingUringOps.CancelFd` | include/coro/uring_awaitable.h:86-97 | The loop clears callback and handle of exactly the operations in the bucket and drops the bucket |
| `OpRegistry.PendingUringOps.Submit` | include/coro/uring_awaitable.h:211-217 | Filling in an operation and filing it |
| `OpRegistry.PendingUringOps.Abort` | include/coro/uring_awaitable.h:105-112 | abortOp on the heap objects is the abort step |
| `OpRegistry.PendingUringOps.CompleteFromCqe` | include/coro/uring_awaitable.h:115-163 | A completion of an operation that is not armed changes nothing; one that is armed gets the result, is disarmed, and resumes the coroutine it holds exactly once; no other operation changes |
| `LifecycleProofs.NextKeepsInv` | src/server/vless_connection.cpp:28-207 | Every step of the event loop keeps the invariant on flags, descriptors, operations and running coroutines, for VLESS and SOCKS5 CONNECT |
| `LifecycleProofs.CqeKeeps` | src/server/event_loop.cpp:60-66 | A completion, stale or not, keeps it |
| `LifecycleProofs.SubmitKeeps` | include/coro/uring_awaitable.h:205-225 | Suspending on an operation keeps it |
| `LifecycleProofs.SubmitAbortedKeeps` | include/coro/uring_awaitable.h:105-112 | A submission that is aborted on the spot keeps it |
| `LifecycleProofs.AcceptedKeeps` | src/server/event_loop.cpp:90-117 | Accepting and starting a connection keeps it |
| `LifecycleProofs.RejectedKeeps` | src/server/event_loop.cpp:109-115 | So does closing the fd when the factory returns null |
| `LifecycleProofs.InsertKeeps` | src/server/event_loop.cpp:116-117 | Filing the connection after start() has returned keeps it and overwrites nothing |
| `LifecycleProofs.DialKeeps` | src/server/vless_connection_connect.cpp:20-30 | A target socket is owned by its connect as long as that is in progress |
| `LifecycleProofs.DialOkKeeps` | src/server/vless_connection_connect.cpp:37-40 | On success it passes to the connection |
| `LifecycleProofs.DialFailedKeeps` | src/server/vless_connection_connect.cpp:31-36 | On failure it is closed there and then |
| `LifecycleProofs.StartTargetKeeps` | src/server/vless_connection.cpp:179-185 | Starting the target coroutine keeps it, though that runs at once and may even end first |
| `LifecycleProofs.FinishClientKeeps` | src/server/vless_connection.cpp:159-177 | The end of the client coroutine keeps it |
| `LifecycleProofs.EndTargetKeeps` | src/server/vless_connection_target_task.cpp:95-108 | The end of the target coroutine keeps it |
| `LifecycleProofs.ReapKeeps` | src/server/event_loop.cpp:123-132 | A cleanup pass keeps it and cancels no operation |
| `LifecycleProofs.NothingArmedOn` | include/coro/uring_awaitable.h:86-97 | No operation is registered on a descriptor of a closed connection |
| `LifecycleTheorems.AlwaysInv` | src/server/event_loop.cpp:16-76 | The invariant holds in every state before stop() that any interleaving reaches |
| `LifecycleTheorems.ReapIsSafe` | src/server/event_loop.cpp:123-132 | A connection that is erased has its client coroutine ended, its target coroutine ended or never started, nothing registered on its descriptors, and no coroutine left that waits or runs for it |
| `LifecycleTheorems.ClosedExactlyWhenBothEnded` | src/server/vless_connection.cpp:159-177 | closed_ holds exactly when the client coroutine and a started target coroutine have ended; the client coroutine finishes exactly once |
| `LifecycleTheorems.SecondToEndCloses` | src/server/vless_connection_target_task.cpp:95-108 | closed_ is set exactly by the second of the two to end (or by the client when no target was started), never by the first |
| `LifecycleTheorems.ClosedStaysClosed` | src/server/vless_connection.cpp:159-207 | Nothing changes a closed connection until it is erased |
| `LifecycleTheorems.FirstToEndShutsTheOther` | src/server/vless_connection.cpp:168-174 | Whichever ends first has shut down the descriptor the other one reads, and that is still open |
| `LifecycleWaking.NextKeepsShut` | src/server/vless_connection.cpp:168-174 | Every step keeps that only the ends of relays have shut descriptors down |
| `LifecycleWaking.WokenExactly` | src/server/vless_connection.cpp:168-174 | The other coroutine is woken exactly when its operation is on the descriptor that was shut down |
| `LifecycleWaking.ASurvivorIsNotWoken` | src/server/vless_connection_target_task.cpp:53-86 | A target coroutine suspended in a write to the client is not woken by the client's end |
| `LifecycleTheorems.FdConservation` | src/server/event_loop.cpp:90-117 | Every open descriptor but the listening one has exactly one owner; none is closed twice; no live map entry is overwritten; opened descriptors are open or closed |
| `LifecycleTheorems.ReapClosesItsOwn` | src/server/vless_connection.cpp:187-207 | Erasing a connection closes its descriptors and no others |
| `LifecycleTheorems.CompletionsFindTheirTask` | include/coro/uring_awaitable.h:42-50 | A completion with a callback resumes a suspended coroutine of a live connection, or acceptLoop |
| `LifecycleTheorems.ResumedExactly` | include/coro/uring_awaitable.h:115-163 | A suspended task becomes active in a step exactly when its operation resumes its coroutine, which only the completion of that operation does, with its result; in any other step it goes on waiting |
| `LifecycleTheorems.AlwaysOnce` | include/coro/uring_awaitable.h:99-163 | In every reachable state no operation has resumed twice, and one that is armed holds a coroutine it has not resumed |
| `LifecycleTheorems.NothingIsStranded` | src/server/event_loop.cpp:58-70 | Between completions a connection is about to be erased or waits on a registered operation of its own |
| `LifecycleTheorems.AConnectionLives` | src/server/event_loop.cpp:87-132 | A whole life is reachable: accept, connect, both coroutines, the client ending first, the target's read completing, its end, the cleanup pass, both descriptors closed |
| `Connections.Connection.FinishClientTask` | src/server/vless_connection.cpp:159-177 | finishClientTask on the fields and the shut-down descriptors is the client-ending step |
| `Connections.Connection.EndTargetTask` | src/server/vless_connection_target_task.cpp:95-108 | The end of targetTask is the target-ending step |
| `Connections.Connection.RunSession` | src/server/vless_connection.cpp:112-157 | Every path through a session: the target starts exactly when preparing and connecting succeed |
| `Connections.Connection.ClientTask` | src/server/vless_connection.cpp:47-104 | On every path clientTask finishes exactly once; closed_ then holds unless a started target is still going, whose own descriptor has been shut down |
| `Connections.Connection.AppTask` | src/client/socks5_connection.cpp:45-146 | The same for a SOCKS5 connection's clientTask |
| `Connections.Connection.DoClose` | src/server/vless_connection.cpp:187-207 | Both descriptors are cancelled, closed and forgotten |
| `Connections.EventLoop.Erase` | src/server/event_loop.cpp:125-128 | Erasing one entry closes that connection and leaves the others as they are |
| `Connections.EventLoop.CleanupClosedConnections` | src/server/event_loop.cpp:123-132 | One pass erases exactly the closed connections, closes exactly their descriptors, and changes no operation when none is registered on them |
| `Logger.NextKeepsConserved` | src/common/log.cpp:108-185 | Every step keeps the queue bounded, accepted lines equal to written, in hand and queued in order, and calls equal to accepted plus dropped |
| `Logger.AlwaysConserved` | src/common/log.cpp:108-185 | So it is in every interleaving of producers, worker and shutdown |
| `Logger.ExitLosesNothing` | src/common/log.cpp:138-150 | When the worker exits the queue is empty, every accepted line is written in order and every drop was reported |
| `Logger.NothingWrittenAfterExit` | src/common/log.cpp:108-119 | Over every run after the exit: lines are accepted until the queue is full and dropped from then on, nothing is written and no drop announced, for enqueue does not look at stop |
| `Logger.LostExactly` | src/common/log.cpp:108-119 | In every state after the exit what is queued is lost, and nothing accepted is lost exactly when nothing is queued |
| `Logger.LateLinesAreLost` | src/common/log.cpp:108-150 | Every accepted line is written exactly when none was logged since the exit |
| `Logger.ALateLineIsLost` | src/common/log.cpp:108-150 | A line logged behind the exit of a worker that had nothing to do is accepted and never written |
| `Logger.Impl.EnqueueLine` | src/common/log.cpp:108-119 | One call under the lock: accepted below 100000 lines, counted as dropped otherwise |
| `Logger.Impl.RequestStop` | src/common/log.cpp:121-126 | The first part of shutdown sets the flag once, as the shutdown step |
| `Logger.Impl.TakeBatch` | src/common/log.cpp:135-153 | One critical section of the worker: leave, or take at most 1024 lines from the front |
| `Logger.Impl.WriteBatch` | src/common/log.cpp:154-172 | The batch is written as one buffer, its lines in order |
| `Logger.Impl.WorkerLoop` | src/common/log.cpp:133-185 | With no producer left, the loop ends with everything written and reported |
| `Json.Parser.ParseDocument` | src/common/config.cpp:67-77 | The recursive descent accepts exactly the texts of the grammar with nothing behind, and returns their value |
| `Json.Parser.ParseValue` | src/common/config.cpp:99-112 | One value is read off as the grammar says, with the position behind it; recursion always makes progress |
| `Json.Parser.ParseString` | src/common/config.cpp:144-199 | A string literal with every escape, including four-digit code units in UTF-8 |
| `Json.Parser.ParseEscape` | src/common/config.cpp:157-193 | One escape sequence; an unknown one or a bad digit fails |
| `Json.Parser.ParseNumber` | src/common/config.cpp:126-142 | The longest run of number characters |
| `Json.Parser.ParseArray` | src/common/config.cpp:208-222 | Items separated by commas, with the whitespace the loop skips |
| `Json.Parser.ParseObject` | src/common/config.cpp:224-245 | Members in order, later duplicates kept behind earlier ones |
| `JsonText.JsonEscape` | src/common/config.cpp:256-270 | The loop escapes quote, backslash, newline, tab and carriage return |
| `JsonText.SpellingRead` | src/common/config.cpp:144-199 | Every spelling of a string, in any mixture of characters, escapes and code units, is read as that string |
| `JsonText.EscapeRoundTrip` | src/common/config.cpp:144-199 | parseString reads back what jsonEscape printed, for every string (section 7 of RFC 8259) |
| `JsonText.EscapesRead` | src/common/config.cpp:157-193 | The eight escapes of section 7 of RFC 8259 for any text behind them; any other letter but u fails, and any other character stands for itself |
| `JsonText.HexDigitsRead` | src/common/config.cpp:202-207 | Hexadecimal digits of either case |
| `JsonText.CodeUnitRead` | src/common/config.cpp:166-189 | A four-digit escape stands for the bytes of its code unit |
| `JsonText.Utf8IsRightlyFormed` | src/common/config.cpp:176-188 | Those bytes spell the code unit, and are the UTF-8 form of a character (section 4 of RFC 3629) exactly when it is no surrogate |
| `JsonText.PairNotCombined` | src/common/config.cpp:166-189 | A surrogate pair, which stands for one character by section 7 of RFC 8259, is read as two sequences that are no characters |
| `JsonText.LayoutRead` | src/common/config.cpp:99-245 | Every layout of every value, with any whitespace, is read as that value up to exactly its end |
| `JsonText.DocumentRead` | src/common/config.cpp:67-77 | And so is a whole document |
| `JsonSound.ValueSound` | src/common/config.cpp:99-245 | What is read off a text as a value is laid out there |
| `JsonSound.AcceptedExactly` | src/common/config.cpp:67-77 | A text is accepted as a value exactly when it is a layout of it between spaces |
| `Decimal.PrintReadBack` | src/common/config.cpp:340-354 | Printed integers are number tokens and are read back |
| `Decimal.CutTowardsZero` | src/common/config.cpp:126-142 | Digits count up to the first character that is none, behind a sign of either kind, so a fraction is cut off towards zero |
| `Config.WriteThenLoad` | src/common/config.cpp:336-471 | Loading what was written restores every printed field, and adds the users with a uuid in order |
| `Config.ConfigRoundTrip` | src/common/config.cpp:336-471 | Loaded into a default, a configuration comes back as it was exactly when every user has a uuid and no certificate hash was filled in |
| `Config.UnnamedUserIsDropped` | src/common/config.cpp:452-469 | A configuration with one user without a uuid is loaded back without users |
| `ConfigLoading.GetIsFirst` | src/common/config.cpp:47-54 | A key finds the first member with it, and none exactly when there is none |
| `ConfigLoading.FieldByField` | src/common/config.cpp:416-471 | For every object and every earlier configuration: each field is the member's value where the first member with the key is of the right kind, cut to the field's width, and the earlier value otherwise |
| `ConfigLoading.TlsLoaded` | src/common/config.cpp:432-451 | The same for the tls section; the certificate hash is kept |
| `ConfigLoading.UsersLoaded` | src/common/config.cpp:453-470 | The users are those of the items in order, and an item gives one exactly when it is an object with a text under uuid that is not empty |
| `ConfigLoading.TextFieldByField` | src/common/config.cpp:405-471 | Every text is refused exactly when it is no JSON object, and otherwise loaded field by field |
| `ConfigLoading.EmptyObjectChangesNothing` | src/common/config.cpp:405-471 | An object without members leaves the configuration as it was |
| `JsonStandard.StandardTextIsRead` | src/common/config.cpp:67-77 | Every text of the JSON grammar of RFC 8259 is accepted |
| `JsonStandard.PrintedIsStandardExactly` | src/common/config.cpp:256-363 | The printed configuration is a text of that grammar exactly when no printed string has a control character other than tab, newline and carriage return |
| `JsonStandard.ControlCharacterIsPrintedRaw` | src/common/config.cpp:256-270 | A remark of one control character is printed as it is, so the text is no standard JSON, and is loaded back all the same |
| `ConfigFile.PrintServer` | src/common/config.cpp:336-363 | The text appended piece by piece is the layout of the configuration |
| `ConfigFile.PrintTls` | src/common/config.cpp:345-352 | The lines of the tls section |
| `ConfigFile.PrintUsers` | src/common/config.cpp:354-361 | The loop over the users, with commas between them only |
| `ConfigFile.LoadServerConfig` | src/common/config.cpp:383-471 | A missing file is created with one generated user; an invalid one leaves the configuration alone; any other is loaded field by field |
| `ConfigFile.Fill` | src/common/config.cpp:419-471 | The fields of the root object one after the other are the loaded configuration, which ConfigLoading.FieldByField describes |
| `ConfigFile.LoadUsers` | src/common/config.cpp:452-469 | Array items that are objects with a uuid become users, in order |

## Left out

- TLS and the encryption extension (`tls.cpp`, `tls_stream.cpp`, `encryption.cpp`): they wrap OpenSSL, whose state is not visible; the decoder never fills the field that would select the encryption branches of the relays.
- io_uring itself, sockets, DNS, `fcntl`, signals and threads: replaced by steps and parameters. Reads are bounded only where a proof needs it.
- `EventLoop::stop` and the teardown after it: every lifecycle statement is about the states before it.
- The lifetime of coroutine frames (`task.h`): a coroutine is a point of suspension with at most one outstanding operation, and operations stay readable.
- The `closed_` test of the relay loops and the stop flag of `copyStream`: `LifecycleTheorems.ClosedExactlyWhenBothEnded` shows that the flag is false as long as either relay runs.
- The null test of the Vision context: `setupVision` always passes one.
- The SOCKS5 greeting: `Connections.Connection.AppTask` takes its outcome.
- The second half of a UDP association (`Socks5UdpRelay::start`, `stop`, `sendLoop` and the reuse of dead sessions): descriptors and coroutines of their own, outside the connection lifecycle.
- `inet_ntop`, `inet_pton` and `getaddrinfo`: `UdpSessions` takes the first as a parameter.
- Log formatting, the partial results of `write(2)` to the log file and file rotation: the logger's output is a list of lines.
- Share links, client configuration, command line, public IP detection, `generateUuid` beyond its being a parameter, directory creation: easy members only.
- Decimal.IntegerOf: reads the sign and the leading digits of a number token; exponents, hexadecimal forms, infinities and rounding of `strtod` are not modelled, so integers beyond 2^53 are not either. What the writer prints never takes these forms.
- VisionWriter.Writer.Process: packets are below 2^31 bytes, as the reads that produce them are.
- VisionSession.RoundTrip: packets are below 65536 bytes, the width of the content field (the relays read at most 8192 bytes); `VisionWriter.HeaderIsExact` shows that the field is wrong beyond.
- VisionDownlink.DownlinkMeaning: says nothing about what the client receives after its own EOF, for `finishClientTask` shuts the target down in both directions.
- Connections.Connection.ClientTask: the outcomes of what is awaited are parameters, and the target coroutine ends either before the client coroutine does or after it; the interleavings in between are those of `Lifecycle`.
- VisionHello.FieldsByOffset: the ServerHello begins its record; a message split over records, or behind another one in the same record, is not laid out (`VisionDetection.SplicingExactly` speaks of any packets).
- VisionDetection.CutHelloUnderstood: no ServerHello has been detected in front of the message; `VisionDetection.SplicingExactly` speaks of every run.
- JsonStandard.PrintedIsStandardExactly: the encoding asked for by section 8.1 of RFC 8259 is left aside; bytes above 127 count as characters.
- UdpSessions.SessionOut: the flags its loop tests are a count of turns.
- Logger.Impl.WorkerLoop: runs after the last producer; the interleavings are those of `Logger.AlwaysConserved`.
