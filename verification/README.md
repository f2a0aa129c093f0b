# SupportProxy: a verified model of its protocol core

SupportProxy relays MAVLink and live video between vehicles and support engineers. This project models the
parts of it that keep byte-level state across arbitrarily split input, or protocol state across arbitrary runs,
and proves what they are for:

- **RTMP ingest** (`RtmpDemux`, `RtmpSender`, `RtmpStandard`, `RtmpPrinter`, `RtmpCommands`, `RtmpProtocol`,
  `RtmpIngest`, `RtmpRecording`, `RtmpAcks`, `RtmpClient`, `RtmpReplies`, `FlvReader`, `Amf0`): the chunk demultiplexer
  against a reference sender and against the timestamps of RTMP 1.0 itself, the printer against the parser, the whole
  session under every partition of its input, the recording against an FLV reader, commands and replies against AMF0
  values as a client writes and reads them, the AMF0 skipper against value trees.
- **MPEG-TS** (`TsCrc`, `PsiAssembler`, `TsFraming`, `TsResync`, `TsScanner`, `TsWriter`, `TsJoin`, `BitPlaces`): the
  table CRC against polynomial division, PSI reassembly, packet framing and resynchronisation, packets and tables
  against a writer of them, the meaning of the late-join offset, and when a viewer can play from it.
- **Binlog receiver** (`Binlog`, `BinlogRuns`, `BinlogPacing`, `BinlogWriter`): what every run of the
  dataflash-over-MAVLink receiver keeps, and when it speaks.
- **SHA-256** (`Sha256`, `Sha256Answer`): the streaming in-place implementation against FIPS 180-4, and a published
  digest.
- **Streaming decoders** (`StreamDecoder` for the shape they share; `EbmlScanner`, `EbmlWriter`, `HttpChunks`,
  `RtspGuard`, `RtspWriter`, `WebSocketFrames`, `WebSocketReceiver`, `WebSocketIo`), with `HttpQuery` and `QueryWriter`
  for the strings of requests: each against a writer of what it reads.
- **Ring and viewers** (`VideoRing`, `VideoViewer`, `RtspViewer`): a circular buffer that stands for an unbounded
  stream, and readers that see no gap and get on as far as their sockets let them.
- **Engineer slots** (`EngineerSlots`): the watermark every scan depends on.

Each component has a value-level specification and, where the source works by changing state, a class whose
methods and loops are proved against it. Sockets, the file system, clocks and the order of hash-table walks are
parameters: lists of answers a socket will give, how a write turned out, which NACK datagrams were refused.

Findings about the code. Each names the lemmas that show it and say exactly when it happens:

- `Sha256.CountedExactly`: the padding carries the true length exactly when no update is 2^29 bytes or longer.
- `BinlogRuns.RebootTest`, `BinlogRuns.SpuriousReboot`: the reboot test adds in 32 bits, so in the last ten
  seconds of the boot counter's range it takes a clock moving forward for a reboot (binlog.h:96-103 describes a
  backward jump).
- `BinlogRuns.ZeroNeverAsked`, `BinlogRuns.ZeroAccountedExactly`, `BinlogRuns.OpeningBlock`,
  `BinlogRuns.BlockZeroForgotten`: block 0 can be refused after its file was opened. No run ever asks for it, and it is
  accounted for exactly when a whole write of it came in the end.
- `BinlogRuns.AckedButTorn`, `BinlogRuns.HoldsExactly`, `BinlogRuns.NeverTornExactly`: a block that was written whole
  and is then sent again with other bytes and cut short is still acknowledged, while the file holds neither version.
  At every point of a run all blocks written whole are whole in the file exactly when every short write began like
  the block it repeats.
- `RtmpCommands.CredentialKept`, `RtmpCommands.ConnectForgets`: a connect replaces a credential offered before it,
  so "the first credential offered anywhere wins" (videortmp.cpp:832) holds from connect on.
- `WebSocketReceiver.SurvivesExactly`, `WebSocketReceiver.CapIsPerBatch`: the message cap counts what is decoded
  together. A client survives every segmentation exactly when each frame is within the cap, alone and together with
  all that one read can complete after it; otherwise the same frames can be delivered by one sequence of reads and
  end the connection by another.
- `RtmpStandard.HeaderTime`, `RtmpStandard.TimesExactly`, `RtmpStandard.TypeThreeRepeats`: a type 3 header that starts
  a message right after a type 0 header repeats its timestamp; section 5.3.1.2.4 of RTMP 1.0 adds the type 0 timestamp
  to it. The parser has the standard's timestamps exactly unless such a start follows a nonzero type 0 timestamp.
- `TsJoin.JoinIsPlayable`, `TsJoin.LateViewer`, `TsJoin.PatLastMisleads`: a viewer needs a PAT, a PMT and an access point
  in this order (videots.h:9-13), but the join offset is the earlier of the last PAT and the last PMT. A viewer
  started there knows the program at the access point exactly when the PAT came first and fits into the packet that
  completes it, and a PMT with video begins and ends behind it.

## Model

| member | source | states |
|---|---|---|
| StreamDecoder.SplitInvariance | videortmp.cpp:386-416 | a decoder whose decisions later bytes cannot change gives, for every partition of its input, the events, state, held bytes and verdict of one call |
| StreamDecoder.FeedTwice | videortmp.cpp:386-416 | feeding a then b is feeding a followed by b |
| StreamDecoder.FeedKeeps | videortmp.cpp:386-416 | what every unit keeps, every run keeps, however its input is split |
| RtmpDemux.ChunksStable | videortmp.cpp:455-624 | a chunk is committed only on evidence later bytes cannot change, for all four header formats, extended timestamps and control messages |
| RtmpDemux.AssemblyAccounted | videortmp.cpp:559-656 | on every run the assembly counter is the sum of all partial lengths, within its cap, and every partial is shorter than declared, also across Abort |
| RtmpDemux.EveryAssemblyAccounted | videortmp.cpp:559-656 | so it is on every connection from its first byte, however its bytes arrive |
| RtmpDemux.RemainingNeverNegative | videortmp.cpp:559-577 | the payload still owed is never negative when it is computed |
| RtmpDemux.AbortAccounted | videortmp.cpp:642-656 | Abort gives back exactly the bytes of the stream it drops |
| RtmpSender.SentIsReceived | videortmp.cpp:455-656 | for every legal interleaving of chunks by a reference sender (formats, deltas with the code's own reading of type 3 after type 0, extended timestamps, Set Chunk Size, Abort) the parser delivers exactly the completed messages in completion order, and ends in the state the sender has announced |
| RtmpSender.HeaderRoundTrip | videortmp.cpp:455-557 | the parser reads back every header the sender can write, under the sender's invariant |
| RtmpSender.ObeyMatches | videortmp.cpp:626-656 | Set Chunk Size and Abort have the same effect at both ends |
| RtmpStandard.HeaderTime | videortmp.cpp:540-556 | for every header in bytes, of all four types, extended or not: the timestamp read is that of RTMP 1.0 exactly unless it is a type 3 start after a type 0 header of nonzero timestamp |
| RtmpStandard.StandardIsHeard | videortmp.cpp:455-656 | whatever a sender that follows RTMP 1.0 sends, the parser stays in step and delivers every message with its stream, type and payload, at the timestamps the code reads |
| RtmpStandard.TimesExactly | videortmp.cpp:540-556 | at every point of what such a sender sends the parser holds the timestamps of RTMP 1.0 exactly when no chunk is a type 3 start after a type 0 header of nonzero timestamp |
| RtmpStandard.StandardSentIsReceived | videortmp.cpp:455-656 | on a new connection every such sender gets as many messages through as it completes, and all of them as it meant them, timestamps included, without such a chunk |
| RtmpStandard.TypeThreeRepeats | videortmp.cpp:540-556 | the bytes of two messages, under type 0 with timestamp t and under type 3, that the standard puts at t and 2t and the parser at t and t |
| RtmpPrinter.SendMsg | videortmp.cpp:696-722 | the loop over 4096-byte pieces appends exactly the printed message |
| RtmpPrinter.PrintedParses | videortmp.cpp:696-722 | concatenated printed messages decode through the parser to exactly the same message list |
| RtmpCommands.CredentialKept | videortmp.cpp:730-897 | a held credential survives a command exactly when the command is no connect or offers the same again |
| RtmpCommands.ConnectForgets | videortmp.cpp:740-844 | an FCPublish with a credential followed by a connect without one leaves the connection with none |
| RtmpCommands.PublishOnce | videortmp.cpp:730-897 | no command records anything or starts publishing; a publish becomes pending only on a connected session with none under way |
| RtmpProtocol.SessionStable | videortmp.cpp:386-694 | handshake, chunks, messages, acknowledgements and commands together decide only on evidence later bytes cannot change |
| RtmpProtocol.RtmpSplitInvariance | videortmp.cpp:386-694 | for every partition of the input the assembled messages, bytes owed to the peer, FLV output, negotiated state and verdict equal those of one call |
| RtmpProtocol.EveryConnection | videortmp.cpp:386-694 | so it is for every connection from its first byte |
| RtmpRecording.OnePublish | videortmp.cpp:899-1033 | over a whole connection, however its bytes arrive, at most one publish is accepted and none before connect; nothing is recorded before it, and from then on an FLV reader finds in the recording exactly the non-empty audio, video and metadata messages after it, in order, with kind, timestamp and payload, metadata without its wrapper |
| RtmpRecording.RecordedAsSent | videortmp.cpp:386-1033 | from wire to file: after the handshake, for any chunks a reference sender may send and in any pieces, a connection that lives has handled exactly the messages completed, and the recording reads as the media among them after the publish |
| RtmpRecording.HandshakeDone | videortmp.cpp:422-453 | version 3 and 1536 bytes are answered by version 3, 1536 bytes and an echo; 1536 bytes more, and chunks begin |
| RtmpRecording.FirstIs | videortmp.cpp:730-897 | the place of the first command of a name is just that |
| FlvReader.FileOn | videortmp.cpp:957-995 | tags written behind a file are read behind those already in it |
| RtmpAcks.AcknowledgedInTime | videortmp.cpp:579-598 | on every connection less than a window of bytes is unacknowledged, unless the last message has only just announced the window, and the count last acknowledged was sent |
| RtmpClient.NameReads | videortmp.cpp:285-316 | a name with a query comes apart into the name and the first credential written into the query, in any escaping |
| RtmpClient.ObjectReads | videortmp.cpp:220-283 | of any connect object within the nesting limit the strings under app and tcUrl are found, and either key twice is refused |
| RtmpClient.ConnectUnderstood | videortmp.cpp:740-806 | a connect as a client encodes it names the application and brings the credential in its app, else that in its tcUrl, else none |
| RtmpClient.PublishUnderstood | videortmp.cpp:868-892 | a publish as a client encodes it is taken exactly on a connected connection with none before it, and names stream and credential |
| RtmpClient.FcPublishUnderstood | videortmp.cpp:825-855 | an FCPublish as a client encodes it is answered, and its credential held if there was none |
| RtmpReplies.ClientHears | videortmp.cpp:762-806 | a new client, at chunks of 128 bytes, hears exactly the six answers to its connect: window, bandwidth, stream begin, chunk size, result and bandwidth check |
| RtmpReplies.ConnectWritten | videortmp.cpp:762-806 | the reply to connect is those six messages, their bodies AMF0 values |
| RtmpReplies.ResultWritten | videortmp.cpp:811-866 | releaseStream and createStream are answered by _result, the transaction, null and the stream |
| RtmpReplies.FcPublishWritten | videortmp.cpp:837-855 | FCPublish is answered by onFCPublish with a status object |
| RtmpReplies.AcceptWritten | videortmp.cpp:899-934 | an accepted publish is answered by Stream Begin and onStatus with a status object |
| RtmpReplies.DoubleReads | videortmp.cpp:41-54 | the eight bytes written for any 32-bit number are the IEEE 754 double that is that number |
| RtmpIngest.RtmpSession.HandleMessage | videortmp.cpp:626-694 | the effects of one complete message, as specified |
| RtmpIngest.RtmpSession.SendAcknowledgement | videortmp.cpp:589-598 | the byte-count acknowledgement, as specified |
| RtmpIngest.RtmpSession.CommitChunk | videortmp.cpp:579-624 | state changes only once the chunk is whole, and then as specified |
| RtmpIngest.RtmpSession.StoreChunk | videortmp.cpp:600-623 | the stream takes header and payload, and the message if it is complete |
| RtmpIngest.RtmpSession.ParseChunks | videortmp.cpp:455-624 | one chunk is taken exactly as the specification takes it |
| RtmpIngest.RtmpSession.DoHandshake | videortmp.cpp:422-453 | one handshake step, as specified |
| RtmpIngest.RtmpSession.Compact | videortmp.cpp:329-349 | dropping consumed bytes changes nothing that is observable |
| RtmpIngest.RtmpSession.RunParser | videortmp.cpp:386-416 | the loop ends on unread bytes, a dead session or a pending publish, and has made the turns of the specified run |
| RtmpIngest.RtmpSession.AcceptPublish | videortmp.cpp:899-935 | accepting a publish queues the reply and starts the FLV output |
| RtmpIngest.RtmpSession.Resume | videortmp.cpp:378-384 | parsing goes on where it stopped for authorisation |
| RtmpIngest.RtmpSession.Feed | videortmp.cpp:351-384 | a feed call is the specified feed, for any bytes |
| Amf0.SkipEncoded | videortmp.cpp:86-186 | on the encoding of any value the skipper succeeds exactly when it nests within the limit, and stops at its end |
| Amf0.SkipSound | videortmp.cpp:86-186 | whatever is skipped successfully is the encoding of some value within the limit |
| Amf0.SkipExactly | videortmp.cpp:86-186 | the skipper moves from i to end exactly when the bytes between encode a value within the limit |
| Amf0.Skip | videortmp.cpp:113-186 | every success moves strictly forward and stays within the buffer |
| Amf0.AmfSkip | videortmp.cpp:113-186 | the in-place skipper with its loop computes the specification |
| Amf0.AmfSkipObjectBody | videortmp.cpp:88-111 | the member loop computes the specification |
| TsCrc.TableIsSerial | videots.cpp:18-40 | the table CRC is the remainder of bit-by-bit polynomial division |
| TsCrc.ResidueZero | videots.cpp:96-105 | data and four bytes leave residue zero exactly when those bytes are the data's CRC |
| TsCrc.BurstDetected | videots.cpp:96-105 | two sections that differ only within four consecutive bytes never both pass |
| TsCrc.CrcTable.Build | videots.cpp:18-28 | the table holds eight division steps of every byte |
| TsCrc.CrcTable.Crc32 | videots.cpp:30-40 | the lazily built table computes the CRC of any data |
| PsiAssembler.FeedSound | videots.cpp:44-105 | on any input the buffer is never overrun and what is returned is a whole section of its declared length with residue zero |
| PsiAssembler.Reassembled | videots.cpp:44-105 | any valid section split any way over a unit start and continuations, with stuffing, is returned whole by the payload that completes it, and by none before or after it however many continuations follow |
| PsiAssembler.NothingTwice | videots.cpp:63-66 | with no section open, continuations return nothing |
| PsiAssembler.Assembler.Feed | videots.cpp:44-105 | the in-place assembler computes the specification |
| PsiAssembler.Assembler.Append | videots.cpp:68-105 | copying what fits and learning the length, as specified |
| PsiAssembler.Assembler.TakeSection | videots.cpp:91-105 | a complete section is returned if its CRC holds and forgotten in any case |
| TsFraming.StreamFramed | videots.cpp:336-390 | for any bytes in any pieces every packet delivered is 188 bytes of the stream at its offset, packets do not overlap, and with the carried bytes they fit in what was fed |
| TsFraming.AlignedSplitInvariance | videots.cpp:336-390 | a stream in sync is cut into the same packets at the same offsets however it is split |
| TsResync.HuntsExactly | videots.cpp:353-390 | the hunt stops at the first plausible start and passes over no other |
| TsResync.Resyncs | videots.cpp:336-390 | out of sync, stray bytes without a sync byte and then a stream in sync, all in any pieces, are cut into exactly the packets of that stream |
| TsResync.ResyncsAtOnce | videots.cpp:353-390 | the same in one read if no stray byte is a plausible start |
| TsWriter.PacketReads | videots.cpp:258-298 | every packet, made of its fields by section 2.4.3 of ISO/IEC 13818-1, is read as it was written |
| TsWriter.RoleReads | videots.cpp:293-334 | what is done with a packet depends on these fields |
| TsWriter.PatReads | videots.cpp:178-214 | a program association section is read as it was written: version, current flag, and the map of its first program |
| TsWriter.PmtReads | videots.cpp:216-256 | a program map section likewise, whatever descriptors it has: its first video stream with a PID |
| TsWriter.AvcUnits | videots.cpp:124-130 | of H.264 units IDR slices, parameter sets and delimiters start an access point, and no others |
| TsWriter.HevcUnits | videots.cpp:131-137 | of HEVC units random access pictures, parameter sets and delimiters do |
| TsScanner.PacketEffect | videots.cpp:178-334 | what one packet does to the program, table and anchor marks |
| TsScanner.EverythingExplained | videots.cpp:178-334 | after any packets a known program has a video PID and every mark is explained by earlier packets |
| TsScanner.JoinOffsetMeans | videots.cpp:336-399 | a join offset lies in the bytes fed and is the smaller of the offsets of a PAT-completing and a PMT-completing packet, both before a random-access packet of the video PID then in force |
| TsScanner.ScanSplitInvariance | videots.cpp:258-390 | a stream in sync leaves the scanner in the same state however it is split |
| TsJoin.JoinIsPlayable | videots.h:9-13 | on every run a new scanner fed from the join offset takes the access point for one exactly when the last PAT came before the last PMT, names a program and fits into its packet, and a PMT with video begins and ends behind it |
| TsJoin.LateViewer | videots.cpp:258-399 | the same in bytes: for an aligned stream in any pieces, and the stream from the join offset in any pieces |
| TsJoin.LearntFromLast | videots.cpp:308-316 | if the last PMT names a video stream, it is enough that a section of the program map begins between the two tables |
| TsJoin.AccessHasTables | videots.cpp:258-334 | every access point has a last PAT and a last PMT before it |
| TsJoin.AnchorIsEarlier | videots.cpp:311-334 | the join offset after an access point is the earlier position of the two |
| TsJoin.PatLastMisleads | videots.cpp:258-399 | four packets, PAT, PMT, PAT and access point, whose join offset leaves a viewer without a program |
| TsScanner.Tables.Handle | videots.cpp:258-334 | the packet handler, with its two array-based assemblers, computes the specification |
| TsScanner.Tables.HandlePat | videots.cpp:178-214 | parsing a PAT, which resets the PMT assembler when the program moved, as specified |
| TsScanner.Tables.HandlePmt | videots.cpp:216-256 | parsing a PMT, as specified |
| TsScanner.Tables.FindProgram | videots.cpp:198-213 | the entry loop finds the first program |
| TsScanner.Tables.FindVideo | videots.cpp:233-250 | the stream loop finds the first video stream that has a PID |
| TsScanner.Tables.IsRandomAccess | videots.cpp:109-140 | the start-code walk decides whether a decoder can begin here |
| TsScanner.Scanner.HandlePacket | videots.cpp:258-334 | a packet handed over updates the tables and the sync state as specified |
| TsScanner.Scanner.FinishPartial | videots.cpp:338-352 | a packet split across calls is completed and handed over |
| TsScanner.Scanner.Feed | videots.cpp:336-390 | a feed call makes exactly the specified packet calls |
| TsScanner.Scanner.TakeAll | videots.cpp:353-390 | the resynchronising loop makes exactly the specified packet calls |
| Sha256.HashPieces | sha256.cpp:71-196 | for every split of a message into updates under 2^29 bytes the digest is SHA-256 of the concatenation |
| Sha256Answer.KnownAnswer | sha256.cpp:40-130 | the digest of "abc" is the published one |
| Sha256.CountedExactly | sha256.cpp:132-140 | the counted length is the message's exactly when no update is 2^29 bytes or longer |
| Sha256.CounterExact | sha256.cpp:135-140 | one update counts its bits modulo 2^64, carry included, exactly when it is shorter than 2^29 bytes |
| Sha256.PaddingIs | sha256.cpp:172-189 | the padding bytes are those of section 5.1.1 of FIPS 180-4 |
| Sha256.Context.Calc | sha256.cpp:85-130 | the schedule of 64 words and the 64 rounds are the compression function |
| Sha256.Context.Update | sha256.cpp:132-167 | block buffering in place keeps the chaining value of all whole blocks and the rest of the message |
| Sha256.Context.PaddingBytes | sha256.cpp:172-187 | the bytes appended are 0x80, zeros and the two counter words |
| Sha256.Context.Final | sha256.cpp:172-196 | the digest read out is the chaining value of the padded message |
| EbmlScanner.ScanSplitInvariance | videomkv.h:22-58 | the same clusters at the same positions, prefix, anchor and verdict for every partition of the stream |
| EbmlScanner.Conserves | videomkv.h:22-58 | prefix, clusters and pending bytes concatenate to the input while not failed |
| EbmlScanner.JoinIsDecodable | videomkv.h:17-58 | prefix and the stream from the anchor are accepted by a fresh scanner and yield exactly the clusters from the anchor on |
| EbmlScanner.FromAnchor | videomkv.h:22-58 | scanning on from the anchor finds what the original scan found from there |
| EbmlScanner.FindMarker | videomkv.h:67-68 | shifting a mask finds the length marker |
| EbmlScanner.ReadVint | videomkv.h:64-74 | the loop computes the variable-size integer of section 4 of RFC 8794 |
| EbmlWriter.SizeReads | videomkv.h:64-74 | every size written in one to eight bytes reads back, whatever follows |
| EbmlWriter.IdReads | videomkv.h:64-74 | every element ID of one to four bytes reads back |
| EbmlWriter.SizeSpelled | videomkv.h:64-74 | a size that is read was written so |
| EbmlWriter.Decodes | videomkv.h:22-58 | a stream of header and clusters as section 4 of RFC 8794 writes them, in any pieces, is taken to its last byte, with exactly the clusters written and their positions |
| EbmlWriter.AcceptsExactly | videomkv.h:22-58 | the streams taken to the last byte past the header are exactly those |
| EbmlScanner.VideoScanner.TakeElement | videomkv.h:27-57 | one turn of the loop is one unit of the specification |
| EbmlScanner.VideoScanner.Feed | videomkv.h:22-58 | a feed call is the specified feed, and bytes that follow those already fed keep the scanner in step with the stream |
| EbmlScanner.VideoScanner.Consume | videomkv.h:22-58 | the offset is taken from the caller when nothing is pending, and the elements from there on |
| EbmlScanner.VideoScanner.TakeElements | videomkv.h:27-57 | the scan loop is the specified run |
| EbmlScanner.VideoScanner.JoinOffset | videomkv.h:17-21 | an offset is returned exactly while the stream is sound and has had a cluster, and whatever follows, the prefix and the stream from that offset are decodable and yield the clusters from there on |
| HttpChunks.SplitInvariance | videomkv.h:82-112 | bytes, state and verdict are the same for every segmentation |
| HttpChunks.FeedTwice | videomkv.h:82-112 | feeding a then b is feeding a followed by b |
| HttpChunks.LineSizeIs | videomkv.h:92-108 | a size line is taken exactly when it is one to nine hex digits worth 1 byte to 4 MiB and a carriage return |
| HttpChunks.Decodes | videomkv.h:82-112 | the decoder undoes the encoding of every list of chunks |
| HttpChunks.AcceptsExactly | videomkv.h:82-112 | inputs accepted to a chunk boundary are exactly the encodings of chunk lists, and the output is their data |
| HttpChunks.VideoChunks.ParseSize | videomkv.h:94-103 | the digit loop with its early exit computes the size |
| HttpChunks.VideoChunks.Push | videomkv.h:82-112 | handing data on in runs has the effect of the byte-by-byte specification |
| RtspGuard.GuardSplitInvariance | video.cpp:1030-1134 | forwarded bytes, held bytes, opaque count and verdict do not depend on segmentation |
| RtspGuard.HeaderEndStays | video.cpp:1061-1077 | a complete blank line stays the first one when more bytes arrive |
| RtspGuard.Conserves | video.cpp:1030-1134 | forwarded and held bytes are the received bytes while the guard has not objected |
| RtspGuard.AcceptsExactly | video.cpp:1030-1134 | the streams passed to the last byte are exactly the sequences of legal requests with their bodies and interleaved frames; bodies and frames are forwarded unread |
| RtspGuard.ForwardsOnlyLegal | video.cpp:1030-1134 | on every stream, also one it then refuses, only legal messages and part of one more have been forwarded |
| RtspGuard.NoWrongPassword | video.cpp:1030-1134 | on every stream, also one it then refuses, no forwarded header offers a wrong password, that of the message still going out included |
| RtspWriter.PrintParses | video.cpp:1112-1125 | a length printed in decimal is read back up to 16 MiB and refused beyond |
| RtspWriter.BodyIsDeclared | video.cpp:1101-1126 | among any other fields, one Content-Length in any case and with blanks says how long the body is; without it there is none |
| RtspWriter.TwiceIsRefused | video.cpp:1101-1106 | two declarations are refused whatever they say |
| RtspWriter.HeadParses | httpreq.cpp:31-62 | target and fields of a written request are found again |
| RtspWriter.LegalExactly | video.cpp:1076-1126 | a written request with a body is legal exactly if its password matches, or its part before the last slash, and the body is as long as declared |
| RtspWriter.RelaysWritten | video.cpp:1030-1134 | any list of such requests and frames, in any segments, is forwarded whole: headers looked at, exactly the declared bodies unread |
| RtspWriter.RefusesWritten | video.cpp:1076-1126 | behind such a list a request with a wrong password or too long a body ends the connection and nothing of it is forwarded |
| QueryWriter.QueryFinds | httpreq.cpp:150-197 | a query is searched for what was written into it, in any escaping |
| RtspGuard.Guard.FindHeaderEnd | video.cpp:1061-1074 | the search finds the first blank line of either kind |
| RtspGuard.Guard.Push | video.cpp:1030-1134 | the loop, which forwards bodies in runs, is the specified feed |
| WebSocketFrames.MaskedTwice | websocket.cpp:329-334 | masking is its own inverse |
| WebSocketFrames.HeadReads | websocket.cpp:279-322 | a frame head reads back as written, for all three length forms and whatever follows |
| WebSocketFrames.HeadWaits | websocket.cpp:279-302 | an incomplete head is waited for, not refused |
| WebSocketFrames.HeadRefused | websocket.cpp:304-312 | a length above the cap is refused as soon as it is known |
| WebSocketFrames.ServerFrameReads | websocket.cpp:475-507 | a client following section 5.2 of RFC 6455 reads back every queued frame |
| WebSocketReceiver.DeliveredInOrder | websocket.cpp:276-392 | for every client whose frames fit, every segmentation and all buffer sizes the connection survives, the bytes returned are a prefix of the data sent and all of it once drained, and pings are answered in order |
| WebSocketReceiver.SurvivesExactly | websocket.cpp:276-392 | the clients that survive every segmentation are exactly those whose frames are within the cap, alone and together with all that one read of 16384 bytes can complete after them |
| WebSocketReceiver.SmallIsRoomy | websocket.cpp:365-379 | frames no larger than the cap less one read always fit |
| WebSocketReceiver.Trickle | websocket.cpp:589-635 | byte by byte, with messages drained, any client whose frames are within the cap is served |
| WebSocketReceiver.NeverOverflows | websocket.cpp:198-210 | for any bytes at all the receive-buffer check never fires after the handshake |
| WebSocketReceiver.DecodesLawful | websocket.cpp:276-392 | decoding the first bytes of a lawful stream, given room for what is complete in it, takes exactly the frames complete in it |
| WebSocketReceiver.Drains | websocket.cpp:589-604 | while data waits, a caller with room gets some of it |
| WebSocketReceiver.CapIsPerBatch | websocket.cpp:365-379 | two messages within the cap that exceed it between them are both delivered by one sequence of reads and end the connection by another |
| WebSocketIo.WebSocket.QueueFrame | websocket.cpp:475-507 | the frame goes behind everything queued |
| WebSocketIo.WebSocket.Flush | websocket.cpp:511-549 | everything queued goes out unless the connection stops taking or breaks; under partial writes, with or without TLS records, bytes accepted and bytes queued stay all that was queued, in order |
| WebSocketIo.WebSocket.Unmask | websocket.cpp:329-334 | the payload is unmasked in place and nothing else changes |
| WebSocketIo.WebSocket.Dispatch | websocket.cpp:336-383 | the opcode switch acts as specified, and what it queues is pushed out |
| WebSocketIo.WebSocket.DecodeFrames | websocket.cpp:276-392 | the cursor loop takes exactly the specified frames |
| WebSocketIo.WebSocket.Recv | websocket.cpp:589-635 | a recv call is the specified one |
| VideoRing.Ring.Init | videostream.cpp:29-37 | an empty ring of at least 4096 bytes |
| VideoRing.Ring.Publish | videostream.cpp:39-60 | a write of any size appends to the stream the ring stands for |
| VideoRing.Ring.Copy | videostream.cpp:53-58 | the two copies fill the slots after the write position, wrapping once, and no others |
| VideoRing.Ring.IsResident | videostream.cpp:62-71 | a position is resident if it is not overwritten and not in the future |
| VideoRing.Ring.ReadAt | videostream.cpp:73-90 | a read at a resident position returns the published bytes, across wraps and oversized writes |
| VideoRing.MirrorsAppend | videostream.cpp:39-60 | overwriting slots after the end extends the stream and keeps what stays resident |
| VideoRing.ReadBack | videostream.cpp:73-90 | two stretches of slots are one stretch of the stream |
| VideoViewer.Watch | videoview.cpp:354-482 | under any interleaving of publishing and partial sends a viewer's connection has carried the first part of response, codec prefix and stream from its anchor; a refused viewer only the refusal |
| VideoViewer.CatchUp | videoview.cpp:379-482 | with nothing published meanwhile and a socket that takes everything, a viewer has all of response, prefix and stream after one event per 65536 bytes owed, and is not dropped if it had not lagged before |
| VideoViewer.Viewer.constructor | videoview.cpp:89-136 | a viewer joins at the scanner's anchor exactly if that is still in the ring |
| VideoViewer.Viewer.Flush | videoview.cpp:354-377 | the response goes out until it is gone or the socket stops taking, and keeps the viewer in step |
| VideoViewer.Viewer.SendPrefix | videoview.cpp:410-423 | the prefix goes out until it is gone or the socket stops taking, and keeps the viewer in step |
| VideoViewer.Viewer.SendMedia | videoview.cpp:424-462 | ring bytes go out until the viewer has caught up, a full budget is spent or the socket stops taking, and keep it in step |
| VideoViewer.Viewer.OnWritable | videoview.cpp:379-482 | a writable event keeps the viewer in step and gets it on as far as the socket lets it; it is dropped only for a broken or stuck socket, a refusal that is out, lagging too long or bytes overwritten |
| VideoViewer.InStepIsPrefix | videoview.cpp:379-482 | a viewer in step has been sent a prefix of the whole |
| VideoViewer.CaughtUp | videoview.cpp:379-482 | it has been sent all of it exactly when nothing is left of response, prefix and stream |
| RtspViewer.Play | videortspview.cpp:330-420 | for any order of publishing, requests and writable events the connection carries whole items in order: one reply per request, reports and frames; frames only after a granted PLAY; the reader is set only by a PLAY that needs it, to its join position, and in between the media is one stretch of the stream |
| RtspViewer.NoGap | videortspview.cpp:395-416 | while no request sets the reader anew the RTP payloads are one stretch of the stream |
| RtspViewer.SoundIsGapless | videortspview.cpp:395-416 | between any two settings of the reader, and before the first, the media is one stretch |
| RtspViewer.FramesFollowPlay | videortspview.cpp:253-272 | no frame goes out before a PLAY was granted |
| RtspViewer.FrameReads | videortspview.cpp:406-412 | a frame announces its own length and number |
| RtspViewer.QueueItem | videortspview.cpp:143-149 | appending an item keeps the queue whole and in order, frame numbers consecutive modulo 2^16 |
| RtspViewer.Viewer.Handle | videortspview.cpp:241-278 | a request gets exactly one reply, behind whatever is queued; the reader is set exactly if it is a PLAY of a viewer not playing that never played or whose position was overwritten, and then to the join position |
| RtspViewer.Viewer.StartPlaying | videortspview.cpp:259-271 | when a PLAY is granted, and where it leaves the reader |
| RtspViewer.Viewer.Flush | videortspview.cpp:330-349 | everything queued goes out, in order, unless the socket stops taking |
| RtspViewer.Viewer.QueueFrame | videortspview.cpp:406-414 | a frame of whole packets with the next number and the next bytes |
| RtspViewer.Viewer.SendFrames | videortspview.cpp:395-416 | frames and reports are added until no whole packet is left, a full budget has gone out or the socket stops taking; each frame is one to seven whole 188-byte packets read at the cursor, and the reader is set by none of it |
| RtspViewer.Viewer.QueueNext | videortspview.cpp:397-414 | exactly one frame, of as many whole packets as were read, behind a report if one is due, goes behind the queue |
| RtspViewer.Viewer.OnWritable | videortspview.cpp:374-420 | a lapped viewer is dropped even while a frame is stuck; otherwise what is queued goes out and then frames, as far as the socket lets them, and it is dropped only for a stuck socket, a TEARDOWN or silence |
| EngineerSlots.EveryRun | supportproxy.cpp:449-465 | on every run the count is the number of used slots, the watermark is one above the highest, no used slot leaves a scan and the clamp is unreachable |
| EngineerSlots.OccupyExact | supportproxy.cpp:749-776 | taking the first free slot and raising the watermark to the count keeps both exact; a slot is found exactly when fewer than 100 are used |
| EngineerSlots.VacateExact | supportproxy.cpp:457-465 | closing a slot and shrinking past free ones keeps both exact |
| EngineerSlots.SweepExact | supportproxy.cpp:582-613 | the deadline scan closes exactly the expired slots although the watermark moves under it |
| EngineerSlots.Slots.Arrive | supportproxy.cpp:929-963 | an arrival is the specified step and reports a slot exactly if there is one |
| EngineerSlots.Slots.CloseSlot | supportproxy.cpp:457-465 | the shrinking loop computes the specification |
| EngineerSlots.Slots.CloseExpired | supportproxy.cpp:586-613 | the scan loop closes exactly the expired slots |
| Binlog.PatchByte | binlog.cpp:301-315 | a write changes exactly the bytes it covers |
| BinlogRuns.EveryRun | binlog.cpp:174-613 | on every run: the bitmap is the set of numbers written whole, each of their bytes in the file is that of the last write that covered it, queued ACKs name such numbers, the size is 200 times the highest number plus one, numbers 1 to the highest are each written, asked for or given up, and giving up needs 60 seconds or 200 blocks |
| BinlogRuns.AckedIsStored | binlog.cpp:484-488 | every ACK sent names a block written whole to the open file, whose bytes there are those of the last writes that covered them; they are still the block written whole exactly when no later short write under that number changed one |
| BinlogRuns.HoldsExactly | binlog.cpp:301-315 | whether the file still holds the block last written whole is decided by the writes alone |
| BinlogRuns.AckedButTorn | binlog.cpp:301-348 | a run in which a block is acknowledged while the file holds neither version that was sent |
| BinlogRuns.NeverTornExactly | binlog.cpp:301-315 | at every point of a run the file holds all blocks written whole exactly when every short write that reached it began like the block it repeats |
| BinlogRuns.FileShowsWrites | binlog.cpp:301-315 | the open file holds every block of the bitmap as last written whole exactly when the writes leave them all intact |
| BinlogRuns.EveryStoreAnswered | binlog.cpp:325-348 | every whole write, also of a block seen before, is acknowledged by the next tick unless the file is closed first |
| BinlogRuns.FileIsVehicleLog | binlog.cpp:301-348 | if retransmissions repeat the same bytes, every number in the bitmap has exactly the vehicle's block in the file, also after short writes |
| BinlogRuns.AskedIsMissing | binlog.cpp:490-508 | a NACK names a number that is missing, not given up, within 200 of the highest and noticed at most 60 seconds ago; at most ten go out per tick |
| BinlogPacing.AskedExactly | binlog.cpp:490-508 | on every run, a gap still chased is asked for once a tenth of a second has passed since the last request, or there was none, unless ten others are; and never sooner |
| BinlogPacing.StampIsLastAsk | binlog.cpp:493-508 | what the table keeps for a gap is the time of the last tick that asked for it |
| BinlogPacing.PacedExactly | binlog.cpp:417-470 | on every run STOP goes out exactly when three blocks from the middle of a log have come, no file is open and the last is two seconds old; START exactly when a STOP has made it due or the last is a second old, five once the vehicle streams |
| BinlogRuns.GapsBounded | binlog.cpp:368-388 | after a tick at most 200 gaps are still chased and no ACK is owed |
| BinlogRuns.FileSize | binlog.cpp:301-315 | while no write is cut short the file is exactly as long as its highest block demands |
| BinlogRuns.ClosedForGood | binlog.cpp:569-613 | closed files are never written again |
| BinlogRuns.RestartOpensNewFile | binlog.cpp:180-191 | block 0 after 200 blocks starts a new file and leaves the old one as it was |
| BinlogRuns.OpeningBlock | binlog.cpp:203-288 | the block that opens a file is in it exactly if there was quota and it was written whole |
| BinlogRuns.BlockZeroForgotten | binlog.cpp:280-288 | a run after which block 0 is neither written nor asked for nor given up |
| BinlogRuns.ZeroNeverAsked | binlog.cpp:350-366 | on no run is block 0 ever asked for |
| BinlogRuns.ZeroAccountedExactly | binlog.cpp:325-366 | on every run, until the last number is used, block 0 of the open file is written, asked for or given up exactly when it has been written whole |
| BinlogRuns.MidLogCounts | binlog.cpp:203-217 | blocks from the middle of a log, with no file open, leave only a count that stops at three, which STOP waits for |
| BinlogRuns.RebootTest | binlog.cpp:543-567 | the test is a backward jump of ten seconds exactly below 2^32 - 10000 ms, and fires on nearly anything above |
| BinlogRuns.SpuriousReboot | binlog.cpp:556-565 | a run in which a clock that moves forward by a second closes the file of a vehicle that never rebooted |
| BinlogWriter.MarkedSeen | binlog.cpp:152-172 | marking a number adds that number and no other, however the bitmap grows |
| BinlogWriter.BinlogWriter.SeqnoSeen | binlog.cpp:152-159 | the bit test answers membership |
| BinlogWriter.BinlogWriter.MarkSeqnoSeen | binlog.cpp:161-172 | the bitmap, grown in 64 KiB steps, denotes the set with the number added |
| BinlogWriter.BinlogWriter.QueueGapNacks | binlog.cpp:350-366 | the walk notes exactly the unseen numbers of the gap |
| BinlogWriter.BinlogWriter.StoreBlock | binlog.cpp:315-348 | the state after a whole write |
| BinlogWriter.BinlogWriter.WriteBlock | binlog.cpp:223-348 | caps, latching, whole and short writes |
| BinlogWriter.BinlogWriter.HandleBlock | binlog.cpp:174-348 | a data block is the specified step |
| BinlogWriter.BinlogWriter.Observe | binlog.cpp:543-567 | a SYSTEM_TIME message is the specified step |
| BinlogWriter.BinlogWriter.RotateForReboot | binlog.cpp:569-613 | all per-log state goes with the file |
| BinlogWriter.BinlogWriter.DropStaleNacks | binlog.cpp:368-388 | in any order of the walk exactly the stale entries are dropped |
| BinlogWriter.BinlogWriter.AskForGaps | binlog.cpp:493-508 | in any order of the walk: distinct due gaps, at most ten, none passed over while there is budget |
| BinlogWriter.BinlogWriter.DrainAcks | binlog.cpp:484-488 | every queued ACK goes out, first in first out |
| BinlogWriter.BinlogWriter.Tick | binlog.cpp:417-509 | a tick is an enabled specified step and sends what it says |

## Left out

- Sockets, TLS, epoll, fork, ffmpeg supervision and file-system calls: their results are parameters.
- RTMP: the pre-publish byte and time budget of `feed` (videortmp.cpp:351-376), which looks at the calls and not at the stream; rejecting a publish; draining the output queue, so that the output cap counts everything queued.
- RtmpPrinter.PrintedParses: messages with timestamps from 0xffffff on, which the printer never sends, and of type 1 (Set Chunk Size), which tell the receiver to change its chunk size.
- WebSocket: the HTTP upgrade and its headers; a peer's data after it closed; `send`, which drops bytes before the handshake ends.
- VideoViewer.Watch: viewers over WebSocket, authentication of viewers, and re-initialisation of the ring under an attached viewer.
- RtspViewer.Play: parsing of the client's requests and RTCP; the texts of replies and the contents of sender reports are parameters.
- RtspGuard: how a password is matched is an uninterpreted predicate; queueing towards the backend is an append.
- Binlog: computing the quota, file names and time zones; MAVLink packing and signing.
- TsJoin.JoinIsPlayable: streams in which a table of the version in force says something else, against the rule for version_number in section 2.4.4 of ISO/IEC 13818-1; the scanner does not read such a table again, a new viewer does.
- The MPEG-TS test stream builder, the scanner's statistics beyond what decisions use, and `reset`.
- connections.tdb, the key database, publisher admission and slot takeover, web administration, command line tools, log retention.
- 64-bit overflow of byte positions, which would take 2^64 bytes.
