# full-stack-shinfeld core, in Dafny

This project models the sequential logic at the heart of the repository: the
TCP-like transport over raw IP, the VIM chat packet format in its C++ and
TypeScript versions, the WebSocket frame and opening handshake, and the
`CREATE TABLE` parser of the relational database. Each part is a module of
immutable datatypes and pure functions. The contracts and lemmas state what the
source promises about them.

Transport:

- `Bytes` (bytes.dfy) holds the integer widths. `byte`, `uint16`, `uint32` and
  `uint64` are subset types of `int`. Wrap-around is written out where the
  source relies on it, for example `Add32` for sequence numbers and `Add16` for
  the older generation's 16-bit byte counters. The module also holds the
  big-endian `appendBits`/`combineBytes` pair.
- `Checksum` (checksum.dfy) is the ones'-complement sum over the pseudo-header
  and the segment, folded to 16 bits (section 1 of RFC 1071). `Segments`
  (segment.dfy) is the 20-byte header codec of `backend/src/Segment.cpp` (the
  layout of section 3.1 of RFC 793), and `Segments.Receive` is the receive
  filter both connection generations sit behind.
- `Flags` (flags.dfy) is the flag bits and the priority-ordered classifier.
  `States` (states.dfy) is the `STATE` enum and `stateToStr`, together with the
  per-flag state transitions each generation writes inline.
- `SegmentInfos` (segment_info.dfy) is the retransmission record of the TCP
  generation. The record is shared through a `shared_ptr`, so it is modelled by
  an `id` handle, and the send-completion callback stamps every copy that has
  that handle. `Reassembly` (reassembly.dfy) is the out-of-order buffer as a
  `map`.
- `TcpClient` and `LegacyClient` are the two generations of the per-peer
  record. `PeerFile` is the default file name. Writing to the peer's file is
  modelled as appending to a `received` sequence.
- `TcpConnection` and `TcpCommunicate` are the TCP generation
  (`backend/TCP/src/Connection.cpp`). `LegacyConnection` and
  `LegacyCommunicate` are the older generation (`backend/src/Connection.cpp`).
  The two generations are kept apart because their sequence accounting
  differs. The TCP generation counts payload bytes, and an outgoing segment
  carries a `[start, end)` slice of the shared send buffer. The older
  generation adds one to the sequence number for every segment, and its
  acceptance checks are strict.
- Each turn of `communicate` is a function from a connection and an event
  (`Arrived`, `Typed`, `Idle`, ...) to a new connection. The new connection
  holds the segments handed to the sender, called the outbox, and the payloads
  written out.
- The clock reads are `now` parameters: milliseconds in the TCP generation and
  seconds in the older one. The RTT estimator works over `real`, and its
  weights ALPHA and BETA are parameters.
- The loops over the client map (send, close pass, resend check) walk the
  ports in increasing order, the order `std::map` iterates in. Clients marked
  for removal are erased after the walk, as in the source.

Some behaviours are modelled as the code has them, and lemmas name them:

- The TCP generation's SYN branch puts the peer in SYN_RECEIVED, but
  `createMessage` then overwrites that with SYN_SENT. The model follows the
  code.
- In both generations, `messageHandler` answers a pending close in CLOSING
  with LAST_ACK, but the close pass sends FIN_WAIT_1. This is
  `States.FinSendersDisagreeOnClosing`.
- The older generation's 16-bit `lastByteSent` wraps
  (`LegacyConnection.LastByteSentWraps`).
- In the TCP generation, `copyFront` adds the front's size to the total without
  queueing anything, so the total stops matching the queue
  (`TcpClient.CopyFrontBreaksSize`).

Other components:

- `VimPacket` (vim_packet.dfy) and `VimPacketApi` (vim_packet_api.dfy) are the
  C++ and TypeScript VIM packet codecs. `VimPacketApi` models the JavaScript
  number semantics it relies on: ids and ports as JavaScript numbers (NaN,
  infinities and fractions included), `ToInt32` for `<<` and `>>`, and
  `parseInt` on decimal parts.
- `WebSocketFrame` (websocket_frame.dfy) is the frame codec of section 5.2 of
  RFC 6455. `HttpHandler` (http_handler.dfy) parses and validates the opening
  handshake request (section 4.2.1 of RFC 6455) and builds the response.
  `Text` (text.dfy) holds the string helpers they share.
- `SqlParser` (sql_parser.dfy) is `parse` and `parseCreateTable`.

In both generations `disconnect` raises `timeToClose` and then waits on
`canCloseDown` (backend/src/Connection.cpp:480, backend/TCP/src/Connection.cpp:600). Only
the TCP generation's loop sets `canCloseDown`, once no client is left
(backend/TCP/src/Connection.cpp:531), so the older generation's `disconnect`
never returns. The older one also clears `running`, which ends its loop after
the current turn. The model's `Disconnect` event only raises the close
request.

## Model

| member | source | states |
|---|---|---|
| Bytes.BigEndianRoundTrip | backend/src/Segment.cpp:104-111 | reading back the bytes `appendBits` writes gives the value's low `n` bytes |
| Bytes.FromBigEndianRoundTrip | backend/src/Segment.cpp:144-153 | writing back what `combineBytes` reads gives the same bytes |
| Bytes.Combine16Of | backend/src/Segment.cpp:144-153 | `combineBytes<uint16_t>` at an offset where a 16-bit field was written big-endian returns that field |
| Bytes.Combine32Of | backend/src/Segment.cpp:144-153 | `combineBytes<uint32_t>` at an offset where a 32-bit field was written big-endian returns that field |
| Bytes.BigEndian | backend/src/Segment.cpp:104-111 | the bytes `appendBits` pushes for an integer, most significant first; read back by `FromBigEndian` (stated by `Bytes.BigEndianRoundTrip`) |
| Bytes.FromBigEndian | backend/src/Segment.cpp:144-153 | the integer `combineBytes` assembles from big-endian bytes; inverse of `BigEndian` (stated by `Bytes.FromBigEndianRoundTrip`) |
| Bytes.Combine16 | backend/src/Segment.cpp:144-153 | the 16-bit big-endian field at an offset (its value stated by `Bytes.Combine16Of`) |
| Bytes.Combine32 | backend/src/Segment.cpp:144-153 | the 32-bit big-endian field at an offset (its value stated by `Bytes.Combine32Of`) |
| Bytes.Combine64 | backend/WEBSOCKET/src/WebSocketFrame.cpp:133-136 | the eight-byte extended length read a byte at a time with `<< 8` (its value stated by `Bytes.Combine64Of`) |
| Bytes.Add32 | backend/TCP/src/Connection.cpp:141-142 | sums in `uint32_t`, wrapping at 2^32; associativity and the no-wrap case are stated by `Bytes.Add32Assoc` and `Bytes.Add32NoWrap` |
| Bytes.Or | backend/include/Flags.hpp:28-32 | bitwise or on naturals, bit by bit (the bits it sets are stated by `Bytes.OrBit`) |
| Bytes.And | backend/include/Flags.hpp:45-53 | bitwise and on naturals, bit by bit (stated by `Bytes.AndBit`) |
| Bytes.Xor | backend/WEBSOCKET/src/WebSocketFrame.cpp:56-59 | bitwise exclusive or, used to mask payload bytes; applying it twice with the same key gives the byte back (stated by `Bytes.XorInvolutive`) |
| Bytes.Bit | backend/include/Flags.hpp:45-53 | the test `v & (1 << k)` as bit `k` of the binary expansion (linked to `Bytes.And` by `Bytes.AndBit`) |
| Checksum.WordSumOddTail | backend/src/Segment.cpp:194-200 | an odd-length segment's last byte is added as the high byte of a 16-bit word |
| Checksum.WordSumAppend | backend/src/Segment.cpp:194-200 | the word sum of an even-length prefix followed by more bytes is the sum of the two word sums |
| Checksum.Fold | backend/src/Segment.cpp:202-206 | the carry-fold loop terminates with a result at most 0xFFFF, congruent to its input modulo 0xFFFF, positive for positive input and unchanged for input already at most 0xFFFF |
| Checksum.FoldStep | backend/src/Segment.cpp:202-204 | one fold step strictly shrinks a sum above 0xFFFF, keeps it positive and keeps its residue modulo 0xFFFF |
| Checksum.CalculateCheckSum | backend/src/Segment.cpp:185-207 | the folded pseudo-header-plus-segment sum never exceeds 0xFFFF |
| Checksum.CreateChecksum | backend/src/Segment.cpp:209-213 | the 16-bit checksum and the folded sum add up to 0xFFFF: it is the low 16 bits of the sum's complement |
| Checksum.NoWrap | backend/src/Segment.cpp:185-200 | for segments shorter than 65536 bytes the 32-bit running sum never wraps |
| Checksum.ChecksumSound | backend/src/Segment.cpp:209-219 | writing the complemented checksum of a segment with a zeroed checksum word into that (even-offset) word makes `check_checksum` succeed |
| Checksum.WordSum | backend/src/Segment.cpp:194-200 | the sum of 16-bit big-endian words, an odd last byte padded with a zero low byte; how it splits over concatenation and the odd tail are stated by `Checksum.WordSumAppend` and `Checksum.WordSumOddTail` |
| Checksum.PseudoHeaderSum | backend/src/Segment.cpp:189-192 | the address halves, protocol and 16-bit length added before the words; that with the word sum of a segment under 64 KiB the total stays below 2^32 is stated by `Checksum.NoWrap` |
| Checksum.CheckChecksum | backend/src/Segment.cpp:215-219 | acceptance exactly when the folded sum is 0xFFFF; an encoded segment passes it (stated by `Checksum.ChecksumSound` and `Segments.EncodeChecksumValid`) |
| Checksum.WordSumBound | backend/src/Segment.cpp:194-200 | the word sum of `n` bytes is at most `ceil(n/2)` times 0xFFFF, the bound that keeps the 32-bit accumulator from wrapping |
| Segments.NewSegment | backend/src/Segment.cpp:8-34 | the constructor stores every field as given and starts with checksum 0 |
| Segments.Encode | backend/src/Segment.cpp:113-142 | the packet is 20 bytes plus the payload: ports at 0 and 2, seq at 4, ack at 8, byte 12 is 0x50, byte 13 the flags, window at 14, checksum MSB-first at 16, urgent pointer at 18, payload from 20, all big-endian; the stored checksum field is the value written, and it complements the folded sum taken with bytes 16-17 zeroed |
| Segments.Decode | backend/src/Segment.cpp:155-183 | null exactly for frames under 20 bytes or failing the checksum; otherwise the payload is everything after byte 20, the flags are byte 13 and the peer address is the `sourceIP` argument |
| Segments.EncodeChecksumValid | backend/src/Segment.cpp:113-133 | an encoded segment passes `check_checksum` for the same addresses and protocol |
| Segments.DecodeEncode | backend/src/Segment.cpp:113-183 | decoding an encoded segment returns every field, the checksum written, and `sourceIP` as the peer address |
| Segments.DecodeIgnoresOffsetByte | backend/src/Segment.cpp:160-168 | byte 12 is never read: two frames that differ only there and both pass the checksum decode alike |
| Segments.Receive | backend/src/SocketHandler.cpp:41-48 | the receive filter passes a datagram exactly when it decodes and its flag byte has no bit outside 0x3F |
| Segments.HeaderPrefix | backend/src/Segment.cpp:118-124 | the first 16 header bytes, always 16 long; their field layout is stated by `Segments.Encode` |
| Segments.HeaderSuffix | backend/src/Segment.cpp:127-128 | the urgent pointer and the payload after the checksum word, 2 bytes plus the payload |
| Segments.ZeroedPacket | backend/src/Segment.cpp:118-130 | the packet with a zero checksum word, over which `encode` computes the checksum (its validity afterwards stated by `Segments.EncodeChecksumValid`) |
| Flags.CreateFlag | backend/include/Flags.hpp:28-32 | `createFlag` sets exactly the bits of its two flags |
| Flags.DecodeFlags | backend/include/Flags.hpp:34-56 | INVALID exactly for bytes with a bit outside 0x3F; otherwise SYN dominates (SYN_ACK with ACK), then FIN (FIN_ACK with ACK), then RST, then ACK (PSH_ACK with PSH); DATA exactly when none of FIN, SYN, RST, ACK is set |
| Flags.FlagsToStr | backend/include/Flags.hpp:58-72 | the name is never "ERROR" and is "INVALID" exactly for stray-bit bytes |
| Flags.TypeNameInjective | backend/include/Flags.hpp:60-69 | distinct categories have distinct names |
| Flags.CreateFlagValues | backend/include/Flags.hpp:18-32 | SYN-ACK is 18 and FIN-ACK is 17 |
| Flags.SentFlagsDecode | backend/include/Flags.hpp:34-56 | the flag bytes the connections send (2, 18, 1, 17, 16) decode to SYN, SYN_ACK, FIN, FIN_ACK and ACK |
| States.FromCode | backend/include/Connection.hpp:10-21 | codes 0..9 are exactly the ten states, in enum order |
| States.CodeRoundTrip | backend/include/Connection.hpp:10-21 | every state's code maps back to that state |
| States.StateToStr | backend/include/Connection.hpp:23-37 | "ERROR" exactly for bytes above 9 |
| States.StateToStrInjective | backend/include/Connection.hpp:23-37 | `stateToStr` is injective on 0..9 |
| SegmentInfos.NewSegmentInfo | backend/TCP/src/SegmentInfo.cpp:5-18 | the constructor stores seq, flag, start, data size and tracking verbatim, with the zero send time |
| SegmentInfos.Stamp | backend/TCP/src/SegmentInfo.cpp:41-49 | the send callback sets the send time of the shared record it was made for and changes no other field, and no other record |
| SegmentInfos.StampQueue | backend/TCP/src/SegmentInfo.cpp:47-49 | running the callback over a queue stamps every copy of that one record, element by element |
| SegmentInfos.StampOtherId | backend/TCP/src/SegmentInfo.cpp:47-49 | a queue without the record is left unchanged |
| SegmentInfos.StampSlot | backend/TCP/src/SegmentInfo.cpp:47-49 | an empty slot stays empty and a filled one is stamped as `Stamp` says |
| Reassembly.PopItem | backend/TCP/src/Client.cpp:129-139 | the pop succeeds exactly when the key is held; then it returns that segment and removes only that key; otherwise the buffer is unchanged |
| Reassembly.SetItem | backend/TCP/src/Client.cpp:141-144 | after `insert_or_assign` the key holds the new segment and every other entry is unchanged |
| Reassembly.PopAfterSet | backend/TCP/src/Client.cpp:129-144 | a stored segment comes back out under its key, leaving the rest of the buffer |
| Reassembly.SetOverwrites | backend/TCP/src/Client.cpp:141-144 | storing twice under one key keeps only the later segment |
| Reassembly.CheckItem | backend/TCP/src/Client.cpp:121-127 | `checkItemMessageBuffer`: a segment is held under the key; it holds right after `SetItem` (stated by `Reassembly.SetItem`) |
| PeerFile.NatToString | backend/TCP/src/Client.cpp:22-24 | `std::to_string` yields a non-empty string of decimal digits |
| PeerFile.DecimalRoundTrip | backend/TCP/src/Client.cpp:22-24 | reading that decimal text back gives the number |
| PeerFile.FileNameFor | backend/TCP/src/Client.cpp:20-24 | a non-empty path is kept; an empty one becomes "<IP>_<port>.dat" |
| PeerFile.DefaultFileNameInjective | backend/src/Client.cpp:22-24 | two peers with the same default file name have the same IP and port, so no two peers share a file |
| TcpClient.NewClient | backend/TCP/src/Client.cpp:6-28 | a new client stores its arguments, starts with an empty queue and buffer, no tracker, total 0, nothing sent, and the file name chosen as above; the queue total is consistent |
| TcpClient.PushMessage | backend/TCP/src/Client.cpp:147-153 | the record goes to the back of the queue; the 16-bit total stays the queue's byte size modulo 2^16; nothing else changes |
| TcpClient.PopMessage | backend/TCP/src/Client.cpp:155-164 | false and no change on an empty queue; otherwise the front is removed and returned, and the total stays consistent |
| TcpClient.PushThenPopEmpty | backend/TCP/src/Client.cpp:147-164 | the queue is first-in first-out |
| TcpClient.CheckFront | backend/TCP/src/Client.cpp:185-195 | the front is removed exactly when it exists and its sequence number is strictly below the acknowledgement number |
| TcpClient.PruneAcked | backend/TCP/src/Client.cpp:185-195 | repeating `checkFront` drops exactly the longest acknowledged prefix, keeps the rest in order and keeps the total consistent |
| TcpClient.CopyFront | backend/TCP/src/Client.cpp:166-173 | the front is returned without being removed, and only the total changes |
| TcpClient.CopyFrontBreaksSize | backend/TCP/src/Client.cpp:166-173 | on a consistent non-empty queue `copyFront` keeps the total consistent only when the front's 16-bit size is 0, so any ordinary record breaks it |
| TcpClient.GetMessageTimeSent | backend/TCP/src/Client.cpp:175-178 | the zero time point on an empty queue, else the front's send time |
| TcpClient.GetFrontSeqNum | backend/TCP/src/Client.cpp:180-183 | 0 on an empty queue, else the front's sequence number |
| TcpClient.Smooth | backend/TCP/src/Client.cpp:80-81 | exponential smoothing with a weight in [0,1] lies between the old value and the sample |
| TcpClient.UpdateTransmissionInfo | backend/TCP/src/Client.cpp:74-86 | the first sample seeds the estimate and half of it the deviation (timeout 3 samples); later samples are smoothed with ALPHA and BETA, the deviation against the already-updated estimate; the timeout is estimate + 4 deviations |
| TcpClient.UpdateKeepsBounds | backend/TCP/src/Client.cpp:74-86 | with clamped samples and weights in [0,1] the estimate stays in [1, 5000] ms, the deviation non-negative and the timeout at least 1 ms |
| TcpClient.DoubleTimeoutInterval | backend/TCP/src/Client.cpp:89-94 | the interval doubles only while below 5000 ms; the timeout count always increases by one |
| TcpClient.RepeatedDoublingBounded | backend/TCP/src/Client.cpp:89-94 | any run of timeouts starting below 5000 ms leaves the interval below 10000 ms, never smaller, and counts each timeout |
| TcpClient.ClampedSample | backend/TCP/src/Client.cpp:101-110 | the sample is the elapsed time when that is in [1, 5000] ms; a shorter one is replaced by the 1000 ms default and a longer one by 5000 ms, so it always lies in [1, 5000] |
| TcpClient.CheckTrackerSegment | backend/TCP/src/Client.cpp:96-118 | only a present, tracking tracker with sequence number below the acknowledgement yields a sample; then the estimator runs and the slot is cleared; otherwise nothing changes |
| TcpClient.CheckTrackerKeepsBounds | backend/TCP/src/Client.cpp:96-118 | RTT sampling keeps the estimator inside its bounds |
| TcpClient.StampClient | backend/TCP/src/SegmentInfo.cpp:47-49 | the send callback stamps every copy of the shared record in the queue and the tracker slot and changes nothing else |
| TcpClient.StampKeepsQueueSize | backend/TCP/src/Client.cpp:147-153 | stamping changes no record's size, so the queue total stays consistent |
| TcpClient.SegSize | backend/TCP/src/Client.cpp:147 | `Segment::HEADER_SIZE + getDataSize()` cut to 16 bits, the size each queue operation counts |
| TcpClient.QueueSize | backend/TCP/src/Client.cpp:147-164 | the byte size of the queue of sent segments, which the 16-bit counter tracks modulo 2^16 (see `TcpClient.SizeConsistent`) |
| TcpClient.SizeConsistent | backend/TCP/src/Client.cpp:147-195 | the queue invariant that the 16-bit total is the queue's size modulo 2^16; kept by `TcpClient.PushMessage`, `TcpClient.PopMessage` and `TcpClient.PruneAcked`, broken by `TcpClient.CopyFrontBreaksSize` |
| TcpClient.AckedPrefix | backend/TCP/src/Client.cpp:185-195 | how many queued segments `checkFront` pops for an ack; `TcpClient.PruneAcked` states the queue left |
| TcpClient.EstimatorBounded | backend/TCP/src/Client.cpp:74-118 | the estimator state clamped samples can reach; kept by `TcpClient.UpdateKeepsBounds` and `TcpClient.CheckTrackerKeepsBounds` |
| LegacyClient.NewClient | backend/src/Client.cpp:5-27 | a new client stores its arguments, every other field takes its default of 0, false or empty, and the file name is chosen as above |
| LegacyClient.PushMessage | backend/src/Client.cpp:99-105 | the segment goes to the back of the queue and the 16-bit total stays the queue's byte size modulo 2^16 |
| LegacyClient.PopMessage | backend/src/Client.cpp:107-116 | false and no change on an empty queue; otherwise the front is removed and handed out, and the total stays consistent |
| LegacyClient.CheckFront | backend/src/Client.cpp:118-128 | the front is removed exactly when it exists and its sequence number is at most the acknowledgement number (non-strict, unlike the newer generation) |
| LegacyClient.PruneAcked | backend/src/Client.cpp:118-128 | repeating `checkFront` drops exactly the longest prefix with sequence numbers at most the acknowledgement, keeps the rest in order and the total consistent |
| LegacyClient.DrainAll | backend/src/Client.cpp:107-116 | popping until empty hands out every queued segment in order and leaves a zero total |
| LegacyClient.SetLastTimeMessageSent | backend/src/Client.cpp:58-69 | the send callback sets the client's single timestamp and nothing else |
| LegacyClient.SegSize | backend/src/Client.cpp:100 | `Segment::HEADER_SIZE + data.size()` stored into a `uint16_t` |
| LegacyClient.QueueSize | backend/src/Client.cpp:99-128 | the byte size of the queue of sent segments, which the 16-bit counter tracks modulo 2^16 (see `LegacyClient.SizeConsistent`) |
| LegacyClient.SizeConsistent | backend/src/Client.cpp:99-128 | the 16-bit total is the queue's size modulo 2^16; kept by `LegacyClient.PushMessage`, `LegacyClient.PopMessage` and `LegacyClient.PruneAcked` |
| LegacyClient.AckedPrefix | backend/src/Client.cpp:118-128 | how many queued segments `checkFront` pops for an ack; `LegacyClient.PruneAcked` states the queue left |
| TcpConnection.TrackedValues | backend/TCP/src/Connection.cpp:79 | the segments that get a retransmission record are exactly flag bytes 2, 18, 1, 17, and 16 with a slice ending past byte 0; a bare ACK never does |
| TcpConnection.RecordFor | backend/TCP/src/Connection.cpp:80-82 | the record holds the sequence number, flag, slice start and length (in 32 bits), tracking only when it becomes the tracker, and no send time yet |
| TcpConnection.Created | backend/TCP/src/Connection.cpp:78-94 | the destination client takes the given state and expected ack; a tracked segment's record becomes the tracker when none is set and joins the queue unless the front already has its sequence number; the queue total stays consistent |
| TcpConnection.OutgoingFor | backend/TCP/src/Connection.cpp:91-92 | the sender-queue entry carries the given ports, numbers, flag, window, address and slice, with a send callback exactly for tracked segments |
| TcpConnection.CreateMessage | backend/TCP/src/Connection.cpp:73-98 | for a known destination one entry joins the sender queue and only that client changes; for an unknown port nothing happens |
| TcpConnection.CreateQueuesAtMostOne | backend/TCP/src/Connection.cpp:73-98 | `createMessage` sends exactly one segment, queues at most one record (exactly when tracked and the front differs, keeping the earlier queue), installs a tracker exactly when tracked and none was set, and leaves the sequence number, cut point and FIN mark alone |
| TcpConnection.Cuts | backend/TCP/src/Connection.cpp:116-149 | the loop cuts nothing exactly when at most a header's worth of window is free or no byte is left |
| TcpConnection.CutsBounded | backend/TCP/src/Connection.cpp:119-123 | every slice is non-empty, at most MAX_DATA_SIZE (1000) bytes and inside the unsent part of the buffer; the first starts at the last byte sent and each starts where the previous ended |
| TcpConnection.CutsCover | backend/TCP/src/Connection.cpp:119-139 | the slices' payloads, in order, are exactly the buffer from the last byte sent to where the loop stops, never past the end |
| TcpConnection.CutsFit | backend/TCP/src/Connection.cpp:116-143 | the slices with their 20-byte headers fit in the free window, and the loop stops only when the buffer is used up or at most a header's worth of window is left |
| TcpConnection.SeqAfterCut | backend/TCP/src/Connection.cpp:141-142 | the slices advance the sequence number by exactly the bytes cut, modulo 2^32 |
| TcpConnection.ChunkOutsAt | backend/TCP/src/Connection.cpp:125-136 | the k-th segment of the loop is an ACK for slice k, numbered with the bytes cut before it, with the client's expected ack and address and a callback of its own |
| TcpConnection.SendLoop | backend/TCP/src/Connection.cpp:116-149 | the loop sends the ACK for each slice in order, leaves the client at the end of the last slice with the sequence number advanced by the bytes cut, and touches no other client |
| TcpConnection.Available | backend/TCP/src/Connection.cpp:109-116 | the free window is the peer's window less the bytes in flight, and none once they reach it |
| TcpConnection.BareAck | backend/TCP/src/Connection.cpp:104 | a bare ACK with the client's current numbers, no slice and no record, changes no client |
| TcpConnection.SendMessages | backend/TCP/src/Connection.cpp:100-160 | `sendMessages` only appends to the sender queue, changes only the named client, and of it only the cut point, sequence number and retransmission bookkeeping |
| TcpConnection.SendMessagesSends | backend/TCP/src/Connection.cpp:100-160 | it sends the ACKs for the slices the free window allows; a single bare ACK exactly when no slice is cut and data was just written; nothing otherwise |
| TcpConnection.SendMessagesAdvances | backend/TCP/src/Connection.cpp:119-149 | afterwards the client stands at the end of the last slice, its sequence number advanced by the bytes cut modulo 2^32 |
| TcpConnection.SendAnswersData | backend/TCP/src/Connection.cpp:100-157 | with a positive write length at least one segment is sent |
| TcpConnection.SendFin | backend/TCP/src/Connection.cpp:182-193 | our FIN carries the client's numbers; the client moves to the given state, is marked FIN-sent and its sequence number moves past the FIN |
| TcpConnection.FinIfDone | backend/TCP/src/Connection.cpp:179-195 | the FIN goes out exactly when none was sent, all data is cut and a close is pending or the client is CLOSING; then CLOSING goes to LAST_ACK and any other state to FIN_WAIT_1 |
| TcpConnection.FinIfDoneOnce | backend/TCP/src/Connection.cpp:179-193 | at most one FIN per client: a second pass sends nothing |
| TcpConnection.Acknowledge | backend/TCP/src/Connection.cpp:167-170 | the acknowledged prefix of the queue is dropped and the peer's ack and window recorded |
| TcpConnection.MessageHandler | backend/TCP/src/Connection.cpp:162-201 | for an unknown port nothing changes; a segment ahead of the expected ack is buffered under its sequence number; otherwise a FIN is pushed back onto the receive queue; only the segment's client changes |
| TcpConnection.MessageHandlerAppends | backend/TCP/src/Connection.cpp:162-201 | `messageHandler` only appends to the sender queue |
| TcpConnection.MessageHandlerKeepsWellFormed | backend/TCP/src/Connection.cpp:162-201 | every client stays under its own port with its cut point inside the send buffer |
| TcpConnection.HandlerInOrder | backend/TCP/src/Connection.cpp:167-195 | an in-order segment is not buffered and delivers nothing; the peer's ack and window are recorded; the state changes only by the FIN once due, and a FIN once sent stays sent |
| TcpConnection.HandlerAnswersData | backend/TCP/src/Connection.cpp:175-177 | an in-order segment handled after data was written is always answered by at least one segment |
| TcpConnection.ResendMessages | backend/TCP/src/Connection.cpp:205-230 | for an unknown port or an empty queue nothing happens; otherwise only the named client changes |
| TcpConnection.ResendRepeatsFront | backend/TCP/src/Connection.cpp:205-230 | a resend repeats the front record with its own sequence number, flag and slice and the client's expected ack and window; the queue, state, sequence number and estimator stay; the byte total grows by the front's size |
| TcpConnection.CreatedAtFront | backend/TCP/src/Connection.cpp:85-87 | `createMessage` for the front's sequence number queues nothing and leaves the byte total alone |
| TcpConnection.Tracked | backend/TCP/src/Connection.cpp:79 | which created segments are queued for retransmission; the flag bytes it accepts are listed by `TcpConnection.TrackedValues` |
| TcpConnection.NextEnd | backend/TCP/src/Connection.cpp:122-123 | the end of the next slice: at most `MAX_DATA_SIZE` and what the window leaves after a header, never past the buffer (bounds stated by `TcpConnection.CutsBounded`) |
| TcpConnection.CutEnd | backend/TCP/src/Connection.cpp:119-139 | where the cut point stands after the slices (stated by `TcpConnection.CutsCover`) |
| TcpConnection.WireSize | backend/TCP/src/Connection.cpp:116-143 | window bytes the slices use, each payload plus a header; that they fit the window is stated by `TcpConnection.CutsFit` |
| TcpConnection.Payloads | backend/TCP/src/Connection.cpp:125-136 | the payload bytes of the slices in order; that they are the buffer from the old cut point to the new one is stated by `TcpConnection.CutsCover` |
| TcpConnection.SeqAfter | backend/TCP/src/Connection.cpp:141-142 | the sequence number after the slices, advanced by each payload modulo 2^32 (stated by `TcpConnection.SeqAfterCut`) |
| TcpConnection.ChunkOut | backend/TCP/src/Connection.cpp:125-136 | the ACK segment for one slice: ports, sequence and ack numbers, an empty data field and the slice bounds |
| TcpConnection.ChunkOuts | backend/TCP/src/Connection.cpp:119-149 | the segments of all slices, numbered consecutively; their fields are stated by `TcpConnection.ChunkOutsAt` |
| TcpConnection.ChunkClient | backend/TCP/src/Connection.cpp:125-142 | a client after one slice: cut point at its end, sequence number advanced by its length, the rest untouched |
| TcpConnection.LoopClient | backend/TCP/src/Connection.cpp:119-149 | a client after all slices (its cut point stated by `TcpConnection.LoopClientEnd`, its sequence number by `TcpConnection.LoopClientSeq`, the fields kept by `TcpConnection.LoopClientFrame`) |
| TcpConnection.BareAckOut | backend/TCP/src/Connection.cpp:104 | the data-less, untracked ACK at the client's numbers |
| TcpConnection.SendOpen | backend/TCP/src/Connection.cpp:116-157 | `sendMessages` with an open window: the slices, then a bare ACK when no slice went out and data was read; keeps the connection well formed and the other clients unchanged |
| TcpConnection.FinDue | backend/TCP/src/Connection.cpp:179-181 | the condition under which `messageHandler` sends our FIN; `TcpConnection.FinIfDone` states what happens when it holds |
| TcpConnection.CutsUnfold | backend/TCP/src/Connection.cpp:119-143 | one turn of the slicing loop: a non-empty slice within the buffer, at most `MAX_DATA_SIZE` long and fitting the window with its header, then the rest cut from the reduced window |
| TcpConnection.LoopClientEnd | backend/TCP/src/Connection.cpp:139 | after the loop the cut point is the end of the last slice |
| TcpConnection.LoopClientSeq | backend/TCP/src/Connection.cpp:141-142 | after the loop the sequence number is advanced by every slice's length |
| TcpConnection.LoopClientFrame | backend/TCP/src/Connection.cpp:119-149 | the loop changes only the cut point, the sequence number and the retransmission bookkeeping |
| TcpConnection.WindowOpen | backend/TCP/src/Connection.cpp:109-116 | a slice goes out only when data is left and the window has room, and then the room is the window less the bytes in flight |
| TcpConnection.SendMessagesOpen | backend/TCP/src/Connection.cpp:100-116 | with data left and the window open, `sendMessages` takes the slicing path |
| TcpCommunicate.NewConn | backend/TCP/src/Connection.cpp:16-52 | a connection starts with no clients, an empty send buffer, nothing queued and no close request |
| TcpCommunicate.Fresh | backend/TCP/src/Connection.cpp:65 | the client built for a peer starts with sequence number 0, last ack 0, nothing sent or buffered, no tracker and the configured estimator |
| TcpCommunicate.Emplace | backend/TCP/src/Connection.cpp:65 | `try_emplace` adds a client only under a new port and keeps a known one as it is |
| TcpCommunicate.Greet | backend/TCP/src/Connection.cpp:284-286 | the handshake opener sends one segment with the default sequence number and moves the peer's next sequence number one past it |
| TcpCommunicate.Open | backend/TCP/src/Connection.cpp:55-71 | with a target port and address a client in NONE is added for it and sent a SYN with the default numbers, moving it to SYN_SENT; clients handed in without the target make `clients.at` throw; with no clients nothing is sent |
| TcpCommunicate.AddClient | backend/TCP/src/Connection.cpp:268-273 | the peer is added unless known and gets a SYN with the default numbers, addressed to the configured destination address rather than its own, and moves to SYN_SENT |
| TcpCommunicate.Sample | backend/TCP/src/Connection.cpp:310 | the RTT sample runs on the sender only and changes nothing else |
| TcpCommunicate.Buffered | backend/TCP/src/Connection.cpp:337-338 | an early segment is stored under its sequence number with its window recorded, and nothing is sent |
| TcpCommunicate.OnSyn | backend/TCP/src/Connection.cpp:298-304 | a SYN adds its sender (unless known) and keeps every other client |
| TcpCommunicate.OnSynAnswers | backend/TCP/src/Connection.cpp:298-304 | a SYN is answered by one SYN-ACK with the default sequence number acknowledging it, and leaves its sender in SYN_SENT expecting the number after the SYN, one past the default |
| TcpCommunicate.OnSynAck | backend/TCP/src/Connection.cpp:305-326 | a SYN-ACK from an unknown sender or with any ack but the sender's next sequence number changes nothing |
| TcpCommunicate.SynAckEstablishes | backend/TCP/src/Connection.cpp:309-317 | an accepted SYN-ACK sends exactly one bare, untracked ACK acknowledging it and leaves the sender ESTABLISHED with the peer's ack and window recorded |
| TcpCommunicate.FinAcked | backend/TCP/src/Connection.cpp:355-361 | the answer to an accepted FIN is one FIN-ACK acknowledging it; the sender takes the state a FIN leads to, the ack moves past the FIN and the sequence number past the FIN-ACK |
| TcpCommunicate.OnFin | backend/TCP/src/Connection.cpp:327-376 | a FIN from an unknown sender changes nothing; otherwise the sample comes first and the branches follow |
| TcpCommunicate.FinAheadBuffered | backend/TCP/src/Connection.cpp:332-341 | a FIN ahead of the expected ack is always held under its sequence number and nothing is sent for it |
| TcpCommunicate.FinStaleOnlySamples | backend/TCP/src/Connection.cpp:342-370 | a FIN behind the expected ack, with its ack out of range, or in a state that does not accept it leaves only the RTT sample |
| TcpCommunicate.FinInFinWait2 | backend/TCP/src/Connection.cpp:350-361 | in FIN_WAIT_2 an in-order FIN is answered by exactly one FIN-ACK and moves the peer to TIME_WAIT |
| TcpCommunicate.FinInEstablished | backend/TCP/src/Connection.cpp:346-362 | in ESTABLISHED an in-order FIN is answered by a FIN-ACK; the peer ends in CLOSING, or in LAST_ACK with our FIN sent; a plain FIN goes back onto the receive queue |
| TcpCommunicate.FinAckAccepted | backend/TCP/src/Connection.cpp:393-409 | an in-order FIN-ACK drops the acknowledged records, takes the peer's ack as the next sequence number, expects the number after it, and moves FIN_WAIT_1 to FIN_WAIT_2, LAST_ACK to CLOSED and any other state to NONE |
| TcpCommunicate.OnFinAck | backend/TCP/src/Connection.cpp:377-420 | a FIN-ACK from an unknown sender changes nothing |
| TcpCommunicate.FinAckTransition | backend/TCP/src/Connection.cpp:390-409 | an in-order FIN-ACK completes our FIN, sends nothing and empties the acknowledged part of the queue |
| TcpCommunicate.FinAckMismatchOnlySamples | backend/TCP/src/Connection.cpp:383-414 | a FIN-ACK that is not in order, or ahead with an ack that is not newer, leaves only the sample: unlike a FIN or an ACK it is never buffered |
| TcpCommunicate.Drain | backend/TCP/src/Connection.cpp:456-475 | the out-of-order drain only removes entries, stops with nothing held at the next expected number, and writes only non-empty payloads |
| TcpCommunicate.DrainAdvances | backend/TCP/src/Connection.cpp:454-470 | the drain moves the expected number on by exactly the bytes it writes, in 32 bits |
| TcpCommunicate.DrainReadsChain | backend/TCP/src/Connection.cpp:456-471 | the i-th payload the drain writes is the data of the data ACK held where the payloads before it end |
| TcpCommunicate.Deliver | backend/TCP/src/Connection.cpp:437-489 | the in-order ACK branch keeps the connection well formed and its setup |
| TcpCommunicate.OnAck | backend/TCP/src/Connection.cpp:422-499 | an ACK from an unknown sender changes nothing |
| TcpCommunicate.AckAheadBuffered | backend/TCP/src/Connection.cpp:426-436 | an ACK ahead of the expected ack is always held under its sequence number and nothing is sent |
| TcpCommunicate.StaleAckOnlySamples | backend/TCP/src/Connection.cpp:437-494 | an ACK behind the expected ack, or in order with its ack out of range, leaves only the RTT sample |
| TcpCommunicate.DeliverData | backend/TCP/src/Connection.cpp:440-489 | a payload delivered in order is recorded followed by the buffered data ACKs that continue it, the expected ack moves to where the drain stopped, and at least one segment answers it |
| TcpCommunicate.AckDelivers | backend/TCP/src/Connection.cpp:422-489 | the same for a received in-order ACK with its ack in range, after the RTT sample |
| TcpCommunicate.DispatchKeepsWellFormed | backend/TCP/src/Connection.cpp:297-510 | every flag branch keeps the connection well formed; PSH-ACK, RST, DATA and invalid flag bytes change nothing |
| TcpCommunicate.Receive | backend/TCP/src/Connection.cpp:292-297 | a segment addressed to another port is dropped; no branch adds or removes a client except SYN |
| TcpCommunicate.SendStep | backend/TCP/src/Connection.cpp:519-523 | a client in ESTABLISHED or CLOSING gets `sendMessages` with no data written; no other client changes |
| TcpCommunicate.SendFrom | backend/TCP/src/Connection.cpp:519-523 | the input pass over the ports from p upwards offers the new data to exactly the sending clients among them |
| TcpCommunicate.Input | backend/TCP/src/Connection.cpp:514-524 | input is appended to the send buffer, and every client in ESTABLISHED or CLOSING, and only those, is offered the new data |
| TcpCommunicate.CloseChoice | backend/TCP/src/Connection.cpp:539-574 | the close pass sends a FIN exactly when none was sent and all data is cut, and drops a client exactly when its FIN is sent and it is CLOSED or in TIME_WAIT with its queue front waiting more than twice the timeout |
| TcpCommunicate.CloseFin | backend/TCP/src/Connection.cpp:546-556 | the close pass's FIN carries the client's current numbers and no data |
| TcpCommunicate.CloseStep | backend/TCP/src/Connection.cpp:539-574 | one port of the close pass deals with that client as the choice says and marks it for removal exactly on Drop |
| TcpCommunicate.CloseFrom | backend/TCP/src/Connection.cpp:539-574 | the close pass from port p upwards deals with every such client and collects exactly the ports to drop |
| TcpCommunicate.ClosePass | backend/TCP/src/Connection.cpp:525-582 | after the pass a client survives exactly when it is not dropped, and each survivor is as the choice leaves it (FIN sent with the close pass's state, or unchanged) |
| TcpCommunicate.ClosePassFinishes | backend/TCP/src/Connection.cpp:540-559 | a client that has cut all the data leaves the pass removed or with its FIN sent; one that had not sent it stays, in the state the close pass picks |
| TcpCommunicate.TimeWaitLingers | backend/TCP/src/Connection.cpp:561-573 | a TIME_WAIT client whose front has waited at most twice the timeout survives unchanged; a CLOSED client with its FIN sent does not survive |
| TcpCommunicate.ResendChoice | backend/TCP/src/Connection.cpp:235-254 | a CLOSED client expires; any other whose queue front has waited more than one timeout gets a retransmission |
| TcpCommunicate.ResendStep | backend/TCP/src/Connection.cpp:235-254 | one port of the resend check resends and doubles the timeout when due, and marks the port for removal exactly when the client gives up |
| TcpCommunicate.ResendFrom | backend/TCP/src/Connection.cpp:235-257 | the resend check from port p upwards collects exactly the ports that give up |
| TcpCommunicate.ResendCheck | backend/TCP/src/Connection.cpp:232-266 | a client survives exactly when it does not give up (CLOSED, or timed out more than 10 times), and each survivor is as the choice leaves it |
| TcpCommunicate.ResendQuietWhileTimely | backend/TCP/src/Connection.cpp:238-241 | a client that is not CLOSED and whose front has not waited more than one timeout is neither resent to nor removed |
| TcpCommunicate.ResendGivesUp | backend/TCP/src/Connection.cpp:244-252 | a client that has already timed out 10 times is removed at its next timeout; below that it stays and counts one more |
| TcpCommunicate.SendDone | backend/TCP/src/SegmentInfo.cpp:47-49 | the send callback stamps the record's copies in its client and changes nothing else |
| TcpCommunicate.Step | backend/TCP/src/Connection.cpp:291-593 | one turn keeps the connection well formed and its configuration, only grows the send buffer, never withdraws a close request, `disconnect` raises it, and the ending turn changes nothing |
| TcpCommunicate.Run | backend/TCP/src/Connection.cpp:291-606 | over any run of events the configuration never changes, the send buffer only grows, and once `disconnect` happens the close request stays raised |
| TcpCommunicate.AckWithin | backend/TCP/src/Connection.cpp:334 | the acknowledgement test `lastAck <= ack <= expectedSeq` of the in-order branches (used by `TcpCommunicate.OnFin` and `TcpCommunicate.OnAck`) |
| TcpCommunicate.AckNewer | backend/TCP/src/Connection.cpp:385 | the stricter test `lastAck < ack <= expectedSeq` of FIN-ACK and the out-of-order ACK (used by `TcpCommunicate.OnFinAck`) |
| TcpCommunicate.FinAnswer | backend/TCP/src/Connection.cpp:355-361 | the answer to an in-order FIN: acknowledged, and the handler run when the client is CLOSING; keeps the connection well formed and its setup unchanged |
| TcpCommunicate.TotalLength | backend/TCP/src/Connection.cpp:456-471 | the bytes delivered by a drain; the sequence number advances by exactly this much (stated by `TcpCommunicate.DrainAdvances`) |
| TcpCommunicate.DrainAfter | backend/TCP/src/Connection.cpp:454-470 | the drain started after a payload: it stops at the first sequence number not buffered, past the payload and everything drained |
| TcpCommunicate.Handed | backend/TCP/src/Connection.cpp:473-488 | the segment given to `messageHandler`, numbered where the drain stopped |
| TcpCommunicate.Dispatch | backend/TCP/src/Connection.cpp:297-510 | the `switch` on the flag type: SYN, SYN-ACK, FIN, FIN-ACK and ACK have branches, anything else is dropped; it keeps the connection well formed (stated by `TcpCommunicate.DispatchKeepsWellFormed`) |
| TcpCommunicate.Offered | backend/TCP/src/Connection.cpp:100-160 | a client as `sendMessages` leaves it: at the end of the slices its window allows, sequence number advanced by the bytes cut (stated by `TcpCommunicate.SendFrom`) |
| TcpCommunicate.Overdue | backend/TCP/src/Connection.cpp:238-241 | the front of the queue has waited longer than a multiple of the timeout interval; without it a live client is left as it was (stated by `TcpCommunicate.ResendQuietWhileTimely`) |
| TcpCommunicate.ClosedAs | backend/TCP/src/Connection.cpp:539-574 | a client as the close pass leaves it (stated by `TcpCommunicate.CloseFrom` and `TcpCommunicate.ClosePass`) |
| TcpCommunicate.GivesUp | backend/TCP/src/Connection.cpp:249-252 | the client is dropped: its lifetime expired or the timeout count passed `MAX_TIMEOUTS` (stated by `TcpCommunicate.ResendGivesUp`) |
| TcpCommunicate.ResentAs | backend/TCP/src/Connection.cpp:235-257 | a client as the resend check leaves it: front repeated, interval doubled below the limit, counted once (stated by `TcpCommunicate.ResendFrom`) |
| TcpCommunicate.Ends | backend/TCP/src/Connection.cpp:525-533 | the loop's exit: close requested and no client left; `TcpCommunicate.Step` leaves the connection unchanged then |
| TcpCommunicate.FinAnswerClosing | backend/TCP/src/Connection.cpp:346-362 | an in-order FIN in ESTABLISHED: a FIN-ACK at our sequence number acknowledging the FIN, the client in CLOSING or, once its own FIN went out, LAST_ACK, and a bare FIN requeued |
| TcpCommunicate.DrainFirst | backend/TCP/src/Connection.cpp:456-471 | a drain that writes anything starts with the segment held at the expected number, a data-carrying ACK, and goes on after its payload |
| LegacyConnection.NextSeq | backend/src/Connection.cpp:72 | the sequence number after a segment of n bytes is n + 1 further on, wrapping at 2^32 |
| LegacyConnection.Sent | backend/src/Connection.cpp:65-75 | `createMessage` queues the segment at the back of the destination's queue, sets the state and expected ack, moves the next sequence number past the segment, and keeps the total consistent |
| LegacyConnection.CreateMessage | backend/src/Connection.cpp:62-80 | for a known destination exactly one segment is sent and queued and only that client changes; for an unknown port nothing happens |
| LegacyConnection.Rewrite | backend/src/Connection.cpp:91 | a retransmitted segment takes the new acknowledgement number only when it is non-zero |
| LegacyConnection.ResendRound | backend/src/Connection.cpp:88-97 | one round pops the front, rewrites its ack and pushes it back: the queue rotates by one and the byte total is unchanged |
| LegacyConnection.RotateMovesPrefix | backend/src/Connection.cpp:85-99 | after k rounds the first k segments have been sent rewritten in their original order and moved to the back |
| LegacyConnection.ResendAll | backend/src/Connection.cpp:85-99 | the full loop sends every queued segment once, in order, and leaves the queue the same segments (rewritten) in the same order with the same byte total |
| LegacyConnection.ResendMessages | backend/src/Connection.cpp:82-108 | for an unknown port or an empty queue nothing happens; otherwise every outstanding segment is sent again in order, and a non-zero new ack becomes the next sequence number |
| LegacyConnection.ResendKeepsWellFormed | backend/src/Connection.cpp:82-108 | resending keeps every client under its own port with its cut point inside the data |
| LegacyConnection.Available | backend/src/Connection.cpp:112-113 | the free window is the peer's window less the bytes in flight, computed in 16 bits |
| LegacyConnection.Iterations | backend/src/Connection.cpp:116 | the round count fixed before the loop is between 1 and 66 |
| LegacyConnection.ChunkEnd | backend/src/Connection.cpp:122-123 | a chunk ends MAX_DATA_SIZE (1000) bytes on or at the end of the data, whichever is first |
| LegacyConnection.Chunk | backend/src/Connection.cpp:122-137 | each round's segment is an ACK carrying the next chunk, with the client's numbers and address |
| LegacyConnection.Advance | backend/src/Connection.cpp:139-140 | after a round the next sequence number is past the chunk and the last byte sent is the chunk's end, stored in 16 bits |
| LegacyConnection.PushAll | backend/src/Connection.cpp:69 | a run of `createMessage` calls queues its segments in order and keeps the total consistent |
| LegacyConnection.SendMessages | backend/src/Connection.cpp:110-145 | for a known client the chunk loop runs for the round count the window gave at the start; its segments are sent and queued; unknown ports are left alone |
| LegacyConnection.ChunkLoopShape | backend/src/Connection.cpp:117-143 | the loop runs at most the round count, fewer only when the data is used up, and every segment is an ACK to the client carrying 1 to 1000 bytes |
| LegacyConnection.ChunkLoopContiguous | backend/src/Connection.cpp:118-140 | on data shorter than 2^16 bytes the chunks are exactly the data between the old and new last byte sent |
| LegacyConnection.ChunkLoopSequence | backend/src/Connection.cpp:126-140 | on such data the next sequence number moves by the bytes cut plus one per segment |
| LegacyConnection.LastByteSentWraps | backend/src/Connection.cpp:139-140 | with 66000 bytes of data the 16-bit last byte sent wraps: a chunk ending at 66000 is recorded as 464 and the next chunk starts over there |
| LegacyConnection.Acknowledge | backend/src/Connection.cpp:153-158 | the acknowledged prefix (sequence number at most the ack) is dropped and the ack and window recorded |
| LegacyConnection.FinIfDone | backend/src/Connection.cpp:166-181 | a FIN goes out exactly when none was sent, all data is out and a close is pending or the client is CLOSING; CLOSING goes to LAST_ACK, any other state to FIN_WAIT_1 |
| LegacyConnection.MessageHandler | backend/src/Connection.cpp:148-186 | for an unknown sender nothing changes; a segment ahead of the expected ack is buffered; otherwise data goes out as the window allows and then the FIN if due |
| LegacyConnection.MessageHandlerKeepsWellFormed | backend/src/Connection.cpp:148-186 | handling a message keeps the connection well formed, its client set and its data |
| LegacyConnection.RewriteAll | backend/src/Connection.cpp:91 | every queued segment with its ack rewritten, position by position |
| LegacyConnection.Rotate | backend/src/Connection.cpp:85-99 | `k` resend rounds on the queue: the first `k` segments rewritten and moved to the back, and sent in order (stated by `LegacyConnection.RotateMovesPrefix` and `LegacyConnection.ResendAll`) |
| LegacyConnection.ResendRounds | backend/src/Connection.cpp:85-99 | the resend loop on the client: only the queue moves, as `Rotate` says, and the same segments are sent |
| LegacyConnection.Payloads | backend/src/Connection.cpp:122-137 | the payloads of a run of segments, concatenated; the chunk loop's payloads are the data from the old cut point on (stated by `LegacyConnection.ChunkLoopContiguous`) |
| LegacyConnection.ChunkLoop | backend/src/Connection.cpp:117-143 | the chunk loop of `sendMessages`; its rounds, contiguity and sequence numbers are stated by `LegacyConnection.ChunkLoopShape`, `LegacyConnection.ChunkLoopContiguous` and `LegacyConnection.ChunkLoopSequence` |
| States.FinState | backend/src/Connection.cpp:177 | the FIN sent from the message handler moves a CLOSING client to LAST_ACK and every other client to FIN_WAIT_1 |
| States.CloseFinState | backend/src/Connection.cpp:440 | the FIN sent by the close pass moves an ESTABLISHED or CLOSING client to FIN_WAIT_1 and every other client to LAST_ACK |
| States.FinSendersDisagreeOnClosing | backend/TCP/src/Connection.cpp:189 | the two places that send a FIN disagree on CLOSING (LAST_ACK against FIN_WAIT_1), and among the other states they agree on ESTABLISHED only |
| States.FinReceivedState | backend/src/Connection.cpp:270-278 | a received in-order FIN moves ESTABLISHED to CLOSING and FIN_WAIT_2 to TIME_WAIT; in every other state it is refused (NONE) |
| States.FinAckState | backend/src/Connection.cpp:322-332 | a received in-order FIN-ACK moves FIN_WAIT_1 to FIN_WAIT_2 and LAST_ACK to CLOSED, and every other state to NONE, each in both directions |
| LegacyCommunicate.NewConn | backend/include/Connection.hpp:51-54 | a new connection has window 100, urgent pointer 0, initial sequence 1000 and ack 0, no clients, no data, no pending close, and is well formed |
| LegacyCommunicate.UpdateKeepsWellFormed | backend/src/Connection.cpp:62-80 | storing a client under its own port whose last byte sent is within the data keeps the connection well formed |
| LegacyCommunicate.Open | backend/src/Connection.cpp:45-60 | with a target port, a client for it is added and one SYN with the default numbers is queued, leaving it in SYN_SENT expecting the default sequence plus one; with no target and no clients nothing changes |
| LegacyCommunicate.OutOfOrder | backend/src/Connection.cpp:258-266 | a segment ahead of the expected ack whose ack is not acceptable only sets the window and is stored in the reassembly buffer under its sequence number |
| LegacyCommunicate.OutOfOrderBuffers | backend/src/Connection.cpp:258-266 | whichever way it goes, a segment ahead of the expected ack ends up in its sender's buffer under its sequence number and nothing is sent |
| LegacyCommunicate.OutOfOrderAsWritten | backend/src/Connection.cpp:258-265 | as written, whenever the branch yields a connection it is the corrected one |
| LegacyCommunicate.SeqNumThrough | backend/src/Connection.cpp:265 | the sequence number can be read through the held pointer exactly when it still holds a segment, and is then that segment's number |
| LegacyCommunicate.OutOfOrderAsWrittenDereferencesNull | backend/src/Connection.cpp:258-356 | as written, every FIN, FIN-ACK or ACK ahead of the expected ack from a known client ends in reading a moved-from pointer, while the corrected branch buffers the segment and keeps the connection well formed |
| LegacyCommunicate.Admit | backend/src/Connection.cpp:234 | the SYN's sender is added in SYN_RECEIVED expecting the sequence after the SYN when it is new; a known sender is left as it is |
| LegacyCommunicate.OnSyn | backend/src/Connection.cpp:232-238 | answering a SYN keeps the connection well formed |
| LegacyCommunicate.OnSynState | backend/src/Connection.cpp:232-238 | after a SYN its sender is in SYN_SENT, acknowledges the SYN's sequence plus one and will send from the default sequence plus one |
| LegacyCommunicate.OnSynAck | backend/src/Connection.cpp:239-255 | a SYN-ACK from an unknown sender or with the wrong ack changes nothing; a matching one queues an ACK, establishes the client and goes through the message handler |
| LegacyCommunicate.OnFin | backend/src/Connection.cpp:256-298 | handling a FIN keeps the connection well formed |
| LegacyCommunicate.FinInFinWait2 | backend/src/Connection.cpp:267-284 | an acceptable in-order FIN in FIN_WAIT_2 is answered by exactly one FIN-ACK acknowledging it, and the client enters TIME_WAIT with the sender's window |
| LegacyCommunicate.FinInEstablished | backend/src/Connection.cpp:267-284 | an acceptable in-order FIN in ESTABLISHED is answered first by a FIN-ACK acknowledging it, and the client ends in CLOSING or LAST_ACK |
| LegacyCommunicate.HandlerFromClosing | backend/src/Connection.cpp:148-186 | the message handler on a CLOSING client only appends to the send queue and leaves the client CLOSING or LAST_ACK |
| LegacyCommunicate.SendKeepsState | backend/src/Connection.cpp:110-146 | sending data only appends to the send queue and never changes the client's state |
| LegacyCommunicate.FinIfDoneFromClosing | backend/src/Connection.cpp:166-181 | the closing step on a CLOSING client only appends and leaves it CLOSING or LAST_ACK |
| LegacyCommunicate.FinIgnored | backend/src/Connection.cpp:285-292 | a FIN that is not ahead, not acceptable in order, or arrives in a state that takes no FIN changes nothing |
| LegacyCommunicate.OnFinAck | backend/src/Connection.cpp:299-343 | handling a FIN-ACK keeps the connection well formed |
| LegacyCommunicate.OutOfOrderKeepsWellFormed | backend/src/Connection.cpp:258-266 | buffering an out-of-order segment keeps the connection well formed |
| LegacyCommunicate.FinAckTransition | backend/src/Connection.cpp:313-332 | an exact in-order FIN-ACK sends nothing, drops the acknowledged queue prefix, moves both numbers one past the exchange, records the ack and takes the FIN-ACK state transition |
| LegacyCommunicate.FinAckMismatchIgnored | backend/src/Connection.cpp:313-337 | a FIN-ACK not ahead of the expected ack must match both numbers exactly, otherwise nothing changes |
| LegacyCommunicate.Drain | backend/src/Connection.cpp:368-376 | draining the reassembly buffer stops at a number with no buffered segment, removes exactly the segments it writes and keeps the others unchanged, and writes first the segment at the start number |
| LegacyCommunicate.Deliver | backend/src/Connection.cpp:358-386 | delivering an in-order ACK keeps the connection well formed |
| LegacyCommunicate.OnAck | backend/src/Connection.cpp:345-395 | handling an ACK keeps the connection well formed |
| LegacyCommunicate.AckDelivers | backend/src/Connection.cpp:358-386 | an acceptable in-order ACK with data appends its payload and then the drained continuation to what the client received, and the expected ack becomes the first number with nothing buffered |
| LegacyCommunicate.HandlerKeepsReceived | backend/src/Connection.cpp:148-186 | the message handler never changes what a client received or the ack it expects |
| LegacyCommunicate.SendKeepsReceived | backend/src/Connection.cpp:110-146 | sending data never changes what a client received or the ack it expects |
| LegacyCommunicate.FinIfDoneKeepsReceived | backend/src/Connection.cpp:166-181 | the closing step never changes what a client received or the ack it expects |
| LegacyCommunicate.StaleAckIgnored | backend/src/Connection.cpp:358-390 | an ACK or FIN not ahead of the expected ack whose ack is not newer than the last one or beyond what was sent changes nothing |
| LegacyCommunicate.DispatchKeepsWellFormed | backend/src/Connection.cpp:231-403 | every flag branch keeps the connection well formed, and PSH-ACK, RST, plain data and invalid flags change nothing |
| LegacyCommunicate.Receive | backend/src/Connection.cpp:230-231 | processing a received segment keeps the connection well formed |
| LegacyCommunicate.SendStep | backend/src/Connection.cpp:411-417 | one port of the input pass sends only to a client in ESTABLISHED or CLOSING, only appends, and changes no other client and no client's state |
| LegacyCommunicate.SendFrom | backend/src/Connection.cpp:411-417 | the input pass from a port on only appends, leaves ports below it and clients not ESTABLISHED or CLOSING unchanged, and changes no state |
| LegacyCommunicate.Input | backend/src/Connection.cpp:406-418 | a line of input is appended to the data to send, only appends to the send queue, and leaves clients not ESTABLISHED or CLOSING unchanged |
| LegacyCommunicate.CloseChoice | backend/src/Connection.cpp:424-454 | a FIN is due exactly when none was sent and all data is out; removal is due exactly when the FIN was sent and the client is CLOSED or has been in TIME_WAIT more than twice the segment lifetime since its last send |
| LegacyCommunicate.CloseFin | backend/src/Connection.cpp:431-441 | the close pass's FIN goes to the client's port with no data, its expected sequence and its expected ack |
| LegacyCommunicate.AfterClose | backend/src/Connection.cpp:425-444 | a client due a FIN gets exactly that FIN queued, is marked as having sent it and takes the close-pass FIN state; any other client is unchanged |
| LegacyCommunicate.CloseStep | backend/src/Connection.cpp:424-454 | one port of the close pass touches only that client, as the close choice says, and adds it to the removals exactly when removal is due |
| LegacyCommunicate.CloseFrom | backend/src/Connection.cpp:424-454 | the close pass from a port on treats every client at or above it as the close choice says and collects exactly the ports due for removal |
| LegacyCommunicate.ClosePass | backend/src/Connection.cpp:419-462 | after the close pass a client survives exactly when it is not due for removal, and every survivor is as the close choice leaves it |
| LegacyCommunicate.TimeWaitLingers | backend/src/Connection.cpp:446-453 | a client in TIME_WAIT for at most twice the segment lifetime survives the close pass unchanged, and a CLOSED client that sent its FIN does not survive |
| LegacyCommunicate.ResendChoice | backend/src/Connection.cpp:191-203 | a client is acted on only when it has sent and its last send is more than one segment lifetime ago; it is then removed exactly when CLOSED and resent exactly when not CLOSED with a non-empty queue |
| LegacyCommunicate.AfterResend | backend/src/Connection.cpp:82-108 | a client due a resend has its whole queue rewritten to carry its expected ack and, when that ack is nonzero, sends from it; any other client is unchanged |
| LegacyCommunicate.ResendStep | backend/src/Connection.cpp:190-206 | one port of the resend check touches only that client, as the resend choice says, and adds it to the removals exactly when it expired |
| LegacyCommunicate.ResendFrom | backend/src/Connection.cpp:190-206 | the resend check from a port on treats every client at or above it as the resend choice says and collects exactly the expired ports |
| LegacyCommunicate.ResendCheck | backend/src/Connection.cpp:188-214 | after the resend check a client survives exactly when it did not expire, and every survivor is as the resend choice leaves it |
| LegacyCommunicate.ResendQuietWithinLifetime | backend/src/Connection.cpp:191-193 | a client that never completed a send, or whose last send is within one segment lifetime, is neither resent nor removed |
| LegacyCommunicate.SendDone | backend/src/Client.cpp:63-69 | a completed send stamps only its own client's last-send time and leaves the queue and every other client unchanged |
| LegacyCommunicate.Step | backend/src/Connection.cpp:229-471 | every turn of the event loop keeps the connection well formed |
| LegacyCommunicate.Run | backend/src/Connection.cpp:229-471 | any run of events keeps the connection well formed |
| VimPacket.MessagePacket | backend/VIM-MESSAGE/src/VIMPacket.cpp:43-53 | a message packet carries no address and no port |
| VimPacket.UserPacket | backend/VIM-MESSAGE/src/VIMPacket.cpp:55-63 | a user-request packet carries no user id, no message id and no data |
| VimPacket.ConfirmationPacket | backend/VIM-MESSAGE/src/VIMPacket.cpp:65-75 | a confirmation packet carries no message id and no data |
| VimPacket.CreateMessage | backend/VIM-MESSAGE/src/VIMPacket.cpp:94-106 | a message is seven header bytes starting with the type and then the data unchanged |
| VimPacket.CreateUser | backend/VIM-MESSAGE/src/VIMPacket.cpp:108-116 | a user request is always seven bytes starting with the type |
| VimPacket.CreateConfirmation | backend/VIM-MESSAGE/src/VIMPacket.cpp:118-127 | a confirmation is always eleven bytes whose first seven are the user request for the same type, address and port |
| VimPacket.DecodeMessage | backend/VIM-MESSAGE/src/VIMPacket.cpp:144-150 | with the length check the message decoder needs, a packet decodes exactly when it holds the seven header bytes |
| VimPacket.DecodeUserCreation | backend/VIM-MESSAGE/src/VIMPacket.cpp:153-159 | a user request decodes exactly when it has at least seven bytes |
| VimPacket.DecodeUserConfirmation | backend/VIM-MESSAGE/src/VIMPacket.cpp:161-168 | a confirmation decodes exactly when it has at least eleven bytes |
| VimPacket.DecodePacket | backend/VIM-MESSAGE/src/VIMPacket.cpp:129-142 | an empty packet gives nothing; a packet decodes exactly when its type is 1 to 4 and it is long enough for that type, and the result keeps the type |
| VimPacket.DecodeMessageAsWritten | backend/VIM-MESSAGE/src/VIMPacket.cpp:144-150 | the message decoder as written reads past the end exactly when the packet is shorter than seven bytes, first at the index equal to its length |
| VimPacket.DecodePacketAsWritten | backend/VIM-MESSAGE/src/VIMPacket.cpp:129-150 | the packet decoder as written reads past the end exactly for a message-type packet shorter than seven bytes |
| VimPacket.ShortMessageReadsPast | backend/VIM-MESSAGE/src/VIMPacket.cpp:144-147 | the one-byte packet [1] is read past its end at index 1 as written, and rejected by the checked decoder |
| VimPacket.AsWrittenAgrees | backend/VIM-MESSAGE/src/VIMPacket.cpp:129-168 | wherever the decoder as written stays inside the packet it agrees with the checked decoder, and where it reads past, the checked decoder rejects |
| VimPacket.MessageRoundTrip | backend/VIM-MESSAGE/src/VIMPacket.cpp:94-106 | a created message of type 1 or 2 decodes to its type, user id, message id and data, empty data included |
| VimPacket.UserRoundTrip | backend/VIM-MESSAGE/src/VIMPacket.cpp:108-116 | a created user request decodes to its type, address and port |
| VimPacket.ConfirmationRoundTrip | backend/VIM-MESSAGE/src/VIMPacket.cpp:118-127 | a created confirmation decodes to its type, address, port and user id |
| VimPacket.DecodedReencodes | backend/VIM-MESSAGE/src/VIMPacket.cpp:129-168 | every packet the decoder accepts is the encoding of what it decoded: a message exactly, a user request or a confirmation in its first seven or eleven bytes |
| VimPacket.TrailingBytesIgnored | backend/VIM-MESSAGE/src/VIMPacket.cpp:153-168 | bytes after the seven of a user request or the eleven of a confirmation do not change what is decoded |
| VimPacket.Accepted | backend/VIM-MESSAGE/src/VIMPacket.cpp:129-168 | the packets the C++ decoder accepts by type byte and length |
| VimPacketApi.ToInt32 | frontend/sprite-colab/src/api/VIMPacketApi.ts:52 | the shift operand is the signed 32-bit value congruent to the number modulo 2^32, equal to it below 2^31 and 2^32 less from 2^31 to 2^32 |
| VimPacketApi.Truncated | frontend/sprite-colab/src/api/VIMPacketApi.ts:52 | the integer ToInt32 starts from is a finite value truncated toward zero, and 0 for NaN and the infinities |
| VimPacketApi.FromInt | frontend/sprite-colab/src/api/VIMPacketApi.ts:57 | an integer passed as a number is finite and truncates to itself |
| VimPacketApi.NumberToBytes | frontend/sprite-colab/src/api/VIMPacketApi.ts:49-55 | the encoding has exactly the requested number of bytes |
| VimPacketApi.NumberToBytesBigEndian | frontend/sprite-colab/src/api/VIMPacketApi.ts:49-55 | for an unsigned 32-bit value the bytes are its big-endian encoding |
| VimPacketApi.Split | frontend/sprite-colab/src/api/VIMPacketApi.ts:41 | splitting gives at least one piece, and a text without the separator is its only piece |
| VimPacketApi.SplitAfter | frontend/sprite-colab/src/api/VIMPacketApi.ts:41 | a piece without separators followed by the separator comes out as the first piece |
| VimPacketApi.ParseInt | frontend/sprite-colab/src/api/VIMPacketApi.ts:41 | parsing gives NaN exactly when no digit follows the leading white space and optional sign |
| VimPacketApi.IpToBytes | frontend/sprite-colab/src/api/VIMPacketApi.ts:40-47 | an address converts exactly when it has four dot-separated parts none of which parses outside 0 to 255, and then gives four bytes |
| VimPacketApi.Decimal | frontend/sprite-colab/src/api/VIMPacketApi.ts:112 | the printed form of a number is a non-empty run of digits |
| VimPacketApi.DecimalParses | frontend/sprite-colab/src/api/VIMPacketApi.ts:41 | a printed number parses back to itself |
| VimPacketApi.FormatIpParses | frontend/sprite-colab/src/api/VIMPacketApi.ts:112 | the address text a decoder builds from four bytes converts back to those four bytes |
| VimPacketApi.FormatIpSplits | frontend/sprite-colab/src/api/VIMPacketApi.ts:112 | the address text splits at its dots into the four printed bytes |
| VimPacketApi.CreateMsgPacket | frontend/sprite-colab/src/api/VIMPacketApi.ts:57-70 | a message is created exactly when each id is NaN or a finite value above 0 and at most its maximum (0xFFFFFFFF, 0xFFFF): the tests let NaN and fractions through and stop the infinities; it is then seven bytes longer than the data, with the type first and the data last |
| VimPacketApi.CreateUserPacket | frontend/sprite-colab/src/api/VIMPacketApi.ts:72-86 | a user request is created exactly when the port is NaN or a finite value in 0 to 0xFFFF and the address converts, and then is seven bytes: the type, then the address bytes |
| VimPacketApi.CreateMsgAgreesWithNative | frontend/sprite-colab/src/api/VIMPacketApi.ts:57-70 | within its ranges the client's message encoder writes the same bytes as the server's |
| VimPacketApi.CreateUserAgreesWithNative | frontend/sprite-colab/src/api/VIMPacketApi.ts:72-86 | given the printed form of four address bytes, the client's user-request encoder writes the same bytes as the server's |
| VimPacketApi.ReadId | frontend/sprite-colab/src/api/VIMPacketApi.ts:101 | read unsigned, a user id is the big-endian value in 0 to 2^32-1; read as the shifts compute it, it is that value taken to signed 32 bits |
| VimPacketApi.DecodeMsgPacket | frontend/sprite-colab/src/api/VIMPacketApi.ts:98-107 | a message decodes exactly when it is longer than seven bytes |
| VimPacketApi.DecodeUserCreation | frontend/sprite-colab/src/api/VIMPacketApi.ts:109-115 | a user request decodes exactly when it is seven bytes long |
| VimPacketApi.DecodeUserConfirmation | frontend/sprite-colab/src/api/VIMPacketApi.ts:117-124 | a confirmation decodes exactly when it is eleven bytes long |
| VimPacketApi.Decode | frontend/sprite-colab/src/api/VIMPacketApi.ts:88-96 | a packet decodes exactly when its type is known and it has the length that type needs, and the result keeps the type |
| VimPacketApi.DecodePacketAsWritten | frontend/sprite-colab/src/api/VIMPacketApi.ts:88-124 | whatever decodes as written is non-empty with a type of 1 to 4 |
| VimPacketApi.DecodePacket | frontend/sprite-colab/src/api/VIMPacketApi.ts:88-124 | read unsigned, every decoded user id lies in 0 to 2^32-1 |
| VimPacketApi.ReadingsDiffer | frontend/sprite-colab/src/api/VIMPacketApi.ts:101 | the signed and unsigned readings accept the same packets and differ only in a user id with the top bit set, which the signed one gives 2^32 less |
| VimPacketApi.MsgLayout | frontend/sprite-colab/src/api/VIMPacketApi.ts:49-70 | a created message holds its type at 0, the user id truncated toward zero (0 for NaN) big-endian at 1 to 4, the message id likewise at 5 to 6, and then the data |
| VimPacketApi.MsgRoundTrip | frontend/sprite-colab/src/api/VIMPacketApi.ts:57-107 | read unsigned, a created non-empty message decodes to its type, data and ids truncated toward zero (NaN as 0), for every id the encoder accepts |
| VimPacketApi.IntegralIdsRoundTrip | frontend/sprite-colab/src/api/VIMPacketApi.ts:57-107 | read unsigned, integral ids in range come back unchanged |
| VimPacketApi.NonIntegralIdsAccepted | frontend/sprite-colab/src/api/VIMPacketApi.ts:58-63 | a user id of 0.5 and a message id of NaN pass the tests and both come back as 0 |
| VimPacketApi.MsgRoundTripAsWritten | frontend/sprite-colab/src/api/VIMPacketApi.ts:57-107 | as written, a created non-empty message round-trips for user ids below 2^31 |
| VimPacketApi.HighUserIdTurnsNegative | frontend/sprite-colab/src/api/VIMPacketApi.ts:58-101 | user id 0x80000000, accepted by the encoder, comes back as -2^31 from the decoder as written |
| VimPacketApi.EmptyMessageRejected | frontend/sprite-colab/src/api/VIMPacketApi.ts:98-99 | a message with no data is created but never decoded here, while the server's decoder accepts it |
| VimPacketApi.UserRoundTrip | frontend/sprite-colab/src/api/VIMPacketApi.ts:72-115 | a created user request decodes to its type and its port truncated toward zero (NaN as 0), with an address text that converts to the same four bytes |
| VimPacketApi.StricterThanNative | frontend/sprite-colab/src/api/VIMPacketApi.ts:88-124 | every packet the client decodes is decoded by the server's decoder too |
| VimPacketApi.PassesIdTest | frontend/sprite-colab/src/api/VIMPacketApi.ts:58-59 | the ids the two range tests let through: NaN, or a finite number in (0, max]; `VimPacketApi.CreateMsgPacket` succeeds exactly for these |
| VimPacketApi.PassesPortTest | frontend/sprite-colab/src/api/VIMPacketApi.ts:73 | the ports the range test lets through: NaN, or a finite number in [0, 65535]; `VimPacketApi.CreateUserPacket` succeeds exactly for these |
| VimPacketApi.TrimLeading | frontend/sprite-colab/src/api/VIMPacketApi.ts:41 | `parseInt`'s skip of leading white space: a suffix of the text that starts with no space |
| VimPacketApi.DigitRun | frontend/sprite-colab/src/api/VIMPacketApi.ts:41 | the length of the leading run of decimal digits `parseInt` reads |
| VimPacketApi.SignDropped | frontend/sprite-colab/src/api/VIMPacketApi.ts:41 | the text after an optional '+' or '-' sign |
| VimPacketApi.OutOfByte | frontend/sprite-colab/src/api/VIMPacketApi.ts:42 | the range test that rejects a part below 0 or above 255, false for NaN; of four parts, `VimPacketApi.IpToBytes` fails exactly when some part meets it |
| VimPacketApi.StoredByte | frontend/sprite-colab/src/api/VIMPacketApi.ts:46 | what a `Uint8Array` stores for an accepted part: the value itself, 0 for NaN |
| VimPacketApi.FormatIp | frontend/sprite-colab/src/api/VIMPacketApi.ts:112 | the dotted text of four bytes; `ipToBytes` reads it back (stated by `VimPacketApi.FormatIpParses` and `VimPacketApi.FormatIpSplits`) |
| VimPacketApi.Accepted | frontend/sprite-colab/src/api/VIMPacketApi.ts:88-124 | the packets the decoder accepts by kind and length (`VimPacketApi.Decode` succeeds exactly on these) |
| VimPacketApi.ParseDigits | frontend/sprite-colab/src/api/VIMPacketApi.ts:41 | `parseInt` of a non-empty digit string is the number it spells |
| WebSocketFrame.FinOpcodeByte | backend/WEBSOCKET/src/WebSocketFrame.cpp:19-25 | with an opcode below 16 the first byte holds FIN, RSV1, RSV2, RSV3 in its top four bits and the opcode in the low four |
| WebSocketFrame.FlagsOr | backend/WEBSOCKET/src/WebSocketFrame.cpp:20-24 | or-ing the flag nibble with an opcode stays a byte, and is plain addition when the opcode fits in four bits |
| WebSocketFrame.AccessorsAreMasks | backend/WEBSOCKET/include/WebSocketFrame.hpp:10-26 | the flag, opcode and length-code accessors are exactly the bit tests and masks of the header structs |
| WebSocketFrame.HeaderFields | backend/WEBSOCKET/include/WebSocketFrame.hpp:10-18 | the accessors read back every flag and the opcode the constructor packed |
| WebSocketFrame.HeaderByteRepacks | backend/WEBSOCKET/include/WebSocketFrame.hpp:10-18 | every first byte is the packing of what its accessors read |
| WebSocketFrame.MaskLengthByte | backend/WEBSOCKET/src/WebSocketFrame.cpp:28-37 | the second byte is the MASK bit on top of the 7-bit length code |
| WebSocketFrame.MaskLengthFields | backend/WEBSOCKET/include/WebSocketFrame.hpp:20-26 | the MASK and length-code accessors read back what was packed |
| WebSocketFrame.MaskLengthRepacks | backend/WEBSOCKET/include/WebSocketFrame.hpp:20-26 | every second byte is the packing of its MASK bit and length code |
| WebSocketFrame.LengthCode | backend/WEBSOCKET/src/WebSocketFrame.cpp:31-34 | the length code is the length itself up to 125, 126 exactly for lengths 126 to 65535, and 127 beyond |
| WebSocketFrame.NewFrame | backend/WEBSOCKET/src/WebSocketFrame.cpp:4-38 | a new frame keeps the length, key and payload and packs the MASK bit and the length code for its length |
| WebSocketFrame.NewFrameCanonical | backend/WEBSOCKET/src/WebSocketFrame.cpp:4-38 | a frame built with a known opcode, its payload's length and a MASK bit matching its key is in the form the decoder produces |
| WebSocketFrame.Mask | backend/WEBSOCKET/src/WebSocketFrame.cpp:76-84 | masking keeps the length of the data |
| WebSocketFrame.MaskTwice | backend/WEBSOCKET/src/WebSocketFrame.cpp:158-167 | masking twice with the same key gives the data back, so the decoder undoes the encoder |
| WebSocketFrame.ExtendedLength | backend/WEBSOCKET/src/WebSocketFrame.cpp:66-74 | the extended length takes 2 bytes for code 126, 8 for 127 and none otherwise |
| WebSocketFrame.Body | backend/WEBSOCKET/src/WebSocketFrame.cpp:76-86 | after the length come four key bytes when there is a key, then as many bytes as the payload |
| WebSocketFrame.Encode | backend/WEBSOCKET/src/WebSocketFrame.cpp:61-89 | an encoded frame starts with the two header bytes and has the size reserved for its length code, key and payload |
| WebSocketFrame.RemoveMask | backend/WEBSOCKET/src/WebSocketFrame.cpp:56-59 | removing the mask clears the key and the MASK bit, keeps the length code and every other field, and keeps a decoded frame in decoded form |
| WebSocketFrame.ParseHeader | backend/WEBSOCKET/src/WebSocketFrame.cpp:105-150 | a header is read exactly when there are two bytes, a known opcode and room for the extended length and key; the payload starts right after them and the key is zero without the MASK bit |
| WebSocketFrame.Payload | backend/WEBSOCKET/src/WebSocketFrame.cpp:156-167 | the payload taken has the announced length |
| WebSocketFrame.Assemble | backend/WEBSOCKET/src/WebSocketFrame.cpp:169-179 | the frame built from what was read keeps the first byte, the MASK bit, the length, key and payload, and is in decoded form when the opcode is known |
| WebSocketFrame.Decode | backend/WEBSOCKET/src/WebSocketFrame.cpp:105-180 | fewer than two bytes or an unknown opcode give nothing; a decoded frame is in decoded form with the input's first byte and MASK bit |
| WebSocketFrame.HeaderExtends | backend/WEBSOCKET/src/WebSocketFrame.cpp:105-150 | bytes appended after a readable header do not change it |
| WebSocketFrame.HeaderOfPrefix | backend/WEBSOCKET/src/WebSocketFrame.cpp:105-150 | the header depends only on the bytes it covers |
| WebSocketFrame.HeaderTruncated | backend/WEBSOCKET/src/WebSocketFrame.cpp:120-145 | a prefix shorter than the header has no header |
| WebSocketFrame.TrailingIgnored | backend/WEBSOCKET/src/WebSocketFrame.cpp:152-156 | bytes after the announced end of a frame do not change what is decoded |
| WebSocketFrame.TruncatedRejected | backend/WEBSOCKET/src/WebSocketFrame.cpp:105-155 | every input cut short of the announced end is rejected |
| WebSocketFrame.ExtendedLengthReads | backend/WEBSOCKET/src/WebSocketFrame.cpp:66-74 | the extended length written for code 126 or 127 reads back as the stored length, and a short code is the length itself |
| WebSocketFrame.HeaderRoundTrip | backend/WEBSOCKET/src/WebSocketFrame.cpp:61-150 | the header of an encoded frame reads back its two bytes, length and key, with the payload starting after them |
| WebSocketFrame.PayloadRoundTrip | backend/WEBSOCKET/src/WebSocketFrame.cpp:76-167 | the payload of an encoded frame reads back unmasked |
| WebSocketFrame.RoundTrip | backend/WEBSOCKET/src/WebSocketFrame.cpp:61-180 | decoding an encoded frame gives it back whatever follows it, and the frame ends exactly where its encoding does |
| WebSocketFrame.EncodedTruncated | backend/WEBSOCKET/src/WebSocketFrame.cpp:61-180 | every proper prefix of an encoded frame is rejected |
| WebSocketFrame.RelayRoundTrip | backend/WEBSOCKET/src/WebSocketFrame.cpp:56-89 | a decoded frame with its mask removed re-encodes to bytes that decode to it, with the payload in the clear after the length |
| WebSocketFrame.DecodeAsWritten | backend/WEBSOCKET/src/WebSocketFrame.cpp:152-156 | as written, the size test lets the payload range run past the input only for an announced length within 14 of 2^64 |
| WebSocketFrame.HugeLengthWraps | backend/WEBSOCKET/src/WebSocketFrame.cpp:152-156 | a ten-byte BINARY frame announcing length 2^64-1 passes the size test as written and reads past the end, and the corrected decoder rejects it |
| WebSocketFrame.AllOnes | backend/WEBSOCKET/src/WebSocketFrame.cpp:133-136 | an all-0xFF big-endian field reads as the largest value of its width |
| WebSocketFrame.AsWrittenAgrees | backend/WEBSOCKET/src/WebSocketFrame.cpp:105-180 | everywhere else the decoder as written agrees with the corrected one, and below 2^64-14 it never reads past the end |
| WebSocketFrame.ValidOpcode | backend/WEBSOCKET/src/WebSocketFrame.cpp:91-103 | `validateOpcode`: the six known opcodes; frames with other opcodes are rejected (stated by `WebSocketFrame.ParseHeader`) |
| WebSocketFrame.Fin | backend/WEBSOCKET/include/WebSocketFrame.hpp:10-18 | the FIN bit of the first header byte (the struct's `&` test by `WebSocketFrame.AccessorsAreMasks`) |
| WebSocketFrame.Opcode | backend/WEBSOCKET/include/WebSocketFrame.hpp:10-18 | the low four bits of the first header byte; repacking with the flags gives the byte back (stated by `WebSocketFrame.HeaderByteRepacks`) |
| WebSocketFrame.MaskBit | backend/WEBSOCKET/include/WebSocketFrame.hpp:20-26 | the MASK bit of the second header byte (stated by `WebSocketFrame.MaskLengthFields`) |
| WebSocketFrame.PayloadCode | backend/WEBSOCKET/include/WebSocketFrame.hpp:20-26 | the seven-bit length code of the second header byte (stated by `WebSocketFrame.MaskLengthRepacks`) |
| WebSocketFrame.ExtendedSize | backend/WEBSOCKET/src/WebSocketFrame.cpp:120-138 | the extended length bytes a code announces: 2 for 126, 8 for 127, none otherwise (read by `WebSocketFrame.ExtendedLengthReads`) |
| WebSocketFrame.HeaderSize | backend/WEBSOCKET/src/WebSocketFrame.cpp:105-150 | header bytes before the payload: two, the extended length and a four-byte key when masked (stated by `WebSocketFrame.ParseHeader`) |
| WebSocketFrame.FrameEnd | backend/WEBSOCKET/src/WebSocketFrame.cpp:152 | the bytes a frame occupies as its header announces; an encoded frame is exactly that long (stated by `WebSocketFrame.RoundTrip`) |
| WebSocketFrame.Canonical | backend/WEBSOCKET/src/WebSocketFrame.cpp:4-38 | frames as the constructor builds them: a known opcode and the shortest length code (stated by `WebSocketFrame.NewFrameCanonical`) |
| WebSocketFrame.MaskAgrees | backend/WEBSOCKET/src/WebSocketFrame.cpp:28-37 | the MASK bit is set exactly when a key is present (stated by `WebSocketFrame.NewFrameCanonical`) |
| WebSocketFrame.HeaderDigits | backend/WEBSOCKET/include/WebSocketFrame.hpp:10-18 | the bit-field struct's members are the binary digits of the first header byte, the opcode its low four bits |
| Text.TrimLeft | backend/WEBSOCKET/src/HttpHandler.cpp:4-8 | dropping leading white space removes exactly a white-space prefix and leaves a text that is empty or starts with a non-space |
| Text.TrimLeftOf | backend/WEBSOCKET/src/HttpHandler.cpp:4-8 | white space in front of a text that starts with a non-space is removed exactly |
| Text.IndexOf | backend/WEBSOCKET/src/HttpHandler.cpp:30 | the search finds the first occurrence of the character, or the length when there is none |
| Text.IndexAfter | backend/WEBSOCKET/src/HttpHandler.cpp:30 | in a text where the character first appears after a prefix without it, the search finds that position |
| HttpHandler.TrimRight | backend/WEBSOCKET/src/HttpHandler.cpp:10-14 | dropping trailing white space removes exactly a white-space suffix and leaves a text that is empty or ends with a non-space |
| HttpHandler.Trim | backend/WEBSOCKET/src/HttpHandler.cpp:16-18 | a trimmed text neither starts nor ends with white space |
| HttpHandler.TrimRightOf | backend/WEBSOCKET/src/HttpHandler.cpp:10-14 | white space after a text that ends with a non-space is removed exactly |
| HttpHandler.TrimOf | backend/WEBSOCKET/src/HttpHandler.cpp:16-18 | trimming strips exactly the white space around a middle that neither starts nor ends with white space |
| HttpHandler.TrimIdempotent | backend/WEBSOCKET/src/HttpHandler.cpp:16-18 | trimming twice is trimming once |
| HttpHandler.Lines | backend/WEBSOCKET/src/HttpHandler.cpp:22-29 | reading lines gives none exactly from the empty text, and no line read contains a newline |
| HttpHandler.LinesRoundTrip | backend/WEBSOCKET/src/HttpHandler.cpp:22-29 | lines written each followed by a newline are read back as the same lines |
| HttpHandler.WordLength | backend/WEBSOCKET/src/HttpHandler.cpp:26-27 | a word is the longest run of non-space characters at the start |
| HttpHandler.TokensOfWord | backend/WEBSOCKET/src/HttpHandler.cpp:26-27 | a word followed by nothing or by white space is read as one token |
| HttpHandler.TokensSkipSpace | backend/WEBSOCKET/src/HttpHandler.cpp:26-27 | white space before a token is skipped |
| HttpHandler.WordRun | backend/WEBSOCKET/src/HttpHandler.cpp:26-27 | the word run of a word followed by white space or nothing is the whole word |
| HttpHandler.RequestLineTokens | backend/WEBSOCKET/src/HttpHandler.cpp:26-27 | a request line of three words separated by spaces and ended by a carriage return reads as exactly those three words |
| HttpHandler.ThreeWords | backend/WEBSOCKET/src/HttpHandler.cpp:26-27 | three space-separated words ending in a carriage return read as those three tokens |
| HttpHandler.WordThenSpace | backend/WEBSOCKET/src/HttpHandler.cpp:26-27 | a word and a space read as the word followed by the tokens of the rest |
| HttpHandler.Store | backend/WEBSOCKET/src/HttpHandler.cpp:36-38 | storing a header never changes the method, path or version |
| HttpHandler.ParseHeaders | backend/WEBSOCKET/src/HttpHandler.cpp:29-39 | the header loop never changes the method, path or version |
| HttpHandler.ParseRequest | backend/WEBSOCKET/src/HttpHandler.cpp:21-42 | parsing fails exactly when there is no first line or it has fewer than three words, and otherwise the method, path and version are its first three words |
| HttpHandler.Apply | backend/WEBSOCKET/src/HttpHandler.cpp:36-38 | storing header pairs in turn never changes the method, path or version |
| HttpHandler.ParseHeadersStores | backend/WEBSOCKET/src/HttpHandler.cpp:29-39 | the header loop stores exactly the key-value pairs its lines hold, in order |
| HttpHandler.LastValueWins | backend/WEBSOCKET/src/HttpHandler.cpp:38 | every key other than Sec-WebSocket-Key and Origin ends up in the map with its last value, or keeps its earlier entry if it never appears |
| HttpHandler.FirstFilled | backend/WEBSOCKET/src/HttpHandler.cpp:36-37 | the index found is the first pair with the key and a non-empty value, and none is found exactly when there is no such pair |
| HttpHandler.DedicatedFields | backend/WEBSOCKET/src/HttpHandler.cpp:36-38 | Sec-WebSocket-Key and Origin each take the first non-empty value for their key (an already filled field is kept), and later occurrences go to the map where the last one wins |
| HttpHandler.SlotStep | backend/WEBSOCKET/src/HttpHandler.cpp:36-38 | the outcome for a dedicated field after the remaining pairs carries back over one stored pair |
| HttpHandler.GenerateResponse | backend/WEBSOCKET/src/HttpHandler.cpp:66-85 | the response is empty exactly when the accept key could not be computed |
| HttpHandler.HeaderLines | backend/WEBSOCKET/src/HttpHandler.cpp:79-82 | one header line per pair, each written as the key, a colon and space, the value and a carriage return |
| HttpHandler.HeaderLineReads | backend/WEBSOCKET/src/HttpHandler.cpp:29-35 | a written header line is not a terminator, has a colon, and splits and trims back into its key and value |
| HttpHandler.HeaderPairsCons | backend/WEBSOCKET/src/HttpHandler.cpp:29-35 | a plain header line is read as its own pair in front of what follows |
| HttpHandler.HeaderLinesRead | backend/WEBSOCKET/src/HttpHandler.cpp:29-39 | header lines written from plain pairs and ended by a blank line read back as those pairs |
| HttpHandler.RequestRoundTrip | backend/WEBSOCKET/src/HttpHandler.cpp:21-42 | a request written as a request line and plain header lines parses to its three words with the pairs stored in order |
| HttpHandler.ResponseReadsBack | backend/WEBSOCKET/src/HttpHandler.cpp:66-85 | the response has five lines: the status line reads as the version, 101, Switching, Protocols, and the headers read back as Connection, Upgrade and Sec-WebSocket-Accept with their values |
| HttpHandler.ResponsePairsPlain | backend/WEBSOCKET/src/HttpHandler.cpp:70-82 | the three response header pairs survive being written and read back |
| HttpHandler.ResponseLinesOneLine | backend/WEBSOCKET/src/HttpHandler.cpp:78-83 | no response line contains a newline |
| HttpHandler.NoNewlineIn | backend/WEBSOCKET/src/HttpHandler.cpp:78-83 | joining two texts without newlines gives a text without newlines |
| HttpHandler.PlainLiteral | backend/WEBSOCKET/src/HttpHandler.cpp:57-59 | the literal header names and values of the handshake survive being written and read back |
| HttpHandler.StatusLineTokens | backend/WEBSOCKET/src/HttpHandler.cpp:78 | the status line reads as the version, 101, Switching and Protocols |
| HttpHandler.HandshakeStored | backend/WEBSOCKET/src/HttpHandler.cpp:29-39 | a browser-style handshake stores the key in its field, Upgrade, Sec-WebSocket-Version and Connection in the map with the values sent |
| HttpHandler.PlainHandshake | backend/WEBSOCKET/src/HttpHandler.cpp:29-39 | the pairs of a browser-style handshake survive being written and read back |
| HttpHandler.SampleRequestValidates | backend/WEBSOCKET/src/HttpHandler.cpp:52-64 | a GET for HTTP/1.1 with Upgrade websocket, Connection Upgrade, version 13 and a 24-character key validates |
| HttpHandler.ConnectionListRejected | backend/WEBSOCKET/src/HttpHandler.cpp:58 | a Connection header listing keep-alive before Upgrade fails the exact match, so the handshake is refused |
| HttpHandler.Tokens | backend/WEBSOCKET/src/HttpHandler.cpp:26-27 | the words repeated `>>` reads; a single word reads as itself (stated by `HttpHandler.TokensOfWord` and `HttpHandler.RequestLineTokens`) |
| HttpHandler.HeaderStep | backend/WEBSOCKET/src/HttpHandler.cpp:30-38 | one header line: split at the first ':', both sides trimmed, a line without ':' ignored (stated by `HttpHandler.HeaderLineReads`) |
| HttpHandler.HeaderPairs | backend/WEBSOCKET/src/HttpHandler.cpp:29-35 | the (key, value) pairs the header loop reads, in order (stated by `HttpHandler.HeaderPairsCons` and `HttpHandler.HeaderLinesRead`) |
| HttpHandler.HeaderIs | backend/WEBSOCKET/src/HttpHandler.cpp:44-50 | `validateHeader`: the header is present with exactly the expected value |
| HttpHandler.ValidateRequest | backend/WEBSOCKET/src/HttpHandler.cpp:52-64 | `validateRequest`; a browser's handshake passes and a `Connection` list is rejected (stated by `HttpHandler.SampleRequestValidates` and `HttpHandler.ConnectionListRejected`) |
| HttpHandler.ResponseLines | backend/WEBSOCKET/src/HttpHandler.cpp:78-83 | the lines `generateResponse` writes; each is one line (stated by `HttpHandler.ResponseLinesOneLine`) and they read back (stated by `HttpHandler.ResponseReadsBack`) |
| HttpHandler.Message | backend/WEBSOCKET/src/HttpHandler.cpp:21-42 | a start line, header lines and the blank line as a client writes them; `parseRequest` reads it back (stated by `HttpHandler.RequestRoundTrip`) |
| SqlParser.Command | backend/RELATIONAL-DATABASE/src/Parser.cpp:5-11 | a keyword found names its command exactly |
| SqlParser.CommandNames | backend/RELATIONAL-DATABASE/src/Parser.cpp:5-11 | the command map is one-to-one: a word finds a command exactly when it is that command's keyword |
| SqlParser.TypeOf | backend/RELATIONAL-DATABASE/src/Parser.cpp:13-20 | a type name found names its type exactly |
| SqlParser.TypeNames | backend/RELATIONAL-DATABASE/src/Parser.cpp:13-20 | the type map is one-to-one and case-sensitive: a word finds a type exactly when it is that type's name |
| SqlParser.FindChar | backend/RELATIONAL-DATABASE/src/Parser.cpp:64 | a character search from a position finds an occurrence of the character at or after it |
| SqlParser.FindCharFirst | backend/RELATIONAL-DATABASE/src/Parser.cpp:64 | no occurrence of the character lies between the start and the one found, nor anywhere after the start when none is found |
| SqlParser.FindCharIs | backend/RELATIONAL-DATABASE/src/Parser.cpp:64 | the search finds exactly the first occurrence at or after the start |
| SqlParser.FindFrom | backend/RELATIONAL-DATABASE/src/Parser.cpp:57 | a text search from a position finds an occurrence of the pattern at or after it |
| SqlParser.FindFromFirst | backend/RELATIONAL-DATABASE/src/Parser.cpp:57 | the pattern occurs nowhere between the start and the match found, nor anywhere after the start when none is found |
| SqlParser.FindFromIs | backend/RELATIONAL-DATABASE/src/Parser.cpp:57 | the search finds exactly the first occurrence at or after the start |
| SqlParser.Substr | backend/RELATIONAL-DATABASE/src/Parser.cpp:70 | a substring's count is cut at the end of the text |
| SqlParser.SkipSpace | backend/RELATIONAL-DATABASE/src/Parser.cpp:94 | skipping white space stays between the start and the end of the text |
| SqlParser.SkipWord | backend/RELATIONAL-DATABASE/src/Parser.cpp:99 | skipping a word stays between the start and the end of the text |
| SqlParser.ScanTail | backend/RELATIONAL-DATABASE/src/Parser.cpp:93-98 | a column text that has only white space left gives no more tokens when the loop bound is reached, and null otherwise |
| SqlParser.ScanLast | backend/RELATIONAL-DATABASE/src/Parser.cpp:93-107 | a last word followed by at most one white-space character (or none, when the bound is past the text) is the last token; more trailing white space makes the column null |
| SqlParser.ScanWords | backend/RELATIONAL-DATABASE/src/Parser.cpp:93-107 | the token loop reads a column written as white space, words with one space between them and a tail as exactly those words, under the same tail rule |
| SqlParser.ScanGivesWords | backend/RELATIONAL-DATABASE/src/Parser.cpp:93-107 | every token the loop reads is a non-empty run without white space |
| SqlParser.ReferenceFound | backend/RELATIONAL-DATABASE/src/Parser.cpp:161-179 | a foreign-key reference is read exactly when the token holds both '(' and ')' |
| SqlParser.ParseColumnOutcome | backend/RELATIONAL-DATABASE/src/Parser.cpp:109-181 | a column parses exactly when it has 2, 3 or 5 tokens, a known type, a known attribute as the third and References plus a readable reference as the fourth and fifth; then the name, type, each flag and the reference come from those tokens and nothing else is set |
| SqlParser.ReferenceInOrder | backend/RELATIONAL-DATABASE/src/Parser.cpp:161-179 | a reference written as table(column) reads back as that table and column |
| SqlParser.ReferenceReversed | backend/RELATIONAL-DATABASE/src/Parser.cpp:168-176 | when the first ')' comes before the first '(' the wrapped count makes the column everything after '(' |
| SqlParser.ColumnRoundTrip | backend/RELATIONAL-DATABASE/src/Parser.cpp:109-181 | the tokens of a column the grammar can express parse back to that column |
| SqlParser.Split | backend/RELATIONAL-DATABASE/src/Parser.cpp:79-88 | the column loop cuts at least one column text, each within the bound its token loop uses |
| SqlParser.ParsePieces | backend/RELATIONAL-DATABASE/src/Parser.cpp:79-186 | when every column text parses there is one column per text |
| SqlParser.Columns | backend/RELATIONAL-DATABASE/src/Parser.cpp:79-186 | a successful column loop reads at least one column |
| SqlParser.TableName | backend/RELATIONAL-DATABASE/src/Parser.cpp:70 | the name is the text from after "TABLE " up to one character before '(', and empty when '(' follows directly |
| SqlParser.TableNameAgrees | backend/RELATIONAL-DATABASE/src/Parser.cpp:70 | whenever a character stands between "TABLE " and '(', the name as written is the modelled name |
| SqlParser.NameSwallowsColumns | backend/RELATIONAL-DATABASE/src/Parser.cpp:70 | with '(' straight after "TABLE " the name as written runs to the end of the input, '(' included, where the corrected name is empty |
| SqlParser.ParseCreateTable | backend/RELATIONAL-DATABASE/src/Parser.cpp:54-189 | a parsed table has at least one column |
| SqlParser.TableWith | backend/RELATIONAL-DATABASE/src/Parser.cpp:74-188 | a table is returned exactly when its columns were read, with that name and those columns |
| SqlParser.NameBeforeParen | backend/RELATIONAL-DATABASE/src/Parser.cpp:64-70 | a parsed table's name never holds '(' |
| SqlParser.ParseOutcome | backend/RELATIONAL-DATABASE/src/Parser.cpp:24-50 | parsing gives null unless the first word of the trimmed input has six characters and is a keyword in some case; one of the four unfinished commands exactly when that keyword is not CREATE; and a table only as the table parser reads the trimmed input |
| SqlParser.ColumnLine | backend/RELATIONAL-DATABASE/src/Parser.cpp:88-181 | one column written after white space parses back to that column |
| SqlParser.SplitCommas | backend/RELATIONAL-DATABASE/src/Parser.cpp:79-88 | texts without separators written with ',' between them and ");" at the end are cut back into those texts |
| SqlParser.ColumnsRead | backend/RELATIONAL-DATABASE/src/Parser.cpp:79-186 | the column loop reads back columns written with ", " between them and ");" at the end |
| SqlParser.CreateTableRead | backend/RELATIONAL-DATABASE/src/Parser.cpp:54-189 | the table parser reads a rendered CREATE TABLE command back to its table |
| SqlParser.RenderRoundTrip | backend/RELATIONAL-DATABASE/src/Parser.cpp:24-189 | parsing a rendered command after any white space gives back its table |
| SqlParser.ParserTestCommand | backend/RELATIONAL-DATABASE/tests/ParserTest.cpp:5-8 | the command of the repository's parser test, after tabs and newlines, parses to its table |
| SqlParser.CreateTableAgree | backend/RELATIONAL-DATABASE/src/Parser.cpp:57 | the table parser never looks at the first seven characters |
| SqlParser.WordFirst | backend/RELATIONAL-DATABASE/src/Parser.cpp:26-27 | a six-letter word followed by a space or nothing is the command word and is not trimmed |
| PeerFile.NatToStringInjective | backend/src/Client.cpp:22-24 | two numbers with the same decimal text are equal |
| PeerFile.DecimalValue | backend/TCP/src/Client.cpp:22-24 | the value of a digit string, the inverse of `NatToString` (stated by `PeerFile.DecimalRoundTrip`) |
| PeerFile.DefaultFileName | backend/TCP/src/Client.cpp:22-24 | the name `<ip>_<port>.dat`; distinct endpoints get distinct names (stated by `PeerFile.DefaultFileNameInjective`) |
| PeerFile.FirstUnderscore | backend/TCP/src/Client.cpp:22-24 | the position of the first '_', which in a default name is the end of the ip digits (stated by `PeerFile.FirstUnderscoreAfterDigits`) |
| PeerFile.FirstUnderscoreAfterDigits | backend/TCP/src/Client.cpp:22-24 | in a name that starts with digits and '_', the first underscore ends the digits, so the ip part of a default name is recoverable |
| LegacyCommunicate.OnSynSends | backend/src/Connection.cpp:236 | a SYN is answered by exactly one SYN-ACK carrying the default sequence number and acknowledging the SYN's sequence plus one |
| LegacyCommunicate.OnSynFrame | backend/src/Connection.cpp:234-236 | a SYN adds at most its sender to the clients and leaves every other client unchanged |
| LegacyCommunicate.AckInRange | backend/src/Connection.cpp:259 | the test `lastAck < ack <= expectedSeq` of the FIN, FIN-ACK and ACK branches (used by `LegacyCommunicate.OnFin`, `LegacyCommunicate.OnFinAck` and `LegacyCommunicate.OnAck`) |
| LegacyCommunicate.Dispatch | backend/src/Connection.cpp:231-403 | the `switch` on the flag type: five branches, anything else dropped; it keeps the connection well formed (stated by `LegacyCommunicate.DispatchKeepsWellFormed`) |
| LegacyCommunicate.DispatchSyn | backend/src/Connection.cpp:232-238 | the SYN branch keeps every client under its own port and within the data |
| LegacyCommunicate.DispatchSynAck | backend/src/Connection.cpp:239-255 | the SYN-ACK branch keeps the connection well formed |
| LegacyCommunicate.DispatchFin | backend/src/Connection.cpp:256-298 | the FIN branch keeps the connection well formed |
| LegacyCommunicate.DispatchFinAck | backend/src/Connection.cpp:299-343 | the FIN-ACK branch keeps the connection well formed |
| SqlParser.CaseInsensitive | backend/RELATIONAL-DATABASE/src/Parser.cpp:27-31 | two spellings of a six-letter command word that differ only in case give the same outcome |
| SqlParser.CreateTableFrom | backend/RELATIONAL-DATABASE/src/Parser.cpp:57-62 | a table read after "TABLE " has at least one column |
| SqlParser.CommandName | backend/RELATIONAL-DATABASE/src/Parser.cpp:5-11 | the key of each command in `cmd_map`, looked up back by `Command` (stated by `SqlParser.CommandNames`) |
| SqlParser.TypeName | backend/RELATIONAL-DATABASE/src/Parser.cpp:13-20 | the key of each type in `type_map`, looked up back by `TypeOf` (stated by `SqlParser.TypeNames`) |
| SqlParser.Upper | backend/RELATIONAL-DATABASE/src/Parser.cpp:29 | `toupper` applied to every character; text without lower-case letters is unchanged (stated by `SqlParser.UpperKeeps`) |
| SqlParser.FirstWord | backend/RELATIONAL-DATABASE/src/Parser.cpp:27 | the text before the first ' ' (stated by `SqlParser.WordFirst`) |
| SqlParser.Parse | backend/RELATIONAL-DATABASE/src/Parser.cpp:24-50 | `parse`: null, an unfinished command or a table, by the trimmed first word (stated by `SqlParser.ParseOutcome` and `SqlParser.CaseInsensitive`) |
| SqlParser.Dispatch | backend/RELATIONAL-DATABASE/src/Parser.cpp:28-49 | the choice on the command word; "CREATE" goes to the table parser (stated by `SqlParser.DispatchCreate`) |
| SqlParser.Scan | backend/RELATIONAL-DATABASE/src/Parser.cpp:93-107 | the token loop over one column's text; the words it yields are stated by `SqlParser.ScanWords` and `SqlParser.ScanGivesWords` |
| SqlParser.Reference | backend/RELATIONAL-DATABASE/src/Parser.cpp:161-179 | the fifth token `table(column)` split at '(' and ')', with the wrapped count when ')' comes first (stated by `SqlParser.ReferenceInOrder` and `SqlParser.ReferenceReversed`) |
| SqlParser.WithAttribute | backend/RELATIONAL-DATABASE/src/Parser.cpp:135-152 | the third token sets its flag; an unknown word gives null |
| SqlParser.Slot | backend/RELATIONAL-DATABASE/src/Parser.cpp:117-181 | one round of the `switch (i)` on a token (its outcomes stated by `SqlParser.ParseColumnOutcome`) |
| SqlParser.ColumnLoop | backend/RELATIONAL-DATABASE/src/Parser.cpp:116-181 | the `for` loop over a column's tokens (stated by `SqlParser.ParseColumnOutcome`) |
| SqlParser.ParseColumn | backend/RELATIONAL-DATABASE/src/Parser.cpp:109-181 | the column of two, three or five tokens; written columns read back (stated by `SqlParser.ParseColumnOutcome` and `SqlParser.ColumnRoundTrip`) |
| SqlParser.ColumnOf | backend/RELATIONAL-DATABASE/src/Parser.cpp:88-181 | one column's text through the token loop and the grammar (stated by `SqlParser.ColumnLine`) |
| SqlParser.TableNameAsWritten | backend/RELATIONAL-DATABASE/src/Parser.cpp:70 | the table name with the `size_t` count as written; it agrees with `TableName` unless '(' follows "TABLE " directly, when it swallows the columns (stated by `SqlParser.TableNameAgrees` and `SqlParser.NameSwallowsColumns`) |
| SqlParser.TableAfterKeyword | backend/RELATIONAL-DATABASE/src/Parser.cpp:64-188 | the rest of `parseCreateTable` once "TABLE " is found |
| SqlParser.Render | backend/RELATIONAL-DATABASE/tests/ParserTest.cpp:5 | a `CREATE TABLE` command written as the test writes one; `parse` reads the table back (stated by `SqlParser.RenderRoundTrip`) |
| SqlParser.DispatchCreate | backend/RELATIONAL-DATABASE/src/Parser.cpp:28-49 | a command whose first word is "CREATE" yields the table `parseCreateTable` reads, or null when it reads none |
| SqlParser.CreateAfterSpace | backend/RELATIONAL-DATABASE/src/Parser.cpp:26-49 | leading white space before "CREATE " does not change the outcome |
| SqlParser.ScanStep | backend/RELATIONAL-DATABASE/src/Parser.cpp:93-107 | one token of the scan: the white space is skipped and the word read whole |
| SqlParser.TextsParse | backend/RELATIONAL-DATABASE/src/Parser.cpp:79-186 | column definitions joined by ", " are read back column for column |
| States.Code | backend/include/Connection.hpp:10-21 | every state's `uint8_t` code lies in 0..9 |
| States.StateName | backend/include/Connection.hpp:23-37 | the display name of each state; distinct states get distinct names (stated by `States.StateToStrInjective`) |
| Flags.TypeName | backend/include/Flags.hpp:60-70 | no message category is named "ERROR" |
| Flags.IsSet | backend/include/Flags.hpp:45-53 | `v & flag` is non-zero exactly when the flag's bit is set (stated by `Flags.IsSetBit`) |
| Flags.AllIsSetBits | backend/include/Flags.hpp:45-53 | each `v & flag` test of `decodeFlags` reads exactly that flag's bit of the byte |
| Flags.OrCreatesBits | backend/include/Flags.hpp:28-32 | `createFlag` of two flags sets exactly their two bits and fits in a byte |

## Left out

- Sockets and threads: `SocketHandler`, `WebSocketServer`, the event-loop thread, the atomics, the condition variable in `disconnect` and the `sleep` calls. A turn of the loop is one event. The only part of the socket layer kept is its receive filter, `Segments.Receive`.
- `ThreadSafeQueue`: its point is locking. Every queue is a plain sequence.
- Clock reads (`steady_clock::now()`, `time(NULL)`): they are `now` parameters of the events.
- Logging (`Logger.hpp`, `DEBUG_SRC`, `std::cout`, `console.*`): the messages are not modelled. The arguments of a log call are evaluated even when its level is filtered out. One case where that matters is modelled: the older generation's out-of-order branches read a moved-from segment in their debug line (see Findings).
- Peer file I/O: `openFile`, `writeFile` and `closeFile` become appends to the client's `received` sequence. Exceptions on file failure are not modelled.
- `convertIpAddress` (`inet_pton`): IP addresses are `uint32` values throughout.
- IEEE-754 doubles of the RTT estimator: they are `real`. ALPHA, BETA and the initial timeout of the TCP generation are declared in `backend/TCP/include/Client.hpp`, which is not part of this model, so they are parameters (`RttWeights`, `Config.initial`).
- The TCP generation's `Segment.cpp`: it is not part of this model. Its `(start, end)`-tagged segment is modelled as the wire segment plus the slice bounds it carries (`TcpConnection.Outgoing`). The wire codec is the one of `backend/src/Segment.cpp`.
- `computeAcceptKey` (SHA-1 and base64 through OpenSSL): the response takes the key's outcome as an `Option<string>` input.
- `TextEncoder`/`TextDecoder`: text in the TypeScript packets is modelled as its UTF-8 bytes.
- `parseInt(p, 10)` beyond its core: `VimPacketApi.ParseInt` skips leading white space, takes an optional sign and reads the longest run of decimal digits. The full Unicode set of white space that JavaScript skips is not modelled.
- `parseInsert`, `parseSelect`, `parseUpdate` and `parseDelete` fall off the end without a return, which is undefined behaviour. `SqlParser.Parse` reports those commands as `Unfinished`.
- Debug printers (`printSegment`, `printFrame`, `info()`, the `print()` methods of `CommandTypes.hpp`): they only produce output.
- The relay and the entry points (`VIMMessage.cpp`, `backend/main.cpp`, `VIM-MESSAGE/main.cpp`) and the front-end UI (React components, `WebSocketApi.ts`, `PacketHandler.ts`): they are plumbing around the modelled codecs.
- LegacyCommunicate.Step: the `Disconnect` event only raises `timeToClose`. The source's `disconnect` also clears `running`, which ends the loop after its current turn, and then blocks on `canCloseDown`. Neither is modelled.
- TcpCommunicate.Step: the `Disconnect` event only raises `timeToClose`. The blocking wait in `disconnect` is not modelled.
- VimPacketApi.CreateMsgPacket and VimPacketApi.CreateUserPacket: a JavaScript number is NaN, an infinity or a finite real. Negative zero and the rounding of doubles are not modelled.
- SqlParser.Dispatch and SqlParser.TableName: the C++ `std::string` holds bytes, but the model's text is a sequence of characters. The length test on the first word (backend/RELATIONAL-DATABASE/src/Parser.cpp:28) and the cut before '(' (backend/RELATIONAL-DATABASE/src/Parser.cpp:70) therefore count characters. They agree with the source only for single-byte text.
- HttpHandler.ValidateRequest: the 24-character test on `Sec-WebSocket-Key` (backend/WEBSOCKET/src/HttpHandler.cpp:61) counts characters, where the source counts bytes. A key with multi-byte UTF-8 characters is judged differently.
- Running the two ends of a connection against each other, such as a full handshake between two connections, is not modelled. Each side's handshake and teardown steps are stated per branch instead.

## Findings

| source | as written | input that shows it | evidently intended | confidence | as-written member | corrected member |
|---|---|---|---|---|---|---|
| backend/VIM-MESSAGE/src/VIMPacket.cpp:144-150 | `decodeMsgPacket` reads bytes 1 to 6 without checking the packet's length | the one-byte packet [1] | reject a message packet shorter than 7 bytes, as the two user decoders do for their own lengths | not executed | VimPacket.ShortMessageReadsPast | VimPacket.DecodePacket |
| frontend/sprite-colab/src/api/VIMPacketApi.ts:101 | the user id is rebuilt with `<<`, which yields a signed 32-bit number | a message packet with user id 0x80000000, accepted by `createMsgPacket`, decodes to a negative id | decode the user id unsigned, so that every id `createMsgPacket` accepts comes back | not executed | VimPacketApi.HighUserIdTurnsNegative | VimPacketApi.MsgRoundTrip |
| backend/WEBSOCKET/src/WebSocketFrame.cpp:152 | the size guard `pos + payloadLength` is computed in 64 bits and wraps | [0x82, 0x7F, 0xFF, 0xFF, 0xFF, 0xFF, 0xFF, 0xFF, 0xFF, 0xFF]: the declared length 2^64 - 1 plus the header passes the guard | reject every frame shorter than its header plus its declared payload | not executed | WebSocketFrame.HugeLengthWraps | WebSocketFrame.RoundTrip |
| backend/RELATIONAL-DATABASE/src/Parser.cpp:70 | the table name's length `tableNameEnd - tableNameStart - 1` is computed in `size_t` and wraps when '(' directly follows "TABLE " | "CREATE TABLE (id INT);" is given the name "(id INT);" | an empty name, or the text up to '(' | not executed | SqlParser.NameSwallowsColumns | SqlParser.NameBeforeParen |
| backend/src/Connection.cpp:265 | after `messageHandler(std::move(seg))` or `setItemMessageBuffer(..., std::move(seg))`, the debug line reads `seg->getSeqNum()` through the moved-from, null pointer; the FIN-ACK and ACK branches do the same at lines 310 and 356 | any FIN, FIN-ACK or ACK from a known client whose sequence number is above that client's expected ack | log a copy of the sequence number taken before the move, as the TCP generation does (backend/TCP/src/Connection.cpp:333), and go on with the segment buffered | not executed | LegacyCommunicate.OutOfOrderAsWrittenDereferencesNull | LegacyCommunicate.OutOfOrder |
