# A verified model of an RTMP protocol stack

This project models the path of an RTMP packet through the stack, in both directions, and proves what the stack
promises about it: the AMF0 codec, packet encoding with announced sizes, the chunk stream sender, the elastic receive
buffer, the chunk stream receiver, the negotiation of chunk size and acknowledgement window, the two goroutines with
their locks, and the rewriting of connect URLs.

## How it is built

- `Bytes`, `HpBuffer`, `Buffers`: wire integers, the growing byte window with its cursor, the socket.
- `Chunk`, `Prefix`: the receiver as a pure parser of a byte string, one chunk at a time.
- `Receiver`, `Sender`: the receive and send halves as objects, proved against the parser and the encoding.
- `RoundTrip`, `Boundary`, `Compression`, `Omission`: what comes back from the sender, from any conforming peer, and
  from peers that leave the extended timestamp out.
- `Reassembly`, `Interleaving`, `Mixing`, `Timestamps`: what holds of arbitrary input and of mixed chunk streams.
- `Amf0`, `Amf0Proofs`, `Amf0Wire`, `Amf0Codec`: values, reader, writer and size, and their literal bytes.
- `Packets`, `PacketProofs`, `PacketWire`, `PacketCodec`, `Outgoing`, `Pipeline`: packets, their literal form, and their
  way from one end to the other.
- `Jobs`, `Delivery`, `Segmentation`: runs of the receive job, what they queue, and when they depend on how the network
  cut the stream.
- `Agreement`, `Mismatch`: chunk-size agreement with the peer, and what happens without it.
- `Goroutines`: all interleavings of the goroutines, callers and Destroy.
- `Url`: the `...` rewriting.

The network is a schedule of pieces of 1 to 16384 bytes that ends in an error. Every schedule is allowed, so a result
that only depends on the concatenation of the pieces does not depend on how the network cut the stream. Writing
succeeds for some number of bytes and then fails. A float64 is its 64-bit pattern, a Go string its bytes. Widths that
matter are explicit: 24-bit and 32-bit fields truncate, times wrap at 2^64.

## What the model shows about the code

- A message stamped exactly 0xFFFFFF is lost: the sender adds the extended field above that value, the receiver expects
  it from that value on (`Boundary`).
- An acknowledgement that is due is never sent and never cleared. From then on chunk-size messages are ignored (`Jobs`),
  and from when on depends on how the network cut the stream (`Segmentation.CuttingMatters`).
- An extended delta is taken for the time itself: a delta from 0xFFFFFF on is only understood after time zero, and never
  when a type 3 chunk repeats it (`Compression`, `Timestamps`).
- Sending a connect or create-stream packet queues it and then panics, because the map of requests is never allocated
  (`Outgoing`).
- The outgoing chunk size changes when the packet is queued, not when it is sent. A chunk size queued behind a longer
  message cuts that message with a size the peer does not have yet (`Agreement`, `Mismatch`).
- A peer that leaves the extended timestamp out of type 3 chunks loses four bytes of payload wherever they look like the
  time, and always at time 0xFFFFFF (`Omission`).
- An empty AMF0 object has size 0 but is written as four bytes, so packets that hold one inside do not fit their
  announced size (`Amf0Proofs`, `PacketProofs`).
- A null or undefined property, or an empty name, ends an object for the reader, and a lone object end is written as
  three bytes but read as one (`Amf0Proofs`).
- Each job stores its result under its own lock only, so a success of one job can erase the other's error
  (`Goroutines`).
- Where comments and code disagree the model follows the code. The comments at `rtmp/protocol.go:604-608` ask for the
  extended timestamp from 0xFFFFFF on, the sender adds it only above; the comments at `rtmp/protocol.go:229-234` forbid it
  on type 3 chunks, the sender adds it there too.

## Model

| member | source | states |
|---|---|---|
| RoundTrip.ChunkingRoundTrip | rtmp/protocol.go:183-742 | for every sequence of messages within the sender's limits (chunk stream ids 2 to 63, 24-bit lengths, 32-bit times other than 0xFFFFFF) and every positive chunk size, receiving the sender's bytes returns the same ids, types, stream ids, times and payloads in order, and leaves no byte and no new partial message |
| RoundTrip.MessageBack | rtmp/protocol.go:183-269 | one such message is delivered whole, consumes exactly its own bytes whatever follows, and changes no other chunk stream |
| RoundTrip.NotYet | rtmp/protocol.go:183-269 | from a proper beginning of its bytes a message is not received |
| RoundTrip.ContinuationBack | rtmp/protocol.go:223-266 | from any point of a message, its remaining type 3 chunks complete it |
| RoundTrip.FirstChunkBack | rtmp/protocol.go:199-222 | the type 0 chunk of a message, read on an idle stream, leaves exactly the first piece of its payload |
| RoundTrip.NextChunkBack | rtmp/protocol.go:223-266 | a type 3 chunk appends exactly its piece and neither the header nor the time changes |
| RoundTrip.RunNextMessage | rtmp/protocol.go:479-511 | a run is its first complete message followed by the run on the rest |
| Boundary.ComesBackIff | rtmp/protocol.go:183-269 | a message whose announced length is its payload length comes back, on every idle stream and whatever follows, if and only if its id is 2 to 63, its length fits 24 bits, its time fits 32 bits and is not 0xFFFFFF |
| Boundary.LostAtBoundary | rtmp/protocol.go:616-618 | a message stamped 0xFFFFFF yields no message on its chunk stream when nothing follows, whatever its payload and the chunk size |
| Boundary.LostWhateverFollows | rtmp/protocol.go:616-618 | a message stamped 0xFFFFFF does not come back from its own bytes on an idle stream, whatever follows it and whatever the other streams hold |
| Boundary.WideTimeIsCut | rtmp/protocol.go:217-220 | a time of more than 32 bits comes back as its low 32 bits |
| Boundary.LongIsCut | rtmp/protocol.go:212-215 | a message of 2^24 bytes or more does not come back |
| Boundary.ForeignIdIsLost | rtmp/protocol.go:202 | for an id outside 2 to 63 there is a receiver state in which the message does not come back |
| Boundary.Starved | rtmp/protocol.go:706-742 | a partial message cannot complete on fewer bytes than its missing payload plus one header byte per chunk, whatever the bytes are |
| Boundary.TakesAtLeast | rtmp/protocol.go:706-742 | a partial message that is delivered took at least its missing payload plus the shortest basic header of its stream per chunk, whatever came in between |
| Boundary.LengthKept | rtmp/protocol.go:648-655 | for arbitrary further input, a partial message is delivered with the length it announced first |
| Compression.CompressionRoundTripIff | rtmp/protocol.go:513-704 | a sequence of messages from a peer that follows section 5.3.1 of the RTMP 1.0 specification, on ids 2 to 65599, in any header types that the previous headers allow, with and without extended timestamps, comes back in order if and only if no delta from 0xFFFFFF on is added to a time other than zero |
| Compression.CompressedBackIff | rtmp/protocol.go:544-704 | one such message comes back, whatever follows, if and only if its time field is absolute, its delta is below 0xFFFFFF or the stream's last time was zero |
| Compression.HeardBack | rtmp/protocol.go:615-688 | what arrives in every case: the same message, with an extended field taken for its time, from exactly its own bytes |
| Compression.ExtendedDeltaIsTakenForTime | rtmp/protocol.go:670-688 | a type 2 message 0x1000000 after time 1000 arrives stamped 0x1000000 |
| Compression.RepeatedExtensionFails | rtmp/protocol.go:663-688 | a message-starting type 3 chunk after an extended header arrives with the previous message's time |
| Compression.FreshRoundTripIff | rtmp/protocol.go:513-704 | the sequence result on a new connection |
| Compression.SenderConforms | rtmp/protocol.go:196-266 | the sender is such a peer that uses type 0 only |
| Compression.BasicBack | rtmp/protocol.go:513-542 | every chunk stream id from 2 to 65599 is read back from its shortest basic header |
| Omission.ToleratesOmission | rtmp/protocol.go:663-688 | a message with an extended time from any conforming peer, in any header type, whose type 3 chunks leave the field out where the receiver can tell, arrives as if they did not |
| Omission.BareHeaderIff | rtmp/protocol.go:670-688 | in the middle of any message with an extended time, an omitted field is recognised, and no byte taken, if and only if the time is above 0xFFFFFF, four bytes follow and they are not the time |
| Omission.OmissionIff | rtmp/protocol.go:663-688 | for a peer that always leaves the field out of type 3 chunks, a message arrives from its own bytes if and only if every omission can be told |
| Omission.UnnoticedChunk | rtmp/protocol.go:670-688 | what happens when an omission cannot be told: the receiver waits for four bytes more, takes the first four payload bytes for the time and the following ones for the piece |
| Omission.ByChance | rtmp/protocol.go:670-688 | a message from a peer that leaves the field out in one of two chunks, where it cannot be told, that arrives all the same |
| Prefix.StepPrefix | rtmp/protocol.go:479-742 | an outcome of the receiver other than waiting is not changed by bytes that arrive later, in spite of the four-byte look-ahead |
| Prefix.MessageHeaderPrefix | rtmp/protocol.go:544-704 | the same for the message header alone |
| RoundTrip.NextMessagePrefix | rtmp/protocol.go:479-511 | a message that was received is not changed by bytes that arrive later |
| Interleaving.AnyInterleaving | rtmp/protocol.go:479-511 | if each chunk stream's chunks are in order alone, any mixture of them is received completely: every stream delivers what it delivers alone, ends as it would alone, and the messages come in the order of their final chunks |
| Interleaving.TogetherIffEachAlone | rtmp/protocol.go:479-511 | a mixture of chunks is received without error exactly when each stream's part is |
| Interleaving.StepIsLocal | rtmp/protocol.go:488-503 | the outcome of a chunk depends only on its own chunk stream |
| Interleaving.FeedThenRun | rtmp/protocol.go:479-511 | receiving chunk by chunk is receiving the concatenated bytes |
| Mixing.InterleavedRoundTrip | rtmp/protocol.go:479-511 | messages on several chunk streams, each cut by a conforming peer or the sender, come back in the order of their final chunks however the chunks are mixed, and each stream's in its own order |
| Mixing.StreamIsGood | rtmp/protocol.go:479-511 | each chunk of a stream's messages is taken whole and completes exactly the message whose final chunk it is |
| Mixing.MixtureIsGood | rtmp/protocol.go:488-503 | if that holds of each stream alone it holds of any mixture |
| Mixing.ChunksMakeUp | rtmp/protocol.go:193-266 | those chunks are the peer's encoding, and the sender's for its own messages |
| Reassembly.HeaderAcceptedIff | rtmp/protocol.go:544-703 | a header whose bytes are there is accepted exactly when it starts a chunk stream with type 0, starts a message on a used one, or goes on with a message by type 3, type 2, or type 1 with the announced length; otherwise the error is that of a bad start or a changed size, and the message collected so far is kept |
| Reassembly.DeliveredIsGathered | rtmp/protocol.go:706-742 | for arbitrary input, every delivered message is the concatenation of its own stream's payload pieces since that stream's previous message, and has the announced length |
| Reassembly.CachedIsGathered | rtmp/protocol.go:728-741 | what a chunk stream has cached is exactly what it gathered since its last message |
| Reassembly.ChunkExtends | rtmp/protocol.go:706-742 | one chunk extends the filled part by the smaller of what is missing and the chunk size, and hands the message over exactly when it is full |
| Reassembly.OtherStreamsKept | rtmp/protocol.go:488-493 | a chunk changes no other chunk stream |
| Timestamps.TimesAccumulateIff | rtmp/protocol.go:598-668 | over any run of a stream's chunks, extended fields included, the time after every chunk is the last absolute time plus all deltas since if and only if every delta from 0xFFFFFF on was added to time zero; a message-starting type 3 chunk repeats the last time field and a continuing one adds nothing |
| Timestamps.MessageTime | rtmp/protocol.go:696-698 | then the time of every completed message is that time |
| Timestamps.StepTime | rtmp/protocol.go:598-688 | what any chunk does to the cached time, delta and extended flag, and that a completed message carries the cached time |
| Chunk.Step | rtmp/protocol.go:479-511 | a successful chunk takes at least one and at most the given bytes and keeps every cached message partial: allocated at its announced length, partly but not fully filled |
| Chunk.BasicHeader | rtmp/protocol.go:513-542 | one to three bytes, never an error, an id of at least 2 |
| Chunk.MessageHeader | rtmp/protocol.go:544-704 | takes the bytes of its type and at most four more, and leaves a message that is unallocated or partial at the announced length |
| Chunk.Payload | rtmp/protocol.go:706-742 | takes exactly the piece size and leaves no full or empty message behind |
| Chunk.Absorb | rtmp/protocol.go:715-741 | a piece within what is missing keeps the cached message partial |
| Receiving.Receiver.constructor | rtmp/messages.go:232-253 | no chunk streams, chunk size 128, no acknowledgement window |
| Receiving.Receiver.RecvInterlacedMessage | rtmp/protocol.go:479-511 | from any cursor position, the outcome, the new cache and the rest of the stream are those of the pure parser from the cursor on, however the socket cuts the bytes; a success puts the cursor back and removes exactly one chunk; exactly the pieces are read that the parser's look-ahead needs; after a chunk that must not start there the cursor is behind its basic header and the streams are as before |
| Receiving.Receiver.ReadBasicHeader | rtmp/protocol.go:513-542 | agrees with the parser from the cursor on, moves the cursor by the header's size and reads exactly the pieces that takes |
| Receiving.Receiver.ReadMessageHeader | rtmp/protocol.go:544-704 | agrees with the parser, error cases included, moves the cursor by the size it reports and reads exactly the pieces that its look-ahead needs |
| Receiving.Receiver.ReadFixedHeader | rtmp/protocol.go:591-668 | the fixed header fields, a changed size refused, or end of stream |
| Receiving.Receiver.ReadHeaderFields | rtmp/protocol.go:600-662 | the fields of header types 0 to 2, and the size error exactly when a cached message would change its length |
| Receiving.Receiver.ReadExtended | rtmp/protocol.go:670-688 | the extended field, or the cursor put back where it was |
| Receiving.Receiver.ReadMessagePayload | rtmp/protocol.go:706-742 | agrees with the parser and consumes headers and piece exactly |
| Receiving.Receiver.TakePiece | rtmp/protocol.go:724-732 | returns the piece behind the headers and drops both from the stream |
| Receiving.Receiver.StorePiece | rtmp/protocol.go:719-741 | fills the payload buffer at the right place and hands over a full message |
| Receiving.Receiver.ReadChunkBody | rtmp/protocol.go:495-503 | header and payload of one chunk, as the parser has them |
| Receiving.Receiver.ReceiveOn | rtmp/protocol.go:488-508 | the rest of a chunk on its cached or new stream, stored back only on success |
| Receiving.Receiver.CachedStream | rtmp/protocol.go:488-493 | the cached chunk stream, or a new one put into the cache |
| Receiving.Receiver.OnRecvMessage | rtmp/protocol.go:443-472 | a due acknowledgement changes nothing; otherwise chunk size and window follow the message, and a bad one is an error that changes nothing |
| Receiving.Receiver.RecvJob | rtmp/protocol.go:161-182 | one job is one chunk followed by the effect of the message it completed, and reads exactly the pieces that takes; a failing job changes neither chunk size nor window |
| Receiving.Receiver.RecvLoop | rtmp/protocol.go:131-135 | the queue, the error that ended the loop, the chunk size and the window are those of the run of jobs on the stream from the cursor on, with the socket counts that the schedule of pieces determines |
| Receiving.ReceiveTwice | rtmp/protocol.go:131-182 | two receivers on two connections that deliver the same bytes in different pieces queue the same messages, stop for the same reason and have the same chunk size, if the stream has no sensitive job |
| Chunk.WantOfChunk | rtmp/protocol.go:591-595 | a chunk that was read had all bytes the receiver looked at, and these are the chunk's own unless a look for an extended timestamp went past its end |
| Segmentation.SegmentationIndependence | rtmp/protocol.go:443-472 | two runs over the same bytes, with the counts of any two schedules of pieces, both run to their end, agree if the stream has no sensitive job |
| Segmentation.SegmentationIff | rtmp/protocol.go:443-472 | all schedules that cut a stream into pieces of up to 16384 bytes lead to the same messages, state and status after every job if and only if no message that changes chunk size or window, or is malformed, arrives while the window is at least the least and below the greatest number of bytes that can have been read: what the receiver had to look at so far, and up to 16383 more |
| Segmentation.CuttingMatters | rtmp/protocol.go:445-460 | a 48-byte stream that leaves chunk size 256 when read in three pieces and 128 when read in one |
| Segmentation.ReadRange | rtmp/buffer.go:56-71 | how many bytes any schedule can have led to when a given number had to be there |
| Segmentation.Apart | rtmp/protocol.go:443-472 | two schedules whose runs part at the first sensitive job |
| Segmentation.MattersIff | rtmp/protocol.go:449-468 | which messages change the state or fail, read off type and payload |
| Jobs.ChunkSizeIsLastProcessed | rtmp/protocol.go:457-460 | over every run the chunk size stays in 128..65536 and is the one in the last queued chunk-size message that was not passed over |
| Jobs.DueIsForever | rtmp/protocol.go:47-53 | once an acknowledgement is due it stays due below 2^64 bytes: chunk size and window are frozen and every later message is passed over |
| Jobs.OnRecvMessage | rtmp/protocol.go:443-472 | a processed message keeps the chunk size in range and the chunk streams untouched |
| Jobs.RecvJob | rtmp/protocol.go:161-182 | a job keeps the state valid and takes at least one byte; what it queues is the subject of `Delivery` |
| Jobs.ChunkSizeDecoded | rtmp/messages.go:576-590 | a decoded chunk size is in range and is the first four payload bytes |
| Jobs.OnRecvMeans | rtmp/protocol.go:443-472 | in literal terms: when more than a window of bytes was read since the last acknowledgement nothing changes; otherwise type 1 sets the chunk size and type 5 a non-zero window to the first four bytes, an error comes back exactly for a malformed message of type 1, 4 or 5, and nothing else changes |
| Jobs.DecodesControl | rtmp/messages.go:535-590 | a message of type 1, 4 or 5 decodes to its packet, with the big-endian value of its first four bytes, unless it is malformed |
| Delivery.JobsDeliver | rtmp/protocol.go:161-182 | for every sequence of messages the sender can send, each cut with the chunk size the receiver has by then, the jobs leave no byte and queue exactly the messages with a payload, in order and unchanged, unless they stop; and they do not stop unless a control message is malformed |
| Delivery.OrdinaryMessagesDelivered | rtmp/protocol.go:161-182 | messages of types other than 1, 4 and 5: one job for each chunk, none stops, and exactly those with a payload are queued in order, whatever the socket counts |
| Delivery.MessageJobs | rtmp/protocol.go:161-182 | the jobs of one message, from any of its chunks on: nothing is queued before the last chunk, an empty message is dropped, and one with a payload is looked into and queued |
| Delivery.RunDelivers | rtmp/protocol.go:161-182 | the same from any point of a run, for what is added to the queue |
| Sending.HeaderWire | rtmp/protocol.go:204-213 | the eleven bytes of a type 0 header: big-endian timestamp (FF FF FF above that value) and length, the type, the stream id little-endian |
| Sending.ExtensionWire | rtmp/protocol.go:199-244 | the first byte of both chunk types, and the four-byte big-endian timestamp exactly above 0xFFFFFF, on type 3 too |
| Sending.Sender.constructor | rtmp/messages.go:241-243 | chunk size 128 and header buffers of 16 and 5 bytes |
| Sending.Sender.SendJob | rtmp/protocol.go:183-269 | writes exactly the encoding of the message, or, when the connection gives up, exactly the prefix it accepted, wherever the loop ends |
| Sending.Sender.SendRound | rtmp/protocol.go:193-266 | one round of the loop moves one chunk from what remains to what is out |
| Sending.Sender.SendChunk | rtmp/protocol.go:196-265 | writes the chunk at the given payload offset |
| Sending.Sender.BuildFmt0 | rtmp/protocol.go:199-222 | the type 0 header, which always fits its 16-byte buffer |
| Sending.Sender.WriteFullHeader | rtmp/protocol.go:204-215 | the eleven bytes of the type 0 message header |
| Sending.Sender.BuildFmt3 | rtmp/protocol.go:223-246 | the type 3 header, which always fits its 5-byte buffer |
| Sending.SendStep | rtmp/protocol.go:193-266 | what is out, the next chunk and what then remains make up the encoding |
| Sending.LoopEndsIff | rtmp/protocol.go:193-266 | the loop reaches the end of the payload after some number of rounds if and only if the chunk size is positive or the payload is empty |
| Sending.SameHeaderAgain | rtmp/protocol.go:199-222 | with chunk size 0 every round of a non-empty message stays at offset 0 and writes the first header again |
| Agreement.PeerReassembles | rtmp/protocol.go:378-441 | at every point of every run in which chunk sizes are only queued when that is harmless, the peer, applying chunk sizes on receipt, has received exactly the messages that are completely on the wire, in order, has the size they leave, and has left over exactly the part of the current message that is out |
| Agreement.StepKeeps | rtmp/protocol.go:388-392 | every such step keeps the invariant that relates backlog, outgoing size and the sizes the peer will have |
| Agreement.WriteKeeps | rtmp/protocol.go:254-265 | every chunk is cut as the peer expects it, chunk-size messages included |
| Agreement.QueueSizeKeeps | rtmp/protocol.go:378-392 | queueing a chunk size is safe when, for every message ahead of it, the new size and the one the peer will have are equal or both hold what is unsent |
| Mismatch.HarmlessIff | rtmp/protocol.go:388-392 | that condition holds if and only if, cut with the new size from then on, the unsent rest of every message ahead arrives whatever it holds |
| Mismatch.RestArrivesIff | rtmp/protocol.go:253-263 | from any chunk of a message on, the rest always arrives if and only if every piece has the length the peer's size gives it |
| Agreement.IdleIsHarmless | rtmp/protocol.go:388-392 | with nothing queued and nothing being sent every chunk size is harmless |
| Agreement.PeerGets | rtmp/protocol.go:457-460 | a peer that applies sizes as they come reassembles messages cut with the sizes it has |
| Agreement.PeerIsJob | rtmp/protocol.go:457-460 | a message that the receive job processes sets the size that the peer of this model uses |
| Mismatch.AllArriveIff | rtmp/protocol.go:253-263 | every message of a given length, cut chunk by chunk with sizes that may change in between, arrives at a peer if and only if every piece has the length the peer's size gives it |
| Mismatch.OneSizeAlike | rtmp/protocol.go:254-258 | with one size throughout the pieces agree if and only if the sizes are equal or the rest fits one chunk of both |
| Mismatch.SmallerPeerFails | rtmp/protocol.go:572-583 | at any chunk of a message, a peer that expects a shorter piece fails when the payload byte it takes for a header starts a message |
| Mismatch.LargerPeerErrs | rtmp/protocol.go:706-742 | at any chunk of a message, a peer that expects a longer piece takes the next header for payload and never delivers the message |
| Mismatch.FrontIsKept | rtmp/protocol.go:719-741 | for arbitrary further input, bytes collected so far stay the front of the message delivered on that stream |
| Agreement.UndisciplinedRun | rtmp/protocol.go:388-392 | a chunk size queued behind a message takes effect before that message is cut |
| Agreement.PeerIsLost | rtmp/protocol.go:572-577 | such a message, with an unlucky payload byte, makes the peer fail without delivering anything |
| HpBuffer.BytesList.constructor | rtmp/hp_buffer.go:34-39 | the list is the given bytes |
| HpBuffer.BytesList.Append | rtmp/hp_buffer.go:49-56 | the list is the old one followed by the new bytes |
| HpBuffer.BytesList.Remove | rtmp/hp_buffer.go:59-70 | drops from the front; nothing for a non-positive count, everything for a large one |
| HpBuffer.BytesList.GrowTo | rtmp/hp_buffer.go:74-87 | for a positive length the window gets exactly that length and keeps its front; otherwise nothing changes |
| HpBuffer.BytesList.Overwrite | rtmp/hp_buffer.go:147-155 | bytes written into the window leave the rest of it alone |
| HpBuffer.HPBuffer.constructor | rtmp/hp_buffer.go:96-100 | the given bytes, cursor at the start |
| HpBuffer.HPBuffer.Reset | rtmp/hp_buffer.go:107-109 | cursor at the start |
| HpBuffer.HPBuffer.Append | rtmp/hp_buffer.go:121-126 | contents extended, cursor kept |
| HpBuffer.HPBuffer.Skip | rtmp/hp_buffer.go:133-137 | moves the cursor either way, inside the contents or not |
| HpBuffer.HPBuffer.Consume | rtmp/hp_buffer.go:127-132 | drops any number of bytes and moves the cursor back as far; read bytes are dropped without moving off the next unread one |
| HpBuffer.HPBuffer.Write | rtmp/hp_buffer.go:147-155 | overwrites at the cursor and moves past |
| Buffers.Socket.Read | rtmp/socket.go:49-73 | the next piece, counted; an error exactly when none is left |
| Buffers.Socket.Write | rtmp/socket.go:75-106 | however many bytes each partial write takes, all bytes go out in order, or an error and exactly the prefix that was accepted |
| Buffers.Buffer.constructor | rtmp/buffer.go:47-51 | a stream over the given bytes |
| Buffers.Buffer.EnsureBufferBytes | rtmp/buffer.go:56-71 | buffered plus future bytes are unchanged, it succeeds exactly when enough of them remain, and it reads exactly the pieces it needs |
| Buffers.LeftOverTwice | rtmp/buffer.go:59-68 | asking twice reads as much as asking once for the further of the two |
| Buffers.Buffer.Consume | rtmp/buffer.go:73-75 | drops read bytes |
| Buffers.Buffer.Requires | rtmp/buffer.go:78-80 | whether that many bytes are unread |
| Buffers.Buffer.Empty | rtmp/buffer.go:83-85 | whether nothing is unread |
| Buffers.Buffer.Reset | rtmp/buffer.go:88-91 | cursor at the start |
| Buffers.Buffer.WrittenBytes | rtmp/buffer.go:97-99 | the bytes before the cursor |
| Buffers.Buffer.Skip | rtmp/buffer.go:105-110 | moves the cursor either way |
| Buffers.Buffer.Read | rtmp/buffer.go:114-122 | the next bytes |
| Buffers.Buffer.ReadByte | rtmp/buffer.go:125-133 | the next byte |
| Buffers.Buffer.ReadUInt24 | rtmp/buffer.go:136-145 | three bytes, big-endian |
| Buffers.Buffer.ReadUInt16 | rtmp/buffer.go:147-155 | two bytes, big-endian |
| Buffers.Buffer.ReadUInt32 | rtmp/buffer.go:158-166 | four bytes, big-endian |
| Buffers.Buffer.ReadFloat64 | rtmp/buffer.go:169-179 | eight bytes, big-endian bit pattern |
| Buffers.Buffer.ReadUInt32Le | rtmp/buffer.go:182-190 | four bytes, little-endian |
| Buffers.Buffer.Write | rtmp/buffer.go:192-198 | the given bytes, nothing else changed |
| Buffers.Buffer.WriteByte | rtmp/buffer.go:200-208 | one byte, nothing else changed |
| Buffers.Buffer.WriteUInt32 | rtmp/buffer.go:211-222 | low four bytes, big-endian |
| Buffers.Buffer.WriteUInt24 | rtmp/buffer.go:224-234 | low three bytes, big-endian |
| Buffers.Buffer.WriteUInt16 | rtmp/buffer.go:236-245 | low two bytes, big-endian |
| Buffers.Buffer.WriteUInt32Le | rtmp/buffer.go:247-258 | low four bytes, little-endian |
| Buffers.Buffer.WriteFloat64 | rtmp/buffer.go:260-277 | the bit pattern, big-endian |
| Bytes.FieldRoundTrips | rtmp/buffer.go:136-277 | every integer and float field is read back as written |
| Bytes.GetPutBE | rtmp/buffer.go:136-166 | a big-endian field of any width gives back every value that fits |
| Bytes.PutGetBE | rtmp/buffer.go:211-245 | writing a value that was read restores the bytes |
| Bytes.GetPutTruncates | rtmp/buffer.go:211-245 | a value that does not fit a field of up to four bytes is cut to its width |
| Amf0Proofs.SurvivesIff | rtmp/amf0.go:383-438 | a value survives writing and reading, whatever follows it, if and only if it is canonical (short strings, non-empty names, no null, undefined or object end inside, counts as `Set` keeps them) and is not a lone object end |
| Amf0Proofs.ValueBack | rtmp/amf0.go:383-438 | reading a canonical value's bytes returns it, properties in insertion order, and leaves exactly what follows |
| Amf0Proofs.DecoderFixpoint | rtmp/amf0.go:410-438 | whatever the reader accepted, from duplicate keys to missing object ends, is returned unchanged when written and read again |
| Amf0Proofs.ReadIsCanonical | rtmp/amf0.go:410-438 | the reader only returns canonical values |
| Amf0Proofs.ReadPropsIsCanonical | rtmp/amf0.go:162-185 | the property loop only builds canonical tables |
| Amf0Proofs.PropsBack | rtmp/amf0.go:83-96 | from any property on, the written properties rebuild the rest of the table in order |
| Amf0Proofs.ObjectBack | rtmp/amf0.go:150-202 | an object is read back as written |
| Amf0Proofs.ArrayBack | rtmp/amf0.go:243-310 | an array is read back as written, count included |
| Amf0Proofs.SizeIff | rtmp/amf0.go:360-382 | the computed size never exceeds the written size, and equals it if and only if no object or array inside is empty |
| Amf0Proofs.SizeFromIff | rtmp/amf0.go:73-82 | the same for the properties of a table |
| Amf0Proofs.ObjectEndIsLost | rtmp/amf0.go:730-745 | a lone object end does not come back |
| Amf0Wire.WireForm | rtmp/amf0.go:383-409 | every kind of value in literal bytes: number 00 and eight bytes, boolean 01 and 01 or 00, string 02 with a two-byte length, object 03 and array 08 with its count, both closed by 00 00 09, null 05, undefined 06, object end 00 00 09 |
| Amf0Wire.PropertyForm | rtmp/amf0.go:83-96 | properties are written in insertion order, each a two-byte length, the name and the value |
| Amf0Wire.ReadsNumber | rtmp/amf0.go:609-629 | 00 and eight big-endian bytes read as that number |
| Amf0Wire.ReadsBoolean | rtmp/amf0.go:683-708 | 01 and a byte read as true unless the byte is 00 |
| Amf0Wire.ReadsString | rtmp/amf0.go:506-520 | 02, a two-byte length and that many bytes read as that string |
| Amf0Wire.ReadsMarkers | rtmp/amf0.go:425-426 | 05, 06 and 09 read as null, undefined and object end, one byte each |
| Amf0Wire.ReadsObject | rtmp/amf0.go:150-186 | 03, canonical properties and 00 00 09 read as that object |
| Amf0Wire.ReadsArray | rtmp/amf0.go:243-287 | 08, a count, canonical properties and 00 00 09 read as that array; the count that was read survives only in an empty array |
| Amf0Wire.ReadsProperty | rtmp/amf0.go:162-185 | a name and a value set that property and reading goes on behind them |
| Amf0Wire.EndsObject | rtmp/amf0.go:162-185 | an empty name, a value without content and the end of the bytes each end the object |
| Amf0Wire.PutMeans | rtmp/amf0.go:97-108 | setting a property gives it the new value, keeps the place of a known name, appends a new one, and leaves the others alone |
| Amf0Wire.Refuses | rtmp/amf0.go:410-438 | every marker other than 00, 01, 02, 03, 05, 06, 08 and 09 is refused as invalid, and values that are cut short as undecodable |
| Amf0Wire.RefusesOtherKinds | rtmp/amf0.go:506-720 | the readers of one kind refuse every marker but their own |
| Amf0.PutKeepsListing | rtmp/amf0.go:97-108 | setting a property keeps the key list a duplicate-free listing of the map |
| Amf0.ReadAny | rtmp/amf0.go:410-438 | on every byte string reading ends, never goes past the end and takes at least one byte when it succeeds |
| Amf0.ReadProps | rtmp/amf0.go:162-185 | the property loop ends and never goes past the end |
| Amf0.ReadUtf8 | rtmp/amf0.go:553-585 | two length bytes and exactly that many bytes |
| Amf0Codec.UnSortedHashtable.constructor | rtmp/amf0.go:65-69 | an empty table |
| Amf0Codec.UnSortedHashtable.Set | rtmp/amf0.go:97-108 | a new key goes to the end, an old one keeps its place, nil is refused |
| Amf0Codec.AnySize | rtmp/amf0.go:360-382 | computes the size |
| Amf0Codec.TableSize | rtmp/amf0.go:73-82 | the sum over the map, in any order, is the sum along the key list |
| Amf0Codec.SizeOverRemove | rtmp/amf0.go:77-80 | taking one key out of the sum, wherever it is listed |
| Amf0Codec.Codec.ReadUtf8 | rtmp/amf0.go:553-585 | agrees with the reader, errors included, and the cursor never moves back |
| Amf0Codec.Codec.ReadString | rtmp/amf0.go:506-520 | agrees with the reader |
| Amf0Codec.Codec.ReadNumber | rtmp/amf0.go:609-629 | agrees with the reader |
| Amf0Codec.Codec.ReadBoolean | rtmp/amf0.go:683-708 | agrees with the reader; any non-zero byte is true |
| Amf0Codec.Codec.ReadProperties | rtmp/amf0.go:162-185 | the table filled in place is the reader's table |
| Amf0Codec.Codec.ReadObject | rtmp/amf0.go:150-186 | agrees with the reader |
| Amf0Codec.Codec.ReadEcmaArray | rtmp/amf0.go:243-286 | agrees with the reader |
| Amf0Codec.Codec.ReadAny | rtmp/amf0.go:410-438 | peeks, puts the byte back, and agrees with the reader |
| Amf0Codec.Codec.WriteUtf8 | rtmp/amf0.go:587-607 | written completely if it fits, else an encode error and exactly a beginning of it |
| Amf0Codec.Codec.WriteNumber | rtmp/amf0.go:631-647 | written completely if it fits, else an encode error and exactly a beginning of it |
| Amf0Codec.Codec.WriteString | rtmp/amf0.go:522-530 | written completely if it fits, else an encode error and exactly a beginning of it |
| Amf0Codec.Codec.WriteBoolean | rtmp/amf0.go:532-551 | written completely if it fits, else an encode error and exactly a beginning of it |
| Amf0Codec.Codec.WriteObjectEOF | rtmp/amf0.go:730-745 | three bytes if they fit, else an encode error and exactly a beginning of them |
| Amf0Codec.Codec.WriteProperties | rtmp/amf0.go:83-96 | all properties in insertion order if they fit, else an encode error and exactly a beginning of them |
| Amf0Codec.Codec.WriteObject | rtmp/amf0.go:187-202 | written completely if it fits, else an encode error and exactly a beginning of it |
| Amf0Codec.Codec.WriteEcmaArray | rtmp/amf0.go:288-310 | written completely if it fits, else an encode error and exactly a beginning of it |
| Amf0Codec.Codec.WriteAny | rtmp/amf0.go:383-409 | succeeds exactly when the whole value fits, and then puts exactly its bytes at the cursor; otherwise exactly a beginning of them |
| PacketProofs.ExactIff | rtmp/messages.go:431-1352 | the encoding is never shorter than the announced size, and has that size if and only if placeholders hold null or undefined and no always-written object is empty inside |
| PacketProofs.ConnectExact | rtmp/messages.go:431-520 | the same for the packets that leave out an empty object |
| PacketProofs.PlaceholderExact | rtmp/messages.go:661-995 | the same for the packets with one placeholder |
| PacketProofs.ObjectsExact | rtmp/messages.go:1125-1352 | the same for status, sample access and FMLE response packets |
| PacketProofs.PacketBack | rtmp/messages.go:398-1091 | decoding the encoding restores every field of the packets that `Decodable` describes |
| PacketProofs.PacketBackIff | rtmp/messages.go:398-1091 | a packet of a type with encoder and decoder comes back if and only if it has its command's name, strings below 65536 bytes, a canonical command object that is not a lone object end (for connect: transaction 1 and a non-empty object), a chunk size in range and no extra data outside a buffer-length event |
| PacketProofs.PlayBack | rtmp/messages.go:831-913 | play, with its optional trailing fields |
| PacketProofs.DispatchBack | rtmp/messages.go:295-371 | dispatch on message type and command name finds the packet's own decoder |
| PacketProofs.DispatchIff | rtmp/messages.go:295-371 | among all packets that can be encoded, the receiver's dispatch gives back exactly the decodable ones other than create-stream responses |
| PacketProofs.ControlBack | rtmp/messages.go:535-607 | control packets are restored |
| PacketWire.FieldOrder | rtmp/messages.go:437-1352 | reading any encoded AMF0 packet value by value returns, constructor by constructor, its fields in the order of the protocol and then nothing; connect and its response leave out empty objects |
| PacketWire.ReadAllBack | rtmp/amf0.go:410-438 | values written one after the other are read back one after the other |
| PacketWire.TypeAndStream | rtmp/messages.go:425-1332 | the message type and the preferred chunk stream of every packet, by number |
| PacketWire.ControlWire | rtmp/messages.go:553-1091 | the bytes of the control packets; extra data only for event type 3 |
| PacketWire.ControlRefused | rtmp/messages.go:535-1060 | control packets fail to decode exactly when they are too short, and a chunk size exactly when it is not in 128..65536, with their own errors |
| PacketWire.FMLEStartFields | rtmp/messages.go:1283-1307 | releaseStream, FCPublish and FCUnpublish with any id, readable command value and short string decode to exactly those four fields, by decoder and by dispatch, whatever follows |
| PacketWire.CloseStreamFields | rtmp/messages.go:1246-1263 | closeStream with any id and readable command value decodes to exactly those fields, by decoder and by dispatch |
| PacketWire.PlayDefaults | rtmp/messages.go:826-858 | play that ends after its stream name, start or duration gets start -2, duration -1 and reset true for what is missing |
| PacketWire.PlayReset | rtmp/messages.go:860-874 | the reset of play is a boolean or a number that is not zero; any other value is refused |
| PacketWire.PublishDefault | rtmp/messages.go:936-962 | publish has the type it carries, and "live" without one |
| PacketWire.ConnectFields | rtmp/messages.go:398-423 | connect decodes to its object exactly when its transaction id is 1 |
| PacketWire.OnlyTheirNames | rtmp/messages.go:699-1292 | the command decoders accept their own names only |
| PacketWire.OnlyTheirNamesToo | rtmp/messages.go:831-947 | the same for play and publish |
| PacketWire.ByName | rtmp/messages.go:300-356 | commands and data of types 15, 18 and 20 are decoded by the name they start with |
| PacketWire.Amf3SkipsOne | rtmp/messages.go:301-304 | a message of type 17 decodes as one of type 20 without its first byte |
| PacketWire.ResultsFail | rtmp/messages.go:315-330 | a result or error finds no request |
| PacketWire.DecodesToNothing | rtmp/messages.go:336-371 | other message types and command names decode to nothing |
| PacketCodec.EncodeMessage | rtmp/protocol.go:355-376 | succeeds exactly for the exact packets, and then the message is the packet's type and encoding without a byte over |
| PacketCodec.Encode | rtmp/messages.go:437-452 | succeeds exactly when the encoding fits, and then puts exactly it at the cursor |
| PacketCodec.WriteFields | rtmp/messages.go:888-913 | all fields in order if they fit together, else an encode error |
| PacketCodec.EncodeControl | rtmp/messages.go:601-635 | control packets |
| PacketCodec.EncodeUserControl | rtmp/messages.go:1074-1091 | six bytes, ten for a buffer length |
| PacketCodec.ConnectAppFrom | rtmp/messages.go:398-423 | as the decoder function, errors included |
| PacketCodec.CreateStreamFrom | rtmp/messages.go:699-715 | as the decoder function, errors included |
| PacketCodec.CreateStreamResFrom | rtmp/messages.go:759-778 | as the decoder function, errors included |
| PacketCodec.PlayFrom | rtmp/messages.go:831-875 | as the decoder function, with defaults for missing fields |
| PacketCodec.PublishFrom | rtmp/messages.go:939-963 | as the decoder function, with `live` as default type |
| PacketCodec.UserControlFrom | rtmp/messages.go:1042-1059 | as the decoder function, errors included |
| PacketCodec.SetChunkSizeFrom | rtmp/messages.go:576-590 | as the decoder function; sizes out of range are errors |
| PacketCodec.WindowAckSizeFrom | rtmp/messages.go:535-542 | as the decoder function, errors included |
| PacketCodec.CloseStreamFrom | rtmp/messages.go:1246-1263 | as the decoder function, errors included |
| PacketCodec.FMLEStartFrom | rtmp/messages.go:1283-1306 | as the decoder function, errors included |
| PacketCodec.DecodePacketFrom | rtmp/messages.go:295-371 | dispatches on type and, after reading the command name and going back, on name, as the decoder function does |
| Packets.DecodeSetChunkSize | rtmp/messages.go:576-590 | exactly payloads of at least four bytes whose first four give 128..65536 are decoded, to that size |
| Pipeline.PacketArrives | rtmp/protocol.go:355-396 | a packet of less than 2^24 bytes for which SendPacket returned without error is queued as one message that arrives with its type, chunk stream and payload, on its message stream, at time 0, whatever the chunk size and what follows, and is decoded to the same packet if and only if it is decodable and not a create-stream response |
| Pipeline.PacketsArrive | rtmp/protocol.go:378-441 | packets of less than 2^24 bytes sent one after another, chunk sizes the peer accepts among them, are all queued and arrive in order, each with its type, chunk stream and payload, at a peer that applies the sizes as they come, each decoded to itself under the same condition |
| Pipeline.LengthMattersIff | rtmp/protocol.go:355-376 | the message of a packet comes back if and only if the packet has less than 2^24 bytes; longer ones are queued all the same |
| Outgoing.Protocol.SendPacket | rtmp/protocol.go:378-396 | encodes, queues and takes note of a packet; the new state and how the call ended, panic included |
| Outgoing.Protocol.SendMessage | rtmp/protocol.go:398-423 | queues the message, with the message stream id only if one is given; a missing message and a closed queue are errors |
| Outgoing.Protocol.OnSendMessage | rtmp/protocol.go:425-441 | a chunk size takes effect at once; a request that is to be remembered in the nil map panics |
| Outgoing.Protocol.constructor | rtmp/messages.go:232-253 | open empty queue, chunk size 128, no map of requests |
| Outgoing.SendsIff | rtmp/protocol.go:378-441 | reads the outcomes off the specification of SendPacket, whose content is in `Outgoing.Protocol.SendPacket`, `PacketCodec.EncodeMessage` and `PacketProofs.ExactIff`: without error if and only if the queue is open, the announced size is exact and the packet is neither connect nor create stream; a panic exactly for exact ones of those two on an open queue |
| Outgoing.SentAllIff | rtmp/protocol.go:378-441 | a sequence of calls all return without error if and only if that holds of each packet, and then all messages are queued in order |
| Outgoing.WidePlaceholderIsRefused | rtmp/protocol.go:362-367 | a create-stream packet with a boolean placeholder is refused and nothing is queued |
| Outgoing.RequestsPanic | rtmp/protocol.go:431-439 | exact connect and create-stream packets are queued and the call then panics |
| Goroutines.EveryInterleavingIsSafe | rtmp/protocol.go:104-182 | in every interleaving a closed queue means the error is set, callers on closed and drained queues get that error, once Destroy has set one it never changes and no job is at work, when Destroy is done both queues are closed and its locks are free, and the receive job never sends on a closed queue |
| Goroutines.StepIsSafe | rtmp/protocol.go:141-182 | every atomic step keeps that |
| Goroutines.ForgottenIff | rtmp/protocol.go:145-160 | a set error can still be overwritten by a success if and only if a job that passed its test can still succeed |
| Goroutines.ForgottenErrorHappens | rtmp/protocol.go:145-160 | an interleaving from the start in which the receiver's error can be lost |
| Goroutines.FirstErrorStays | rtmp/protocol.go:104-160 | once an error is set and no job is at work, every execution ends with the same error, whether Destroy runs or not, and each goroutine takes at most four more steps, the fourth of which ends it |
| Goroutines.SettledRun | rtmp/protocol.go:131-160 | the same, counting the steps each goroutine has left |
| Goroutines.DestroyStores | rtmp/protocol.go:104-116 | from the moment Destroy holds both locks, every execution keeps an error that was set; if none was, the error is Destroyed from the step in which Destroy stores it |
| Goroutines.QueuesConserve | rtmp/protocol.go:161-190 | in every execution what the receive job queued is what callers took and what is left, what callers put in is what the send job took and what is left, and no queue exceeds 100 |
| Goroutines.SendBlocksIff | rtmp/messages.go:228-248 | a caller waits exactly for room in an open queue of 100, or for a message in an open empty one |
| Goroutines.RecvDelivers | rtmp/protocol.go:161-182 | a job with a message and room in the open queue does not end before the message is queued |
| Goroutines.SendFails | rtmp/protocol.go:151-160 | an error of the send job is stored |
| Url.RewriteTcUrl | rtmp/rtmp.go:122-133 | the replace-first loop ends and computes one left-to-right scan; no `...` is left |
| Url.RewriteIsIdempotent | rtmp/rtmp.go:122-133 | rewriting again changes nothing |
| Url.RewrittenIs | rtmp/rtmp.go:122-133 | pieces joined by `...` become, without a `?` anywhere, the first piece, `?`, and the others with `=` and `&` in turn between them; with one, all pieces with `&` and `=` in turn |
| Url.EverythingSplits | rtmp/rtmp.go:122-133 | every text is such pieces joined |
| Url.ReplaceIsScanStep | rtmp/rtmp.go:126-131 | replacing the first occurrence is one step of the scan |
| Url.ReplaceFirst | rtmp/rtmp.go:126-131 | two characters shorter when there was an occurrence, unchanged otherwise |
| Url.FirstDots | rtmp/rtmp.go:125-129 | the leftmost occurrence, or none |

## Left out

- Receiving.Receiver.RecvInterlacedMessage: says what the cursor and the chunk streams are after a chunk that must not start where it does, so that the next call is known to go on behind its basic header. After the other errors neither is stated: the source has then changed the chunk stream's header in part.
- Receiving.Receiver.RecvLoop: runs until the first error, as the loop does when no other job clears the error variable in between; it may be called again from wherever the cursor is, but the chunk cache after the error is only known as above.
- Sending.Sender.SendJob: requires a positive chunk size or an empty payload; otherwise the loop does not end, which is `Sending.LoopEndsIff`.
- Agreement.PeerReassembles: is for one caller and chunk sizes between 128 and 65536, which are those the peer accepts; `Agreement.UndisciplinedRun` and `Agreement.PeerIsLost` show a run that queues a size that is not harmless.
- Omission.ToleratesOmission: goes one way for peers that leave the field out in some chunks only, because an omission that cannot be told may still do no harm (`Omission.ByChance`); for peers that always leave it out the exact condition is `Omission.OmissionIff`.
- Timestamps.TimesAccumulateIff: is for peers that use the extended field from 0xFFFFFF on and repeat it in type 3 chunks; peers that leave it out there are the subject of `Omission`.
- Pipeline.PacketsArrive: each packet is on the wire before the next is sent, and chunk sizes are ones the peer accepts; what else can happen to chunk sizes is in `Agreement` and `Mismatch`.
- Outgoing.Protocol.SendPacket: a full queue makes the call wait, which is not modelled here; `Goroutines` has the bound of 100 messages.
- Buffers.Buffer.Skip: requires the cursor to stay inside the contents, which the source's callers see to by testing first.
- Buffers.Buffer.Consume: requires that the bytes were read, as all callers do.
- Buffers.Buffer.Read: requires enough unread bytes, as all reading and writing methods of the buffer do; without them the source panics, and its callers test first.
- HpBuffer.HPBuffer.Write: requires enough unread bytes, as above.
- Sharing of byte slices: byte lists are values, so writing through a slice that a caller still holds is not modelled. The same holds for references to messages and chunk streams, which have one owner at a time in the source.
- The encoders' repeated write-or-return steps are one loop over the packet's fields.
- The handshake, TCP itself, reflection in ExpectPacket, URL parsing after the rewriting, and the server's scripts of sends and expects: no property here depends on them; the scripts are fixed sequences of sends and expects, and the rest is fixed bytes or behaviour of Go's libraries.
- Floating-point arithmetic and UTF-8: bit patterns and raw bytes are enough, since the source's UTF-8 test does nothing.
- Liveness of Destroy: each job may wait for the connection or a queue while it holds its lock, so Destroy may wait for ever.
- Go's memory model: the unsynchronised reads of the error variable are atomic steps here.
