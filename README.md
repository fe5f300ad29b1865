# IM server core in Dafny

This project models the core of a small instant-messaging server written in C++, and the
client-side pieces that speak the same wire protocol. The server's parts are:

- a reactor (`EventLoop`) that accepts clients and reads their bytes;
- a packet framing layer (`Pack`): a 0xFEFF magic, a big-endian length, a type, the payload and a 16-bit additive checksum;
- message records (`Message`: user, text and file payloads);
- a pair of FIFO queues (`MessageQueue`) between the reactor and the router;
- a router (`MsgHandler`) that broadcasts text to online users and hands file requests to a thread pool;
- two registries of connections keyed by user id (`Connections`), swept by a heartbeat scan;
- three file-transfer protocols:
  - a size header followed by raw bytes;
  - 1 MiB chunks ended by an empty marker;
  - stop-and-wait packets with sequence acknowledgements.

Every component is a module. Where the source updates an object in place, the model uses a
class with the same fields. Where the source computes a value, the model uses datatypes and
functions. The network is a scripted socket:

- `acceptQuota` says how many bytes each `send` call takes;
- `inbox` holds the segments successive `recv` calls return;
- `wire` logs everything sent.

The file system is a `Disk` map from path to contents. The reactor is proved against a pure
step function, `EventLoop.Dispatch`. The router is proved against `MsgHandler.Eligible` and
`MsgHandler.TaskFor`.

The wire decoder `Framing.Decode` is the corrected one. The decoder as written is modelled
beside it, in `Framing.DecodeAsWritten`; see "## Findings".

## Model

| member | source | states |
|---|---|---|
| Bytes.BE16 | net/Pack.hpp:109-110 | a 16-bit field is emitted as exactly two bytes; Bytes.BE16RoundTrip fixes their order |
| Bytes.BE32 | net/Pack.hpp:113-116 | the length field is emitted as exactly four bytes |
| Bytes.BE32Bytes | net/Pack.hpp:113-116 | the four bytes are, in order, the value shifted right by 24, 16, 8 and 0 bits, each masked to a byte |
| Bytes.FromBE32Bytes | net/Pack.hpp:57-60 | the decoded length is b0·2^24 + b1·2^16 + b2·2^8 + b3, the OR of shifted bytes the decoder computes |
| Bytes.BE16RoundTrip | net/Pack.hpp:83-84 | reading back the two bytes emitted for a 16-bit value gives that value |
| Bytes.FromBE16Injective | net/Pack.hpp:67 | every two bytes are the emission of the value read from them, so distinct fields read as distinct values |
| Bytes.BE32RoundTrip | net/Pack.hpp:57-60 | reading back the four bytes emitted for a 32-bit value gives that value |
| Bytes.FromBE32Injective | net/Pack.hpp:57-60 | every four bytes are the emission of the length read from them |
| Bytes.SizeHeader | net/FileTransfer.hpp:191-192 | the `memcpy` image of a 64-bit size is eight bytes |
| Bytes.SizeHeaderRoundTrip | net/FileTransfer.hpp:207 | copying the eight-byte image back gives the size that was sent |
| Bytes.LE32 | EventLoop.hpp:171 | a 32-bit record field occupies four bytes of the record's image |
| Bytes.LE32RoundTrip | EventLoop.hpp:100-104 | casting the bytes back to the record field gives the field's value |
| Framing.Frame | net/Pack.hpp:104-130 | an encoded packet is exactly ten bytes longer than its payload |
| Framing.AccumulateChecksum | net/Pack.hpp:35-39 | the byte-by-byte `uint16_t` accumulation loop yields the checksum function |
| Framing.ChecksumIsSumMod | net/Pack.hpp:35-39 | the checksum is the sum of the payload bytes modulo 2^16 |
| Framing.SumUpdate | net/Pack.hpp:78-81 | changing one byte changes the byte sum by exactly the difference of old and new byte |
| Framing.ChecksumDetectsByteChange | net/Pack.hpp:76-88 | changing any single payload byte always changes the checksum |
| Framing.MagicBytes | net/Pack.hpp:24 | the header 0xFEFF is sent as the bytes 0xFE, 0xFF that the decoder checks |
| Framing.FrameLayout | net/Pack.hpp:104-130 | an encoded packet is magic, 4-byte length, 2-byte type, payload, 2-byte checksum, in that order, whatever follows it |
| Framing.LengthFieldExact | net/Pack.hpp:25 | without 32-bit overflow, the length field is the payload size plus 4 |
| Framing.FrameFields | net/Pack.hpp:22-40 | an encoded packet carries the magic, a length of payload size + 4, its type, its payload and the payload's checksum, as the decoder reads them |
| Framing.DecodeLaidOut | net/Pack.hpp:43-89 | bytes laid out as a packet decode to its type and payload when the stored checksum matches, and to a checksum error otherwise |
| Framing.RoundTrip | net/Pack.hpp:22-89 | decoding the encoding of any payload whose length fits the field gives back the type and payload, even with trailing bytes |
| Framing.DecodeSound | net/Pack.hpp:43-89 | whatever decodes successfully starts with the re-encoding of the decoded type and payload |
| Framing.CorruptedPayloadRejected | net/Pack.hpp:76-88 | a packet with any one payload byte altered is rejected with a checksum error |
| Framing.DecodeIncomplete | net/Pack.hpp:61-64 | a packet whose declared length runs past the bytes received is incomplete |
| Framing.TruncatedFrameNeedsMore | net/Pack.hpp:45-64 | every proper prefix of a packet is rejected: as too short below ten bytes, otherwise as incomplete |
| Framing.AsWrittenAgreesOnSaneLengths | net/Pack.hpp:43-89 | on length fields between 4 and 2^32 − 7, the decoder as written and the corrected one agree |
| Framing.ZeroLengthReadsPastEnd | net/Pack.hpp:61-73 | a ten-byte packet with length 0 passes the guard as written and reads past the buffer; the corrected decoder rejects it |
| Framing.WrappedLengthReadsPastEnd | net/Pack.hpp:61-73 | a length of 0xFFFFFFFA wraps the 32-bit guard to 0 and reads past the buffer; the corrected decoder says incomplete |
| NetPack.Pack.Encode | net/Pack.hpp:22-40 | the packing constructor keeps the first `nSize` bytes as data and leaves the object consistent (magic, length, checksum) |
| NetPack.Pack.Fill | net/Pack.hpp:11-18 | a pack holds exactly the five header, type, data and checksum fields it is given |
| NetPack.Pack.Decode | net/Pack.hpp:43-89 | unpacking fails with exactly the framing error of the wire decoder; on success it holds the decoded type and data, the recomputed length and checksum, and a header left unassigned |
| NetPack.Pack.ToString | net/Pack.hpp:104-130 | serialisation is the five fields in wire order; for a consistent pack it is the encoded packet |
| NetPack.EncodeThenDecode | tests/main/pack.cpp:34-43 | a payload packed, serialised and unpacked comes back with its type and data |
| ClientPack.Pack.Encode | IMClientConsole/Pack.hpp:21-34 | the client's packing constructor keeps the whole data and leaves the object consistent |
| ClientPack.Pack.Fill | IMClientConsole/Pack.hpp:10-17 | a client pack holds exactly the fields it is given |
| ClientPack.Pack.Decode | IMClientConsole/Pack.hpp:37-83 | the client's unpacking fails and succeeds exactly as the shared wire decoder does |
| ClientPack.Pack.ToByteStream | IMClientConsole/Pack.hpp:98-124 | the client's serialisation is the five fields in wire order; for a consistent pack it is the encoded packet |
| ClientPack.TwinsAgree | IMClientConsole/Pack.hpp:21-124 | client and server produce byte-identical packets for the same type and payload |
| ClientPack.CrossDecode | IMClientConsole/Pack.hpp:37-95 | a packet built by either side decodes at both to the same type and payload |
| Messages.Tag | server/Message.hpp:9-15 | each user action is stored as a byte below 4 |
| Messages.ActionOf | server/Message.hpp:9-15 | a stored action byte names an action exactly when it is below 4 |
| Messages.TagRoundTrip | server/Message.hpp:9-15 | action and action byte convert into each other without loss |
| Messages.Message.OfUser | server/Message.hpp:52-53 | a message built from a user record is a USER message holding it |
| Messages.Message.OfText | server/Message.hpp:54-55 | a message built from a text record is a TEXT message holding it |
| Messages.Message.OfFile | server/Message.hpp:56-57 | a message built from a file record is a FILE message holding it |
| Messages.Message.Of | server/Message.hpp:52-57 | the constructor chosen by the record's kind gives a message whose type tag matches its payload |
| Messages.Message.Move | server/Message.hpp:64-68 | a move-constructed message takes the source's type and payload; the source is left USER with no payload |
| Messages.Message.FromValue | server/Message.hpp:39-49 | a message object holds the type and payload it is given |
| Messages.Message.MoveAssign | server/Message.hpp:71-80 | move assignment takes the other message's value and empties it, except self-assignment, which changes nothing |
| Messages.MoveTransfersOwnership | server/Message.hpp:64-68 | after a move the destination owns the payload, well tagged, and the source owns nothing |
| Layout.UserBytes | server/Message.hpp:16-22 | a user record's image is 72 bytes |
| Layout.TextBytes | server/Message.hpp:24-29 | a text record's image is 520 bytes |
| Layout.FileBytes | server/Message.hpp:31-37 | a file record's image is 273 bytes, counting the action byte |
| Layout.UserRoundTrip | EventLoop.hpp:99-100 | casting a user record's image, with anything after it, back to the record gives the record |
| Layout.TextRoundTrip | EventLoop.hpp:101-102 | casting a text record's image back gives the record |
| Layout.FileRoundTrip | EventLoop.hpp:103-104 | a file record's image is a valid image and casts back to the record |
| MQ.MessageQueue.constructor | server/MQ.hpp:20 | both queues start empty |
| MQ.MessageQueue.PushToReceiveQueue | server/MQ.hpp:35-40 | the message's value joins the back of the receive queue and the pushed object is left moved-from |
| MQ.MessageQueue.PopFromReceiveQueue | server/MQ.hpp:43-51 | the front of the receive queue comes out as a fresh message and the rest stays in order |
| MQ.MessageQueue.PushToSendQueue | server/MQ.hpp:54-59 | the message's value joins the back of the send queue and the pushed object is left moved-from |
| MQ.MessageQueue.PopFromSendQueue | server/MQ.hpp:62-70 | the front of the send queue comes out as a fresh message and the rest stays in order |
| MQ.MessageQueue.IsReceiveQueueEmpty | server/MQ.hpp:73-77 | true exactly when the receive queue is empty |
| MQ.MessageQueue.IsSendQueueEmpty | server/MQ.hpp:80-84 | true exactly when the send queue is empty |
| MQ.PushAllThenPopAll | tests/main/MQ.cpp:15-29 | messages pushed in order are popped in the same order, each with its payload and matching type |
| Channel.Socket.constructor | net/Socket.hpp:56 | a socket wrapping a descriptor starts with the default 1024-byte buffer |
| Channel.Socket.OptimizeForLargeFileTransfer | net/Socket.hpp:247-264 | a valid socket's buffer becomes 64 KiB; an invalid one is untouched |
| Channel.Socket.Send | net/Socket.hpp:183-198 | an invalid socket sends nothing; otherwise the kernel takes a prefix of the data, which is appended to the wire, and the count is returned |
| Channel.Socket.Recv | net/Socket.hpp:201-228 | at most one buffer of the next available segment is taken, the rest is left for the next call, and no byte is lost or reordered; an invalid socket returns nothing |
| Channel.MessageSocket.constructor | net/Transfer/FileTransfer.hpp:19 | the message socket starts with the default buffer and nothing sent |
| Channel.MessageSocket.SetBufferSize | net/Transfer/FileTransfer.hpp:20 | the buffer size becomes the requested one and nothing else changes |
| Channel.MessageSocket.SendMessage | net/Transfer/FileTransfer.hpp:145 | a message is delivered whole exactly when the send succeeds |
| Channel.MessageSocket.RecvMessage | net/Transfer/FileTransfer.hpp:157 | a receive yields the next whole message, or fails once nothing more arrives |
| ConnectionMgr.RemoteIp | net/ConnectionMgr.hpp:34-37 | an invalid socket's address is "unknown"; a connected one reports its peer's |
| ConnectionMgr.Emplaced | net/ConnectionMgr.hpp:41-47 | adding a uid registers it online with its socket and address only if absent; an existing entry is kept; other uids are untouched |
| ConnectionMgr.WithOnline | net/ConnectionMgr.hpp:62-70 | only the named uid's online flag changes, and only if it is registered |
| ConnectionMgr.Connections.constructor | net/ConnectionMgr.hpp:30 | a registry starts empty |
| ConnectionMgr.Connections.Add | net/ConnectionMgr.hpp:41-47 | the registry becomes the emplaced one; no socket is closed |
| ConnectionMgr.Connections.GetSocket | net/ConnectionMgr.hpp:50-59 | a registered uid yields its socket, an unknown uid the invalid socket |
| ConnectionMgr.Connections.SetOnline | net/ConnectionMgr.hpp:62-70 | the registry becomes the one with that uid's flag set |
| ConnectionMgr.Connections.RemoveConnection | net/ConnectionMgr.hpp:73-83 | the uid is gone and its socket, if valid, is closed; no other entry changes |
| ConnectionMgr.Connections.GetConnections | net/ConnectionMgr.hpp:86-90 | the snapshot equals the registry |
| ConnectionMgr.Connections.ScanAndCloseInactive | net/ConnectionMgr.hpp:93-110 | offline entries are removed with their sockets closed; online entries stay and are marked offline |
| ConnectionMgr.SweepKeepsOnlineOnly | net/ConnectionMgr.hpp:93-110 | after a scan exactly the entries that were online remain, all now offline with their sockets |
| ConnectionMgr.TwoSweepsEmpty | net/ConnectionMgr.hpp:93-110 | two scans with no heartbeat in between empty the registry |
| ConnectionMgr.HeartbeatKeepsAlive | net/ConnectionMgr.hpp:93-110 | a uid that sends a heartbeat before every scan survives any number of scans with its socket |
| ConnectionMgr.MissedTwoHeartbeatsEvicts | net/ConnectionMgr.hpp:93-110 | a uid silent for two scan periods is evicted |
| FileUtils.JoinPath | net/FileUtils.hpp:26-39 | the joining loop yields the recursive definition of the joined path |
| FileUtils.JoinFewParts | net/FileUtils.hpp:28-37 | one part is itself; two parts get a '/' between them unless the first is empty or already ends in '/' |
| FileUtils.JoinExtends | net/FileUtils.hpp:31-37 | joining more parts only extends the result |
| FileUtils.JoinEndsWithLast | net/FileUtils.hpp:31-37 | a joined path ends with its last part |
| FileUtils.LastIndexOf | net/FileUtils.hpp:65 | the index found holds the character and no later position does; none means the character is absent |
| FileUtils.GetFileName | net/FileUtils.hpp:59-70 | the name is a '/'-free suffix of the path, the whole path when it has no '/' |
| FileUtils.GetFileExtension | net/FileUtils.hpp:73-84 | the extension is a suffix starting at the last '.', empty exactly when there is no '.' |
| FileUtils.GetFileDirectory | net/FileUtils.hpp:116-130 | the directory is a prefix of the path, empty when there is no '/' |
| FileUtils.DirectoryAndName | net/FileUtils.hpp:59-130 | directory, '/', and name put back together give the path |
| FileTransfer.HeaderBytes | net/FileTransfer.hpp:202-207 | the size is read from the first eight bytes of the first segment, zero-padded when the segment is shorter |
| FileTransfer.HeaderAnnouncesSize | net/FileTransfer.hpp:189-212 | a receiver reading a segment that starts with the sender's size header gets the sender's size |
| FileTransfer.FileTransfer.constructor | net/FileTransfer.hpp:26-30 | a transfer starts with zero counters, the default repository, and its socket tuned for large transfers |
| FileTransfer.FileTransfer.SetRepoPath | net/FileTransfer.hpp:32-39 | the repository path becomes the given one |
| FileTransfer.FileTransfer.SendFileSize | net/FileTransfer.hpp:189-198 | success exactly when some bytes of the size header went out; what went out is a prefix of it |
| FileTransfer.FileTransfer.ReceiveFileSize | net/FileTransfer.hpp:200-212 | success exactly when a non-empty segment arrived, whose first eight bytes become the total; a gapless stream fails only when it is empty or the socket is invalid |
| FileTransfer.FileTransfer.SendFile | net/FileTransfer.hpp:46-113 | a missing file fails with nothing sent; otherwise the wire gets a prefix of the size header then a prefix of the content, and once some of the header went out, the transfer succeeds exactly when the whole content did |
| FileTransfer.FileTransfer.SendBuffer | net/FileTransfer.hpp:81-103 | the inner send loop puts a prefix of the buffer on the wire and reports its length, stopping at the first refused send |
| FileTransfer.FileTransfer.ReceiveFile | net/FileTransfer.hpp:115-171 | an unwritable path fails with nothing changed; otherwise the file holds a prefix of the bytes consumed after the header, and success means exactly the announced number of bytes was written |
| FileTransfer.FileTransfer.RecvSegment | net/FileTransfer.hpp:140-141 | one receive consumes a prefix of the stream, and on a gapless stream returns nothing only when the stream is exhausted |
| FileTransfer.FileTransfer.ReceiveContent | net/FileTransfer.hpp:137-162 | the receiving loop writes a prefix of the consumed bytes, never more than announced, and fails on a gapless stream only if it holds fewer bytes than announced |
| FileTransfer.ReceiveOverFaithfulChannel | net/FileTransfer.hpp:115-171 | over a gapless channel carrying the size header and then the content, in any segmentation, the receiver writes exactly the content |
| FileTransfer.ReceiveCoalesced | net/FileTransfer.hpp:200-212 | when the size header and the content arrive in one segment, the content bytes after the header are dropped and the receive fails |
| ChunkedTransfer.Chunks | net/Transfer/FileTransfer.hpp:36-51 | the read loop yields at least one chunk, the last one possibly empty |
| ChunkedTransfer.ChunksShape | net/Transfer/FileTransfer.hpp:36-51 | the chunks concatenate to the data; all but the last are exactly 1 MiB and the last is shorter |
| ChunkedTransfer.ChunksStep | net/Transfer/FileTransfer.hpp:37-38 | each read takes the next at most 1 MiB and the remaining chunks are those of the rest |
| ChunkedTransfer.Remainder | net/Transfer/FileTransfer.hpp:32 | reading from an offset gives the content's suffix of length size − offset, or nothing past the end |
| ChunkedTransfer.FirstEmpty | net/Transfer/FileTransfer.hpp:79-85 | the end marker is the first empty message, and every message before it is non-empty |
| ChunkedTransfer.FirstEmptyAt | net/Transfer/FileTransfer.hpp:79-85 | an empty message preceded only by non-empty ones is the one found |
| ChunkedTransfer.ChunksThenMarker | net/Transfer/FileTransfer.hpp:36-59 | the chunks followed by the end marker are read back, up to the marker, as exactly the data |
| ChunkedTransfer.FullChunksGapless | net/Transfer/FileTransfer.hpp:36-51 | only the last chunk can be empty, so it cannot be mistaken for the end marker earlier |
| ChunkedTransfer.SendChunksStep | net/Transfer/FileTransfer.hpp:36-51 | one loop iteration sends the next chunk, and the loop ends exactly when the last chunk has been read |
| ChunkedTransfer.FileTransfer.constructor | net/Transfer/FileTransfer.hpp:19-21 | counters start at zero and the socket's buffer becomes one chunk |
| ChunkedTransfer.FileTransfer.SendChunk | net/Transfer/FileTransfer.hpp:142-152 | the chunk goes out once exactly when one of the first three attempts succeeds |
| ChunkedTransfer.FileTransfer.SendFile | net/Transfer/FileTransfer.hpp:23-65 | a missing file fails with nothing sent; otherwise a prefix of the chunks from the offset goes out, and success means all chunks and the end marker did; if every send succeeds, so does the transfer |
| ChunkedTransfer.FileTransfer.SendChunks | net/Transfer/FileTransfer.hpp:36-51 | the chunk loop sends the chunks in order until one fails, counting their bytes |
| ChunkedTransfer.FileTransfer.ReceiveChunk | net/Transfer/FileTransfer.hpp:155-165 | a received message is returned with its length, the end marker as 0, a failure as −1 |
| ChunkedTransfer.FileTransfer.ReceiveFile | net/Transfer/FileTransfer.hpp:67-104 | the file holds the concatenation of the messages before the first empty one, and success is exactly finding that marker |
| ChunkedTransfer.TransferEndToEnd | net/Transfer/FileTransfer.hpp:23-104 | sending a file from an offset over a reliable message socket and receiving it writes exactly the content from the offset |
| StreamTransfer.Packet | IMClientConsole/StreamTransfer.hpp:40-43 | a packet is the big-endian sequence number followed by the data |
| StreamTransfer.PacketHeaderRoundTrip | IMClientConsole/StreamTransfer.hpp:66-68 | the receiver reads back the sender's sequence number |
| StreamTransfer.AckMatches | IMClientConsole/StreamTransfer.hpp:133-135 | an acknowledgement matches exactly when its bytes are the expected number's encoding |
| StreamTransfer.StreamTransfer.constructor | IMClientConsole/StreamTransfer.hpp:85-86 | a transfer starts on its socket with a zero size |
| StreamTransfer.StreamTransfer.NewSender | IMClientConsole/StreamTransfer.hpp:21-25 | the sender exists exactly when the ready signal and then the size were sent and the peer's ready signal was read |
| StreamTransfer.StreamTransfer.NewReceiver | IMClientConsole/StreamTransfer.hpp:28-32 | a receiver that exists sent the ready signal, read the peer's, and holds the size read next; on an open socket that takes the whole signal and delivers the ready signal then at least eight bytes, the receiver is created with the first eight of them |
| StreamTransfer.StreamTransfer.ConfirmConnection | IMClientConsole/StreamTransfer.hpp:88-95 | success exactly when the whole ready signal went out and the peer's came back; an open socket that takes four bytes and delivers the ready signal as its next segment always succeeds |
| StreamTransfer.StreamTransfer.WaitForReadySignal | IMClientConsole/StreamTransfer.hpp:97-102 | success exactly when the four bytes read are the ready signal; on an open socket those are the first four bytes of the next segment |
| StreamTransfer.StreamTransfer.SendFileSize | IMClientConsole/StreamTransfer.hpp:104-109 | success exactly when all eight size bytes went out |
| StreamTransfer.StreamTransfer.ReceiveFileSize | IMClientConsole/StreamTransfer.hpp:111-118 | success exactly when eight bytes were read, which become the size; otherwise the size is kept; an open socket whose next segment holds eight bytes always succeeds, with those bytes |
| StreamTransfer.StreamTransfer.SendAck | IMClientConsole/StreamTransfer.hpp:120-125 | success exactly when the whole acknowledgement went out |
| StreamTransfer.StreamTransfer.WaitForAck | IMClientConsole/StreamTransfer.hpp:127-145 | success exactly when the four-byte reply is the expected number, and the first full reply is the one judged |
| StreamTransfer.StreamTransfer.SendPacket | IMClientConsole/StreamTransfer.hpp:35-56 | at most three attempts; success means the whole packet was the last thing sent and its acknowledgement came back; if no attempt sends the whole packet, it fails |
| StreamTransfer.StreamTransfer.ReceivePacket | IMClientConsole/StreamTransfer.hpp:59-79 | success exactly when a four-byte header arrived; the data is at most one chunk, and the header is acknowledged |
| StreamTransfer.PacketRoundTrip | IMClientConsole/StreamTransfer.hpp:35-79 | over a reliable link a packet is received with its data and sequence number, and the sender sees the acknowledgement |
| ThreadPool.AdjustedStaysInBounds | utils/ThreadPool.hpp:93-110 | adjusting never takes the worker count out of [min, max] |
| ThreadPool.AdjustedDirection | utils/ThreadPool.hpp:98-108 | under load the pool grows by at most one; when idle above the minimum it drops straight to the minimum; at balance it stays |
| ThreadPool.ThreadPool.constructor | utils/ThreadPool.hpp:53-58 | a pool starts with the minimum number of workers, no tasks, not stopped |
| ThreadPool.ThreadPool.Enqueue | utils/ThreadPool.hpp:25-45 | refused exactly when stopped; otherwise the new task joins the back of the queue and the worker count is adjusted, staying in bounds |
| ThreadPool.ThreadPool.AdjustThreadCount | utils/ThreadPool.hpp:93-110 | grows by one new worker or detaches workers from the back down to the minimum, counting the detached ones |
| ThreadPool.ThreadPool.WorkerStep | utils/ThreadPool.hpp:72-90 | a woken worker exits exactly when stopped with nothing queued; otherwise it takes the front task |
| ThreadPool.ThreadPool.Shutdown | utils/ThreadPool.hpp:61-63 | the pool is stopped and its queue and workers are kept |
| ThreadPool.FifoOrder | utils/ThreadPool.hpp:25-90 | tasks are taken in the order they were enqueued |
| ThreadPool.ShutdownDrains | utils/ThreadPool.hpp:36-83 | after shutdown no task is accepted, but queued ones still run before workers exit |
| ThreadPool.ShrinkThenGrow | utils/ThreadPool.hpp:98-108 | detached workers keep running, so a pool can run more threads than its maximum |
| EventLoop.ParsePack | EventLoop.hpp:95-108 | an unknown type is rejected; a parsed record's kind matches the pack type |
| EventLoop.ParseOfPacked | EventLoop.hpp:95-108 | a record packed under its own type parses back to itself |
| EventLoop.DispatchThree | EventLoop.hpp:50-59 | a batch of readiness reports is handled one after another, in order |
| EventLoop.OnlyParsedMessagesQueued | EventLoop.hpp:73-93 | client data queues at most one message, and does so exactly when it is non-empty, decodes and parses; the queued message is the parsed one |
| EventLoop.BadBytesKeepConnection | EventLoop.hpp:82-92 | undecodable or unparsable bytes change nothing: the client stays connected and nothing is queued |
| EventLoop.LoginAndFileHandoff | EventLoop.hpp:110-139 | a login registers the client online on its descriptor; a logout marks it offline; a register changes nothing; a file request registers the sender's file connection and stops watching the descriptor |
| EventLoop.TextArrivesIntact | EventLoop.hpp:73-102 | a text sent as a type-2 packet is queued unchanged |
| EventLoop.LoginArrives | EventLoop.hpp:73-120 | a login packet registers the user and queues the login message |
| EventLoop.EgressParsesBack | EventLoop.hpp:154-179 | each queued message sends at most one packet: a text, to its receiver's registered socket, which decodes and parses back to the same text |
| EventLoop.EventLoop.constructor | EventLoop.hpp:23-43 | after initialisation both listeners are watched and nothing has been sent |
| EventLoop.EventLoop.Run | EventLoop.hpp:45-61 | the loop's effect on watched descriptors, registries and the receive queue is the batch dispatch of the reports |
| EventLoop.EventLoop.HandleNewConnection | EventLoop.hpp:64-71 | a valid accepted client is watched; an invalid one is ignored |
| EventLoop.EventLoop.HandleClientData | EventLoop.hpp:73-93 | the new state is the specified reaction to the received bytes |
| EventLoop.EventLoop.PreprocessMessage | EventLoop.hpp:110-139 | the registries change as specified for the message's kind and action |
| EventLoop.EventLoop.CleanupClient | EventLoop.hpp:141-146 | the descriptor is no longer watched and the text entry keyed by that number is marked offline |
| EventLoop.EventLoop.SendMessagesStep | EventLoop.hpp:159-175 | one pass takes the front of the send queue and sends what it specifies |
| EventLoop.EventLoop.DrainSendQueue | EventLoop.hpp:154-179 | draining sends, in queue order, everything the queued messages specify, and empties the queue |
| EventLoop.LoginThenText | EventLoop.hpp:73-139 | a login followed by a text registers the user with its address and queues both messages in order |
| MsgHandler.Eligible | server/MsgHandler.hpp:51-53 | the broadcast receivers are exactly the online users other than the sender |
| MsgHandler.EligibleAsWritten | server/MsgHandler.hpp:53 | the receivers chosen by comparing a socket with the sender's uid are online users |
| MsgHandler.SenderEchoedAsWritten | server/MsgHandler.hpp:53 | comparing socket with uid sends a sender its own text and skips a user whose socket equals the sender's uid |
| MsgHandler.Copies | server/MsgHandler.hpp:55-57 | one copy per receiver, each addressed to that receiver and otherwise unchanged |
| MsgHandler.OnlyReceiver | server/MsgHandler.hpp:51-58 | when one user is eligible, exactly one copy is queued, for that user |
| MsgHandler.TaskFor | server/MsgHandler.hpp:62-84 | a task is scheduled exactly when the sender has a valid file connection; it carries that descriptor and the request, as an upload exactly for UPLOAD |
| MsgHandler.CBytes | server/MsgHandler.hpp:88 | a C-string read gives the NUL-free prefix before the first NUL |
| MsgHandler.CBytesOfTerminated | server/MsgHandler.hpp:88 | a NUL-free text followed by a NUL reads back as that text |
| MsgHandler.Decimal | server/MsgHandler.hpp:124 | a size is written as ASCII digits, without leading zeros |
| MsgHandler.DecimalRoundTrip | server/MsgHandler.hpp:124 | the digits written denote the size |
| MsgHandler.NotificationReadsBack | server/MsgHandler.hpp:120-134 | the notification goes from the file's sender to its receiver, and its content reads back as the announcement text cut to 511 bytes, NUL-terminated |
| MsgHandler.MsgHandler.constructor | server/MsgHandler.hpp:15 | the router works on the given queue, registries and pool |
| MsgHandler.MsgHandler.ProcessOne | server/MsgHandler.hpp:25-42 | the oldest message is removed; a text is broadcast, a file request is dispatched, anything else is dropped |
| MsgHandler.MsgHandler.HandleText | server/MsgHandler.hpp:44-60 | one copy per eligible user, each exactly once, is appended to the send queue |
| MsgHandler.MsgHandler.HandleFile | server/MsgHandler.hpp:62-84 | the pool receives the upload or download job for the request, unless the sender has no file connection or the pool is stopped |
| MsgHandler.MsgHandler.HandleFileUpload | server/MsgHandler.hpp:86-102 | the notification is queued exactly when the upload succeeds; a successful upload leaves in the repository a file of the announced size holding the bytes that followed the header; an unwritable target fails with the disk untouched; on a gapless open stream, failure means the stream ended before the announced size, so a complete stream always succeeds |
| MsgHandler.MsgHandler.HandleFileDownload | server/MsgHandler.hpp:104-118 | a missing file or invalid descriptor fails, a missing file with nothing sent |
| MsgHandler.MsgHandler.SendFileNotification | server/MsgHandler.hpp:120-134 | exactly the notification text message is appended to the send queue |
| MsgHandler.ThreeUsersOneOffline | server/MsgHandler.hpp:51-53 | with one other user online and one offline, only the online one is eligible |
| MsgHandler.BroadcastReachesOthers | server/MsgHandler.hpp:44-60 | a text is queued once for the other online user and for nobody else |

## Left out

- Threads, mutexes and condition variables are left out. Each blocking loop is a single step (`ThreadPool.ThreadPool.WorkerStep`, `EventLoop.EventLoop.SendMessagesStep`, `MsgHandler.MsgHandler.ProcessOne`) or a drain over a finite batch. A pop on an empty queue waits in the source; here it is a precondition.
- Sockets, `epoll`, `getpeername` and file streams are a scripted environment. Socket creation, binding, listening and `init`'s failure paths are not modelled, and neither are `epoll` errors.
- Sleeps, timers and timeouts are left out. `waitForAck`'s 500 ms deadline is a `polls` parameter, and the 600-second heartbeat timer is the `Rounds` of scans.
- Progress output, floating-point percentages and logging are left out.
- Windows-only branches are left out.
- The in-memory image of a record assumes a little-endian host with natural alignment. The file record's action byte at offset 272 is a modelling choice, because server/Message.hpp declares no action field. The client's own file record (IMClientConsole/NetworkClient.hpp:88-95) puts a 64-bit `offset` field before `action`, so the two sides do not agree on the layout; the model follows the server's reading.
- EventLoop.ParsePack: a USER payload under 72 bytes, a TEXT payload under 520 bytes, and a FILE payload under 273 bytes or with an action byte of 2 or more are rejected as short. EventLoop.hpp:99-104 casts the payload to the record without a size check, reads past its end and queues the message anyway. Those out-of-bounds reads have no value to model, so in the model a short LOGIN packet registers nobody, and `AfterData`, `OnlyParsedMessagesQueued`, `BadBytesKeepConnection`, `HandleClientData` and `Run` inherit that.
- Several calls name members that the headers do not declare. The model uses the evident meaning:
  - `pushToRecvQueue` (EventLoop.hpp:87) and `popFromRecvQueue` (server/MsgHandler.hpp:29) stand for the queue's push and pop;
  - `client_fd` (server/MsgHandler.hpp:53) is read as the stored socket;
  - `std::stoi(uid)` (server/MsgHandler.hpp:56) is read as the uid itself;
  - `getFd(std::to_string(sender))` (server/MsgHandler.hpp:66) is read as `getSocket(sender)`;
  - `FileAction` is an added field, and `TextType::GROUP` (server/MsgHandler.hpp:130) is dropped;
  - `receiveFile(name, size)` (server/MsgHandler.hpp:93) is read as `receiveFile(name)`;
  - `setBufferSize` and string `send`/`recv` (net/Transfer/FileTransfer.hpp) are the message socket;
  - EventLoop.hpp's vector-based pack calls are the shared decoder.
- IMClientConsole/Socket.hpp is not part of this model. The client's `recv` is taken to read at most the size of the vector it is given.
- `sHead` is never assigned by the unpacking constructors. The decoded pack keeps whatever value it is given (`stale`).
- `add` uses `emplace`, so a second login for the same uid keeps the old entry, socket included.
- `cleanupClient` marks offline the text entry whose uid equals the descriptor number and closes nothing. File-connection entries are never removed.
- The egress thread does not check `online`, so offline users that are still registered are sent to. A missing receiver yields the invalid socket, and `send` on it writes nothing. The result of `send` is ignored.
- Descriptor 0 is skipped by the `if (clientSocket.getFd())` test.
- MsgHandler.MsgHandler.ProcessOne: a TEXT or FILE message whose payload is missing or of another kind is dropped. The source would dereference it.
- MsgHandler.MsgHandler.HandleText: the order in which copies are queued is left open; the contract only says each eligible user gets one.
- MsgHandler.CString: a filename with no NUL is read as its whole 256-byte array. The source would read past the array.
- `receiveFileSize` in net/FileTransfer.hpp zero-pads a short first segment. It silently drops any bytes of that segment after the header (`FileTransfer.ReceiveCoalesced` exhibits this).
- Transfer counters are unbounded integers. The source's `uint64_t` wrap-around cannot be reached with the file sizes modelled.
- Directory creation in `setRepoPath` is left out. The disk has no directories, and `unwritable` stands for paths that cannot be opened.
- The chunked transfer's `memcpy` into a 1 MiB buffer is modelled as accepting the message whole. A message larger than the buffer would overflow it in the source.
- A file whose size is a multiple of 1 MiB sends an empty last chunk, which the receiver takes as the end marker. `ChunkedTransfer.Chunks` makes that chunk the marker's predecessor, and `ChunkedTransfer.ChunksThenMarker` shows the data still arrives whole.
- The chunked transfer assumes a message-preserving socket, which net/Socket.hpp does not provide.
- The socket's `wire` is one flat log per socket. Interleaving between threads on the same descriptor is not modelled.
- `ThreadPool::getInstance`'s singleton and its defaults (4, 16) are not modelled; pools are constructed explicitly. Detached threads are only counted, and the destructor's joining of workers is not modelled.
- `enqueue` on a stopped pool throws in the source; here it returns `false`.
- `ThreadPool.ThreadPool.WorkerStep` does not run the job it takes, and job results (`std::future`) are not modelled.
- `FileTransfer.FileTransfer.SendBuffer` and `FileTransfer.FileTransfer.RecvSegment` are the inner loop and the single `recv` of net/FileTransfer.hpp, split out as methods of their own.
- MsgHandler.MsgHandler.HandleFileDownload: it states only the failure cases. What a successful download sends is stated by `FileTransfer.FileTransfer.SendFile`, which it calls.
- The MySQL client, the console UI, the client's network front end and `main` are not part of this model.

## Findings

| source | as written | input that shows it | evidently intended | confidence | as-written member | corrected member |
|---|---|---|---|---|---|---|
| net/Pack.hpp:61-73 | the guard `nLength + 6 > nSize` is computed in 32 bits, and `nLength - 4` in 32 bits, then widened to `size_t`, with no check that `nLength >= 4` | a 10-byte packet with length field 0, or with 0xFFFFFFFA (the sum wraps to 0); either passes the guard and reads far past the buffer | reject lengths below 4 and compare without wrap-around | not executed | Framing.DecodeAsWritten, Framing.ZeroLengthReadsPastEnd, Framing.WrappedLengthReadsPastEnd | Framing.Decode, Framing.RoundTrip, Framing.DecodeSound |
| server/MsgHandler.hpp:53 | the broadcast skips entries whose socket equals the sender's uid | users 7 (socket 9) and 3 (socket 7) online, text from 7: user 7 receives its own text and user 3 is skipped | skip the entry whose uid is the sender | not executed | MsgHandler.EligibleAsWritten, MsgHandler.SenderEchoedAsWritten | MsgHandler.Eligible, MsgHandler.MsgHandler.HandleText |
