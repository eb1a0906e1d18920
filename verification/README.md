# A verified model of gpproto

gpproto is a C++ client library for an MTProto-like protocol. It has no user interface and no business logic: it
keeps a session with a server, frames and encrypts messages, resends what was lost, acknowledges what was received
and negotiates keys. This project models the parts where that is hard and proves what they promise, over every
input, every run and every interleaving.

`dafny verify dfyconfig.toml` checks everything.

## How the model is built

A component that updates its own fields is a `class` with those fields. Each of its methods has the branches and
loops of the original and is proved equal to a function on values (`Snapshot()`, `State()`, `Contents()`,
`Remaining()` give the value of an object). The theorems are about those functions and about runs of the state
machines built from them. Lower layers are used by the upper ones: the envelope is written with the modelled
streams, the key exchange calls the modelled factorisation and parser, and a transaction pass runs on the modelled
session and request service.

| file | what it models |
|---|---|
| `NumberTheory`, `Crypto` | divisibility and Euclid's gcd as references; the binary gcd, the modular multiply-add, the Pollard rho search and the big-endian strings |
| `Bytes`, `Tl`, `OutputStream`, `InputStream` | fixed-width integers, TL byte strings, the growing buffer and the reading cursor |
| `InternalParser`, `InternalParserMethods`, `MessageForm` | every message the internal parser knows, the printers scattered over the repository, and the wire form of each message, field by field |
| `Envelope`, `Incoming` | the encrypted envelope and what is read back from it |
| `TcpConnection` | abridged framing and the read state machine |
| `Base64` | base64 and the byte swap |
| `DispatchQueue`, `ClientSync`, `RequestPass` | the concurrent queues, as atomic steps of any number of threads |
| `AuthKeyInfo`, `Runloop` | the self-pruning salt list and the timer queue |
| `Session`, `RequestMessageService`, `ProtoTransactions`, `Proto` | ids and sequence numbers, the request life cycle, the transaction pass, and runs that mix them |
| `Numbering` | the sequence numbers of passes and of whole sessions |
| `Resending` | which step makes the next pass carry a request again, and when the API is initialised again |
| `ReplyRouting`, `DroppedReport`, `LateOutcome` | which request a reply reaches, and runs in which it is the wrong one |
| `Confirmations`, `SessionReset` | duplicate detection, acknowledgements, and the session reset lock |
| `DatacenterAuth`, `KeyAgreement` | the key exchange from the first request to the notice of the key; that both ends get the same key, and that an honest server gets the client there |

Foreign code (SHA, AES, RSA, modular exponentiation, gzip, application parsers) is a record of arbitrary functions;
the only facts required of it are output sizes and, for AES, that the two directions are inverse on whole blocks. The
theorems on key agreement also ask that two exponents can be swapped, which is what makes a key exchange one.
Clock readings, random draws and network outcomes are arbitrary inputs.

## Where the code is not what it seems

The model follows the code. In these places that differs from what names, comments or the other side of the code
suggest, and the exact condition is proved:

- A violation of id order is reported although the clock did not go back, exactly when it has not yet reached the id
  issued for the previous reading (`Sessions.ReportedOnAdvance`); ids grow exactly when nothing is reported.
- The report of a container's id (and of a time-fix id) is ignored, so a later pass that reports nothing can give a
  request the id of an older one, whose reply then removes the wrong request (`DroppedReports.DroppedReportMisroutes`).
  Ids stay apart exactly when no pass reuses one (`ReplyRouting.PassKeepsIdsApart`, `ReplyRouting.IdsStayApartExactly`).
- The session reset lock lets two resets through in one second when an expired lock is found: the expired lock is
  cleared, not renewed (`SessionResets.ReplacementsInASecond`).
- The cases of the bad-message switch have no `break`, so every error code ends in a session reset and some ask for
  time synchronisation three times (`SessionResets.BadMessageReactions`).
- The acknowledgement printer writes any number of ids, the parser refuses more than 500
  (`InternalParser.AcksExact`).
- `writeBytes` cuts the length to 24 bits, so longer strings do not come back (`Tl.OverlongIsCut`); an empty byte
  string is read back but leaves its three padding bytes unread (`Tl.BytesRoundTrip`).
- `sendDatas` frames packets of any size, the receiver never delivers one of 4 MiB or more whole
  (`TcpConnections.OversizedFrame`).
- One salt look-up that finds nothing empties the salt list, future salts included
  (`AuthKeyInfos.MissLosesFutureSalt`, exactly `AuthKeyInfos.PruningIsSound`), and a merge leaves the list unsorted exactly
  when a new salt starts before an unexpired old one (`AuthKeyInfos.MergeSortedExactly`).
- A connection that was closed and started again can no longer close itself: from the first bad header on it holds its
  socket without reading (`TcpConnections.RestartedStalls`).
- The completion callback of the key verification stage tests for the stage before it, so every pass of that stage
  sends its request again (`DatacenterAuths.SentAgainAfterCompletion`).
- The failure status of the string factorisation is unreachable (`Crypto.PqFactorizeBytes`).

## Model

| member | source | states |
|---|---|---|
| Crypto.BinaryGcd | gputils/gp/utils/Crypto.cpp:51-81 | for every pair of 64-bit values, zero included, the result is the mathematical gcd; no shift overflows |
| Crypto.OddPhase | gputils/gp/utils/Crypto.cpp:66-81 | the subtract-and-halve loop terminates at the gcd when one argument is odd |
| NumberTheory.GcdIsGreatest | gputils/gp/utils/Crypto.cpp:51-81 | the reference gcd is a common divisor that every common divisor divides |
| NumberTheory.GcdUnique | gputils/gp/utils/Crypto.cpp:51-81 | that property has one solution only |
| NumberTheory.GcdHalveWhenOtherOdd | gputils/gp/utils/Crypto.cpp:67-72 | halving an even argument keeps the gcd when the other is odd |
| NumberTheory.GcdScale | gputils/gp/utils/Crypto.cpp:59-64 | a common factor can be taken out of a gcd and put back by the final shift |
| Crypto.SquareAdd | gputils/gp/utils/Crypto.cpp:103-120 | the double-and-add loop computes exactly (q + x * x) mod pq and no 64-bit addition wraps |
| Crypto.Trial | gputils/gp/utils/Crypto.cpp:97-132 | one trial returns the gcd at the first iterate where it is not 1, or 1 when no step below the limit has such a gcd |
| Crypto.BitTrick | gputils/gp/utils/Crypto.cpp:129-131 | j & (j - 1) is zero exactly for powers of two |
| Crypto.MarkIsLargestPowerBelow | gputils/gp/utils/Crypto.cpp:129-131 | the reference point of a step is the iterate at the largest power of two below it |
| Crypto.PqFactorize | gputils/gp/utils/Crypto.cpp:91-144 | for every pq and all random draws the search ends within 2^23 + 1000 counted steps with p dividing pq and p * p <= pq; every trial before the last failed, each at its first gcd other than 1 or at its limit; the result is 1 only after at least three failed trials and a thousand steps |
| Crypto.CofactorBounds | gputils/gp/utils/Crypto.cpp:137-143 | taking the smaller of a divisor and its cofactor gives a divisor whose square is at most pq, and keeps it above 1 exactly for proper divisors |
| Crypto.PrimeHasNoSmallFactor | gputils/gp/utils/Crypto.cpp:91-144 | for a prime pq no divisor the search can return exceeds 1 |
| NumberTheory.SmallerFactorOfSemiprime | gputils/gp/utils/Crypto.cpp:91-144 | when pq is a product of two primes, a proper result of the search is the smaller of the two |
| Crypto.AsBigEndianString | gputils/gp/utils/Crypto.cpp:33-49 | the string is big-endian for the value and has no leading zero |
| Crypto.MinimalBigEndianUnique | gputils/gp/utils/Crypto.cpp:33-49 | there is one such string per value |
| Crypto.ReadBigEndianWord | gputils/gp/utils/Crypto.cpp:152-157 | the loop reads the big-endian number modulo 2^64 |
| Crypto.PqFactorizeBytes | gputils/gp/utils/Crypto.cpp:146-167 | the two strings are minimal, their numbers multiply to the number read (modulo 2^64), the smaller first; the failure status is unreachable |
| OutputStreams.OutputStream.AddSlice | gputils/gp/utils/OutputStream.cpp:104-116 | appends exactly the slice and keeps the buffer a whole number of chunks; the growth loop runs at most once, and exactly when room is missing |
| OutputStreams.OutputStream.WriteBytes | gputils/gp/utils/OutputStream.cpp:81-102 | appends the TL form of a byte string: short or long header, data, zero padding to a multiple of four |
| OutputStreams.OutputStream.WritePadding | gputils/gp/utils/OutputStream.cpp:98-101 | appends as many zeros as bring the written size to a multiple of four |
| OutputStreams.OutputStream.WriteString | gputils/gp/utils/OutputStream.cpp:71-79 | appends one zero byte for the empty string, the TL form of the NUL-terminated prefix otherwise |
| OutputStreams.OutputStream.WriteInt64 | gputils/gp/utils/OutputStream.cpp:38-53 | appends the eight little-endian bytes of the two's complement |
| InputStreams.InputStream.ReadBytes | gputils/gp/utils/InputStream.cpp:124-162 | result and cursor as the TL reader prescribes, including where each failed size check leaves the cursor |
| InputStreams.InputStream.SkipPadding | gputils/gp/utils/InputStream.cpp:155-159 | consumes exactly the padding, or everything that is left when there is less, and says which |
| InputStreams.InputStream.ReadData | gputils/gp/utils/InputStream.cpp:84-87 | a guarded read yields the next bytes or throws without moving the cursor |
| InputStreams.InputStream.ReadRemainingData | gputils/gp/utils/InputStream.cpp:80-94 | reads all that is left, up to the largest 32-bit length |
| Tl.BytesRoundTrip | gputils/gp/utils/OutputStream.cpp:81-102 | reading undoes writing and leaves any suffix unread exactly for lengths 1 to 2^24 - 1; the value alone survives for the empty string too |
| Tl.StringRoundTrip | gputils/gp/utils/InputStream.cpp:114-122 | readString undoes writeString exactly for NUL-free strings below 2^24 bytes, the empty one included |
| Tl.OverlongIsCut | gputils/gp/utils/OutputStream.cpp:88-94 | a string of 2^24 bytes or more never comes back whole |
| Tl.CStringCuts | gputils/gp/utils/OutputStream.cpp:75-77 | strlen keeps a string exactly when it has no NUL |
| Tl.TlBytesAligned | gputils/gp/utils/OutputStream.cpp:98-101 | what writeBytes emits is a multiple of four bytes long |
| Tl.ReadBytesStaysInside | gputils/gp/utils/InputStream.cpp:124-177 | for arbitrary input the cursor stays inside the buffer and a successful read consumes at least a byte |
| Tl.ReadI64Exact | gputils/gp/utils/InputStream.cpp:51-56 | a 64-bit read succeeds with a value exactly on that value's bytes followed by the rest |
| Tl.ReadI32Exact | gputils/gp/utils/InputStream.cpp:44-49 | the same for 32 bits |
| Tl.ReadDataExact | gputils/gp/utils/InputStream.cpp:84-87 | the same for raw data |
| InternalParserMethods.Parse | gp/proto/InternalParser.h:45-219 | the cursor-driven parser computes the parsing function, for every message kind, every malformed input and every exception; `MessageForms.ParseExact` says what that function accepts |
| InternalParserMethods.ReadIds | gp/proto/InternalParser.h:143-147 | the counted loop reads count ids in order or throws where the bytes end |
| InternalParserMethods.ReadAllSubMessages | gp/proto/InternalParser.h:157-174 | the counted loop reads the parts of a container in order, refuses a bad length, or throws |
| MessageForms.ParseExact | gp/proto/InternalParser.h:45-219 | for every message of each of the sixteen kinds, and all bytes: the parser yields the message and leaves the rest if and only if the bytes are the signature and the fields of that kind in wire order (nonce before server nonce, each with its value, its width and its byte order), within the sizes the parser allows, followed by the rest |
| MessageForms.StringExact | gputils/gp/utils/InputStream.cpp:124-162 | a byte-string read yields the string and leaves the rest if and only if the data is one of its forms (short header, long header, or a lone zero byte for the empty string) followed by the rest |
| MessageForms.ReadSaltsExact | gp/proto/InternalParser.h:177-198 | the counted loop accepts exactly that many salts, in order, each as valid-since, valid-until and salt |
| MessageForms.ParsedWithMore | gp/proto/InternalParser.h:112-118 | bytes behind a message do not change it, for every kind but an RPC result, which takes them for its own |
| MessageForms.WrittenIsForm | gputils/gp/utils/OutputStream.cpp:81-102 | what writeBytes emits for 1 to 2^24 - 1 bytes is a form that readBytes takes |
| InternalParser.AcksExact | gp/proto/InternalParser.h:130-150 | data parses to an acknowledgement of these ids exactly when there are at most 500 and the data starts with their printed form |
| InternalParser.ContainerExact | gp/proto/InternalParser.h:151-176 | data parses to a container of these messages exactly when each is at most 16 MiB and the data starts with the printed container |
| InternalParser.PingExact | gp/proto/InternalParser.h:107-111 | data parses to this ping exactly when it starts with the printed ping |
| InternalParser.PongExact | gp/proto/InternalParser.h:124-129 | data parses to this pong exactly when it starts with the printed pong |
| InternalParser.SubMessagesExact | gp/proto/InternalParser.h:160-174 | the loop over parts accepts exactly the printed parts, in order |
| InternalParser.ReadI64sExact | gp/proto/InternalParser.h:146-147 | the loop over ids accepts exactly the printed ids, in order |
| InternalParserMethods.GenerateAcks | gp/proto/Proto.cpp:848-856 | the stream holds the printed acknowledgement of all ids, in order |
| InternalParserMethods.GenerateContainer | gp/proto/Proto.cpp:1116-1140 | the stream holds the printed container of all messages, in order |
| Envelope.PadData | gp/proto/Proto.cpp:1191-1201 | random bytes fill up to the next whole block and never more than fifteen are used |
| Envelope.DataForEncryptedMessage | gp/proto/Proto.cpp:1084-1114 | produces the sealed form of salt, session, id, sequence number, size and body |
| Envelope.DataForEncryptedContainer | gp/proto/Proto.cpp:1116-1178 | the same around the printed container, under the container's own id and sequence number |
| Envelope.DecryptIncomingTransportData | gp/proto/Proto.cpp:343-399 | computes the opening function, null results included |
| Envelope.OpenSealed | gp/proto/Proto.cpp:343-399 | a sealed message is accepted under the same key exactly when its body is not empty and fits the size checks, and yields the padded plaintext |
| Envelope.OpenExact | gp/proto/Proto.cpp:343-399 | for all bytes: an envelope yields a plaintext if and only if it is long enough, names the key, decrypts to that plaintext under the key its message key gives, and the message key is bytes 16 to 32 of the hash of the header and as many bytes as the header says |
| Envelope.EnvelopeOnTheWire | gp/proto/Proto.cpp:1084-1114 | where key id, message key and ciphertext are in a sealed message, that the ciphertext decrypts to the plaintext with less than a block behind it, and where the fields of the plaintext are |
| Envelope.KeyBytes | gp/proto/MessageEncryptionKey.cpp:10-48 | byte by byte, which of the two hashes each byte of the AES key and of the initialisation vector comes from |
| IncomingMessages.ParseIncomingMessages | gp/proto/Proto.cpp:401-488 | computes the parsing function for both modes, with its parse errors, its silently dropped parts and its swallowed exceptions |
| IncomingMessages.ParseContainerParts | gp/proto/Proto.cpp:464-477 | computes the function that `IncomingMessages.PartsExact` pins part by part |
| IncomingMessages.PartsExact | gp/proto/Proto.cpp:464-477 | the messages are those of the recognised parts, in order, each with the id, the sequence number, the size and the body of its own part; the first part that cannot be read decides whether the container is lost by an exception or by a null dereference |
| IncomingMessages.AllRecognised | gp/proto/Proto.cpp:464-477 | when every part is recognised none is missing |
| IncomingMessages.TimestampIsSecond | gp/proto/Proto.cpp:462-462 | the timestamp is the id in seconds, truncated toward zero |
| IncomingMessages.PackedIsUnpacked | gp/proto/InternalParser.h:22-43 | a gzip-packed body is read as its content, once |
| IncomingMessages.ForeignSessionIsRefused | gp/proto/Proto.cpp:434-440 | a message of another session is a parse error, whatever it contains |
| IncomingMessages.PlainModeKnowsNoKey | gp/proto/Proto.cpp:411-417 | in plain mode a message that names a key is a parse error |
| IncomingMessages.HeaderReadBack | gp/proto/Proto.cpp:430-479 | session id, message id, sequence number and size are read back exactly as written |
| IncomingMessages.ContainerEndToEnd | gp/proto/Proto.cpp:1116-1178 | what dataForEncryptedContainer seals, the receiver opens and decodes into exactly the recognised parts, in order: id, sequence number, size and body of each, and the second of the container; one unreadable part loses all of them without a parse error |
| IncomingMessages.ServiceEndToEnd | gp/proto/Proto.cpp:401-488 | every service message but a container and an RPC result, in any of its wire forms, arrives sealed as itself, with the id, sequence number and size it was sealed under |
| IncomingMessages.DataForPlainMessage | gp/proto/Proto.cpp:1180-1189 | the bytes of a message in plain mode |
| IncomingMessages.PlainEndToEnd | gp/proto/Proto.cpp:401-488 | in plain mode a service message arrives with its id and sequence number 0, and a body of less than four bytes is a parse error |
| IncomingMessages.AcksEndToEnd | gp/proto/Proto.cpp:846-858 | a sealed acknowledgement arrives as the same ids |
| TcpConnections.TcpConnection.SendDatas | gpnet/gp/net/TcpConnection.cpp:37-89 | the bytes sent are the frames of the accepted packets; nothing is sent when closed |
| TcpConnections.AcceptedExact | gpnet/gp/net/TcpConnection.cpp:44-60 | exactly the non-empty packets in front of the first misaligned one are sent |
| TcpConnections.TcpConnection.FinalData | gpnet/gp/net/TcpConnection.cpp:61-84 | one packet as header and payload |
| TcpConnections.TcpConnection.NetworkSocketDidReadData | gpnet/gp/net/TcpConnection.cpp:137-184 | the next read, delivery or close for every tag and size, one close notice at most, also on a connection started again after a close |
| TcpConnections.TcpConnection.CloseAndNotify | gpnet/gp/net/TcpConnection.cpp:98-114 | closes once and notifies once |
| TcpConnections.TcpConnection.Start | gpnet/gp/net/TcpConnection.cpp:12-24 | the first read is requested once |
| TcpConnections.WireRoundTrip | gpnet/gp/net/TcpConnection.cpp:37-184 | what one sendDatas call puts on the wire is delivered as the packets it accepted, in order, exactly when all are below 4 MiB |
| TcpConnections.FramesExact | gpnet/gp/net/TcpConnection.cpp:137-184 | the same from any earlier delivery, for any list of packets whose lengths are positive multiples of four |
| TcpConnections.FramesRoundTrip | gpnet/gp/net/TcpConnection.cpp:137-184 | with any bytes behind the frames, the receiver is left at the start of those bytes |
| TcpConnections.FeedInPieces | gpnet/gp/net/TcpConnection.cpp:137-184 | how the stream is cut into pieces does not matter |
| TcpConnections.SteadyStep | gpnet/gp/net/TcpConnection.cpp:137-184 | while open and given exact reads there is always exactly one outstanding read, of the size its tag calls for |
| TcpConnections.RestartedStalls | gpnet/gp/net/TcpConnection.cpp:98-184 | a restarted connection keeps exactly one outstanding read if and only if the header it just read is not bad |
| TcpConnections.OversizedFrame | gpnet/gp/net/TcpConnection.cpp:164-174 | a packet of 4 MiB or more is never delivered whole |
| TcpConnections.DeliveriesAreFinal | gpnet/gp/net/TcpConnection.cpp:176-182 | more input never changes what was delivered |
| Common.Base64Encode | gputils/gp/utils/Common.cpp:127-152 | the array holds the base64 form, of length four times the number of triples rounded up, with padding fixed by the length modulo three |
| Common.StoreAll | gputils/gp/utils/Common.cpp:134-146 | the main loop stores the symbols of every triple, the last one filled up with zeros |
| Common.Base64Decode | gputils/gp/utils/Common.cpp:155-185 | null for a length that is no multiple of four, otherwise as many bytes as the padding leaves; within the alphabet, the decoded ones |
| Common.BuildDecodingTable | gputils/gp/utils/Common.cpp:114-120 | the table inverts the alphabet |
| Common.RoundTrip | gputils/gp/utils/Common.cpp:127-185 | decoding undoes encoding for every non-empty byte string (section 4 of RFC 4648) |
| Common.SymbolsAreTheAlphabet | gputils/gp/utils/Common.cpp:102-112 | the sixty-four symbols are the alphabet of section 4 of RFC 4648, in order |
| Common.GroupInverse | gputils/gp/utils/Common.cpp:140-181 | four symbols and three bytes determine each other |
| Common.ByteSwapUInt64 | gputils/gp/utils/Common.cpp:50-65 | the bytes of the result are those of the argument in reverse |
| DispatchQueues.Reachable | gputils/gp/utils/DispatchQueue.cpp:40-107 | the queue invariant holds in every reachable state of every interleaving of producers and worker |
| DispatchQueues.FirstInFirstOut | gputils/gp/utils/DispatchQueue.cpp:63-103 | started jobs, then the jobs taken over, then the waiting ones are exactly the jobs in the order they took the mutex |
| DispatchQueues.NoLostWakeUp | gputils/gp/utils/DispatchQueue.cpp:83-106 | if the worker is blocked while jobs wait, as many producers are still between push and notify |
| DispatchQueues.SyncReturnsAfterJob | gputils/gp/utils/DispatchQueue.cpp:40-61 | sync returns only after its own job ran to completion |
| DispatchQueues.DrainCompletes | gputils/gp/utils/DispatchQueue.cpp:83-106 | once all producers have notified, the worker left alone runs every job, blocks idle, and every waiting sync caller can return |
| DispatchQueues.DispatchQueue.EmplaceBack | gputils/gp/utils/DispatchQueue.cpp:47-54 | the critical section of a producer is the push step |
| DispatchQueues.DispatchQueue.NotifyWorker | gputils/gp/utils/DispatchQueue.cpp:56-56 | the producer's notify step, after its push |
| DispatchQueues.DispatchQueue.SyncWait | gputils/gp/utils/DispatchQueue.cpp:58-60 | a sync caller returns only on the signal of its own job |
| DispatchQueues.DispatchQueue.MoveJobs | gputils/gp/utils/DispatchQueue.cpp:84-90 | the critical section of the worker is the swap step |
| DispatchQueues.DispatchQueue.BeginWork | gputils/gp/utils/DispatchQueue.cpp:94-97 | the front job of the worker's deque starts |
| DispatchQueues.DispatchQueue.EndWork | gputils/gp/utils/DispatchQueue.cpp:97-97 | the started job completes |
| DispatchQueues.DispatchQueue.PopFront | gputils/gp/utils/DispatchQueue.cpp:102-102 | the completed job leaves the worker's deque |
| DispatchQueues.DispatchQueue.SignalSyncCaller | gputils/gp/utils/DispatchQueue.cpp:99-100 | signals the caller of the job that just ran, if it has one |
| DispatchQueues.DispatchQueue.Wait | gputils/gp/utils/Semaphore.h:25-33 | waiting takes one unit of a positive count |
| ClientSyncs.Reachable | gp/proto/ClientSync.cpp:184-208 | queue length is semaphore count plus threads between their two steps; results come in push order; the empty-queue exit is unreachable |
| ClientSyncs.NullIsWakeUp | gp/proto/ClientSync.cpp:260-263 | the k-th result is the k-th event pushed, so a null result is exactly a wake-up event |
| ClientSyncs.NoEventStranded | gp/proto/ClientSync.cpp:184-208 | a blocked reader leaves no event that another thread is not about to announce or take |
| ClientSyncs.ClientSync.PushUnderLock | gp/proto/ClientSync.cpp:185-190 | the first half of push_back is the enqueue step |
| ClientSyncs.ClientSync.SemaphoreNotify | gp/proto/ClientSync.cpp:191-191 | the second half announces the event |
| ClientSyncs.ClientSync.SemaphoreWait | gp/proto/ClientSync.cpp:195-195 | the first half of pop_front takes one announcement |
| ClientSyncs.ClientSync.PopUnderLock | gp/proto/ClientSync.cpp:196-207 | the second half of pop_front is the dequeue step and never takes the empty exit |
| RequestPasses.Reachable | gp/proto/Proto.cpp:608-637 | the flag is set exactly when one unstarted pass is queued, and exactly when a handled request is not yet served |
| RequestPasses.RequestIsServed | gp/proto/Proto.cpp:608-637 | every handled request is followed by a pass that starts later, as soon as the jobs ahead are taken |
| RequestPasses.Coalescer.HandleRequest | gp/network/TcpTransport.cpp:93-108 | the handler is the coalescing step |
| RequestPasses.Coalescer.RunNext | gp/proto/Proto.cpp:617-622 | the worker takes the next job; a pass clears the flag before it starts |
| AuthKeyInfos.AuthKeyInfo.AuthSaltForClientMessageId | gp/proto/AuthKeyInfo.cpp:53-81 | returns the first covering salt and leaves exactly the salts from it on, or nothing at all |
| AuthKeyInfos.AuthKeyInfo.MergeSaltset | gp/proto/AuthKeyInfo.cpp:13-47 | computes the merge function |
| AuthKeyInfos.LookUpExact | gp/proto/AuthKeyInfo.cpp:53-81 | a look-up drops exactly the salts in front of the first one whose interval holds the id and returns that one; without one it drops all and returns 0 |
| AuthKeyInfos.PruningIsSound | gp/proto/AuthKeyInfo.cpp:53-81 | on a sorted list and non-decreasing ids the pruning look-up agrees with a search of the original list if and only if every earlier id was covered or the original search fails too |
| AuthKeyInfos.PruneOnce | gp/proto/AuthKeyInfo.cpp:53-81 | one successful look-up changes no later search |
| AuthKeyInfos.MissLosesFutureSalt | gp/proto/AuthKeyInfo.cpp:59-76 | an id between two intervals loses the salt that is not yet valid |
| AuthKeyInfos.MergeIsConservative | gp/proto/AuthKeyInfo.cpp:13-47 | keeps every unexpired old salt in order as a prefix, adds only unexpired new ones, represents every unexpired validity start, keeps starts distinct |
| AuthKeyInfos.MergeSortedExactly | gp/proto/AuthKeyInfo.cpp:13-47 | merging two sorted lists gives a sorted one if and only if no unexpired update with a new validity start begins before an unexpired old salt |
| AuthKeyInfos.MergeThenPrune | gp/proto/AuthKeyInfo.cpp:13-81 | after a merge that meets this condition the pruning look-up agrees with a search of the merged list, under the condition of PruningIsSound |
| AuthKeyInfos.MergeCanUnsort | gp/proto/AuthKeyInfo.cpp:27-44 | a witness: two sorted lists whose merge is not sorted |
| Runloops.Runloop.ScheduleTimer | gputils/gp/utils/Runloop.cpp:20-51 | inserts before the first entry of no smaller target unless the timer is queued already, and starts a chain of ticks |
| Runloops.Runloop.InvalidateTimer | gputils/gp/utils/Runloop.cpp:53-64 | removes exactly that timer |
| Runloops.Runloop.RunTick | gputils/gp/utils/Runloop.cpp:71-103 | one tick: reset on an empty queue, at most one dispatch, the chain goes on |
| Runloops.Reachable | gputils/gp/utils/Runloop.cpp:20-105 | over every run the queue is sorted by target with distinct timers, a tick is pending whenever it is non-empty, and nothing was dispatched before its target |
| Runloops.DeadlineStep | gputils/gp/utils/Runloop.cpp:20-105 | no step moves the deadline of an undisturbed timer back |
| Runloops.DispatchedInTime | gputils/gp/utils/Runloop.cpp:66-105 | a timer with j timers ahead is dispatched by tick max(target, ticks + 1) + j, unless it is invalidated or overtaken |
| Runloops.ScheduledIsDispatchedOnTime | gputils/gp/utils/Runloop.cpp:20-105 | over every continuation that neither invalidates nor overtakes it, a timer scheduled behind j earlier ones is dispatched under the target of its timeout, no sooner, and within j ticks of it |
| Runloops.InvalidatedIsNotDispatched | gputils/gp/utils/Runloop.cpp:53-64 | an invalidated timer is never dispatched until it is scheduled again |
| Runloops.NotQueuedIsNotDispatched | gputils/gp/utils/Runloop.cpp:66-105 | a timer that is not queued is never dispatched until it is scheduled |
| Runloops.EventuallyDispatched | gputils/gp/utils/Runloop.cpp:66-105 | that many ticks force the dispatch |
| Sessions.Session.GenerateClientMessageId | gp/proto/Session.cpp:11-27 | the next multiple of four for the clock, one past a repeated id, and the report |
| Sessions.Session.GenerateClientSeqNo | gp/proto/Session.cpp:29-42 | the sequence number and the new counter |
| Sessions.Session.MarkProcessed | gp/proto/Session.cpp:44-51 | tells a duplicate and remembers the id |
| Sessions.Session.AddContainerMessageIdMapping | gp/proto/Session.cpp:85-96 | what messageIdsInContainer finds afterwards |
| Sessions.IdsIncreaseUntilReported | gp/proto/Session.cpp:11-27 | over a session, ids are multiples of four and strictly increasing if and only if no call reported a violation |
| Sessions.IdGrowsUnlessReported | gp/proto/Session.cpp:11-27 | one id exceeds the last one if and only if nothing is reported |
| Sessions.ReportedOnAdvance | gp/proto/Session.cpp:11-27 | a reading not below the previous one is reported if and only if it has not reached the id issued for that one, which lies at most four units ahead |
| Sessions.SpacedReadingsAreNeverReported | gp/proto/Session.cpp:11-27 | over a session that starts at or above the last id, readings at least four units apart are never reported |
| Sessions.ReportedWithoutRegression | gp/proto/Session.cpp:15-24 | a witness: the readings 1 and 2 are reported |
| Sessions.SeqNoRule | gp/proto/Session.cpp:29-42 | each number of one session object is twice the content messages so far plus one for a content message ("Message Sequence Number" of the MTProto "Mobile Protocol: Detailed Description"); the passes and sessions follow in Numberings |
| Sessions.Session.ScheduleMessageConfirmation | gp/proto/Session.cpp:53-66 | adds an id unless it is pending already |
| Sessions.ScheduleExact | gp/proto/Session.cpp:53-66 | a new id is listed last with its size and no transport, a pending one changes nothing, ids stay distinct |
| Sessions.Session.AssignTransactionId | gp/proto/Session.cpp:109-121 | marks exactly the listed pending confirmations with the transaction |
| Sessions.Session.RemoveScheduledConfirmationWithTransactionId | gp/proto/Session.cpp:123-136 | removes exactly the marked confirmations, keeping order |
| Sessions.RemoveWithExact | gp/proto/Session.cpp:123-136 | a confirmation survives exactly when it does not carry the transaction |
| Sessions.RemoveWithInOrder | gp/proto/Session.cpp:123-136 | removal decides each confirmation on its own and keeps their order |
| RequestMessageServices.RequestMessageService.ProtoMessageTransaction | gp/proto/RequestMessageService.cpp:129-158 | the loop selects what the selection function selects, with ids, sequence numbers and the initialisation flag |
| RequestMessageServices.RequestMessageService.TransactionPrepared | gp/proto/RequestMessageService.cpp:159-179 | exactly the carried and prepared requests start waiting, under the prepared id and sequence number |
| RequestMessageServices.RequestMessageService.TransactionFailed | gp/proto/RequestMessageService.cpp:179-190 | exactly the carried requests stop waiting |
| RequestMessageServices.RequestMessageService.TransactionCompleted | gp/proto/RequestMessageService.cpp:190-217 | every request stops waiting; the carried ones with both maps filled take the transport's id |
| RequestMessageServices.RequestMessageService.ProtoDidReceiveMessage | gp/proto/RequestMessageService.cpp:22-51 | the first request with that message id is removed and told of its error, its data or nothing; `ReplyRouting.RepliesReachTheirRequest` and `RequestMessageServices.ClassifyExact` say which and to whom |
| RequestMessageServices.ClassifyExact | gp/proto/RequestMessageService.cpp:32-45 | the written form of an rpc_error, whatever is behind it, is reported as that code and description; every other service message is swallowed; bytes with no signature of the parser are handed over, unpacked when they are packed; fewer than four bytes let the parser's exception escape |
| RequestMessageServices.CancelledIsGone | gp/proto/RequestMessageService.cpp:270-287 | cancelling removes exactly the first request with that id, which is the only one when ids are distinct, and tells the application nothing |
| RequestMessageServices.RequestMessageService.ProtoTransactionsMayHaveFailed | gp/proto/RequestMessageService.cpp:53-67 | exactly the requests on those transactions forget their context |
| RequestMessageServices.RequestMessageService.ProtoAllTransactionsMayHaveFailed | gp/proto/RequestMessageService.cpp:69-83 | every request forgets its context |
| RequestMessageServices.RequestMessageService.ProtoMessageDeliveryFailed | gp/proto/RequestMessageService.cpp:85-98 | exactly the requests sent as that message forget their context; a new pass is asked for if there was one |
| RequestMessageServices.RequestMessageService.ProtoMessagesDeliveryConfirmed | gp/proto/RequestMessageService.cpp:100-111 | exactly the requests sent as those messages are delivered |
| RequestMessageServices.RequestMessageService.ProtoDidChangeSession | gp/proto/RequestMessageService.cpp:220-231 | every request forgets its context, the API is to be initialised again, and a new pass is asked for if a request is listed |
| RequestMessageServices.RequestMessageService.CancelRequest | gp/proto/RequestMessageService.cpp:270-287 | removes the first request with that id |
| RequestMessageServices.RequestMessageService.AddRequest | gp/proto/RequestMessageService.cpp:259-268 | appends the request without a context |
| RequestMessageServices.RequestMessageService.ProtoConnectionStateChanged | gp/proto/RequestMessageService.cpp:247-249 | the API is to be initialised again and nothing else changes |
| Protos.Proto.Prepare | gp/proto/Proto.cpp:889-917 | the preparation loop computes the preparation function, each fresh message numbered under its own confirmation flag; `Numberings.PassNumbersByTheRule` and `ReplyRouting.PrepareIsFaithful` say what that function gives each message |
| Protos.Proto.PreparePass | gp/proto/Proto.cpp:835-920 | collects the transactions, prepares them and runs the prepared callbacks |
| Protos.Proto.TransportReadyForTransaction | gp/proto/Proto.cpp:816-1014 | one pass: aborted exactly on a report or without a salt, a container exactly in encrypted mode for two messages or more, its id and number, and the new state of session, service and transport |
| Protos.Proto.RegisterContainer | gp/proto/Proto.cpp:1143-1151 | issues the container an id, without looking at the report, and a number that is not content-related, and maps the id to its messages |
| Protos.Proto.TransactionOutcome | gp/proto/Proto.cpp:975-998 | the outcome closure of one transaction |
| ProtoTransactions.RequestsAreConserved | gp/proto/RequestMessageService.cpp:22-287 | over every run of adds, passes, outcomes, notices, responses and cancels, each added request is listed or was removed once, and had at most one completion or failure, only by being removed |
| ProtoTransactions.NoRequestIsStranded | gp/proto/RequestMessageService.cpp:129-218 | over every run, when nothing is in flight every listed request is selectable, delivered, or carries a transport id |
| ProtoTransactions.OutcomeReleases | gp/proto/Proto.cpp:977-996 | right after a transaction's outcome no listed request it carried waits, whatever else is in flight |
| ProtoTransactions.AbortReleases | gp/proto/Proto.cpp:922-942 | an aborted pass leaves nothing waiting and nothing in flight of its own |
| ReplyRouting.RepliesReachTheirRequest | gp/proto/RequestMessageService.cpp:27-48 | over every run with prompt outcomes, as long as no pass of the session reused an id, no two listed requests share a message id, and a reply removes exactly the request prepared under the id it answers and tells the application exactly its data, its error, or nothing for any other service message, whatever was reported or ignored |
| ReplyRouting.PassKeepsIdsApart | gp/proto/Proto.cpp:889-920 | any pass keeps the ids of the session's requests apart if and only if it gives no request a fresh id that another request of the session has, nor two requests the same one; the fresh ids are determined by the counters and the clock readings |
| ReplyRouting.UnreportedPassKeepsIdsApart | gp/proto/Proto.cpp:889-920 | for a pass that reports nothing, and for every pass in encrypted mode, only the ids of older requests matter |
| ReplyRouting.IdsStayApartExactly | gp/proto/Proto.cpp:799-1014 | over any run, ids belong to one request throughout if and only if no pass reuses one |
| ReplyRouting.LateReadingsNeverReuse | gp/proto/Session.cpp:11-27 | a pass whose clock readings are above every id of the session's requests reuses none |
| ReplyRouting.RepliesReachWhileClockAhead | gp/proto/RequestMessageService.cpp:27-48 | while every reading of the session, the ignored ones included, was at least the last id issued, replies reach their requests |
| ReplyRouting.PromptIsQuiet | gp/network/TcpTransport.cpp:207-224 | when each outcome follows its pass at once, no session is replaced while a transaction is in flight |
| DroppedReports.DroppedReportMisroutes | gp/proto/Proto.cpp:1144-1146 | a run without a reset, with prompt outcomes and without a report in any pass, after which the reply to one request removes another, because the report of a container's id is ignored |
| ReplyRouting.FailedIsResentUnderSameId | gp/proto/RequestMessageService.cpp:136-158 | a request whose transaction failed in transit is selected again under the id and sequence number it had |
| Resendings.SentAgainExactly | gp/proto/RequestMessageService.cpp:53-257 | for every step: the next pass carries a request that is delivered or with the transport if and only if the step was a notice for its transaction or its message, the loss of all contexts, or the success of its transaction without an id |
| Resendings.NotSentTwice | gp/proto/RequestMessageService.cpp:100-218 | over every run: once its message is confirmed, or its transaction succeeded, no later pass carries the request until one of those steps comes |
| ReplyRouting.PreparedIsNotSelectedAgain | gp/proto/RequestMessageService.cpp:159-178 | after a pass that is not aborted every request it prepared waits and is not selectable |
| Resendings.OutcomeIsExact | gp/proto/RequestMessageService.cpp:179-217 | a failure ends the wait of exactly the requests the transaction carried; a success ends every wait, also of requests other transactions carry, and gives exactly the ones it prepared the transport's id, with the id, number and initialisation they were sent with |
| RequestMessageServices.NoticesForgetExactly | gp/proto/RequestMessageService.cpp:53-98 | each failure notice makes exactly the requests it names selectable again and leaves the others as they are |
| RequestMessageServices.ConfirmedExactly | gp/proto/RequestMessageService.cpp:100-111 | a confirmation takes exactly the requests it names out of the selection and changes nothing else |
| Resendings.ReinitializedOnce | gp/proto/RequestMessageService.cpp:129-158 | after a change of connection or session the next pass that carries requests initialises the API with its first message and spends the flag; nothing before it does |
| RequestMessageServices.InitializationIsSpentOnce | gp/proto/RequestMessageService.cpp:136-158 | within one selection the flag goes to the first message, is spent by it, and is what the outcome remembers |
| ReplyRouting.SelectIsFaithful | gp/proto/RequestMessageService.cpp:136-158 | a transaction carries exactly the selectable requests, one to one, each under its own known id |
| ReplyRouting.PrepareIsFaithful | gp/proto/Proto.cpp:889-917 | while nothing is reported, every message is prepared, known ids are kept, fresh ones lie above the last id and grow along the payload |
| ReplyRouting.ContainerIdExceedsContents | gp/proto/Proto.cpp:1146-1151 | in a pass that reports nothing, every carried id, fresh or old, is at most the last id issued, and the container's id exceeds them all if and only if the clock is not behind once more |
| ReplyRouting.OrderIsThePayload | gp/proto/Proto.cpp:889-917 | in a pass that reports nothing a container holds every message, in the order of the payload |
| Numberings.PassNumbersByTheRule | gp/proto/Proto.cpp:889-917 | in every pass each prepared fresh message is numbered from the counter by twice the fresh content-related messages in front of it plus one if it is one, a known message keeps its number, and the counter ends at twice all of them, dropped ones included |
| Numberings.PassGivesOut | gp/proto/Proto.cpp:848-920 | what a pass numbers, in order: its fresh messages under their own flags, then a container, when it makes one, as not content-related |
| Numberings.SessionNumbersByTheRule | gp/proto/Session.cpp:29-42 | over every run, since the last reset every number given out (messages, containers, time fixes) follows the rule, the counter too, and every request sent carries the odd number it was given |
| Protos.Proto.ProcessIncomingMessage | gp/proto/Proto.cpp:500-606 | duplicate check, body kinds and confirmation scheduling; a pass is asked for exactly on a duplicate or above the threshold after scheduling, and so whenever an acknowledgement becomes due |
| Protos.Proto.BadMessageNotices | gp/proto/Proto.cpp:518-580 | a bad message makes exactly the requests sent as it, or as a message of the container it was, forget their context |
| Protos.Proto.PrepareAcks | gp/proto/Proto.cpp:841-872 | lists all pending ids exactly when forced or above the threshold, and clears the flag |
| Protos.Proto.AckTransactionCompleted | gp/proto/Proto.cpp:863-869 | the completion of an acknowledgement marks what it listed |
| Protos.Proto.TransportTransactionsSucceeded | gp/proto/Proto.cpp:1203-1208 | decoded data removes what the transport acknowledged |
| Confirmations.ReceivedOnceConfirmedOrPending | gp/proto/Proto.cpp:500-606 | over every run, within one session no message id reaches the services twice, no id is pending twice, and an id that was to be confirmed is pending until an acknowledgement completed in this session listed it |
| Confirmations.LeavesOnlyWhenAcknowledged | gp/proto/Session.cpp:123-136 | a pending confirmation leaves only when the session is replaced or data is decoded on a transport on which an acknowledgement completed in this session listed it |
| Confirmations.AcknowledgedThenDecoded | gp/proto/Proto.cpp:863-869 | over every run: an id whose acknowledgement completed on a transport is not pending after data was decoded there, unless the message itself came again in between, however many other transports carry it |
| Confirmations.ReplacementForgets | gp/proto/Proto.cpp:705-705 | over every run after a replacement, the services get exactly the service messages that come first since then, however often they came before |
| Confirmations.ReceptionIsExact | gp/proto/Proto.cpp:500-606 | over every run within a session, the services get exactly the service messages received for the first time, and exactly the repeated and the content-related ones are to be confirmed |
| Confirmations.AcknowledgedWhenDue | gp/proto/Proto.cpp:841-872 | a pass lists all pending ids, in order, exactly when more than two are pending or a repeated message came since the last list; a repeated message is in the next list |
| Protos.Proto.ResetSessionInfo | gp/proto/Proto.cpp:692-712 | the lock decides; a replacement starts with the given id, zero counters, no processed ids, no pending confirmations, no containers and no request contexts, and nothing changes otherwise |
| SessionResets.ReplacementsInASecond | gp/proto/Proto.cpp:692-705 | how many of any attempts within a second succeed, and that it is more than one exactly when an expired lock meets two attempts |
| SessionResets.BadMessageReactions | gp/proto/Proto.cpp:550-570 | the exact sequence of reactions to each error code, with the fall-through |
| DatacenterAuths.Step | gp/proto/DatacenterAuthMessageService.cpp:72-695 | every action keeps what each stage relies on |
| DatacenterAuths.SentAgainAfterCompletion | gp/proto/DatacenterAuthMessageService.cpp:129-170 | after its transaction completed, a stage's request is sent again if and only if the stage is key verification |
| DatacenterAuths.NothingNullIsSent | gp/proto/DatacenterAuthMessageService.cpp:79-175 | in every reachable state the fields the stage's message dereferences are set |
| DatacenterAuths.KeyAfterThreeReplies | gp/proto/DatacenterAuthMessageService.cpp:177-610 | the delegate is told of a key only after three accepted replies since the last reset, the first under a known fingerprint, all with one nonce and one server nonce; the key is the power b of the ga in the second, and the hash of the third covers the new nonce and that key |
| DatacenterAuths.ToldOncePerExchange | gp/proto/DatacenterAuthMessageService.cpp:563-573 | notices never outnumber restarts by more than one |
| DatacenterAuths.FactorsSentMultiply | gp/proto/DatacenterAuthMessageService.cpp:202-244 | over every run, from the first accepted reply on the two factors that are sent, read as big-endian numbers, multiply to that reply's number modulo 2^64, the smaller first |
| KeyAgreement.BothEndsShareTheKey | gp/proto/DatacenterAuthMessageService.cpp:299-512 | over every run, while the key is verified: the server decrypts the client's half under the temporary key to a hash, a text under that hash, and less than a block of filling; the text is 0x706fb308, nonce, server nonce, 0 and gb, field by field, with gb the power b of the accepted g in big-endian; and if the ga sent was the power a of that g, the power a of gb is the client's key |
| KeyAgreement.HonestExchangeCompletes | gp/proto/DatacenterAuthMessageService.cpp:177-610 | the replies of an honest server, in any wire form and with any filling, lead the client from the first reply to the notice of the key the server computes |
| KeyAgreement.EncryptedPqReadsBack | gp/proto/DatacenterAuthMessageService.cpp:248-285 | over every run: what was encrypted for the accepted fingerprint is a hash and a text under it, and the text is the server's number, the two factors and the three nonces in wire order |
| KeyAgreement.SentReadsBack | gp/proto/DatacenterAuthMessageService.cpp:72-175 | the bytes each stage sends are its signature and fields in wire order and nothing else, with the nonce kept once drawn |
| KeyAgreement.SecondReplyIsVerified | gp/proto/DatacenterAuthMessageService.cpp:299-430 | the second reply moves the exchange on only with inner data that was behind its own hash under the temporary key, carries both nonces, and has g from 2 to 7 |
| KeyAgreement.AnswerIsVerified | gp/proto/DatacenterAuthMessageService.cpp:376-393 | what the sixteen tries accept has the hash it was sent with and loses less than sixteen bytes |
| KeyAgreement.ForeignRepliesAreIgnored | gp/proto/DatacenterAuthMessageService.cpp:177-610 | in every stage a reply with another nonce or server nonce changes nothing |
| KeyAgreement.FirstRequestIsSentOnce | gp/proto/DatacenterAuthMessageService.cpp:79-112 | the first request is not repeated once it is prepared; a restart forgets the exchange and draws a new nonce |
| DatacenterAuths.VerifyAnswer | gp/proto/DatacenterAuthMessageService.cpp:376-393 | sixteen tries at the hash, on ever shorter data |
| DatacenterAuths.ReadPq | gp/proto/DatacenterAuthMessageService.cpp:202-208 | the server's big-endian number modulo 2^64 |
| DatacenterAuths.DatacenterAuthMessageService.ProtoMessageTransaction | gp/proto/DatacenterAuthMessageService.cpp:72-175 | needs no more than the invariant, sends the stage's bytes, draws a nonce only when there is none |
| DatacenterAuths.DatacenterAuthMessageService.MessagePrepared | gp/proto/DatacenterAuthMessageService.cpp:98-112 | registers the request of the first stage, once prepared, and of no other |
| DatacenterAuths.DatacenterAuthMessageService.TransactionCompleted | gp/proto/DatacenterAuthMessageService.cpp:131-169 | registers the request of the second stage, once completed, and of no other |
| DatacenterAuths.DatacenterAuthMessageService.ProtoDidReceiveMessage | gp/proto/DatacenterAuthMessageService.cpp:177-610 | one reception is one step of the state machine, other messages change nothing |
| DatacenterAuths.DatacenterAuthMessageService.HandleResPq | gp/proto/DatacenterAuthMessageService.cpp:182-295 | the first reply, with the factor the search found, which is one that FactorsSentMultiply asks for |
| DatacenterAuths.DatacenterAuthMessageService.HandleServerDhParams | gp/proto/DatacenterAuthMessageService.cpp:299-512 | the second reply: keys, decryption, hash, inner data or restart |
| DatacenterAuths.DatacenterAuthMessageService.HandleInner | gp/proto/DatacenterAuthMessageService.cpp:395-505 | the inner data: accepted, restarted, or an escaping parser exception that changes nothing; `KeyAgreement.BothEndsShareTheKey` says what the accepted branch sends |
| DatacenterAuths.DatacenterAuthMessageService.MakeAuthKey | gp/proto/DatacenterAuthMessageService.cpp:446-473 | the loops over bytes compute the shared key, its id and the first salt |
| DatacenterAuths.DatacenterAuthMessageService.MakeClientData | gp/proto/DatacenterAuthMessageService.cpp:475-498 | the loop fills the hashed data up to a whole block with single random bytes |
| DatacenterAuths.DatacenterAuthMessageService.HandleClientDhResponse | gp/proto/DatacenterAuthMessageService.cpp:516-608 | the third reply: told only on the matching hash, restarted on every other answer with the right nonces |
| DatacenterAuths.DatacenterAuthMessageService.ResetState | gp/proto/DatacenterAuthMessageService.cpp:673-695 | clears everything except the encrypted data of the previous attempt |

## Left out

- OpenSSL, zlib and BigNum bodies (SHA, AES, RSA, modular exponentiation, gzip): arbitrary functions with output sizes, and AES an inverse pair on whole blocks.
- Sockets, the native file system, keychain files, the JSON adapter, wrappers for other languages and application services: not modelled.
- The clock as a double: it is an integer in units of 2^-32 s, and time synchronisation averaging is left out. The reset lock uses real numbers of seconds, the timer queue whole ticks.
- Overflow of 64-bit message ids and of 32-bit sequence numbers, timer ticks and internal ids: these are unbounded integers.
- Destruction of a dispatch queue, thread start-up, smart-pointer lifetime, delegates that have gone away, and logging.
- Threads: a concurrent component is one method per critical section or semaphore operation, and the interleavings are runs of the step relation those methods are proved equal to. Spurious wake-ups are re-tests of the same guard and not steps of their own.
- Big-endian hosts: byte-order helpers are identities.
- The copy in sendDatas reads past its source; only the bytes that reach the socket are modelled.
- Base64 decoding of the empty string, the bytes decoded from characters outside the alphabet (their table entries are never set), and hexToData.
- RequestMessageServices.RequestMessageService.ProtoMessageTransaction: leaves out the payload bytes, with those that initialising the API puts before a request; the model keeps the flag that decides it.
- Protos.Proto.TransportReadyForTransaction: leaves out payload bytes, salts and expected-response flags (the envelope is modelled on its own), the transport and state guards before the pass, the transport's own transaction, and the time-fix message apart from the id it consumes; the salt look-up is an input of the pass.
- Protos.Proto.PreparePass: runs the prepared closure of the request service only; the messages of other services appear as fresh messages with arbitrary confirmation flags.
- Protos.Proto.TransactionOutcome: runs the closures of the request service only; that of the acknowledgement is AckTransactionCompleted.
- Protos.Proto.ProcessIncomingMessage: leaves out the reactions to bad messages (BadMessageReactions has those of the switch, BadMessageNotices the delivery notices; the comparison with the time-fix message is not modelled) and the confirmations by acknowledgement, which are actions of the request service's runs.
- Protos.Proto.ResetSessionInfo: leaves out the transport reset that follows; failure notices are actions of their own.
- InternalParserMethods.Parse: leaves out a failing allocation when a container claims a huge number of parts before any of them is read.
- IncomingMessages.ParseIncomingMessages: leaves out exceptions of the application's own parser, which is an arbitrary function here.
- The order std::sort gives a container: its comparator is always false, so preparation order is kept.
- Plain mode sends one payload per message, but the first outcome closure takes all callbacks with it: a transaction has one outcome.
- Requests and their contexts are values in the list: a context shared by two requests cannot occur in the code and is not expressible in the model.
- InputStreams.InputStream.ReadSlice: unguarded in the original; it asks for enough bytes, and every modelled caller has checked the size.
- ReplyRouting.RepliesReachTheirRequest: is about transports that report an outcome within its pass, as the only one of the repository does; `LateOutcomes.LateOutcomeMisroutes` shows what a transport that reports later would break.
- Crypto.PqFactorize: that a composite number is split is not claimed; it depends on the draws.
- KeyAgreement.BothEndsShareTheKey: reads gb back for 1 to 2^24 - 1 bytes, the lengths writeBytes can write.
- KeyAgreement.HonestExchangeCompletes: takes as given that the RSA encryption of the first stage succeeds.
- Sessions.SeqNoRule: is about one session's counter in isolation; PassNumbersByTheRule and SessionNumbersByTheRule are about what is sent.
- DatacenterAuths.KeyAfterThreeReplies: says nothing about outstanding requests, because the completion test of the last stage looks for the wrong stage. The validity times of the first salt are left out.
