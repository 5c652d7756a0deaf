# protocon-cpp: a verified model of the wire protocol and its endpoints

protocon-cpp links a gateway and its clients over a TCP connection with a
small binary protocol. This project models the core of that library:

- **Byte-order helpers.** `Util::IsBigEndian` and `Util::BigEndian`.
- **The gateway's connection.**
  - `Sender` writes tagged frames: request 0x00, response 0x80, sign-up
    0x01 and sign-in 0x02.
  - `Receiver` reads tagged frames: request 0x00, response 0x80, sign-up
    response 0x81 and sign-in response 0x82.
- **The client's connection.**
  - `Encoder` writes untagged frames. A response is told apart by bit
    0x8000 of its command id.
  - `Decoder` reads those frames back.
- **The thread-safe containers.** `ThreadSafeQueue` and
  `ThreadSafeUnorderedMap`.
- **The client and gateway bookkeeping.**
  - The client's `poll`, `send` and constructor.
  - The gateway's `createClientToken`, `clientId` and `nextCmdId`.

A socket is modelled as a `Connection`:

- What has been written, and how many more bytes the peer accepts before
  the connection breaks.
- The bytes still to be read.

`write_n` and `read_n` transfer all of their bytes or fail. Every multi-byte
field crosses the connection in network order (big-endian). `ByteOrder`
stands for the host's byte order: the code that converts fields by hand is
modelled on the host's in-memory layout. The proofs hold for both byte orders.

Each module has a layer of pure functions and a layer of methods:

- **The pure layer** states the wire formats.
  - `TaggedCodec` gives the gateway frames as chunk lists, plus parsers that
    read them back.
  - `UntaggedCodec` does the same for the client frames.
  - `Socket.Transmit` is a run of writes that ends at the first failed write.
- **The methods** make the C++ socket calls field by field.
  - Each call is made one field at a time, with its early return.
  - Where the C++ has a bug, the methods implement the corrected program
    listed under "## Findings". The `*AsWritten` functions give the frames
    and reads of the code as written, and lemmas relate the two.
  - `Receiver::run` is a `while` loop over the queues, which are classes (`Receivers.Receiver.Run`). One cycle of `Sender::run` is `Senders.Sender.RunTurn`.
- **The link between them.** Each method's postcondition is the pure
  function. Round trips, prefix-freeness, error cases and the loops'
  invariants are proved about the functions.

The clock is a parameter `now`. Where the code reads the clock, the model
takes `now` as the value read.

## Model

| member | source | states |
|---|---|---|
| Util.IsBigEndian | src/Util.h:28-35 | The probe of 0x01020304 through a byte view answers true exactly on a big-endian host |
| Util.BigEndian | src/Util.h:37-53 | The converted value's in-memory bytes are the value's network-order bytes; on a big-endian host the value is unchanged |
| Util.BigEndianInvolution | src/Util.h:37-53 | Converting twice gives back the value, so the conversion is its own inverse on every host |
| Util.ByteSwap | src/Util.h:37-53 | bswap of an n-byte value has the reversed network-order bytes |
| Util.Swap16 | src/Util.h:37-41 | On a little-endian host the 16-bit conversion exchanges the two bytes |
| Util.Swap64 | src/Util.h:49-53 | On a little-endian host byte i of the converted 64-bit value is byte 7-i of the original |
| Util.FromMemory | src/Receiver.h:94-96 | The value a read fills in from n bytes is below 256^n and lies in memory as exactly those bytes |
| Util.LoadField | src/Receiver.h:106-108 | A field read into memory and then converted is the network-order reading of the received bytes |
| Util.FromToBE | src/Sender.h:93-96 | Decoding the network-order bytes of a value gives back the value |
| Util.ToFromBE | src/Receiver.h:106-108 | Encoding the decoded value of any byte string gives back the same bytes |
| Util.ToBEInjective | src/Sender.h:74-75 | Distinct values of one width have distinct network-order bytes |
| Socket.Connection.WriteN | src/Sender.h:63-66 | write_n writes all n bytes and returns n, or writes nothing and returns -1 when the peer accepts fewer |
| Socket.Connection.ReadN | src/Receiver.h:73-82 | A read takes exactly n bytes off the input, or fails and leaves the input as it was |
| Socket.Transmit | src/Sender.h:68-101 | A run of writes with early return never sends more than the connection accepts |
| Socket.TransmitSucceeds | src/Sender.h:63-66 | A run of writes succeeds iff all its bytes fit and no write that fails on 0 bytes has 0 bytes; then exactly the concatenation is sent |
| Socket.TransmitStopsAt | src/Sender.h:68-101 | When write k is the first to fail, the run fails after sending exactly the writes before k |
| Socket.LastWriteEmpty | src/Sender.h:98 | A run whose last write is an empty payload through `write` fails after every other byte has been sent |
| Socket.FlattenAppend | src/Sender.h:68-101 | The bytes of two runs of writes are the bytes of the first followed by those of the second |
| Socket.ReadBytes | src/Receiver.h:73-82 | Reading n bytes succeeds iff n bytes are left, and splits the input into those n bytes and the rest |
| Queues.Queue.Empty | src/ThreadSafeQueue.h:13-16 | Answers true exactly when the queue holds no item |
| Queues.Queue.Emplace | src/ThreadSafeQueue.h:18-22 | Adds the item at the back and changes nothing else |
| Queues.Queue.Pop | src/ThreadSafeQueue.h:24-29 | Returns the front item and removes it; the rest stays in order |
| UnorderedMaps.Emplaced | src/ThreadSafeUnorderedMap.h:13-16 | Emplacing adds the key and keeps every existing binding; only an absent key gets the new value |
| UnorderedMaps.UnorderedMap.Emplace | src/ThreadSafeUnorderedMap.h:13-16 | The map afterwards is `Emplaced` of the map before |
| UnorderedMaps.UnorderedMap.Erase | src/ThreadSafeUnorderedMap.h:18-21 | The key is gone and every other key keeps its presence and value |
| UnorderedMaps.UnorderedMap.At | src/ThreadSafeUnorderedMap.h:23-26 | Returns the bound value, or None (the out_of_range error) when the key is absent |
| TaggedCodec.Length32 | src/Sender.h:93 | The 32-bit length field never exceeds the payload's length and equals it below 2^32 |
| TaggedCodec.SignUpFrame | src/Sender.h:127-138 | send(RawSignUpRequest) puts tag 0x01, cmdId and gatewayId on the wire, 11 bytes, and no write can fail for being empty |
| TaggedCodec.SignInFrame | src/Sender.h:140-154 | send(RawSignInRequest) puts tag 0x02, cmdId, gatewayId and clientId on the wire, 19 bytes |
| TaggedCodec.ReadField | src/Receiver.h:106-108 | Reading an n-byte field succeeds iff n bytes are left; the value is below 256^n and the rest is what follows |
| TaggedCodec.ReadPayload | src/Receiver.h:110 | Reading a payload of `length` bytes succeeds iff the bytes are there and the policy admits it: as written, not 0 bytes; with the buffer check, at most 1024; the payload is then the next `length` bytes |
| TaggedCodec.ParseFrame | src/Receiver.h:38-57 | One iteration of the reader loop that yields a frame consumes at least the tag and the cmdId |
| TaggedCodec.ParseFrameOf | src/Receiver.h:38-181 | A frame the policy admits, followed by anything, is decoded as that frame with the rest left over |
| TaggedCodec.ParsedFrame | src/Receiver.h:38-181 | Whatever decodes is an admitted frame laid out at the front of the input |
| TaggedCodec.ParseFrameExactly | src/Receiver.h:38-181 | Decoding yields frame f with rest r iff f is admitted and the input is f's bytes followed by r |
| TaggedCodec.FrameSize | src/Receiver.h:84-181 | A frame is 35, 16, 12 or 4 bytes plus its payload for a request, response, sign-up response or sign-in response |
| TaggedCodec.UnknownTagStops | src/Receiver.h:54-57 | An unknown tag ends the loop after its cmdId is read |
| TaggedCodec.FramesPrefixFree | src/Receiver.h:38-181 | No admitted frame's bytes are a proper prefix of another's; equal bytes mean equal frames |
| TaggedCodec.TruncatedFrameStops | src/Receiver.h:73-82 | A frame cut short anywhere is never decoded |
| TaggedCodec.PayloadPolicies | src/Receiver.h:81 | As written, an empty payload stops the reader; with the buffer check, a payload over 1024 bytes is refused and all others decode |
| TaggedCodec.SendRequestOutcome | src/Sender.h:68-101 | The corrected send succeeds iff the connection takes 35+length bytes, and then sends exactly the request's frame |
| TaggedCodec.RequestRoundTrip | src/Sender.h:68-101 | A request sent by the corrected writer is read back by receiveRequest with every field equal and the time set to the send time |
| TaggedCodec.ResponseRoundTrip | src/Sender.h:103-125 | A response sent by the corrected writer is read back by receiveResponse unchanged, with the time set to the send time |
| TaggedCodec.RequestFrameAsWritten | src/Sender.h:68-101 | The writer as written puts an indeterminate gatewayId in the frame, and its writes cannot all succeed on an empty payload |
| TaggedCodec.ResponseFrameAsWritten | src/Sender.h:103-125 | The writer as written puts the host's in-memory time on the wire |
| TaggedCodec.GatewayIdNotForwarded | src/Sender.h:77 | As written, the receiver sees the indeterminate gatewayId, not the request's own |
| TaggedCodec.EmptyRequestPayloadFails | src/Sender.h:98 | As written, a request with an empty payload sends the whole frame and then reports failure; the corrected send succeeds |
| TaggedCodec.ResponseTimeByteSwapped | src/Sender.h:112-113 | As written on a little-endian host, time 1 is read back as 2^56 |
| TaggedCodec.ResponseWithTimeReadBack | src/Receiver.h:126-150 | A response frame carrying any time value is read back with that time |
| Transfer.Converted | src/Util.h:37-53 | Converting and taking the in-memory bytes yields the network-order bytes of the value |
| Transfer.LengthField | src/Sender.h:93-96 | The length is converted for the write and converted back to the original value |
| Transfer.Put | src/Sender.h:63-66 | One write succeeds exactly as `Transmit` predicts, and a failure ends the run in the state `Transmit` gives |
| Transfer.LoadByte | src/Receiver.h:39-40 | Reading one byte does what `ReadU8` does to the input |
| Transfer.Load | src/Receiver.h:42-44 | Reading and converting an n-byte field does what `ReadField` does to the input |
| Transfer.LoadPayload | src/Receiver.h:110 | Reading the payload into the 1024-byte buffer does what the checked `ReadPayload` does, and the buffer's first `length` bytes are the payload |
| Transfer.LoadLengthPrefixed | src/Receiver.h:135-139 | Reading a length and then that many bytes does what the corrected `ReadLengthPrefixed` does: over 1024 bytes is refused, an empty payload is read |
| Senders.Deliver | src/Sender.h:35-45 | Sending a frame appends what `Transmit` sends, uses up that much of the connection, and touches no queue |
| Senders.RequestStep | src/Sender.h:35-36 | Only the request queue changes, losing its front; an empty queue leaves everything alone |
| Senders.ResponseStep | src/Sender.h:38-39 | Only the response queue changes, losing its front; an empty queue leaves everything alone |
| Senders.SignUpStep | src/Sender.h:41-42 | Only the sign-up queue changes, losing its front |
| Senders.SignInStep | src/Sender.h:44-45 | Only the sign-in queue changes, losing its front |
| Senders.Turn | src/Sender.h:34-48 | Each queue loses at most its front, and a queue is popped only after every earlier queue was popped or empty; a turn that succeeds pops every non-empty queue |
| Senders.TurnDelivers | src/Sender.h:34-48 | When the connection takes everything, every non-empty queue loses its front and the four frames go out in order request, response, sign-up, sign-in |
| Senders.RequestFailureEndsTurn | src/Sender.h:35-36 | When the front request does not fit, the turn fails, the request is lost, and the other queues are untouched |
| Senders.ResponseFailureEndsTurn | src/Sender.h:38-39 | When the request step goes through and the front response does not fit, the turn fails, the response is lost, and the sign-up and sign-in queues are untouched |
| Senders.SignUpFailureEndsTurn | src/Sender.h:41-42 | When the request and response steps go through and the front sign-up request does not fit, the turn fails, that request is lost, and the sign-in queue is untouched |
| Senders.SignInFailureEndsTurn | src/Sender.h:44-45 | When the first three steps go through and the front sign-in request does not fit, the turn fails with every queue popped |
| Senders.RequestWrites | src/Sender.h:68-101 | The nine writes of the corrected send(RawRequest), in the code's order, are the request's chunk list |
| Senders.ResponseWrites | src/Sender.h:103-125 | The six writes of the corrected send(RawResponse) are the response's chunk list |
| Senders.SignUpWrites | src/Sender.h:127-138 | The three writes of send(RawSignUpRequest) are its chunk list |
| Senders.SignInWrites | src/Sender.h:140-154 | The four writes of send(RawSignInRequest) are its chunk list |
| Senders.Sender.SendRequest | src/Sender.h:68-101 | The corrected field-by-field send ends in the state `Transmit` gives for the request's writes |
| Senders.Sender.SendResponse | src/Sender.h:103-125 | The corrected field-by-field send ends in the state `Transmit` gives for the response's writes |
| Senders.Sender.SendSignUp | src/Sender.h:127-138 | The field-by-field send ends in the state `Transmit` gives for the sign-up writes |
| Senders.Sender.SendSignIn | src/Sender.h:140-154 | The field-by-field send ends in the state `Transmit` gives for the sign-in writes |
| Senders.Sender.PumpRequest | src/Sender.h:35-36 | Popping and sending the front request with the corrected send does what `RequestStep` does |
| Senders.Sender.PumpResponse | src/Sender.h:38-39 | Popping and sending the front response with the corrected send does what `ResponseStep` does |
| Senders.Sender.PumpSignUp | src/Sender.h:41-42 | Popping and sending the front sign-up request does what `SignUpStep` does |
| Senders.Sender.PumpSignIn | src/Sender.h:44-45 | Popping and sending the front sign-in request does what `SignInStep` does |
| Senders.Sender.RunTurn | src/Sender.h:34-48 | One turn of the writer loop, with the corrected request and response sends, does what `Turn` does to the queues and the connection |
| Receivers.Route | src/Receiver.h:112-178 | A decoded frame goes to the back of its own queue, and the other three queues are unchanged |
| Receivers.SortedStep | src/Receiver.h:38-58 | Routing frames one by one is sorting them by kind, each queue in arrival order |
| Receivers.StreamAfterFrame | src/Receiver.h:38-58 | After a decoded frame the loop goes on with the rest of the input |
| Receivers.StreamStops | src/Receiver.h:38-58 | The first failed read ends the loop where it stopped, with no frame decoded |
| Receivers.StreamOfFrames | src/Receiver.h:38-58 | Admitted frames sent back to back are all decoded in order, then the loop goes on with what follows |
| Receivers.StreamRoundTrip | src/Receiver.h:38-58 | A stream of admitted frames decodes to exactly those frames and ends on a short read with nothing left over |
| Receivers.StreamDecodesPrefix | src/Receiver.h:38-58 | Whatever the loop decodes is a run of admitted frames laid out whole at the front of the input |
| Receivers.UnknownTagEndsStream | src/Receiver.h:54-57 | An unknown tag after some frames ends the loop with exactly those frames decoded |
| Receivers.TruncatedFrameNotDelivered | src/Receiver.h:38-58 | A frame cut short at the end of the stream is never handed on |
| Receivers.Receiver.ReceiveRequestFields | src/Receiver.h:94-123 | Reading time, apiVersion, type, length and payload does what the corrected `ParseRequestFields` does, and queues the request on success |
| Receivers.Receiver.ReceiveRequest | src/Receiver.h:84-124 | receiveRequest does what the corrected `ParseRequestBody` does and queues the request only on success |
| Receivers.Receiver.ReceiveResponse | src/Receiver.h:126-150 | receiveResponse does what the corrected `ParseResponseBody` does and queues the response only on success |
| Receivers.Receiver.ReceiveSignUp | src/Receiver.h:152-168 | receiveSignUpResponse does what `ParseSignUpBody` does and queues only on success |
| Receivers.Receiver.ReceiveSignIn | src/Receiver.h:170-181 | receiveSignInResponse does what `ParseSignInBody` does and queues only on success |
| Receivers.Receiver.ReceiveFrame | src/Receiver.h:38-57 | One iteration succeeds iff the corrected `ParseFrame` decodes a frame, which is then routed; on a stop no queue changes |
| Receivers.Receiver.Run | src/Receiver.h:34-65 | The loop leaves the input where the corrected `ParseStream` stops and adds the stream's frames to the queues by kind, in order |
| UntaggedCodec.SetResponseBit | src/Encoder.h:42-43 | A response's wire id has bit 0x8000 set and, for a valid command id, gives the id back when the bit is cleared |
| UntaggedCodec.DecodeFrame | src/Decoder.h:20-95 | Decoding consumes input whenever it yields a request or response |
| UntaggedCodec.DecodeAfterId | src/Decoder.h:27-94 | When the rest of the frame decodes, ids 1..0x7fff give a request with that id and ids above 0x8000 a response with the bit cleared; ids 0 and 0x8000 always stop |
| UntaggedCodec.DecodedSize | src/Encoder.h:12-56 | A request frame is 34 bytes plus its payload and a response frame 15 plus its payload |
| UntaggedCodec.DecodeFrameOf | src/Decoder.h:20-95 | An accepted frame followed by anything decodes as that frame with the rest left over |
| UntaggedCodec.DecodedFrame | src/Decoder.h:20-95 | Whatever decodes is an accepted frame at the front of the input |
| UntaggedCodec.DecodeFrameExactly | src/Decoder.h:20-95 | Decoding yields d with rest r iff d is accepted and the input is d's bytes followed by r |
| UntaggedCodec.ReservedIdsStop | src/Decoder.h:91-94 | Wire ids 0 and 0x8000 are refused after only the id is read |
| UntaggedCodec.DecodedPrefixFree | src/Decoder.h:20-95 | No accepted frame's bytes are a proper prefix of another's |
| UntaggedCodec.TruncatedNotDecoded | src/Decoder.h:20-95 | A frame cut short is not the bytes of any accepted frame with anything after it |
| UntaggedCodec.TruncatedFrameStops | src/Decoder.h:20-95 | A frame cut short anywhere is never decoded |
| UntaggedCodec.RequestPayloadPolicies | src/Decoder.h:54 | As written, an empty request payload stops the decoder; with the buffer check, a payload over 1024 bytes is refused |
| UntaggedCodec.ResponsePayloadPolicies | src/Decoder.h:82 | As written, a response payload of any length is read, empty or past the 1024-byte buffer; with the buffer check, one over 1024 bytes is refused |
| UntaggedCodec.EncodeRequestOutcome | src/Encoder.h:12-40 | The corrected encode succeeds iff the connection takes 34+length bytes, and then sends exactly the request's frame |
| UntaggedCodec.EncodeEmptyRequestFails | src/Encoder.h:37 | As written, an empty payload sends the whole frame and then reports failure |
| UntaggedCodec.RequestRoundTrip | src/Encoder.h:12-40 | An encoded request is decoded with the same cmdId, gatewayId, apiVersion, clientId, type and data, and the send time |
| UntaggedCodec.ResponseRoundTrip | src/Encoder.h:42-56 | A response encoded by the corrected writer is decoded as a response with the same cmdId, status and data, and the send time |
| UntaggedCodec.ResponseAsWrittenReadAsRequest | src/Encoder.h:42-43 | As written, a response whose host-order id has no 0x8000 bit is read by the peer as a request |
| UntaggedCodec.ResponseAsWrittenOnBigEndianHost | src/Encoder.h:42-43 | As written on a big-endian host, every response is read as a request with the same id |
| UntaggedCodec.ResponseAsWrittenIdOne | src/Encoder.h:42-43 | As written on a little-endian host, the response to command 1 is read as a request with id 0x0100 |
| Encoders.EncodeRequestWrites | src/Encoder.h:12-40 | The eight writes of the corrected encode(request) are the request's chunk list |
| Encoders.EncodeResponseWrites | src/Encoder.h:42-56 | The five writes of encode(response) are the corrected response's chunk list |
| Encoders.Encoder.EncodeRequest | src/Encoder.h:12-40 | The corrected field-by-field encode ends in the state `Transmit` gives for the request's writes |
| Encoders.Encoder.EncodeResponse | src/Encoder.h:42-56 | The corrected field-by-field encode ends in the state `Transmit` gives for the response's writes |
| Decoders.Decoder.ReadRequestTail | src/Decoder.h:38-64 | Reading time, apiVersion, type, length and payload does what the corrected `DecodeRequestTail` does |
| Decoders.Decoder.ReadRequest | src/Decoder.h:27-65 | The request branch does what the corrected `DecodeRequestBody` does |
| Decoders.Decoder.ReadResponse | src/Decoder.h:66-90 | The response branch does what the corrected `DecodeResponseBody` does |
| Decoders.Decoder.Decode | src/Decoder.h:20-95 | decode returns Request, Response or None exactly as the corrected `DecodeFrame` decodes or stops, leaving the input where it ends |
| Gateways.Created | include/Protocon/Protocon.h:90-101 | createClientToken's token is the counter before the call; the forward map gains it unless already present, and a non-zero id gains a reverse entry if it had none and every other id keeps its token, a zero id an anonymous-list entry |
| Gateways.ClientIdOf | include/Protocon/Protocon.h:88 | clientId(tk) gives the id bound to the token, and the out-of-range error exactly when the token is unknown |
| Gateways.CreateKeepsConsistent | include/Protocon/Protocon.h:90-101 | Before the counter wraps, the new token is fresh, clientId(tk) is the given id, and the registry stays consistent |
| Gateways.CreatedAllDistinct | include/Protocon/Protocon.h:90-101 | Successive tokens carry consecutive counter values, so they are distinct |
| Gateways.CreatedAllConsistent | include/Protocon/Protocon.h:90-101 | A run of creations keeps the registry consistent and keeps every earlier binding |
| Gateways.CreatedAllRecorded | include/Protocon/Protocon.h:88 | After a run of creations, clientId of each new token is the id it was created for |
| Gateways.IssuedCmdIdsAt | include/Protocon/Protocon.h:113 | The i-th id that nextCmdId issues is the counter plus i modulo 2^16 |
| Gateways.IssuedCmdIdsDistinct | include/Protocon/Protocon.h:113 | Any 2^16 successive command ids are distinct |
| Gateways.NextCmdId | include/Protocon/Protocon.h:113 | The counter moves on by one, and from 0xffff wraps to 0 |
| Gateways.Gateway.constructor | include/Protocon/Protocon.h:122-132 | The counters start at 0 with no tokens, and the registry is consistent |
| Gateways.Gateway.CreateClientToken | include/Protocon/Protocon.h:90-101 | The token and the registry afterwards are those `Created` gives |
| Gateways.Gateway.NextCommandId | include/Protocon/Protocon.h:113 | Returns the counter and moves it on by one modulo 2^16 |
| Clients.HandlerTableFirstWins | src/Protocon.cpp:126-131 | The handler table has exactly the registered types, and for a type registered twice the first handler wins |
| Clients.NextCmdId | src/Protocon.cpp:118-120 | Below cMaxCmdId the counter moves on by one; from cMaxCmdId or above it restarts at 1, except that 0xffff wraps to 0; otherwise the next value lies in 1..cMaxCmdId |
| Clients.IssuedCmdIdsInRange | src/Protocon.cpp:117-124 | The first id send issues is the counter itself; every later one lies in 1..cMaxCmdId (after a 0 when the counter starts at 0xffff), so it is never a reserved id when cMaxCmdId is at most 0x7fff |
| Clients.IssuedCmdIdsAt | src/Protocon.cpp:117-124 | From a counter in 0..cMaxCmdId, the i-th id is the counter plus i, wrapping from cMaxCmdId back to 1 |
| Clients.IssuedCmdIdsDistinct | src/Protocon.cpp:117-124 | From any counter, any cMaxCmdId successive command ids are distinct |
| Clients.AnswerInOrder | src/Protocon.cpp:103-107 | Requests are answered in order, each with its type's handler and its own command id; the loop stops at the first type with no handler |
| Clients.Answer | src/Protocon.cpp:103-107 | The queued responses are kept in front, and every request is answered, dropped at a missing handler, or left over; a run that succeeds leaves none |
| Clients.DispatchInOrder | src/Protocon.cpp:109-114 | Responses are handed in order to the handler registered for their command id; the loop stops at the first id with none |
| Clients.DispatchOneShot | src/Protocon.cpp:109-114 | Each handler is called at most once and then unregistered, and every other registration is kept |
| Clients.Dispatch | src/Protocon.cpp:109-114 | The log is kept in front; every response is delivered, dropped at a missing handler, or left over; a run that succeeds leaves none; no handler is added |
| Clients.SendThenDeliver | src/Protocon.cpp:117-124 | A response to a request just sent reaches exactly the handler given to send, which is then gone |
| Clients.Position | src/Protocon.cpp:112 | find gives the first position of the key in iteration order, or the end |
| Clients.AsWrittenCallsNextHandler | src/Protocon.cpp:112-113 | As written, the handler after the response's own is called, or end() is dereferenced when the response's handler is last |
| Clients.DeliverAsWritten | src/Protocon.cpp:112-113 | As written, the code is undefined exactly when the response has no handler or its handler is last in iteration order; otherwise its entry is erased and the handler called is one registered under another command id |
| Clients.Client.constructor | src/Protocon.cpp:126-131 | The handler table is `HandlerTable` of the registrations, and no response handler is pending |
| Clients.Client.Send | src/Protocon.cpp:117-124 | Send takes the next command id, registers the handler under it and queues the request with that id |
| Clients.Client.AnswerRequests | src/Protocon.cpp:103-107 | The first loop of poll does what `Answer` does to the two queues |
| Clients.Client.DeliverResponses | src/Protocon.cpp:109-114 | The second loop of poll does what the corrected `Dispatch` does |
| Clients.Client.Poll | src/Protocon.cpp:102-115 | poll answers the requests, then delivers the responses; when answering fails, no response is touched |

## Left out

- Threads, mutexes, stop flags and the 400 ms sleep are left out. `Receiver::run` is modelled as a sequential loop that ends at the first failure. `Sender::run` is modelled as one cycle; repeating the cycle until the stop flag is set is left out with the threads.
- Messages printed to the console are left out, and so are the texts of exceptions. A thrown exception is modelled as a failed result.
- The sockets are left out. A connection is a byte budget for writes and a byte string for reads. A short `read_n` or `asio::read` is modelled as a failure.
- Connecting is left out: `Socket::connect` and the connect step of `Client::run`.
- The clock is a parameter `now`.
- The client's reader and writer threads in `Client::run` (src/Protocon.cpp:24-100) are not modelled as loops. Each iteration is `Decoders.Decoder.Decode` or `Encoders.Encoder.EncodeRequest`/`EncodeResponse`. `Client::stop` is left out with the threads.
- Gateway `run`, `stop`, `poll`, `send`, `sendSignUpRequest` and `sendSignInRequest` are left out. They are only declared, and their bodies are not part of this model.
- `GatewayBuilder` is left out. It only gathers constructor arguments.
- The example programs are not part of this model.
- Response handlers are opaque `HandlerId`s. Delivering a response is recorded in a log instead of calling code.
- Request handlers are Dafny functions.
- `cMaxCmdId` and the client's first command id are constructor parameters. Their values are declared outside the files modelled.
- Clients.IssuedCmdIdsInRange: proved only for `cMaxCmdId` in 1..0xfffe. At 0xffff the 16-bit counter wraps to 0, and 0 can be issued. The first id is the starting counter, so a counter starting at 0 issues the reserved id 0 first.
- Clients.IssuedCmdIdsAt: proved only for a starting counter in 0..cMaxCmdId. From a larger counter, IssuedCmdIdsInRange gives the later ids' range but not their values.
- Clients.IssuedCmdIdsDistinct: proved only for `cMaxCmdId` below 0xffff.
- Gateways.CreateKeepsConsistent: holds only until the 64-bit token counter wraps. After 2^64 tokens, a token value is reused.
- Gateways.CreatedAllDistinct: proved only for runs that do not wrap the 64-bit token counter.
- Gateways.CreatedAllConsistent: proved only for runs that do not wrap the 64-bit token counter.
- Gateways.CreatedAllRecorded: proved only for runs that do not wrap the 64-bit token counter.
- Transfer.LoadLengthPrefixed: reads an empty payload, where src/Receiver.h:139 fails on it (see "## Findings").
- Receivers.Receiver.ReceiveRequestFields: reads an empty payload, where src/Receiver.h:110 fails on it (see "## Findings").
- Receivers.Receiver.ReceiveRequest: reads an empty payload, where src/Receiver.h:110 fails on it (see "## Findings").
- Receivers.Receiver.ReceiveResponse: reads an empty payload, where src/Receiver.h:139 fails on it (see "## Findings").
- Receivers.Receiver.ReceiveFrame: reads an empty payload, where src/Receiver.h:110 and 139 fail on it (see "## Findings").
- Receivers.Receiver.Run: goes on past an empty payload, where the C++ loop stops (see "## Findings").
- Decoders.Decoder.ReadRequestTail: reads an empty payload, where src/Decoder.h:54 fails on it (see "## Findings").
- Decoders.Decoder.ReadRequest: reads an empty payload, where src/Decoder.h:54 fails on it (see "## Findings").
- Decoders.Decoder.Decode: decodes a request with an empty payload, where src/Decoder.h:54 gives None (see "## Findings").
- The client keys its response handlers by the 16-bit command id. The C++ map key is `uint64_t`, but every key it stores comes from the 16-bit counter.

## Findings

| source | as written | input that shows it | evidently intended | confidence | as-written member | corrected member |
|---|---|---|---|---|---|---|
| src/Sender.h:77 | `gatewayId` is initialised from itself, so the request frame carries an indeterminate value | any request whose gatewayId differs from the indeterminate value | the request's own `rawRequest.gatewayId` is sent | high, not executed | TaggedCodec.GatewayIdNotForwarded | TaggedCodec.RequestRoundTrip |
| src/Sender.h:112-113 | the response time is written without `Util::BigEndian` | a response with time 1 sent from a little-endian host is read as 2^56 | the time is converted to network order like every other field | high, not executed | TaggedCodec.ResponseTimeByteSwapped | TaggedCodec.ResponseRoundTrip |
| src/Encoder.h:42-56 | encode(cmdId, response) writes the cmdId, time and length in host order, and never sets bit 0x8000 | the response to command 1 from a little-endian host is decoded as a request with id 0x0100 | the response id has bit 0x8000 set, and every field is in network order | high, not executed | UntaggedCodec.ResponseAsWrittenIdOne | UntaggedCodec.ResponseRoundTrip |
| src/Receiver.h:110 | `length` bytes are read into the 1024-byte `mBuf` whatever `length` is | a request frame whose length field is 2000 | a length over the buffer size is refused | high, not executed | TaggedCodec.PayloadPolicies | Transfer.LoadPayload |
| src/Decoder.h:54 | `length` bytes are read into the 1024-byte `buf` whatever `length` is | a request frame whose length field is 2000 | a length over the buffer size is refused | high, not executed | UntaggedCodec.RequestPayloadPolicies | Decoders.Decoder.Decode |
| src/Decoder.h:82 | `length` bytes of a response payload are read into the 1024-byte `buf` whatever `length` is | a response frame whose length field is 2000 | a length over the buffer size is refused | high, not executed | UntaggedCodec.ResponsePayloadPolicies | Decoders.Decoder.Decode |
| src/Receiver.h:81 | `read` returns the number of bytes read as its success flag, so reading a 0-byte payload fails and ends the reader loop | a request or response frame whose length field is 0 | an empty payload is read as an empty payload | medium, not executed | TaggedCodec.PayloadPolicies | Receivers.Receiver.Run |
| src/Decoder.h:102 | `read` succeeds only on a non-zero byte count, so a request with a 0-byte payload gives None | a request frame whose length field is 0 | an empty request payload is read, as the response branch does | medium, not executed | UntaggedCodec.RequestPayloadPolicies | Decoders.Decoder.Decode |
| src/Sender.h:98 | an empty payload goes through `write`, which treats 0 bytes written as failure | a request with an empty payload | a request with an empty payload is sent successfully | medium, not executed | TaggedCodec.EmptyRequestPayloadFails | TaggedCodec.SendRequestOutcome |
| src/Encoder.h:37 | an empty payload goes through `write`, which treats 0 bytes written as failure | a request with an empty payload | a request with an empty payload is encoded successfully | medium, not executed | UntaggedCodec.EncodeEmptyRequestFails | UntaggedCodec.EncodeRequestOutcome |
| src/Protocon.cpp:112-113 | the handler is taken from the iterator `erase` returns, which points to the next entry | handlers for commands 1 and 2, with 2 after 1 in iteration order; a response to command 1 calls handler 2, and handler 2 stays registered | the erased entry's own handler is called | high, not executed | Clients.AsWrittenCallsNextHandler | Clients.DispatchOneShot |
