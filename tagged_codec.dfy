/**
  The tagged framing of the current generation.

  Outbound, each `Sender::send` overload (src/Sender.h) is a run of socket
  writes; `*Chunks` gives those writes, one `Chunk` per call, and
  `Socket.Transmit` says what a run of them does to the connection.

  Inbound, `Receiver::run` (src/Receiver.h) reads a tag byte and a cmdId and
  dispatches on the tag to a field reader; `ParseFrame` is that step as a
  parser over the byte stream.  `FrameBytes` is the canonical layout of an
  inbound frame, and the lemmas tie the parser to it in both directions.
*/
module TaggedCodec {
  import opened Util
  import opened Socket
  import opened Messages

  const TagRequest: u8 := 0x00
  const TagResponse: u8 := 0x80
  const TagSignUpRequest: u8 := 0x01
  const TagSignUpResponse: u8 := 0x81
  const TagSignInRequest: u8 := 0x02
  const TagSignInResponse: u8 := 0x82

  /** The size of the Receiver's payload buffer `mBuf`. */
  const BufferSize: nat := 1024

  // ------------------------------------------------------------------
  // Outbound frames (Sender::send)
  // ------------------------------------------------------------------

  /**
    The network representation of a field.  The Sender writes the in-memory
    bytes of `BigEndian(v)`, and those are exactly these on either host
    (`Util.BigEndian`); the Sender methods prove it call by call.
  */
  function Field(v: nat, n: nat): (s: seq<u8>)
    requires v < Pow256(n)
    ensures |s| == n
  {
    ToBE(v, n)
  }

  /** `uint32_t length = data.length()`: the payload length cut to 32 bits. */
  function Length32(data: seq<u8>): (len: u32)
    ensures len <= |data|
    ensures |data| < 0x1_0000_0000 ==> len == |data|
  {
    |data| % 0x1_0000_0000
  }

  /**
    The writes of send(RawRequest): tag, cmdId, gatewayId, clientId, time,
    apiVersion, type, length and payload, each through the `write` helper,
    which counts a 0-byte write as a failure; `emptyPayloadFails` says
    whether the payload write does too.
  */
  function RequestLayout(cmdId: u16, gatewayId: u64, clientId: u64, time: u64, apiVersion: u16,
                         msgType: u16, data: seq<u8>, emptyPayloadFails: bool): (chunks: seq<Chunk>)
    ensures |chunks| == 9
  {
    Pow256Widths();
    var length := Length32(data);
    [ Chunk([TagRequest], true),
      Chunk(Field(cmdId, 2), true),
      Chunk(Field(gatewayId, 8), true),
      Chunk(Field(clientId, 8), true),
      Chunk(Field(time, 8), true),
      Chunk(Field(apiVersion, 2), true),
      Chunk(Field(msgType, 2), true),
      Chunk(Field(length, 4), true),
      Chunk(data[..length], emptyPayloadFails) ]
  }

  /**
    send(RawRequest) as intended: the request's own gatewayId, the clock value
    `now` in the time field, and a 0-byte payload accepted.
  */
  function RequestChunks(rr: RawRequest, now: u64): (chunks: seq<Chunk>)
    ensures |chunks| == 9
  {
    RequestLayout(rr.cmdId, rr.gatewayId, rr.clientId, now, rr.apiVersion,
                  rr.request.msgType, rr.request.data, false)
  }

  /**
    send(RawRequest) as written: the gatewayId local is initialised from
    itself, so what reaches the wire is whatever it held (`indeterminate`),
    and the payload write goes through `write` like the others.
  */
  function RequestChunksAsWritten(rr: RawRequest, now: u64, indeterminate: u64): (chunks: seq<Chunk>)
    ensures |chunks| == 9
  {
    RequestLayout(rr.cmdId, indeterminate, rr.clientId, now, rr.apiVersion,
                  rr.request.msgType, rr.request.data, true)
  }

  /**
    The writes of send(RawResponse).  Only the tag goes through `write`; the
    others are bare write_n calls, which fail only on -1.  `timeBytes` is
    what is written for the time.
  */
  function ResponseLayout(cmdId: u16, timeBytes: seq<u8>, status: u8, data: seq<u8>): (chunks: seq<Chunk>)
    ensures |chunks| == 6
  {
    Pow256Widths();
    var length := Length32(data);
    [ Chunk([TagResponse], true),
      Chunk(Field(cmdId, 2), false),
      Chunk(timeBytes, false),
      Chunk([status], false),
      Chunk(Field(length, 4), false),
      Chunk(data[..length], false) ]
  }

  /** send(RawResponse) as intended: the clock value `now`, converted like every other field. */
  function ResponseChunks(rr: RawResponse, now: u64): (chunks: seq<Chunk>)
    ensures |chunks| == 6
  {
    Pow256Widths();
    ResponseLayout(rr.cmdId, Field(now, 8), rr.response.status, rr.response.data)
  }

  /** send(RawResponse) as written: the time goes out in host byte order. */
  function ResponseChunksAsWritten(host: ByteOrder, rr: RawResponse, now: u64): (chunks: seq<Chunk>)
    ensures |chunks| == 6
  {
    Pow256Widths();
    ResponseLayout(rr.cmdId, InMemory(host, now, 8), rr.response.status, rr.response.data)
  }

  /** The writes of send(RawSignUpRequest): tag, cmdId (a bare write_n), gatewayId. */
  function SignUpChunks(r: RawSignUpRequest): (chunks: seq<Chunk>)
    ensures |chunks| == 3
  {
    Pow256Widths();
    [ Chunk([TagSignUpRequest], true),
      Chunk(Field(r.cmdId, 2), false),
      Chunk(Field(r.gatewayId, 8), true) ]
  }

  /** The writes of send(RawSignInRequest): tag, cmdId (a bare write_n), gatewayId, clientId. */
  function SignInChunks(r: RawSignInRequest): (chunks: seq<Chunk>)
    ensures |chunks| == 4
  {
    Pow256Widths();
    [ Chunk([TagSignInRequest], true),
      Chunk(Field(r.cmdId, 2), false),
      Chunk(Field(r.gatewayId, 8), true),
      Chunk(Field(r.clientId, 8), true) ]
  }

  // ------------------------------------------------------------------
  // Inbound frames (Receiver::run and receive*)
  // ------------------------------------------------------------------

  /** A frame the Receiver decodes, by the queue it goes to. */
  datatype InFrame =
    | InRequest(request: RawRequest)
    | InResponse(response: RawResponse)
    | InSignUp(signUp: RawSignUpResponse)
    | InSignIn(signIn: RawSignInResponse)

  function Payload(f: InFrame): seq<u8> {
    match f
    case InRequest(r) => r.request.data
    case InResponse(r) => r.response.data
    case _ => []
  }

  function Tag(f: InFrame): u8 {
    match f
    case InRequest(_) => TagRequest
    case InResponse(_) => TagResponse
    case InSignUp(_) => TagSignUpResponse
    case InSignIn(_) => TagSignInResponse
  }

  function CmdId(f: InFrame): u16 {
    match f
    case InRequest(r) => r.cmdId
    case InResponse(r) => r.cmdId
    case InSignUp(r) => r.cmdId
    case InSignIn(r) => r.cmdId
  }

  /** The request fields after the two ids: time, apiVersion, type, length, payload. */
  function RequestFieldBytes(r: RawRequest): seq<u8>
    requires |r.request.data| < 0x1_0000_0000
  {
    Pow256Widths();
    ToBE(r.request.time, 8) + (ToBE(r.apiVersion, 2)
      + (ToBE(r.request.msgType, 2) + (ToBE(|r.request.data|, 4) + r.request.data)))
  }

  /** Every field after the tag and the cmdId, in network order. */
  function BodyBytes(f: InFrame): seq<u8>
    requires |Payload(f)| < 0x1_0000_0000
  {
    Pow256Widths();
    match f
    case InRequest(r) =>
      ToBE(r.gatewayId, 8) + (ToBE(r.clientId, 8) + RequestFieldBytes(r))
    case InResponse(r) =>
      ToBE(r.response.time, 8) + ([r.response.status] + (ToBE(|r.response.data|, 4) + r.response.data))
    case InSignUp(r) =>
      ToBE(r.clientId, 8) + [r.status]
    case InSignIn(r) =>
      [r.status]
  }

  /** The bytes of a frame as its sender lays them out: tag, cmdId, body. */
  function FrameBytes(f: InFrame): seq<u8>
    requires |Payload(f)| < 0x1_0000_0000
  {
    Pow256Widths();
    [Tag(f)] + (ToBE(CmdId(f), 2) + BodyBytes(f))
  }

  /**
    How a `read` of the payload into `mBuf` behaves.  `AsWritten`: any length
    is read, also past the 1024-byte buffer, and a length of 0 fails because
    `read` returns the byte count as its success flag.  `Checked`: a length
    above the buffer is refused, and 0 is an empty payload.
  */
  datatype Policy = AsWritten | Checked

  /** Whether a frame's payload is one the policy lets through. */
  predicate Admits(policy: Policy, f: InFrame) {
    match policy
    case AsWritten => |Payload(f)| < 0x1_0000_0000 && ((f.InRequest? || f.InResponse?) ==> Payload(f) != [])
    case Checked => |Payload(f)| <= BufferSize
  }

  /** A one-byte field, taken as it is (the tag and the status bytes). */
  function ReadU8(input: seq<u8>): (p: Parse<u8>)
    ensures p.Parsed? <==> 1 <= |input|
    ensures p.Parsed? ==> input == [p.value] + p.rest
    ensures p.Stopped? ==> p == Stopped(ShortRead, input)
  {
    if 1 <= |input| then Parsed(input[0], input[1..]) else Stopped(ShortRead, input)
  }

  /**
    An n-byte field (n > 0) in network order: the value `read` into memory
    and then passed through BigEndian yields on either host
    (`Util.LoadField`; the Receiver methods prove it call by call).
  */
  function ReadField(input: seq<u8>, n: nat): (p: Parse<nat>)
    requires n > 0
    ensures p.Parsed? <==> n <= |input|
    ensures p.Parsed? ==> p.value < Pow256(n) && input == ToBE(p.value, n) + p.rest
    ensures p.Stopped? ==> p == Stopped(ShortRead, input)
  {
    if n <= |input| then
      var raw := input[..n];
      ToFromBE(raw);
      assert input == raw + input[n..];
      Parsed(FromBE(raw), input[n..])
    else
      Stopped(ShortRead, input)
  }

  function ReadU16(input: seq<u8>): (p: Parse<u16>)
    ensures p.Parsed? <==> 2 <= |input|
    ensures p.Parsed? ==> input == ToBE(p.value, 2) + p.rest
    ensures p.Stopped? ==> p == Stopped(ShortRead, input)
  {
    Pow256Widths();
    var v :- ReadField(input, 2);
    Parsed(v.0, v.1)
  }

  function ReadU32(input: seq<u8>): (p: Parse<u32>)
    ensures p.Parsed? <==> 4 <= |input|
    ensures p.Parsed? ==> input == ToBE(p.value, 4) + p.rest
    ensures p.Stopped? ==> p == Stopped(ShortRead, input)
  {
    Pow256Widths();
    var v :- ReadField(input, 4);
    Parsed(v.0, v.1)
  }

  function ReadU64(input: seq<u8>): (p: Parse<u64>)
    ensures p.Parsed? <==> 8 <= |input|
    ensures p.Parsed? ==> input == ToBE(p.value, 8) + p.rest
    ensures p.Stopped? ==> p == Stopped(ShortRead, input)
  {
    Pow256Widths();
    var v :- ReadField(input, 8);
    Parsed(v.0, v.1)
  }

  /** `read(&mBuf, length)` under the given policy. */
  function ReadPayload(input: seq<u8>, length: u32, policy: Policy): (p: Parse<seq<u8>>)
    ensures p.Parsed? <==>
      length <= |input| && (policy == AsWritten ==> length != 0) && (policy == Checked ==> length <= BufferSize)
    ensures p.Parsed? ==> input == p.value + p.rest && |p.value| == length
  {
    match policy
    case AsWritten =>
      if length == 0 then Stopped(EmptyRead, input) else ReadBytes(input, length)
    case Checked =>
      if length > BufferSize then Stopped(PayloadTooLarge(length), input) else ReadBytes(input, length)
  }

  /** The length field, converted, then `read(&mBuf, length)`: the tail of both payload-carrying frames. */
  function ReadLengthPrefixed(input: seq<u8>, policy: Policy): (p: Parse<seq<u8>>)
    ensures p.Parsed? ==> |p.rest| <= |input|
  {
    var length :- ReadU32(input);
    ReadPayload(length.1, length.0, policy)
  }

  /** receiveRequest: gatewayId, clientId, time, apiVersion, type, length, payload. */
  function ParseRequestBody(cmdId: u16, input: seq<u8>, policy: Policy): (p: Parse<RawRequest>)
    ensures p.Parsed? ==> |p.rest| <= |input|
  {
    var gatewayId :- ReadU64(input);
    var clientId :- ReadU64(gatewayId.1);
    ParseRequestFields(cmdId, gatewayId.0, clientId.0, clientId.1, policy)
  }

  /** The rest of receiveRequest once both ids are read. */
  function ParseRequestFields(cmdId: u16, gatewayId: u64, clientId: u64, input: seq<u8>, policy: Policy): (p: Parse<RawRequest>)
    ensures p.Parsed? ==> |p.rest| <= |input|
  {
    var time :- ReadU64(input);
    var apiVersion :- ReadU16(time.1);
    var msgType :- ReadU16(apiVersion.1);
    var data :- ReadLengthPrefixed(msgType.1, policy);
    Parsed(RawRequest(cmdId, gatewayId, clientId, apiVersion.0, Request(time.0, msgType.0, data.0)), data.1)
  }

  /** receiveResponse: time, status, length, payload. */
  function ParseResponseBody(cmdId: u16, input: seq<u8>, policy: Policy): (p: Parse<RawResponse>)
    ensures p.Parsed? ==> |p.rest| <= |input|
  {
    var time :- ReadU64(input);
    var status :- ReadU8(time.1);
    var data :- ReadLengthPrefixed(status.1, policy);
    Parsed(RawResponse(cmdId, Response(time.0, status.0, data.0)), data.1)
  }

  /** receiveSignUpResponse: clientId, status. */
  function ParseSignUpBody(cmdId: u16, input: seq<u8>): (p: Parse<RawSignUpResponse>)
    ensures p.Parsed? ==> |p.rest| <= |input|
  {
    var clientId :- ReadU64(input);
    var status :- ReadU8(clientId.1);
    Parsed(RawSignUpResponse(cmdId, clientId.0, status.0), status.1)
  }

  /** receiveSignInResponse: status. */
  function ParseSignInBody(cmdId: u16, input: seq<u8>): (p: Parse<RawSignInResponse>)
    ensures p.Parsed? ==> |p.rest| <= |input|
  {
    var status :- ReadU8(input);
    Parsed(RawSignInResponse(cmdId, status.0), status.1)
  }

  /** The dispatch on the tag (src/Receiver.h:46-57): the reader for that frame kind, or a stop. */
  function ParseBody(tag: u8, cmdId: u16, input: seq<u8>, policy: Policy): (p: Parse<InFrame>)
    ensures p.Parsed? ==> |p.rest| <= |input|
  {
    if tag == TagRequest then
      var r :- ParseRequestBody(cmdId, input, policy);
      Parsed(InRequest(r.0), r.1)
    else if tag == TagResponse then
      var r :- ParseResponseBody(cmdId, input, policy);
      Parsed(InResponse(r.0), r.1)
    else if tag == TagSignUpResponse then
      var r :- ParseSignUpBody(cmdId, input);
      Parsed(InSignUp(r.0), r.1)
    else if tag == TagSignInResponse then
      var r :- ParseSignInBody(cmdId, input);
      Parsed(InSignIn(r.0), r.1)
    else
      Stopped(UnknownTag(tag), input)
  }

  /** One turn of Receiver::run: the tag, the cmdId, then the reader the tag selects. */
  function ParseFrame(input: seq<u8>, policy: Policy): (p: Parse<InFrame>)
    ensures p.Parsed? ==> |p.rest| + 3 <= |input|
  {
    var tag :- ReadU8(input);
    var cmdId :- ReadU16(tag.1);
    ParseBody(tag.0, cmdId.0, cmdId.1, policy)
  }

  // ------------------------------------------------------------------
  // Reading back what was written
  // ------------------------------------------------------------------

  lemma SplitAt(a: seq<u8>, b: seq<u8>, c: seq<u8>, d: seq<u8>)
    requires a + b == c + d && |a| == |c|
    ensures a == c && b == d
  {
    assert a == (a + b)[..|a|];
    assert c == (c + d)[..|c|];
    assert b == (a + b)[|a|..];
    assert d == (c + d)[|c|..];
  }

  lemma ReadU16Of(v: u16, rest: seq<u8>)
    ensures ReadU16(ToBE(v, 2) + rest) == Parsed(v, rest)
  {
    Pow256Widths();
    var p := ReadU16(ToBE(v, 2) + rest);
    SplitAt(ToBE(p.value, 2), p.rest, ToBE(v, 2), rest);
    ToBEInjective(p.value, v, 2);
  }

  lemma ReadU32Of(v: u32, rest: seq<u8>)
    ensures ReadU32(ToBE(v, 4) + rest) == Parsed(v, rest)
  {
    Pow256Widths();
    var p := ReadU32(ToBE(v, 4) + rest);
    SplitAt(ToBE(p.value, 4), p.rest, ToBE(v, 4), rest);
    ToBEInjective(p.value, v, 4);
  }

  lemma ReadU64Of(v: u64, rest: seq<u8>)
    ensures ReadU64(ToBE(v, 8) + rest) == Parsed(v, rest)
  {
    Pow256Widths();
    var p := ReadU64(ToBE(v, 8) + rest);
    SplitAt(ToBE(p.value, 8), p.rest, ToBE(v, 8), rest);
    ToBEInjective(p.value, v, 8);
  }

  lemma ReadPayloadOf(data: seq<u8>, rest: seq<u8>, policy: Policy)
    requires |data| < 0x1_0000_0000
    ensures var p := ReadPayload(data + rest, |data|, policy);
      p.Parsed? ==> p == Parsed(data, rest)
  {
    var p := ReadPayload(data + rest, |data|, policy);
    if p.Parsed? {
      SplitAt(p.value, p.rest, data, rest);
    }
  }

  lemma ReadLengthPrefixedOf(data: seq<u8>, rest: seq<u8>, policy: Policy)
    requires |data| < 0x1_0000_0000
    ensures var d := ReadPayload(data + rest, |data|, policy);
      ReadLengthPrefixed(ToBE(|data|, 4) + (data + rest), policy) == d &&
      (d.Parsed? ==> d == Parsed(data, rest))
  {
    Pow256Widths();
    ReadU32Of(|data|, data + rest);
    ReadPayloadOf(data, rest, policy);
  }

  lemma ParseRequestFieldsOf(r: RawRequest, rest: seq<u8>, policy: Policy)
    requires |r.request.data| < 0x1_0000_0000
    ensures var d := ReadPayload(r.request.data + rest, |r.request.data|, policy);
      ParseRequestFields(r.cmdId, r.gatewayId, r.clientId, RequestFieldBytes(r) + rest, policy) ==
        if d.Parsed? then Parsed(r, rest) else Stopped(d.reason, d.at)
  {
    Pow256Widths();
    var q := r.request;
    var s4 := ToBE(|q.data|, 4) + (q.data + rest);
    var s3 := ToBE(q.msgType, 2) + s4;
    var s2 := ToBE(r.apiVersion, 2) + s3;
    var s1 := ToBE(q.time, 8) + s2;
    assert s1 == RequestFieldBytes(r) + rest;
    ReadU64Of(q.time, s2);
    ReadU16Of(r.apiVersion, s3);
    ReadU16Of(q.msgType, s4);
    ReadLengthPrefixedOf(q.data, rest, policy);
  }

  /** Every field before the payload reads back; the payload read decides the outcome. */
  lemma ParseRequestBodyOf(r: RawRequest, rest: seq<u8>, policy: Policy)
    requires |r.request.data| < 0x1_0000_0000
    ensures var d := ReadPayload(r.request.data + rest, |r.request.data|, policy);
      ParseRequestBody(r.cmdId, BodyBytes(InRequest(r)) + rest, policy) ==
        if d.Parsed? then Parsed(r, rest) else Stopped(d.reason, d.at)
  {
    Pow256Widths();
    var s2 := RequestFieldBytes(r) + rest;
    var s1 := ToBE(r.clientId, 8) + s2;
    assert BodyBytes(InRequest(r)) + rest == ToBE(r.gatewayId, 8) + s1;
    ReadU64Of(r.gatewayId, s1);
    ReadU64Of(r.clientId, s2);
    ParseRequestFieldsOf(r, rest, policy);
  }

  lemma ParseResponseBodyOf(r: RawResponse, rest: seq<u8>, policy: Policy)
    requires |r.response.data| < 0x1_0000_0000
    ensures var d := ReadPayload(r.response.data + rest, |r.response.data|, policy);
      ParseResponseBody(r.cmdId, BodyBytes(InResponse(r)) + rest, policy) ==
        if d.Parsed? then Parsed(r, rest) else Stopped(d.reason, d.at)
  {
    Pow256Widths();
    var q := r.response;
    var s3 := q.data + rest;
    var s2 := ToBE(|q.data|, 4) + s3;
    var s1 := [q.status] + s2;
    var s0 := ToBE(q.time, 8) + s1;
    ResponseBodyLayout(r, s0, s1, s2, s3, rest);
    ReadU64Of(q.time, s1);
    assert ReadU8(s1) == Parsed(q.status, s2);
    ReadLengthPrefixedOf(q.data, rest, policy);
  }

  lemma ReadTagAndCmdId(tag: u8, cmdId: u16, body: seq<u8>)
    ensures ReadU8([tag] + (ToBE(cmdId, 2) + body)) == Parsed(tag, ToBE(cmdId, 2) + body)
    ensures ReadU16(ToBE(cmdId, 2) + body) == Parsed(cmdId, body)
  {
    ReadU16Of(cmdId, body);
  }

  lemma FrameSplit(f: InFrame, rest: seq<u8>)
    requires |Payload(f)| < 0x1_0000_0000
    ensures FrameBytes(f) + rest == [Tag(f)] + (ToBE(CmdId(f), 2) + (BodyBytes(f) + rest))
  {
  }

  /** The tag and the cmdId of a laid-out frame read back, leaving its body. */
  lemma ReadHeaderOf(f: InFrame, rest: seq<u8>)
    requires |Payload(f)| < 0x1_0000_0000
    ensures ReadU8(FrameBytes(f) + rest) == Parsed(Tag(f), ToBE(CmdId(f), 2) + (BodyBytes(f) + rest))
    ensures ReadU16(ToBE(CmdId(f), 2) + (BodyBytes(f) + rest)) == Parsed(CmdId(f), BodyBytes(f) + rest)
  {
    FrameSplit(f, rest);
    ReadTagAndCmdId(Tag(f), CmdId(f), BodyBytes(f) + rest);
  }

  lemma ParseRequestFrameOf(r: RawRequest, rest: seq<u8>, policy: Policy)
    requires |r.request.data| < 0x1_0000_0000
    ensures var d := ReadPayload(r.request.data + rest, |r.request.data|, policy);
      ParseFrame(FrameBytes(InRequest(r)) + rest, policy) ==
        if d.Parsed? then Parsed(InRequest(r), rest) else Stopped(d.reason, d.at)
  {
    ReadHeaderOf(InRequest(r), rest);
    ParseRequestBodyOf(r, rest, policy);
  }

  lemma ParseResponseFrameOf(r: RawResponse, rest: seq<u8>, policy: Policy)
    requires |r.response.data| < 0x1_0000_0000
    ensures var d := ReadPayload(r.response.data + rest, |r.response.data|, policy);
      ParseFrame(FrameBytes(InResponse(r)) + rest, policy) ==
        if d.Parsed? then Parsed(InResponse(r), rest) else Stopped(d.reason, d.at)
  {
    ReadHeaderOf(InResponse(r), rest);
    ParseResponseBodyOf(r, rest, policy);
  }

  lemma ParseSignUpBodyOf(r: RawSignUpResponse, rest: seq<u8>)
    ensures ParseSignUpBody(r.cmdId, BodyBytes(InSignUp(r)) + rest) == Parsed(r, rest)
  {
    Pow256Widths();
    var s1 := [r.status] + rest;
    assert BodyBytes(InSignUp(r)) + rest == ToBE(r.clientId, 8) + s1;
    ReadU64Of(r.clientId, s1);
    assert ReadU8(s1) == Parsed(r.status, rest);
  }

  lemma ParseSignUpFrameOf(r: RawSignUpResponse, rest: seq<u8>, policy: Policy)
    ensures ParseFrame(FrameBytes(InSignUp(r)) + rest, policy) == Parsed(InSignUp(r), rest)
  {
    var body := BodyBytes(InSignUp(r)) + rest;
    ParseSignUpBodyOf(r, rest);
    assert ParseBody(TagSignUpResponse, r.cmdId, body, policy) == Parsed(InSignUp(r), rest);
    ReadHeaderOf(InSignUp(r), rest);
  }

  lemma ParseSignInFrameOf(r: RawSignInResponse, rest: seq<u8>, policy: Policy)
    ensures ParseFrame(FrameBytes(InSignIn(r)) + rest, policy) == Parsed(InSignIn(r), rest)
  {
    ReadHeaderOf(InSignIn(r), rest);
    assert BodyBytes(InSignIn(r)) + rest == [r.status] + rest;
  }

  /** A frame laid out by `FrameBytes` parses back to itself, whatever follows it. */
  lemma ParseFrameOf(f: InFrame, rest: seq<u8>, policy: Policy)
    requires Admits(policy, f)
    ensures ParseFrame(FrameBytes(f) + rest, policy) == Parsed(f, rest)
  {
    match f
    case InRequest(r) => ParseRequestFrameOf(r, rest, policy);
    case InResponse(r) => ParseResponseFrameOf(r, rest, policy);
    case InSignUp(r) => ParseSignUpFrameOf(r, rest, policy);
    case InSignIn(r) => ParseSignInFrameOf(r, rest, policy);
  }

  lemma RequestFieldLayout(r: RawRequest, input: seq<u8>, s1: seq<u8>, s2: seq<u8>, s3: seq<u8>, s4: seq<u8>, rest: seq<u8>)
    requires |r.request.data| < 0x1_0000_0000
    requires input == ToBE(r.request.time, 8) + s1 && s1 == ToBE(r.apiVersion, 2) + s2
    requires s2 == ToBE(r.request.msgType, 2) + s3 && s3 == ToBE(|r.request.data|, 4) + s4
    requires s4 == r.request.data + rest
    ensures input == RequestFieldBytes(r) + rest
  {
  }

  lemma ParsedRequestFields(cmdId: u16, gatewayId: u64, clientId: u64, input: seq<u8>, policy: Policy)
    requires ParseRequestFields(cmdId, gatewayId, clientId, input, policy).Parsed?
    ensures var p := ParseRequestFields(cmdId, gatewayId, clientId, input, policy);
      p.value.cmdId == cmdId && p.value.gatewayId == gatewayId && p.value.clientId == clientId &&
      Admits(policy, InRequest(p.value)) && input == RequestFieldBytes(p.value) + p.rest
  {
    Pow256Widths();
    var t := ReadU64(input);
    var a := ReadU16(t.rest);
    var ty := ReadU16(a.rest);
    var l := ReadU32(ty.rest);
    var d := ReadPayload(l.rest, l.value, policy);
    var r := RawRequest(cmdId, gatewayId, clientId, a.value, Request(t.value, ty.value, d.value));
    assert ParseRequestFields(cmdId, gatewayId, clientId, input, policy) == Parsed(r, d.rest);
    RequestFieldLayout(r, input, t.rest, a.rest, ty.rest, l.rest, d.rest);
  }

  lemma ParsedRequestBody(cmdId: u16, input: seq<u8>, policy: Policy)
    requires ParseRequestBody(cmdId, input, policy).Parsed?
    ensures var p := ParseRequestBody(cmdId, input, policy);
      p.value.cmdId == cmdId && Admits(policy, InRequest(p.value)) &&
      input == BodyBytes(InRequest(p.value)) + p.rest
  {
    Pow256Widths();
    var g := ReadU64(input);
    var c := ReadU64(g.rest);
    var p := ParseRequestFields(cmdId, g.value, c.value, c.rest, policy);
    assert ParseRequestBody(cmdId, input, policy) == p;
    ParsedRequestFields(cmdId, g.value, c.value, c.rest, policy);
    RequestBodyLayout(p.value, input, g.rest, c.rest, p.rest);
  }

  lemma RequestBodyLayout(r: RawRequest, input: seq<u8>, s1: seq<u8>, s2: seq<u8>, rest: seq<u8>)
    requires |r.request.data| < 0x1_0000_0000
    requires input == ToBE(r.gatewayId, 8) + s1 && s1 == ToBE(r.clientId, 8) + s2
    requires s2 == RequestFieldBytes(r) + rest
    ensures input == BodyBytes(InRequest(r)) + rest
  {
  }

  lemma ResponseBodyLayout(r: RawResponse, input: seq<u8>, s1: seq<u8>, s2: seq<u8>, s3: seq<u8>, rest: seq<u8>)
    requires |r.response.data| < 0x1_0000_0000
    requires input == ToBE(r.response.time, 8) + s1 && s1 == [r.response.status] + s2
    requires s2 == ToBE(|r.response.data|, 4) + s3 && s3 == r.response.data + rest
    ensures input == BodyBytes(InResponse(r)) + rest
  {
  }

  lemma ParsedResponseBody(cmdId: u16, input: seq<u8>, policy: Policy)
    requires ParseResponseBody(cmdId, input, policy).Parsed?
    ensures var p := ParseResponseBody(cmdId, input, policy);
      p.value.cmdId == cmdId && Admits(policy, InResponse(p.value)) &&
      input == BodyBytes(InResponse(p.value)) + p.rest
  {
    Pow256Widths();
    var t := ReadU64(input);
    var st := ReadU8(t.rest);
    var l := ReadU32(st.rest);
    var d := ReadPayload(l.rest, l.value, policy);
    var r := RawResponse(cmdId, Response(t.value, st.value, d.value));
    assert ParseResponseBody(cmdId, input, policy) == Parsed(r, d.rest);
    ResponseBodyLayout(r, input, t.rest, st.rest, l.rest, d.rest);
  }

  lemma ParsedSignUpBody(cmdId: u16, input: seq<u8>)
    requires ParseSignUpBody(cmdId, input).Parsed?
    ensures var p := ParseSignUpBody(cmdId, input);
      p.value.cmdId == cmdId && input == BodyBytes(InSignUp(p.value)) + p.rest
  {
    Pow256Widths();
    var c := ReadU64(input);
    var st := ReadU8(c.rest);
    var r := RawSignUpResponse(cmdId, c.value, st.value);
    assert ParseSignUpBody(cmdId, input) == Parsed(r, st.rest);
    assert input == BodyBytes(InSignUp(r)) + st.rest;
  }

  lemma ParsedBody(tag: u8, cmdId: u16, input: seq<u8>, policy: Policy)
    requires ParseBody(tag, cmdId, input, policy).Parsed?
    ensures var p := ParseBody(tag, cmdId, input, policy);
      Tag(p.value) == tag && CmdId(p.value) == cmdId && Admits(policy, p.value) &&
      input == BodyBytes(p.value) + p.rest
  {
    if tag == TagRequest {
      ParsedRequestBody(cmdId, input, policy);
    } else if tag == TagResponse {
      ParsedResponseBody(cmdId, input, policy);
    } else if tag == TagSignUpResponse {
      ParsedSignUpBody(cmdId, input);
    } else {
      var st := ReadU8(input);
      assert ParseBody(tag, cmdId, input, policy) == Parsed(InSignIn(RawSignInResponse(cmdId, st.value)), st.rest);
    }
  }

  lemma FrameLayout(f: InFrame, input: seq<u8>, s1: seq<u8>, s2: seq<u8>, rest: seq<u8>)
    requires |Payload(f)| < 0x1_0000_0000
    requires input == [Tag(f)] + s1 && s1 == ToBE(CmdId(f), 2) + s2 && s2 == BodyBytes(f) + rest
    ensures input == FrameBytes(f) + rest
  {
  }

  /** Whatever the parser accepts is a frame the policy admits, laid out by `FrameBytes`. */
  lemma ParsedFrame(input: seq<u8>, policy: Policy)
    requires ParseFrame(input, policy).Parsed?
    ensures var p := ParseFrame(input, policy);
      Admits(policy, p.value) && input == FrameBytes(p.value) + p.rest
  {
    var tag := ReadU8(input);
    var cmdId := ReadU16(tag.rest);
    var p := ParseFrame(input, policy);
    assert p == ParseBody(tag.value, cmdId.value, cmdId.rest, policy);
    ParsedBody(tag.value, cmdId.value, cmdId.rest, policy);
    FrameLayout(p.value, input, tag.rest, cmdId.rest, p.rest);
  }

  /**
    The parser accepts exactly the laid-out frames its policy admits: it reads
    `f` followed by `rest` precisely when the input is `FrameBytes(f) + rest`.
  */
  lemma ParseFrameExactly(input: seq<u8>, policy: Policy, f: InFrame, rest: seq<u8>)
    ensures ParseFrame(input, policy) == Parsed(f, rest) <==>
      Admits(policy, f) && input == FrameBytes(f) + rest
  {
    if ParseFrame(input, policy) == Parsed(f, rest) {
      ParsedFrame(input, policy);
    }
    if Admits(policy, f) && input == FrameBytes(f) + rest {
      ParseFrameOf(f, rest, policy);
    }
  }

  // ------------------------------------------------------------------
  // What the Sender puts on the wire
  // ------------------------------------------------------------------

  /** The request a peer reads back from send(RawRequest): the gatewayId written, the clock value, the payload cut to its 32-bit length. */
  function RequestOnWire(rr: RawRequest, gatewayId: u64, now: u64): (r: RawRequest)
    ensures |r.request.data| < 0x1_0000_0000
  {
    RawRequest(rr.cmdId, gatewayId, rr.clientId, rr.apiVersion,
               Request(now, rr.request.msgType, rr.request.data[..Length32(rr.request.data)]))
  }

  /** The response a peer reads back from send(RawResponse), given the time it decodes. */
  function ResponseOnWire(rr: RawResponse, time: u64): (r: RawResponse)
    ensures |r.response.data| < 0x1_0000_0000
  {
    RawResponse(rr.cmdId, Response(time, rr.response.status, rr.response.data[..Length32(rr.response.data)]))
  }

  lemma FlattenNine(cs: seq<Chunk>)
    requires |cs| == 9
    ensures Flatten(cs) == cs[0].bytes + (cs[1].bytes + (cs[2].bytes + (cs[3].bytes + (cs[4].bytes
      + (cs[5].bytes + (cs[6].bytes + (cs[7].bytes + cs[8].bytes)))))))
  {
    FlattenFrom(cs, 8);
    assert cs[9..] == [];
    FlattenFrom(cs, 7);
    FlattenFrom(cs, 6);
    FlattenFrom(cs, 5);
    FlattenFrom(cs, 4);
    FlattenFrom(cs, 3);
    FlattenFrom(cs, 2);
    FlattenFrom(cs, 1);
    FlattenFrom(cs, 0);
    assert cs[0..] == cs;
  }

  lemma RequestLayoutFrame(cmdId: u16, gatewayId: u64, clientId: u64, time: u64,
                           apiVersion: u16, msgType: u16, data: seq<u8>, emptyPayloadFails: bool)
    ensures var cs := RequestLayout(cmdId, gatewayId, clientId, time, apiVersion, msgType, data, emptyPayloadFails);
      var len := Length32(data);
      Flatten(cs) == FrameBytes(InRequest(RawRequest(cmdId, gatewayId, clientId, apiVersion, Request(time, msgType, data[..len]))))
  {
    Pow256Widths();
    var cs := RequestLayout(cmdId, gatewayId, clientId, time, apiVersion, msgType, data, emptyPayloadFails);
    FlattenNine(cs);
  }

  lemma RequestLayoutWrites(cmdId: u16, gatewayId: u64, clientId: u64, time: u64,
                            apiVersion: u16, msgType: u16, data: seq<u8>, emptyPayloadFails: bool)
    ensures var cs := RequestLayout(cmdId, gatewayId, clientId, time, apiVersion, msgType, data, emptyPayloadFails);
      (NoEmptyStrict(cs) <==> !(emptyPayloadFails && Length32(data) == 0)) && NoEmptyStrict(cs[..8])
  {
    var cs := RequestLayout(cmdId, gatewayId, clientId, time, apiVersion, msgType, data, emptyPayloadFails);
    forall i | 0 <= i < 8 ensures !(cs[..8][i].emptyFails && cs[..8][i].bytes == []) {
      assert cs[..8][i] == cs[i];
    }
    if !(emptyPayloadFails && Length32(data) == 0) {
      forall i | 0 <= i < |cs| ensures !(cs[i].emptyFails && cs[i].bytes == []) {
      }
    } else {
      assert cs[8].emptyFails && cs[8].bytes == [];
    }
  }

  lemma FlattenFour(cs: seq<Chunk>)
    requires |cs| == 4
    ensures Flatten(cs) == cs[0].bytes + (cs[1].bytes + (cs[2].bytes + cs[3].bytes))
  {
    FlattenFrom(cs, 3);
    assert cs[4..] == [];
    FlattenFrom(cs, 2);
    FlattenFrom(cs, 1);
    FlattenFrom(cs, 0);
    assert cs[0..] == cs;
  }

  lemma FlattenSix(cs: seq<Chunk>)
    requires |cs| == 6
    ensures Flatten(cs) == cs[0].bytes + (cs[1].bytes + (cs[2].bytes + (cs[3].bytes + (cs[4].bytes + cs[5].bytes))))
  {
    FlattenFrom(cs, 5);
    assert cs[6..] == [];
    FlattenFrom(cs, 4);
    FlattenFrom(cs, 3);
    FlattenFrom(cs, 2);
    FlattenFrom(cs, 1);
    FlattenFrom(cs, 0);
    assert cs[0..] == cs;
  }

  lemma ResponseLayoutFrame(cmdId: u16, time: u64, timeBytes: seq<u8>, status: u8, data: seq<u8>)
    requires timeBytes == ToBE(time, 8)
    ensures var cs := ResponseLayout(cmdId, timeBytes, status, data);
      Flatten(cs) == FrameBytes(InResponse(RawResponse(cmdId, Response(time, status, data[..Length32(data)])))) &&
      NoEmptyStrict(cs)
  {
    Pow256Widths();
    var cs := ResponseLayout(cmdId, timeBytes, status, data);
    FlattenSix(cs);
    forall i | 0 <= i < |cs| ensures !(cs[i].emptyFails && cs[i].bytes == []) {
    }
  }

  /** The bytes a connection gets from send(RawRequest): the frame of `RequestOnWire`, 35 bytes plus the payload. */
  lemma RequestFrame(rr: RawRequest, now: u64)
    ensures Flatten(RequestChunks(rr, now)) == FrameBytes(InRequest(RequestOnWire(rr, rr.gatewayId, now)))
    ensures NoEmptyStrict(RequestChunks(rr, now))
    ensures |Flatten(RequestChunks(rr, now))| == 35 + Length32(rr.request.data)
  {
    var q := rr.request;
    RequestLayoutFrame(rr.cmdId, rr.gatewayId, rr.clientId, now, rr.apiVersion, q.msgType, q.data, false);
    RequestLayoutWrites(rr.cmdId, rr.gatewayId, rr.clientId, now, rr.apiVersion, q.msgType, q.data, false);
    FrameSize(InRequest(RequestOnWire(rr, rr.gatewayId, now)));
  }

  /** The bytes of send(RawRequest) as written: the same frame, but carrying the indeterminate gatewayId. */
  lemma RequestFrameAsWritten(rr: RawRequest, now: u64, indeterminate: u64)
    ensures Flatten(RequestChunksAsWritten(rr, now, indeterminate)) == FrameBytes(InRequest(RequestOnWire(rr, indeterminate, now)))
    ensures NoEmptyStrict(RequestChunksAsWritten(rr, now, indeterminate)) <==> Length32(rr.request.data) != 0
  {
    var q := rr.request;
    RequestLayoutFrame(rr.cmdId, indeterminate, rr.clientId, now, rr.apiVersion, q.msgType, q.data, true);
    RequestLayoutWrites(rr.cmdId, indeterminate, rr.clientId, now, rr.apiVersion, q.msgType, q.data, true);
  }

  /** The bytes a connection gets from send(RawResponse): 16 bytes plus the payload. */
  lemma ResponseFrame(rr: RawResponse, now: u64)
    ensures Flatten(ResponseChunks(rr, now)) == FrameBytes(InResponse(ResponseOnWire(rr, now)))
    ensures NoEmptyStrict(ResponseChunks(rr, now))
    ensures |Flatten(ResponseChunks(rr, now))| == 16 + Length32(rr.response.data)
  {
    Pow256Widths();
    ResponseLayoutFrame(rr.cmdId, now, ToBE(now, 8), rr.response.status, rr.response.data);
    FrameSize(InResponse(ResponseOnWire(rr, now)));
  }

  /**
    The bytes of send(RawResponse) as written: the time field carries the
    host-order bytes of the clock, which a reader converting from network
    order takes for `BigEndian(host, now)`.
  */
  lemma ResponseFrameAsWritten(host: ByteOrder, rr: RawResponse, now: u64)
    ensures Flatten(ResponseChunksAsWritten(host, rr, now)) ==
      FrameBytes(InResponse(ResponseOnWire(rr, BigEndian(host, now, 8))))
    ensures NoEmptyStrict(ResponseChunksAsWritten(host, rr, now))
  {
    Pow256Widths();
    var swapped := BigEndian(host, now, 8);
    BigEndianInvolution(host, now, 8);
    assert InMemory(host, BigEndian(host, swapped, 8), 8) == ToBE(swapped, 8);
    ResponseLayoutFrame(rr.cmdId, swapped, InMemory(host, now, 8), rr.response.status, rr.response.data);
  }

  /** send(RawSignUpRequest) writes exactly 11 bytes: 0x01, cmdId, gatewayId, the last two in network order. */
  lemma SignUpFrame(r: RawSignUpRequest)
    ensures Flatten(SignUpChunks(r)) == [TagSignUpRequest] + ToBE(r.cmdId, 2) + ToBE(r.gatewayId, 8)
    ensures |Flatten(SignUpChunks(r))| == 11
    ensures NoEmptyStrict(SignUpChunks(r))
  {
    Pow256Widths();
    var cs := SignUpChunks(r);
    FlattenFrom(cs, 2);
    assert cs[3..] == [];
    FlattenFrom(cs, 1);
    FlattenFrom(cs, 0);
    assert cs[0..] == cs;
    forall i | 0 <= i < |cs| ensures !(cs[i].emptyFails && cs[i].bytes == []) {
    }
  }

  /** send(RawSignInRequest) writes exactly 19 bytes: 0x02, cmdId, gatewayId, clientId, the last three in network order. */
  lemma SignInFrame(r: RawSignInRequest)
    ensures Flatten(SignInChunks(r)) == [TagSignInRequest] + (ToBE(r.cmdId, 2) + (ToBE(r.gatewayId, 8) + ToBE(r.clientId, 8)))
    ensures |Flatten(SignInChunks(r))| == 19
    ensures NoEmptyStrict(SignInChunks(r))
  {
    Pow256Widths();
    var cs := SignInChunks(r);
    FlattenFour(cs);
    forall i | 0 <= i < |cs| ensures !(cs[i].emptyFails && cs[i].bytes == []) {
    }
  }

  /** Frame sizes: request 35, response 16, sign-up response 12, sign-in response 4 bytes, plus the payload. */
  lemma FrameSize(f: InFrame)
    requires |Payload(f)| < 0x1_0000_0000
    ensures |FrameBytes(f)| == |Payload(f)| + match f
      case InRequest(_) => 35
      case InResponse(_) => 16
      case InSignUp(_) => 12
      case InSignIn(_) => 4
  {
    Pow256Widths();
  }

  // ------------------------------------------------------------------
  // Properties of the Receiver's step
  // ------------------------------------------------------------------

  /** Any tag other than 0x00, 0x80, 0x81 and 0x82 stops the loop once the cmdId is read, and nothing is decoded. */
  lemma UnknownTagStops(input: seq<u8>, policy: Policy)
    requires |input| >= 3
    requires input[0] != TagRequest && input[0] != TagResponse
    requires input[0] != TagSignUpResponse && input[0] != TagSignInResponse
    ensures ParseFrame(input, policy) == Stopped(UnknownTag(input[0]), input[3..])
  {
    var afterTag := input[1..];
    assert ReadU8(input) == Parsed(input[0], afterTag);
    var cmdId := ReadU16(afterTag);
    SplitAt(ToBE(cmdId.value, 2), cmdId.rest, afterTag[..2], afterTag[2..]);
    assert afterTag[2..] == input[3..];
  }

  /** No admitted frame's bytes are a proper prefix of another admitted frame's bytes. */
  lemma FramesPrefixFree(f: InFrame, g: InFrame, tail: seq<u8>, policy: Policy)
    requires Admits(policy, f) && Admits(policy, g)
    requires FrameBytes(f) == FrameBytes(g) + tail
    ensures tail == [] && f == g
  {
    ParseFrameOf(f, [], policy);
    ParseFrameOf(g, tail, policy);
    assert FrameBytes(f) + [] == FrameBytes(g) + tail;
  }

  lemma PrefixSplit(whole: seq<u8>, k: nat, head: seq<u8>, rest: seq<u8>)
    requires k <= |whole| && whole[..k] == head + rest
    ensures |head| <= k && whole == head + whole[|head|..]
  {
    assert whole[..|head|] == whole[..k][..|head|];
  }

  /** A proper prefix of an admitted frame's bytes does not start with an admitted frame. */
  lemma TruncatedNotFrame(f: InFrame, g: InFrame, k: nat, rest: seq<u8>, policy: Policy)
    requires Admits(policy, f) && Admits(policy, g) && k < |FrameBytes(f)|
    ensures FrameBytes(f)[..k] != FrameBytes(g) + rest
  {
    var whole, head := FrameBytes(f), FrameBytes(g);
    if whole[..k] == head + rest {
      PrefixSplit(whole, k, head, rest);
      FramesPrefixFree(f, g, whole[|head|..], policy);
    }
  }

  /** A frame cut short anywhere is not decoded: the reader stops instead of producing a partial frame. */
  lemma TruncatedFrameStops(f: InFrame, k: nat, policy: Policy)
    requires Admits(policy, f) && k < |FrameBytes(f)|
    ensures ParseFrame(FrameBytes(f)[..k], policy).Stopped?
  {
    var input := FrameBytes(f)[..k];
    if ParseFrame(input, policy).Parsed? {
      var p := ParseFrame(input, policy);
      ParsedFrame(input, policy);
      TruncatedNotFrame(f, p.value, k, p.rest, policy);
    }
  }

  /**
    How the two payload policies treat a request or response frame.  As
    written, a 0-byte payload stops the loop and any longer payload is read,
    also one longer than the 1024-byte buffer it is read into.  Checked, a
    0-byte payload is an empty frame and a payload over 1024 bytes is refused.
  */
  lemma PayloadPolicies(f: InFrame, rest: seq<u8>)
    requires f.InRequest? || f.InResponse?
    requires |Payload(f)| < 0x1_0000_0000
    ensures ParseFrame(FrameBytes(f) + rest, AsWritten) ==
      if Payload(f) == [] then Stopped(EmptyRead, rest) else Parsed(f, rest)
    ensures ParseFrame(FrameBytes(f) + rest, Checked) ==
      if |Payload(f)| > BufferSize then Stopped(PayloadTooLarge(|Payload(f)|), Payload(f) + rest) else Parsed(f, rest)
  {
    if f.InRequest? {
      ParseRequestFrameOf(f.request, rest, AsWritten);
      ParseRequestFrameOf(f.request, rest, Checked);
    } else {
      ParseResponseFrameOf(f.response, rest, AsWritten);
      ParseResponseFrameOf(f.response, rest, Checked);
    }
    if Payload(f) == [] {
      assert Payload(f) + rest == rest;
    }
  }

  // ------------------------------------------------------------------
  // Sender against Receiver
  // ------------------------------------------------------------------

  /** send(RawRequest) succeeds exactly when the connection takes 35 bytes plus the payload, and then it has sent the whole frame. */
  lemma SendRequestOutcome(rr: RawRequest, now: u64, budget: nat)
    ensures Transmit(RequestChunks(rr, now), budget).ok <==> 35 + Length32(rr.request.data) <= budget
    ensures Transmit(RequestChunks(rr, now), budget).ok ==>
      Transmit(RequestChunks(rr, now), budget).sent == FrameBytes(InRequest(RequestOnWire(rr, rr.gatewayId, now)))
  {
    RequestFrame(rr, now);
    TransmitSucceeds(RequestChunks(rr, now), budget);
  }

  /**
    A request sent by send(RawRequest) is read back by receiveRequest with the
    same cmdId, gatewayId, clientId, apiVersion, type and payload, and with
    the clock value of the send as its time.
  */
  lemma RequestRoundTrip(rr: RawRequest, now: u64, rest: seq<u8>, policy: Policy)
    requires Admits(policy, InRequest(rr))
    ensures ParseFrame(Flatten(RequestChunks(rr, now)) + rest, policy) ==
      Parsed(InRequest(rr.(request := rr.request.(time := now))), rest)
  {
    RequestFrame(rr, now);
    assert rr.request.data[..Length32(rr.request.data)] == rr.request.data;
    ParseFrameOf(InRequest(rr.(request := rr.request.(time := now))), rest, policy);
  }

  /** A response sent by send(RawResponse) is read back by receiveResponse with the same cmdId, status and payload and the send-time clock. */
  lemma ResponseRoundTrip(rr: RawResponse, now: u64, rest: seq<u8>, policy: Policy)
    requires Admits(policy, InResponse(rr))
    ensures ParseFrame(Flatten(ResponseChunks(rr, now)) + rest, policy) ==
      Parsed(InResponse(rr.(response := rr.response.(time := now))), rest)
  {
    ResponseFrame(rr, now);
    assert rr.response.data[..Length32(rr.response.data)] == rr.response.data;
    ParseFrameOf(InResponse(rr.(response := rr.response.(time := now))), rest, policy);
  }

  /**
    As written, the request frame reads back with the cmdId, clientId,
    apiVersion, type and payload of the request, but the gatewayId is whatever
    the self-initialised local held, not the request's.
  */
  lemma GatewayIdNotForwarded(rr: RawRequest, now: u64, indeterminate: u64, rest: seq<u8>, policy: Policy)
    requires Admits(policy, InRequest(rr))
    ensures var p := ParseFrame(Flatten(RequestChunksAsWritten(rr, now, indeterminate)) + rest, policy);
      p == Parsed(InRequest(rr.(gatewayId := indeterminate, request := rr.request.(time := now))), rest) &&
      (indeterminate != rr.gatewayId ==> p.value.request.gatewayId != rr.gatewayId)
  {
    RequestFrameAsWritten(rr, now, indeterminate);
    assert rr.request.data[..Length32(rr.request.data)] == rr.request.data;
    ParseFrameOf(InRequest(rr.(gatewayId := indeterminate, request := rr.request.(time := now))), rest, policy);
  }

  /**
    As written, an empty request payload makes send(RawRequest) report failure
    even though the whole 35-byte frame has gone out, so the Sender stops.
    With the payload write accepting 0 bytes the same send succeeds.
  */
  lemma EmptyRequestPayloadFails(rr: RawRequest, now: u64, indeterminate: u64, budget: nat)
    requires rr.request.data == [] && budget >= 35
    ensures Transmit(RequestChunksAsWritten(rr, now, indeterminate), budget) ==
      Transmission(false, FrameBytes(InRequest(RequestOnWire(rr, indeterminate, now))))
    ensures Transmit(RequestChunks(rr, now), budget) ==
      Transmission(true, FrameBytes(InRequest(RequestOnWire(rr, rr.gatewayId, now))))
  {
    var cs := RequestChunksAsWritten(rr, now, indeterminate);
    RequestFrameAsWritten(rr, now, indeterminate);
    RequestLayoutWrites(rr.cmdId, indeterminate, rr.clientId, now, rr.apiVersion, rr.request.msgType, [], true);
    FrameSize(InRequest(RequestOnWire(rr, indeterminate, now)));
    LastWriteEmpty(cs, budget);
    SendRequestOutcome(rr, now, budget);
    FrameSize(InRequest(RequestOnWire(rr, rr.gatewayId, now)));
  }

  /**
    As written, on a little-endian host the time of a response reads back
    byte-swapped: a clock value of 1 arrives as 2^56.
  */
  lemma ResponseTimeByteSwapped(rr: RawResponse, rest: seq<u8>)
    requires |rr.response.data| <= BufferSize
    ensures ParseFrame(Flatten(ResponseChunksAsWritten(LittleEndianHost, rr, 1)) + rest, Checked) ==
      Parsed(InResponse(rr.(response := rr.response.(time := 0x0100_0000_0000_0000))), rest)
  {
    SwapOne();
    ResponseFrameAsWritten(LittleEndianHost, rr, 1);
    ResponseWithTimeReadBack(rr, 0x0100_0000_0000_0000, rest);
  }

  lemma ResponseWithTimeReadBack(rr: RawResponse, time: u64, rest: seq<u8>)
    requires |rr.response.data| <= BufferSize
    ensures ParseFrame(FrameBytes(InResponse(ResponseOnWire(rr, time))) + rest, Checked) ==
      Parsed(InResponse(rr.(response := rr.response.(time := time))), rest)
  {
    var received := rr.(response := rr.response.(time := time));
    assert rr.response.data[..Length32(rr.response.data)] == rr.response.data;
    assert ResponseOnWire(rr, time) == received;
    ParseFrameOf(InResponse(received), rest, Checked);
  }

  /** On a little-endian host the 64-bit conversion of 1 lies in memory as the bytes of 2^56. */
  lemma SwapOneBytes()
    ensures ToBE(BigEndian(LittleEndianHost, 1, 8), 8) == [1, 0, 0, 0, 0, 0, 0, 0]
  {
    Pow256Widths();
    var swapped := BigEndian(LittleEndianHost, 1, 8);
    assert ToBE(1, 8) == [0, 0, 0, 0, 0, 0, 0, 1];
    assert Reverse(ToBE(swapped, 8)) == ToBE(1, 8);
    ReverseReverse(ToBE(swapped, 8));
  }

  lemma SwapOne()
    ensures BigEndian(LittleEndianHost, 1, 8) == 0x0100_0000_0000_0000
  {
    Pow256Widths();
    SwapOneBytes();
    assert ToBE(0x0100_0000_0000_0000, 8) == [1, 0, 0, 0, 0, 0, 0, 0];
    ToBEInjective(BigEndian(LittleEndianHost, 1, 8), 0x0100_0000_0000_0000, 8);
  }
}
