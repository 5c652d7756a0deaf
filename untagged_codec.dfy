/**
  The untagged framing of the older generation (src/Encoder.h and
  src/Decoder.h).

  There is no tag byte.  The top bit of the 16-bit cmdId tells the frames
  apart: clear for a request, set for a response.  The two ids 0 and 0x8000
  name neither.  `EncodeRequestChunks` and `EncodeResponseChunks` are the
  writes of `Encoder::encode`.  `DecodeFrame` is `Decoder::decode` as a
  parser.  `DecodedBytes` is the canonical layout the two meet in.
*/
module UntaggedCodec {
  import opened Util
  import opened Socket
  import opened Messages
  import opened TaggedCodec

  /** An id without the response bit, and not 0: the ids the two frame kinds carry. */
  predicate PlainId(id: u16) {
    0 < id < 0x8000
  }

  /** `cmdId | 0x8000`: marks a cmdId as the id of a response. */
  function SetResponseBit(id: u16): (r: u16)
    ensures r >= 0x8000
    ensures PlainId(id) ==> r != 0x8000 && r - 0x8000 == id
  {
    if id < 0x8000 then id + 0x8000 else id
  }

  // ------------------------------------------------------------------
  // Encoder::encode
  // ------------------------------------------------------------------

  /**
    The writes of encode(request): cmdId, gatewayId, clientId, the clock
    value, apiVersion, type, length and payload, each through the `write`
    helper, which counts a 0-byte write as a failure.  The gatewayId and
    apiVersion are the caller's arguments; there is no tag byte.
    `emptyPayloadFails` says whether the payload write fails on 0 bytes too.
  */
  function EncodeRequestLayout(cmdId: u16, gatewayId: u64, apiVersion: u16, r: SentRequest, now: u64,
                               emptyPayloadFails: bool): (chunks: seq<Chunk>)
    ensures |chunks| == 8
  {
    Pow256Widths();
    var length := Length32(r.data);
    [ Chunk(Field(cmdId, 2), true),
      Chunk(Field(gatewayId, 8), true),
      Chunk(Field(r.clientId, 8), true),
      Chunk(Field(now, 8), true),
      Chunk(Field(apiVersion, 2), true),
      Chunk(Field(r.msgType, 2), true),
      Chunk(Field(length, 4), true),
      Chunk(r.data[..length], emptyPayloadFails) ]
  }

  /** encode(request) with a 0-byte payload accepted, as the Encoder class does it. */
  function EncodeRequestChunks(cmdId: u16, gatewayId: u64, apiVersion: u16, r: SentRequest, now: u64): (chunks: seq<Chunk>)
    ensures |chunks| == 8
  {
    EncodeRequestLayout(cmdId, gatewayId, apiVersion, r, now, false)
  }

  /** encode(request) as written: the payload write goes through `write` like the others. */
  function EncodeRequestChunksAsWritten(cmdId: u16, gatewayId: u64, apiVersion: u16, r: SentRequest, now: u64): (chunks: seq<Chunk>)
    ensures |chunks| == 8
  {
    EncodeRequestLayout(cmdId, gatewayId, apiVersion, r, now, true)
  }

  /**
    The writes of encode(response) as intended: the cmdId with the response
    bit set, the clock value, status, length and payload, the multi-byte
    fields in network order, all through bare write_n calls.
  */
  function EncodeResponseChunks(cmdId: u16, r: SentResponse, now: u64): (chunks: seq<Chunk>)
    ensures |chunks| == 5
  {
    Pow256Widths();
    var length := Length32(r.data);
    [ Chunk(Field(SetResponseBit(cmdId), 2), false),
      Chunk(Field(now, 8), false),
      Chunk([r.status], false),
      Chunk(Field(length, 4), false),
      Chunk(r.data[..length], false) ]
  }

  /**
    encode(response) as written: cmdId, time and length go out as they lie
    in the host's memory, with no conversion, and the response bit is not
    set.
  */
  function EncodeResponseChunksAsWritten(host: ByteOrder, cmdId: u16, r: SentResponse, now: u64): (chunks: seq<Chunk>)
    ensures |chunks| == 5
  {
    Pow256Widths();
    var length := Length32(r.data);
    [ Chunk(InMemory(host, cmdId, 2), false),
      Chunk(InMemory(host, now, 8), false),
      Chunk([r.status], false),
      Chunk(InMemory(host, length, 4), false),
      Chunk(r.data[..length], false) ]
  }

  // ------------------------------------------------------------------
  // Decoder::decode
  // ------------------------------------------------------------------

  /** What decode delivers: a request or a response, by the out-parameter it assigns. */
  datatype Decoded = DecodedRequest(request: ReceivedRequest) | DecodedResponse(response: ReceivedResponse)

  /**
    The response payload.  It is read with a bare read_n, so as written a
    length of 0 is an empty payload; the check against the 1024-byte buffer
    is the same as for every payload.
  */
  function ReadResponseData(input: seq<u8>, length: u32, policy: Policy): (p: Parse<seq<u8>>)
    ensures p.Parsed? <==> length <= |input| && (policy == Checked ==> length <= BufferSize)
    ensures p.Parsed? ==> input == p.value + p.rest && |p.value| == length
  {
    match policy
    case AsWritten => ReadBytes(input, length)
    case Checked => ReadPayload(input, length, Checked)
  }

  /** The request fields after the cmdId: gatewayId, clientId and time, then the rest. */
  function DecodeRequestBody(cmdId: u16, input: seq<u8>, policy: Policy): (p: Parse<ReceivedRequest>)
    ensures p.Parsed? ==> |p.rest| < |input| && p.value.commandId == cmdId
  {
    var gatewayId :- ReadU64(input);
    var clientId :- ReadU64(gatewayId.1);
    var time :- ReadU64(clientId.1);
    DecodeRequestTail(cmdId, gatewayId.0, clientId.0, time.0, time.1, policy)
  }

  /** apiVersion, type, length and payload, read through `read`, which fails on 0 bytes. */
  function DecodeRequestTail(cmdId: u16, gatewayId: u64, clientId: u64, time: u64, input: seq<u8>, policy: Policy)
    : (p: Parse<ReceivedRequest>)
    ensures p.Parsed? ==> |p.rest| <= |input| && p.value.commandId == cmdId
  {
    var apiVersion :- ReadU16(input);
    var msgType :- ReadU16(apiVersion.1);
    var data :- ReadLengthPrefixed(msgType.1, policy);
    Parsed(ReceivedRequest(cmdId, gatewayId, clientId, time, apiVersion.0, msgType.0, data.0), data.1)
  }

  /** The response fields after the cmdId: time, status, length and payload. */
  function DecodeResponseBody(commandId: u16, input: seq<u8>, policy: Policy): (p: Parse<ReceivedResponse>)
    ensures p.Parsed? ==> |p.rest| < |input| && p.value.commandId == commandId
  {
    var time :- ReadU64(input);
    var status :- ReadU8(time.1);
    var length :- ReadU32(status.1);
    var data :- ReadResponseData(length.1, length.0, policy);
    Parsed(ReceivedResponse(commandId, time.0, status.0, data.0), data.1)
  }

  /** decode: the cmdId, converted from network order, then the fields it announces. */
  function DecodeFrame(input: seq<u8>, policy: Policy): (p: Parse<Decoded>)
    ensures p.Parsed? ==> |p.rest| < |input|
  {
    var cmdId :- ReadU16(input);
    DecodeAfterId(cmdId.0, cmdId.1, policy)
  }

  /**
    The branch on the cmdId: the request fields when its top bit is clear,
    the response fields when it is set, with the bit cleared again
    (`cmdId ^= 0x8000`).  cmdId 0 and 0x8000 stop the decoder where it is.
  */
  function DecodeAfterId(id: u16, input: seq<u8>, policy: Policy): (p: Parse<Decoded>)
    ensures p.Parsed? ==> |p.rest| < |input|
    ensures PlainId(id) && p.Parsed? ==> p.value.DecodedRequest? && p.value.request.commandId == id
    ensures id > 0x8000 && p.Parsed? ==> p.value.DecodedResponse? && p.value.response.commandId == id - 0x8000
    ensures id == 0 || id == 0x8000 ==> p == Stopped(ReservedCmdId(id), input)
  {
    if id < 0x8000 && id != 0 then
      var q :- DecodeRequestBody(id, input, policy);
      Parsed(DecodedRequest(q.0), q.1)
    else if id >= 0x8000 && id != 0x8000 then
      var s :- DecodeResponseBody(id - 0x8000, input, policy);
      Parsed(DecodedResponse(s.0), s.1)
    else
      Stopped(ReservedCmdId(id), input)
  }

  // ------------------------------------------------------------------
  // The layout the two sides meet in
  // ------------------------------------------------------------------

  function DecodedData(d: Decoded): seq<u8> {
    match d
    case DecodedRequest(q) => q.data
    case DecodedResponse(s) => s.data
  }

  /**
    Whether a payload gets through the payload read.  As written any length
    is read, also past the buffer, and a request payload of 0 bytes fails;
    checked, a payload above the 1024-byte buffer is refused.
  */
  predicate PayloadAccepted(policy: Policy, data: seq<u8>, emptyFails: bool) {
    match policy
    case AsWritten => |data| < 0x1_0000_0000 && !(emptyFails && data == [])
    case Checked => |data| <= BufferSize
  }

  /** The frames the decoder can deliver: a plain id and a payload the policy lets through. */
  predicate Accepts(policy: Policy, d: Decoded) {
    match d
    case DecodedRequest(q) => PlainId(q.commandId) && PayloadAccepted(policy, q.data, true)
    case DecodedResponse(s) => PlainId(s.commandId) && PayloadAccepted(policy, s.data, false)
  }

  /** The request fields after the time. */
  function RequestTailBytes(q: ReceivedRequest): seq<u8>
    requires |q.data| < 0x1_0000_0000
  {
    Pow256Widths();
    ToBE(q.apiVersion, 2) + (ToBE(q.msgType, 2) + (ToBE(|q.data|, 4) + q.data))
  }

  /** Every field after the cmdId, in network order. */
  function BodyBytes(d: Decoded): seq<u8>
    requires |DecodedData(d)| < 0x1_0000_0000
  {
    Pow256Widths();
    match d
    case DecodedRequest(q) =>
      ToBE(q.gatewayId, 8) + (ToBE(q.clientId, 8) + (ToBE(q.time, 8) + RequestTailBytes(q)))
    case DecodedResponse(s) =>
      ToBE(s.time, 8) + ([s.status] + (ToBE(|s.data|, 4) + s.data))
  }

  /** The cmdId on the wire: the request's own, or the response's with the response bit set. */
  function WireId(d: Decoded): u16 {
    match d
    case DecodedRequest(q) => q.commandId
    case DecodedResponse(s) => SetResponseBit(s.commandId)
  }

  /** The bytes of a frame: the cmdId in network order, then the body. */
  function DecodedBytes(d: Decoded): seq<u8>
    requires |DecodedData(d)| < 0x1_0000_0000
  {
    Pow256Widths();
    ToBE(WireId(d), 2) + BodyBytes(d)
  }

  /** Frame sizes: a request is 34 bytes, a response 15, plus the payload. */
  lemma DecodedSize(d: Decoded)
    requires |DecodedData(d)| < 0x1_0000_0000
    ensures |DecodedBytes(d)| == |DecodedData(d)| + if d.DecodedRequest? then 34 else 15
  {
    Pow256Widths();
  }

  // ------------------------------------------------------------------
  // The decoder reads the layout back
  // ------------------------------------------------------------------

  lemma DecodeRequestTailOf(q: ReceivedRequest, rest: seq<u8>, policy: Policy)
    requires |q.data| < 0x1_0000_0000
    ensures var d := ReadPayload(q.data + rest, |q.data|, policy);
      DecodeRequestTail(q.commandId, q.gatewayId, q.clientId, q.time, RequestTailBytes(q) + rest, policy) ==
        if d.Parsed? then Parsed(q, rest) else Stopped(d.reason, d.at)
  {
    Pow256Widths();
    var s2 := ToBE(|q.data|, 4) + (q.data + rest);
    var s1 := ToBE(q.msgType, 2) + s2;
    RequestTailLayout(q, ToBE(q.apiVersion, 2) + s1, s1, s2, q.data + rest, rest);
    ReadU16Of(q.apiVersion, s1);
    ReadU16Of(q.msgType, s2);
    ReadLengthPrefixedOf(q.data, rest, policy);
  }

  /** The three 64-bit request fields read back, leaving the rest to the tail. */
  lemma DecodeRequestIds(cmdId: u16, gatewayId: u64, clientId: u64, time: u64, tail: seq<u8>, policy: Policy)
    ensures DecodeRequestBody(cmdId, ToBE(gatewayId, 8) + (ToBE(clientId, 8) + (ToBE(time, 8) + tail)), policy) ==
      DecodeRequestTail(cmdId, gatewayId, clientId, time, tail, policy)
  {
    var s2 := ToBE(time, 8) + tail;
    var s1 := ToBE(clientId, 8) + s2;
    ReadU64Of(gatewayId, s1);
    ReadU64Of(clientId, s2);
    ReadU64Of(time, tail);
  }

  lemma DecodeRequestBodyOf(q: ReceivedRequest, rest: seq<u8>, policy: Policy)
    requires |q.data| < 0x1_0000_0000
    ensures var d := ReadPayload(q.data + rest, |q.data|, policy);
      DecodeRequestBody(q.commandId, BodyBytes(DecodedRequest(q)) + rest, policy) ==
        if d.Parsed? then Parsed(q, rest) else Stopped(d.reason, d.at)
  {
    Pow256Widths();
    var s3 := RequestTailBytes(q) + rest;
    var s2 := ToBE(q.time, 8) + s3;
    var s1 := ToBE(q.clientId, 8) + s2;
    RequestBodyLayout(q, ToBE(q.gatewayId, 8) + s1, s1, s2, s3, rest);
    DecodeRequestIds(q.commandId, q.gatewayId, q.clientId, q.time, s3, policy);
    DecodeRequestTailOf(q, rest, policy);
  }

  lemma ReadResponseDataOf(data: seq<u8>, rest: seq<u8>, policy: Policy)
    requires |data| < 0x1_0000_0000
    ensures var d := ReadResponseData(data + rest, |data|, policy);
      d.Parsed? ==> d == Parsed(data, rest)
  {
    var d := ReadResponseData(data + rest, |data|, policy);
    if d.Parsed? {
      SplitAt(d.value, d.rest, data, rest);
    }
  }

  lemma DecodeResponseBodyOf(s: ReceivedResponse, rest: seq<u8>, policy: Policy)
    requires |s.data| < 0x1_0000_0000
    ensures var d := ReadResponseData(s.data + rest, |s.data|, policy);
      DecodeResponseBody(s.commandId, BodyBytes(DecodedResponse(s)) + rest, policy) ==
        if d.Parsed? then Parsed(s, rest) else Stopped(d.reason, d.at)
  {
    Pow256Widths();
    var s3 := s.data + rest;
    var s2 := ToBE(|s.data|, 4) + s3;
    var s1 := [s.status] + s2;
    var s0 := ToBE(s.time, 8) + s1;
    ResponseBodyLayout(s, s0, s1, s2, s3, rest);
    ReadU64Of(s.time, s1);
    assert ReadU8(s1) == Parsed(s.status, s2);
    ReadU32Of(|s.data|, s3);
    ReadResponseDataOf(s.data, rest, policy);
  }

  lemma ReadWireId(d: Decoded, rest: seq<u8>)
    requires |DecodedData(d)| < 0x1_0000_0000
    ensures ReadU16(DecodedBytes(d) + rest) == Parsed(WireId(d), BodyBytes(d) + rest)
  {
    Pow256Widths();
    assert DecodedBytes(d) + rest == ToBE(WireId(d), 2) + (BodyBytes(d) + rest);
    ReadU16Of(WireId(d), BodyBytes(d) + rest);
  }

  /** A frame laid out by `DecodedBytes` decodes back to itself, whatever follows it. */
  lemma DecodeFrameOf(d: Decoded, rest: seq<u8>, policy: Policy)
    requires Accepts(policy, d)
    ensures DecodeFrame(DecodedBytes(d) + rest, policy) == Parsed(d, rest)
  {
    match d
    case DecodedRequest(q) =>
      DecodeRequestOf(q, rest, policy);
    case DecodedResponse(s) =>
      DecodeResponseOf(s, rest, policy);
  }

  /** A laid-out response with a plain id decodes back unless its payload read stops. */
  lemma DecodeResponseOf(s: ReceivedResponse, rest: seq<u8>, policy: Policy)
    requires PlainId(s.commandId) && |s.data| < 0x1_0000_0000
    ensures var d := ReadResponseData(s.data + rest, |s.data|, policy);
      DecodeFrame(DecodedBytes(DecodedResponse(s)) + rest, policy) ==
        if d.Parsed? then Parsed(DecodedResponse(s), rest) else Stopped(d.reason, d.at)
  {
    var body := BodyBytes(DecodedResponse(s)) + rest;
    ReadWireId(DecodedResponse(s), rest);
    ResponseBranch(SetResponseBit(s.commandId), body, policy);
    DecodeResponseBodyOf(s, rest, policy);
  }

  /** The branch for a cmdId with the top bit set: the response fields, under the id with the bit cleared. */
  lemma ResponseBranch(id: u16, input: seq<u8>, policy: Policy)
    requires id > 0x8000
    ensures var b := DecodeResponseBody(id - 0x8000, input, policy);
      DecodeAfterId(id, input, policy) == if b.Parsed? then Parsed(DecodedResponse(b.value), b.rest) else Stopped(b.reason, b.at)
  {
  }

  /** The branch for a plain cmdId: the request fields, under that id. */
  lemma RequestBranch(id: u16, input: seq<u8>, policy: Policy)
    requires PlainId(id)
    ensures var b := DecodeRequestBody(id, input, policy);
      DecodeAfterId(id, input, policy) == if b.Parsed? then Parsed(DecodedRequest(b.value), b.rest) else Stopped(b.reason, b.at)
  {
  }

  lemma RequestTailLayout(q: ReceivedRequest, input: seq<u8>, s1: seq<u8>, s2: seq<u8>, s3: seq<u8>, rest: seq<u8>)
    requires |q.data| < 0x1_0000_0000
    requires input == ToBE(q.apiVersion, 2) + s1 && s1 == ToBE(q.msgType, 2) + s2
    requires s2 == ToBE(|q.data|, 4) + s3 && s3 == q.data + rest
    ensures input == RequestTailBytes(q) + rest
  {
  }

  lemma DecodedRequestTail(cmdId: u16, gatewayId: u64, clientId: u64, time: u64, input: seq<u8>, policy: Policy)
    requires DecodeRequestTail(cmdId, gatewayId, clientId, time, input, policy).Parsed?
    ensures var p := DecodeRequestTail(cmdId, gatewayId, clientId, time, input, policy);
      p.value.commandId == cmdId && p.value.gatewayId == gatewayId && p.value.clientId == clientId &&
      p.value.time == time && PayloadAccepted(policy, p.value.data, true) &&
      input == RequestTailBytes(p.value) + p.rest
  {
    Pow256Widths();
    var a := ReadU16(input);
    var ty := ReadU16(a.rest);
    var l := ReadU32(ty.rest);
    var d := ReadPayload(l.rest, l.value, policy);
    var q := ReceivedRequest(cmdId, gatewayId, clientId, time, a.value, ty.value, d.value);
    assert DecodeRequestTail(cmdId, gatewayId, clientId, time, input, policy) == Parsed(q, d.rest);
    RequestTailLayout(q, input, a.rest, ty.rest, l.rest, d.rest);
  }

  lemma RequestBodyLayout(q: ReceivedRequest, input: seq<u8>, s1: seq<u8>, s2: seq<u8>, s3: seq<u8>, rest: seq<u8>)
    requires |q.data| < 0x1_0000_0000
    requires input == ToBE(q.gatewayId, 8) + s1 && s1 == ToBE(q.clientId, 8) + s2
    requires s2 == ToBE(q.time, 8) + s3 && s3 == RequestTailBytes(q) + rest
    ensures input == BodyBytes(DecodedRequest(q)) + rest
  {
  }

  lemma DecodedRequestBody(cmdId: u16, input: seq<u8>, policy: Policy)
    requires DecodeRequestBody(cmdId, input, policy).Parsed?
    ensures var p := DecodeRequestBody(cmdId, input, policy);
      p.value.commandId == cmdId && PayloadAccepted(policy, p.value.data, true) &&
      input == BodyBytes(DecodedRequest(p.value)) + p.rest
  {
    Pow256Widths();
    var g := ReadU64(input);
    var c := ReadU64(g.rest);
    var t := ReadU64(c.rest);
    var p := DecodeRequestTail(cmdId, g.value, c.value, t.value, t.rest, policy);
    assert DecodeRequestBody(cmdId, input, policy) == p;
    DecodedRequestTail(cmdId, g.value, c.value, t.value, t.rest, policy);
    RequestBodyLayout(p.value, input, g.rest, c.rest, t.rest, p.rest);
  }

  lemma ResponseBodyLayout(s: ReceivedResponse, input: seq<u8>, s1: seq<u8>, s2: seq<u8>, s3: seq<u8>, rest: seq<u8>)
    requires |s.data| < 0x1_0000_0000
    requires input == ToBE(s.time, 8) + s1 && s1 == [s.status] + s2
    requires s2 == ToBE(|s.data|, 4) + s3 && s3 == s.data + rest
    ensures input == BodyBytes(DecodedResponse(s)) + rest
  {
  }

  lemma DecodedResponseBody(commandId: u16, input: seq<u8>, policy: Policy)
    requires DecodeResponseBody(commandId, input, policy).Parsed?
    ensures var p := DecodeResponseBody(commandId, input, policy);
      p.value.commandId == commandId && PayloadAccepted(policy, p.value.data, false) &&
      input == BodyBytes(DecodedResponse(p.value)) + p.rest
  {
    Pow256Widths();
    var t := ReadU64(input);
    var st := ReadU8(t.rest);
    var l := ReadU32(st.rest);
    var d := ReadResponseData(l.rest, l.value, policy);
    var s := ReceivedResponse(commandId, t.value, st.value, d.value);
    assert DecodeResponseBody(commandId, input, policy) == Parsed(s, d.rest);
    ResponseBodyLayout(s, input, t.rest, st.rest, l.rest, d.rest);
  }

  lemma FrameLayout(d: Decoded, input: seq<u8>, body: seq<u8>, rest: seq<u8>)
    requires |DecodedData(d)| < 0x1_0000_0000
    requires input == ToBE(WireId(d), 2) + body && body == BodyBytes(d) + rest
    ensures input == DecodedBytes(d) + rest
  {
  }

  /** Whatever the decoder delivers is a frame its policy accepts, laid out by `DecodedBytes`. */
  lemma DecodedFrame(input: seq<u8>, policy: Policy)
    requires DecodeFrame(input, policy).Parsed?
    ensures var p := DecodeFrame(input, policy);
      Accepts(policy, p.value) && input == DecodedBytes(p.value) + p.rest
  {
    var c := ReadU16(input);
    var id := c.value;
    var p := DecodeFrame(input, policy);
    if id < 0x8000 && id != 0 {
      DecodedRequestBody(id, c.rest, policy);
    } else {
      assert id >= 0x8000 && id != 0x8000;
      DecodedResponseBody(id - 0x8000, c.rest, policy);
      assert SetResponseBit(id - 0x8000) == id;
    }
    FrameLayout(p.value, input, c.rest, p.rest);
  }

  /**
    The decoder accepts exactly the laid-out frames its policy accepts: it
    delivers `d` followed by `rest` precisely when the input is
    `DecodedBytes(d) + rest`.
  */
  lemma DecodeFrameExactly(input: seq<u8>, policy: Policy, d: Decoded, rest: seq<u8>)
    ensures DecodeFrame(input, policy) == Parsed(d, rest) <==>
      Accepts(policy, d) && input == DecodedBytes(d) + rest
  {
    if DecodeFrame(input, policy) == Parsed(d, rest) {
      DecodedFrame(input, policy);
    }
    if Accepts(policy, d) && input == DecodedBytes(d) + rest {
      DecodeFrameOf(d, rest, policy);
    }
  }

  /** cmdId 0 and cmdId 0x8000 stop the decoder right after the cmdId: neither output is assigned. */
  lemma ReservedIdsStop(id: u16, rest: seq<u8>, policy: Policy)
    requires id == 0 || id == 0x8000
    ensures DecodeFrame(ToBE(id, 2) + rest, policy) == Stopped(ReservedCmdId(id), rest)
  {
    ReadU16Of(id, rest);
  }

  /** No accepted frame's bytes are a proper prefix of another accepted frame's bytes. */
  lemma DecodedPrefixFree(d: Decoded, e: Decoded, tail: seq<u8>, policy: Policy)
    requires Accepts(policy, d) && Accepts(policy, e)
    requires DecodedBytes(d) == DecodedBytes(e) + tail
    ensures tail == [] && d == e
  {
    DecodeFrameOf(d, [], policy);
    DecodeFrameOf(e, tail, policy);
    assert DecodedBytes(d) + [] == DecodedBytes(e) + tail;
  }

  /** A proper prefix of an accepted frame's bytes does not start with an accepted frame. */
  lemma TruncatedNotDecoded(d: Decoded, e: Decoded, k: nat, rest: seq<u8>, policy: Policy)
    requires Accepts(policy, d) && Accepts(policy, e) && k < |DecodedBytes(d)|
    ensures DecodedBytes(d)[..k] != DecodedBytes(e) + rest
  {
    var whole, head := DecodedBytes(d), DecodedBytes(e);
    if whole[..k] == head + rest {
      PrefixSplit(whole, k, head, rest);
      DecodedPrefixFree(d, e, whole[|head|..], policy);
    }
  }

  /**
    A frame cut short anywhere, the cmdId included, is not decoded: some
    read comes up short and neither output is assigned.
  */
  lemma TruncatedFrameStops(d: Decoded, k: nat, policy: Policy)
    requires Accepts(policy, d) && k < |DecodedBytes(d)|
    ensures DecodeFrame(DecodedBytes(d)[..k], policy).Stopped?
  {
    var input := DecodedBytes(d)[..k];
    if DecodeFrame(input, policy).Parsed? {
      var p := DecodeFrame(input, policy);
      DecodedFrame(input, policy);
      TruncatedNotDecoded(d, p.value, k, p.rest, policy);
    }
  }

  /**
    The payload policies on an accepted request layout: as written a payload
    of any length is read, also past the 1024-byte buffer, and an empty one
    fails; checked, a payload above the buffer is refused before it is read.
  */
  lemma RequestPayloadPolicies(q: ReceivedRequest, rest: seq<u8>)
    requires PlainId(q.commandId) && |q.data| < 0x1_0000_0000
    ensures DecodeFrame(DecodedBytes(DecodedRequest(q)) + rest, AsWritten) ==
      if q.data == [] then Stopped(EmptyRead, rest) else Parsed(DecodedRequest(q), rest)
    ensures DecodeFrame(DecodedBytes(DecodedRequest(q)) + rest, Checked) ==
      if |q.data| > BufferSize then Stopped(PayloadTooLarge(|q.data|), q.data + rest)
      else Parsed(DecodedRequest(q), rest)
  {
    DecodeRequestOf(q, rest, AsWritten);
    DecodeRequestOf(q, rest, Checked);
    if q.data == [] {
      assert q.data + rest == rest;
    }
  }

  /**
    The payload policies on an accepted response layout: as written every
    payload is read, however far past the 1024-byte buffer it reaches, and an
    empty one is accepted (`~read_n` fails only on -1); checked, a payload
    above the buffer is refused before it is read.
  */
  lemma ResponsePayloadPolicies(s: ReceivedResponse, rest: seq<u8>)
    requires PlainId(s.commandId) && |s.data| < 0x1_0000_0000
    ensures DecodeFrame(DecodedBytes(DecodedResponse(s)) + rest, AsWritten) == Parsed(DecodedResponse(s), rest)
    ensures DecodeFrame(DecodedBytes(DecodedResponse(s)) + rest, Checked) ==
      if |s.data| > BufferSize then Stopped(PayloadTooLarge(|s.data|), s.data + rest)
      else Parsed(DecodedResponse(s), rest)
  {
    DecodeResponseOf(s, rest, AsWritten);
    DecodeResponseOf(s, rest, Checked);
  }

  /** A laid-out request with a plain id decodes back unless its payload read stops. */
  lemma DecodeRequestOf(q: ReceivedRequest, rest: seq<u8>, policy: Policy)
    requires PlainId(q.commandId) && |q.data| < 0x1_0000_0000
    ensures var d := ReadPayload(q.data + rest, |q.data|, policy);
      DecodeFrame(DecodedBytes(DecodedRequest(q)) + rest, policy) ==
        if d.Parsed? then Parsed(DecodedRequest(q), rest) else Stopped(d.reason, d.at)
  {
    var body := BodyBytes(DecodedRequest(q)) + rest;
    ReadWireId(DecodedRequest(q), rest);
    RequestBranch(q.commandId, body, policy);
    DecodeRequestBodyOf(q, rest, policy);
  }

  // ------------------------------------------------------------------
  // What the Encoder puts on the wire
  // ------------------------------------------------------------------

  lemma FlattenFive(cs: seq<Chunk>)
    requires |cs| == 5
    ensures Flatten(cs) == cs[0].bytes + (cs[1].bytes + (cs[2].bytes + (cs[3].bytes + cs[4].bytes)))
  {
    FlattenFrom(cs, 4);
    assert cs[5..] == [];
    FlattenFrom(cs, 3);
    FlattenFrom(cs, 2);
    FlattenFrom(cs, 1);
    FlattenFrom(cs, 0);
    assert cs[0..] == cs;
  }

  lemma FlattenEight(cs: seq<Chunk>)
    requires |cs| == 8
    ensures Flatten(cs) == cs[0].bytes + (cs[1].bytes + (cs[2].bytes + (cs[3].bytes + (cs[4].bytes
      + (cs[5].bytes + (cs[6].bytes + cs[7].bytes))))))
  {
    FlattenFrom(cs, 7);
    assert cs[8..] == [];
    FlattenFrom(cs, 6);
    FlattenFrom(cs, 5);
    FlattenFrom(cs, 4);
    FlattenFrom(cs, 3);
    FlattenFrom(cs, 2);
    FlattenFrom(cs, 1);
    FlattenFrom(cs, 0);
    assert cs[0..] == cs;
  }

  /** The request a peer reads back from encode(request): the caller's ids, the clock value, the payload cut to its 32-bit length. */
  function RequestOnWire(cmdId: u16, gatewayId: u64, apiVersion: u16, r: SentRequest, now: u64): (q: ReceivedRequest)
    ensures |q.data| < 0x1_0000_0000
  {
    ReceivedRequest(cmdId, gatewayId, r.clientId, now, apiVersion, r.msgType, r.data[..Length32(r.data)])
  }

  /** The response a peer reads back from the intended encode(response). */
  function ResponseOnWire(cmdId: u16, r: SentResponse, now: u64): (s: ReceivedResponse)
    ensures |s.data| < 0x1_0000_0000
  {
    ReceivedResponse(cmdId, now, r.status, r.data[..Length32(r.data)])
  }

  lemma RequestLayoutWrites(cmdId: u16, gatewayId: u64, apiVersion: u16, r: SentRequest, now: u64, emptyPayloadFails: bool)
    ensures var cs := EncodeRequestLayout(cmdId, gatewayId, apiVersion, r, now, emptyPayloadFails);
      (NoEmptyStrict(cs) <==> !(emptyPayloadFails && Length32(r.data) == 0)) && NoEmptyStrict(cs[..7])
  {
    var cs := EncodeRequestLayout(cmdId, gatewayId, apiVersion, r, now, emptyPayloadFails);
    forall i | 0 <= i < 7 ensures !(cs[..7][i].emptyFails && cs[..7][i].bytes == []) {
      assert cs[..7][i] == cs[i];
    }
    if !(emptyPayloadFails && Length32(r.data) == 0) {
      forall i | 0 <= i < |cs| ensures !(cs[i].emptyFails && cs[i].bytes == []) {
      }
    } else {
      assert cs[7].emptyFails && cs[7].bytes == [];
    }
  }

  /**
    encode(request) writes the frame of `RequestOnWire`: no tag, 34 bytes
    plus the payload, with the length field equal to the number of payload
    bytes that follow it.
  */
  lemma RequestLayoutFrame(cmdId: u16, gatewayId: u64, apiVersion: u16, r: SentRequest, now: u64, emptyPayloadFails: bool)
    ensures var cs := EncodeRequestLayout(cmdId, gatewayId, apiVersion, r, now, emptyPayloadFails);
      Flatten(cs) == DecodedBytes(DecodedRequest(RequestOnWire(cmdId, gatewayId, apiVersion, r, now))) &&
      |Flatten(cs)| == 34 + Length32(r.data)
  {
    Pow256Widths();
    var cs := EncodeRequestLayout(cmdId, gatewayId, apiVersion, r, now, emptyPayloadFails);
    FlattenEight(cs);
    DecodedSize(DecodedRequest(RequestOnWire(cmdId, gatewayId, apiVersion, r, now)));
  }

  /** encode(request) succeeds exactly when the connection takes 34 bytes plus the payload; then it has sent the whole frame. */
  lemma EncodeRequestOutcome(cmdId: u16, gatewayId: u64, apiVersion: u16, r: SentRequest, now: u64, budget: nat)
    ensures var t := Transmit(EncodeRequestChunks(cmdId, gatewayId, apiVersion, r, now), budget);
      (t.ok <==> 34 + Length32(r.data) <= budget) &&
      (t.ok ==> t.sent == DecodedBytes(DecodedRequest(RequestOnWire(cmdId, gatewayId, apiVersion, r, now))))
  {
    RequestLayoutFrame(cmdId, gatewayId, apiVersion, r, now, false);
    RequestLayoutWrites(cmdId, gatewayId, apiVersion, r, now, false);
    TransmitSucceeds(EncodeRequestChunks(cmdId, gatewayId, apiVersion, r, now), budget);
  }

  /**
    As written, an empty request payload makes encode report failure
    although the whole 34-byte frame has gone out.
  */
  lemma EncodeEmptyRequestFails(cmdId: u16, gatewayId: u64, apiVersion: u16, r: SentRequest, now: u64, budget: nat)
    requires r.data == [] && budget >= 34
    ensures Transmit(EncodeRequestChunksAsWritten(cmdId, gatewayId, apiVersion, r, now), budget) ==
      Transmission(false, DecodedBytes(DecodedRequest(RequestOnWire(cmdId, gatewayId, apiVersion, r, now))))
  {
    var cs := EncodeRequestChunksAsWritten(cmdId, gatewayId, apiVersion, r, now);
    RequestLayoutFrame(cmdId, gatewayId, apiVersion, r, now, true);
    RequestLayoutWrites(cmdId, gatewayId, apiVersion, r, now, true);
    LastWriteEmpty(cs, budget);
  }

  /**
    For a cmdId in 1..0x7fff, the decoder reads what encode(request) wrote
    back with the same cmdId, gatewayId, clientId, apiVersion, type and
    payload, and the clock value of the encode as its time.
  */
  lemma RequestRoundTrip(cmdId: u16, gatewayId: u64, apiVersion: u16, r: SentRequest, now: u64, rest: seq<u8>, policy: Policy)
    requires PlainId(cmdId) && PayloadAccepted(policy, r.data, true)
    ensures DecodeFrame(Flatten(EncodeRequestChunks(cmdId, gatewayId, apiVersion, r, now)) + rest, policy) ==
      Parsed(DecodedRequest(ReceivedRequest(cmdId, gatewayId, r.clientId, now, apiVersion, r.msgType, r.data)), rest)
  {
    RequestLayoutFrame(cmdId, gatewayId, apiVersion, r, now, false);
    assert r.data[..Length32(r.data)] == r.data;
    DecodeFrameOf(DecodedRequest(RequestOnWire(cmdId, gatewayId, apiVersion, r, now)), rest, policy);
  }

  /** The intended encode(response) writes the frame of `ResponseOnWire`: 15 bytes plus the payload. */
  lemma ResponseFrame(cmdId: u16, r: SentResponse, now: u64)
    ensures var cs := EncodeResponseChunks(cmdId, r, now);
      Flatten(cs) == DecodedBytes(DecodedResponse(ResponseOnWire(cmdId, r, now))) &&
      |Flatten(cs)| == 15 + Length32(r.data) && NoEmptyStrict(cs)
  {
    Pow256Widths();
    var cs := EncodeResponseChunks(cmdId, r, now);
    FlattenFive(cs);
    DecodedSize(DecodedResponse(ResponseOnWire(cmdId, r, now)));
    forall i | 0 <= i < |cs| ensures !(cs[i].emptyFails && cs[i].bytes == []) {
    }
  }

  /**
    For a cmdId in 1..0x7fff, the intended encode(response) is read back as a
    response with the same cmdId, status and payload and the clock value of
    the encode.
  */
  lemma ResponseRoundTrip(cmdId: u16, r: SentResponse, now: u64, rest: seq<u8>, policy: Policy)
    requires PlainId(cmdId) && PayloadAccepted(policy, r.data, false)
    ensures DecodeFrame(Flatten(EncodeResponseChunks(cmdId, r, now)) + rest, policy) ==
      Parsed(DecodedResponse(ReceivedResponse(cmdId, now, r.status, r.data)), rest)
  {
    ResponseFrame(cmdId, r, now);
    assert r.data[..Length32(r.data)] == r.data;
    DecodeFrameOf(DecodedResponse(ResponseOnWire(cmdId, r, now)), rest, policy);
  }

  /**
    As written, encode(response) leads with the cmdId as it lies in memory,
    which the decoder converts and reads as `BigEndian(host, cmdId)`.  When
    that is a plain id, the frame is taken for the start of a request: the
    decoder never delivers it as a response.
  */
  lemma ResponseAsWrittenReadAsRequest(host: ByteOrder, cmdId: u16, r: SentResponse, now: u64, rest: seq<u8>, policy: Policy)
    requires PlainId(BigEndian(host, cmdId, 2))
    ensures var p := DecodeFrame(Flatten(EncodeResponseChunksAsWritten(host, cmdId, r, now)) + rest, policy);
      p.Parsed? ==> p.value.DecodedRequest? && p.value.request.commandId == BigEndian(host, cmdId, 2)
  {
    AsWrittenLead(host, cmdId, r, now, rest);
  }

  /** encode(response) as written leads with the network representation of the converted cmdId. */
  lemma AsWrittenLead(host: ByteOrder, cmdId: u16, r: SentResponse, now: u64, rest: seq<u8>)
    ensures ReadU16(Flatten(EncodeResponseChunksAsWritten(host, cmdId, r, now)) + rest).Parsed?
    ensures ReadU16(Flatten(EncodeResponseChunksAsWritten(host, cmdId, r, now)) + rest).value == BigEndian(host, cmdId, 2)
  {
    Pow256Widths();
    var cs := EncodeResponseChunksAsWritten(host, cmdId, r, now);
    var swapped := BigEndian(host, cmdId, 2);
    BigEndianInvolution(host, cmdId, 2);
    assert cs[0].bytes == ToBE(swapped, 2);
    FlattenFrom(cs, 0);
    assert cs[0..] == cs;
    var tail := Flatten(cs[1..]);
    Assoc(ToBE(swapped, 2), tail, rest);
    ReadU16Of(swapped, tail + rest);
  }

  /** On a big-endian host the response bit is never set, so no response to a plain id comes back as a response. */
  lemma ResponseAsWrittenOnBigEndianHost(cmdId: u16, r: SentResponse, now: u64, rest: seq<u8>, policy: Policy)
    requires PlainId(cmdId)
    ensures var p := DecodeFrame(Flatten(EncodeResponseChunksAsWritten(BigEndianHost, cmdId, r, now)) + rest, policy);
      p.Parsed? ==> p.value.DecodedRequest? && p.value.request.commandId == cmdId
  {
    ResponseAsWrittenReadAsRequest(BigEndianHost, cmdId, r, now, rest, policy);
  }

  /** On a little-endian host the response to cmdId 1 leads with the bytes 01 00, read as request id 0x0100. */
  lemma ResponseAsWrittenIdOne(r: SentResponse, now: u64, rest: seq<u8>, policy: Policy)
    ensures var p := DecodeFrame(Flatten(EncodeResponseChunksAsWritten(LittleEndianHost, 1, r, now)) + rest, policy);
      p.Parsed? ==> p.value.DecodedRequest? && p.value.request.commandId == 0x0100
  {
    Swap16(1);
    assert BigEndian(LittleEndianHost, 1, 2) == 0x0100;
    ResponseAsWrittenReadAsRequest(LittleEndianHost, 1, r, now, rest, policy);
  }
}
