/**
  The untagged Decoder (src/Decoder.h): it reads a cmdId, picks request or
  response by its top bit, reads the fields into locals and a 1024-byte
  buffer, and only then assigns the one out-parameter that matches what it
  returns.  Each method is proved against its parser in `UntaggedCodec`.
  The payload read is the corrected one (the `Checked` policy): it refuses
  a length above the buffer, which the decoder as written reads past, and
  it reads an empty request payload, which the C++ `read` helper refuses
  because it treats 0 bytes read as failure.
*/
module Decoders {
  import opened Util
  import opened Socket
  import opened Messages
  import opened TaggedCodec
  import opened Transfer
  import opened UntaggedCodec

  /** What decode returns: which out-parameter it assigned, or that it assigned neither. */
  datatype DecodeResult = RequestResult | ResponseResult | NoneResult

  class Decoder {
    const host: ByteOrder
    const conn: Connection

    constructor (host: ByteOrder, conn: Connection)
      ensures this.host == host && this.conn == conn
    {
      this.host := host;
      this.conn := conn;
    }

    /** The request fields after the time: apiVersion, type, length and payload. */
    method ReadRequestTail(cmdId: u16, gatewayId: u64, clientId: u64, time: u64, buf: array<u8>)
      returns (ok: bool, q: ReceivedRequest)
      requires buf.Length == BufferSize
      modifies conn`incoming, buf
      ensures var p := DecodeRequestTail(cmdId, gatewayId, clientId, time, old(conn.incoming), Checked);
        (ok <==> p.Parsed?) && (ok ==> q == p.value && conn.incoming == p.rest) && (!ok ==> conn.incoming == p.at)
    {
      Pow256Widths();
      q := ReceivedRequest(cmdId, gatewayId, clientId, time, 0, 0, []);
      var apiVersion, msgType;
      ok, apiVersion := Load(conn, host, 2);
      if !ok { return; }
      ok, msgType := Load(conn, host, 2);
      if !ok { return; }
      var data;
      ok, data := LoadLengthPrefixed(conn, host, buf);
      if !ok { return; }
      q := ReceivedRequest(cmdId, gatewayId, clientId, time, apiVersion as u16, msgType as u16, data);
    }

    /** The request fields after the cmdId: gatewayId, clientId and time, then the rest. */
    method ReadRequest(cmdId: u16, buf: array<u8>) returns (ok: bool, q: ReceivedRequest)
      requires buf.Length == BufferSize
      modifies conn`incoming, buf
      ensures var p := DecodeRequestBody(cmdId, old(conn.incoming), Checked);
        (ok <==> p.Parsed?) && (ok ==> q == p.value && conn.incoming == p.rest) && (!ok ==> conn.incoming == p.at)
    {
      Pow256Widths();
      q := ReceivedRequest(cmdId, 0, 0, 0, 0, 0, []);
      var gatewayId, clientId, time;
      ok, gatewayId := Load(conn, host, 8);
      if !ok { return; }
      ok, clientId := Load(conn, host, 8);
      if !ok { return; }
      ok, time := Load(conn, host, 8);
      if !ok { return; }
      ok, q := ReadRequestTail(cmdId, gatewayId as u64, clientId as u64, time as u64, buf);
    }

    /** The response fields after the cmdId: time, status, length and payload. */
    method ReadResponse(commandId: u16, buf: array<u8>) returns (ok: bool, s: ReceivedResponse)
      requires buf.Length == BufferSize
      modifies conn`incoming, buf
      ensures var p := DecodeResponseBody(commandId, old(conn.incoming), Checked);
        (ok <==> p.Parsed?) && (ok ==> s == p.value && conn.incoming == p.rest) && (!ok ==> conn.incoming == p.at)
    {
      Pow256Widths();
      s := ReceivedResponse(commandId, 0, 0, []);
      var time, status, length;
      ok, time := Load(conn, host, 8);
      if !ok { return; }
      ok, status := LoadByte(conn);
      if !ok { return; }
      ok, length := Load(conn, host, 4);
      if !ok { return; }
      var data;
      ok, data := LoadPayload(conn, buf, length as u32);
      if !ok { return; }
      s := ReceivedResponse(commandId, time as u64, status, data);
    }

    /**
      decode: a cmdId in 1..0x7fff is a request and keeps its id; one above
      0x8000 is a response whose id is the cmdId with the top bit cleared;
      0 and 0x8000 are neither.  Whatever stops the decoder, the caller's
      `request` and `response` come back as they were passed in, and on
      success only the one that matches the result is replaced.
    */
    method Decode(request0: ReceivedRequest, response0: ReceivedResponse)
      returns (result: DecodeResult, request: ReceivedRequest, response: ReceivedResponse)
      modifies conn`incoming
      ensures var p := DecodeFrame(old(conn.incoming), Checked);
        (result == NoneResult <==> p.Stopped?) &&
        (p.Stopped? ==> conn.incoming == p.at && request == request0 && response == response0) &&
        (p.Parsed? ==> conn.incoming == p.rest) &&
        (result == RequestResult <==> p.Parsed? && p.value.DecodedRequest?) &&
        (result == RequestResult ==> request == p.value.request && response == response0) &&
        (result == ResponseResult ==> response == p.value.response && request == request0)
    {
      Pow256Widths();
      request, response := request0, response0;
      result := NoneResult;
      var buf := new u8[BufferSize];
      var ok, v := Load(conn, host, 2);
      if !ok { return; }
      var cmdId := v as u16;
      if cmdId < 0x8000 && cmdId != 0 {
        var q;
        ok, q := ReadRequest(cmdId, buf);
        if !ok { return; }
        request, result := q, RequestResult;
      } else if cmdId >= 0x8000 && cmdId != 0x8000 {
        var s;
        ok, s := ReadResponse(cmdId - 0x8000, buf);
        if !ok { return; }
        response, result := s, ResponseResult;
      }
    }
  }
}
