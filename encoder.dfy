/**
  The untagged Encoder (src/Encoder.h): it writes a request or a response
  field by field to the connection and returns false at the first write that
  fails.  Each method is proved against the list of writes in
  `UntaggedCodec`; what that list puts on the wire, and how the Decoder reads
  it back, is proved there.
*/
module Encoders {
  import opened Util
  import opened Socket
  import opened Messages
  import opened TaggedCodec
  import opened Transfer
  import opened UntaggedCodec

  /** The writes of encode(request), nested from the right as the encoder does them. */
  lemma EncodeRequestWrites(cmdId: u16, gatewayId: u64, apiVersion: u16, r: SentRequest, now: u64, cs: seq<Chunk>)
    requires cmdId < Pow256(2) && gatewayId < Pow256(8) && r.clientId < Pow256(8) && now < Pow256(8)
    requires apiVersion < Pow256(2) && r.msgType < Pow256(2) && Length32(r.data) < Pow256(4)
    requires cs == [Chunk(Field(cmdId, 2), true)] + ([Chunk(Field(gatewayId, 8), true)]
      + ([Chunk(Field(r.clientId, 8), true)] + ([Chunk(Field(now, 8), true)] + ([Chunk(Field(apiVersion, 2), true)]
      + ([Chunk(Field(r.msgType, 2), true)] + ([Chunk(Field(Length32(r.data), 4), true)]
      + ([Chunk(r.data[..Length32(r.data)], false)] + [])))))))
    ensures cs == EncodeRequestChunks(cmdId, gatewayId, apiVersion, r, now)
  {
    var len := Length32(r.data);
    Nest8(Chunk(Field(cmdId, 2), true), Chunk(Field(gatewayId, 8), true), Chunk(Field(r.clientId, 8), true),
      Chunk(Field(now, 8), true), Chunk(Field(apiVersion, 2), true), Chunk(Field(r.msgType, 2), true),
      Chunk(Field(len, 4), true), Chunk(r.data[..len], false));
  }

  /** The writes of the intended encode(response), nested from the right. */
  lemma EncodeResponseWrites(cmdId: u16, r: SentResponse, now: u64, cs: seq<Chunk>)
    requires SetResponseBit(cmdId) < Pow256(2) && now < Pow256(8) && Length32(r.data) < Pow256(4)
    requires cs == [Chunk(Field(SetResponseBit(cmdId), 2), false)] + ([Chunk(Field(now, 8), false)]
      + ([Chunk([r.status], false)] + ([Chunk(Field(Length32(r.data), 4), false)]
      + ([Chunk(r.data[..Length32(r.data)], false)] + []))))
    ensures cs == EncodeResponseChunks(cmdId, r, now)
  {
    var len := Length32(r.data);
    Nest5(Chunk(Field(SetResponseBit(cmdId), 2), false), Chunk(Field(now, 8), false), Chunk([r.status], false),
      Chunk(Field(len, 4), false), Chunk(r.data[..len], false));
  }

  class Encoder {
    const host: ByteOrder
    const conn: Connection

    constructor (host: ByteOrder, conn: Connection)
      ensures this.host == host && this.conn == conn
    {
      this.host := host;
      this.conn := conn;
    }

    /**
      encode(request): cmdId, the caller's gatewayId, clientId, the clock
      value `now`, the caller's apiVersion, type and length, each converted
      to network order, then the payload.  The payload write accepts 0
      bytes; the encoder as written counts it as a failure
      (`UntaggedCodec.EncodeEmptyRequestFails`).
    */
    method EncodeRequest(cmdId: u16, gatewayId: u64, apiVersion: u16, r: SentRequest, now: u64) returns (ok: bool)
      modifies conn`sent, conn`budget
      ensures Finished(conn, ok, Transmit(EncodeRequestChunks(cmdId, gatewayId, apiVersion, r, now), old(conn.budget)),
                       old(conn.sent), old(conn.budget))
    {
      Pow256Widths();
      ghost var len := Length32(r.data);
      ghost var m7: seq<Chunk> := [];
      ghost var m6 := [Chunk(r.data[..len], false)] + m7;
      ghost var m5 := [Chunk(Field(len, 4), true)] + m6;
      ghost var m4 := [Chunk(Field(r.msgType, 2), true)] + m5;
      ghost var m3 := [Chunk(Field(apiVersion, 2), true)] + m4;
      ghost var m2 := [Chunk(Field(now, 8), true)] + m3;
      ghost var m1 := [Chunk(Field(r.clientId, 8), true)] + m2;
      ghost var m0 := [Chunk(Field(gatewayId, 8), true)] + m1;
      EncodeRequestWrites(cmdId, gatewayId, apiVersion, r, now, [Chunk(Field(cmdId, 2), true)] + m0);
      ghost var chunks := EncodeRequestChunks(cmdId, gatewayId, apiVersion, r, now);
      ghost var sent0, budget0, total := conn.sent, conn.budget, Transmit(chunks, conn.budget);
      StartPending(conn, chunks);

      ok := PutField(conn, host, cmdId, 2, true, total, m0, sent0, budget0);
      if !ok { return; }
      ok := PutField(conn, host, gatewayId, 8, true, total, m1, sent0, budget0);
      if !ok { return; }
      ok := PutField(conn, host, r.clientId, 8, true, total, m2, sent0, budget0);
      if !ok { return; }
      ok := PutField(conn, host, now, 8, true, total, m3, sent0, budget0);
      if !ok { return; }
      ok := PutField(conn, host, apiVersion, 2, true, total, m4, sent0, budget0);
      if !ok { return; }
      ok := PutField(conn, host, r.msgType, 2, true, total, m5, sent0, budget0);
      if !ok { return; }
      var lengthBytes, length := LengthField(host, Length32(r.data));
      ok := Put(conn, Chunk(lengthBytes, true), total, m6, sent0, budget0);
      if !ok { return; }
      ok := Put(conn, Chunk(r.data[..length], false), total, m7, sent0, budget0);
      if !ok { return; }
      EndPending(conn, total, sent0, budget0);
    }

    /**
      encode(response) as intended: the cmdId with the response bit set, the
      clock value, status, length and payload, the multi-byte fields
      converted to network order, each through a bare write_n.  The encoder
      as written converts none of them and leaves the bit clear
      (`UntaggedCodec.EncodeResponseChunksAsWritten`).
    */
    method EncodeResponse(cmdId: u16, r: SentResponse, now: u64) returns (ok: bool)
      modifies conn`sent, conn`budget
      ensures Finished(conn, ok, Transmit(EncodeResponseChunks(cmdId, r, now), old(conn.budget)),
                       old(conn.sent), old(conn.budget))
    {
      Pow256Widths();
      ghost var len := Length32(r.data);
      ghost var m4: seq<Chunk> := [];
      ghost var m3 := [Chunk(r.data[..len], false)] + m4;
      ghost var m2 := [Chunk(Field(len, 4), false)] + m3;
      ghost var m1 := [Chunk([r.status], false)] + m2;
      ghost var m0 := [Chunk(Field(now, 8), false)] + m1;
      var id := SetResponseBit(cmdId);
      EncodeResponseWrites(cmdId, r, now, [Chunk(Field(id, 2), false)] + m0);
      ghost var chunks := EncodeResponseChunks(cmdId, r, now);
      ghost var sent0, budget0, total := conn.sent, conn.budget, Transmit(chunks, conn.budget);
      StartPending(conn, chunks);

      ok := PutField(conn, host, id, 2, false, total, m0, sent0, budget0);
      if !ok { return; }
      ok := PutField(conn, host, now, 8, false, total, m1, sent0, budget0);
      if !ok { return; }
      ok := Put(conn, Chunk([r.status], false), total, m2, sent0, budget0);
      if !ok { return; }
      var lengthBytes, length := LengthField(host, Length32(r.data));
      ok := Put(conn, Chunk(lengthBytes, false), total, m3, sent0, budget0);
      if !ok { return; }
      ok := Put(conn, Chunk(r.data[..length], false), total, m4, sent0, budget0);
      if !ok { return; }
      EndPending(conn, total, sent0, budget0);
    }
  }
}
