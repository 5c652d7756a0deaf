/**
  The field-by-field socket writes and reads the codec classes share.

  A send is a run of writes with early return.  `Pending` and `Finished`
  relate the connection, partway through and at the end of such a run, to
  `Socket.Transmit` of the whole list of writes.

  A receive is a run of reads.  Each read either consumes exactly its field
  or stops and leaves the stream where it was, as its parser in
  `TaggedCodec` says.
*/
module Transfer {
  import opened Util
  import opened Socket
  import opened TaggedCodec

  /**
    Partway through a send that started with `sent0` sent and `budget0`
    accepted: `rest` are the writes still to do, and doing them completes
    the outcome `total` of the whole run.
  */
  ghost predicate Pending(conn: Connection, total: Transmission, rest: seq<Chunk>, sent0: seq<u8>, budget0: nat)
    reads conn
  {
    |sent0| <= |conn.sent| && conn.sent[..|sent0|] == sent0 &&
    conn.budget + |conn.sent| == budget0 + |sent0| &&
    var t := Transmit(rest, conn.budget);
    total == Transmission(t.ok, conn.sent[|sent0|..] + t.sent)
  }

  /** A run of writes is over: `ok` is its outcome and the connection has taken what it sent. */
  ghost predicate Finished(conn: Connection, ok: bool, total: Transmission, sent0: seq<u8>, budget0: nat)
    reads conn
  {
    ok == total.ok && conn.sent == sent0 + total.sent && conn.budget == budget0 - |total.sent|
  }

  lemma StartPending(conn: Connection, chunks: seq<Chunk>)
    ensures Pending(conn, Transmit(chunks, conn.budget), chunks, conn.sent, conn.budget)
  {
  }

  lemma EndPending(conn: Connection, total: Transmission, sent0: seq<u8>, budget0: nat)
    requires Pending(conn, total, [], sent0, budget0)
    ensures Finished(conn, true, total, sent0, budget0)
  {
    assert conn.sent == conn.sent[..|sent0|] + conn.sent[|sent0|..];
  }

  /**
    A multi-byte field as a send writes it: converted by `BigEndian`, then
    the bytes of the converted value as they lie in the host's memory.
  */
  method Converted(host: ByteOrder, v: nat, n: nat) returns (bytes: seq<u8>)
    requires v < Pow256(n)
    ensures bytes == ToBE(v, n)
  {
    var x := BigEndian(host, v, n);
    bytes := InMemory(host, x, n);
  }

  /**
    The length field of a request or response: converted, written from
    memory, then converted back to give the number of payload bytes to
    write.
  */
  method LengthField(host: ByteOrder, length: u32) returns (bytes: seq<u8>, back: u32)
    ensures bytes == ToBE(length, 4) && back == length
  {
    Pow256Widths();
    var wire := BigEndian(host, length, 4);
    bytes := InMemory(host, wire, 4);
    BigEndianInvolution(host, length, 4);
    back := BigEndian(host, wire, 4);
  }

  /**
    One write of a send.  A chunk marked `emptyFails` goes through a `write`
    helper, which counts a 0-byte result as a failure as well as -1; the
    others are bare write_n calls, which fail only on -1.
  */
  method Put(conn: Connection, c: Chunk,
             ghost total: Transmission, ghost rest: seq<Chunk>, ghost sent0: seq<u8>, ghost budget0: nat)
    returns (ok: bool)
    requires Pending(conn, total, [c] + rest, sent0, budget0)
    modifies conn`sent, conn`budget
    ensures ok == WriteSucceeds(c, old(conn.budget))
    ensures ok ==> Pending(conn, total, rest, sent0, budget0)
    ensures !ok ==> Finished(conn, ok, total, sent0, budget0)
  {
    assert ([c] + rest)[0] == c && ([c] + rest)[1..] == rest;
    ghost var before := conn.sent;
    var res := conn.WriteN(c.bytes);
    ok := if c.emptyFails then res != 0 && res != -1 else res != -1;
    assert conn.sent[..|sent0|] == before[..|sent0|];
    if ok {
      assert conn.sent[|sent0|..] == before[|sent0|..] + c.bytes;
    } else {
      assert conn.sent == conn.sent[..|sent0|] + conn.sent[|sent0|..];
    }
  }

  /** A multi-byte field converted to network order and written as one write of a send. */
  method PutField(conn: Connection, host: ByteOrder, v: nat, n: nat, emptyFails: bool,
                  ghost total: Transmission, ghost rest: seq<Chunk>, ghost sent0: seq<u8>, ghost budget0: nat)
    returns (ok: bool)
    requires v < Pow256(n)
    requires Pending(conn, total, [Chunk(Field(v, n), emptyFails)] + rest, sent0, budget0)
    modifies conn`sent, conn`budget
    ensures ok ==> Pending(conn, total, rest, sent0, budget0)
    ensures !ok ==> Finished(conn, ok, total, sent0, budget0)
  {
    var bytes := Converted(host, v, n);
    ok := Put(conn, Chunk(bytes, emptyFails), total, rest, sent0, budget0);
  }

  /** A one-byte field (a tag, a status): a read of one byte, taken as it is. */
  method LoadByte(conn: Connection) returns (ok: bool, b: u8)
    modifies conn`incoming
    ensures ReadU8(old(conn.incoming)) == if ok then Parsed(b, conn.incoming) else Stopped(ShortRead, conn.incoming)
  {
    var res, bytes := conn.ReadN(1);
    ok := res != -1 && res != 0;
    if !ok {
      b := 0;
      return;
    }
    b := bytes[0];
  }

  /** An n-byte field: read into memory, then converted by `BigEndian`. */
  method Load(conn: Connection, host: ByteOrder, n: nat) returns (ok: bool, v: nat)
    requires n > 0
    modifies conn`incoming
    ensures ReadField(old(conn.incoming), n) == if ok then Parsed(v, conn.incoming) else Stopped(ShortRead, conn.incoming)
  {
    var res, bytes := conn.ReadN(n);
    ok := res != -1 && res != 0;
    if !ok {
      v := 0;
      return;
    }
    var inMemory := FromMemory(host, bytes);
    v := BigEndian(host, inMemory, n);
    LoadField(host, bytes);
  }

  /**
    A read of the payload into a 1024-byte buffer, with a length above the
    buffer refused and a length of 0 read like any other (the C++ `read`
    helper fails on 0 bytes read): the payload lands at the front of the
    buffer and is copied out of it.
  */
  method LoadPayload(conn: Connection, buf: array<u8>, length: u32) returns (ok: bool, data: seq<u8>)
    requires buf.Length == BufferSize
    modifies conn`incoming, buf
    ensures var p := ReadPayload(old(conn.incoming), length, Checked);
      (ok <==> p.Parsed?) && (ok ==> data == p.value && conn.incoming == p.rest) && (!ok ==> conn.incoming == p.at)
    ensures ok ==> buf[..length] == data && buf[length..] == old(buf[length..])
  {
    data := [];
    if length > BufferSize {
      ok := false;
      return;
    }
    var res, bytes := conn.ReadN(length);
    ok := res != -1;
    if !ok {
      return;
    }
    forall i | 0 <= i < length {
      buf[i] := bytes[i];
    }
    data := buf[..length];
  }

  /** The length field, then the payload it announces. */
  method LoadLengthPrefixed(conn: Connection, host: ByteOrder, buf: array<u8>) returns (ok: bool, data: seq<u8>)
    requires buf.Length == BufferSize
    modifies conn`incoming, buf
    ensures var p := ReadLengthPrefixed(old(conn.incoming), Checked);
      (ok <==> p.Parsed?) && (ok ==> data == p.value && conn.incoming == p.rest) && (!ok ==> conn.incoming == p.at)
  {
    Pow256Widths();
    var v;
    ok, v := Load(conn, host, 4);
    if !ok {
      data := [];
      return;
    }
    ok, data := LoadPayload(conn, buf, v as u32);
  }
}
