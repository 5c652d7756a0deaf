/**
  The transport as the codecs see it.  The socket library itself is not part
  of this model: a connection is a sink that accepts a bounded number of
  further bytes before it breaks, and a source of the bytes the peer sent.
  The Receiver and the Sender hold clones of one connection, so both refer
  to the same `Connection` object here.
*/
module Socket {
  import opened Util

  class Connection {
    /** Bytes written so far, in order. */
    var sent: seq<u8>
    /** How many more bytes the peer accepts before the connection breaks. */
    var budget: nat
    /** Bytes the peer sent that have not been read yet. */
    var incoming: seq<u8>

    constructor (incoming: seq<u8>, budget: nat)
      ensures this.sent == [] && this.budget == budget && this.incoming == incoming
    {
      this.sent := [];
      this.budget := budget;
      this.incoming := incoming;
    }

    /** write_n: the number of bytes written, or -1 when the connection breaks. */
    method WriteN(buf: seq<u8>) returns (res: int)
      modifies this`sent, this`budget
      ensures res == if |buf| <= old(budget) then |buf| else -1
      ensures res != -1 ==> sent == old(sent) + buf && budget == old(budget) - |buf|
      ensures res == -1 ==> sent == old(sent) && budget == old(budget)
    {
      if |buf| <= budget {
        sent := sent + buf;
        budget := budget - |buf|;
        res := |buf|;
      } else {
        res := -1;
      }
    }

    /** read_n: exactly `n` bytes, or -1 when the stream ends first. */
    method ReadN(n: nat) returns (res: int, buf: seq<u8>)
      modifies this`incoming
      ensures res == if n <= |old(incoming)| then n else -1
      ensures res != -1 ==> buf == old(incoming)[..n] && incoming == old(incoming)[n..]
      ensures res == -1 ==> buf == [] && incoming == old(incoming)
    {
      if n <= |incoming| {
        buf := incoming[..n];
        incoming := incoming[n..];
        res := n;
      } else {
        res, buf := -1, [];
      }
    }
  }

  /**
    One write call of an encoder: the bytes, and whether the call site counts
    a 0-byte result as a failure (the `write` helper, which tests `res && ~res`)
    or only -1 (a bare `~write_n`).
  */
  datatype Chunk = Chunk(bytes: seq<u8>, emptyFails: bool)

  /** The outcome of a run of writes with early return. */
  datatype Transmission = Transmission(ok: bool, sent: seq<u8>)

  predicate WriteSucceeds(c: Chunk, budget: nat) {
    |c.bytes| <= budget && !(c.emptyFails && c.bytes == [])
  }

  /** Writes the chunks in order and stops at the first failed write. */
  function Transmit(chunks: seq<Chunk>, budget: nat): (t: Transmission)
    ensures |t.sent| <= budget
    decreases |chunks|
  {
    if chunks == [] then Transmission(true, [])
    else if !WriteSucceeds(chunks[0], budget) then Transmission(false, [])
    else
      var t := Transmit(chunks[1..], budget - |chunks[0].bytes|);
      Transmission(t.ok, chunks[0].bytes + t.sent)
  }

  /** The run from write `i` on: that write, then the rest with what is left of the budget. */
  lemma TransmitFrom(chunks: seq<Chunk>, i: nat, budget: nat)
    requires i < |chunks|
    ensures Transmit(chunks[i..], budget) ==
      if !WriteSucceeds(chunks[i], budget) then Transmission(false, [])
      else
        var t := Transmit(chunks[i + 1..], budget - |chunks[i].bytes|);
        Transmission(t.ok, chunks[i].bytes + t.sent)
  {
    assert chunks[i..][0] == chunks[i];
    assert chunks[i..][1..] == chunks[i + 1..];
  }

  function Flatten(chunks: seq<Chunk>): (s: seq<u8>)
    decreases |chunks|
  {
    if chunks == [] then [] else chunks[0].bytes + Flatten(chunks[1..])
  }

  /** Peels off the write at position `i`. */
  lemma FlattenFrom(chunks: seq<Chunk>, i: nat)
    requires i < |chunks|
    ensures Flatten(chunks[i..]) == chunks[i].bytes + Flatten(chunks[i + 1..])
  {
    assert chunks[i..][1..] == chunks[i + 1..];
  }

  predicate NoEmptyStrict(chunks: seq<Chunk>) {
    forall i :: 0 <= i < |chunks| ==> !(chunks[i].emptyFails && chunks[i].bytes == [])
  }

  lemma FlattenAppend(a: seq<Chunk>, b: seq<Chunk>)
    ensures Flatten(a + b) == Flatten(a) + Flatten(b)
    decreases |a|
  {
    if a != [] {
      assert (a + b)[0] == a[0];
      assert (a + b)[1..] == a[1..] + b;
      FlattenAppend(a[1..], b);
    } else {
      assert a + b == b;
    }
  }

  lemma NoEmptyStrictTail(chunks: seq<Chunk>)
    requires chunks != []
    ensures NoEmptyStrict(chunks) <==>
      !(chunks[0].emptyFails && chunks[0].bytes == []) && NoEmptyStrict(chunks[1..])
  {
    if !(chunks[0].emptyFails && chunks[0].bytes == []) && NoEmptyStrict(chunks[1..]) {
      forall i | 0 <= i < |chunks| ensures !(chunks[i].emptyFails && chunks[i].bytes == []) {
        if i > 0 { assert chunks[i] == chunks[1..][i - 1]; }
      }
    }
  }

  /**
    A run of writes succeeds exactly when the frame fits what the connection
    accepts and no `write` call is asked to write 0 bytes; then it has sent
    the whole frame.
  */
  lemma {:induction false} TransmitSucceeds(chunks: seq<Chunk>, budget: nat)
    ensures Transmit(chunks, budget).ok <==> |Flatten(chunks)| <= budget && NoEmptyStrict(chunks)
    ensures Transmit(chunks, budget).ok ==> Transmit(chunks, budget).sent == Flatten(chunks)
    decreases |chunks|
  {
    if chunks != [] {
      var c := chunks[0];
      NoEmptyStrictTail(chunks);
      if WriteSucceeds(c, budget) {
        TransmitSucceeds(chunks[1..], budget - |c.bytes|);
      }
    }
  }

  /**
    When the first `k` writes go through and write `k` fails, the run reports
    failure having sent exactly those `k` chunks: no later field is written.
  */
  lemma {:induction false} TransmitStopsAt(chunks: seq<Chunk>, budget: nat, k: nat)
    requires k < |chunks|
    requires NoEmptyStrict(chunks[..k]) && |Flatten(chunks[..k])| <= budget
    requires !WriteSucceeds(chunks[k], budget - |Flatten(chunks[..k])|)
    ensures Transmit(chunks, budget) == Transmission(false, Flatten(chunks[..k]))
    decreases k
  {
    var c := chunks[0];
    if k > 0 {
      assert chunks[..k][0] == c;
      assert chunks[..k][1..] == chunks[1..][..k - 1];
      NoEmptyStrictTail(chunks[..k]);
      TransmitStopsAt(chunks[1..], budget - |c.bytes|, k - 1);
    }
  }

  /**
    When every write but the last goes through and the last is a `write` of
    0 bytes, the run reports failure although every byte has been sent.
  */
  lemma LastWriteEmpty(chunks: seq<Chunk>, budget: nat)
    requires chunks != [] && chunks[|chunks| - 1] == Chunk([], true)
    requires NoEmptyStrict(chunks[..|chunks| - 1]) && |Flatten(chunks)| <= budget
    ensures Transmit(chunks, budget) == Transmission(false, Flatten(chunks))
  {
    var k := |chunks| - 1;
    assert chunks == chunks[..k] + [chunks[k]];
    FlattenAppend(chunks[..k], [chunks[k]]);
    assert Flatten([chunks[k]]) == [] by { assert [chunks[k]][1..] == []; }
    TransmitStopsAt(chunks, budget, k);
  }

  /** Why a reader stopped. */
  datatype StopReason =
    | ShortRead             // the stream ended inside a field
    | EmptyRead             // a 0-byte read counted as a failure
    | UnknownTag(tag: u8)   // a frame tag no reader handles
    | ReservedCmdId(id: u16)  // cmdId 0 or 0x8000 in the untagged framing
    | PayloadTooLarge(length: u32)  // longer than the 1024-byte receive buffer

  /** A reader's outcome: a value and the bytes after it, or why it stopped and where. */
  datatype Parse<+T> = Parsed(value: T, rest: seq<u8>) | Stopped(reason: StopReason, at: seq<u8>) {
    predicate IsFailure() {
      Stopped?
    }

    function PropagateFailure<U>(): Parse<U>
      requires Stopped?
    {
      Stopped(reason, at)
    }

    function Extract(): (T, seq<u8>)
      requires Parsed?
    {
      (value, rest)
    }
  }

  /** Reading `n` bytes from the stream (read_n). */
  function ReadBytes(input: seq<u8>, n: nat): (p: Parse<seq<u8>>)
    ensures p.Parsed? <==> n <= |input|
    ensures p.Parsed? ==> input == p.value + p.rest && |p.value| == n
  {
    if n <= |input| then Parsed(input[..n], input[n..]) else Stopped(ShortRead, input)
  }
}
