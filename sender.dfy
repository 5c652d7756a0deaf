/**
  The writer side of a connection (src/Sender.h).  Every `send` overload is a
  run of socket writes with early return; each is proved to do what
  `Transmit` does with the frame's writes as laid out in `TaggedCodec`, with
  every multi-byte field converted by `BigEndian` and written from memory.
  One turn of the `run` loop pops at most one item from each of the four
  queues, in the fixed order request, response, sign-up, sign-in, and stops
  at the first failed send.
*/
module Senders {
  import opened Util
  import opened Socket
  import opened Messages
  import opened Queues
  import opened TaggedCodec
  import opened Transfer

  /** The values one turn of the loop works on: the four queues and the connection. */
  datatype Outbox = Outbox(
    requests: seq<RawRequest>,
    responses: seq<RawResponse>,
    signUps: seq<RawSignUpRequest>,
    signIns: seq<RawSignInRequest>,
    sent: seq<u8>,
    budget: nat)

  /** A queue without its front, or the empty queue left alone. */
  function Popped<T>(q: seq<T>): seq<T> {
    if q == [] then [] else q[1..]
  }

  /** Sends one frame's writes over the connection of `o`. */
  function Deliver(o: Outbox, chunks: seq<Chunk>): (r: (bool, Outbox))
    ensures r.0 == Transmit(chunks, o.budget).ok
    ensures r.1.sent == o.sent + Transmit(chunks, o.budget).sent
    ensures r.1.budget + |r.1.sent| == o.budget + |o.sent|
    ensures r.1.(sent := o.sent, budget := o.budget) == o
  {
    var t := Transmit(chunks, o.budget);
    (t.ok, o.(sent := o.sent + t.sent, budget := o.budget - |t.sent|))
  }

  /** Pops and sends the front request, if there is one. */
  function RequestStep(o: Outbox, now: u64): (r: (bool, Outbox))
    ensures r.1.(requests := o.requests, sent := o.sent, budget := o.budget) == o
    ensures r.1.requests == Popped(o.requests)
    ensures o.requests == [] ==> r == (true, o)
  {
    if o.requests == [] then (true, o)
    else Deliver(o.(requests := o.requests[1..]), RequestChunks(o.requests[0], now))
  }

  /** Pops and sends the front response, if there is one. */
  function ResponseStep(o: Outbox, now: u64): (r: (bool, Outbox))
    ensures r.1.(responses := o.responses, sent := o.sent, budget := o.budget) == o
    ensures r.1.responses == Popped(o.responses)
    ensures o.responses == [] ==> r == (true, o)
  {
    if o.responses == [] then (true, o)
    else Deliver(o.(responses := o.responses[1..]), ResponseChunks(o.responses[0], now))
  }

  /** Pops and sends the front sign-up request, if there is one. */
  function SignUpStep(o: Outbox): (r: (bool, Outbox))
    ensures r.1.(signUps := o.signUps, sent := o.sent, budget := o.budget) == o
    ensures r.1.signUps == Popped(o.signUps)
    ensures o.signUps == [] ==> r == (true, o)
  {
    if o.signUps == [] then (true, o)
    else Deliver(o.(signUps := o.signUps[1..]), SignUpChunks(o.signUps[0]))
  }

  /** Pops and sends the front sign-in request, if there is one. */
  function SignInStep(o: Outbox): (r: (bool, Outbox))
    ensures r.1.(signIns := o.signIns, sent := o.sent, budget := o.budget) == o
    ensures r.1.signIns == Popped(o.signIns)
    ensures o.signIns == [] ==> r == (true, o)
  {
    if o.signIns == [] then (true, o)
    else Deliver(o.(signIns := o.signIns[1..]), SignInChunks(o.signIns[0]))
  }

  /**
    One turn of Sender::run: for each queue in turn, when it is not empty,
    pop its front and send it; a failed send ends the turn.  Each queue keeps
    its items or loses its front, a queue is popped only when every
    earlier queue in the order was popped or was empty, and a turn that
    succeeds has popped every queue that was not empty.
  */
  function Turn(o: Outbox, now: u64): (r: (bool, Outbox))
    ensures r.1.requests == o.requests || (o.requests != [] && r.1.requests == o.requests[1..])
    ensures r.1.responses == o.responses || (o.responses != [] && r.1.responses == o.responses[1..])
    ensures r.1.signUps == o.signUps || (o.signUps != [] && r.1.signUps == o.signUps[1..])
    ensures r.1.signIns == o.signIns || (o.signIns != [] && r.1.signIns == o.signIns[1..])
    ensures r.1.responses != o.responses ==> r.1.requests == Popped(o.requests)
    ensures r.1.signUps != o.signUps ==> r.1.responses == Popped(o.responses)
    ensures r.1.signIns != o.signIns ==> r.1.signUps == Popped(o.signUps)
    ensures r.0 ==> (r.1.requests == Popped(o.requests) && r.1.responses == Popped(o.responses) &&
      r.1.signUps == Popped(o.signUps) && r.1.signIns == Popped(o.signIns))
  {
    var (ok1, o1) := RequestStep(o, now);
    if !ok1 then (false, o1) else
    var (ok2, o2) := ResponseStep(o1, now);
    if !ok2 then (false, o2) else
    var (ok3, o3) := SignUpStep(o2);
    if !ok3 then (false, o3) else
    SignInStep(o3)
  }

  /** What the front of each queue puts on the wire when it is sent whole (nothing for an empty queue). */
  function RequestOut(q: seq<RawRequest>, now: u64): seq<u8> {
    if q == [] then [] else Flatten(RequestChunks(q[0], now))
  }

  function ResponseOut(q: seq<RawResponse>, now: u64): seq<u8> {
    if q == [] then [] else Flatten(ResponseChunks(q[0], now))
  }

  function SignUpOut(q: seq<RawSignUpRequest>): seq<u8> {
    if q == [] then [] else Flatten(SignUpChunks(q[0]))
  }

  function SignInOut(q: seq<RawSignInRequest>): seq<u8> {
    if q == [] then [] else Flatten(SignInChunks(q[0]))
  }

  /**
    When the connection takes every frame of the turn, the turn succeeds:
    every non-empty queue loses exactly its front, the empty ones are left
    alone, and the connection gets the four fronts' frames in the order
    request, response, sign-up, sign-in.
  */
  lemma TurnDelivers(o: Outbox, now: u64)
    requires |RequestOut(o.requests, now)| + |ResponseOut(o.responses, now)|
      + |SignUpOut(o.signUps)| + |SignInOut(o.signIns)| <= o.budget
    ensures Turn(o, now).0
    ensures Turn(o, now).1 == Outbox(Popped(o.requests), Popped(o.responses), Popped(o.signUps), Popped(o.signIns),
      o.sent + RequestOut(o.requests, now) + ResponseOut(o.responses, now) + SignUpOut(o.signUps) + SignInOut(o.signIns),
      o.budget - |RequestOut(o.requests, now)| - |ResponseOut(o.responses, now)| - |SignUpOut(o.signUps)| - |SignInOut(o.signIns)|)
  {
    RequestStepDelivers(o, now);
    var o1 := RequestStep(o, now).1;
    ResponseStepDelivers(o1, now);
    var o2 := ResponseStep(o1, now).1;
    SignUpStepDelivers(o2);
    var o3 := SignUpStep(o2).1;
    SignInStepDelivers(o3);
  }

  lemma RequestStepDelivers(o: Outbox, now: u64)
    requires |RequestOut(o.requests, now)| <= o.budget
    ensures RequestStep(o, now) == (true, o.(requests := Popped(o.requests), sent := o.sent + RequestOut(o.requests, now),
      budget := o.budget - |RequestOut(o.requests, now)|))
  {
    if o.requests != [] {
      RequestFrame(o.requests[0], now);
      TransmitSucceeds(RequestChunks(o.requests[0], now), o.budget);
    } else {
      assert o.sent + [] == o.sent;
    }
  }

  lemma ResponseStepDelivers(o: Outbox, now: u64)
    requires |ResponseOut(o.responses, now)| <= o.budget
    ensures ResponseStep(o, now) == (true, o.(responses := Popped(o.responses), sent := o.sent + ResponseOut(o.responses, now),
      budget := o.budget - |ResponseOut(o.responses, now)|))
  {
    if o.responses != [] {
      ResponseFrame(o.responses[0], now);
      TransmitSucceeds(ResponseChunks(o.responses[0], now), o.budget);
    } else {
      assert o.sent + [] == o.sent;
    }
  }

  lemma SignUpStepDelivers(o: Outbox)
    requires |SignUpOut(o.signUps)| <= o.budget
    ensures SignUpStep(o) == (true, o.(signUps := Popped(o.signUps), sent := o.sent + SignUpOut(o.signUps),
      budget := o.budget - |SignUpOut(o.signUps)|))
  {
    if o.signUps != [] {
      SignUpFrame(o.signUps[0]);
      TransmitSucceeds(SignUpChunks(o.signUps[0]), o.budget);
    } else {
      assert o.sent + [] == o.sent;
    }
  }

  lemma SignInStepDelivers(o: Outbox)
    requires |SignInOut(o.signIns)| <= o.budget
    ensures SignInStep(o) == (true, o.(signIns := Popped(o.signIns), sent := o.sent + SignInOut(o.signIns),
      budget := o.budget - |SignInOut(o.signIns)|))
  {
    if o.signIns != [] {
      SignInFrame(o.signIns[0]);
      TransmitSucceeds(SignInChunks(o.signIns[0]), o.budget);
    } else {
      assert o.sent + [] == o.sent;
    }
  }

  /**
    When the connection breaks while the request at the front is being sent,
    the turn fails: that request is gone from its queue and is not put back,
    and the other three queues are not touched.
  */
  lemma RequestFailureEndsTurn(o: Outbox, now: u64)
    requires o.requests != [] && o.budget < |Flatten(RequestChunks(o.requests[0], now))|
    ensures !Turn(o, now).0
    ensures Turn(o, now).1 == o.(requests := o.requests[1..],
      sent := o.sent + Transmit(RequestChunks(o.requests[0], now), o.budget).sent,
      budget := o.budget - |Transmit(RequestChunks(o.requests[0], now), o.budget).sent|)
  {
    TransmitSucceeds(RequestChunks(o.requests[0], now), o.budget);
  }

  /** A response send the connection cannot take fails after what `Transmit` sends; its queue loses the front. */
  lemma ResponseStepFails(o: Outbox, now: u64)
    requires o.responses != [] && o.budget < |Flatten(ResponseChunks(o.responses[0], now))|
    ensures var t := Transmit(ResponseChunks(o.responses[0], now), o.budget);
      ResponseStep(o, now) == (false, o.(responses := o.responses[1..], sent := o.sent + t.sent, budget := o.budget - |t.sent|))
  {
    TransmitSucceeds(ResponseChunks(o.responses[0], now), o.budget);
  }

  /** A sign-up send the connection cannot take fails after what `Transmit` sends; its queue loses the front. */
  lemma SignUpStepFails(o: Outbox)
    requires o.signUps != [] && o.budget < |Flatten(SignUpChunks(o.signUps[0]))|
    ensures var t := Transmit(SignUpChunks(o.signUps[0]), o.budget);
      SignUpStep(o) == (false, o.(signUps := o.signUps[1..], sent := o.sent + t.sent, budget := o.budget - |t.sent|))
  {
    TransmitSucceeds(SignUpChunks(o.signUps[0]), o.budget);
  }

  /** A sign-in send the connection cannot take fails after what `Transmit` sends; its queue loses the front. */
  lemma SignInStepFails(o: Outbox)
    requires o.signIns != [] && o.budget < |Flatten(SignInChunks(o.signIns[0]))|
    ensures var t := Transmit(SignInChunks(o.signIns[0]), o.budget);
      SignInStep(o) == (false, o.(signIns := o.signIns[1..], sent := o.sent + t.sent, budget := o.budget - |t.sent|))
  {
    TransmitSucceeds(SignInChunks(o.signIns[0]), o.budget);
  }

  /**
    When the request step goes through but the connection breaks while the
    front response is being sent, the turn fails: the response is lost, and
    the sign-up and sign-in queues are not touched.
  */
  lemma ResponseFailureEndsTurn(o: Outbox, now: u64)
    requires |RequestOut(o.requests, now)| <= o.budget
    requires o.responses != []
    requires o.budget - |RequestOut(o.requests, now)| < |Flatten(ResponseChunks(o.responses[0], now))|
    ensures !Turn(o, now).0
    ensures var b := o.budget - |RequestOut(o.requests, now)|;
      var t := Transmit(ResponseChunks(o.responses[0], now), b);
      Turn(o, now).1 == o.(requests := Popped(o.requests), responses := o.responses[1..],
        sent := o.sent + RequestOut(o.requests, now) + t.sent, budget := b - |t.sent|)
  {
    RequestStepDelivers(o, now);
    ResponseStepFails(RequestStep(o, now).1, now);
  }

  /**
    When the request and response steps go through but the connection breaks
    while the front sign-up request is being sent, the turn fails: that
    request is lost and the sign-in queue is not touched.
  */
  lemma SignUpFailureEndsTurn(o: Outbox, now: u64)
    requires |RequestOut(o.requests, now)| + |ResponseOut(o.responses, now)| <= o.budget
    requires o.signUps != []
    requires o.budget - |RequestOut(o.requests, now)| - |ResponseOut(o.responses, now)| < |Flatten(SignUpChunks(o.signUps[0]))|
    ensures !Turn(o, now).0
    ensures var b := o.budget - |RequestOut(o.requests, now)| - |ResponseOut(o.responses, now)|;
      var t := Transmit(SignUpChunks(o.signUps[0]), b);
      Turn(o, now).1 == o.(requests := Popped(o.requests), responses := Popped(o.responses), signUps := o.signUps[1..],
        sent := o.sent + RequestOut(o.requests, now) + ResponseOut(o.responses, now) + t.sent, budget := b - |t.sent|)
  {
    RequestStepDelivers(o, now);
    var o1 := RequestStep(o, now).1;
    ResponseStepDelivers(o1, now);
    var o2 := ResponseStep(o1, now).1;
    SignUpStepFails(o2);
    assert Turn(o, now) == SignUpStep(o2);
  }

  /**
    When every earlier step goes through but the connection breaks while the
    front sign-in request is being sent, the turn fails and that request is
    lost.
  */
  lemma SignInFailureEndsTurn(o: Outbox, now: u64)
    requires |RequestOut(o.requests, now)| + |ResponseOut(o.responses, now)| + |SignUpOut(o.signUps)| <= o.budget
    requires o.signIns != []
    requires o.budget - |RequestOut(o.requests, now)| - |ResponseOut(o.responses, now)| - |SignUpOut(o.signUps)|
      < |Flatten(SignInChunks(o.signIns[0]))|
    ensures !Turn(o, now).0
    ensures var b := o.budget - |RequestOut(o.requests, now)| - |ResponseOut(o.responses, now)| - |SignUpOut(o.signUps)|;
      var t := Transmit(SignInChunks(o.signIns[0]), b);
      Turn(o, now).1 == Outbox(Popped(o.requests), Popped(o.responses), Popped(o.signUps), o.signIns[1..],
        o.sent + RequestOut(o.requests, now) + ResponseOut(o.responses, now) + SignUpOut(o.signUps) + t.sent,
        b - |t.sent|)
  {
    RequestStepDelivers(o, now);
    var o1 := RequestStep(o, now).1;
    ResponseStepDelivers(o1, now);
    var o2 := ResponseStep(o1, now).1;
    SignUpStepDelivers(o2);
    SignInStepFails(SignUpStep(o2).1);
  }

  /** The writes of send(RawRequest), one per element, nested from the right as the sender does them. */
  lemma RequestWrites(rr: RawRequest, now: u64, cs: seq<Chunk>)
    requires Length32(rr.request.data) < Pow256(4)
    requires cs == [Chunk([TagRequest], true)] + ([Chunk(Field(rr.cmdId, 2), true)] + ([Chunk(Field(rr.gatewayId, 8), true)]
      + ([Chunk(Field(rr.clientId, 8), true)] + ([Chunk(Field(now, 8), true)] + ([Chunk(Field(rr.apiVersion, 2), true)]
      + ([Chunk(Field(rr.request.msgType, 2), true)] + ([Chunk(Field(Length32(rr.request.data), 4), true)]
      + ([Chunk(rr.request.data[..Length32(rr.request.data)], false)] + []))))))))
    ensures cs == RequestChunks(rr, now)
  {
    Pow256Widths();
    var r := rr.request;
    var len := Length32(r.data);
    Nest9(Chunk([TagRequest], true), Chunk(Field(rr.cmdId, 2), true), Chunk(Field(rr.gatewayId, 8), true),
      Chunk(Field(rr.clientId, 8), true), Chunk(Field(now, 8), true), Chunk(Field(rr.apiVersion, 2), true),
      Chunk(Field(r.msgType, 2), true), Chunk(Field(len, 4), true), Chunk(r.data[..len], false));
  }

  /** The writes of send(RawResponse), nested from the right. */
  lemma ResponseWrites(rr: RawResponse, now: u64, cs: seq<Chunk>)
    requires Length32(rr.response.data) < Pow256(4) && now < Pow256(8)
    requires cs == [Chunk([TagResponse], true)] + ([Chunk(Field(rr.cmdId, 2), false)] + ([Chunk(Field(now, 8), false)]
      + ([Chunk([rr.response.status], false)] + ([Chunk(Field(Length32(rr.response.data), 4), false)]
      + ([Chunk(rr.response.data[..Length32(rr.response.data)], false)] + [])))))
    ensures cs == ResponseChunks(rr, now)
  {
    Pow256Widths();
    var r := rr.response;
    var len := Length32(r.data);
    Nest6(Chunk([TagResponse], true), Chunk(Field(rr.cmdId, 2), false), Chunk(Field(now, 8), false),
      Chunk([r.status], false), Chunk(Field(len, 4), false), Chunk(r.data[..len], false));
  }

  /** The writes of send(RawSignUpRequest), nested from the right. */
  lemma SignUpWrites(r: RawSignUpRequest, cs: seq<Chunk>)
    requires r.cmdId < Pow256(2) && r.gatewayId < Pow256(8)
    requires cs == [Chunk([TagSignUpRequest], true)] + ([Chunk(Field(r.cmdId, 2), false)]
      + ([Chunk(Field(r.gatewayId, 8), true)] + []))
    ensures cs == SignUpChunks(r)
  {
    Nest3(Chunk([TagSignUpRequest], true), Chunk(Field(r.cmdId, 2), false), Chunk(Field(r.gatewayId, 8), true));
  }

  /** The writes of send(RawSignInRequest), nested from the right. */
  lemma SignInWrites(r: RawSignInRequest, cs: seq<Chunk>)
    requires r.cmdId < Pow256(2) && r.gatewayId < Pow256(8) && r.clientId < Pow256(8)
    requires cs == [Chunk([TagSignInRequest], true)] + ([Chunk(Field(r.cmdId, 2), false)]
      + ([Chunk(Field(r.gatewayId, 8), true)] + ([Chunk(Field(r.clientId, 8), true)] + [])))
    ensures cs == SignInChunks(r)
  {
    Nest4(Chunk([TagSignInRequest], true), Chunk(Field(r.cmdId, 2), false), Chunk(Field(r.gatewayId, 8), true),
      Chunk(Field(r.clientId, 8), true));
  }

  class Sender {
    const host: ByteOrder
    const conn: Connection
    const requests: Queue<RawRequest>
    const responses: Queue<RawResponse>
    const signUps: Queue<RawSignUpRequest>
    const signIns: Queue<RawSignInRequest>

    constructor (host: ByteOrder, conn: Connection, requests: Queue<RawRequest>, responses: Queue<RawResponse>,
                 signUps: Queue<RawSignUpRequest>, signIns: Queue<RawSignInRequest>)
      ensures this.host == host && this.conn == conn
      ensures this.requests == requests && this.responses == responses
      ensures this.signUps == signUps && this.signIns == signIns
    {
      this.host := host;
      this.conn := conn;
      this.requests := requests;
      this.responses := responses;
      this.signUps := signUps;
      this.signIns := signIns;
    }

    /** The queues and the connection as values. */
    function State(): Outbox
      reads this, conn, requests, responses, signUps, signIns
    {
      Outbox(requests.items, responses.items, signUps.items, signIns.items, conn.sent, conn.budget)
    }

    /**
      send(RawRequest): tag 0x00, then cmdId, gatewayId, clientId, the clock
      value `now`, apiVersion, type and length converted to network order,
      then the payload.  This is the corrected send: the request's own
      gatewayId, and a payload write that accepts 0 bytes.
    */
    method SendRequest(rr: RawRequest, now: u64) returns (ok: bool)
      modifies conn`sent, conn`budget
      ensures Finished(conn, ok, Transmit(RequestChunks(rr, now), old(conn.budget)), old(conn.sent), old(conn.budget))
    {
      Pow256Widths();
      var r := rr.request;
      ghost var len := Length32(r.data);
      ghost var m8: seq<Chunk> := [];
      ghost var m7 := [Chunk(r.data[..len], false)] + m8;
      ghost var m6 := [Chunk(Field(len, 4), true)] + m7;
      ghost var m5 := [Chunk(Field(r.msgType, 2), true)] + m6;
      ghost var m4 := [Chunk(Field(rr.apiVersion, 2), true)] + m5;
      ghost var m3 := [Chunk(Field(now, 8), true)] + m4;
      ghost var m2 := [Chunk(Field(rr.clientId, 8), true)] + m3;
      ghost var m1 := [Chunk(Field(rr.gatewayId, 8), true)] + m2;
      ghost var m0 := [Chunk(Field(rr.cmdId, 2), true)] + m1;
      RequestWrites(rr, now, [Chunk([TagRequest], true)] + m0);
      ghost var sent0, budget0, total := conn.sent, conn.budget, Transmit(RequestChunks(rr, now), conn.budget);
      StartPending(conn, RequestChunks(rr, now));

      ok := Put(conn, Chunk([TagRequest], true), total, m0, sent0, budget0);
      if !ok { return; }
      ok := PutField(conn, host, rr.cmdId, 2, true, total, m1, sent0, budget0);
      if !ok { return; }
      ok := PutField(conn, host, rr.gatewayId, 8, true, total, m2, sent0, budget0);
      if !ok { return; }
      ok := PutField(conn, host, rr.clientId, 8, true, total, m3, sent0, budget0);
      if !ok { return; }
      ok := PutField(conn, host, now, 8, true, total, m4, sent0, budget0);
      if !ok { return; }
      ok := PutField(conn, host, rr.apiVersion, 2, true, total, m5, sent0, budget0);
      if !ok { return; }
      ok := PutField(conn, host, r.msgType, 2, true, total, m6, sent0, budget0);
      if !ok { return; }
      var lengthBytes, length := LengthField(host, Length32(r.data));
      ok := Put(conn, Chunk(lengthBytes, true), total, m7, sent0, budget0);
      if !ok { return; }
      ok := Put(conn, Chunk(r.data[..length], false), total, m8, sent0, budget0);
      if !ok { return; }
      EndPending(conn, total, sent0, budget0);
    }

    /**
      send(RawResponse): tag 0x80 through `write`, then cmdId, time, status,
      length and payload through bare write_n calls.  This is the corrected
      send, which converts the clock value like every other field.
    */
    method SendResponse(rr: RawResponse, now: u64) returns (ok: bool)
      modifies conn`sent, conn`budget
      ensures Finished(conn, ok, Transmit(ResponseChunks(rr, now), old(conn.budget)), old(conn.sent), old(conn.budget))
    {
      Pow256Widths();
      var r := rr.response;
      ghost var len := Length32(r.data);
      ghost var m5: seq<Chunk> := [];
      ghost var m4 := [Chunk(r.data[..len], false)] + m5;
      ghost var m3 := [Chunk(Field(len, 4), false)] + m4;
      ghost var m2 := [Chunk([r.status], false)] + m3;
      ghost var m1 := [Chunk(Field(now, 8), false)] + m2;
      ghost var m0 := [Chunk(Field(rr.cmdId, 2), false)] + m1;
      ResponseWrites(rr, now, [Chunk([TagResponse], true)] + m0);
      ghost var sent0, budget0, total := conn.sent, conn.budget, Transmit(ResponseChunks(rr, now), conn.budget);
      StartPending(conn, ResponseChunks(rr, now));

      ok := Put(conn, Chunk([TagResponse], true), total, m0, sent0, budget0);
      if !ok { return; }
      ok := PutField(conn, host, rr.cmdId, 2, false, total, m1, sent0, budget0);
      if !ok { return; }
      ok := PutField(conn, host, now, 8, false, total, m2, sent0, budget0);
      if !ok { return; }
      ok := Put(conn, Chunk([r.status], false), total, m3, sent0, budget0);
      if !ok { return; }
      var lengthBytes, length := LengthField(host, Length32(r.data));
      ok := Put(conn, Chunk(lengthBytes, false), total, m4, sent0, budget0);
      if !ok { return; }
      ok := Put(conn, Chunk(r.data[..length], false), total, m5, sent0, budget0);
      if !ok { return; }
      EndPending(conn, total, sent0, budget0);
    }

    /** send(RawSignUpRequest): tag 0x01, cmdId through a bare write_n, gatewayId. */
    method SendSignUp(r: RawSignUpRequest) returns (ok: bool)
      modifies conn`sent, conn`budget
      ensures Finished(conn, ok, Transmit(SignUpChunks(r), old(conn.budget)), old(conn.sent), old(conn.budget))
    {
      Pow256Widths();
      ghost var m2: seq<Chunk> := [];
      ghost var m1 := [Chunk(Field(r.gatewayId, 8), true)] + m2;
      ghost var m0 := [Chunk(Field(r.cmdId, 2), false)] + m1;
      SignUpWrites(r, [Chunk([TagSignUpRequest], true)] + m0);
      ghost var sent0, budget0, total := conn.sent, conn.budget, Transmit(SignUpChunks(r), conn.budget);
      StartPending(conn, SignUpChunks(r));

      ok := Put(conn, Chunk([TagSignUpRequest], true), total, m0, sent0, budget0);
      if !ok { return; }
      ok := PutField(conn, host, r.cmdId, 2, false, total, m1, sent0, budget0);
      if !ok { return; }
      ok := PutField(conn, host, r.gatewayId, 8, true, total, m2, sent0, budget0);
      if !ok { return; }
      EndPending(conn, total, sent0, budget0);
    }

    /** send(RawSignInRequest): tag 0x02, cmdId through a bare write_n, gatewayId, clientId. */
    method SendSignIn(r: RawSignInRequest) returns (ok: bool)
      modifies conn`sent, conn`budget
      ensures Finished(conn, ok, Transmit(SignInChunks(r), old(conn.budget)), old(conn.sent), old(conn.budget))
    {
      Pow256Widths();
      ghost var m3: seq<Chunk> := [];
      ghost var m2 := [Chunk(Field(r.clientId, 8), true)] + m3;
      ghost var m1 := [Chunk(Field(r.gatewayId, 8), true)] + m2;
      ghost var m0 := [Chunk(Field(r.cmdId, 2), false)] + m1;
      SignInWrites(r, [Chunk([TagSignInRequest], true)] + m0);
      ghost var sent0, budget0, total := conn.sent, conn.budget, Transmit(SignInChunks(r), conn.budget);
      StartPending(conn, SignInChunks(r));

      ok := Put(conn, Chunk([TagSignInRequest], true), total, m0, sent0, budget0);
      if !ok { return; }
      ok := PutField(conn, host, r.cmdId, 2, false, total, m1, sent0, budget0);
      if !ok { return; }
      ok := PutField(conn, host, r.gatewayId, 8, true, total, m2, sent0, budget0);
      if !ok { return; }
      ok := PutField(conn, host, r.clientId, 8, true, total, m3, sent0, budget0);
      if !ok { return; }
      EndPending(conn, total, sent0, budget0);
    }

    /** Pops and sends the front request, if there is one (src/Sender.h:35-36). */
    method PumpRequest(now: u64) returns (ok: bool)
      modifies conn`sent, conn`budget, requests
      ensures (ok, State()) == RequestStep(old(State()), now)
    {
      ok := true;
      var empty := requests.Empty();
      if !empty {
        var item := requests.Pop();
        ok := SendRequest(item, now);
      }
    }

    /** Pops and sends the front response, if there is one. */
    method PumpResponse(now: u64) returns (ok: bool)
      modifies conn`sent, conn`budget, responses
      ensures (ok, State()) == ResponseStep(old(State()), now)
    {
      ok := true;
      var empty := responses.Empty();
      if !empty {
        var item := responses.Pop();
        ok := SendResponse(item, now);
      }
    }

    /** Pops and sends the front sign-up request, if there is one. */
    method PumpSignUp() returns (ok: bool)
      modifies conn`sent, conn`budget, signUps
      ensures (ok, State()) == SignUpStep(old(State()))
    {
      ok := true;
      var empty := signUps.Empty();
      if !empty {
        var item := signUps.Pop();
        ok := SendSignUp(item);
      }
    }

    /** Pops and sends the front sign-in request, if there is one. */
    method PumpSignIn() returns (ok: bool)
      modifies conn`sent, conn`budget, signIns
      ensures (ok, State()) == SignInStep(old(State()))
    {
      ok := true;
      var empty := signIns.Empty();
      if !empty {
        var item := signIns.Pop();
        ok := SendSignIn(item);
      }
    }

    /**
      One turn of the `run` loop: at most one item from each queue, in the
      order request, response, sign-up, sign-in; a failed send ends the turn
      and the item it popped is not put back.
    */
    method RunTurn(now: u64) returns (ok: bool)
      modifies conn`sent, conn`budget, requests, responses, signUps, signIns
      ensures (ok, State()) == Turn(old(State()), now)
    {
      ok := PumpRequest(now);
      if !ok { return; }
      ok := PumpResponse(now);
      if !ok { return; }
      ok := PumpSignUp();
      if !ok { return; }
      ok := PumpSignIn();
    }
  }
}
