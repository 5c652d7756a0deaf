/**
  The reader side of a connection (src/Receiver.h).  The `run` loop reads a
  tag and a cmdId, hands the rest of the frame to the reader for that tag,
  and puts each decoded record at the back of the queue of its kind; the
  first failed read ends the loop.  Each reader is proved to do what the
  matching parser of `TaggedCodec` does, and the loop as a whole to do what
  `ParseStream` does.  The payload is read as corrected (policy `Checked`):
  a length above the 1024-byte receive buffer is refused, and an empty
  payload is read, where the C++ `read` returns its byte count as a bool
  and so fails on it.
*/
module Receivers {
  import opened Util
  import opened Socket
  import opened Messages
  import opened Queues
  import opened TaggedCodec
  import opened Transfer

  /** The four output queues as values. */
  datatype Inbox = Inbox(
    requests: seq<RawRequest>,
    responses: seq<RawResponse>,
    signUps: seq<RawSignUpResponse>,
    signIns: seq<RawSignInResponse>)

  /** Where the loop puts a decoded frame: at the back of the queue of its kind, the other queues untouched. */
  function Route(box: Inbox, f: InFrame): (r: Inbox)
    ensures r.requests == box.requests + (if f.InRequest? then [f.request] else [])
    ensures r.responses == box.responses + (if f.InResponse? then [f.response] else [])
    ensures r.signUps == box.signUps + (if f.InSignUp? then [f.signUp] else [])
    ensures r.signIns == box.signIns + (if f.InSignIn? then [f.signIn] else [])
  {
    match f
    case InRequest(x) => box.(requests := box.requests + [x])
    case InResponse(x) => box.(responses := box.responses + [x])
    case InSignUp(x) => box.(signUps := box.signUps + [x])
    case InSignIn(x) => box.(signIns := box.signIns + [x])
  }

  /** The requests among `fs`, in order. */
  function RequestsIn(fs: seq<InFrame>): seq<RawRequest>
    decreases |fs|
  {
    if fs == [] then []
    else
      var f := fs[|fs| - 1];
      RequestsIn(fs[..|fs| - 1]) + if f.InRequest? then [f.request] else []
  }

  function ResponsesIn(fs: seq<InFrame>): seq<RawResponse>
    decreases |fs|
  {
    if fs == [] then []
    else
      var f := fs[|fs| - 1];
      ResponsesIn(fs[..|fs| - 1]) + if f.InResponse? then [f.response] else []
  }

  function SignUpsIn(fs: seq<InFrame>): seq<RawSignUpResponse>
    decreases |fs|
  {
    if fs == [] then []
    else
      var f := fs[|fs| - 1];
      SignUpsIn(fs[..|fs| - 1]) + if f.InSignUp? then [f.signUp] else []
  }

  function SignInsIn(fs: seq<InFrame>): seq<RawSignInResponse>
    decreases |fs|
  {
    if fs == [] then []
    else
      var f := fs[|fs| - 1];
      SignInsIn(fs[..|fs| - 1]) + if f.InSignIn? then [f.signIn] else []
  }

  /** The queues after the frames `fs` have been routed: each queue gains the frames of its kind, in order. */
  function Sorted(box: Inbox, fs: seq<InFrame>): Inbox {
    Inbox(box.requests + RequestsIn(fs), box.responses + ResponsesIn(fs),
          box.signUps + SignUpsIn(fs), box.signIns + SignInsIn(fs))
  }

  /** Routing one more frame is sorting one more frame. */
  lemma SortedStep(box: Inbox, fs: seq<InFrame>, f: InFrame)
    ensures Sorted(box, fs + [f]) == Route(Sorted(box, fs), f)
  {
    assert (fs + [f])[..|fs|] == fs;
  }

  /** How the loop ends: the frames decoded in order, why it stopped, and the input left where it stopped. */
  datatype Stream = Stream(frames: seq<InFrame>, reason: StopReason, at: seq<u8>)

  /** Receiver::run on `input`: frames are decoded one after the other until a read fails. */
  function ParseStream(input: seq<u8>, policy: Policy): (s: Stream)
    decreases |input|
  {
    match ParseFrame(input, policy)
    case Stopped(reason, at) => Stream([], reason, at)
    case Parsed(f, rest) =>
      var s := ParseStream(rest, policy);
      Stream([f] + s.frames, s.reason, s.at)
  }

  /** After a decoded frame the loop goes on with the rest of the input. */
  lemma StreamAfterFrame(input: seq<u8>, policy: Policy)
    requires ParseFrame(input, policy).Parsed?
    ensures var p := ParseFrame(input, policy); var s := ParseStream(p.rest, policy);
      ParseStream(input, policy) == Stream([p.value] + s.frames, s.reason, s.at)
  {
  }

  /** A stopped read ends the loop where it stopped, with no frame decoded. */
  lemma StreamStops(input: seq<u8>, policy: Policy)
    requires ParseFrame(input, policy).Stopped?
    ensures var p := ParseFrame(input, policy);
      ParseStream(input, policy) == Stream([], p.reason, p.at)
  {
  }

  lemma StreamOfFrame(f: InFrame, more: seq<u8>, policy: Policy)
    requires Admits(policy, f)
    ensures |Payload(f)| < 0x1_0000_0000
    ensures var s := ParseStream(more, policy);
      ParseStream(FrameBytes(f) + more, policy) == Stream([f] + s.frames, s.reason, s.at)
  {
    ParseFrameOf(f, more, policy);
    StreamAfterFrame(FrameBytes(f) + more, policy);
  }

  /** The bytes of a run of frames, one after the other. */
  function Wire(fs: seq<InFrame>): seq<u8>
    requires forall i :: 0 <= i < |fs| ==> |Payload(fs[i])| < 0x1_0000_0000
    decreases |fs|
  {
    if fs == [] then [] else Wire(fs[..|fs| - 1]) + FrameBytes(fs[|fs| - 1])
  }

  predicate AllAdmitted(policy: Policy, fs: seq<InFrame>) {
    forall i :: 0 <= i < |fs| ==> Admits(policy, fs[i])
  }

  lemma AdmittedBounded(policy: Policy, f: InFrame)
    requires Admits(policy, f)
    ensures |Payload(f)| < 0x1_0000_0000
  {
  }

  /**
    Frames laid out one after the other are read back one after the other:
    the loop decodes exactly `fs` and then goes on as it would on `rest`.
  */
  lemma {:induction false} StreamOfFrames(fs: seq<InFrame>, rest: seq<u8>, policy: Policy)
    requires AllAdmitted(policy, fs)
    ensures forall i :: 0 <= i < |fs| ==> |Payload(fs[i])| < 0x1_0000_0000
    ensures var s := ParseStream(rest, policy);
      ParseStream(Wire(fs) + rest, policy) == Stream(fs + s.frames, s.reason, s.at)
    decreases |fs|
  {
    forall i | 0 <= i < |fs| ensures |Payload(fs[i])| < 0x1_0000_0000 {
      AdmittedBounded(policy, fs[i]);
    }
    if fs == [] {
      assert Wire(fs) + rest == rest;
      Concat0(fs, ParseStream(rest, policy).frames);
    } else {
      var init, last := fs[..|fs| - 1], fs[|fs| - 1];
      assert fs == init + [last];
      assert AllAdmitted(policy, init) by {
        forall i | 0 <= i < |init| ensures Admits(policy, init[i]) {
          assert init[i] == fs[i];
        }
      }
      var frame := FrameBytes(last);
      var more := frame + rest;
      assert Wire(fs) == Wire(init) + frame;
      Assoc(Wire(init), frame, rest);
      SnocAssoc(init, last, ParseStream(rest, policy).frames);
      StreamOfFrame(last, rest, policy);
      StreamOfFrames(init, more, policy);
    }
  }

  /**
    The round trip of the whole connection: frames the policy admits, sent
    back to back, are all decoded in order, and the loop ends at the end of
    the stream on a short read with nothing left over.
  */
  lemma StreamRoundTrip(fs: seq<InFrame>, policy: Policy)
    requires AllAdmitted(policy, fs)
    ensures forall i :: 0 <= i < |fs| ==> |Payload(fs[i])| < 0x1_0000_0000
    ensures ParseStream(Wire(fs), policy) == Stream(fs, ShortRead, [])
  {
    StreamOfFrames(fs, [], policy);
    assert Wire(fs) + [] == Wire(fs);
    assert fs + [] == fs;
  }

  /** Laying out one more frame in front. */
  lemma {:induction false} WireCons(f: InFrame, fs: seq<InFrame>)
    requires |Payload(f)| < 0x1_0000_0000
    requires forall i :: 0 <= i < |fs| ==> |Payload(fs[i])| < 0x1_0000_0000
    ensures forall i :: 0 <= i < |[f] + fs| ==> |Payload(([f] + fs)[i])| < 0x1_0000_0000
    ensures Wire([f] + fs) == FrameBytes(f) + Wire(fs)
    decreases |fs|
  {
    var whole := [f] + fs;
    forall i | 0 <= i < |whole| ensures |Payload(whole[i])| < 0x1_0000_0000 {
      if i > 0 { assert whole[i] == fs[i - 1]; }
    }
    if fs == [] {
      assert whole[..0] == [];
    } else {
      var init, last := fs[..|fs| - 1], fs[|fs| - 1];
      assert whole[..|whole| - 1] == [f] + init && whole[|whole| - 1] == last;
      WireCons(f, init);
      Assoc(FrameBytes(f), Wire(init), FrameBytes(last));
    }
  }

  /**
    Whatever the loop decodes is a run of admitted frames laid out whole at
    the front of the input.
  */
  lemma {:induction false} StreamDecodesPrefix(input: seq<u8>, policy: Policy)
    ensures var s := ParseStream(input, policy);
      AllAdmitted(policy, s.frames) &&
      (forall i :: 0 <= i < |s.frames| ==> |Payload(s.frames[i])| < 0x1_0000_0000) &&
      Wire(s.frames) <= input
    decreases |input|
  {
    if ParseFrame(input, policy).Parsed? {
      var p := ParseFrame(input, policy);
      var f, rest := p.value, p.rest;
      ParsedFrame(input, policy);
      StreamAfterFrame(input, policy);
      StreamDecodesPrefix(rest, policy);
      var t := ParseStream(rest, policy).frames;
      var fs := [f] + t;
      assert fs[1..] == t;
      forall i | 0 <= i < |fs| ensures Admits(policy, fs[i]) {
        if i > 0 { assert fs[i] == t[i - 1]; }
      }
      AdmittedBounded(policy, f);
      WireCons(f, t);
      PrefixCons(FrameBytes(f), Wire(t), rest);
    } else {
      StreamStops(input, policy);
    }
  }

  /**
    A tag no reader handles ends the loop after the frames before it, and
    nothing of it is decoded: only its tag and cmdId are consumed.
  */
  lemma UnknownTagEndsStream(fs: seq<InFrame>, tag: u8, cmdId: seq<u8>, rest: seq<u8>, policy: Policy)
    requires AllAdmitted(policy, fs) && |cmdId| == 2
    requires tag != TagRequest && tag != TagResponse && tag != TagSignUpResponse && tag != TagSignInResponse
    ensures forall i :: 0 <= i < |fs| ==> |Payload(fs[i])| < 0x1_0000_0000
    ensures ParseStream(Wire(fs) + ([tag] + cmdId + rest), policy) == Stream(fs, UnknownTag(tag), rest)
  {
    var bad := [tag] + cmdId + rest;
    StreamOfFrames(fs, bad, policy);
    UnknownTagStops(bad, policy);
    assert bad[3..] == rest;
    assert fs + [] == fs;
  }

  /** A frame cut short at the end of the stream is never handed on: the loop stops after the whole frames before it. */
  lemma TruncatedFrameNotDelivered(fs: seq<InFrame>, g: InFrame, k: nat, policy: Policy)
    requires AllAdmitted(policy, fs) && Admits(policy, g) && k < |FrameBytes(g)|
    ensures forall i :: 0 <= i < |fs| ==> |Payload(fs[i])| < 0x1_0000_0000
    ensures ParseStream(Wire(fs) + FrameBytes(g)[..k], policy).frames == fs
  {
    StreamOfFrames(fs, FrameBytes(g)[..k], policy);
    TruncatedFrameStops(g, k, policy);
    assert fs + [] == fs;
  }

  class Receiver {
    const host: ByteOrder
    const conn: Connection
    const requests: Queue<RawRequest>
    const responses: Queue<RawResponse>
    const signUps: Queue<RawSignUpResponse>
    const signIns: Queue<RawSignInResponse>
    /** mBuf: the buffer every payload is read into. */
    const buf: array<u8>

    ghost predicate Valid()
      reads this
    {
      buf.Length == BufferSize
    }

    constructor (host: ByteOrder, conn: Connection, requests: Queue<RawRequest>, responses: Queue<RawResponse>,
                 signUps: Queue<RawSignUpResponse>, signIns: Queue<RawSignInResponse>)
      ensures Valid() && fresh(buf)
      ensures this.host == host && this.conn == conn
      ensures this.requests == requests && this.responses == responses
      ensures this.signUps == signUps && this.signIns == signIns
    {
      this.host := host;
      this.conn := conn;
      this.requests := requests;
      this.responses := responses;
      this.signUps := signUps;
      this.signIns := signIns;
      buf := new u8[BufferSize];
    }

    /** The output queues as values. */
    function Queued(): Inbox
      reads this, requests, responses, signUps, signIns
    {
      Inbox(requests.items, responses.items, signUps.items, signIns.items)
    }

    /** receiveRequest after the two ids: time, apiVersion, type, length and payload, then the request is queued. */
    method ReceiveRequestFields(cmdId: u16, gatewayId: u64, clientId: u64) returns (ok: bool)
      requires Valid()
      modifies conn`incoming, buf, requests
      ensures var p := ParseRequestFields(cmdId, gatewayId, clientId, old(conn.incoming), Checked);
        (ok <==> p.Parsed?) &&
        (ok ==> conn.incoming == p.rest && requests.items == old(requests.items) + [p.value]) &&
        (!ok ==> conn.incoming == p.at && requests.items == old(requests.items))
    {
      Pow256Widths();
      var time, apiVersion, msgType;
      ok, time := Load(conn, host, 8);
      if !ok { return; }
      ok, apiVersion := Load(conn, host, 2);
      if !ok { return; }
      ok, msgType := Load(conn, host, 2);
      if !ok { return; }
      var data;
      ok, data := LoadLengthPrefixed(conn, host, buf);
      if !ok { return; }
      requests.Emplace(RawRequest(cmdId, gatewayId, clientId, apiVersion as u16, Request(time as u64, msgType as u16, data)));
    }

    /** receiveRequest: gatewayId and clientId, then the remaining fields. */
    method ReceiveRequest(cmdId: u16) returns (ok: bool)
      requires Valid()
      modifies conn`incoming, buf, requests
      ensures var p := ParseRequestBody(cmdId, old(conn.incoming), Checked);
        (ok <==> p.Parsed?) &&
        (ok ==> conn.incoming == p.rest && requests.items == old(requests.items) + [p.value]) &&
        (!ok ==> conn.incoming == p.at && requests.items == old(requests.items))
    {
      Pow256Widths();
      var gatewayId, clientId;
      ok, gatewayId := Load(conn, host, 8);
      if !ok { return; }
      ok, clientId := Load(conn, host, 8);
      if !ok { return; }
      ok := ReceiveRequestFields(cmdId, gatewayId as u64, clientId as u64);
    }

    /** receiveResponse: time, status, length and payload, then the response is queued. */
    method ReceiveResponse(cmdId: u16) returns (ok: bool)
      requires Valid()
      modifies conn`incoming, buf, responses
      ensures var p := ParseResponseBody(cmdId, old(conn.incoming), Checked);
        (ok <==> p.Parsed?) &&
        (ok ==> conn.incoming == p.rest && responses.items == old(responses.items) + [p.value]) &&
        (!ok ==> conn.incoming == p.at && responses.items == old(responses.items))
    {
      Pow256Widths();
      var time, status;
      ok, time := Load(conn, host, 8);
      if !ok { return; }
      ok, status := LoadByte(conn);
      if !ok { return; }
      var data;
      ok, data := LoadLengthPrefixed(conn, host, buf);
      if !ok { return; }
      responses.Emplace(RawResponse(cmdId, Response(time as u64, status, data)));
    }

    /** receiveSignUpResponse: clientId and status, then the response is queued. */
    method ReceiveSignUp(cmdId: u16) returns (ok: bool)
      modifies conn`incoming, signUps
      ensures var p := ParseSignUpBody(cmdId, old(conn.incoming));
        (ok <==> p.Parsed?) &&
        (ok ==> conn.incoming == p.rest && signUps.items == old(signUps.items) + [p.value]) &&
        (!ok ==> conn.incoming == p.at && signUps.items == old(signUps.items))
    {
      Pow256Widths();
      var clientId, status;
      ok, clientId := Load(conn, host, 8);
      if !ok { return; }
      ok, status := LoadByte(conn);
      if !ok { return; }
      signUps.Emplace(RawSignUpResponse(cmdId, clientId as u64, status));
    }

    /** receiveSignInResponse: status, then the response is queued. */
    method ReceiveSignIn(cmdId: u16) returns (ok: bool)
      modifies conn`incoming, signIns
      ensures var p := ParseSignInBody(cmdId, old(conn.incoming));
        (ok <==> p.Parsed?) &&
        (ok ==> conn.incoming == p.rest && signIns.items == old(signIns.items) + [p.value]) &&
        (!ok ==> conn.incoming == p.at && signIns.items == old(signIns.items))
    {
      var status;
      ok, status := LoadByte(conn);
      if !ok { return; }
      signIns.Emplace(RawSignInResponse(cmdId, status));
    }

    /**
      One turn of the `run` loop: the tag, the cmdId, then the reader the tag
      selects; an unknown tag ends the loop.  A decoded frame goes to the
      back of its queue; on a stop no queue changes.
    */
    method ReceiveFrame() returns (ok: bool)
      requires Valid()
      modifies conn`incoming, buf, requests, responses, signUps, signIns
      ensures var p := ParseFrame(old(conn.incoming), Checked);
        (ok <==> p.Parsed?) &&
        (ok ==> conn.incoming == p.rest && Queued() == Route(old(Queued()), p.value)) &&
        (!ok ==> conn.incoming == p.at && Queued() == old(Queued()))
    {
      Pow256Widths();
      var tag, v;
      ok, tag := LoadByte(conn);
      if !ok { return; }
      ok, v := Load(conn, host, 2);
      if !ok { return; }
      var cmdId := v as u16;
      if tag == TagRequest {
        ok := ReceiveRequest(cmdId);
      } else if tag == TagResponse {
        ok := ReceiveResponse(cmdId);
      } else if tag == TagSignUpResponse {
        ok := ReceiveSignUp(cmdId);
      } else if tag == TagSignInResponse {
        ok := ReceiveSignIn(cmdId);
      } else {
        ok := false;
      }
    }

    /**
      Receiver::run until the first failed read: every frame of the stream
      up to that point is decoded and queued by kind, in order, and the
      connection is left where the failing read started.
    */
    method Run()
      requires Valid()
      modifies conn`incoming, buf, requests, responses, signUps, signIns
      ensures var s := ParseStream(old(conn.incoming), Checked);
        conn.incoming == s.at && Queued() == Sorted(old(Queued()), s.frames)
    {
      ghost var input0 := conn.incoming;
      ghost var box0 := Queued();
      ghost var done: seq<InFrame> := [];
      Concat0(done, ParseStream(input0, Checked).frames);
      while true
        invariant Valid()
        invariant var s0, s := ParseStream(input0, Checked), ParseStream(conn.incoming, Checked);
          s0 == Stream(done + s.frames, s.reason, s.at)
        invariant Queued() == Sorted(box0, done)
        decreases |conn.incoming|
      {
        ghost var before := conn.incoming;
        var ok := ReceiveFrame();
        if !ok {
          StreamStops(before, Checked);
          Concat0(done, []);
          return;
        }
        ghost var f := ParseFrame(before, Checked).value;
        StreamAfterFrame(before, Checked);
        SortedStep(box0, done, f);
        SnocAssoc(done, f, ParseStream(conn.incoming, Checked).frames);
        done := done + [f];
      }
    }
  }
}
