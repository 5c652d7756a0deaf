/**
  The Client's command-id correlation (src/Protocon.cpp:102-131): `send`
  issues a command id, registers a one-shot response handler under it and
  queues the request; `poll` answers every received request through the
  handler registered for its type, and hands every received response to
  the handler waiting for its command id.

  Request handlers are functions from the received request to the response.
  Response handlers are known by an opaque `HandlerId`; calling one is
  recorded in the `delivered` log.
*/
module Clients {
  import opened Util
  import opened Messages
  import opened Queues
  import opened UnorderedMaps
  import opened UntaggedCodec

  /** A request handler: the response it builds for a received request. */
  type RequestHandler = ReceivedRequest -> SentResponse

  /** A response handler, known by name only; what it does is outside the model. */
  type HandlerId = nat

  /** A call of a response handler with the response it was given. */
  datatype Delivery = Delivery(handler: HandlerId, response: ReceivedResponse)

  /** The handler table the constructor builds: registrations in order, each with emplace. */
  function HandlerTable(m: map<u16, RequestHandler>, hs: seq<(u16, RequestHandler)>): map<u16, RequestHandler>
    decreases |hs|
  {
    if hs == [] then m else HandlerTable(Emplaced(m, hs[0].0, hs[0].1), hs[1..])
  }

  /** No registration before position i is for the same type as the one at i. */
  predicate FirstRegistration(hs: seq<(u16, RequestHandler)>, i: nat)
    requires i < |hs|
  {
    forall j :: 0 <= j < i ==> hs[j].0 != hs[i].0
  }

  /**
    The table has a handler for exactly the types already present or
    registered; a type already present keeps its handler, and otherwise the
    first registration for a type wins.
  */
  lemma {:induction false} HandlerTableFirstWins(m: map<u16, RequestHandler>, hs: seq<(u16, RequestHandler)>)
    ensures var t := HandlerTable(m, hs);
      (forall k :: k in t <==> k in m || exists j :: 0 <= j < |hs| && hs[j].0 == k) &&
      (forall k :: k in m ==> t[k] == m[k]) &&
      (forall i :: 0 <= i < |hs| && hs[i].0 !in m && FirstRegistration(hs, i) ==> t[hs[i].0] == hs[i].1)
    decreases |hs|
  {
    if hs != [] {
      var m' := Emplaced(m, hs[0].0, hs[0].1);
      var tail := hs[1..];
      HandlerTableFirstWins(m', tail);
      var t := HandlerTable(m, hs);
      assert t == HandlerTable(m', tail);
      forall k
        ensures k in t <==> k in m || exists j :: 0 <= j < |hs| && hs[j].0 == k
      {
        if exists j :: 0 <= j < |tail| && tail[j].0 == k {
          var j :| 0 <= j < |tail| && tail[j].0 == k;
          assert hs[j + 1].0 == k;
        }
        if exists j :: 0 <= j < |hs| && hs[j].0 == k {
          var j :| 0 <= j < |hs| && hs[j].0 == k;
          if j > 0 {
            assert tail[j - 1].0 == k;
          }
        }
      }
      forall i | 0 <= i < |hs| && hs[i].0 !in m && FirstRegistration(hs, i)
        ensures t[hs[i].0] == hs[i].1
      {
        if i > 0 {
          assert hs[0].0 != hs[i].0;
          assert tail[i - 1] == hs[i];
          assert FirstRegistration(tail, i - 1) by {
            forall j | 0 <= j < i - 1
              ensures tail[j].0 != tail[i - 1].0
            {
              assert tail[j] == hs[j + 1];
            }
          }
        }
      }
    }
  }

  /**
    send's counter step: a 16-bit post-increment, reset to 1 once it exceeds
    `maxCmdId`.  Below the maximum it counts up by one; from the maximum or
    above it restarts at 1, except that 0xffff wraps to 0 first.
  */
  function NextCmdId(c: u16, maxCmdId: u16): (r: u16)
    ensures c < maxCmdId ==> r == c + 1
    ensures maxCmdId <= c < 0xFFFF ==> r == 1
    ensures c == 0xFFFF ==> r == 0
    ensures c != 0xFFFF && 1 <= maxCmdId ==> 1 <= r <= maxCmdId
  {
    var n := (c + 1) % 0x1_0000;
    if n > maxCmdId then 1 else n
  }

  /** The command ids `k` successive sends issue, starting from counter `c`. */
  function IssuedCmdIds(c: u16, maxCmdId: u16, k: nat): seq<u16>
    decreases k
  {
    if k == 0 then [] else [c] + IssuedCmdIds(NextCmdId(c, maxCmdId), maxCmdId, k - 1)
  }

  /**
    The first id send issues is the counter it starts from, whatever that is
    (from 0 it is 0, an id the untagged decoder reserves).  Every later id
    lies in 1..maxCmdId, except that a counter of 0xffff issues 0 next.  With
    maxCmdId at most 0x7fff those ids are ones the untagged decoder reads as
    request ids.
  */
  lemma {:induction false} IssuedCmdIdsInRange(c: u16, maxCmdId: u16, k: nat)
    requires 1 <= maxCmdId < 0xFFFF
    ensures var s := IssuedCmdIds(c, maxCmdId, k);
      |s| == k && (k > 0 ==> s[0] == c) && (c == 0xFFFF && k > 1 ==> s[1] == 0) &&
      forall i :: 1 <= i < k && (c != 0xFFFF || i >= 2) ==>
        1 <= s[i] <= maxCmdId && (maxCmdId <= 0x7FFF ==> PlainId(s[i]))
    decreases k
  {
    if k > 0 {
      var c' := NextCmdId(c, maxCmdId);
      IssuedCmdIdsInRange(c', maxCmdId, k - 1);
      var s := IssuedCmdIds(c, maxCmdId, k);
      forall i | 0 < i < k
        ensures s[i] == IssuedCmdIds(c', maxCmdId, k - 1)[i - 1]
      {
      }
    }
  }

  /** From a counter in 0..maxCmdId, within maxCmdId sends the i-th id is c + i, wrapped back into 1..maxCmdId at most once. */
  lemma {:induction false} IssuedCmdIdsAt(c: u16, maxCmdId: u16, k: nat)
    requires c <= maxCmdId < 0xFFFF && k <= maxCmdId
    ensures var s := IssuedCmdIds(c, maxCmdId, k);
      |s| == k && forall i :: 0 <= i < k ==> s[i] == if c + i <= maxCmdId then c + i else c + i - maxCmdId
    decreases k
  {
    if k > 0 {
      var c' := NextCmdId(c, maxCmdId);
      IssuedCmdIdsAt(c', maxCmdId, k - 1);
      var s := IssuedCmdIds(c, maxCmdId, k);
      forall i | 0 < i < k
        ensures s[i] == if c + i <= maxCmdId then c + i else c + i - maxCmdId
      {
        assert s[i] == IssuedCmdIds(c', maxCmdId, k - 1)[i - 1];
      }
    }
  }

  /** Whatever the starting counter, an id send issues comes round again only after maxCmdId sends. */
  lemma IssuedCmdIdsDistinct(c: u16, maxCmdId: u16, k: nat)
    requires maxCmdId < 0xFFFF && k <= maxCmdId
    ensures var s := IssuedCmdIds(c, maxCmdId, k);
      |s| == k && forall i, j :: 0 <= i < j < k ==> s[i] != s[j]
  {
    if c <= maxCmdId {
      IssuedCmdIdsAt(c, maxCmdId, k);
    } else if k > 0 {
      var c' := NextCmdId(c, maxCmdId);
      IssuedCmdIdsAt(c', maxCmdId, k - 1);
      var s := IssuedCmdIds(c, maxCmdId, k);
      forall i | 0 < i < k
        ensures s[i] == c' + (i - 1) && s[i] <= maxCmdId
      {
        assert s[i] == IssuedCmdIds(c', maxCmdId, k - 1)[i - 1];
      }
    }
  }

  /** What answering a run of received requests produced: the outbound responses, the requests left, success. */
  datatype Answered = Answered(out: seq<(u16, SentResponse)>, remaining: seq<ReceivedRequest>, ok: bool)

  /**
    poll's first loop on values: each request in turn is answered by the
    handler for its type and the answer queued under its command id; a type
    with no handler ends the run with that request consumed.
  */
  function Answer(handlers: map<u16, RequestHandler>, out: seq<(u16, SentResponse)>, rs: seq<ReceivedRequest>)
    : (a: Answered)
    ensures |out| <= |a.out| && a.out[..|out|] == out
    ensures |a.out| - |out| + (if a.ok then 0 else 1) + |a.remaining| == |rs|
    ensures a.ok ==> a.remaining == []
    decreases |rs|
  {
    if rs == [] then Answered(out, [], true)
    else if rs[0].msgType !in handlers then Answered(out, rs[1..], false)
    else Answer(handlers, out + [(rs[0].commandId, handlers[rs[0].msgType](rs[0]))], rs[1..])
  }

  /**
    The responses are appended after those already queued, one per request
    in arrival order, each tagged with its request's command id; the run
    succeeds exactly when every type has a handler, and otherwise stops at
    the first request without one, dropping it and keeping the rest.
  */
  lemma {:induction false} AnswerInOrder(handlers: map<u16, RequestHandler>, out: seq<(u16, SentResponse)>,
                                         rs: seq<ReceivedRequest>)
    ensures var a := Answer(handlers, out, rs);
      |out| <= |a.out| && a.out[..|out|] == out &&
      var n := |a.out| - |out|;
      n <= |rs| &&
      (forall i :: 0 <= i < n ==>
        rs[i].msgType in handlers && a.out[|out| + i] == (rs[i].commandId, handlers[rs[i].msgType](rs[i]))) &&
      (a.ok <==> n == |rs|) &&
      (a.ok ==> a.remaining == []) &&
      (!a.ok ==> rs[n].msgType !in handlers && a.remaining == rs[n + 1..])
    decreases |rs|
  {
    if rs != [] && rs[0].msgType in handlers {
      var out' := out + [(rs[0].commandId, handlers[rs[0].msgType](rs[0]))];
      AnswerInOrder(handlers, out', rs[1..]);
      var a := Answer(handlers, out, rs);
      assert a == Answer(handlers, out', rs[1..]);
      assert a.out[..|out'|] == out';
      assert a.out[..|out|] == a.out[..|out'|][..|out|];
      var n := |a.out| - |out|;
      forall i | 0 <= i < n
        ensures rs[i].msgType in handlers && a.out[|out| + i] == (rs[i].commandId, handlers[rs[i].msgType](rs[i]))
      {
        if i == 0 {
          assert a.out[|out|] == a.out[..|out'|][|out|];
        } else {
          assert rs[1..][i - 1] == rs[i];
        }
      }
      if !a.ok {
        assert rs[1..][n - 1 + 1..] == rs[n + 1..];
      }
    }
  }

  /** What handing a run of responses to their handlers produced. */
  datatype Dispatched = Dispatched(
    handlers: map<u16, HandlerId>, log: seq<Delivery>, remaining: seq<ReceivedResponse>, ok: bool)

  /**
    poll's second loop as intended: each response in turn calls the handler
    registered for its command id, which is then erased; a command id with
    no handler ends the run with that response consumed.
  */
  function Dispatch(handlers: map<u16, HandlerId>, log: seq<Delivery>, rs: seq<ReceivedResponse>): (d: Dispatched)
    ensures |log| <= |d.log| && d.log[..|log|] == log
    ensures |d.log| - |log| + (if d.ok then 0 else 1) + |d.remaining| == |rs|
    ensures d.ok ==> d.remaining == []
    ensures d.handlers.Keys <= handlers.Keys
    decreases |rs|
  {
    if rs == [] then Dispatched(handlers, log, [], true)
    else if rs[0].commandId !in handlers then Dispatched(handlers, log, rs[1..], false)
    else Dispatch(handlers - {rs[0].commandId}, log + [Delivery(handlers[rs[0].commandId], rs[0])], rs[1..])
  }

  /**
    The handler calls are appended to the log, one per response in arrival
    order, each to the handler registered for that response's command id;
    the run succeeds exactly when every response finds a handler, and
    otherwise stops at the first that does not, dropping it.
  */
  lemma {:induction false} DispatchInOrder(handlers: map<u16, HandlerId>, log: seq<Delivery>, rs: seq<ReceivedResponse>)
    ensures var d := Dispatch(handlers, log, rs);
      |log| <= |d.log| && d.log[..|log|] == log &&
      var n := |d.log| - |log|;
      n <= |rs| &&
      (forall i :: 0 <= i < n ==>
        rs[i].commandId in handlers && d.log[|log| + i] == Delivery(handlers[rs[i].commandId], rs[i])) &&
      (d.ok <==> n == |rs|) &&
      (d.ok ==> d.remaining == []) &&
      (!d.ok ==> rs[n].commandId !in d.handlers && d.remaining == rs[n + 1..])
    decreases |rs|
  {
    if rs != [] && rs[0].commandId in handlers {
      var c := rs[0].commandId;
      var log' := log + [Delivery(handlers[c], rs[0])];
      DispatchInOrder(handlers - {c}, log', rs[1..]);
      var d := Dispatch(handlers, log, rs);
      assert d == Dispatch(handlers - {c}, log', rs[1..]);
      assert d.log[..|log|] == d.log[..|log'|][..|log|];
      var n := |d.log| - |log|;
      forall i | 0 <= i < n
        ensures rs[i].commandId in handlers && d.log[|log| + i] == Delivery(handlers[rs[i].commandId], rs[i])
      {
        if i == 0 {
          assert d.log[|log|] == d.log[..|log'|][|log|];
        } else {
          assert rs[1..][i - 1] == rs[i];
        }
      }
      if !d.ok {
        assert rs[1..][n - 1 + 1..] == rs[n + 1..];
      }
    }
  }

  /**
    Each handler runs at most once: the command ids served are distinct and
    none of them is registered afterwards, while every other handler is
    still registered, unchanged.
  */
  lemma {:induction false} DispatchOneShot(handlers: map<u16, HandlerId>, log: seq<Delivery>, rs: seq<ReceivedResponse>)
    ensures var d := Dispatch(handlers, log, rs);
      var n := |d.log| - |log|;
      0 <= n <= |rs| &&
      (forall i, j :: 0 <= i < j < n ==> rs[i].commandId != rs[j].commandId) &&
      (forall k :: k in d.handlers <==> k in handlers && forall i :: 0 <= i < n ==> rs[i].commandId != k) &&
      (forall k :: k in d.handlers ==> d.handlers[k] == handlers[k])
    decreases |rs|
  {
    DispatchInOrder(handlers, log, rs);
    if rs != [] && rs[0].commandId in handlers {
      var c := rs[0].commandId;
      var log' := log + [Delivery(handlers[c], rs[0])];
      DispatchOneShot(handlers - {c}, log', rs[1..]);
      DispatchInOrder(handlers - {c}, log', rs[1..]);
      var d := Dispatch(handlers, log, rs);
      assert d == Dispatch(handlers - {c}, log', rs[1..]);
      var n := |d.log| - |log|;
      forall i, j | 0 <= i < j < n
        ensures rs[i].commandId != rs[j].commandId
      {
        assert rs[j] == rs[1..][j - 1];
        if i > 0 {
          assert rs[i] == rs[1..][i - 1];
        }
      }
      forall k
        ensures k in d.handlers <==> k in handlers && forall i :: 0 <= i < n ==> rs[i].commandId != k
      {
        if k in handlers && k != c {
          forall i | 0 <= i < n - 1
            ensures rs[1..][i].commandId == rs[i + 1].commandId
          {
          }
        }
      }
    }
  }

  /**
    A handler registered by send under a fresh command id is the one the
    matching response calls, and it is gone afterwards.
  */
  lemma SendThenDeliver(handlers: map<u16, HandlerId>, log: seq<Delivery>, cmdId: u16, handler: HandlerId,
                        r: ReceivedResponse)
    requires cmdId !in handlers && r.commandId == cmdId
    ensures Dispatch(Emplaced(handlers, cmdId, handler), log, [r]) == Dispatched(handlers, log + [Delivery(handler, r)], [], true)
  {
    assert Emplaced(handlers, cmdId, handler) - {cmdId} == handlers;
  }

  /** The index of `k` in `order`, or |order| when it does not occur. */
  function Position(order: seq<u16>, k: u16): (p: nat)
    ensures p <= |order| && (p < |order| ==> order[p] == k)
    ensures forall j :: 0 <= j < p ==> order[j] != k
    decreases |order|
  {
    if order == [] then 0 else if order[0] == k then 0 else 1 + Position(order[1..], k)
  }

  /** `order` lists the keys of `handlers` once each: an unordered map's iteration order. */
  ghost predicate IterationOrder<V>(handlers: map<u16, V>, order: seq<u16>)
  {
    (forall k :: k in handlers <==> k in order) && forall i, j :: 0 <= i < j < |order| ==> order[i] != order[j]
  }

  /** Erasing the entry at position `p` leaves the other entries listed in their order. */
  lemma ErasedKeepsIterationOrder(handlers: map<u16, HandlerId>, order: seq<u16>, p: nat)
    requires IterationOrder(handlers, order) && p < |order|
    ensures IterationOrder(handlers - {order[p]}, order[..p] + order[p + 1..])
  {
    var order' := order[..p] + order[p + 1..];
    forall k
      ensures k in order' <==> k in order && k != order[p]
    {
      if k in order' {
        var i :| 0 <= i < |order'| && order'[i] == k;
        if i < p { assert order[i] == k; } else { assert order[i + 1] == k; }
      }
      if k in order && k != order[p] {
        var i :| 0 <= i < |order| && order[i] == k;
        if i < p { assert order'[i] == k; } else { assert order'[i - 1] == k; }
      }
    }
    forall i, j | 0 <= i < j < |order'|
      ensures order'[i] != order'[j]
    {
      var i0 := if i < p then i else i + 1;
      var j0 := if j < p then j else j + 1;
      assert order'[i] == order[i0] && order'[j] == order[j0];
    }
  }

  /**
    One response as src/Protocon.cpp:112-113 handles it: `erase(it)` returns
    the iterator to the entry AFTER the erased one in the map's iteration
    order `order`, and the handler called is that entry's.  Erasing end()
    (no handler for the command id) or dereferencing it (the erased entry
    was the last) is undefined behaviour, here None.  Otherwise the entry
    for the command id is erased, the map stays listed by the remaining
    order, and the handler called is registered under a different command id.
  */
  function DeliverAsWritten(handlers: map<u16, HandlerId>, order: seq<u16>, r: ReceivedResponse)
    : (d: Option<(map<u16, HandlerId>, seq<u16>, Delivery)>)
    requires IterationOrder(handlers, order)
    ensures d.None? <==> r.commandId !in handlers || order[|order| - 1] == r.commandId
    ensures d.Some? ==>
      (var (handlers', order', delivery) := d.value;
       handlers' == handlers - {r.commandId} && IterationOrder(handlers', order') &&
       delivery.response == r &&
       exists k :: k in handlers && k != r.commandId && delivery.handler == handlers[k])
  {
    var p := Position(order, r.commandId);
    if p + 1 >= |order| then None
    else
      var order' := order[..p] + order[p + 1..];
      assert order[p + 1] == order'[p];
      ErasedKeepsIterationOrder(handlers, order, p);
      Some((handlers - {r.commandId}, order', Delivery(handlers[order[p + 1]], r)))
  }

  /**
    With handlers 10 for command 1 and 20 for command 2, iterated in that
    order, the response to command 1 calls handler 20, which stays
    registered and so can run again, while handler 10 never runs; with only
    handler 10 registered, the code dereferences end().  `Dispatch` calls
    handler 10 in both cases.
  */
  lemma AsWrittenCallsNextHandler()
    ensures var r := ReceivedResponse(1, 0, 0, []);
      var two := map[1 := 10, 2 := 20];
      IterationOrder(two, [1, 2]) &&
      DeliverAsWritten(two, [1, 2], r) == Some((map[2 := 20], [2], Delivery(20, r))) &&
      Dispatch(two, [], [r]) == Dispatched(map[2 := 20], [Delivery(10, r)], [], true) &&
      IterationOrder(map[1 := 10], [1]) &&
      DeliverAsWritten(map[1 := 10], [1], r) == None &&
      Dispatch(map[1 := 10], [], [r]) == Dispatched(map[], [Delivery(10, r)], [], true)
  {
    var r := ReceivedResponse(1, 0, 0, []);
    var two: map<u16, HandlerId> := map[1 := 10, 2 := 20];
    assert Position([1, 2], 1) == 0;
    assert two - {1} == map[2 := 20];
    assert map[1 := 10] - {1} == map[];
    assert [1, 2][..0] + [1, 2][1..] == [2];
  }

  class Client {
    const apiVersion: u16
    const gatewayId: u64
    const maxCmdId: u16
    var cmdIdCounter: u16
    var requestHandlerMap: map<u16, RequestHandler>
    var responseHandlerMap: map<u16, HandlerId>
    /** The response-handler calls made so far, in order. */
    var delivered: seq<Delivery>
    const receivedRequests: Queue<ReceivedRequest>
    const receivedResponses: Queue<ReceivedResponse>
    const sentRequests: Queue<(u16, SentRequest)>
    const sentResponses: Queue<(u16, SentResponse)>

    /** The four queues are four different objects. */
    ghost predicate Valid()
      reads this
    {
      receivedRequests as object != receivedResponses as object &&
      receivedRequests as object != sentRequests as object &&
      receivedRequests as object != sentResponses as object &&
      receivedResponses as object != sentRequests as object &&
      receivedResponses as object != sentResponses as object &&
      sentRequests as object != sentResponses as object
    }

    /**
      The constructor: the handler table from the registrations, the first
      for each type winning; empty queues and no pending response handlers.
    */
    constructor (apiVersion: u16, gatewayId: u64, maxCmdId: u16, firstCmdId: u16,
                 requestHandlers: seq<(u16, RequestHandler)>)
      ensures Valid()
      ensures this.apiVersion == apiVersion && this.gatewayId == gatewayId && this.maxCmdId == maxCmdId
      ensures cmdIdCounter == firstCmdId
      ensures requestHandlerMap == HandlerTable(map[], requestHandlers)
      ensures responseHandlerMap == map[] && delivered == []
      ensures fresh(receivedRequests) && fresh(receivedResponses) && fresh(sentRequests) && fresh(sentResponses)
      ensures receivedRequests.items == [] && receivedResponses.items == []
      ensures sentRequests.items == [] && sentResponses.items == []
    {
      this.apiVersion := apiVersion;
      this.gatewayId := gatewayId;
      this.maxCmdId := maxCmdId;
      cmdIdCounter := firstCmdId;
      var m: map<u16, RequestHandler> := map[];
      for i := 0 to |requestHandlers|
        invariant HandlerTable(m, requestHandlers[i..]) == HandlerTable(map[], requestHandlers)
      {
        assert requestHandlers[i..][1..] == requestHandlers[i + 1..];
        m := Emplaced(m, requestHandlers[i].0, requestHandlers[i].1);
      }
      requestHandlerMap := m;
      responseHandlerMap := map[];
      delivered := [];
      receivedRequests := new Queue();
      receivedResponses := new Queue();
      sentRequests := new Queue();
      sentResponses := new Queue();
    }

    /**
      send: the request goes out under the counter's current value, the
      handler is registered under that id (unless one is already waiting
      there) and the counter moves on.
    */
    method Send(r: SentRequest, handler: HandlerId)
      modifies this`cmdIdCounter, this`responseHandlerMap, sentRequests
      ensures cmdIdCounter == NextCmdId(old(cmdIdCounter), maxCmdId)
      ensures responseHandlerMap == Emplaced(old(responseHandlerMap), old(cmdIdCounter), handler)
      ensures sentRequests.items == old(sentRequests.items) + [(old(cmdIdCounter), r)]
    {
      var cmdId := cmdIdCounter;
      cmdIdCounter := (cmdIdCounter + 1) % 0x1_0000;
      if cmdIdCounter > maxCmdId {
        cmdIdCounter := 1;
      }
      responseHandlerMap := Emplaced(responseHandlerMap, cmdId, handler);
      sentRequests.Emplace((cmdId, r));
    }

    /** poll's first loop: drain the received requests, queueing an answer to each. */
    method AnswerRequests() returns (ok: bool)
      requires Valid()
      modifies receivedRequests, sentResponses
      ensures var a := Answer(requestHandlerMap, old(sentResponses.items), old(receivedRequests.items));
        ok == a.ok && receivedRequests.items == a.remaining && sentResponses.items == a.out
    {
      ghost var goal := Answer(requestHandlerMap, sentResponses.items, receivedRequests.items);
      var empty := receivedRequests.Empty();
      while !empty
        invariant Answer(requestHandlerMap, sentResponses.items, receivedRequests.items) == goal
        invariant empty <==> receivedRequests.items == []
        decreases |receivedRequests.items|
      {
        var r := receivedRequests.Pop();
        if r.msgType !in requestHandlerMap {
          ok := false;
          return;
        }
        var handler := requestHandlerMap[r.msgType];
        sentResponses.Emplace((r.commandId, handler(r)));
        empty := receivedRequests.Empty();
      }
      ok := true;
    }

    /** poll's second loop: drain the received responses, calling and erasing the handler of each. */
    method DeliverResponses() returns (ok: bool)
      modifies receivedResponses, this`responseHandlerMap, this`delivered
      ensures var d := Dispatch(old(responseHandlerMap), old(delivered), old(receivedResponses.items));
        ok == d.ok && responseHandlerMap == d.handlers && delivered == d.log && receivedResponses.items == d.remaining
    {
      ghost var goal := Dispatch(responseHandlerMap, delivered, receivedResponses.items);
      var empty := receivedResponses.Empty();
      while !empty
        invariant Dispatch(responseHandlerMap, delivered, receivedResponses.items) == goal
        invariant empty <==> receivedResponses.items == []
        decreases |receivedResponses.items|
      {
        var r := receivedResponses.Pop();
        if r.commandId !in responseHandlerMap {
          ok := false;
          return;
        }
        var handler := responseHandlerMap[r.commandId];
        delivered := delivered + [Delivery(handler, r)];
        responseHandlerMap := responseHandlerMap - {r.commandId};
        empty := receivedResponses.Empty();
      }
      ok := true;
    }

    /**
      poll: answer every received request, then serve every received
      response; an error in the first loop leaves the responses untouched.
    */
    method Poll() returns (ok: bool)
      requires Valid()
      modifies receivedRequests, sentResponses, receivedResponses, this`responseHandlerMap, this`delivered
      ensures var a := Answer(requestHandlerMap, old(sentResponses.items), old(receivedRequests.items));
        receivedRequests.items == a.remaining && sentResponses.items == a.out &&
        (a.ok ==> var d := Dispatch(old(responseHandlerMap), old(delivered), old(receivedResponses.items));
          ok == d.ok && responseHandlerMap == d.handlers && delivered == d.log && receivedResponses.items == d.remaining) &&
        (!a.ok ==> (!ok && responseHandlerMap == old(responseHandlerMap) && delivered == old(delivered) &&
                    receivedResponses.items == old(receivedResponses.items)))
    {
      ok := AnswerRequests();
      if !ok {
        return;
      }
      ok := DeliverResponses();
    }
  }
}
