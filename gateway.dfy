/**
  The client registry of the Gateway (include/Protocon/Protocon.h:82-149):
  client tokens handed out from a 64-bit counter, the map from each token to
  the client id it was created for, the map back from a non-zero client id
  to its token, and the list of tokens created without a client id; and the
  16-bit command-id counter.

  `Registry` is the registry's state as a value and `Created` what
  createClientToken does to it; the class `Gateway` holds the same state in
  fields and its methods are proved against those functions.
*/
module Gateways {
  import opened Util
  import opened Messages
  import opened UnorderedMaps

  /** The state createClientToken and clientId work on. */
  datatype Registry = Registry(
    tokenCounter: u64,
    anonymousTokens: seq<ClientToken>,
    tokenClientIds: map<ClientToken, u64>,
    clientIdTokens: map<u64, ClientToken>)

  /** A 64-bit post-increment, wrapping as `uint64_t` does. */
  function NextToken(c: u64): u64
  {
    (c + 1) % 0x1_0000_0000_0000_0000
  }

  /**
    What the registry keeps true: every token it knows was issued before the
    counter's current value, every anonymous token is recorded with client
    id 0, and every client id in the reverse map is non-zero and points to a
    token that is recorded with that id.
  */
  ghost predicate Consistent(g: Registry)
  {
    (forall tk :: tk in g.tokenClientIds ==> tk.value < g.tokenCounter) &&
    (forall i :: 0 <= i < |g.anonymousTokens| ==>
      g.anonymousTokens[i] in g.tokenClientIds && g.tokenClientIds[g.anonymousTokens[i]] == 0) &&
    (forall id :: id in g.clientIdTokens ==>
      id != 0 && g.clientIdTokens[id] in g.tokenClientIds && g.tokenClientIds[g.clientIdTokens[id]] == id)
  }

  /**
    createClientToken(clientId): the token is the counter's value before the
    call and the counter moves on.  The forward map binds the token to the id
    unless it already held the token (insert-if-absent); a non-zero id gains
    a reverse entry only if it had none and leaves the anonymous list alone;
    id 0 appends the token to the anonymous list and leaves the reverse map
    alone.
  */
  function Created(g: Registry, clientId: u64): (r: (Registry, ClientToken))
    ensures var (g', tk) := r;
      tk.value == g.tokenCounter && g'.tokenCounter == NextToken(g.tokenCounter) &&
      g'.tokenClientIds == (if tk in g.tokenClientIds then g.tokenClientIds else g.tokenClientIds[tk := clientId]) &&
      (clientId != 0 ==>
        g'.anonymousTokens == g.anonymousTokens &&
        g'.clientIdTokens.Keys == g.clientIdTokens.Keys + {clientId} &&
        g'.clientIdTokens[clientId] == (if clientId in g.clientIdTokens then g.clientIdTokens[clientId] else tk) &&
        forall id :: id in g.clientIdTokens && id != clientId ==> g'.clientIdTokens[id] == g.clientIdTokens[id]) &&
      (clientId == 0 ==> g'.anonymousTokens == g.anonymousTokens + [tk] && g'.clientIdTokens == g.clientIdTokens)
  {
    var tk := ClientToken(g.tokenCounter);
    var forward := Emplaced(g.tokenClientIds, tk, clientId);
    if clientId != 0 then
      (Registry(NextToken(g.tokenCounter), g.anonymousTokens, forward, Emplaced(g.clientIdTokens, clientId, tk)), tk)
    else
      (Registry(NextToken(g.tokenCounter), g.anonymousTokens + [tk], forward, g.clientIdTokens), tk)
  }

  /** clientId(tk): the id the token was created for; an unknown token is the out-of-range error. */
  function ClientIdOf(g: Registry, tk: ClientToken): (r: Option<u64>)
    ensures r.Some? <==> tk in g.tokenClientIds
    ensures r.Some? ==> r.value == g.tokenClientIds[tk]
  {
    if tk in g.tokenClientIds then Some(g.tokenClientIds[tk]) else None
  }

  /**
    While the counter has not reached 2^64 - 1, a new token is one the
    registry has never seen, the forward map gains exactly it, clientId
    returns the id it was created for, and the registry stays consistent.
  */
  lemma CreateKeepsConsistent(g: Registry, clientId: u64)
    requires Consistent(g) && g.tokenCounter < 0xFFFF_FFFF_FFFF_FFFF
    ensures var (g', tk) := Created(g, clientId);
      tk !in g.tokenClientIds && g'.tokenClientIds == g.tokenClientIds[tk := clientId] &&
      ClientIdOf(g', tk) == Some(clientId) && Consistent(g')
  {
    var (g', tk) := Created(g, clientId);
    assert g'.tokenCounter == g.tokenCounter + 1;
    forall i | 0 <= i < |g'.anonymousTokens|
      ensures g'.anonymousTokens[i] in g'.tokenClientIds && g'.tokenClientIds[g'.anonymousTokens[i]] == 0
    {
      if i < |g.anonymousTokens| {
        assert g'.anonymousTokens[i] == g.anonymousTokens[i];
      }
    }
  }

  /** A run of creations, one per id in `ids`, and the tokens it returns. */
  function CreatedAll(g: Registry, ids: seq<u64>): (Registry, seq<ClientToken>)
    decreases |ids|
  {
    if ids == [] then (g, [])
    else
      var (g1, tk) := Created(g, ids[0]);
      var (g2, tks) := CreatedAll(g1, ids[1..]);
      (g2, [tk] + tks)
  }

  /**
    Tokens never repeat: as long as the counter does not wrap, the i-th of a
    run of creations is the counter's starting value plus i.
  */
  lemma {:induction false} CreatedAllDistinct(g: Registry, ids: seq<u64>)
    requires g.tokenCounter + |ids| < 0x1_0000_0000_0000_0000
    ensures var (g', tks) := CreatedAll(g, ids);
      |tks| == |ids| && g'.tokenCounter == g.tokenCounter + |ids| &&
      forall i :: 0 <= i < |tks| ==> tks[i].value == g.tokenCounter + i
    decreases |ids|
  {
    if ids != [] {
      var (g1, tk) := Created(g, ids[0]);
      assert g1.tokenCounter == g.tokenCounter + 1;
      CreatedAllDistinct(g1, ids[1..]);
      var (g2, tks) := CreatedAll(g1, ids[1..]);
      assert CreatedAll(g, ids) == (g2, [tk] + tks);
      forall i | 0 < i < |tks| + 1
        ensures ([tk] + tks)[i].value == g.tokenCounter + i
      {
        assert ([tk] + tks)[i] == tks[i - 1];
      }
    }
  }

  /** A run of creations that does not wrap keeps the registry consistent and what it recorded before. */
  lemma {:induction false} CreatedAllConsistent(g: Registry, ids: seq<u64>)
    requires Consistent(g) && g.tokenCounter + |ids| < 0x1_0000_0000_0000_0000
    ensures var (g', tks) := CreatedAll(g, ids);
      Consistent(g') && forall tk :: tk in g.tokenClientIds ==> ClientIdOf(g', tk) == ClientIdOf(g, tk)
    decreases |ids|
  {
    if ids != [] {
      var (g1, tk) := Created(g, ids[0]);
      CreateKeepsConsistent(g, ids[0]);
      assert g1.tokenCounter == g.tokenCounter + 1;
      CreatedAllConsistent(g1, ids[1..]);
    }
  }

  /** After a run of creations that does not wrap, clientId of each new token is the id it was created for. */
  lemma {:induction false} CreatedAllRecorded(g: Registry, ids: seq<u64>)
    requires Consistent(g) && g.tokenCounter + |ids| < 0x1_0000_0000_0000_0000
    ensures var (g', tks) := CreatedAll(g, ids);
      |tks| == |ids| && forall i :: 0 <= i < |tks| ==> ClientIdOf(g', tks[i]) == Some(ids[i])
    decreases |ids|
  {
    CreatedAllDistinct(g, ids);
    if ids != [] {
      var (g1, tk) := Created(g, ids[0]);
      CreateKeepsConsistent(g, ids[0]);
      assert g1.tokenCounter == g.tokenCounter + 1;
      CreatedAllConsistent(g1, ids[1..]);
      CreatedAllRecorded(g1, ids[1..]);
      var (g2, tks) := CreatedAll(g1, ids[1..]);
      assert CreatedAll(g, ids) == (g2, [tk] + tks);
      assert tk in g1.tokenClientIds;
      forall i | 0 < i < |tks| + 1
        ensures ClientIdOf(g2, ([tk] + tks)[i]) == Some(ids[i])
      {
        assert ([tk] + tks)[i] == tks[i - 1] && ids[1..][i - 1] == ids[i];
      }
    }
  }

  /** The 16-bit command-id counter's post-increment, wrapping to 0 after 0xffff. */
  function NextCmdId(c: u16): (r: u16)
    ensures c < 0xFFFF ==> r == c + 1
    ensures c == 0xFFFF ==> r == 0
  {
    (c + 1) % 0x1_0000
  }

  /** The ids `k` successive calls of nextCmdId return, starting from counter `c`. */
  function IssuedCmdIds(c: u16, k: nat): seq<u16>
    decreases k
  {
    if k == 0 then [] else [c] + IssuedCmdIds(NextCmdId(c), k - 1)
  }

  /** The i-th id issued from counter c is c + i modulo 2^16. */
  lemma {:induction false} IssuedCmdIdsAt(c: u16, k: nat)
    ensures var s := IssuedCmdIds(c, k);
      |s| == k && forall i :: 0 <= i < k ==> s[i] == (c + i) % 0x1_0000
    decreases k
  {
    if k > 0 {
      IssuedCmdIdsAt(NextCmdId(c), k - 1);
      var s := IssuedCmdIds(c, k);
      forall i | 0 <= i < k
        ensures s[i] == (c + i) % 0x1_0000
      {
        if i > 0 {
          assert s[i] == IssuedCmdIds(NextCmdId(c), k - 1)[i - 1];
          assert (NextCmdId(c) + (i - 1)) % 0x1_0000 == (c + i) % 0x1_0000 by {
            if c == 0xFFFF {
              assert NextCmdId(c) == 0;
            }
          }
        }
      }
    }
  }

  /** nextCmdId repeats an id only after 2^16 calls: any 2^16 successive ids are distinct. */
  lemma IssuedCmdIdsDistinct(c: u16, k: nat)
    requires k <= 0x1_0000
    ensures var s := IssuedCmdIds(c, k);
      |s| == k && forall i, j :: 0 <= i < j < k ==> s[i] != s[j]
  {
    IssuedCmdIdsAt(c, k);
    var s := IssuedCmdIds(c, k);
    forall i, j | 0 <= i < j < k
      ensures s[i] != s[j]
    {
      var a, b := c + i, c + j;
      assert a % 0x1_0000 == if a < 0x1_0000 then a else a - 0x1_0000;
      assert b % 0x1_0000 == if b < 0x1_0000 then b else b - 0x1_0000;
    }
  }

  class Gateway {
    var tokenCounter: u64
    var anonymousTokens: seq<ClientToken>
    var tokenClientIdMap: map<ClientToken, u64>
    var clientIdTokenMap: map<u64, ClientToken>
    var cmdIdCounter: u16

    function State(): Registry
      reads this
    {
      Registry(tokenCounter, anonymousTokens, tokenClientIdMap, clientIdTokenMap)
    }

    /** The members' initial values: both counters at 0, no tokens. */
    constructor ()
      ensures State() == Registry(0, [], map[], map[]) && cmdIdCounter == 0
      ensures Consistent(State())
    {
      tokenCounter := 0;
      anonymousTokens := [];
      tokenClientIdMap := map[];
      clientIdTokenMap := map[];
      cmdIdCounter := 0;
    }

    /** createClientToken(clientId): the registry afterwards and the token are those `Created` gives. */
    method CreateClientToken(clientId: u64) returns (tk: ClientToken)
      modifies this`tokenCounter, this`anonymousTokens, this`tokenClientIdMap, this`clientIdTokenMap
      ensures (State(), tk) == Created(old(State()), clientId)
    {
      tk := ClientToken(tokenCounter);
      tokenCounter := NextToken(tokenCounter);
      tokenClientIdMap := Emplaced(tokenClientIdMap, tk, clientId);
      if clientId != 0 {
        clientIdTokenMap := Emplaced(clientIdTokenMap, clientId, tk);
      } else {
        anonymousTokens := anonymousTokens + [tk];
      }
    }

    /** nextCmdId: the counter's value, then the counter moves on by one modulo 2^16. */
    method NextCommandId() returns (id: u16)
      modifies this`cmdIdCounter
      ensures id == old(cmdIdCounter) && cmdIdCounter == NextCmdId(old(cmdIdCounter))
    {
      id := cmdIdCounter;
      cmdIdCounter := (cmdIdCounter + 1) % 0x1_0000;
    }
  }
}
