/** class Clerk of src/raftClerk/clerk.cpp: the retry loops. */
module Clerk {
  import opened KvSteps

  /** `ok` is false when the call itself failed. */
  datatype Response = Response(ok: bool, err: string, value: string)

  datatype Call = Call(server: nat, op: Op)

  const OK := "OK"
  const ERR_NO_KEY := "ErrNoKey"
  const ERR_WRONG_LEADER := "ErrWrongLeader"

  /** The next attempt goes to the next server. */
  predicate Moves(r: Response) {
    !r.ok || r.err == ERR_WRONG_LEADER
  }

  predicate Ends(r: Response, get: bool) {
    !Moves(r) && (r.err == OK || (get && r.err == ERR_NO_KEY))
  }

  /** Attempt k is the first that ends the call. */
  ghost predicate EndsAt(replies: nat -> Response, get: bool, k: nat) {
    Ends(replies(k), get) && forall i: nat :: i < k ==> !Ends(replies(i), get)
  }

  function Next(server: nat, servers: nat): nat {
    if server + 1 < servers then server + 1 else 0
  }

  /** Who gets attempt k when attempt 0 goes to `start`. */
  function ServerAt(start: nat, servers: nat, replies: nat -> Response, k: nat): (server: nat)
    requires start < servers
    ensures server < servers
  {
    if k == 0 then start
    else
      var before := ServerAt(start, servers, replies, k - 1);
      if Moves(replies(k - 1)) then Next(before, servers) else before
  }

  lemma {:induction false} ServerAfterMoves(start: nat, servers: nat, replies: nat -> Response, k: nat)
    requires start < servers && k <= servers && forall i: nat :: i < k ==> Moves(replies(i))
    ensures ServerAt(start, servers, replies, k) == if start + k < servers then start + k else start + k - servers
  {
    if k > 0 {
      ServerAfterMoves(start, servers, replies, k - 1);
    }
  }

  /** The attempt after a call that failed or was told that the server does not lead goes to the server behind it, the
      first one after the last; after any other answer the same server is asked again. */
  lemma NextAttemptIff(start: nat, servers: nat, replies: nat -> Response, k: nat)
    requires start < servers
    ensures var here, next := ServerAt(start, servers, replies, k), ServerAt(start, servers, replies, k + 1);
            && (next == here <==> servers == 1 || (replies(k).ok && replies(k).err != "ErrWrongLeader"))
            && (next != here ==> next == if here == servers - 1 then 0 else here + 1)
  {
  }

  /** A call ends with an answer from a server that says it is done, and a read also with one that says there is no such
      key; an answer from a failed call or from a server that does not lead never ends it. */
  lemma EndsIff(r: Response, get: bool)
    ensures Ends(r, get) <==> r.ok && (r.err == "OK" || (get && r.err == "ErrNoKey"))
  {
  }

  /** As many refusals as there are servers: every server has been asked, and the first is next again. */
  lemma EveryServerIsAsked(start: nat, servers: nat, replies: nat -> Response, server: nat) returns (k: nat)
    requires start < servers && server < servers
    requires forall i: nat :: i < servers ==> !replies(i).ok || replies(i).err == "ErrWrongLeader"
    ensures k < servers && ServerAt(start, servers, replies, k) == server
    ensures ServerAt(start, servers, replies, servers) == start
  {
    k := if start <= server then server - start else server + servers - start;
    ServerAfterMoves(start, servers, replies, k);
    ServerAfterMoves(start, servers, replies, servers);
  }

  /** The calls of the first k attempts. */
  function Calls(start: nat, servers: nat, replies: nat -> Response, op: Op, k: nat): (calls: seq<Call>)
    requires start < servers
    ensures |calls| == k && forall i :: 0 <= i < k ==> calls[i] == Call(ServerAt(start, servers, replies, i), op)
  {
    if k == 0 then []
    else Calls(start, servers, replies, op, k - 1) + [Call(ServerAt(start, servers, replies, k - 1), op)]
  }

  class Clerk {
    const clientId: string
    const servers: nat
    var requestId: int
    var recentLeaderId: nat

    ghost predicate Valid()
      reads this
    {
      recentLeaderId < servers
    }

    constructor (clientId: string, servers: nat)
      requires servers > 0
      ensures Valid() && this.clientId == clientId && this.servers == servers
      ensures requestId == 0 && recentLeaderId == 0
    {
      this.clientId, this.servers := clientId, servers;
      requestId, recentLeaderId := 0, 0;
    }

    method Rotate(server: nat) returns (next: nat)
      requires server < servers
      ensures next == Next(server, servers)
    {
      next := (server + 1) % servers;
    }

    /** `replies(i)` answers attempt i, `last` is the attempt that ends the call.  All attempts carry one
        request, with one new id. */
    method PutAppend(key: string, value: string, operation: string, replies: nat -> Response, ghost last: nat)
        returns (calls: seq<Call>)
      requires Valid() && EndsAt(replies, false, last)
      modifies this
      ensures Valid() && requestId == old(requestId) + 1
      ensures calls == Calls(old(recentLeaderId), servers, replies,
                             Op(operation, key, value, clientId, requestId), last + 1)
      ensures recentLeaderId == calls[last].server
    {
      requestId := requestId + 1;
      var op := Op(operation, key, value, clientId, requestId);
      ghost var start := recentLeaderId;
      var server := recentLeaderId;
      calls := [];
      while true
        invariant |calls| <= last && server < servers
        invariant recentLeaderId == start && requestId == old(requestId) + 1
        invariant server == ServerAt(start, servers, replies, |calls|)
        invariant calls == Calls(start, servers, replies, op, |calls|)
        decreases last - |calls|
      {
        var reply := replies(|calls|);
        calls := calls + [Call(server, op)];
        if !reply.ok || reply.err == ERR_WRONG_LEADER {
          server := Rotate(server);
          continue;
        }
        if reply.err == OK {
          recentLeaderId := server;
          return;
        }
      }
    }

    /** As above; an absent key ends the call too, with "" and without a new leader. */
    method Get(key: string, replies: nat -> Response, ghost last: nat) returns (value: string, calls: seq<Call>)
      requires Valid() && EndsAt(replies, true, last)
      modifies this
      ensures Valid() && requestId == old(requestId) + 1
      ensures calls == Calls(old(recentLeaderId), servers, replies, Op("Get", key, "", clientId, requestId), last + 1)
      ensures value == if replies(last).err == OK then replies(last).value else ""
      ensures recentLeaderId == if replies(last).err == OK then calls[last].server else old(recentLeaderId)
    {
      requestId := requestId + 1;
      var op := Op("Get", key, "", clientId, requestId);
      ghost var start := recentLeaderId;
      var server := recentLeaderId;
      calls := [];
      while true
        invariant |calls| <= last && server < servers
        invariant recentLeaderId == start && requestId == old(requestId) + 1
        invariant server == ServerAt(start, servers, replies, |calls|)
        invariant calls == Calls(start, servers, replies, op, |calls|)
        decreases last - |calls|
      {
        var reply := replies(|calls|);
        calls := calls + [Call(server, op)];
        if !reply.ok || reply.err == ERR_WRONG_LEADER {
          server := Rotate(server);
          continue;
        }
        if reply.err == ERR_NO_KEY {
          return "", calls;
        }
        if reply.err == OK {
          recentLeaderId := server;
          return reply.value, calls;
        }
      }
    }
  }
}
