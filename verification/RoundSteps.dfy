/** Counting the acknowledgements of a heart-beat round keeps the invariant, and commits by the quorum
    rule. */
module RoundSteps {
  import opened RaftTypes
  import opened RaftSteps
  import opened Cluster
  import opened History
  import opened HistorySteps
  import opened Invariant
  import opened VoteSteps
  import opened WinSteps
  import opened AppendSteps

  ghost function HAppendBack(h: History, n: Node, r: AppendReq, reply: AppendReply): History {
    if CountsAck(n, reply) && r.round in h.ackers
    then h.(ackers := h.ackers[r.round := h.ackers[r.round] + {r.to}])
    else h
  }

  function UpTo(a: AppendArgs): int {
    a.prevIndex + |a.entries|
  }

  /** What is known of an acknowledgement by the time it is counted. */
  ghost predicate AckKnown(n: Node, h: History, peers: nat, r: AppendReq, reply: AppendReply, acks: int) {
    && AppendReqOk(h, peers, r) && AppendReplyOk(h, r, reply)
    && RoundOk(h, peers, r.round, acks) && Unacked(h, r)
  }

  /** A counted acknowledgement belongs to the term its leader still leads, and reaches no further than the
      leader's log. */
  lemma CountedAck(n: Node, h: History, peers: nat, r: AppendReq, reply: AppendReply, acks: int)
    requires LeaderField(n, h, r.args.leader)
    requires AckKnown(n, h, peers, r, reply, acks) && CountsAck(n, reply)
    ensures r.args.term == n.currentTerm && n.logs == h.tlog[n.currentTerm]
    ensures 0 <= UpTo(r.args) <= |n.logs|
    ensures var q := HAppendBack(h, n, r, reply).ackers[r.round];
            && Servers(q, peers) && |q| == |h.ackers[r.round]| + 1 && r.args.leader in q && r.to in q
            && AckedBy(h, n.currentTerm, UpTo(r.args), q)
  {
  }

  /** The step raises the commit index. */
  predicate Commits(n: Node, a: AppendArgs, reply: AppendReply, acks: int) {
    && CountsAck(n, reply) && acks + 1 >= Majority(|n.nextIndex|)
    && |a.entries| > 0 && a.entries[|a.entries| - 1].term == n.currentTerm
  }

  /** The counter refines the quorum rule: what a full round commits was chosen, by the very servers the
      counter counted. */
  lemma RoundChooses(n: Node, h: History, peers: nat, r: AppendReq, reply: AppendReply, acks: int)
    requires LeaderField(n, h, r.args.leader) && |n.nextIndex| == peers
    requires AckKnown(n, h, peers, r, reply, acks) && Commits(n, r.args, reply, acks)
    ensures Chosen(h, peers, n.currentTerm, UpTo(r.args))
    ensures Quorum(HAppendBack(h, n, r, reply).ackers[r.round], peers)
    ensures AckedBy(h, n.currentTerm, UpTo(r.args), HAppendBack(h, n, r, reply).ackers[r.round])
  {
    CountedAck(n, h, peers, r, reply, acks);
    var a, T := r.args, n.logs;
    assert a.entries[|a.entries| - 1] == T[a.prevIndex..UpTo(a)][|a.entries| - 1];
  }

  // ---------------------------------------------------------------- the node

  lemma AppendBackHistoryOk(n: Node, h: History, peers: nat, r: AppendReq, reply: AppendReply)
    requires Consistent(h, peers)
    ensures Consistent(HAppendBack(h, n, r, reply), peers) && Grows(h, HAppendBack(h, n, r, reply))
    ensures forall s :: Foreign(h, HAppendBack(h, n, r, reply), s)
    ensures var h' := HAppendBack(h, n, r, reply); h' == h.(ackers := h'.ackers)
  {
    SameFacts(h, HAppendBack(h, n, r, reply), peers);
  }

  /** Only the leader's bookkeeping and its commit index change, within the log. */
  lemma BookkeepingOk(n: Node, n': Node, out: seq<ApplyMsg>, h: History, peers: nat, s: int)
    requires NodeOk(n, out, h, peers, s) && n.status == Leader
    requires n' == n.(nextIndex := n'.nextIndex, matchIndex := n'.matchIndex, commitIndex := n'.commitIndex)
    requires |n'.nextIndex| == |n'.matchIndex| == peers
    requires forall j :: 0 <= j < peers ==> 1 <= n'.nextIndex[j] <= |n.logs| + 1
    requires forall j :: 0 <= j < peers ==> 0 <= n'.matchIndex[j] <= |n.logs|
    requires n.commitIndex <= n'.commitIndex <= |n.logs|
    requires Settled(h, peers, n.logs[..n'.commitIndex], n.currentTerm)
    ensures NodeOk(n', out, h, peers, s)
  {
    assert AckField(n', h, s);
    assert LeaderField(n', h, s);
  }

  lemma AppendBackNodeOk(n: Node, out: seq<ApplyMsg>, h: History, peers: nat, r: AppendReq, reply: AppendReply, acks: int)
    requires Consistent(h, peers) && NodeOk(n, out, h, peers, r.args.leader)
    requires AckKnown(n, h, peers, r, reply, acks)
    ensures AppendReplyAsserts(n, r.to, r.args, reply, acks)
    ensures NodeOk(AppendReplyStep(n, r.to, r.args, reply, acks).0, out, h, peers, r.args.leader)
  {
    var s := r.args.leader;
    LastIsLength(n, h);
    if reply.term > n.currentTerm {
      StepDownOk(n, out, h, peers, s, reply.term);
    } else if reply.term == n.currentTerm && n.status == Leader {
      BookkeepingMeaning(n, h, peers, r, reply, acks);
      BookkeepingOk(n, AppendReplyStep(n, r.to, r.args, reply, acks).0, out, h, peers, s);
    }
  }

  /** What a leader notes of a reply stays within its log, and what it commits is settled. */
  lemma BookkeepingMeaning(n: Node, h: History, peers: nat, r: AppendReq, reply: AppendReply, acks: int)
    requires LeaderField(n, h, r.args.leader) && CommitField(n, h, peers) && n.status == Leader
    requires |n.nextIndex| == |n.matchIndex| == peers
    requires AckKnown(n, h, peers, r, reply, acks) && reply.term == n.currentTerm
    ensures var n' := AppendReplyStep(n, r.to, r.args, reply, acks).0;
            && n' == n.(nextIndex := n'.nextIndex, matchIndex := n'.matchIndex, commitIndex := n'.commitIndex)
            && |n'.nextIndex| == |n'.matchIndex| == peers
            && (forall j :: 0 <= j < peers ==> 1 <= n'.nextIndex[j] <= |n.logs| + 1)
            && (forall j :: 0 <= j < peers ==> 0 <= n'.matchIndex[j] <= |n.logs|)
            && n.commitIndex <= n'.commitIndex <= |n.logs|
            && Settled(h, peers, n.logs[..n'.commitIndex], n.currentTerm)
  {
    if CountsAck(n, reply) {
      CountedAck(n, h, peers, r, reply, acks);
      if Commits(n, r.args, reply, acks) {
        RoundChooses(n, h, peers, r, reply, acks);
      }
    }
  }

  // ---------------------------------------------------------------- the rounds

  lemma AppendBackRoundOk(n: Node, h: History, peers: nat, r: AppendReq, reply: AppendReply, acks: int)
    requires LeaderField(n, h, r.args.leader) && |n.nextIndex| == |n.matchIndex| == peers
    requires AckKnown(n, h, peers, r, reply, acks)
    ensures RoundOk(HAppendBack(h, n, r, reply), peers, r.round, AppendReplyStep(n, r.to, r.args, reply, acks).1)
  {
    if CountsAck(n, reply) {
      CountedAck(n, h, peers, r, reply, acks);
    }
  }

  /** The match indices of a leader never go down while it leads, and the one just counted is recorded. */
  lemma AppendBackMatched(n: Node, h: History, peers: nat, r: AppendReq, reply: AppendReply, acks: int, k: int)
    requires LeaderField(n, h, r.args.leader) && |n.nextIndex| == |n.matchIndex| == peers && n.me == r.args.leader
    requires AckKnown(n, h, peers, r, reply, acks) && RoundMatched(n, h, k)
    ensures RoundMatched(AppendReplyStep(n, r.to, r.args, reply, acks).0, HAppendBack(h, n, r, reply), k)
  {
    if CountsAck(n, reply) {
      CountedAck(n, h, peers, r, reply, acks);
    }
  }

  // ---------------------------------------------------------------- the cluster

  lemma AppendBackAppendsOk(c: Cluster, c': Cluster, h: History, r: AppendReq, reply: AppendReply)
    requires Inv(c, h) && CanAppendBack(c, r, reply) && c' == AfterAppendBack(c, r, reply)
    requires Grows(h, HAppendBack(h, c.nodes[r.args.leader], r, reply))
    ensures AppendsOk(c', HAppendBack(h, c.nodes[r.args.leader], r, reply))
  {
    var n, acks, peers := c.nodes[r.args.leader], c.appendNums[r.round], |c.nodes|;
    var h' := HAppendBack(h, n, r, reply);
    assert NodeOk(n, c.applied[r.args.leader], h, peers, r.args.leader);
    assert AckKnown(n, h, peers, r, reply, acks);
    AppendBackRoundsOk(c, c', h, r, reply);
    AppendBackMatchedOk(c, c', h, r, reply);
    AppendBackReqsOk(c, c', h, h', r, reply);
  }

  lemma AppendBackRoundsOk(c: Cluster, c': Cluster, h: History, r: AppendReq, reply: AppendReply)
    requires AppendsOk(c, h) && CanAppendBack(c, r, reply) && c' == AfterAppendBack(c, r, reply)
    requires LeaderField(c.nodes[r.args.leader], h, r.args.leader)
    requires |c.nodes[r.args.leader].nextIndex| == |c.nodes[r.args.leader].matchIndex| == |c.nodes|
    requires AckKnown(c.nodes[r.args.leader], h, |c.nodes|, r, reply, c.appendNums[r.round])
    ensures var h' := HAppendBack(h, c.nodes[r.args.leader], r, reply);
            forall k :: k in c'.appendNums ==> RoundOk(h', |c.nodes|, k, c'.appendNums[k])
  {
    var n, h' := c.nodes[r.args.leader], HAppendBack(h, c.nodes[r.args.leader], r, reply);
    AppendBackRoundOk(n, h, |c.nodes|, r, reply, c.appendNums[r.round]);
    forall k | k in c'.appendNums
      ensures RoundOk(h', |c.nodes|, k, c'.appendNums[k])
    {
      assert RoundOk(h, |c.nodes|, k, c.appendNums[k]);
    }
  }

  lemma AppendBackMatchedOk(c: Cluster, c': Cluster, h: History, r: AppendReq, reply: AppendReply)
    requires AppendsOk(c, h) && CanAppendBack(c, r, reply) && c' == AfterAppendBack(c, r, reply)
    requires LeaderField(c.nodes[r.args.leader], h, r.args.leader)
    requires Shape(c.nodes[r.args.leader], |c.nodes|, r.args.leader)
    requires AckKnown(c.nodes[r.args.leader], h, |c.nodes|, r, reply, c.appendNums[r.round])
    ensures var h' := HAppendBack(h, c.nodes[r.args.leader], r, reply);
            forall k, s :: k in c'.appendNums && c'.Has(s) && k in h'.rounds && h'.rounds[k].leader == s ==>
              RoundMatched(c'.nodes[s], h', k)
  {
    var n, h' := c.nodes[r.args.leader], HAppendBack(h, c.nodes[r.args.leader], r, reply);
    forall k, s | k in c'.appendNums && c'.Has(s) && k in h'.rounds && h'.rounds[k].leader == s
      ensures RoundMatched(c'.nodes[s], h', k)
    {
      assert RoundMatched(c.nodes[s], h, k);
      if s == r.args.leader {
        AppendBackMatched(n, h, |c.nodes|, r, reply, c.appendNums[r.round], k);
      } else {
        OtherMatched(c.nodes[s], n, h, r, reply, k);
      }
    }
  }

  /** The rounds of another leader have the counts they had. */
  lemma OtherMatched(m: Node, n: Node, h: History, r: AppendReq, reply: AppendReply, k: int)
    requires RoundMatched(m, h, k)
    requires k in h.rounds && r.round in h.rounds && h.rounds[k].leader != h.rounds[r.round].leader
    ensures RoundMatched(m, HAppendBack(h, n, r, reply), k)
  {
  }

  lemma AppendBackReqsOk(c: Cluster, c': Cluster, h: History, h': History, r: AppendReq, reply: AppendReply)
    requires AppendsOk(c, h) && Grows(h, h') && (r, reply) in c.appendReplies
    requires h' == h.(ackers := h'.ackers)
    requires forall k :: k in h'.ackers && k != r.round ==> k in h.ackers && h'.ackers[k] == h.ackers[k]
    requires r.round in h'.ackers && r.round in h.ackers ==> h'.ackers[r.round] <= h.ackers[r.round] + {r.to}
    requires c'.appendReqs == c.appendReqs && c'.appendReplies == c.appendReplies
    requires c'.appendDone == c.appendDone + {r} && |c'.nodes| == |c.nodes|
    requires c'.appendNums.Keys == c.appendNums.Keys && r.round in h.ackers
    ensures forall q :: q in c'.appendReqs ==> AppendReqOk(h', |c'.nodes|, q) && q.round in c'.appendNums
    ensures forall q :: q in c'.appendReqs && q !in c'.appendDone ==> Unacked(h', q)
    ensures forall p :: p in c'.appendReplies ==> p.0 in c'.appendReqs && AppendReplyOk(h', p.0, p.1)
  {
    forall q | q in c'.appendReqs
      ensures AppendReqOk(h', |c'.nodes|, q) && q.round in c'.appendNums
      ensures q !in c'.appendDone ==> Unacked(h', q)
    {
      assert AppendReqOk(h, |c.nodes|, q) && (q !in c.appendDone ==> Unacked(h, q));
      AppendReqGrows(h, h', |c.nodes|, q);
    }
    forall p | p in c'.appendReplies
      ensures p.0 in c'.appendReqs && AppendReplyOk(h', p.0, p.1)
    {
      assert AppendReplyOk(h, p.0, p.1);
    }
  }

  lemma AppendBackOk(c: Cluster, h: History, r: AppendReq, reply: AppendReply)
    requires Inv(c, h) && CanAppendBack(c, r, reply)
    ensures var h' := HAppendBack(h, c.nodes[r.args.leader], r, reply);
            Inv(AfterAppendBack(c, r, reply), h') && Grows(h, h')
  {
    var n, acks, peers, s := c.nodes[r.args.leader], c.appendNums[r.round], |c.nodes|, r.args.leader;
    var c', h' := AfterAppendBack(c, r, reply), HAppendBack(h, n, r, reply);
    assert NodeOk(n, c.applied[s], h, peers, s);
    assert AckKnown(n, h, peers, r, reply, acks);
    AppendBackHistoryOk(n, h, peers, r, reply);
    AppendBackNodeOk(n, c.applied[s], h, peers, r, reply, acks);
    AppendBackAppendsOk(c, c', h, r, reply);
    AppendBackInv(c, c', h, h', s, AppendReplyStep(n, r.to, r.args, reply, acks).0);
  }

  lemma AppendBackInv(c: Cluster, c': Cluster, h: History, h': History, i: int, n': Node)
    requires Inv(c, h) && Consistent(h', |c.nodes|) && Grows(h, h') && c.Has(i)
    requires c' == c.(nodes := c.nodes[i := n'], appendDone := c'.appendDone, appendNums := c'.appendNums)
    requires c'.appendNums.Keys == c.appendNums.Keys && h' == h.(ackers := h'.ackers)
    requires NodeOk(n', c.applied[i], h, |c.nodes|, i) && AppendsOk(c', h')
    requires forall s :: Foreign(h, h', s)
    ensures Inv(c', h')
  {
    NodeGrows(n', c.applied[i], h, h', |c.nodes|, i);
    VotesKept(c, c', h, h');
    NodesKept(c, c', h, h', i);
  }
}
