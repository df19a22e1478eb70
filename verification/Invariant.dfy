/** What every reachable cluster state satisfies, relative to the history of the run that reached it. */
module Invariant {
  import opened RaftTypes
  import opened RaftSteps
  import opened Cluster
  import opened History
  import opened HistorySteps

  // ---------------------------------------------------------------- one node

  ghost predicate VoteField(n: Node, h: History, peers: nat, s: int) {
    && (n.votedFor == NO_VOTE ==> (s, n.currentTerm) !in h.voted)
    && (n.votedFor != NO_VOTE ==>
          && 0 <= n.votedFor < peers
          && (s, n.currentTerm) in h.voted && h.voted[(s, n.currentTerm)].candidate == n.votedFor)
    && (forall t :: (s, t) in h.voted ==> t <= n.currentTerm)
  }

  /** The node leads its term exactly when it was elected in it; then its log is the log of the term. */
  ghost predicate LeaderField(n: Node, h: History, s: int) {
    && (n.status == Leader <==> n.currentTerm in h.elected && h.elected[n.currentTerm].leader == s)
    && (n.status == Leader ==>
          && n.currentTerm in h.tlog && n.logs == h.tlog[n.currentTerm]
          && (s, n.currentTerm) in h.acked && h.acked[(s, n.currentTerm)] == |n.logs|
          && (forall j :: 0 <= j < |n.nextIndex| ==> 1 <= n.nextIndex[j] <= |n.logs| + 1)
          && (forall j :: 0 <= j < |n.matchIndex| ==> 0 <= n.matchIndex[j] <= |n.logs|))
  }

  /** A candidate still has the log it advertised, as long as nobody has won its term. */
  ghost predicate CandidateField(n: Node, h: History, s: int) {
    (s, n.currentTerm) in h.voted && h.voted[(s, n.currentTerm)].candidate == s && n.currentTerm !in h.elected ==>
      h.voted[(s, n.currentTerm)].log == n.logs
  }

  ghost predicate LogField(n: Node, h: History) {
    && Genuine(h, n.logs)
    && (forall i :: 0 <= i < |n.logs| ==> n.logs[i].term <= n.currentTerm)
  }

  ghost predicate AckField(n: Node, h: History, s: int) {
    forall t :: (s, t) in h.acked ==>
      t <= n.currentTerm && KeepsAll(h, t, h.acked[(s, t)], n.logs, n.currentTerm + 1)
  }

  ghost predicate CommitField(n: Node, h: History, peers: nat) {
    && 0 <= n.lastApplied <= n.commitIndex <= |n.logs|
    && Settled(h, peers, n.logs[..n.commitIndex], n.currentTerm)
  }

  /** What the node has pushed is its log, command by command, up to lastApplied. */
  ghost predicate OutputField(n: Node, out: seq<ApplyMsg>) {
    && 0 <= n.lastApplied <= |n.logs|
    && |out| == n.lastApplied
    && forall k :: 0 <= k < |out| ==> out[k] == CommandMsg(n.logs[k].command, k + 1)
  }

  ghost predicate Shape(n: Node, peers: nat, s: int) {
    && n.me == s && n.snapIndex == 0 && n.snapTerm == 0 && n.currentTerm >= 0
    && |n.nextIndex| == peers && |n.matchIndex| == peers
  }

  ghost predicate NodeOk(n: Node, out: seq<ApplyMsg>, h: History, peers: nat, s: int) {
    && Shape(n, peers, s)
    && VoteField(n, h, peers, s)
    && LeaderField(n, h, s)
    && CandidateField(n, h, s)
    && LogField(n, h)
    && AckField(n, h, s)
    && CommitField(n, h, peers)
    && OutputField(n, out)
  }

  // ---------------------------------------------------------------- votes in flight

  ghost predicate VoteReqOk(h: History, peers: nat, r: VoteReq) {
    var k := (r.args.candidate, r.args.term);
    && 0 <= r.args.candidate < peers && 0 <= r.to < peers && r.to != r.args.candidate
    && k in h.voted && h.voted[k].candidate == r.args.candidate
    && r.args.lastLogIndex == |h.voted[k].log| && r.args.lastLogTerm == LogTerm(h.voted[k].log)
  }

  ghost predicate VoteReplyOk(h: History, r: VoteReq, reply: VoteReply) {
    reply.granted ==>
      && reply.term == r.args.term
      && (r.args.candidate, r.args.term) in h.voted
      && Backs(h, r.to, r.args.term, r.args.candidate, h.voted[(r.args.candidate, r.args.term)].log)
  }

  /** The counter of an election: the servers counted so far backed the candidate, and the counter is at most
      their number, less one majority once that majority has been spent on winning. */
  ghost predicate TallyOk(h: History, peers: nat, k: (int, int), votes: int) {
    && k in h.counted && k in h.voted && h.voted[k].candidate == k.0
    && k.1 >= 1 && k.0 in h.counted[k] && Servers(h.counted[k], peers)
    && (forall v :: v in h.counted[k] ==> Backs(h, v, k.1, k.0, h.voted[k].log))
    && votes <= |h.counted[k]| - (if k.1 in h.elected && h.elected[k.1].leader == k.0 then Majority(peers) else 0)
  }

  ghost predicate VotesOk(c: Cluster, h: History) {
    && (forall r :: r in c.voteReqs ==>
          VoteReqOk(h, |c.nodes|, r) && (r.args.candidate, r.args.term) in c.votedNum)
    && (forall p :: p in c.voteReplies ==> p.0 in c.voteReqs && VoteReplyOk(h, p.0, p.1))
    && (forall k :: k in c.votedNum ==> TallyOk(h, |c.nodes|, k, c.votedNum[k]))
    && (forall r :: r in c.voteReqs && r !in c.voteDone ==> Uncounted(h, r))
  }

  ghost predicate Uncounted(h: History, r: VoteReq) {
    var k := (r.args.candidate, r.args.term);
    k in h.counted ==> r.to !in h.counted[k]
  }

  // ---------------------------------------------------------------- entries in flight

  ghost predicate AppendReqOk(h: History, peers: nat, r: AppendReq) {
    var a := r.args;
    && 0 <= a.leader < peers && 0 <= r.to < peers && r.to != a.leader
    && a.term in h.elected && h.elected[a.term].leader == a.leader && a.term in h.tlog
    && 0 <= a.prevIndex && a.prevIndex + |a.entries| <= |h.tlog[a.term]|
    && a.entries == h.tlog[a.term][a.prevIndex..a.prevIndex + |a.entries|]
    && a.prevTerm == LogTerm(h.tlog[a.term][..a.prevIndex])
    && 0 <= a.leaderCommit <= a.prevIndex + |a.entries|
    && Settled(h, peers, h.tlog[a.term][..a.leaderCommit], a.term)
    && r.round in h.rounds && h.rounds[r.round] == Round(a.leader, a.term, a.prevIndex + |a.entries|)
  }

  ghost predicate AppendReplyOk(h: History, r: AppendReq, reply: AppendReply) {
    var a := r.args;
    && (reply.success ==>
          reply.term == a.term && (r.to, a.term) in h.acked
          && h.acked[(r.to, a.term)] >= a.prevIndex + |a.entries|)
    && (!reply.success && reply.updateNext != NO_UPDATE ==>
          reply.term == a.term && 1 <= reply.updateNext <= a.prevIndex)
  }

  /** The counter of a round never exceeds the number of servers known to hold the leader's log through
      the round's last index. */
  ghost predicate RoundOk(h: History, peers: nat, round: int, acks: int) {
    && round in h.rounds && round in h.ackers
    && var R := h.rounds[round];
    && R.term in h.elected && h.elected[R.term].leader == R.leader
    && R.term in h.tlog && 0 <= R.last <= |h.tlog[R.term]|
    && Servers(h.ackers[round], peers) && R.leader in h.ackers[round]
    && AckedBy(h, R.term, R.last, h.ackers[round])
    && acks <= |h.ackers[round]|
  }

  /** As long as the sender leads the round's term, its match indices show the servers counted. */
  ghost predicate RoundMatched(n: Node, h: History, round: int) {
    round in h.rounds && round in h.ackers && n.status == Leader && n.currentTerm == h.rounds[round].term ==>
      forall v :: v in h.ackers[round] && v != n.me && 0 <= v < |n.matchIndex| ==>
        n.matchIndex[v] >= h.rounds[round].last
  }

  ghost predicate AppendsOk(c: Cluster, h: History) {
    && (forall r :: r in c.appendReqs ==> AppendReqOk(h, |c.nodes|, r) && r.round in c.appendNums)
    && (forall p :: p in c.appendReplies ==> p.0 in c.appendReqs && AppendReplyOk(h, p.0, p.1))
    && (forall k :: k in c.appendNums ==> RoundOk(h, |c.nodes|, k, c.appendNums[k]))
    && (forall k, s :: k in c.appendNums && c.Has(s) && h.rounds[k].leader == s ==> RoundMatched(c.nodes[s], h, k))
    && (forall r :: r in c.appendReqs && r !in c.appendDone ==> Unacked(h, r))
    && Distinct(c.appendReqs)
  }

  /** A round sends one request to a peer. */
  ghost predicate Distinct(reqs: set<AppendReq>) {
    forall r, q :: r in reqs && q in reqs && r.round == q.round && r.to == q.to ==> r == q
  }

  ghost predicate Unacked(h: History, r: AppendReq) {
    r.round in h.ackers ==> r.to !in h.ackers[r.round]
  }

  // ---------------------------------------------------------------- the whole cluster

  ghost predicate NodesOk(c: Cluster, h: History) {
    && |c.applied| == |c.nodes|
    && forall s :: c.Has(s) ==> NodeOk(c.nodes[s], c.applied[s], h, |c.nodes|, s)
  }

  ghost predicate Inv(c: Cluster, h: History) {
    && Consistent(h, |c.nodes|)
    && h.rounds.Keys == c.appendNums.Keys
    && NodesOk(c, h)
    && VotesOk(c, h)
    && AppendsOk(c, h)
  }

  const EMPTY_HISTORY: History := History(map[], map[], map[], map[], map[], map[], map[])

  lemma InitOk(peers: nat)
    ensures Inv(InitCluster(peers), EMPTY_HISTORY)
  {
  }

  // ---------------------------------------------------------------- what growth keeps

  /** Nothing the history learned is about server s. */
  ghost predicate Foreign(h: History, h': History, s: int) {
    && (forall t :: (s, t) in h'.voted ==> (s, t) in h.voted)
    && (forall t :: (s, t) in h'.acked ==> (s, t) in h.acked && h'.acked[(s, t)] == h.acked[(s, t)])
    && (forall t :: t in h'.elected && t !in h.elected ==> h'.elected[t].leader != s)
    && (forall t :: t in h.elected && h.elected[t].leader == s && t in h.tlog ==> t in h'.tlog && h'.tlog[t] == h.tlog[t])
  }

  lemma NodeGrows(n: Node, out: seq<ApplyMsg>, h: History, h': History, peers: nat, s: int)
    requires NodeOk(n, out, h, peers, s) && Grows(h, h') && Foreign(h, h', s)
    ensures NodeOk(n, out, h', peers, s)
  {
    GenuineGrows(h, h', n.logs);
    SettledGrows(h, h', peers, n.logs[..n.commitIndex], n.currentTerm, n.currentTerm);
    assert AckField(n, h', s) by { AcksGrow(n, h, h', s); }
    assert VoteField(n, h', peers, s);
    assert LeaderField(n, h', s);
    assert CandidateField(n, h', s);
  }

  lemma AcksGrow(n: Node, h: History, h': History, s: int)
    requires AckField(n, h, s) && Grows(h, h')
    requires forall t :: (s, t) in h'.acked ==> (s, t) in h.acked && h'.acked[(s, t)] == h.acked[(s, t)]
    ensures AckField(n, h', s)
  {
    forall t | (s, t) in h'.acked
      ensures t <= n.currentTerm && KeepsAll(h', t, h'.acked[(s, t)], n.logs, n.currentTerm + 1)
    {
      KeepsGrows(h, h', t, h.acked[(s, t)], n.logs, n.currentTerm + 1);
    }
  }

  lemma VoteReqGrows(h: History, h': History, peers: nat, r: VoteReq)
    requires VoteReqOk(h, peers, r) && Grows(h, h')
    ensures VoteReqOk(h', peers, r)
  {
  }

  lemma AppendReqGrows(h: History, h': History, peers: nat, r: AppendReq)
    requires AppendReqOk(h, peers, r) && Grows(h, h')
    ensures AppendReqOk(h', peers, r)
  {
    var a := r.args;
    var T, T' := h.tlog[a.term], h'.tlog[a.term];
    assert T'[a.prevIndex..a.prevIndex + |a.entries|] == T[a.prevIndex..a.prevIndex + |a.entries|];
    assert T'[..a.prevIndex] == T[..a.prevIndex];
    assert T'[..a.leaderCommit] == T[..a.leaderCommit];
    SettledGrows(h, h', peers, T[..a.leaderCommit], a.term, a.term);
  }

  /** The vote side is untouched by a step that sends no vote, counts none and elects nobody. */
  lemma VotesKept(c: Cluster, c': Cluster, h: History, h': History)
    requires VotesOk(c, h) && Grows(h, h')
    requires |c'.nodes| == |c.nodes|
    requires c'.voteReqs == c.voteReqs && c'.voteReplies == c.voteReplies
    requires c'.voteDone == c.voteDone && c'.votedNum == c.votedNum
    requires h'.counted == h.counted && h'.elected == h.elected
    ensures VotesOk(c', h')
  {
    forall r | r in c'.voteReqs
      ensures VoteReqOk(h', |c'.nodes|, r)
    {
      VoteReqGrows(h, h', |c.nodes|, r);
    }
    forall p | p in c'.voteReplies
      ensures VoteReplyOk(h', p.0, p.1)
    {
      assert VoteReplyOk(h, p.0, p.1);
    }
    forall k | k in c'.votedNum
      ensures TallyOk(h', |c'.nodes|, k, c'.votedNum[k])
    {
      TallyGrows(h, h', |c.nodes|, k, c.votedNum[k]);
    }
    forall r | r in c'.voteReqs && r !in c'.voteDone
      ensures Uncounted(h', r)
    {
      assert Uncounted(h, r);
    }
  }

  lemma TallyGrows(h: History, h': History, peers: nat, k: (int, int), votes: int)
    requires TallyOk(h, peers, k, votes) && Grows(h, h')
    requires k in h'.counted && h'.counted[k] == h.counted[k]
    requires k.1 in h'.elected && h'.elected[k.1].leader == k.0 ==> k.1 in h.elected
    ensures TallyOk(h', peers, k, votes)
  {
    forall v | v in h'.counted[k]
      ensures Backs(h', v, k.1, k.0, h'.voted[k].log)
    {
      assert Backs(h, v, k.1, k.0, h.voted[k].log);
    }
  }

  /** The append side is untouched by a step that sends no entries and counts no acknowledgement, if the
      match indices of whoever leads a term are as before. */
  lemma AppendsKept(c: Cluster, c': Cluster, h: History, h': History)
    requires AppendsOk(c, h) && Grows(h, h') && h.rounds.Keys == c.appendNums.Keys
    requires |c'.nodes| == |c.nodes|
    requires c'.appendReqs == c.appendReqs && c'.appendReplies == c.appendReplies
    requires c'.appendDone == c.appendDone && c'.appendNums == c.appendNums
    requires h'.rounds == h.rounds && h'.ackers == h.ackers
    requires forall s :: c.Has(s) ==> LeadsNoMore(c.nodes[s], c'.nodes[s], h, s)
    ensures AppendsOk(c', h')
  {
    forall r | r in c'.appendReqs
      ensures AppendReqOk(h', |c'.nodes|, r) && r.round in c'.appendNums
    {
      AppendReqGrows(h, h', |c.nodes|, r);
    }
    forall p | p in c'.appendReplies
      ensures p.0 in c'.appendReqs && AppendReplyOk(h', p.0, p.1)
    {
      assert AppendReplyOk(h, p.0, p.1);
    }
    forall k | k in c'.appendNums
      ensures RoundOk(h', |c'.nodes|, k, c'.appendNums[k])
    {
      assert RoundOk(h, |c.nodes|, k, c.appendNums[k]);
    }
    forall k, s | k in c'.appendNums && c'.Has(s) && h'.rounds[k].leader == s
      ensures RoundMatched(c'.nodes[s], h', k)
    {
      assert RoundMatched(c.nodes[s], h, k) && RoundOk(h, |c.nodes|, k, c.appendNums[k]);
      assert LeadsNoMore(c.nodes[s], c'.nodes[s], h, s);
    }
    forall r | r in c'.appendReqs && r !in c'.appendDone
      ensures Unacked(h', r)
    {
      assert Unacked(h, r);
    }
  }

  /** If the node leads a term already won after the step, it led it before, with the same match indices. */
  ghost predicate LeadsNoMore(n: Node, n': Node, h: History, s: int) {
    && n'.me == n.me
    && (n'.status == Leader && n'.currentTerm in h.elected && h.elected[n'.currentTerm].leader == s ==>
          n.status == Leader && n.currentTerm == n'.currentTerm && n'.matchIndex == n.matchIndex)
  }
}
