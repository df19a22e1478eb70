/** Counting votes keeps the invariant, and elects at most one server in a term. */
module WinSteps {
  import opened RaftTypes
  import opened RaftSteps
  import opened Cluster
  import opened History
  import opened HistorySteps
  import opened Invariant
  import opened VoteSteps

  ghost function Count(h: History, r: VoteReq): History {
    var k := (r.args.candidate, r.args.term);
    if k in h.counted then h.(counted := h.counted[k := h.counted[k] + {r.to}]) else h
  }

  ghost predicate Counts(n: Node, reply: VoteReply) {
    reply.term == n.currentTerm && reply.granted
  }

  ghost predicate Wins(n: Node, reply: VoteReply, votes: int) {
    Counts(n, reply) && votes + 1 >= Majority(|n.nextIndex|)
  }

  ghost function HVoteBack(h: History, n: Node, r: VoteReq, reply: VoteReply, votes: int): History {
    var k := (r.args.candidate, r.args.term);
    if !Counts(n, reply) || k !in h.counted then h
    else if !Wins(n, reply, votes) then Count(h, r)
    else RecordWin(Count(h, r), n.currentTerm, Won(n.me, n.logs, Count(h, r).counted[k]))
  }

  /** The servers counted once this vote is: all backed the candidate, one more than before. */
  lemma CountedOneMore(h: History, peers: nat, r: VoteReq, reply: VoteReply, votes: int)
    requires Consistent(h, peers) && VoteReqOk(h, peers, r) && VoteReplyOk(h, r, reply) && reply.granted
    requires TallyOk(h, peers, (r.args.candidate, r.args.term), votes) && Uncounted(h, r)
    ensures var k := (r.args.candidate, r.args.term);
            var q := Count(h, r).counted[k];
            && Servers(q, peers) && |q| == |h.counted[k]| + 1
            && forall v :: v in q ==> Backs(h, v, k.1, k.0, h.voted[k].log)
  {
    var k := (r.args.candidate, r.args.term);
    assert Count(h, r).counted[k] == h.counted[k] + {r.to};
  }

  /** One vote per server and term: two majorities of one term back one candidate. */
  lemma SameWinner(h: History, peers: nat, t: int, p: set<int>, a: int, la: Log, q: set<int>, b: int, lb: Log)
    requires Quorum(p, peers) && Quorum(q, peers)
    requires forall v :: v in p ==> Backs(h, v, t, a, la)
    requires forall v :: v in q ==> Backs(h, v, t, b, lb)
    ensures a == b
  {
    var s := QuorumsMeet(p, q, peers);
    assert Backs(h, s, t, a, la) && Backs(h, s, t, b, lb);
  }

  /** Election safety at its root (Raft section 5.2): when the counter reaches a majority, no server has
      won that term yet.  Another winner would share a voter; an earlier win of the same candidate has
      already spent a majority, and two majorities do not fit in the cluster. */
  lemma NobodyWonYet(h: History, peers: nat, r: VoteReq, reply: VoteReply, votes: int)
    requires Consistent(h, peers) && VoteReqOk(h, peers, r) && VoteReplyOk(h, r, reply) && reply.granted
    requires TallyOk(h, peers, (r.args.candidate, r.args.term), votes) && Uncounted(h, r)
    requires votes + 1 >= Majority(peers)
    ensures r.args.term !in h.elected
    ensures Quorum(Count(h, r).counted[(r.args.candidate, r.args.term)], peers)
  {
    var k := (r.args.candidate, r.args.term);
    var q := Count(h, r).counted[k];
    CountedOneMore(h, peers, r, reply, votes);
    ServersBound(q, peers);
    if k.1 in h.elected {
      var w := h.elected[k.1];
      assert ElectedOk(h, peers, k.1);
      SameWinner(h, peers, k.1, q, k.0, h.voted[k].log, w.voters, w.leader, w.log);
      assert false;
    }
  }

  // ---------------------------------------------------------------- the node

  lemma WinHistoryOk(n: Node, out: seq<ApplyMsg>, h: History, peers: nat, s: int, q: set<int>)
    requires Consistent(h, peers) && NodeOk(n, out, h, peers, s) && 0 <= s < peers
    requires n.currentTerm !in h.elected && Quorum(q, peers) && s in q
    requires (s, n.currentTerm) in h.voted && h.voted[(s, n.currentTerm)].candidate == s && n.currentTerm >= 1
    requires forall v :: v in q ==> Backs(h, v, n.currentTerm, s, h.voted[(s, n.currentTerm)].log)
    ensures var h' := RecordWin(h, n.currentTerm, Won(s, n.logs, q));
            Consistent(h', peers) && Grows(h, h') && (s, n.currentTerm) !in h.acked
  {
    var t, w := n.currentTerm, Won(s, n.logs, q);
    assert h.voted[(s, t)].log == n.logs;
    forall i | 0 <= i < |n.logs|
      ensures n.logs[i].term < t
    {
      assert Written(h, n.logs, i);
    }
    RecordWinOk(h, peers, t, w);
  }

  lemma WinNodeOk(n: Node, out: seq<ApplyMsg>, h: History, peers: nat, s: int, q: set<int>)
    requires NodeOk(n, out, h, peers, s) && 0 <= s < peers && (s, n.currentTerm) !in h.acked
    requires Grows(h, RecordWin(h, n.currentTerm, Won(s, n.logs, q)))
    ensures NodeOk(AsLeader(n), out, RecordWin(h, n.currentTerm, Won(s, n.logs, q)), peers, s)
  {
    var t := n.currentTerm;
    var h', n' := RecordWin(h, t, Won(s, n.logs, q)), AsLeader(n);
    LastIsLength(n, h);
    GenuineGrows(h, h', n.logs);
    SettledGrows(h, h', peers, n.logs[..n.commitIndex], t, t);
    forall u | (s, u) in h'.acked
      ensures u <= t && KeepsAll(h', u, h'.acked[(s, u)], n.logs, t + 1)
    {
      if u != t {
        KeepsGrows(h, h', u, h.acked[(s, u)], n.logs, t + 1);
      }
    }
    assert AckField(n', h', s);
    assert LeaderField(n', h', s);
  }

  /** The node as it turns leader. */
  function AsLeader(n: Node): Node {
    n.(status := Leader,
       nextIndex := seq(|n.nextIndex|, _ => LastLogIndex(n) + 1),
       matchIndex := seq(|n.matchIndex|, _ => 0))
  }

  lemma CountKeeps(h: History, peers: nat, r: VoteReq, n: Node, out: seq<ApplyMsg>, s: int)
    requires Consistent(h, peers) && NodeOk(n, out, h, peers, s)
    ensures Consistent(Count(h, r), peers) && Grows(h, Count(h, r)) && NodeOk(n, out, Count(h, r), peers, s)
  {
    SameFacts(h, Count(h, r), peers);
    NodeGrows(n, out, h, Count(h, r), peers, s);
  }

  lemma VoteBackNodeOk(n: Node, out: seq<ApplyMsg>, h: History, peers: nat, r: VoteReq, reply: VoteReply, votes: int)
    requires Consistent(h, peers) && NodeOk(n, out, h, peers, r.args.candidate)
    requires VoteReqOk(h, peers, r) && VoteReplyOk(h, r, reply)
    requires TallyOk(h, peers, (r.args.candidate, r.args.term), votes) && Uncounted(h, r)
    ensures var h' := HVoteBack(h, n, r, reply, votes);
            && Consistent(h', peers) && Grows(h, h')
            && NodeOk(VoteReplyStep(n, reply, votes).0, out, h', peers, r.args.candidate)
  {
    var k := (r.args.candidate, r.args.term);
    if reply.term > n.currentTerm {
      StepDownOk(n, out, h, peers, k.0, reply.term);
    } else if Counts(n, reply) {
      var g := Count(h, r);
      CountKeeps(h, peers, r, n, out, k.0);
      if Wins(n, reply, votes) {
        NobodyWonYet(h, peers, r, reply, votes);
        CountedOneMore(h, peers, r, reply, votes);
        SelfBacked(n, h, peers, r, reply, votes);
        WinHistoryOk(n, out, g, peers, k.0, g.counted[k]);
        WinNodeOk(n, out, g, peers, k.0, g.counted[k]);
        GrowsTransitive(h, g, HVoteBack(h, n, r, reply, votes));
      }
    }
  }

  /** The candidate is among its own voters, and everyone counted is known to the grown history. */
  lemma SelfBacked(n: Node, h: History, peers: nat, r: VoteReq, reply: VoteReply, votes: int)
    requires Consistent(h, peers) && VoteReqOk(h, peers, r) && VoteReplyOk(h, r, reply) && reply.granted
    requires TallyOk(h, peers, (r.args.candidate, r.args.term), votes) && Uncounted(h, r)
    requires reply.term == n.currentTerm
    ensures var k := (r.args.candidate, r.args.term);
            var g := Count(h, r);
            && n.currentTerm == k.1 >= 1 && k.0 in g.counted[k]
            && forall v :: v in g.counted[k] ==> Backs(g, v, k.1, k.0, g.voted[k].log)
  {
    var k := (r.args.candidate, r.args.term);
    CountedOneMore(h, peers, r, reply, votes);
    forall v | v in Count(h, r).counted[k]
      ensures Backs(Count(h, r), v, k.1, k.0, h.voted[k].log)
    {
      assert Backs(h, v, k.1, k.0, h.voted[k].log);
    }
  }

  // ---------------------------------------------------------------- the cluster

  lemma HVoteBackFrame(n: Node, h: History, r: VoteReq, reply: VoteReply, votes: int)
    requires n.currentTerm !in h.elected || !Wins(n, reply, votes)
    ensures var h' := HVoteBack(h, n, r, reply, votes);
            && h'.rounds == h.rounds && h'.ackers == h.ackers
            && (forall s :: s != n.me ==> Foreign(h, h', s))
            && LeadsNoMore(n, VoteReplyStep(n, reply, votes).0, h, n.me)
  {
    forall s | s != n.me
      ensures Foreign(h, HVoteBack(h, n, r, reply, votes), s)
    {
      HVoteBackForeign(n, h, r, reply, votes, s);
    }
    assert HVoteBack(h, n, r, reply, votes).rounds == h.rounds;
  }

  lemma HVoteBackForeign(n: Node, h: History, r: VoteReq, reply: VoteReply, votes: int, s: int)
    requires s != n.me && (n.currentTerm !in h.elected || !Wins(n, reply, votes))
    ensures Foreign(h, HVoteBack(h, n, r, reply, votes), s)
  {
  }

  lemma VoteBackTallyOk(n: Node, h: History, peers: nat, r: VoteReq, reply: VoteReply, votes: int)
    requires Consistent(h, peers) && Shape(n, peers, r.args.candidate)
    requires VoteReqOk(h, peers, r) && VoteReplyOk(h, r, reply)
    requires TallyOk(h, peers, (r.args.candidate, r.args.term), votes) && Uncounted(h, r)
    requires Grows(h, HVoteBack(h, n, r, reply, votes))
    ensures TallyOk(HVoteBack(h, n, r, reply, votes), peers, (r.args.candidate, r.args.term),
                    VoteReplyStep(n, reply, votes).1)
  {
    if Counts(n, reply) {
      CountedOneMore(h, peers, r, reply, votes);
      if Wins(n, reply, votes) {
        NobodyWonYet(h, peers, r, reply, votes);
      }
      var k, h' := (r.args.candidate, r.args.term), HVoteBack(h, n, r, reply, votes);
      forall v | v in h'.counted[k]
        ensures Backs(h', v, k.1, k.0, h'.voted[k].log)
      {
        assert Backs(h, v, k.1, k.0, h.voted[k].log);
      }
    }
  }

  /** Votes counted for one election leave every other election alone. */
  lemma OtherTallyOk(n: Node, h: History, peers: nat, r: VoteReq, reply: VoteReply, votes: int, j: (int, int), x: int)
    requires TallyOk(h, peers, j, x) && j != (r.args.candidate, r.args.term)
    requires Shape(n, peers, r.args.candidate) && VoteReplyOk(h, r, reply)
    requires Grows(h, HVoteBack(h, n, r, reply, votes))
    ensures TallyOk(HVoteBack(h, n, r, reply, votes), peers, j, x)
  {
    TallyGrows(h, HVoteBack(h, n, r, reply, votes), peers, j, x);
  }

  lemma HVoteBackCounted(n: Node, h: History, r: VoteReq, reply: VoteReply, votes: int)
    ensures CountedAtMost(h, HVoteBack(h, n, r, reply, votes), r)
  {
  }

  ghost predicate CountedAtMost(h: History, h': History, r: VoteReq) {
    h'.counted == h.counted || h'.counted == Count(h, r).counted
  }

  /** The vote side after one reply has been handled, whatever the reply was. */
  lemma VotesAfter(c: Cluster, c': Cluster, h: History, h': History, r: VoteReq, votes: int)
    requires VotesOk(c, h) && Grows(h, h') && r in c.voteReqs && CountedAtMost(h, h', r)
    requires |c'.nodes| == |c.nodes| && c'.voteReqs == c.voteReqs && c'.voteReplies == c.voteReplies
    requires c'.voteDone == c.voteDone + {r}
    requires c'.votedNum == c.votedNum[(r.args.candidate, r.args.term) := votes]
    requires forall j :: j in c'.votedNum ==> TallyOk(h', |c.nodes|, j, c'.votedNum[j])
    ensures VotesOk(c', h')
  {
    assert VoteReqOk(h, |c.nodes|, r);
    forall q | q in c'.voteReqs
      ensures VoteReqOk(h', |c.nodes|, q) && (q.args.candidate, q.args.term) in c'.votedNum
      ensures q !in c'.voteDone ==> Uncounted(h', q)
    {
      assert VoteReqOk(h, |c.nodes|, q) && (q !in c.voteDone ==> Uncounted(h, q));
      VoteReqGrows(h, h', |c.nodes|, q);
    }
    forall p | p in c'.voteReplies
      ensures p.0 in c'.voteReqs && VoteReplyOk(h', p.0, p.1)
    {
      assert VoteReplyOk(h, p.0, p.1);
    }
  }

  lemma VoteBackVotesOk(c: Cluster, c': Cluster, h: History, r: VoteReq, reply: VoteReply, votes: int)
    requires Inv(c, h) && CanVoteBack(c, r, reply) && c' == AfterVoteBack(c, r, reply)
    requires votes == c.votedNum[(r.args.candidate, r.args.term)]
    requires Grows(h, HVoteBack(h, c.nodes[r.args.candidate], r, reply, votes))
    ensures VotesOk(c', HVoteBack(h, c.nodes[r.args.candidate], r, reply, votes))
  {
    var k, n := (r.args.candidate, r.args.term), c.nodes[r.args.candidate];
    var h', peers := HVoteBack(h, n, r, reply, votes), |c.nodes|;
    assert NodeOk(n, c.applied[k.0], h, peers, k.0);
    assert VoteReqOk(h, peers, r) && VoteReplyOk(h, r, reply) && TallyOk(h, peers, k, votes) && Uncounted(h, r);
    VoteBackTallyOk(n, h, peers, r, reply, votes);
    forall j | j in c'.votedNum
      ensures TallyOk(h', peers, j, c'.votedNum[j])
    {
      if j != k {
        OtherTallyOk(n, h, peers, r, reply, votes, j, c.votedNum[j]);
      }
    }
    HVoteBackCounted(n, h, r, reply, votes);
    VotesAfter(c, c', h, h', r, c'.votedNum[k]);
  }

  lemma VoteBackOk(c: Cluster, h: History, r: VoteReq, reply: VoteReply)
    requires Inv(c, h) && CanVoteBack(c, r, reply)
    ensures var h' := HVoteBack(h, c.nodes[r.args.candidate], r, reply, c.votedNum[(r.args.candidate, r.args.term)]);
            Inv(AfterVoteBack(c, r, reply), h') && Grows(h, h')
  {
    var k, n := (r.args.candidate, r.args.term), c.nodes[r.args.candidate];
    var votes, peers := c.votedNum[k], |c.nodes|;
    var c', h' := AfterVoteBack(c, r, reply), HVoteBack(h, n, r, reply, votes);
    assert NodeOk(n, c.applied[k.0], h, peers, k.0);
    assert VoteReqOk(h, peers, r) && VoteReplyOk(h, r, reply) && TallyOk(h, peers, k, votes) && Uncounted(h, r);
    VoteBackNodeOk(n, c.applied[k.0], h, peers, r, reply, votes);
    if Wins(n, reply, votes) {
      NobodyWonYet(h, peers, r, reply, votes);
    }
    HVoteBackFrame(n, h, r, reply, votes);
    VoteBackVotesOk(c, c', h, r, reply, votes);
    OneNodeInv(c, c', h, h', k.0, VoteReplyStep(n, reply, votes).0);
  }
}
