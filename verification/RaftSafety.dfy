/** The safety of Raft (sections 5.2 to 5.4 of the extended paper) over whole runs of a cluster of any
    size: the main results.  None of the statements mentions a history; the proofs build one. */
module RaftSafety {
  import opened RaftTypes
  import opened RaftSteps
  import opened Cluster
  import opened History
  import opened HistorySteps
  import opened Invariant
  import opened VoteSteps
  import opened WinSteps
  import opened AppendSteps
  import opened RoundSteps

  lemma StepOk(c: Cluster, h: History, s: Step) returns (h': History)
    requires Inv(c, h) && Enabled(c, s)
    ensures Inv(Do(c, s), h') && Grows(h, h')
  {
    match s {
      case Elect(i) =>
        h' := ElectOk(c, h, i);
      case Vote(r) =>
        VoteOk(c, h, r);
        h' := HVote(h, c.nodes[r.to], r.args);
      case VoteBack(r, reply) =>
        VoteBackOk(c, h, r, reply);
        h' := HVoteBack(h, c.nodes[r.args.candidate], r, reply, c.votedNum[(r.args.candidate, r.args.term)]);
      case Command(i, command) =>
        h' := CommandOk(c, h, i, command);
      case Beat(i, round) =>
        h' := BeatOk(c, h, i, round);
      case Append(r) =>
        AppendOk(c, h, r);
        h' := HAppend(h, c.nodes[r.to], r.args);
      case AppendBack(r, reply) =>
        AppendBackOk(c, h, r, reply);
        h' := HAppendBack(h, c.nodes[r.args.leader], r, reply);
      case Apply(i) =>
        ApplyOk(c, h, i);
        h' := h;
    }
  }

  // ---------------------------------------------------------------- what a state leaves behind

  /** The part of a node's state that later history still vouches for. */
  ghost predicate SeenNode(n: Node, out: seq<ApplyMsg>, h: History, peers: nat, s: int) {
    && Genuine(h, n.logs)
    && 0 <= n.commitIndex <= |n.logs| && Settled(h, peers, n.logs[..n.commitIndex], n.currentTerm)
    && OutputField(n, out) && n.lastApplied <= n.commitIndex
    && (n.status == Leader ==>
          && n.currentTerm in h.elected && h.elected[n.currentTerm].leader == s
          && h.elected[n.currentTerm].log <= n.logs)
  }

  ghost predicate Seen(c: Cluster, h: History, peers: nat) {
    && |c.nodes| == peers && |c.applied| == peers
    && forall s :: 0 <= s < peers ==> SeenNode(c.nodes[s], c.applied[s], h, peers, s)
  }

  lemma SeenNow(c: Cluster, h: History)
    requires Inv(c, h)
    ensures Seen(c, h, |c.nodes|)
  {
    forall s | c.Has(s)
      ensures SeenNode(c.nodes[s], c.applied[s], h, |c.nodes|, s)
    {
      assert NodeOk(c.nodes[s], c.applied[s], h, |c.nodes|, s);
      if c.nodes[s].status == Leader {
        assert ElectedOk(h, |c.nodes|, c.nodes[s].currentTerm);
      }
    }
  }

  lemma SeenGrows(c: Cluster, h: History, h': History, peers: nat)
    requires Seen(c, h, peers) && Grows(h, h')
    ensures Seen(c, h', peers)
  {
    forall s | 0 <= s < peers
      ensures SeenNode(c.nodes[s], c.applied[s], h', peers, s)
    {
      var n := c.nodes[s];
      assert SeenNode(n, c.applied[s], h, peers, s);
      GenuineGrows(h, h', n.logs);
      SettledGrows(h, h', peers, n.logs[..n.commitIndex], n.currentTerm, n.currentTerm);
    }
  }

  /** Beside every run there is a history that vouches for every state of it. */
  lemma {:induction false} RunHistory(run: seq<Cluster>, peers: nat) returns (h: History)
    requires Run(run, peers)
    ensures Inv(run[|run| - 1], h) && |run[|run| - 1].nodes| == peers
    ensures forall k :: 0 <= k < |run| ==> Seen(run[k], h, peers)
    decreases |run|
  {
    if |run| == 1 {
      h := EMPTY_HISTORY;
      InitOk(peers);
      SeenNow(run[0], h);
    } else {
      var before, c := run[..|run| - 1], run[|run| - 2];
      var g := RunHistory(before, peers);
      assert c == before[|before| - 1] && Next(c, run[|run| - 2 + 1]);
      h := NextOk(c, g, run[|run| - 1]);
      SeenBefore(before, g, h, peers);
      forall k | 0 <= k < |run|
        ensures Seen(run[k], h, peers)
      {
        assert k < |before| ==> run[k] == before[k];
      }
    }
  }

  lemma NextOk(c: Cluster, h: History, c': Cluster) returns (h': History)
    requires Inv(c, h) && Next(c, c')
    ensures Inv(c', h') && Grows(h, h') && Seen(c', h', |c.nodes|) && |c'.nodes| == |c.nodes|
  {
    var s :| Enabled(c, s) && c' == Do(c, s);
    h' := StepOk(c, h, s);
    SeenNow(c', h');
  }

  lemma SeenBefore(run: seq<Cluster>, h: History, h': History, peers: nat)
    requires Grows(h, h') && forall k :: 0 <= k < |run| ==> Seen(run[k], h, peers)
    ensures forall k :: 0 <= k < |run| ==> Seen(run[k], h', peers)
  {
    forall k | 0 <= k < |run|
      ensures Seen(run[k], h', peers)
    {
      SeenGrows(run[k], h, h', peers);
    }
  }

  // ---------------------------------------------------------------- the theorems

  /** Election safety (section 5.2): a term has one leader, over the whole run. */
  lemma ElectionSafety(run: seq<Cluster>, peers: nat, i: nat, j: nat, a: nat, b: nat)
    requires Run(run, peers) && i < |run| && j < |run| && run[i].Has(a) && run[j].Has(b)
    requires run[i].nodes[a].status == Leader && run[j].nodes[b].status == Leader
    requires run[i].nodes[a].currentTerm == run[j].nodes[b].currentTerm
    ensures a == b
  {
    var h := RunHistory(run, peers);
    assert Seen(run[i], h, peers) && Seen(run[j], h, peers);
    assert SeenNode(run[i].nodes[a], run[i].applied[a], h, peers, a);
    assert SeenNode(run[j].nodes[b], run[j].applied[b], h, peers, b);
  }

  /** One vote (section 5.2): whatever a server answered to the requests of one term, it granted its vote to one
      candidate. */
  lemma OneVoteInATerm(run: seq<Cluster>, peers: nat, k: nat, p: (VoteReq, VoteReply), q: (VoteReq, VoteReply))
    requires Run(run, peers) && k < |run| && p in run[k].voteReplies && q in run[k].voteReplies
    requires p.1.granted && q.1.granted && p.0.to == q.0.to && p.0.args.term == q.0.args.term
    ensures p.0.args.candidate == q.0.args.candidate
  {
    var h := RunHistory(run[..k + 1], peers);
    assert VotesOk(run[..k + 1][k], h);
    assert VoteReplyOk(h, p.0, p.1) && VoteReplyOk(h, q.0, q.1);
  }

  /** Log matching (section 5.3): one index and term, one history up to there. */
  lemma LogMatchingOverRun(run: seq<Cluster>, peers: nat, i: nat, j: nat, a: nat, b: nat, k: nat)
    requires Run(run, peers) && i < |run| && j < |run| && run[i].Has(a) && run[j].Has(b)
    requires k < |run[i].nodes[a].logs| && k < |run[j].nodes[b].logs|
    requires run[i].nodes[a].logs[k].term == run[j].nodes[b].logs[k].term
    ensures run[i].nodes[a].logs[..k + 1] == run[j].nodes[b].logs[..k + 1]
    ensures run[i].nodes[a].logs[k].index == k + 1
  {
    var h := RunHistory(run, peers);
    assert Seen(run[i], h, peers) && Seen(run[j], h, peers);
    assert SeenNode(run[i].nodes[a], run[i].applied[a], h, peers, a);
    assert SeenNode(run[j].nodes[b], run[j].applied[b], h, peers, b);
    assert Written(h, run[i].nodes[a].logs, k);
    LogMatching(h, run[i].nodes[a].logs, run[j].nodes[b].logs, k);
  }

  /** Leader completeness (section 5.4): what any server has committed by term T is in the log of every
      leader of a later term, at every moment that leader leads. */
  lemma LeaderCompletenessOverRun(run: seq<Cluster>, peers: nat, i: nat, j: nat, a: nat, b: nat)
    requires Run(run, peers) && i < |run| && j < |run| && run[i].Has(a) && run[j].Has(b)
    requires run[j].nodes[b].status == Leader
    requires run[i].nodes[a].currentTerm < run[j].nodes[b].currentTerm
    ensures 0 <= run[i].nodes[a].commitIndex <= |run[i].nodes[a].logs|
    ensures run[i].nodes[a].logs[..run[i].nodes[a].commitIndex] <= run[j].nodes[b].logs
  {
    var h := RunHistory(run, peers);
    var n, m := run[i].nodes[a], run[j].nodes[b];
    assert Seen(run[i], h, peers) && Seen(run[j], h, peers);
    assert SeenNode(n, run[i].applied[a], h, peers, a);
    assert SeenNode(m, run[j].applied[b], h, peers, b);
    SettledInLeader(h, peers, n.logs[..n.commitIndex], n.currentTerm, m.currentTerm);
  }

  /** Two committed prefixes, of any servers at any times, are prefixes of one another. */
  lemma CommittedAgree(run: seq<Cluster>, peers: nat, i: nat, j: nat, a: nat, b: nat)
    requires Run(run, peers) && i < |run| && j < |run| && run[i].Has(a) && run[j].Has(b)
    ensures var n, m := run[i].nodes[a], run[j].nodes[b];
            && 0 <= n.commitIndex <= |n.logs| && 0 <= m.commitIndex <= |m.logs|
            && (n.commitIndex <= m.commitIndex ==> n.logs[..n.commitIndex] <= m.logs[..m.commitIndex])
  {
    var h := RunHistory(run, peers);
    var n, m := run[i].nodes[a], run[j].nodes[b];
    assert Seen(run[i], h, peers) && Seen(run[j], h, peers);
    assert SeenNode(n, run[i].applied[a], h, peers, a);
    assert SeenNode(m, run[j].applied[b], h, peers, b);
    SettledAgree(h, peers, n.logs[..n.commitIndex], m.logs[..m.commitIndex], n.currentTerm, m.currentTerm);
  }

  /** State machine safety (section 5.4.3): what two servers have handed to their key-value servers is the
      same command by command, as far as both have got. */
  lemma StateMachineSafety(run: seq<Cluster>, peers: nat, i: nat, j: nat, a: nat, b: nat, k: nat)
    requires Run(run, peers) && i < |run| && j < |run| && run[i].Has(a) && run[j].Has(b)
    ensures |run[i].applied| == |run[i].nodes| == |run[j].applied| == |run[j].nodes| == peers
    ensures k < |run[i].applied[a]| && k < |run[j].applied[b]| ==>
              && run[i].applied[a][k] == run[j].applied[b][k]
              && run[i].applied[a][k].CommandMsg? && run[i].applied[a][k].index == k + 1
  {
    var h := RunHistory(run, peers);
    var n, m := run[i].nodes[a], run[j].nodes[b];
    assert Seen(run[i], h, peers) && Seen(run[j], h, peers);
    assert SeenNode(n, run[i].applied[a], h, peers, a);
    assert SeenNode(m, run[j].applied[b], h, peers, b);
    CommittedAgree(run, peers, i, j, a, b);
    CommittedAgree(run, peers, j, i, b, a);
    if k < |run[i].applied[a]| && k < |run[j].applied[b]| {
      assert n.logs[..n.commitIndex][k] == m.logs[..m.commitIndex][k];
    }
  }

  // ---------------------------------------------------------------- nothing is taken back

  ghost predicate Forward(n: Node, n': Node) {
    n.currentTerm <= n'.currentTerm && n.commitIndex <= n'.commitIndex && n.lastApplied <= n'.lastApplied
  }

  lemma HandlersForward(n: Node)
    requires Indexed(n)
    ensures forall a :: Forward(n, RequestVoteStep(n, a).0)
    ensures forall reply, votes :: Forward(n, VoteReplyStep(n, reply, votes).0)
    ensures forall a :: AppendAsserts(n, a) ==> Forward(n, AppendEntriesStep(n, a).0)
    ensures forall p, a, reply, acks :: 0 <= p < |n.nextIndex| == |n.matchIndex| ==>
              Forward(n, AppendReplyStep(n, p, a, reply, acks).0)
    ensures Forward(n, ElectionStep(n)) && Forward(n, ApplyStep(n))
  {
  }

  lemma StepForward(c: Cluster, s: Step, i: nat)
    requires Enabled(c, s) && c.Has(i) && |c.applied| == |c.nodes|
    requires forall k :: c.Has(k) ==> Indexed(c.nodes[k])
    ensures |Do(c, s).nodes| == |c.nodes| && |Do(c, s).applied| == |c.applied|
    ensures Forward(c.nodes[i], Do(c, s).nodes[i]) && c.applied[i] <= Do(c, s).applied[i]
  {
    HandlersForward(c.nodes[i]);
  }

  lemma StateShape(run: seq<Cluster>, peers: nat, k: nat)
    requires Run(run, peers) && k < |run|
    ensures |run[k].nodes| == |run[k].applied| == peers
    ensures forall s :: run[k].Has(s) ==> Indexed(run[k].nodes[s])
  {
    var h := RunHistory(run[..k + 1], peers);
    forall s | run[k].Has(s)
      ensures Indexed(run[k].nodes[s])
    {
      assert NodeOk(run[k].nodes[s], run[k].applied[s], h, peers, s);
      LastIsLength(run[k].nodes[s], h);
    }
  }

  lemma {:induction false} RunForward(run: seq<Cluster>, peers: nat, i: nat, j: nat, a: nat)
    requires Run(run, peers) && i <= j < |run| && a < peers
    ensures |run[i].nodes| == |run[i].applied| == |run[j].nodes| == |run[j].applied| == peers
    ensures Forward(run[i].nodes[a], run[j].nodes[a]) && run[i].applied[a] <= run[j].applied[a]
    decreases j - i
  {
    StateShape(run, peers, j);
    if i < j {
      RunForward(run, peers, i, j - 1, a);
      StateShape(run, peers, j - 1);
      assert Next(run[j - 1], run[j - 1 + 1]);
      var s :| Enabled(run[j - 1], s) && run[j] == Do(run[j - 1], s);
      StepForward(run[j - 1], s, a);
    }
  }

  /** No committed entry is ever replaced: a server's committed prefix only grows. */
  lemma CommittedNeverReplaced(run: seq<Cluster>, peers: nat, i: nat, j: nat, a: nat)
    requires Run(run, peers) && i <= j < |run| && run[i].Has(a)
    ensures run[j].Has(a)
    ensures var n, m := run[i].nodes[a], run[j].nodes[a];
            && 0 <= n.commitIndex <= m.commitIndex && n.commitIndex <= |n.logs| && m.commitIndex <= |m.logs|
            && n.logs[..n.commitIndex] <= m.logs[..m.commitIndex]
  {
    StateShape(run, peers, i);
    RunForward(run, peers, i, j, a);
    CommittedAgree(run, peers, i, j, a, a);
  }

  // ---------------------------------------------------------------- no assertion ever fails

  /** In every reachable state the arrival of a message is all a handler needs: none of the assertions of
      raft.cpp that guard the steps can fail. */
  lemma NoAssertionFails(run: seq<Cluster>, peers: nat, c: Cluster)
    requires Run(run, peers) && c == run[|run| - 1]
    ensures forall r :: r in c.voteReqs ==> CanVote(c, r)
    ensures forall r, reply :: (r, reply) in c.voteReplies && r !in c.voteDone ==> CanVoteBack(c, r, reply)
    ensures forall i :: c.Has(i) ==> CanElect(c, i) && CanCommand(c, i)
    ensures forall i, round :: c.Has(i) && round !in c.appendNums ==> CanBeat(c, i, round)
    ensures forall r :: r in c.appendReqs ==> CanAppend(c, r) && Contiguous(r.args)
    ensures forall r, reply :: (r, reply) in c.appendReplies && r !in c.appendDone ==> CanAppendBack(c, r, reply)
    ensures forall i :: c.Has(i) ==> CanApply(c, i)
  {
    var h := RunHistory(run, peers);
    forall r | r in c.voteReqs
      ensures CanVote(c, r)
    {
      assert VoteReqOk(h, peers, r);
    }
    forall r, reply | (r, reply) in c.voteReplies && r !in c.voteDone
      ensures CanVoteBack(c, r, reply)
    {
      VoteBackPossible(c, h, r, reply);
    }
    forall i, round | c.Has(i) && round !in c.appendNums
      ensures CanBeat(c, i, round)
    {
      if Leads(c, i) {
        BeatPossible(c, h, i);
      }
    }
    forall r | r in c.appendReqs
      ensures CanAppend(c, r) && Contiguous(r.args)
    {
      assert AppendReqOk(h, peers, r);
      assert NodeOk(c.nodes[r.to], c.applied[r.to], h, peers, r.to);
      AppendAssertsHold(c.nodes[r.to], c.applied[r.to], h, peers, r);
    }
    forall r, reply | (r, reply) in c.appendReplies && r !in c.appendDone
      ensures CanAppendBack(c, r, reply)
    {
      AppendBackPossible(c, h, r, reply);
    }
    forall i | c.Has(i)
      ensures CanApply(c, i)
    {
      assert NodeOk(c.nodes[i], c.applied[i], h, peers, i);
      ApplyNodeOk(c.nodes[i], c.applied[i], h, peers, i);
    }
  }

  lemma VoteBackPossible(c: Cluster, h: History, r: VoteReq, reply: VoteReply)
    requires Inv(c, h) && (r, reply) in c.voteReplies && r !in c.voteDone
    ensures CanVoteBack(c, r, reply)
  {
    var k, peers := (r.args.candidate, r.args.term), |c.nodes|;
    assert (r, reply).0 in c.voteReqs && VoteReplyOk(h, r, reply);
    assert VoteReqOk(h, peers, r) && TallyOk(h, peers, k, c.votedNum[k]) && Uncounted(h, r);
    assert NodeOk(c.nodes[k.0], c.applied[k.0], h, peers, k.0);
    if reply.granted && c.votedNum[k] + 1 >= Majority(peers) {
      NobodyWonYet(h, peers, r, reply, c.votedNum[k]);
    }
  }

  lemma BeatPossible(c: Cluster, h: History, i: int)
    requires Inv(c, h) && Leads(c, i)
    ensures forall to :: 0 <= to < |c.nodes| && to != i ==> HeartBeatAsserts(c.nodes[i], to)
  {
    assert NodeOk(c.nodes[i], c.applied[i], h, |c.nodes|, i);
    LastIsLength(c.nodes[i], h);
  }

  lemma AppendBackPossible(c: Cluster, h: History, r: AppendReq, reply: AppendReply)
    requires Inv(c, h) && (r, reply) in c.appendReplies && r !in c.appendDone
    ensures CanAppendBack(c, r, reply)
    ensures AckKnown(c.nodes[r.args.leader], h, |c.nodes|, r, reply, c.appendNums[r.round])
  {
    var s, peers := r.args.leader, |c.nodes|;
    assert (r, reply).0 in c.appendReqs && AppendReplyOk(h, r, reply);
    assert AppendReqOk(h, peers, r) && RoundOk(h, peers, r.round, c.appendNums[r.round]) && Unacked(h, r);
    assert NodeOk(c.nodes[s], c.applied[s], h, peers, s);
    AppendBackNodeOk(c.nodes[s], c.applied[s], h, peers, r, reply, c.appendNums[r.round]);
  }

  // ---------------------------------------------------------------- the round counter

  /** The round counter refines the quorum rule: when `sendAppendEntries` raises the commit index, a strict
      majority of distinct servers, the leader among them, holds the leader's log through that index at
      that moment, the entry there is of the current term, and the match indices agree. */
  lemma RoundCounterRefinesQuorum(run: seq<Cluster>, peers: nat, c: Cluster, r: AppendReq, reply: AppendReply)
      returns (q: set<int>)
    requires Run(run, peers) && c == run[|run| - 1] && CanAppendBack(c, r, reply)
    requires AfterAppendBack(c, r, reply).nodes[r.args.leader].commitIndex > c.nodes[r.args.leader].commitIndex
    ensures Quorum(q, peers) && r.args.leader in q && |c.nodes| == peers
    ensures var n' := AfterAppendBack(c, r, reply).nodes[r.args.leader];
            && 1 <= n'.commitIndex <= |n'.logs|
            && n'.logs[n'.commitIndex - 1].term == n'.currentTerm
            && (forall s :: s in q ==> n'.logs[..n'.commitIndex] <= c.nodes[s].logs)
            && MatchRule(n', n'.commitIndex)
  {
    var h := RunHistory(run, peers);
    q := RoundQuorum(c, h, r, reply);
  }

  lemma RoundQuorum(c: Cluster, h: History, r: AppendReq, reply: AppendReply) returns (q: set<int>)
    requires Inv(c, h) && CanAppendBack(c, r, reply)
    requires AfterAppendBack(c, r, reply).nodes[r.args.leader].commitIndex > c.nodes[r.args.leader].commitIndex
    ensures Quorum(q, |c.nodes|) && r.args.leader in q
    ensures var n' := AfterAppendBack(c, r, reply).nodes[r.args.leader];
            && 1 <= n'.commitIndex <= |n'.logs|
            && n'.logs[n'.commitIndex - 1].term == n'.currentTerm
            && (forall s :: s in q ==> n'.logs[..n'.commitIndex] <= c.nodes[s].logs)
            && MatchRule(n', n'.commitIndex)
  {
    AppendBackPossible(c, h, r, reply);
    assert RoundMatched(c.nodes[r.args.leader], h, r.round);
    q := QuorumOfRound(c, h, r, reply);
  }

  lemma QuorumOfRound(c: Cluster, h: History, r: AppendReq, reply: AppendReply) returns (q: set<int>)
    requires Consistent(h, |c.nodes|) && NodesOk(c, h) && CanAppendBack(c, r, reply)
    requires AckKnown(c.nodes[r.args.leader], h, |c.nodes|, r, reply, c.appendNums[r.round])
    requires RoundMatched(c.nodes[r.args.leader], h, r.round)
    requires AfterAppendBack(c, r, reply).nodes[r.args.leader].commitIndex > c.nodes[r.args.leader].commitIndex
    ensures Quorum(q, |c.nodes|) && r.args.leader in q
    ensures var n' := AfterAppendBack(c, r, reply).nodes[r.args.leader];
            && 1 <= n'.commitIndex <= |n'.logs|
            && n'.logs[n'.commitIndex - 1].term == n'.currentTerm
            && (forall s :: s in q ==> n'.logs[..n'.commitIndex] <= c.nodes[s].logs)
            && MatchRule(n', n'.commitIndex)
  {
    var s, peers := r.args.leader, |c.nodes|;
    var n, acks := c.nodes[s], c.appendNums[r.round];
    assert NodeOk(n, c.applied[s], h, peers, s);
    RoundRaises(n, h, peers, r, reply, acks);
    q := HAppendBack(h, n, r, reply).ackers[r.round];
    HoldersStillHold(c, h, q, n.currentTerm, UpTo(r.args));
  }

  lemma HoldersStillHold(c: Cluster, h: History, q: set<int>, t: int, L: int)
    requires Consistent(h, |c.nodes|) && NodesOk(c, h) && Chosen(h, |c.nodes|, t, L)
    requires Servers(q, |c.nodes|) && AckedBy(h, t, L, q)
    ensures forall v :: v in q ==> h.tlog[t][..L] <= c.nodes[v].logs
  {
    forall v | v in q
      ensures h.tlog[t][..L] <= c.nodes[v].logs
    {
      assert NodeOk(c.nodes[v], c.applied[v], h, |c.nodes|, v);
      HolderStillHolds(c.nodes[v], h, |c.nodes|, v, t, L);
    }
  }

  /** Only a full round raises the commit index, exactly to the round's last index. */
  lemma RaisedByRound(n: Node, h: History, peers: nat, r: AppendReq, reply: AppendReply, acks: int)
    requires LeaderField(n, h, r.args.leader) && |n.nextIndex| == |n.matchIndex| == peers
    requires AckKnown(n, h, peers, r, reply, acks)
    requires AppendReplyStep(n, r.to, r.args, reply, acks).0.commitIndex > n.commitIndex
    ensures Commits(n, r.args, reply, acks)
    ensures var n' := AppendReplyStep(n, r.to, r.args, reply, acks).0;
            && n'.commitIndex == UpTo(r.args) && n'.logs == n.logs && n'.currentTerm == n.currentTerm
    ensures r.args.term == n.currentTerm && n.logs == h.tlog[n.currentTerm]
    ensures Chosen(h, peers, n.currentTerm, UpTo(r.args))
    ensures var q := HAppendBack(h, n, r, reply).ackers[r.round];
            Quorum(q, peers) && r.args.leader in q && AckedBy(h, n.currentTerm, UpTo(r.args), q)
  {
    RoundChooses(n, h, peers, r, reply, acks);
    CountedAck(n, h, peers, r, reply, acks);
  }

  /** The same with the match indices. */
  lemma RoundRaises(n: Node, h: History, peers: nat, r: AppendReq, reply: AppendReply, acks: int)
    requires Shape(n, peers, r.args.leader) && LeaderField(n, h, r.args.leader) && LogField(n, h)
    requires AckKnown(n, h, peers, r, reply, acks) && RoundMatched(n, h, r.round)
    requires AppendReplyStep(n, r.to, r.args, reply, acks).0.commitIndex > n.commitIndex
    ensures var n' := AppendReplyStep(n, r.to, r.args, reply, acks).0;
            && n'.commitIndex == UpTo(r.args) && n'.logs == n.logs == h.tlog[n.currentTerm]
            && 1 <= n'.commitIndex <= |n'.logs| && n'.logs[n'.commitIndex - 1].term == n'.currentTerm
            && MatchRule(n', n'.commitIndex)
    ensures Chosen(h, peers, n.currentTerm, UpTo(r.args))
    ensures var q := HAppendBack(h, n, r, reply).ackers[r.round];
            Quorum(q, peers) && r.args.leader in q && AckedBy(h, n.currentTerm, UpTo(r.args), q)
  {
    RaisedByRound(n, h, peers, r, reply, acks);
    RoundMatchRule(n, h, peers, r, reply, acks);
  }

  lemma RoundMatchRule(n: Node, h: History, peers: nat, r: AppendReq, reply: AppendReply, acks: int)
    requires Shape(n, peers, r.args.leader) && LeaderField(n, h, r.args.leader) && LogField(n, h)
    requires AckKnown(n, h, peers, r, reply, acks) && RoundMatched(n, h, r.round)
    requires Commits(n, r.args, reply, acks)
    ensures MatchRule(AppendReplyStep(n, r.to, r.args, reply, acks).0, UpTo(r.args))
  {
    var h', n' := HAppendBack(h, n, r, reply), AppendReplyStep(n, r.to, r.args, reply, acks).0;
    var q := h'.ackers[r.round];
    RoundChooses(n, h, peers, r, reply, acks);
    CountedAck(n, h, peers, r, reply, acks);
    AppendBackMatched(n, h, peers, r, reply, acks, r.round);
    MatchedByQuorum(n', UpTo(r.args), q, peers);
    LastIsLength(n, h);
  }

  lemma MatchedByQuorum(n: Node, index: int, q: set<int>, peers: nat)
    requires |n.matchIndex| == peers && Quorum(q, peers)
    requires forall v :: v in q && v != n.me ==> n.matchIndex[v] >= index
    ensures Matched(n.matchIndex, n.me, index, peers) >= Majority(peers)
  {
    MatchedAtLeast(n, index, q, peers);
    SizeBelowIsSize(q, peers);
  }

  /** A server that acknowledged something chosen still has it. */
  lemma HolderStillHolds(m: Node, h: History, peers: nat, v: int, t: int, L: int)
    requires Consistent(h, peers) && AckField(m, h, v) && Chosen(h, peers, t, L)
    requires (v, t) in h.acked && h.acked[(v, t)] >= L
    ensures h.tlog[t][..L] <= m.logs
  {
    assert KeepsAll(h, t, h.acked[(v, t)], m.logs, m.currentTerm + 1);
    assert Keeps(h, t, L, m.logs, m.currentTerm + 1);
    if Lost(h, t, L, m.currentTerm + 1) {
      var u :| t < u < m.currentTerm + 1 && u in h.elected && !(h.tlog[t][..L] <= h.elected[u].log);
      LeaderCompleteness(h, peers, t, L, u);
      assert false;
    }
  }

  lemma {:induction false} MatchedAtLeast(n: Node, index: int, q: set<int>, k: nat)
    requires k <= |n.matchIndex|
    requires forall v :: v in q && 0 <= v < k && v != n.me ==> n.matchIndex[v] >= index
    ensures Matched(n.matchIndex, n.me, index, k) >= SizeBelow(q, k)
    decreases k
  {
    if k > 0 {
      MatchedAtLeast(n, index, q, k - 1);
    }
  }

  function SizeBelow(q: set<int>, k: nat): nat {
    if k == 0 then 0 else SizeBelow(q, k - 1) + if k - 1 in q then 1 else 0
  }

  lemma {:induction false} SizeBelowIsSize(q: set<int>, peers: nat)
    requires Servers(q, peers)
    ensures SizeBelow(q, peers) == |q|
    decreases peers
  {
    if peers == 0 {
      ServersBound(q, peers);
    } else {
      SizeBelowIsSize(q - {peers - 1}, peers - 1);
      SameBelow(q - {peers - 1}, q, peers - 1);
    }
  }

  lemma {:induction false} SameBelow(p: set<int>, q: set<int>, k: nat)
    requires forall v :: 0 <= v < k ==> (v in p <==> v in q)
    ensures SizeBelow(p, k) == SizeBelow(q, k)
    decreases k
  {
    if k > 0 {
      SameBelow(p, q, k - 1);
    }
  }
}
