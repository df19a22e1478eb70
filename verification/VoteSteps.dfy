/** Elections keep the invariant: starting one, answering a request, counting an answer. */
module VoteSteps {
  import opened RaftTypes
  import opened RaftSteps
  import opened Cluster
  import opened History
  import opened HistorySteps
  import opened Invariant

  /** Counters and rounds are no part of what makes a history consistent. */
  lemma SameFacts(h: History, h': History, peers: nat)
    requires Consistent(h, peers)
    requires h'.voted == h.voted && h'.elected == h.elected && h'.tlog == h.tlog && h'.acked == h.acked
    requires forall r :: r in h.rounds ==> r in h'.rounds && h'.rounds[r] == h.rounds[r]
    ensures Consistent(h', peers) && Grows(h, h')
  {
    forall t {:trigger ElectedOk(h', peers, t)} | t in h'.elected
      ensures ElectedOk(h', peers, t)
    {
      ElectedStill(h, h', peers, t);
    }
    forall k {:trigger VotedOk(h', k)} {:trigger Honest(h', k)} | k in h'.voted
      ensures VotedOk(h', k) && Honest(h', k)
    {
      assert VotedOk(h, k) && Honest(h, k);
      VotedAfterAck(h, h', k, k);
    }
  }

  lemma WidenBound(h: History, t: int, acked: int, log: Log, bound: int, bound': int)
    requires KeepsAll(h, t, acked, log, bound) && bound <= bound'
    ensures KeepsAll(h, t, acked, log, bound')
  {
    forall L | 0 <= L <= acked
      ensures Keeps(h, t, L, log, bound')
    {
      assert Keeps(h, t, L, log, bound);
    }
  }

  lemma NodesKept(c: Cluster, c': Cluster, h: History, h': History, i: int)
    requires NodesOk(c, h) && Grows(h, h') && c.Has(i)
    requires |c'.nodes| == |c.nodes| && |c'.applied| == |c.applied|
    requires forall s :: c.Has(s) && s != i ==> c'.nodes[s] == c.nodes[s] && c'.applied[s] == c.applied[s]
    requires forall s :: c.Has(s) && s != i ==> Foreign(h, h', s)
    requires NodeOk(c'.nodes[i], c'.applied[i], h', |c.nodes|, i)
    ensures NodesOk(c', h')
  {
    forall s | c'.Has(s)
      ensures NodeOk(c'.nodes[s], c'.applied[s], h', |c.nodes|, s)
    {
      if s != i {
        NodeGrows(c.nodes[s], c.applied[s], h, h', |c.nodes|, s);
      }
    }
  }

  /** A node that adopts a later term, forgetting its vote there. */
  lemma StepDownOk(n: Node, out: seq<ApplyMsg>, h: History, peers: nat, s: int, term: int)
    requires NodeOk(n, out, h, peers, s) && term > n.currentTerm
    requires Consistent(h, peers)
    ensures NodeOk(StepDown(n, term), out, h, peers, s)
  {
    var m := StepDown(n, term);
    SettledGrows(h, h, peers, n.logs[..n.commitIndex], n.currentTerm, term);
    assert LeaderField(m, h, s) by {
      if term in h.elected && h.elected[term].leader == s {
        NotElectedAhead(n, h, peers, s, term);
      }
    }
    assert AckField(m, h, s) by {
      forall t | (s, t) in h.acked
        ensures t <= m.currentTerm && KeepsAll(h, t, h.acked[(s, t)], m.logs, m.currentTerm + 1)
      {
        WidenBound(h, t, h.acked[(s, t)], n.logs, n.currentTerm + 1, term + 1);
      }
    }
  }

  /** Nobody leads a term beyond its own: a leader voted for itself. */
  lemma NotElectedAhead(n: Node, h: History, peers: nat, s: int, term: int)
    requires Consistent(h, peers) && VoteField(n, h, peers, s) && term > n.currentTerm
    requires (s, term) !in h.voted
    ensures term in h.elected ==> h.elected[term].leader != s
  {
    if term in h.elected {
      var w := h.elected[term];
      assert ElectedOk(h, peers, term);
      assert Backs(h, w.leader, term, w.leader, w.log);
    }
  }

  // ---------------------------------------------------------------- starting an election

  ghost function HElect(h: History, n: Node): History {
    var k := (n.me, n.currentTerm + 1);
    RecordVote(h, k, VoteRec(n.me, n.logs)).(counted := h.counted[k := {n.me}])
  }

  lemma HElectOk(h: History, n: Node, out: seq<ApplyMsg>, peers: nat, s: int)
    requires Consistent(h, peers) && NodeOk(n, out, h, peers, s)
    ensures Consistent(HElect(h, n), peers) && Grows(h, HElect(h, n))
    ensures (s, n.currentTerm + 1) !in h.voted
  {
    var k := (n.me, n.currentTerm + 1);
    forall t | t < k.1 && (k.0, t) in h.acked
      ensures KeepsAll(h, t, h.acked[(k.0, t)], n.logs, k.1 + 1)
    {
      WidenBound(h, t, h.acked[(k.0, t)], n.logs, n.currentTerm + 1, k.1 + 1);
    }
    var r := VoteRec(n.me, n.logs);
    RecordVoteOk(h, peers, k, r);
    SameFacts(RecordVote(h, k, r), HElect(h, n), peers);
  }

  lemma ElectNodeOk(n: Node, out: seq<ApplyMsg>, h: History, peers: nat, s: int)
    requires Consistent(h, peers) && NodeOk(n, out, h, peers, s) && 0 <= s < peers
    requires n.status != Leader
    ensures NodeOk(ElectionStep(n), out, HElect(h, n), peers, s)
  {
    var h', m, term := HElect(h, n), ElectionStep(n), n.currentTerm + 1;
    HElectOk(h, n, out, peers, s);
    StepDownOk(n, out, h, peers, s, term);
    var d := StepDown(n, term);
    NotElectedAhead(n, h, peers, s, term);
    GenuineGrows(h, h', n.logs);
    SettledGrows(h, h', peers, n.logs[..n.commitIndex], term, term);
    AcksGrow(d, h, h', s);
    assert AckField(m, h', s);
    assert VoteField(m, h', peers, s);
  }

  /** Starting an election; a node that leads does nothing. */
  lemma ElectOk(c: Cluster, h: History, i: int) returns (h': History)
    requires Inv(c, h) && CanElect(c, i)
    ensures Inv(AfterElect(c, i), h') && Grows(h, h')
  {
    if Leads(c, i) {
      h' := h;
      assert c.nodes[i := c.nodes[i]] == c.nodes;
    } else {
      CampaignOk(c, h, i);
      h' := HElect(h, c.nodes[i]);
    }
  }

  lemma CampaignOk(c: Cluster, h: History, i: int)
    requires Inv(c, h) && CanElect(c, i) && !Leads(c, i)
    ensures Inv(AfterElect(c, i), HElect(h, c.nodes[i])) && Grows(h, HElect(h, c.nodes[i]))
  {
    var n, c', h' := c.nodes[i], AfterElect(c, i), HElect(h, c.nodes[i]);
    var peers := |c.nodes|;
    assert NodeOk(n, c.applied[i], h, peers, i);
    HElectOk(h, n, c.applied[i], peers, i);
    ElectNodeOk(n, c.applied[i], h, peers, i);
    ElectVotesOk(c, h, i);
    HElectFrame(n, h);
    OneNodeInv(c, c', h, h', i, ElectionStep(n));
  }

  lemma HElectFrame(n: Node, h: History)
    requires n.status != Leader
    ensures HElect(h, n).rounds == h.rounds && HElect(h, n).ackers == h.ackers
    ensures forall s :: s != n.me ==> Foreign(h, HElect(h, n), s)
    ensures LeadsNoMore(n, ElectionStep(n), h, n.me)
  {
  }

  /** A step that changes one node and the vote side only. */
  lemma OneNodeInv(c: Cluster, c': Cluster, h: History, h': History, i: int, n': Node)
    requires Inv(c, h) && Grows(h, h') && Consistent(h', |c.nodes|) && c.Has(i)
    requires c'.nodes == c.nodes[i := n'] && c'.applied == c.applied
    requires c'.appendReqs == c.appendReqs && c'.appendReplies == c.appendReplies
    requires c'.appendDone == c.appendDone && c'.appendNums == c.appendNums
    requires h'.rounds == h.rounds && h'.ackers == h.ackers
    requires NodeOk(n', c.applied[i], h', |c.nodes|, i) && LeadsNoMore(c.nodes[i], n', h, i)
    requires forall s :: s != i ==> Foreign(h, h', s)
    requires VotesOk(c', h')
    ensures Inv(c', h')
  {
    NodesKept(c, c', h, h', i);
    AppendsKept(c, c', h, h');
  }

  lemma ElectVotesOk(c: Cluster, h: History, i: int)
    requires Inv(c, h) && CanElect(c, i) && !Leads(c, i)
    requires Grows(h, HElect(h, c.nodes[i])) && (i, c.nodes[i].currentTerm + 1) !in h.voted
    ensures VotesOk(AfterElect(c, i), HElect(h, c.nodes[i]))
  {
    var c', h' := AfterElect(c, i), HElect(h, c.nodes[i]);
    assert NodeOk(c.nodes[i], c.applied[i], h, |c.nodes|, i);
    forall r | r in c'.voteReqs
      ensures VoteReqOk(h', |c.nodes|, r) && (r.args.candidate, r.args.term) in c'.votedNum
      ensures r !in c'.voteDone ==> Uncounted(h', r)
    {
      if r in c.voteReqs {
        assert VoteReqOk(h, |c.nodes|, r) && (r !in c.voteDone ==> Uncounted(h, r));
        VoteReqGrows(h, h', |c.nodes|, r);
      } else {
        ElectReqOk(c.nodes[i], h, |c.nodes|, r.to);
      }
    }
    forall p | p in c'.voteReplies
      ensures VoteReplyOk(h', p.0, p.1)
    {
      assert VoteReplyOk(h, p.0, p.1);
    }
    forall j | j in c'.votedNum
      ensures TallyOk(h', |c.nodes|, j, c'.votedNum[j])
    {
      ElectTallyOk(c, h, i, j);
    }
  }

  lemma ElectReqOk(n: Node, h: History, peers: nat, to: int)
    requires Shape(n, peers, n.me) && Genuine(h, n.logs) && n.status != Leader
    requires 0 <= n.me < peers && 0 <= to < peers && to != n.me
    requires (n.me, n.currentTerm + 1) !in h.voted
    ensures var r, h' := VoteReq(to, VoteArgsOf(ElectionStep(n))), HElect(h, n);
            && VoteReqOk(h', peers, r) && Uncounted(h', r)
            && r.args.candidate == n.me && r.args.term == n.currentTerm + 1
  {
    LastIsLength(n, h);
  }

  lemma ElectTallyOk(c: Cluster, h: History, i: int, j: (int, int))
    requires Inv(c, h) && CanElect(c, i) && !Leads(c, i) && j in AfterElect(c, i).votedNum
    requires Grows(h, HElect(h, c.nodes[i])) && (i, c.nodes[i].currentTerm + 1) !in h.voted
    ensures TallyOk(HElect(h, c.nodes[i]), |c.nodes|, j, AfterElect(c, i).votedNum[j])
  {
    var n, h', peers := c.nodes[i], HElect(h, c.nodes[i]), |c.nodes|;
    assert NodeOk(n, c.applied[i], h, peers, i);
    if j == (i, n.currentTerm + 1) {
      NotElectedAhead(n, h, peers, i, j.1);
      assert h'.counted[j] == {i};
    } else {
      assert TallyOk(h, peers, j, c.votedNum[j]);
      TallyGrows(h, h', peers, j, c.votedNum[j]);
    }
  }

  /** With no snapshot, the last index of a genuine log is its length. */
  lemma LastIsLength(n: Node, h: History)
    requires Genuine(h, n.logs) && n.snapIndex == 0 && n.snapTerm == 0
    ensures Indexed(n) && LastLogIndex(n) == |n.logs| && LastLogTerm(n) == LogTerm(n.logs)
  {
    forall k | 0 <= k < |n.logs|
      ensures n.logs[k].index == k + 1
    {
      assert Written(h, n.logs, k);
    }
  }

  // ---------------------------------------------------------------- answering a candidate

  ghost function HVote(h: History, n: Node, a: VoteArgs): History {
    if RequestVoteStep(n, a).1.granted then RecordVote(h, (n.me, a.term), VoteRec(a.candidate, n.logs)) else h
  }

  /** The node as `RequestVote` compares it: already in the term of the request. */
  function InTerm(n: Node, term: int): Node {
    if term > n.currentTerm then StepDown(n, term) else n
  }

  lemma HVoteOk(n: Node, out: seq<ApplyMsg>, h: History, peers: nat, r: VoteReq)
    requires Consistent(h, peers) && NodeOk(n, out, h, peers, r.to) && VoteReqOk(h, peers, r)
    ensures Consistent(HVote(h, n, r.args), peers) && Grows(h, HVote(h, n, r.args))
    ensures NodeOk(RequestVoteStep(n, r.args).0, out, HVote(h, n, r.args), peers, r.to)
    ensures VoteReplyOk(HVote(h, n, r.args), r, RequestVoteStep(n, r.args).1)
  {
    var a := r.args;
    VoteStepCases(n, a);
    if a.term >= n.currentTerm {
      InTermOk(n, out, h, peers, r.to, a.term);
      if RequestVoteStep(n, a).1.granted {
        GrantOk(InTerm(n, a.term), out, h, peers, r);
      }
    }
  }

  lemma InTermOk(n: Node, out: seq<ApplyMsg>, h: History, peers: nat, s: int, term: int)
    requires Consistent(h, peers) && NodeOk(n, out, h, peers, s) && term >= n.currentTerm
    ensures NodeOk(InTerm(n, term), out, h, peers, s)
  {
    if term > n.currentTerm {
      StepDownOk(n, out, h, peers, s, term);
    }
  }

  lemma VoteStepCases(n: Node, a: VoteArgs)
    ensures var (n', reply) := RequestVoteStep(n, a);
            var m := InTerm(n, a.term);
            if reply.granted then
              && n.currentTerm <= a.term == reply.term && n' == m.(votedFor := a.candidate)
              && UpToDate(m, a.lastLogIndex, a.lastLogTerm)
              && (m.votedFor == NO_VOTE || m.votedFor == a.candidate)
            else n' == if a.term >= n.currentTerm then m else n
  {
  }

  lemma GrantOk(m: Node, out: seq<ApplyMsg>, h: History, peers: nat, r: VoteReq)
    requires Consistent(h, peers) && NodeOk(m, out, h, peers, r.to) && VoteReqOk(h, peers, r)
    requires m.currentTerm == r.args.term && (m.votedFor == NO_VOTE || m.votedFor == r.args.candidate)
    requires UpToDate(m, r.args.lastLogIndex, r.args.lastLogTerm)
    ensures var h' := RecordVote(h, (r.to, r.args.term), VoteRec(r.args.candidate, m.logs));
            && Consistent(h', peers) && Grows(h, h')
            && NodeOk(m.(votedFor := r.args.candidate), out, h', peers, r.to)
            && Backs(h', r.to, r.args.term, r.args.candidate, h.voted[(r.args.candidate, r.args.term)].log)
  {
    var k, rec := (r.to, r.args.term), VoteRec(r.args.candidate, m.logs);
    var h', m' := RecordVote(h, k, rec), m.(votedFor := r.args.candidate);
    LastIsLength(m, h);
    RecordVoteOk(h, peers, k, rec);
    assert Honest(h', k);
    GrantNodeOk(m, m', out, h, h', peers, r.to, r.args.candidate);
  }

  lemma GrantNodeOk(m: Node, m': Node, out: seq<ApplyMsg>, h: History, h': History, peers: nat, s: int, candidate: int)
    requires NodeOk(m, out, h, peers, s) && Grows(h, h') && 0 <= candidate < peers
    requires m.votedFor == NO_VOTE || m.votedFor == candidate
    requires m' == m.(votedFor := candidate)
    requires h' == RecordVote(h, (s, m.currentTerm), VoteRec(candidate, m.logs))
    ensures NodeOk(m', out, h', peers, s)
  {
    GenuineGrows(h, h', m.logs);
    SettledGrows(h, h', peers, m.logs[..m.commitIndex], m.currentTerm, m.currentTerm);
    AcksGrow(m, h, h', s);
    assert AckField(m', h', s);
  }

  lemma HVoteFrame(n: Node, h: History, a: VoteArgs)
    ensures HVote(h, n, a) == h.(voted := HVote(h, n, a).voted)
    ensures forall s :: s != n.me ==> Foreign(h, HVote(h, n, a), s)
    ensures LeadsNoMore(n, RequestVoteStep(n, a).0, h, n.me)
  {
  }

  lemma VoteOk(c: Cluster, h: History, r: VoteReq)
    requires Inv(c, h) && CanVote(c, r)
    ensures Inv(AfterVote(c, r), HVote(h, c.nodes[r.to], r.args)) && Grows(h, HVote(h, c.nodes[r.to], r.args))
  {
    var n, h' := c.nodes[r.to], HVote(h, c.nodes[r.to], r.args);
    assert NodeOk(n, c.applied[r.to], h, |c.nodes|, r.to);
    assert VoteReqOk(h, |c.nodes|, r);
    HVoteOk(n, c.applied[r.to], h, |c.nodes|, r);
    HVoteFrame(n, h, r.args);
    VoteInv(c, AfterVote(c, r), h, h', r, RequestVoteStep(n, r.args).0, RequestVoteStep(n, r.args).1);
  }

  lemma VoteInv(c: Cluster, c': Cluster, h: History, h': History, r: VoteReq, n': Node, reply: VoteReply)
    requires Inv(c, h) && r in c.voteReqs && c.Has(r.to)
    requires c' == c.(nodes := c.nodes[r.to := n'], voteReplies := c.voteReplies + {(r, reply)})
    requires Consistent(h', |c.nodes|) && Grows(h, h')
    requires NodeOk(n', c.applied[r.to], h', |c.nodes|, r.to) && VoteReplyOk(h', r, reply)
    requires forall s :: c.Has(s) && s != r.to ==> Foreign(h, h', s)
    requires h' == h.(voted := h'.voted)
    requires LeadsNoMore(c.nodes[r.to], n', h, r.to)
    ensures Inv(c', h')
  {
    NodesKept(c, c', h, h', r.to);
    NewVoteReply(c, c', h, h', r, reply);
    AppendsKept(c, c', h, h');
  }

  lemma NewVoteReply(c: Cluster, c': Cluster, h: History, h': History, r: VoteReq, reply: VoteReply)
    requires VotesOk(c, h) && Grows(h, h') && h'.counted == h.counted && h'.elected == h.elected
    requires r in c.voteReqs && VoteReplyOk(h', r, reply)
    requires |c'.nodes| == |c.nodes|
    requires c' == c.(nodes := c'.nodes, voteReplies := c.voteReplies + {(r, reply)})
    ensures VotesOk(c', h')
  {
    VotesKept(c, c.(nodes := c'.nodes), h, h');
    forall p | p in c'.voteReplies
      ensures p.0 in c'.voteReqs && VoteReplyOk(h', p.0, p.1)
    {
      if p in c.voteReplies {
        assert VoteReplyOk(h, p.0, p.1);
      }
    }
  }
}
