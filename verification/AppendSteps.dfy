/** Replication keeps the invariant: a command, a heart-beat round, a follower's merge, applying. */
module AppendSteps {
  import opened RaftTypes
  import opened RaftSteps
  import opened Cluster
  import opened History
  import opened HistorySteps
  import opened Invariant
  import opened VoteSteps
  import opened WinSteps

  // ---------------------------------------------------------------- a client command

  ghost function HCommand(h: History, n: Node, command: string): History
    requires n.currentTerm in h.tlog
  {
    RecordEntry(h, n.me, n.currentTerm, Entry(command, n.currentTerm, LastLogIndex(n) + 1))
  }

  lemma KeepsLonger(h: History, t: int, acked: int, log: Log, longer: Log, bound: int)
    requires KeepsAll(h, t, acked, log, bound) && log <= longer
    ensures KeepsAll(h, t, acked, longer, bound)
  {
    forall L | 0 <= L <= acked
      ensures Keeps(h, t, L, longer, bound)
    {
      assert Keeps(h, t, L, log, bound);
    }
  }

  /** A leader's longer log keeps every acknowledgement, its own included. */
  lemma CommandAcksOk(n: Node, n': Node, h: History, h': History, s: int)
    requires AckField(n, h, s) && Grows(h, h') && n'.currentTerm == n.currentTerm && n.logs <= n'.logs
    requires n.currentTerm in h'.tlog && h'.tlog[n.currentTerm] == n'.logs
    requires h'.acked == h.acked[(s, n.currentTerm) := |n'.logs|]
    ensures AckField(n', h', s)
  {
    var t := n.currentTerm;
    forall u | (s, u) in h'.acked
      ensures u <= t && KeepsAll(h', u, h'.acked[(s, u)], n'.logs, t + 1)
    {
      if u != t {
        KeepsGrows(h, h', u, h.acked[(s, u)], n.logs, t + 1);
        KeepsLonger(h', u, h.acked[(s, u)], n.logs, n'.logs, t + 1);
      }
    }
  }

  lemma CommandHistoryOk(n: Node, out: seq<ApplyMsg>, h: History, peers: nat, s: int, command: string)
    requires Consistent(h, peers) && NodeOk(n, out, h, peers, s) && n.status == Leader
    ensures Consistent(HCommand(h, n, command), peers) && Grows(h, HCommand(h, n, command))
    ensures Genuine(HCommand(h, n, command), StartStep(n, command).logs)
  {
    LastIsLength(n, h);
    RecordEntryOk(h, peers, s, n.currentTerm, Entry(command, n.currentTerm, LastLogIndex(n) + 1));
  }

  lemma CommandNodeOk(n: Node, out: seq<ApplyMsg>, h: History, peers: nat, s: int, command: string)
    requires NodeOk(n, out, h, peers, s) && n.status == Leader
    requires Grows(h, HCommand(h, n, command))
    requires Genuine(HCommand(h, n, command), StartStep(n, command).logs)
    ensures NodeOk(StartStep(n, command), out, HCommand(h, n, command), peers, s)
  {
    var h', n' := HCommand(h, n, command), StartStep(n, command);
    assert n'.logs[..n.commitIndex] == n.logs[..n.commitIndex];
    SettledGrows(h, h', peers, n.logs[..n.commitIndex], n.currentTerm, n.currentTerm);
    CommandAcksOk(n, n', h, h', s);
    assert LeaderField(n', h', s);
  }

  lemma HCommandFrame(n: Node, h: History, command: string)
    requires LeaderField(n, h, n.me) && n.status == Leader
    ensures var h' := HCommand(h, n, command);
            && h'.rounds == h.rounds && h'.ackers == h.ackers && h'.counted == h.counted && h'.elected == h.elected
            && (forall s :: s != n.me ==> Foreign(h, h', s))
            && LeadsNoMore(n, StartStep(n, command), h, n.me)
  {
  }

  /** A command; a node that does not lead does nothing. */
  lemma CommandOk(c: Cluster, h: History, i: int, command: string) returns (h': History)
    requires Inv(c, h) && CanCommand(c, i)
    ensures Inv(AfterCommand(c, i, command), h') && Grows(h, h')
  {
    if Leads(c, i) {
      LeaderCommandOk(c, h, i, command);
      h' := HCommand(h, c.nodes[i], command);
    } else {
      h' := h;
      assert c.nodes[i := c.nodes[i]] == c.nodes;
    }
  }

  lemma LeaderCommandOk(c: Cluster, h: History, i: int, command: string)
    requires Inv(c, h) && Leads(c, i)
    ensures c.nodes[i].currentTerm in h.tlog
    ensures Inv(AfterCommand(c, i, command), HCommand(h, c.nodes[i], command))
    ensures Grows(h, HCommand(h, c.nodes[i], command))
  {
    var n := c.nodes[i];
    assert NodeOk(n, c.applied[i], h, |c.nodes|, i);
    var c', h' := AfterCommand(c, i, command), HCommand(h, n, command);
    CommandHistoryOk(n, c.applied[i], h, |c.nodes|, i, command);
    CommandNodeOk(n, c.applied[i], h, |c.nodes|, i, command);
    HCommandFrame(n, h, command);
    VotesKept(c, c', h, h');
    OneNodeInv(c, c', h, h', i, StartStep(n, command));
  }

  // ---------------------------------------------------------------- applying

  lemma ApplyNodeOk(n: Node, out: seq<ApplyMsg>, h: History, peers: nat, s: int)
    requires NodeOk(n, out, h, peers, s)
    ensures ApplyAsserts(n)
    ensures NodeOk(ApplyStep(n), out + ApplyBatch(n), h, peers, s)
  {
    LastIsLength(n, h);
    ApplyOutputOk(n, out);
    AppliedAcksOk(n, h, s);
  }

  lemma ApplyOutputOk(n: Node, out: seq<ApplyMsg>)
    requires OutputField(n, out) && ApplyAsserts(n) && n.snapIndex == 0
    ensures OutputField(ApplyStep(n), out + ApplyBatch(n))
  {
    LastIndexIsLength(n);
    var batch := ApplyBatch(n);
    assert |batch| == ApplyStep(n).lastApplied - n.lastApplied;
    forall k | 0 <= k < |out + batch|
      ensures (out + batch)[k] == CommandMsg(n.logs[k].command, k + 1)
    {
      if k >= |out| {
        assert (out + batch)[k] == batch[k - |out|];
      }
    }
  }

  lemma AppliedAcksOk(n: Node, h: History, s: int)
    requires AckField(n, h, s)
    ensures AckField(ApplyStep(n), h, s)
  {
  }

  lemma ApplyOk(c: Cluster, h: History, i: int)
    requires Inv(c, h) && CanApply(c, i)
    ensures Inv(AfterApply(c, i), h)
  {
    var c' := AfterApply(c, i);
    assert NodeOk(c.nodes[i], c.applied[i], h, |c.nodes|, i);
    ApplyNodeOk(c.nodes[i], c.applied[i], h, |c.nodes|, i);
    VotesKept(c, c', h, h);
    NodesKept(c, c', h, h, i);
    AppendsKept(c, c', h, h);
  }

  // ---------------------------------------------------------------- a heart-beat round

  ghost function HBeat(h: History, n: Node, round: int): History {
    h.(rounds := h.rounds[round := Round(n.me, n.currentTerm, |n.logs|)], ackers := h.ackers[round := {n.me}])
  }

  lemma BeatReqOk(n: Node, out: seq<ApplyMsg>, h: History, peers: nat, i: int, to: int, round: int)
    requires Consistent(h, peers) && NodeOk(n, out, h, peers, i) && n.status == Leader
    requires 0 <= i < peers && 0 <= to < peers && to != i
    ensures HeartBeatAsserts(n, to) && SendsEntries(n, to)
    ensures round !in h.rounds ==> AppendReqOk(HBeat(h, n, round), peers, AppendReq(to, round, AppendArgsFor(n, to)))
  {
    LastIsLength(n, h);
    if round !in h.rounds {
      var h', a := HBeat(h, n, round), AppendArgsFor(n, to);
      SameFacts(h, h', peers);
      SettledGrows(h, h', peers, n.logs[..n.commitIndex], n.currentTerm, n.currentTerm);
      assert a.prevTerm == LogTerm(n.logs[..a.prevIndex]);
    }
  }

  /** A heart-beat round; a node that does not lead sends none. */
  lemma BeatOk(c: Cluster, h: History, i: int, round: int) returns (h': History)
    requires Inv(c, h) && CanBeat(c, i, round)
    ensures Inv(AfterBeat(c, i, round), h') && Grows(h, h')
  {
    if Leads(c, i) {
      LeaderBeatOk(c, h, i, round);
      h' := HBeat(h, c.nodes[i], round);
    } else {
      h' := h;
    }
  }

  lemma LeaderBeatOk(c: Cluster, h: History, i: int, round: int)
    requires Inv(c, h) && CanBeat(c, i, round) && Leads(c, i)
    ensures Inv(AfterBeat(c, i, round), HBeat(h, c.nodes[i], round)) && Grows(h, HBeat(h, c.nodes[i], round))
  {
    var n, h' := c.nodes[i], HBeat(h, c.nodes[i], round);
    assert NodeOk(n, c.applied[i], h, |c.nodes|, i);
    SameFacts(h, h', |c.nodes|);
    forall r | r in RoundOf(n, i, |c.nodes|, round)
      ensures AppendReqOk(h', |c.nodes|, r) && r.round == round && r.to != i
    {
      BeatReqOk(n, c.applied[i], h, |c.nodes|, i, r.to, round);
    }
    BeatInv(c, AfterBeat(c, i, round), h, h', i, round, RoundOf(n, i, |c.nodes|, round));
  }

  lemma BeatInv(c: Cluster, c': Cluster, h: History, h': History, i: int, round: int, reqs: set<AppendReq>)
    requires Inv(c, h) && c.Has(i) && round !in c.appendNums && c.nodes[i].status == Leader
    requires c' == c.(appendReqs := c.appendReqs + reqs, appendNums := c.appendNums[round := 1])
    requires h' == HBeat(h, c.nodes[i], round) && Grows(h, h') && Consistent(h', |c.nodes|)
    requires forall r :: r in reqs ==> AppendReqOk(h', |c.nodes|, r) && r.round == round && r.to != i
    requires Distinct(reqs)
    ensures Inv(c', h')
  {
    BeatNodesOk(c, c', h, h', i, round);
    OldRequestsOk(c, h, h', i, round);
    BeatRoundsOk(c, c', h, h', i, round);
    BeatAppendsOk(c, c', h', round, reqs);
  }

  lemma BeatNodesOk(c: Cluster, c': Cluster, h: History, h': History, i: int, round: int)
    requires Inv(c, h) && c.Has(i)
    requires c' == c.(appendReqs := c'.appendReqs, appendNums := c'.appendNums)
    requires h' == HBeat(h, c.nodes[i], round) && Grows(h, h')
    ensures NodesOk(c', h') && VotesOk(c', h')
  {
    assert NodeOk(c.nodes[i], c.applied[i], h, |c.nodes|, i);
    NodeGrows(c.nodes[i], c.applied[i], h, h', |c.nodes|, i);
    NodesKept(c, c', h, h', i);
    VotesKept(c, c', h, h');
  }

  lemma BeatAppendsOk(c: Cluster, c': Cluster, h': History, round: int, reqs: set<AppendReq>)
    requires c' == c.(appendReqs := c.appendReqs + reqs, appendNums := c.appendNums[round := 1])
    requires round in h'.ackers && |h'.ackers[round]| == 1
    requires forall r :: r in reqs ==> AppendReqOk(h', |c.nodes|, r) && r.round == round && r.to !in h'.ackers[round]
    requires Distinct(reqs) && Distinct(c.appendReqs)
    requires forall r :: r in c.appendReqs ==>
               AppendReqOk(h', |c.nodes|, r) && r.round != round && r.round in c.appendNums
    requires forall r :: r in c.appendReqs && r !in c.appendDone ==> Unacked(h', r)
    requires forall p :: p in c.appendReplies ==> p.0 in c.appendReqs && AppendReplyOk(h', p.0, p.1)
    requires forall k :: k in c'.appendNums ==> RoundOk(h', |c.nodes|, k, c'.appendNums[k])
    requires forall k, s :: k in c'.appendNums && c'.Has(s) && k in h'.rounds && h'.rounds[k].leader == s ==>
               RoundMatched(c'.nodes[s], h', k)
    ensures AppendsOk(c', h')
  {
    DistinctUnion(c.appendReqs, reqs, round);
  }

  lemma DistinctUnion(a: set<AppendReq>, b: set<AppendReq>, round: int)
    requires Distinct(a) && Distinct(b)
    requires (forall r :: r in a ==> r.round != round) && (forall r :: r in b ==> r.round == round)
    ensures Distinct(a + b)
  {
  }

  lemma OldRequestsOk(c: Cluster, h: History, h': History, i: int, round: int)
    requires AppendsOk(c, h) && c.Has(i) && round !in c.appendNums
    requires h' == HBeat(h, c.nodes[i], round) && Grows(h, h')
    ensures forall r :: r in c.appendReqs ==> AppendReqOk(h', |c.nodes|, r) && r.round != round
    ensures forall r :: r in c.appendReqs && r !in c.appendDone ==> Unacked(h', r)
    ensures forall p :: p in c.appendReplies ==> p.0 in c.appendReqs && AppendReplyOk(h', p.0, p.1)
  {
    forall r | r in c.appendReqs
      ensures AppendReqOk(h', |c.nodes|, r) && r.round != round && (r !in c.appendDone ==> Unacked(h', r))
    {
      assert AppendReqOk(h, |c.nodes|, r) && (r !in c.appendDone ==> Unacked(h, r));
      AppendReqGrows(h, h', |c.nodes|, r);
    }
    forall p | p in c.appendReplies
      ensures p.0 in c.appendReqs && AppendReplyOk(h', p.0, p.1)
    {
      assert AppendReplyOk(h, p.0, p.1);
    }
  }

  lemma BeatRoundsOk(c: Cluster, c': Cluster, h: History, h': History, i: int, round: int)
    requires Inv(c, h) && c.Has(i) && round !in c.appendNums && c.nodes[i].status == Leader
    requires c'.appendNums == c.appendNums[round := 1] && c'.nodes == c.nodes
    requires h' == HBeat(h, c.nodes[i], round) && Grows(h, h')
    ensures forall k :: k in c'.appendNums ==> RoundOk(h', |c.nodes|, k, c'.appendNums[k])
    ensures forall k, s :: k in c'.appendNums && c'.Has(s) && h'.rounds[k].leader == s ==> RoundMatched(c'.nodes[s], h', k)
  {
    assert NodeOk(c.nodes[i], c.applied[i], h, |c.nodes|, i);
    forall k | k in c'.appendNums
      ensures RoundOk(h', |c.nodes|, k, c'.appendNums[k])
    {
      if k == round {
        assert h'.ackers[k] == {i};
      } else {
        assert RoundOk(h, |c.nodes|, k, c.appendNums[k]);
      }
    }
    forall k, s | k in c'.appendNums && c'.Has(s) && h'.rounds[k].leader == s
      ensures RoundMatched(c'.nodes[s], h', k)
    {
      if k != round {
        assert RoundMatched(c.nodes[s], h, k);
      }
    }
  }

  // ---------------------------------------------------------------- a follower's merge

  ghost function HAppend(h: History, n: Node, a: AppendArgs): History {
    if Accepts(n, a) then RecordAck(h, (n.me, a.term), a.prevIndex + |a.entries|) else h
  }

  lemma FollowingOk(n: Node, out: seq<ApplyMsg>, h: History, peers: nat, s: int, term: int)
    requires Consistent(h, peers) && NodeOk(n, out, h, peers, s) && term >= n.currentTerm
    requires term in h.elected && h.elected[term].leader != s
    ensures NodeOk(Following(n, term), out, h, peers, s)
  {
    if term > n.currentTerm {
      StepDownOk(n, out, h, peers, s, term);
    }
  }

  /** The merge of a genuine log with a stretch of the leader's log: nothing changes, or the result is the
      leader's log up to the end of the stretch. */
  lemma MergeMeaning(h: History, X: Log, T: Log, p: int, u: int, entries: seq<Entry>)
    requires Genuine(h, X) && Genuine(h, T) && 0 <= p <= u <= |T| && p <= |X| && entries == T[p..u]
    requires p > 0 ==> X[p - 1].term == T[p - 1].term
    ensures NoClash(X, p, entries)
    ensures var R := Merge(X, p, entries);
            R == Merged(X, T, u) && Genuine(h, R) && T[..u] <= R
  {
    assert X[..p] == T[..p] by {
      if p > 0 {
        LogMatching(h, X, T, p - 1);
      }
    }
    assert NoClash(X, p, T[p..u]) by {
      SameTermsSameEntries(h, X, T, p, u);
    }
    MergeOfStretch(X, T, p, u);
    GenuinePrefix(h, T, u);
  }

  lemma SameTermsSameEntries(h: History, X: Log, T: Log, p: int, u: int)
    requires Genuine(h, X) && Genuine(h, T) && 0 <= p <= u <= |T|
    ensures NoClash(X, p, T[p..u])
  {
    forall k | 0 <= k < u - p && p + k < |X| && X[p + k].term == T[p..u][k].term
      ensures X[p + k] == T[p..u][k]
    {
      LogMatching(h, X, T, p + k);
      assert X[p + k] == X[..p + k + 1][p + k];
    }
  }

  lemma MergeOfStretch(X: Log, T: Log, p: nat, u: int)
    requires p <= u <= |T| && p <= |X| && X[..p] == T[..p]
    ensures Merge(X, p, T[p..u]) == Merged(X, T, u) && T[..u] <= Merged(X, T, u)
  {
    assert T[..u] == T[..p] + T[p..u];
    HoldsIff(X, p, T[p..u]);
    if u <= |X| {
      assert X[..u] == X[..p] + X[p..u];
      assert X[..u] == T[..u] ==> X[p..u] == T[p..u] by {
        assert X[p..u] == X[..u][p..] && T[p..u] == T[..u][p..];
      }
    }
  }

  function Merged(X: Log, T: Log, u: int): Log
    requires 0 <= u <= |T|
  {
    if T[..u] <= X then X else T[..u]
  }

  /** What the follower and the leader had in common survives the merge. */
  lemma CommonSurvives(P: Log, X: Log, T: Log, u: int)
    requires 0 <= u <= |T| && P <= X && P <= T
    ensures P <= Merged(X, T, u)
  {
    if |P| > u {
      assert T[..u] <= P;
    }
  }

  lemma MergeKeeps(h: History, peers: nat, X: Log, T: Log, t: int, p: int, u: int, acked: int)
    requires Consistent(h, peers) && t in h.elected && h.tlog[t] == T && u <= t && 0 <= p <= |T|
    requires KeepsAll(h, u, acked, X, t + 1)
    ensures KeepsAll(h, u, acked, Merged(X, T, p), t + 1)
  {
    var R, bound := Merged(X, T, p), t + 1;
    assert ElectedOk(h, peers, t);
    forall L | 0 <= L <= acked
      ensures Keeps(h, u, L, R, bound)
    {
      assert Keeps(h, u, L, X, bound);
      var P := h.tlog[u][..L];
      if P <= X {
        if P <= T {
          CommonSurvives(P, X, T, p);
        } else {
          assert !(P <= h.elected[t].log);
        }
      }
    }
  }

  /** What the merge needs from the follower and the request, and all it says about them. */
  lemma AppendMergeOk(n: Node, h: History, peers: nat, r: AppendReq)
    requires Consistent(h, peers) && AppendReqOk(h, peers, r) && n.snapIndex == 0
    requires LogField(n, h) && CommitField(n, h, peers) && Accepts(n, r.args)
    ensures var a, T := r.args, h.tlog[r.args.term];
            var u := a.prevIndex + |a.entries|;
            && NoClash(n.logs, a.prevIndex, a.entries)
            && Merge(n.logs, a.prevIndex, a.entries) == Merged(n.logs, T, u)
            && Genuine(h, Merged(n.logs, T, u))
            && T[..u] <= Merged(n.logs, T, u)
            && n.logs[..n.commitIndex] <= Merged(n.logs, T, u)
  {
    var a, T := r.args, h.tlog[r.args.term];
    var u := a.prevIndex + |a.entries|;
    assert Genuine(h, T) by {
      assert ElectedOk(h, peers, a.term);
    }
    assert a.prevIndex > 0 ==> LogTerm(T[..a.prevIndex]) == T[a.prevIndex - 1].term;
    MergeMeaning(h, n.logs, T, a.prevIndex, u, a.entries);
    assert n.logs[..n.commitIndex] <= Merged(n.logs, T, u) by {
      SettledInLeader(h, peers, n.logs[..n.commitIndex], n.currentTerm, a.term);
      CommonSurvives(n.logs[..n.commitIndex], n.logs, T, u);
    }
  }

  /** Every assertion of `AppendEntries1` holds. */
  lemma AppendAssertsHold(n: Node, out: seq<ApplyMsg>, h: History, peers: nat, r: AppendReq)
    requires Consistent(h, peers) && NodeOk(n, out, h, peers, r.to) && AppendReqOk(h, peers, r)
    ensures AppendAsserts(n, r.args) && Contiguous(r.args)
  {
    var a, T := r.args, h.tlog[r.args.term];
    LastIsLength(n, h);
    assert ElectedOk(h, peers, a.term);
    forall k | 0 <= k < |a.entries|
      ensures a.entries[k].index == a.prevIndex + 1 + k
    {
      assert Written(h, T, a.prevIndex + k);
    }
    if Accepts(n, a) {
      AppendMergeOk(n, h, peers, r);
    }
  }

  /** The follower after a merge that reaches index u, with the leader's commit index `lc`. */
  function Caught(m: Node, T: Log, u: int, lc: int): Node
    requires 0 <= u <= |T|
  {
    var logs := Merged(m.logs, T, u);
    m.(logs := logs, commitIndex := if lc > m.commitIndex then Min(lc, |logs|) else m.commitIndex)
  }

  lemma CaughtAcksOk(m: Node, h: History, peers: nat, s: int, T: Log, u: int, lc: int)
    requires Consistent(h, peers) && AckField(m, h, s)
    requires m.currentTerm in h.elected && T == h.tlog[m.currentTerm] && 0 <= u <= |T|
    requires T[..u] <= Merged(m.logs, T, u)
    requires Grows(h, RecordAck(h, (s, m.currentTerm), u))
    ensures AckField(Caught(m, T, u, lc), RecordAck(h, (s, m.currentTerm), u), s)
  {
    var h', m', t := RecordAck(h, (s, m.currentTerm), u), Caught(m, T, u, lc), m.currentTerm;
    forall w | (s, w) in h'.acked
      ensures w <= t && KeepsAll(h', w, h'.acked[(s, w)], m'.logs, t + 1)
    {
      if (s, w) in h.acked && h'.acked[(s, w)] == h.acked[(s, w)] {
        MergeKeeps(h, peers, m.logs, T, t, u, w, h.acked[(s, w)]);
        KeepsGrows(h, h', w, h.acked[(s, w)], m'.logs, t + 1);
      } else {
        NewAckKept(h', t, u, m'.logs);
      }
    }
  }

  lemma NewAckKept(h: History, t: int, u: int, log: Log)
    requires t in h.tlog && 0 <= u <= |h.tlog[t]| && h.tlog[t][..u] <= log
    ensures KeepsAll(h, t, u, log, t + 1)
  {
    var bound := t + 1;
    forall L | 0 <= L <= u
      ensures Keeps(h, t, L, log, bound)
    {
      assert h.tlog[t][..L] <= h.tlog[t][..u];
    }
  }

  lemma CaughtNodeOk(m: Node, out: seq<ApplyMsg>, h: History, peers: nat, s: int, T: Log, u: int, lc: int)
    requires Consistent(h, peers) && NodeOk(m, out, h, peers, s)
    requires m.currentTerm in h.elected && h.elected[m.currentTerm].leader != s
    requires T == h.tlog[m.currentTerm] && 0 <= lc <= u <= |T|
    requires T[..u] <= Merged(m.logs, T, u) && Genuine(h, Merged(m.logs, T, u))
    requires m.logs[..m.commitIndex] <= Merged(m.logs, T, u)
    requires Settled(h, peers, T[..lc], m.currentTerm)
    requires Grows(h, RecordAck(h, (s, m.currentTerm), u))
    ensures NodeOk(Caught(m, T, u, lc), out, RecordAck(h, (s, m.currentTerm), u), peers, s)
  {
    var h' := RecordAck(h, (s, m.currentTerm), u);
    CaughtLogOk(m, h, h', peers, T, u, lc);
    CaughtAcksOk(m, h, peers, s, T, u, lc);
    CaughtCommitOk(m, out, h, h', peers, T, u, lc);
  }

  lemma CaughtLogOk(m: Node, h: History, h': History, peers: nat, T: Log, u: int, lc: int)
    requires Consistent(h, peers) && LogField(m, h) && Grows(h, h')
    requires m.currentTerm in h.elected && T == h.tlog[m.currentTerm] && 0 <= u <= |T|
    requires Genuine(h, Merged(m.logs, T, u))
    ensures LogField(Caught(m, T, u, lc), h')
  {
    assert ElectedOk(h, peers, m.currentTerm);
    GenuineGrows(h, h', Merged(m.logs, T, u));
  }

  lemma CaughtCommitOk(m: Node, out: seq<ApplyMsg>, h: History, h': History, peers: nat, T: Log, u: int, lc: int)
    requires CommitField(m, h, peers) && OutputField(m, out) && Grows(h, h')
    requires 0 <= lc <= u <= |T| && T[..u] <= Merged(m.logs, T, u)
    requires m.logs[..m.commitIndex] <= Merged(m.logs, T, u)
    requires Settled(h, peers, T[..lc], m.currentTerm)
    ensures CommitField(Caught(m, T, u, lc), h', peers) && OutputField(Caught(m, T, u, lc), out)
  {
    var m' := Caught(m, T, u, lc);
    assert m'.logs[..m.commitIndex] == m.logs[..m.commitIndex];
    assert m'.logs[..lc] == T[..lc];
    SettledGrows(h, h', peers, m'.logs[..m'.commitIndex], m.currentTerm, m.currentTerm);
  }

  lemma CaughtOk(m: Node, out: seq<ApplyMsg>, h: History, peers: nat, s: int, T: Log, u: int, lc: int)
    requires Consistent(h, peers) && NodeOk(m, out, h, peers, s)
    requires m.currentTerm in h.elected && h.elected[m.currentTerm].leader != s
    requires T == h.tlog[m.currentTerm] && 0 <= lc <= u <= |T|
    requires T[..u] <= Merged(m.logs, T, u) && Genuine(h, Merged(m.logs, T, u))
    requires m.logs[..m.commitIndex] <= Merged(m.logs, T, u)
    requires Settled(h, peers, T[..lc], m.currentTerm)
    ensures var h' := RecordAck(h, (s, m.currentTerm), u);
            && Consistent(h', peers) && Grows(h, h')
            && NodeOk(Caught(m, T, u, lc), out, h', peers, s)
  {
    RecordAckOk(h, peers, (s, m.currentTerm), u);
    CaughtNodeOk(m, out, h, peers, s, T, u, lc);
  }

  /** A follower in the leader's term that accepts, before the step is put together. */
  lemma AcceptMergeOk(m: Node, out: seq<ApplyMsg>, h: History, peers: nat, r: AppendReq, T: Log, u: int)
    requires Consistent(h, peers) && NodeOk(m, out, h, peers, r.to) && AppendReqOk(h, peers, r)
    requires Accepts(m, r.args) && m.currentTerm == r.args.term
    requires T == h.tlog[m.currentTerm] && u == r.args.prevIndex + |r.args.entries|
    ensures Consistent(RecordAck(h, (r.to, m.currentTerm), u), peers)
    ensures Grows(h, RecordAck(h, (r.to, m.currentTerm), u))
    ensures NodeOk(Caught(m, T, u, r.args.leaderCommit), out, RecordAck(h, (r.to, m.currentTerm), u), peers, r.to)
    ensures Merge(m.logs, r.args.prevIndex, r.args.entries) == Merged(m.logs, T, u)
  {
    AppendMergeOk(m, h, peers, r);
    CaughtOk(m, out, h, peers, r.to, T, u, r.args.leaderCommit);
  }

  /** The same for a follower that has yet to hear of the leader's term. */
  lemma AcceptFollowingOk(n: Node, out: seq<ApplyMsg>, h: History, peers: nat, r: AppendReq, T: Log, u: int)
    requires Consistent(h, peers) && NodeOk(n, out, h, peers, r.to) && AppendReqOk(h, peers, r)
    requires Accepts(n, r.args) && T == h.tlog[r.args.term] && u == r.args.prevIndex + |r.args.entries|
    ensures var h' := RecordAck(h, (r.to, r.args.term), u);
            && Consistent(h', peers) && Grows(h, h')
            && NodeOk(Caught(Following(n, r.args.term), T, u, r.args.leaderCommit), out, h', peers, r.to)
            && AppendReplyOk(h', r, AppendReply(r.args.term, true, 0))
    ensures Merge(n.logs, r.args.prevIndex, r.args.entries) == Merged(n.logs, T, u)
  {
    FollowingOk(n, out, h, peers, r.to, r.args.term);
    AcceptMergeOk(Following(n, r.args.term), out, h, peers, r, T, u);
  }

  lemma AcceptOk(n: Node, out: seq<ApplyMsg>, h: History, peers: nat, r: AppendReq)
    requires Consistent(h, peers) && NodeOk(n, out, h, peers, r.to) && AppendReqOk(h, peers, r)
    requires Accepts(n, r.args) && Indexed(n)
    ensures var h' := HAppend(h, n, r.args);
            && Consistent(h', peers) && Grows(h, h')
            && NodeOk(AppendEntriesStep(n, r.args).0, out, h', peers, r.to)
            && AppendReplyOk(h', r, AppendEntriesStep(n, r.args).1)
  {
    var T, u := h.tlog[r.args.term], r.args.prevIndex + |r.args.entries|;
    assert HAppend(h, n, r.args) == RecordAck(h, (r.to, r.args.term), u);
    AcceptFollowingOk(n, out, h, peers, r, T, u);
    AcceptStep(n, r, T, u);
  }

  lemma AcceptStep(n: Node, r: AppendReq, T: Log, u: int)
    requires Accepts(n, r.args) && Indexed(n) && n.snapIndex == 0
    requires 0 <= r.args.prevIndex && u == r.args.prevIndex + |r.args.entries| <= |T|
    requires Merge(n.logs, r.args.prevIndex, r.args.entries) == Merged(n.logs, T, u)
    ensures AppendEntriesStep(n, r.args) ==
            (Caught(Following(n, r.args.term), T, u, r.args.leaderCommit), AppendReply(r.args.term, true, 0))
  {
    LastIndexIsLength(n);
  }

  lemma RejectStep(n: Node, a: AppendArgs)
    requires Indexed(n) && n.snapIndex == 0 && n.snapTerm == 0 && a.prevIndex >= 0
    requires !Accepts(n, a) && (a.prevIndex == 0 ==> a.prevTerm == 0)
    ensures AppendEntriesStep(n, a).0 == if a.term < n.currentTerm then n else Following(n, a.term)
    ensures var reply := AppendEntriesStep(n, a).1;
            !reply.success && (reply.updateNext != NO_UPDATE ==> reply.term == a.term && 1 <= reply.updateNext <= a.prevIndex)
  {
    LastIndexIsLength(n);
    if a.term >= n.currentTerm && InRange(n, a.prevIndex) {
      BackUpRange(Following(n, a.term), a.prevIndex, a.prevIndex);
    }
  }

  lemma RejectOk(n: Node, out: seq<ApplyMsg>, h: History, peers: nat, r: AppendReq)
    requires Consistent(h, peers) && NodeOk(n, out, h, peers, r.to) && AppendReqOk(h, peers, r)
    requires !Accepts(n, r.args) && Indexed(n)
    ensures NodeOk(AppendEntriesStep(n, r.args).0, out, h, peers, r.to)
    ensures AppendReplyOk(h, r, AppendEntriesStep(n, r.args).1)
  {
    assert h.tlog[r.args.term][..0] == [];
    RejectStep(n, r.args);
    if r.args.term >= n.currentTerm {
      FollowingOk(n, out, h, peers, r.to, r.args.term);
    }
  }

  lemma HAppendFrame(n: Node, h: History, a: AppendArgs)
    requires Indexed(n)
    ensures var h' := HAppend(h, n, a);
            && h' == h.(acked := h'.acked)
            && (forall s :: s != n.me ==> Foreign(h, h', s))
            && LeadsNoMore(n, AppendEntriesStep(n, a).0, h, n.me)
  {
  }

  lemma AppendOk(c: Cluster, h: History, r: AppendReq)
    requires Inv(c, h) && CanAppend(c, r)
    ensures Inv(AfterAppend(c, r), HAppend(h, c.nodes[r.to], r.args)) && Grows(h, HAppend(h, c.nodes[r.to], r.args))
  {
    var n, h' := c.nodes[r.to], HAppend(h, c.nodes[r.to], r.args);
    assert NodeOk(n, c.applied[r.to], h, |c.nodes|, r.to);
    assert AppendReqOk(h, |c.nodes|, r);
    if Accepts(n, r.args) {
      AcceptOk(n, c.applied[r.to], h, |c.nodes|, r);
    } else {
      RejectOk(n, c.applied[r.to], h, |c.nodes|, r);
    }
    HAppendFrame(n, h, r.args);
    AppendInv(c, AfterAppend(c, r), h, h', r, AppendEntriesStep(n, r.args).0, AppendEntriesStep(n, r.args).1);
  }

  lemma AppendInv(c: Cluster, c': Cluster, h: History, h': History, r: AppendReq, n': Node, reply: AppendReply)
    requires Inv(c, h) && r in c.appendReqs && c.Has(r.to)
    requires c' == c.(nodes := c.nodes[r.to := n'], appendReplies := c.appendReplies + {(r, reply)})
    requires Consistent(h', |c.nodes|) && Grows(h, h') && h' == h.(acked := h'.acked)
    requires NodeOk(n', c.applied[r.to], h', |c.nodes|, r.to) && AppendReplyOk(h', r, reply)
    requires forall s :: s != r.to ==> Foreign(h, h', s)
    requires LeadsNoMore(c.nodes[r.to], n', h, r.to)
    ensures Inv(c', h')
  {
    var d := c.(nodes := c'.nodes);
    VotesKept(c, d, h, h');
    OneNodeInv(c, d, h, h', r.to, n');
    NewAppendReply(d, c', h', r, reply);
  }

  lemma NewAppendReply(d: Cluster, c': Cluster, h: History, r: AppendReq, reply: AppendReply)
    requires Inv(d, h) && r in d.appendReqs && AppendReplyOk(h, r, reply)
    requires c' == d.(appendReplies := d.appendReplies + {(r, reply)})
    ensures Inv(c', h)
  {
    VotesKept(d, c', h, h);
  }
}
