/** What each handler of raft.cpp comes to for whoever watches the node: said of any node that keeps its invariant, in
    counts, indices and entries, and of every field.  `RaftNode` shows that the loops of the source do this. */
module HandlerMeaning {
  import opened RaftTypes
  import opened RaftSteps
  import opened NodeInvariant
  import opened History

  // ---------------------------------------------------------------- counting

  /** A majority is more than half. */
  lemma MajorityIsMoreThanHalf(votes: int, peers: nat)
    ensures votes >= Majority(peers) <==> 2 * votes > peers
  {
  }

  /** The servers that have matched an index, the node itself among them. */
  ghost function Matchers(matchIndex: seq<int>, me: int, index: int, k: nat): set<int>
    requires k <= |matchIndex|
  {
    set j | 0 <= j < k && (j == me || matchIndex[j] >= index)
  }

  lemma {:induction false} MatchedIsCount(matchIndex: seq<int>, me: int, index: int, k: nat)
    requires k <= |matchIndex|
    ensures Matched(matchIndex, me, index, k) == |Matchers(matchIndex, me, index, k)|
    decreases k
  {
    if k > 0 {
      MatchedIsCount(matchIndex, me, index, k - 1);
      var before := Matchers(matchIndex, me, index, k - 1);
      if k - 1 == me || matchIndex[k - 1] >= index {
        assert Matchers(matchIndex, me, index, k) == before + {k - 1};
      } else {
        assert Matchers(matchIndex, me, index, k) == before;
      }
    } else {
      assert Matchers(matchIndex, me, index, 0) == {};
    }
  }

  /** The rule of `leaderUpdateCommitIndex`: more than half of the servers have matched the index, and its entry is of
      the current term. */
  lemma MatchRuleMeans(n: Node, index: int)
    ensures MatchRule(n, index) <==>
            && InMemory(n, index) && EntryAt(n, index).term == n.currentTerm
            && 2 * |Matchers(n.matchIndex, n.me, index, |n.matchIndex|)| > |n.matchIndex|
  {
    MatchedIsCount(n.matchIndex, n.me, index, |n.matchIndex|);
  }

  // ---------------------------------------------------------------- terms and votes

  /** All fields but the status, the term and the vote. */
  ghost predicate SameWork(n: Node, n': Node) {
    && n'.me == n.me && n'.logs == n.logs && n'.snapIndex == n.snapIndex && n'.snapTerm == n.snapTerm
    && n'.commitIndex == n.commitIndex && n'.lastApplied == n.lastApplied
    && n'.nextIndex == n.nextIndex && n'.matchIndex == n.matchIndex
  }

  /** In a later term than before the node follows and has given no vote. */
  ghost predicate Adopts(n: Node, n': Node, term: int) {
    SameWork(n, n') && n'.status == Follower && n'.currentTerm == term && n'.votedFor == NO_VOTE
  }

  /** The node stands as it did in its term. */
  ghost predicate SameStanding(n: Node, n': Node) {
    n'.status == n.status && n'.currentTerm == n.currentTerm && n'.votedFor == n.votedFor
  }

  /** Starting an election: unless it leads, the node is a candidate in the next term, with its own vote, and what it
      asks for is a vote for itself with the end of its log. */
  lemma ElectionMeans(n: Node)
    requires NodeInv(n)
    ensures var n' := ElectionStep(n);
            && SameWork(n, n')
            && (n.status == Leader ==> SameStanding(n, n'))
            && (n.status != Leader ==>
                  n'.status == Candidate && n'.currentTerm == n.currentTerm + 1 && n'.votedFor == n.me)
            && var a := VoteArgsOf(n');
               && a.term == n'.currentTerm && a.candidate == n.me && a.lastLogIndex == n.snapIndex + |n.logs|
               && a.lastLogTerm == TermAt(n, a.lastLogIndex)
  {
    LastIndexIsLength(n);
  }

  /** The end of one log is not behind the end of another: a later last term, or the same and no fewer entries. */
  ghost predicate NotBehind(index: int, term: int, n: Node) {
    var last := n.snapIndex + |n.logs|;
    TermAt(n, last) < term || (TermAt(n, last) == term && last <= index)
  }

  /** A vote is granted if and only if the request is not of an earlier term, the candidate's log is not behind, and no
      other candidate of that term has the vote.  Whatever the answer, it tells the node's term, the greater of the
      two; a later term is adopted; and only a grant gives a vote. */
  lemma VoteMeans(n: Node, a: VoteArgs)
    requires NodeInv(n)
    ensures var (n', reply) := RequestVoteStep(n, a);
            && (reply.granted <==>
                  && n.currentTerm <= a.term && NotBehind(a.lastLogIndex, a.lastLogTerm, n)
                  && (n.currentTerm == a.term ==> n.votedFor == NO_VOTE || n.votedFor == a.candidate))
            && reply.term == n'.currentTerm == Max(n.currentTerm, a.term) && SameWork(n, n')
            && (a.term < n.currentTerm ==> SameStanding(n, n') && reply.state == Expire)
            && (a.term >= n.currentTerm ==> reply.state == if reply.granted then Normal else Voted)
            && n'.status == (if a.term > n.currentTerm then Follower else n.status)
            && (reply.granted ==> n'.votedFor == a.candidate)
            && (!reply.granted ==> n'.votedFor == if a.term > n.currentTerm then NO_VOTE else n.votedFor)
  {
    LastIndexIsLength(n);
  }

  /** Between nodes that have not compacted that is the comparison of whole logs. */
  lemma VoteComparesLogs(n: Node, a: VoteArgs, log: Log)
    requires NodeInv(n) && n.snapIndex == 0 && a.lastLogIndex == |log| && a.lastLogTerm == LogTerm(log)
    ensures RequestVoteStep(n, a).1.granted <==>
            && n.currentTerm <= a.term && AtLeast(log, n.logs)
            && (n.currentTerm == a.term ==> n.votedFor == NO_VOTE || n.votedFor == a.candidate)
  {
    VoteMeans(n, a);
  }

  /** A vote that makes more than half of the cluster with those counted wins: the node leads its term, takes every
      peer to be right behind its log and to have matched nothing, and the counter starts again.  A later term is
      adopted; any other reply changes at most the counter. */
  lemma VoteReplyMeans(n: Node, reply: VoteReply, votes: int)
    requires NodeInv(n) && |n.nextIndex| == |n.matchIndex|
    ensures var (n', votes') := VoteReplyStep(n, reply, votes);
            && (reply.term > n.currentTerm ==> Adopts(n, n', reply.term) && votes' == votes)
            && (reply.term < n.currentTerm || (reply.term == n.currentTerm && !reply.granted) ==>
                  n' == n && votes' == votes)
            && (reply.term == n.currentTerm && reply.granted ==>
                  if 2 * (votes + 1) > |n.nextIndex| then
                    && n'.status == Leader && n'.currentTerm == n.currentTerm && n'.votedFor == n.votedFor
                    && SameWork(n, n'.(nextIndex := n.nextIndex, matchIndex := n.matchIndex))
                    && |n'.nextIndex| == |n'.matchIndex| == |n.nextIndex| && votes' == 0
                    && (forall p :: 0 <= p < |n.nextIndex| ==>
                          n'.nextIndex[p] == n.snapIndex + |n.logs| + 1 && n'.matchIndex[p] == 0)
                  else n' == n && votes' == votes + 1)
  {
    LastIndexIsLength(n);
  }

  // ---------------------------------------------------------------- commands and requests

  /** A node that leads has the command as its last entry, under the next index and in its term, and every entry it
      had; a node that does not lead is as it was. */
  lemma StartMeans(n: Node, command: string)
    requires NodeInv(n)
    ensures var n' := StartStep(n, command);
            && SameStanding(n, n') && SameWork(n, n'.(logs := n.logs))
            && (n.status != Leader ==> n' == n)
            && (n.status == Leader ==>
                  && LastLogIndex(n') == LastLogIndex(n) + 1
                  && EntryAt(n', LastLogIndex(n')) == Entry(command, n.currentTerm, LastLogIndex(n) + 1)
                  && forall i :: InMemory(n, i) ==> InMemory(n', i) && EntryAt(n', i) == EntryAt(n, i))
  {
    LastIndexIsLength(n);
    LastIndexIsLength(StartStep(n, command));
  }

  /** A request brings the peer all entries from its next index on, the index before with its term, and the index up to
      which the leader has committed. */
  lemma RequestMeans(n: Node, p: int)
    requires HeartBeatAsserts(n, p) && SendsEntries(n, p)
    ensures var a := AppendArgsFor(n, p);
            && a.term == n.currentTerm && a.leader == n.me && a.leaderCommit == n.commitIndex
            && a.prevIndex == n.nextIndex[p] - 1 && InRange(n, a.prevIndex) && a.prevTerm == TermAt(n, a.prevIndex)
            && a.prevIndex + |a.entries| == LastLogIndex(n)
            && forall i :: n.nextIndex[p] <= i <= LastLogIndex(n) ==>
                 InMemory(n, i) && a.entries[i - n.nextIndex[p]] == EntryAt(n, i)
  {
    LastIndexIsLength(n);
  }

  // ---------------------------------------------------------------- a follower

  /** The node after hearing from the leader of a term not earlier than its own: it follows, a candidate of the same term
      and even a leader too, and has a vote only if it gave it in that term. */
  ghost predicate Follows(n: Node, n': Node, term: int) {
    && n'.status == Follower && n'.currentTerm == term
    && n'.votedFor == (if term > n.currentTerm then NO_VOTE else n.votedFor)
    && n'.me == n.me && n'.nextIndex == n.nextIndex && n'.matchIndex == n.matchIndex
  }

  /** A stale request changes nothing and is told the term it is behind.  Any other makes the node follow; it is accepted
      exactly when the terms meet; the applied index and the snapshot stay; and only an acceptance moves the log or
      the commit index, which then follows the leader's as far as the log reaches. */
  lemma AppendMeans(n: Node, a: AppendArgs)
    requires NodeInv(n) && AppendAsserts(n, a) && Contiguous(a)
    ensures var (n', reply) := AppendEntriesStep(n, a);
            && reply.term == n'.currentTerm == Max(n.currentTerm, a.term)
            && (a.term < n.currentTerm ==> n' == n && !reply.success && reply.updateNext == NO_UPDATE)
            && (a.term >= n.currentTerm ==>
                  && Follows(n, n', a.term) && n'.lastApplied == n.lastApplied
                  && n'.snapIndex == n.snapIndex && n'.snapTerm == n.snapTerm
                  && (reply.success <==> InRange(n, a.prevIndex) && TermAt(n, a.prevIndex) == a.prevTerm)
                  && (!reply.success ==> n'.logs == n.logs && n'.commitIndex == n.commitIndex)
                  && (reply.success ==>
                        n'.commitIndex == Max(n.commitIndex, Min(a.leaderCommit, LastLogIndex(n')))))
  {
    LastIndexIsLength(n);
    EntriesKeepNodeInv(n, a);
    LastIndexIsLength(AppendEntriesStep(n, a).0);
  }

  /** So after it the next batch brings what is not applied, up to the leader's commit index or the end of the log. */
  lemma AppendBringsIff(n: Node, a: AppendArgs, i: int)
    requires NodeInv(n) && AppendAsserts(n, a) && Contiguous(a) && Accepts(n, a)
    ensures var n' := AppendEntriesStep(n, a).0;
            Brings(n', i) <==>
            n.lastApplied < i && (i <= n.commitIndex || (i <= a.leaderCommit && i <= LastLogIndex(n')))
  {
    AppendMeans(n, a);
    EntriesKeepNodeInv(n, a);
    BringsIff(AppendEntriesStep(n, a).0, i);
  }

  // ---------------------------------------------------------------- a leader's bookkeeping

  /** The leader hears from the peer in its own term. */
  ghost predicate Hears(n: Node, reply: AppendReply) {
    reply.term == n.currentTerm && n.status == Leader
  }

  /** Only bookkeeping: the next and match index of one peer, and the commit index. */
  ghost predicate OnlyPeer(n: Node, n': Node, server: int) {
    && SameStanding(n, n')
    && SameWork(n, n'.(nextIndex := n.nextIndex, matchIndex := n.matchIndex, commitIndex := n.commitIndex))
    && |n'.nextIndex| == |n.nextIndex| && |n'.matchIndex| == |n.matchIndex|
    && (forall p :: 0 <= p < |n.nextIndex| && p != server ==> n'.nextIndex[p] == n.nextIndex[p])
    && (forall p :: 0 <= p < |n.matchIndex| && p != server ==> n'.matchIndex[p] == n.matchIndex[p])
  }

  /** An acknowledgement: the peer has matched the request's last index at least, and is sent what comes after it next.
      With it more than half of the cluster has acknowledged the round, or not; in the first case the counter starts
      again and what the round brought is committed, if its last entry is of the leader's term. */
  lemma AckMeans(n: Node, server: int, a: AppendArgs, reply: AppendReply, acks: int)
    requires AppendReplyAsserts(n, server, a, reply, acks) && Hears(n, reply) && reply.success
    ensures var (n', acks') := AppendReplyStep(n, server, a, reply, acks);
            var upTo := a.prevIndex + |a.entries|;
            && OnlyPeer(n, n', server)
            && n'.matchIndex[server] == Max(n.matchIndex[server], upTo)
            && n'.nextIndex[server] == n'.matchIndex[server] + 1
            && (2 * (acks + 1) <= |n.nextIndex| ==> acks' == acks + 1 && n'.commitIndex == n.commitIndex)
            && (2 * (acks + 1) > |n.nextIndex| ==>
                  && acks' == 0
                  && n'.commitIndex == if a.entries != [] && a.entries[|a.entries| - 1].term == n.currentTerm
                                       then Max(n.commitIndex, upTo) else n.commitIndex)
  {
  }

  /** So of an acknowledged round that brought an entry of its term, everything is in the leader's batches, exactly when
      more than half of the cluster has acknowledged it. */
  lemma AckBringsIff(n: Node, server: int, a: AppendArgs, reply: AppendReply, acks: int, i: int)
    requires NodeInv(n) && AppendReplyAsserts(n, server, a, reply, acks) && Hears(n, reply) && reply.success
    requires a.entries != [] && a.entries[|a.entries| - 1].term == n.currentTerm
    requires n.commitIndex < i <= a.prevIndex + |a.entries|
    ensures Brings(AppendReplyStep(n, server, a, reply, acks).0, i) <==> 2 * (acks + 1) > |n.nextIndex|
  {
    AckMeans(n, server, a, reply, acks);
    HandlersKeepNodeInv(n, GotEntriesReply(server, a, reply, acks));
    BringsIff(AppendReplyStep(n, server, a, reply, acks).0, i);
  }

  /** Every other reply: a later term is adopted, a suggestion moves the next index of the peer to it, and nothing else
      happens; no acknowledgement is counted. */
  lemma NoAckMeans(n: Node, server: int, a: AppendArgs, reply: AppendReply, acks: int)
    requires AppendReplyAsserts(n, server, a, reply, acks) && !(Hears(n, reply) && reply.success)
    ensures var (n', acks') := AppendReplyStep(n, server, a, reply, acks);
            && acks' == acks
            && (reply.term > n.currentTerm ==> Adopts(n, n', reply.term))
            && (reply.term <= n.currentTerm && !Hears(n, reply) ==> n' == n)
            && (Hears(n, reply) ==>
                  && OnlyPeer(n, n', server) && n'.matchIndex == n.matchIndex && n'.commitIndex == n.commitIndex
                  && n'.nextIndex[server] ==
                     if reply.updateNext == NO_UPDATE then n.nextIndex[server] else reply.updateNext)
  {
  }

  // ---------------------------------------------------------------- applying

  /** The message is the command at the index. */
  ghost predicate IsEntry(n: Node, m: ApplyMsg, index: int) {
    InMemory(n, index) && m == CommandMsg(EntryAt(n, index).command, index)
  }

  /** The batch: the commands after the last applied index up to the commit index, one for each index, in order; they
      are then applied, and no batch brings them again. */
  lemma ApplyMeans(n: Node)
    requires NodeInv(n)
    ensures var batch, n' := ApplyBatch(n), ApplyStep(n);
            && |batch| == n.commitIndex - n.lastApplied
            && (forall k :: 0 <= k < |batch| ==> IsEntry(n, batch[k], n.lastApplied + 1 + k))
            && n' == n.(lastApplied := n.commitIndex)
            && forall i :: !Brings(n', i)
  {
    LastIndexIsLength(n);
    var batch, n' := ApplyBatch(n), ApplyStep(n);
    forall k | 0 <= k < |batch|
      ensures IsEntry(n, batch[k], n.lastApplied + 1 + k)
    {
    }
    OthersKeepNodeInv(n, Applied);
    forall i
      ensures !Brings(n', i)
    {
      BringsIff(n', i);
    }
  }

  // ---------------------------------------------------------------- snapshots

  /** Compaction commits nothing, and what the snapshot covers counts as applied: the next batch brings what it would
      have brought, without that. */
  lemma CompactMeans(n: Node, index: int, i: int)
    requires NodeInv(n)
    ensures var n' := SnapshotStep(n, index);
            && SameStanding(n, n') && n'.me == n.me
            && n'.nextIndex == n.nextIndex && n'.matchIndex == n.matchIndex
            && n'.commitIndex == n.commitIndex && n'.lastApplied == Max(n.lastApplied, n'.snapIndex)
            && (Brings(n', i) <==> Brings(n, i) && i > n'.snapIndex)
  {
    LastIndexIsLength(n);
    SnapshotKeepsNodeInv(n, index);
    BringsIff(n, i);
    BringsIff(SnapshotStep(n, index), i);
  }

  /** A leader's snapshot: a stale one changes nothing; any other makes the node follow.  One that is ahead of the node's
      own is what is committed and applied at least, and commits nothing beyond itself: the next batch brings what it
      would have brought, without what the snapshot covers. */
  lemma InstallMeans(n: Node, a: SnapshotArgs, i: int)
    requires NodeInv(n)
    ensures var (n', msgs) := InstallSnapshotStep(n, a);
            && (a.term < n.currentTerm ==> n' == n && msgs == [])
            && (a.term >= n.currentTerm ==> Follows(n, n', a.term))
            && (Installs(n, a) ==>
                  && n'.snapIndex == a.lastIndex && n'.snapTerm == a.lastTerm
                  && n'.commitIndex == Max(n.commitIndex, a.lastIndex)
                  && n'.lastApplied == Max(n.lastApplied, a.lastIndex)
                  && msgs == [SnapshotMsg(a.data, a.lastTerm, a.lastIndex)])
            && (!Installs(n, a) ==>
                  && n'.snapIndex == n.snapIndex && n'.snapTerm == n.snapTerm && n'.logs == n.logs
                  && n'.commitIndex == n.commitIndex && n'.lastApplied == n.lastApplied && msgs == [])
            && (Brings(n', i) <==> Brings(n, i) && i > n'.snapIndex)
            && (Brings(n', i) <==> Max(n.lastApplied, n'.snapIndex) < i <= n.commitIndex)
  {
    LastIndexIsLength(n);
    InstallKeepsNodeInv(n, a);
    BringsIff(n, i);
    BringsIff(InstallSnapshotStep(n, a).0, i);
  }
}
