/** Every handler of src/raftCore/raft.cpp as a function from the node before to the node after.

    The handlers run under `m_mtx`, so each is one atomic step.  The class `RaftNode.Raft` runs the
    loops of the source and is proved to compute these functions.  Where a handler asserts (`myAssert`
    ends the process), the condition is a predicate here: the class requires it and `RaftSafety` proves
    that no reachable cluster state breaks it. */
module RaftSteps {
  import opened RaftTypes

  function InitNode(i: int, peers: nat): Node {
    Node(i, 0, NO_VOTE, Follower, [], 0, 0, seq(peers, _ => 0), seq(peers, _ => 0), 0, 0)
  }

  // ---------------------------------------------------------------- elections

  function StepDown(n: Node, term: int): Node {
    n.(status := Follower, currentTerm := term, votedFor := NO_VOTE)
  }

  predicate UpToDate(n: Node, index: int, term: int) {
    term > LastLogTerm(n) || (term == LastLogTerm(n) && index >= LastLogIndex(n))
  }

  function RequestVoteStep(n: Node, a: VoteArgs): (Node, VoteReply) {
    if a.term < n.currentTerm then
      (n, VoteReply(n.currentTerm, Expire, false))
    else
      var m := if a.term > n.currentTerm then StepDown(n, a.term) else n;
      if !UpToDate(m, a.lastLogIndex, a.lastLogTerm) then
        (m, VoteReply(m.currentTerm, Voted, false))
      else if m.votedFor != NO_VOTE && m.votedFor != a.candidate then
        (m, VoteReply(m.currentTerm, Voted, false))
      else
        (m.(votedFor := a.candidate), VoteReply(m.currentTerm, Normal, true))
  }

  function ElectionStep(n: Node): Node {
    if n.status == Leader then n
    else n.(status := Candidate, currentTerm := n.currentTerm + 1, votedFor := n.me)
  }

  function VoteArgsOf(n: Node): VoteArgs {
    VoteArgs(n.currentTerm, n.me, LastLogIndex(n), LastLogTerm(n))
  }

  /** `sendRequestVote` after the reply arrived; `votes` is the counter shared by the requests of one
      election. */
  function VoteReplyStep(n: Node, reply: VoteReply, votes: int): (Node, int) {
    if reply.term > n.currentTerm then
      (StepDown(n, reply.term), votes)
    else if reply.term < n.currentTerm || !reply.granted then
      (n, votes)
    else if votes + 1 >= Majority(|n.nextIndex|) then
      (n.(status := Leader,
          nextIndex := seq(|n.nextIndex|, _ => LastLogIndex(n) + 1),
          matchIndex := seq(|n.matchIndex|, _ => 0)), 0)
    else
      (n, votes + 1)
  }

  /** The assertion that a node is not elected twice in one term. */
  predicate VoteReplyAsserts(n: Node, reply: VoteReply, votes: int) {
    reply.term == n.currentTerm && reply.granted && votes + 1 >= Majority(|n.nextIndex|) ==> n.status != Leader
  }

  // ---------------------------------------------------------------- replication

  function StartStep(n: Node, command: string): Node {
    if n.status != Leader then n
    else n.(logs := n.logs + [Entry(command, n.currentTerm, LastLogIndex(n) + 1)])
  }

  function PrevIndex(n: Node, server: int): int
    requires 0 <= server < |n.nextIndex|
  {
    n.nextIndex[server] - 1
  }

  /** The assertions of `doHeartBeat`, `getPrevLogInfo` and the slice helper for one peer. */
  ghost predicate HeartBeatAsserts(n: Node, server: int) {
    && Indexed(n)
    && 0 <= server < |n.nextIndex|
    && 1 <= n.nextIndex[server] <= LastLogIndex(n) + 1
  }

  /** True when `doHeartBeat` sends entries rather than the snapshot. */
  predicate SendsEntries(n: Node, server: int)
    requires 0 <= server < |n.nextIndex|
  {
    n.nextIndex[server] > n.snapIndex
  }

  /** One request of a heart-beat round: everything after the peer's previous index. */
  function AppendArgsFor(n: Node, server: int): AppendArgs
    requires HeartBeatAsserts(n, server) && SendsEntries(n, server)
  {
    LastIndexIsLength(n);
    var prev := PrevIndex(n, server);
    AppendArgs(n.currentTerm, n.me, prev, TermAt(n, prev), n.logs[prev - n.snapIndex..], n.commitIndex)
  }

  /** The requests of a leader whose log is indexed carry consecutive indices. */
  lemma RequestsAreContiguous(n: Node, server: int)
    requires HeartBeatAsserts(n, server) && SendsEntries(n, server)
    ensures Contiguous(AppendArgsFor(n, server))
  {
    LastIndexIsLength(n);
  }

  /** The log holds the entries from place p on. */
  predicate Holds(logs: seq<Entry>, p: nat, entries: seq<Entry>) {
    p + |entries| <= |logs| && forall k :: 0 <= k < |entries| ==> logs[p + k] == entries[k]
  }

  lemma HoldsIff(logs: seq<Entry>, p: nat, entries: seq<Entry>)
    ensures Holds(logs, p, entries) <==> p + |entries| <= |logs| && logs[p..p + |entries|] == entries
  {
    if p + |entries| <= |logs| && logs[p..p + |entries|] == entries {
      forall k | 0 <= k < |entries|
        ensures logs[p + k] == entries[k]
      {
        assert logs[p..p + |entries|][k] == entries[k];
      }
    }
  }

  /** The merge in closed form: keep the log when it already holds the entries, otherwise cut it at
      `p` and append them. */
  function Merge(logs: seq<Entry>, p: nat, entries: seq<Entry>): seq<Entry>
    requires p <= |logs|
  {
    if Holds(logs, p, entries) then logs else logs[..p] + entries
  }

  /** Smallest index from which every term up to `prev` equals the term at `prev`, but never the
      snapshot point itself; `prev` when the whole log below has that one term. */
  function BackUp(n: Node, prev: int, i: int): int
    requires n.snapIndex <= i <= prev && InRange(n, prev)
    decreases i - n.snapIndex
  {
    if TermAt(n, i) != TermAt(n, prev) then i + 1
    else if i == n.snapIndex then prev
    else BackUp(n, prev, i - 1)
  }

  /** The suggestion lies above the snapshot point and not above the probe, unless they are one. */
  lemma {:induction false} BackUpRange(n: Node, prev: int, i: int)
    requires n.snapIndex <= i <= prev && InRange(n, prev)
    ensures n.snapIndex < prev ==> n.snapIndex < BackUp(n, prev, i) <= prev
    ensures n.snapIndex == prev ==> BackUp(n, prev, i) == prev
    decreases i - n.snapIndex
  {
    if TermAt(n, i) == TermAt(n, prev) && i != n.snapIndex {
      BackUpRange(n, prev, i - 1);
    }
  }

  /** The node as a follower of the leader of the term. */
  function Following(n: Node, term: int): Node {
    if term > n.currentTerm then StepDown(n, term) else n.(status := Follower)
  }

  /** The accepting branch: merge, and follow the leader's commit index as far as the log reaches. */
  function Accepted(m: Node, a: AppendArgs): Node
    requires 0 <= a.prevIndex - m.snapIndex <= |m.logs|
  {
    var logs := Merge(m.logs, a.prevIndex - m.snapIndex, a.entries);
    m.(logs := logs,
       commitIndex := if a.leaderCommit > m.commitIndex
                      then Min(a.leaderCommit, m.snapIndex + |logs|) else m.commitIndex)
  }

  function AppendEntriesStep(n: Node, a: AppendArgs): (Node, AppendReply)
    requires Indexed(n)
  {
    LastIndexIsLength(n);
    if a.term < n.currentTerm then
      (n, AppendReply(n.currentTerm, false, NO_UPDATE))
    else
      var m := Following(n, a.term);
      if a.prevIndex > LastLogIndex(m) then
        (m, AppendReply(m.currentTerm, false, LastLogIndex(m) + 1))
      else if a.prevIndex < m.snapIndex then
        (m, AppendReply(m.currentTerm, false, m.snapIndex + 1))
      else if a.prevTerm != TermAt(m, a.prevIndex) then
        (m, AppendReply(m.currentTerm, false, BackUp(m, a.prevIndex, a.prevIndex)))
      else
        (Accepted(m, a), AppendReply(m.currentTerm, true, 0))
  }

  /** The request passes every check of `AppendEntries1` and reaches the merge. */
  predicate Accepts(n: Node, a: AppendArgs) {
    && a.term >= n.currentTerm
    && InRange(n, a.prevIndex)
    && a.prevTerm == TermAt(n, a.prevIndex)
  }

  /** Of a request, not asserted by the receiver: its entries carry consecutive indices. */
  ghost predicate Contiguous(a: AppendArgs) {
    forall k :: 0 <= k < |a.entries| ==> a.entries[k].index == a.prevIndex + 1 + k
  }

  /** No entry of the request has the index and term of a local entry but another command. */
  ghost predicate NoClash(logs: seq<Entry>, p: nat, entries: seq<Entry>) {
    forall k :: 0 <= k < |entries| && p + k < |logs| && logs[p + k].term == entries[k].term ==> logs[p + k] == entries[k]
  }

  /** The assertions of `AppendEntries1`: indices address the log, equal terms mean equal commands, and
      the merged log still reaches the commit index. */
  ghost predicate AppendAsserts(n: Node, a: AppendArgs) {
    && Indexed(n)
    && (Accepts(n, a) ==>
          var p := a.prevIndex - n.snapIndex;
          && NoClash(n.logs, p, a.entries)
          && n.commitIndex <= n.snapIndex + |Merge(n.logs, p, a.entries)|)
  }

  /** `sendAppendEntries` after the reply arrived; `acks` is the counter shared by one round. */
  function AppendReplyStep(n: Node, server: int, a: AppendArgs, reply: AppendReply, acks: int): (Node, int)
    requires 0 <= server < |n.nextIndex| == |n.matchIndex|
  {
    if reply.term > n.currentTerm then
      (StepDown(n, reply.term), acks)
    else if reply.term < n.currentTerm || n.status != Leader then
      (n, acks)
    else if !reply.success then
      (if reply.updateNext == NO_UPDATE then n
       else n.(nextIndex := n.nextIndex[server := reply.updateNext]), acks)
    else
      var upTo := a.prevIndex + |a.entries|;
      var match' := Max(n.matchIndex[server], upTo);
      var m := n.(matchIndex := n.matchIndex[server := match'], nextIndex := n.nextIndex[server := match' + 1]);
      if acks + 1 < Majority(|n.nextIndex|) then
        (m, acks + 1)
      else if |a.entries| > 0 && a.entries[|a.entries| - 1].term == n.currentTerm then
        (m.(commitIndex := Max(n.commitIndex, upTo)), 0)
      else
        (m, 0)
  }

  /** The reply is counted for its round. */
  predicate CountsAck(n: Node, reply: AppendReply) {
    reply.term == n.currentTerm && n.status == Leader && reply.success
  }

  /** The assertions of `sendAppendEntries`. */
  ghost predicate AppendReplyAsserts(n: Node, server: int, a: AppendArgs, reply: AppendReply, acks: int) {
    && 0 <= server < |n.nextIndex| == |n.matchIndex|
    && (CountsAck(n, reply) ==>
          var m := AppendReplyStep(n, server, a, reply, acks).0;
          m.nextIndex[server] <= LastLogIndex(n) + 1 && m.commitIndex <= LastLogIndex(n))
  }

  // ---------------------------------------------------------------- applying

  /** The assertions of `getApplyLogs`: every index it visits is in memory. */
  ghost predicate ApplyAsserts(n: Node) {
    && Indexed(n)
    && n.commitIndex <= LastLogIndex(n)
    && (n.lastApplied < n.commitIndex ==> n.snapIndex <= n.lastApplied)
  }

  function ApplyBatch(n: Node): seq<ApplyMsg>
    requires ApplyAsserts(n)
  {
    LastIndexIsLength(n);
    if n.lastApplied < n.commitIndex then
      seq(n.commitIndex - n.lastApplied,
          k requires 0 <= k < n.commitIndex - n.lastApplied =>
            CommandMsg(n.logs[n.lastApplied - n.snapIndex + k].command, n.lastApplied + 1 + k))
    else []
  }

  function ApplyStep(n: Node): Node {
    n.(lastApplied := Max(n.lastApplied, n.commitIndex))
  }

  // ---------------------------------------------------------------- compaction

  /** `Snapshot`: the key-value server has saved its state after `index`. */
  function SnapshotStep(n: Node, index: int): Node
    requires Indexed(n) && n.commitIndex <= LastLogIndex(n)
  {
    LastIndexIsLength(n);
    if n.snapIndex >= index || index > n.commitIndex then n
    else n.(snapIndex := index,
            snapTerm := TermAt(n, index),
            logs := n.logs[index - n.snapIndex..],
            commitIndex := Max(n.commitIndex, index),
            lastApplied := Max(n.lastApplied, index))
  }

  /** The snapshot in place of everything up to its index. */
  function Replaced(m: Node, a: SnapshotArgs): Node
    requires Indexed(m) && a.lastIndex > m.snapIndex
  {
    LastIndexIsLength(m);
    m.(logs := if LastLogIndex(m) > a.lastIndex then m.logs[a.lastIndex - m.snapIndex..] else [],
       commitIndex := Max(m.commitIndex, a.lastIndex),
       lastApplied := Max(m.lastApplied, a.lastIndex),
       snapIndex := a.lastIndex,
       snapTerm := a.lastTerm)
  }

  /** `InstallSnapshot`: the leader's snapshot replaces everything up to its index.  The second component
      is what is pushed to the key-value server. */
  function InstallSnapshotStep(n: Node, a: SnapshotArgs): (Node, seq<ApplyMsg>)
    requires Indexed(n)
  {
    LastIndexIsLength(n);
    if a.term < n.currentTerm then (n, [])
    else
      var m := Following(n, a.term);
      if a.lastIndex <= m.snapIndex then (m, [])
      else (Replaced(m, a), [SnapshotMsg(a.data, a.lastTerm, a.lastIndex)])
  }

  /** The rule `leaderUpdateCommitIndex` counts: a majority has matched `index`, whose entry is of the
      current term. */
  ghost predicate MatchRule(n: Node, index: int) {
    && n.snapIndex < index && InRange(n, index)
    && Matched(n.matchIndex, n.me, index, |n.matchIndex|) >= Majority(|n.matchIndex|)
    && TermAt(n, index) == n.currentTerm
  }

  /** Peers below `k` whose match index reached `index`, the node itself counted without looking. */
  function Matched(matchIndex: seq<int>, me: int, index: int, k: nat): nat
    requires k <= |matchIndex|
  {
    if k == 0 then 0
    else Matched(matchIndex, me, index, k - 1) + if k - 1 == me || matchIndex[k - 1] >= index then 1 else 0
  }
}
