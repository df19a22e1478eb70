/** What every handler keeps on one node, log compaction included, and what compaction leaves alone. */
module NodeInvariant {
  import opened RaftTypes
  import opened RaftSteps

  ghost predicate NodeInv(n: Node) {
    && Indexed(n)
    && 0 <= n.snapIndex && (n.snapIndex == 0 ==> n.snapTerm == 0)
    && n.snapIndex <= n.lastApplied <= n.commitIndex <= LastLogIndex(n)
  }

  /** Nothing is taken back. */
  ghost predicate Onward(n: Node, n': Node) {
    && n.currentTerm <= n'.currentTerm && n.commitIndex <= n'.commitIndex
    && n.lastApplied <= n'.lastApplied && n.snapIndex <= n'.snapIndex
  }

  ghost predicate Installs(n: Node, a: SnapshotArgs) {
    a.term >= n.currentTerm && a.lastIndex > n.snapIndex
  }

  /** Everything that can happen to a node, one handler call each. */
  datatype Event =
    | GotVoteRequest(vote: VoteArgs)
    | Timeout
    | GotVoteReply(voteReply: VoteReply, votes: int)
    | GotCommand(command: string)
    | GotEntries(entries: AppendArgs)
    | GotEntriesReply(server: int, sent: AppendArgs, appendReply: AppendReply, acks: int)
    | Applied
    | Compacted(index: int)
    | GotSnapshot(snapshot: SnapshotArgs)

  /** The handler's own assertions: when one fails the process ends and there is no next state.  A request for
      entries comes from a leader besides, so its entries carry consecutive indices
      (`RequestsAreContiguous`); the receiver does not check that. */
  ghost predicate Possible(n: Node, e: Event) {
    match e
    case GotVoteReply(reply, votes) => VoteReplyAsserts(n, reply, votes)
    case GotEntries(a) => AppendAsserts(n, a) && Contiguous(a)
    case GotEntriesReply(server, a, reply, acks) => AppendReplyAsserts(n, server, a, reply, acks)
    case Applied => ApplyAsserts(n)
    case Compacted(_) => Indexed(n) && n.commitIndex <= LastLogIndex(n)
    case GotSnapshot(_) => Indexed(n)
    case _ => true
  }

  ghost function After(n: Node, e: Event): Node
    requires Possible(n, e)
  {
    match e
    case GotVoteRequest(a) => RequestVoteStep(n, a).0
    case Timeout => ElectionStep(n)
    case GotVoteReply(reply, votes) => VoteReplyStep(n, reply, votes).0
    case GotCommand(command) => StartStep(n, command)
    case GotEntries(a) => AppendEntriesStep(n, a).0
    case GotEntriesReply(server, a, reply, acks) => AppendReplyStep(n, server, a, reply, acks).0
    case Applied => ApplyStep(n)
    case Compacted(index) => SnapshotStep(n, index)
    case GotSnapshot(a) => InstallSnapshotStep(n, a).0
  }

  lemma EntriesKeepNodeInv(n: Node, a: AppendArgs)
    requires NodeInv(n) && AppendAsserts(n, a) && Contiguous(a)
    ensures NodeInv(AppendEntriesStep(n, a).0) && Onward(n, AppendEntriesStep(n, a).0)
  {
    LastIndexIsLength(n);
    if Accepts(n, a) {
      var m := Following(n, a.term);
      assert AppendEntriesStep(n, a).0 == Accepted(m, a);
      AcceptedKeepsNodeInv(m, a);
    } else {
      RefusedKeepsNodeInv(n, a);
    }
  }

  lemma RefusedKeepsNodeInv(n: Node, a: AppendArgs)
    requires NodeInv(n) && !Accepts(n, a)
    ensures NodeInv(AppendEntriesStep(n, a).0) && Onward(n, AppendEntriesStep(n, a).0)
  {
    LastIndexIsLength(n);
  }

  lemma AcceptedKeepsNodeInv(m: Node, a: AppendArgs)
    requires NodeInv(m) && Contiguous(a) && InRange(m, a.prevIndex)
    requires 0 <= a.prevIndex - m.snapIndex <= |m.logs|
    requires m.commitIndex <= m.snapIndex + |Merge(m.logs, a.prevIndex - m.snapIndex, a.entries)|
    ensures NodeInv(Accepted(m, a)) && Onward(m, Accepted(m, a))
  {
    var m' := Accepted(m, a);
    assert Indexed(m') by {
      MergeKeepsIndexed(m, a);
    }
    LastIndexIsLength(m');
  }

  lemma MergeKeepsIndexed(n: Node, a: AppendArgs)
    requires Indexed(n) && Contiguous(a) && 0 <= a.prevIndex - n.snapIndex <= |n.logs|
    ensures var logs := Merge(n.logs, a.prevIndex - n.snapIndex, a.entries);
            forall k :: 0 <= k < |logs| ==> logs[k].index == n.snapIndex + 1 + k
  {
  }

  /** That matters: the merge loop appends an entry from beyond the log with whatever index it carries, and only
      the next index keeps the log indexed. */
  lemma AppendKeepsIndexedIff(n: Node, e: Entry)
    requires Indexed(n) && e.index > LastLogIndex(n)
    ensures Indexed(n.(logs := n.logs + [e])) <==> e.index == LastLogIndex(n) + 1
  {
    LastIndexIsLength(n);
    var m := n.(logs := n.logs + [e]);
    assert m.logs[|n.logs|] == e;
  }

  lemma SnapshotKeepsNodeInv(n: Node, index: int)
    requires NodeInv(n)
    ensures NodeInv(SnapshotStep(n, index)) && Onward(n, SnapshotStep(n, index))
  {
    LastIndexIsLength(n);
    LastIndexIsLength(SnapshotStep(n, index));
  }

  lemma ReplacedKeepsNodeInv(m: Node, a: SnapshotArgs)
    requires NodeInv(m) && a.lastIndex > m.snapIndex
    ensures NodeInv(Replaced(m, a)) && Onward(m, Replaced(m, a))
  {
    var m' := Replaced(m, a);
    LastIndexIsLength(m);
    assert Indexed(m');
    LastIndexIsLength(m');
  }

  lemma InstallKeepsNodeInv(n: Node, a: SnapshotArgs)
    requires NodeInv(n)
    ensures NodeInv(InstallSnapshotStep(n, a).0) && Onward(n, InstallSnapshotStep(n, a).0)
  {
    if Installs(n, a) {
      ReplacedKeepsNodeInv(Following(n, a.term), a);
    }
  }

  lemma OthersKeepNodeInv(n: Node, e: Event)
    requires NodeInv(n) && Possible(n, e) && !e.GotEntries? && !e.Compacted? && !e.GotSnapshot?
    ensures NodeInv(After(n, e)) && Onward(n, After(n, e))
  {
    LastIndexIsLength(n);
  }

  /** Every handler keeps the node invariant and takes nothing back. */
  lemma HandlersKeepNodeInv(n: Node, e: Event)
    requires NodeInv(n) && Possible(n, e)
    ensures NodeInv(After(n, e)) && Onward(n, After(n, e))
  {
    match e {
      case GotEntries(a) => EntriesKeepNodeInv(n, a);
      case Compacted(index) => SnapshotKeepsNodeInv(n, index);
      case GotSnapshot(a) => InstallKeepsNodeInv(n, a);
      case _ => OthersKeepNodeInv(n, e);
    }
  }

  /** A run of one node: each state follows from the one before by a possible event. */
  ghost predicate NodeRun(states: seq<Node>, events: seq<Event>, me: int, peers: nat) {
    && |states| == |events| + 1
    && states[0] == InitNode(me, peers)
    && forall k :: 0 <= k < |events| ==> Possible(states[k], events[k]) && states[k + 1] == After(states[k], events[k])
  }

  /** In every state a node reaches without restart, `getApplyLogs`, `Snapshot` and `InstallSnapshot` can
      run whatever their argument, and every index in range is found where the helpers look for it. */
  lemma {:induction false} NodeInvOverRun(states: seq<Node>, events: seq<Event>, me: int, peers: nat, k: nat)
    requires NodeRun(states, events, me, peers) && k < |states|
    ensures NodeInv(states[k]) && Possible(states[k], Applied)
    ensures forall i :: Possible(states[k], Compacted(i))
    ensures forall a :: Possible(states[k], GotSnapshot(a))
    ensures forall i :: InMemory(states[k], i) ==> EntryAt(states[k], i).index == i
    decreases k
  {
    if k > 0 {
      NodeInvOverRun(states, events, me, peers, k - 1);
      HandlersKeepNodeInv(states[k - 1], events[k - 1]);
      assert states[k - 1 + 1] == After(states[k - 1], events[k - 1]);
    }
    LastIndexIsLength(states[k]);
  }

  // ---------------------------------------------------------------- batches

  /** A batch collected from the node as it is brings the command at index i. */
  ghost predicate Brings(n: Node, i: int) {
    ApplyAsserts(n) && exists k :: 0 <= k < |ApplyBatch(n)| && ApplyBatch(n)[k].index == i
  }

  /** The next batch brings exactly what is committed and not applied. */
  lemma BringsIff(n: Node, i: int)
    requires NodeInv(n)
    ensures Brings(n, i) <==> n.lastApplied < i <= n.commitIndex
  {
    var batch := ApplyBatch(n);
    if n.lastApplied < i <= n.commitIndex {
      assert batch[i - n.lastApplied - 1].index == i;
    }
  }

  // ---------------------------------------------------------------- compaction

  predicate InMemory(n: Node, index: int) {
    n.snapIndex < index <= n.snapIndex + |n.logs|
  }

  function EntryAt(n: Node, index: int): Entry
    requires InMemory(n, index)
  {
    n.logs[index - n.snapIndex - 1]
  }

  /** `Snapshot` forgets exactly the indices below the new snapshot point; every other term and command
      answers as before, and the log ends where it ended. */
  lemma SnapshotKeepsVirtualLog(n: Node, index: int)
    requires NodeInv(n)
    ensures var m := SnapshotStep(n, index);
            && LastLogIndex(m) == LastLogIndex(n)
            && (forall i :: InRange(m, i) <==> InRange(n, i) && i >= m.snapIndex)
            && (forall i :: InRange(m, i) ==> TermAt(m, i) == TermAt(n, i))
            && (forall i :: InMemory(m, i) ==> InMemory(n, i) && EntryAt(m, i) == EntryAt(n, i))
            && (n.snapIndex < index <= n.commitIndex <==> m.snapIndex == index && m != n)
  {
    LastIndexIsLength(n);
    LastIndexIsLength(SnapshotStep(n, index));
  }

  /** Compacting twice is compacting once, at the later point. */
  lemma SnapshotsCompose(n: Node, i: int, j: int)
    requires NodeInv(n) && i <= j <= n.commitIndex
    ensures NodeInv(SnapshotStep(n, i))
    ensures SnapshotStep(SnapshotStep(n, i), j) == SnapshotStep(n, j)
  {
    var m := SnapshotStep(n, i);
    SnapshotKeepsNodeInv(n, i);
    LastIndexIsLength(n);
    LastIndexIsLength(m);
    if n.snapIndex < i < j {
      assert m.logs == n.logs[i - n.snapIndex..];
      SliceOfSlice(n.logs, i - n.snapIndex, j - i);
      assert TermAt(m, j) == TermAt(n, j);
    }
  }

  lemma SliceOfSlice(s: seq<Entry>, a: nat, b: nat)
    requires a + b <= |s|
    ensures s[a..][b..] == s[a + b..]
  {
  }

  /** `InstallSnapshot` leaves every entry above the new snapshot point alone, and keeps none that the log
      did not have. */
  lemma InstallKeepsTail(n: Node, a: SnapshotArgs)
    requires NodeInv(n)
    ensures var m := InstallSnapshotStep(n, a).0;
            && NodeInv(m)
            && (forall i :: InMemory(m, i) <==> InMemory(n, i) && i > m.snapIndex)
            && (forall i :: InMemory(m, i) ==> EntryAt(m, i) == EntryAt(n, i))
            && m.snapIndex == (if Installs(n, a) then a.lastIndex else n.snapIndex)
            && LastLogIndex(m) == Max(LastLogIndex(n), m.snapIndex)
  {
    InstallKeepsNodeInv(n, a);
    LastIndexIsLength(n);
    LastIndexIsLength(InstallSnapshotStep(n, a).0);
    if Installs(n, a) {
      ReplacedKeepsTail(Following(n, a.term), a);
    }
  }

  lemma ReplacedKeepsTail(n: Node, a: SnapshotArgs)
    requires Indexed(n) && a.lastIndex > n.snapIndex
    ensures var m := Replaced(n, a);
            && m.snapIndex == a.lastIndex
            && (forall i :: InMemory(m, i) <==> InMemory(n, i) && i > m.snapIndex)
            && (forall i :: InMemory(m, i) ==> EntryAt(m, i) == EntryAt(n, i))
  {
    LastIndexIsLength(n);
  }

  /** At the snapshot point itself the answer is the leader's, so terms are unchanged over the whole range
      exactly when the node held an entry of that term there, or nothing. */
  lemma InstallKeepsTermsIff(n: Node, a: SnapshotArgs)
    requires NodeInv(n)
    ensures (forall i :: InRange(InstallSnapshotStep(n, a).0, i) && InRange(n, i) ==>
               TermAt(InstallSnapshotStep(n, a).0, i) == TermAt(n, i))
       <==> (Installs(n, a) && InRange(n, a.lastIndex) ==> TermAt(n, a.lastIndex) == a.lastTerm)
  {
    LastIndexIsLength(n);
    var m := InstallSnapshotStep(n, a).0;
    InstallKeepsTail(n, a);
    if Installs(n, a) {
      assert InRange(m, a.lastIndex) && TermAt(m, a.lastIndex) == a.lastTerm;
      forall i | InRange(m, i) && InRange(n, i) && i != a.lastIndex
        ensures TermAt(m, i) == TermAt(n, i)
      {
        assert InMemory(m, i);
        assert EntryAt(m, i) == EntryAt(n, i);
      }
    }
  }

  /** The terms do change: a follower of a cluster of three that got two entries from the leader of term 1, neither of
      them committed, and then the snapshot of the leader of term 2, which has committed another entry 1, keeps the old
      entry 2 behind a snapshot point of the other term. */
  lemma InstallChangesATerm()
    ensures var start, a := InitNode(0, 3), AppendArgs(1, 2, 0, 0, [Entry("a", 1, 1), Entry("b", 1, 2)], 0);
            Possible(start, GotEntries(a)) &&
            var n := After(start, GotEntries(a));
            NodeInv(n) &&
            var m := InstallSnapshotStep(n, SnapshotArgs(2, 1, 1, 2, "s")).0;
            InRange(m, 1) && InRange(n, 1) && TermAt(m, 1) != TermAt(n, 1) && m.logs == [Entry("b", 1, 2)]
  {
    var entries := [Entry("a", 1, 1), Entry("b", 1, 2)];
    assert Merge([], 0, entries) == entries;
    HandlersKeepNodeInv(InitNode(0, 3), GotEntries(AppendArgs(1, 2, 0, 0, entries, 0)));
  }
}
