/** class Raft of src/raftCore/raft.cpp: the handlers with their loops, run on the node's fields.

    Each is proved to compute its function in `RaftSteps`, so everything proved about those functions,
    and about the cluster built from them, holds of these loops. */
module RaftNode {
  import opened RaftTypes
  import opened RaftSteps

  /** The integer a round or an election shares between its threads. */
  class Counter {
    var value: int

    constructor (v: int)
      ensures value == v
    {
      value := v;
    }
  }

  /** No peer is sent two requests. */
  ghost predicate DistinctPeers<T>(sent: seq<(int, T)>) {
    forall i, j :: 0 <= i < j < |sent| ==> sent[i].0 != sent[j].0
  }

  /** A round is owed to the peer, and its request. */
  ghost predicate Owed(n: Node, x: (int, AppendArgs)) {
    && x.0 != n.me && HeartBeatAsserts(n, x.0) && SendsEntries(n, x.0) && x.1 == AppendArgsFor(n, x.0)
  }

  /** The requests of a round, to the peers below i. */
  ghost predicate SentBelow(n: Node, sent: seq<(int, AppendArgs)>, i: int) {
    && DistinctPeers(sent) && (forall k :: 0 <= k < |sent| ==> sent[k].0 < i)
    && forall x :: x in sent <==> 0 <= x.0 < i && Owed(n, x)
  }

  lemma SentOne(n: Node, sent: seq<(int, AppendArgs)>, i: int)
    requires SentBelow(n, sent, i) && 0 <= i && i != n.me && HeartBeatAsserts(n, i) && SendsEntries(n, i)
    ensures SentBelow(n, sent + [(i, AppendArgsFor(n, i))], i + 1)
  {
  }

  lemma RequestsEndAlike(n: Node, sent: seq<(int, AppendArgs)>, i: int)
    requires SentBelow(n, sent, i)
    ensures forall x :: x in sent ==> x.1.prevIndex + |x.1.entries| == LastLogIndex(n)
  {
    forall x | x in sent
      ensures x.1.prevIndex + |x.1.entries| == LastLogIndex(n)
    {
      assert Owed(n, x);
      LastIndexIsLength(n);
    }
  }

  /** The peers below i that are due the snapshot. */
  ghost predicate SnapshotsBelow(n: Node, snapshots: seq<int>, i: int)
    requires i <= |n.nextIndex|
  {
    && (forall k, j :: 0 <= k < j < |snapshots| ==> snapshots[k] != snapshots[j])
    && (forall k :: 0 <= k < |snapshots| ==> snapshots[k] < i)
    && forall p :: p in snapshots <==> 0 <= p < i && p != n.me && !SendsEntries(n, p)
  }

  // ---------------------------------------------------------------- the merge, entry by entry

  /** One turn of the merge loop, on the entry that belongs at slice index k: append it, keep what is
      there, or replace the conflicting entry and drop the tail. */
  function MergeOne(logs: seq<Entry>, k: nat, e: Entry): seq<Entry>
    requires k <= |logs|
  {
    if k == |logs| then logs + [e]
    else if logs[k].term != e.term then logs[..k] + [e]
    else logs
  }

  /** Turn by turn the loop computes the closed form, when equal terms mean equal entries. */
  lemma MergeTurn(logs: seq<Entry>, p: nat, entries: seq<Entry>, i: nat)
    requires p <= |logs| && i < |entries| && NoClash(logs, p, entries)
    ensures p + i <= |Merge(logs, p, entries[..i])|
    ensures MergeOne(Merge(logs, p, entries[..i]), p + i, entries[i]) == Merge(logs, p, entries[..i + 1])
  {
    var some, more := entries[..i], entries[..i + 1];
    assert more == some + [entries[i]];
    assert Holds(logs, p, more) <==> Holds(logs, p, some) && p + i < |logs| && logs[p + i] == entries[i];
    if Holds(logs, p, some) {
      assert logs[..p + i] == logs[..p] + some;
      if p + i == |logs| {
        assert logs == logs[..p + i];
      }
    }
  }

  lemma MergeNothing(logs: seq<Entry>, p: nat, entries: seq<Entry>)
    requires p <= |logs|
    ensures Merge(logs, p, entries[..0]) == logs
  {
    assert entries[..0] == [];
  }

  class Raft {
    const me: int
    var currentTerm: int
    var votedFor: int
    var status: Status
    var logs: seq<Entry>
    var commitIndex: int
    var lastApplied: int
    const nextIndex: array<int>
    const matchIndex: array<int>
    var snapIndex: int
    var snapTerm: int
    /** The channel to the key-value server, oldest message first. */
    var applyChan: seq<ApplyMsg>

    ghost predicate Valid()
      reads this
    {
      nextIndex != matchIndex && nextIndex.Length == matchIndex.Length && 0 <= me < nextIndex.Length
    }

    ghost function State(): Node
      reads this, nextIndex, matchIndex
    {
      Node(me, currentTerm, votedFor, status, logs, commitIndex, lastApplied, nextIndex[..], matchIndex[..],
           snapIndex, snapTerm)
    }

    /** `init` without a saved state to read back. */
    constructor (peers: nat, me: int)
      requires 0 <= me < peers
      ensures Valid() && fresh(nextIndex) && fresh(matchIndex)
      ensures State() == InitNode(me, peers) && applyChan == []
    {
      this.me := me;
      currentTerm, votedFor, status, logs := 0, NO_VOTE, Follower, [];
      commitIndex, lastApplied, snapIndex, snapTerm, applyChan := 0, 0, 0, 0, [];
      nextIndex := new int[peers](_ => 0);
      matchIndex := new int[peers](_ => 0);
    }

    // -------------------------------------------------------------- index and term helpers

    method GetLastLogIndexAndTerm() returns (index: int, term: int)
      ensures index == LastLogIndex(State()) && term == LastLogTerm(State())
    {
      if |logs| == 0 {
        index, term := snapIndex, snapTerm;
      } else {
        index, term := logs[|logs| - 1].index, logs[|logs| - 1].term;
      }
    }

    /** The assertions of `getSlicesIndexFromLogIndex` are the requirement; the slice it returns is the
        place of that index. */
    method GetSlicesIndexFromLogIndex(index: int) returns (slice: nat)
      requires Indexed(State()) && snapIndex < index <= LastLogIndex(State())
      ensures slice < |logs| && logs[slice].index == index
    {
      slice := index - snapIndex - 1;
    }

    method GetLogTermFromLogIndex(index: int) returns (term: int)
      requires Indexed(State()) && snapIndex <= index <= LastLogIndex(State())
      ensures term == TermAt(State(), index)
    {
      if index == snapIndex {
        term := snapTerm;
      } else {
        var slice := GetSlicesIndexFromLogIndex(index);
        term := logs[slice].term;
      }
    }

    method GetPrevLogInfo(server: int) returns (index: int, term: int)
      requires Valid() && HeartBeatAsserts(State(), server) && SendsEntries(State(), server)
      ensures index == PrevIndex(State(), server) && InRange(State(), index) && term == TermAt(State(), index)
    {
      LastIndexIsLength(State());
      if nextIndex[server] == snapIndex + 1 {
        index, term := snapIndex, snapTerm;
      } else {
        index := nextIndex[server] - 1;
        var slice := GetSlicesIndexFromLogIndex(index);
        term := logs[slice].term;
      }
    }

    // -------------------------------------------------------------- elections

    method RequestVote(a: VoteArgs) returns (reply: VoteReply)
      requires Valid()
      modifies this
      ensures Valid() && applyChan == old(applyChan)
      ensures State() == RequestVoteStep(old(State()), a).0 && reply == RequestVoteStep(old(State()), a).1
    {
      if a.term < currentTerm {
        reply := VoteReply(currentTerm, Expire, false);
        return;
      }
      if a.term > currentTerm {
        status, currentTerm, votedFor := Follower, a.term, NO_VOTE;
      }
      var lastIndex, lastTerm := GetLastLogIndexAndTerm();
      if !(a.lastLogTerm > lastTerm || (a.lastLogTerm == lastTerm && a.lastLogIndex >= lastIndex)) {
        reply := VoteReply(currentTerm, Voted, false);
      } else if votedFor != NO_VOTE && votedFor != a.candidate {
        reply := VoteReply(currentTerm, Voted, false);
      } else {
        votedFor := a.candidate;
        reply := VoteReply(currentTerm, Normal, true);
      }
    }

    /** One request to every other peer, all alike, and a fresh counter that starts with the own vote. */
    method DoElection() returns (sent: seq<(int, VoteArgs)>, votedNum: Counter)
      requires Valid()
      modifies this
      ensures Valid() && State() == ElectionStep(old(State())) && applyChan == old(applyChan)
      ensures fresh(votedNum) && votedNum.value == 1
      ensures old(status) == Leader ==> sent == []
      ensures DistinctPeers(sent)
      ensures old(status) != Leader ==>
                forall x :: x in sent <==> 0 <= x.0 < nextIndex.Length && x.0 != me && x.1 == VoteArgsOf(State())
    {
      sent := [];
      votedNum := new Counter(1);
      if status != Leader {
        status, currentTerm, votedFor := Candidate, currentTerm + 1, me;
        var i := 0;
        while i < nextIndex.Length
          invariant 0 <= i <= nextIndex.Length
          invariant State() == ElectionStep(old(State())) && applyChan == old(applyChan) && votedNum.value == 1
          invariant DistinctPeers(sent) && forall k :: 0 <= k < |sent| ==> sent[k].0 < i
          invariant forall x :: x in sent <==> 0 <= x.0 < i && x.0 != me && x.1 == VoteArgsOf(State())
        {
          if i != me {
            var lastIndex, lastTerm := GetLastLogIndexAndTerm();
            sent := sent + [(i, VoteArgs(currentTerm, me, lastIndex, lastTerm))];
          }
          i := i + 1;
        }
      }
    }

    method SendRequestVote(reply: VoteReply, votedNum: Counter)
      requires Valid() && VoteReplyAsserts(State(), reply, votedNum.value)
      modifies this, nextIndex, matchIndex, votedNum
      ensures Valid() && applyChan == old(applyChan)
      ensures State() == VoteReplyStep(old(State()), reply, old(votedNum.value)).0
      ensures votedNum.value == VoteReplyStep(old(State()), reply, old(votedNum.value)).1
    {
      ghost var n := State();
      if reply.term > currentTerm {
        status, currentTerm, votedFor := Follower, reply.term, NO_VOTE;
        return;
      } else if reply.term < currentTerm {
        return;
      }
      if !reply.granted {
        return;
      }
      votedNum.value := votedNum.value + 1;
      if votedNum.value >= nextIndex.Length / 2 + 1 {
        votedNum.value := 0;
        status := Leader;
        var last, _ := GetLastLogIndexAndTerm();
        var i := 0;
        while i < nextIndex.Length
          invariant 0 <= i <= nextIndex.Length && votedNum.value == 0 && applyChan == old(applyChan)
          invariant State() == n.(status := Leader, nextIndex := nextIndex[..], matchIndex := matchIndex[..])
          invariant forall j :: 0 <= j < i ==> nextIndex[j] == last + 1 && matchIndex[j] == 0
        {
          nextIndex[i] := last + 1;
          matchIndex[i] := 0;
          i := i + 1;
        }
        assert nextIndex[..] == seq(|n.nextIndex|, _ => LastLogIndex(n) + 1);
        assert matchIndex[..] == seq(|n.matchIndex|, _ => 0);
      }
    }

    // -------------------------------------------------------------- replication

    method Start(command: string) returns (index: int, term: int, isLeader: bool)
      requires Valid()
      modifies this
      ensures Valid() && State() == StartStep(old(State()), command) && applyChan == old(applyChan)
      ensures isLeader == (old(status) == Leader)
      ensures !isLeader ==> index == -1 && term == -1 && State() == old(State())
      ensures isLeader ==> index == LastLogIndex(old(State())) + 1 && term == currentTerm
    {
      if status != Leader {
        return -1, -1, false;
      }
      var last, _ := GetLastLogIndexAndTerm();
      logs := logs + [Entry(command, currentTerm, last + 1)];
      index, term, isLeader := last + 1, currentTerm, true;
    }

    /** One round: a request for every other peer whose next index is still in memory, each ending at the
        same last index, and a fresh counter that starts with the leader itself. */
    method DoHeartBeat() returns (sent: seq<(int, AppendArgs)>, snapshots: seq<int>, appendNums: Counter)
      requires Valid()
      requires status == Leader ==>
                 forall p :: 0 <= p < nextIndex.Length && p != me ==> HeartBeatAsserts(State(), p)
      ensures fresh(appendNums) && appendNums.value == 1
      ensures status != Leader ==> sent == [] && snapshots == []
      ensures DistinctPeers(sent) && forall i, j :: 0 <= i < j < |snapshots| ==> snapshots[i] != snapshots[j]
      ensures status == Leader ==>
                && (forall x :: x in sent <==> 0 <= x.0 < nextIndex.Length && Owed(State(), x))
                && (forall p :: p in snapshots <==> 0 <= p < nextIndex.Length && p != me && !SendsEntries(State(), p))
                && (forall x :: x in sent ==>
                      x.1.prevIndex + |x.1.entries| == LastLogIndex(State()) && x.1.leaderCommit == commitIndex)
    {
      sent, snapshots := [], [];
      appendNums := new Counter(1);
      if status == Leader {
        ghost var n := State();
        var i := 0;
        while i < nextIndex.Length
          invariant 0 <= i <= nextIndex.Length && appendNums.value == 1
          invariant SentBelow(n, sent, i) && SnapshotsBelow(n, snapshots, i)
        {
          if i != me {
            assert HeartBeatAsserts(n, i);
            if nextIndex[i] <= snapIndex {
              snapshots := snapshots + [i];
            } else {
              var args := RequestFor(i);
              SentOne(n, sent, i);
              sent := sent + [(i, args)];
            }
          }
          i := i + 1;
        }
        RequestsEndAlike(n, sent, i);
      }
    }

    method RequestFor(server: int) returns (a: AppendArgs)
      requires Valid() && HeartBeatAsserts(State(), server) && SendsEntries(State(), server)
      ensures a == AppendArgsFor(State(), server)
      ensures a.prevIndex + |a.entries| == LastLogIndex(State()) && a.leaderCommit == commitIndex
    {
      LastIndexIsLength(State());
      var prev, prevTerm := GetPrevLogInfo(server);
      var entries := EntriesAfter(prev);
      a := AppendArgs(currentTerm, me, prev, prevTerm, entries, commitIndex);
    }

    /** The copy loop of `doHeartBeat`: from the slice after `prev` to the end, or the whole log when `prev`
        is the snapshot point. */
    method EntriesAfter(prev: int) returns (entries: seq<Entry>)
      requires Indexed(State()) && snapIndex <= prev <= LastLogIndex(State())
      ensures entries == logs[prev - snapIndex..]
    {
      LastIndexIsLength(State());
      entries := [];
      var j := 0;
      if prev != snapIndex {
        var slice := GetSlicesIndexFromLogIndex(prev);
        j := slice + 1;
      }
      while j < |logs|
        invariant prev - snapIndex <= j <= |logs|
        invariant entries == logs[prev - snapIndex..j]
      {
        entries := entries + [logs[j]];
        j := j + 1;
      }
    }

    /** The opening of both handlers of a leader's requests. */
    method HearLeader(term: int)
      requires Valid()
      modifies this`status, this`currentTerm, this`votedFor
      ensures State() == Following(old(State()), term)
    {
      if term > currentTerm {
        status, currentTerm, votedFor := Follower, term, NO_VOTE;
      }
      status := Follower;
    }

    method AppendEntries1(a: AppendArgs) returns (reply: AppendReply)
      requires Valid() && AppendAsserts(State(), a) && Contiguous(a)
      modifies this
      ensures Valid() && applyChan == old(applyChan)
      ensures State() == AppendEntriesStep(old(State()), a).0 && reply == AppendEntriesStep(old(State()), a).1
    {
      LastIndexIsLength(State());
      if a.term < currentTerm {
        reply := AppendReply(currentTerm, false, NO_UPDATE);
        return;
      }
      HearLeader(a.term);
      var last, _ := GetLastLogIndexAndTerm();
      if a.prevIndex > last {
        reply := AppendReply(currentTerm, false, last + 1);
        return;
      } else if a.prevIndex < snapIndex {
        reply := AppendReply(currentTerm, false, snapIndex + 1);
        return;
      }
      var prevTerm := GetLogTermFromLogIndex(a.prevIndex);
      if a.prevTerm == prevTerm {
        AcceptEntries(a);
        reply := AppendReply(currentTerm, true, 0);
      } else {
        var update := SuggestNext(a.prevIndex);
        reply := AppendReply(currentTerm, false, update);
      }
    }

    /** The accepting branch: merge, then follow the leader's commit index as far as the log reaches. */
    method AcceptEntries(a: AppendArgs)
      requires Valid() && Indexed(State()) && Contiguous(a) && InRange(State(), a.prevIndex)
      requires NoClash(logs, a.prevIndex - snapIndex, a.entries) && a.prevIndex <= snapIndex + |logs|
      modifies this`logs, this`commitIndex
      ensures 0 <= a.prevIndex - snapIndex <= |old(logs)| && State() == Accepted(old(State()), a)
    {
      MergeEntries(a);
      FollowCommit(a.leaderCommit);
    }

    method FollowCommit(leaderCommit: int)
      requires LastLogIndex(State()) == snapIndex + |logs|
      modifies this`commitIndex
      ensures commitIndex == if leaderCommit > old(commitIndex) then Min(leaderCommit, snapIndex + |logs|)
                             else old(commitIndex)
    {
      var reached, _ := GetLastLogIndexAndTerm();
      if leaderCommit > commitIndex {
        commitIndex := if leaderCommit < reached then leaderCommit else reached;
      }
    }

    method MergeEntries(a: AppendArgs)
      requires Indexed(State()) && Contiguous(a) && InRange(State(), a.prevIndex)
      requires NoClash(logs, a.prevIndex - snapIndex, a.entries)
      modifies this`logs
      ensures logs == Merge(old(logs), a.prevIndex - snapIndex, a.entries)
      ensures LastLogIndex(State()) == snapIndex + |logs|
    {
      var i := 0;
      ghost var p, was := a.prevIndex - snapIndex, logs;
      MergeNothing(logs, p, a.entries);
      while i < |a.entries|
        invariant 0 <= i <= |a.entries|
        invariant Indexed(State()) && p + i <= |logs|
        invariant logs == Merge(was, p, a.entries[..i])
      {
        MergeTurn(was, p, a.entries, i);
        MergeEntry(a.entries[i], p + i);
        i := i + 1;
      }
      assert a.entries[..|a.entries|] == a.entries;
      LastIndexIsLength(State());
    }

    /** One turn of the merge loop. */
    method MergeEntry(e: Entry, ghost k: nat)
      requires Indexed(State()) && k <= |logs| && e.index == snapIndex + 1 + k
      modifies this`logs
      ensures logs == MergeOne(old(logs), k, e) && Indexed(State()) && k < |logs|
    {
      LastIndexIsLength(State());
      var last, _ := GetLastLogIndexAndTerm();
      if e.index > last {
        logs := logs + [e];
      } else {
        var slice := GetSlicesIndexFromLogIndex(e.index);
        if logs[slice].term != e.term {
          logs := logs[..slice] + [e];
        }
      }
    }

    /** Back to the first entry of the term found at `prev`. */
    method SuggestNext(prev: int) returns (update: int)
      requires Indexed(State()) && snapIndex <= prev <= LastLogIndex(State())
      ensures update == BackUp(State(), prev, prev)
    {
      LastIndexIsLength(State());
      update := prev;
      var index := prev;
      while index >= snapIndex
        invariant snapIndex - 1 <= index <= prev && update == prev
        invariant index >= snapIndex ==> BackUp(State(), prev, prev) == BackUp(State(), prev, index)
        invariant index < snapIndex ==> BackUp(State(), prev, prev) == prev
      {
        var here := GetLogTermFromLogIndex(index);
        var there := GetLogTermFromLogIndex(prev);
        if here != there {
          update := index + 1;
          break;
        }
        index := index - 1;
      }
    }

    method SendAppendEntries(server: int, a: AppendArgs, reply: AppendReply, appendNums: Counter)
      requires Valid() && AppendReplyAsserts(State(), server, a, reply, appendNums.value)
      modifies this, nextIndex, matchIndex, appendNums
      ensures Valid() && applyChan == old(applyChan)
      ensures State() == AppendReplyStep(old(State()), server, a, reply, old(appendNums.value)).0
      ensures appendNums.value == AppendReplyStep(old(State()), server, a, reply, old(appendNums.value)).1
    {
      ghost var n := State();
      if reply.term > currentTerm {
        status, currentTerm, votedFor := Follower, reply.term, NO_VOTE;
        return;
      } else if reply.term < currentTerm {
        return;
      }
      if status != Leader {
        return;
      }
      if !reply.success {
        if reply.updateNext != NO_UPDATE {
          nextIndex[server] := reply.updateNext;
          assert nextIndex[..] == n.nextIndex[server := reply.updateNext];
        }
      } else {
        appendNums.value := appendNums.value + 1;
        var upTo := a.prevIndex + |a.entries|;
        matchIndex[server] := if matchIndex[server] < upTo then upTo else matchIndex[server];
        nextIndex[server] := matchIndex[server] + 1;
        assert matchIndex[..] == n.matchIndex[server := Max(n.matchIndex[server], upTo)];
        assert nextIndex[..] == n.nextIndex[server := Max(n.matchIndex[server], upTo) + 1];
        if appendNums.value >= nextIndex.Length / 2 + 1 {
          appendNums.value := 0;
          if |a.entries| > 0 && a.entries[|a.entries| - 1].term == currentTerm {
            commitIndex := if commitIndex < upTo then upTo else commitIndex;
          }
        }
      }
    }

    /** The commit rule counted from the match indices: the greatest index the rule allows, or the snapshot
        index when it allows none. */
    method LeaderUpdateCommitIndex()
      requires Valid() && Indexed(State())
      modifies this`commitIndex
      ensures commitIndex == snapIndex || MatchRule(State(), commitIndex)
      ensures forall k :: MatchRule(State(), k) ==> k <= commitIndex
    {
      LastIndexIsLength(State());
      commitIndex := snapIndex;
      var index, _ := GetLastLogIndexAndTerm();
      while index >= snapIndex + 1
        invariant snapIndex <= index <= snapIndex + |logs|
        invariant State() == old(State()).(commitIndex := snapIndex)
        invariant forall k :: MatchRule(old(State()), k) ==> k <= index
      {
        var sum := CountMatched(index);
        var term := GetLogTermFromLogIndex(index);
        if sum >= matchIndex.Length / 2 + 1 && term == currentTerm {
          commitIndex := index;
          break;
        }
        index := index - 1;
      }
      assert forall k :: MatchRule(State(), k) ==> MatchRule(old(State()), k);
    }

    method CountMatched(index: int) returns (sum: int)
      requires Valid()
      ensures sum == Matched(matchIndex[..], me, index, matchIndex.Length)
    {
      sum := 0;
      var i := 0;
      while i < matchIndex.Length
        invariant 0 <= i <= matchIndex.Length && sum == Matched(matchIndex[..], me, index, i)
      {
        if i == me {
          sum := sum + 1;
        } else if matchIndex[i] >= index {
          sum := sum + 1;
        }
        i := i + 1;
      }
    }

    // -------------------------------------------------------------- applying and compaction

    method GetApplyLogs() returns (msgs: seq<ApplyMsg>)
      requires Valid() && ApplyAsserts(State())
      modifies this`lastApplied
      ensures Valid() && State() == ApplyStep(old(State())) && msgs == ApplyBatch(old(State()))
    {
      LastIndexIsLength(State());
      msgs := [];
      ghost var start := lastApplied;
      ghost var batch := ApplyBatch(State());
      while lastApplied < commitIndex
        invariant start <= lastApplied && (start < commitIndex ==> lastApplied <= commitIndex)
        invariant start >= commitIndex ==> lastApplied == start
        invariant |msgs| == lastApplied - start <= |batch| && msgs == batch[..|msgs|]
      {
        lastApplied := lastApplied + 1;
        var slice := GetSlicesIndexFromLogIndex(lastApplied);
        msgs := msgs + [CommandMsg(logs[slice].command, lastApplied)];
      }
    }

    method Snapshot(index: int)
      requires Valid() && Indexed(State()) && commitIndex <= LastLogIndex(State())
      modifies this
      ensures Valid() && State() == SnapshotStep(old(State()), index) && applyChan == old(applyChan)
    {
      LastIndexIsLength(State());
      if snapIndex >= index || index > commitIndex {
        return;
      }
      var slice := GetSlicesIndexFromLogIndex(index);
      var newTerm := logs[slice].term;
      var kept := EntriesBehind(index);
      snapIndex, snapTerm, logs := index, newTerm, kept;
      commitIndex := if commitIndex < index then index else commitIndex;
      lastApplied := if lastApplied < index then index else lastApplied;
    }

    /** The copy loop of `Snapshot`, index by index. */
    method EntriesBehind(index: int) returns (kept: seq<Entry>)
      requires Indexed(State()) && snapIndex <= index <= LastLogIndex(State())
      ensures index - snapIndex <= |logs| && kept == logs[index - snapIndex..]
    {
      LastIndexIsLength(State());
      var last, _ := GetLastLogIndexAndTerm();
      kept := [];
      var i := index + 1;
      while i <= last
        invariant index + 1 <= i <= last + 1
        invariant kept == logs[index - snapIndex..i - 1 - snapIndex]
      {
        var slice := GetSlicesIndexFromLogIndex(i);
        kept := kept + [logs[slice]];
        i := i + 1;
      }
    }

    method InstallSnapshot(a: SnapshotArgs)
      requires Valid() && Indexed(State())
      modifies this
      ensures Valid() && State() == InstallSnapshotStep(old(State()), a).0
      ensures applyChan == old(applyChan) + InstallSnapshotStep(old(State()), a).1
    {
      LastIndexIsLength(State());
      if a.term < currentTerm {
        return;
      }
      HearLeader(a.term);
      if a.lastIndex <= snapIndex {
        return;
      }
      Replace(a);
      applyChan := applyChan + [SnapshotMsg(a.data, a.lastTerm, a.lastIndex)];
    }

    /** The second half of `InstallSnapshot`. */
    method Replace(a: SnapshotArgs)
      requires Valid() && Indexed(State()) && a.lastIndex > snapIndex
      modifies this
      ensures Valid() && State() == Replaced(old(State()), a) && applyChan == old(applyChan)
    {
      LastIndexIsLength(State());
      var last, _ := GetLastLogIndexAndTerm();
      if last > a.lastIndex {
        var slice := GetSlicesIndexFromLogIndex(a.lastIndex);
        logs := logs[slice + 1..];
      } else {
        logs := [];
      }
      commitIndex := if commitIndex < a.lastIndex then a.lastIndex else commitIndex;
      lastApplied := if lastApplied < a.lastIndex then a.lastIndex else lastApplied;
      snapIndex, snapTerm := a.lastIndex, a.lastTerm;
    }
  }
}
