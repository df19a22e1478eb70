/** What the protocol can do: the runs the safety theorems speak of get commands through.  For a cluster of any size from
    two servers on, any of its servers and any command there is a run in which the server is elected and every server
    pushes that command.  A cluster of one never elects: no reply ever comes. */
module Progress {
  import opened RaftTypes
  import opened RaftSteps
  import opened Cluster

  ghost predicate Reachable(c: Cluster, peers: nat) {
    exists run :: Run(run, peers) && run[|run| - 1] == c
  }

  lemma On(c: Cluster, step: Step, peers: nat)
    requires Reachable(c, peers) && Enabled(c, step)
    ensures Reachable(Do(c, step), peers)
  {
    var run :| Run(run, peers) && run[|run| - 1] == c;
    var longer := run + [Do(c, step)];
    assert Next(c, Do(c, step));
    forall k | 0 <= k < |longer| - 1
      ensures Next(longer[k], longer[k + 1])
    {
      if k < |run| - 1 {
        assert longer[k] == run[k] && longer[k + 1] == run[k + 1];
      }
    }
    assert Run(longer, peers) && longer[|longer| - 1] == Do(c, step);
  }

  /** How many of the first k servers are not the server i. */
  function Others(i: nat, k: nat): nat {
    if i < k then k - 1 else k
  }

  // ---------------------------------------------------------------- the election

  function Candidate1(i: nat, p: nat): Node {
    ElectionStep(InitNode(i, p))
  }

  function Elected(i: nat, p: nat): Node {
    Candidate1(i, p).(status := Leader, nextIndex := seq(p, _ => 1), matchIndex := seq(p, _ => 0))
  }

  function Voter(j: nat, p: nat, i: nat): Node {
    InitNode(j, p).(currentTerm := 1, votedFor := i)
  }

  function Ask(to: int, i: nat): VoteReq {
    VoteReq(to, VoteArgs(1, i, 0, 0))
  }

  /** Nothing has been replicated yet. */
  ghost predicate Idle(c: Cluster, p: nat) {
    && |c.nodes| == |c.applied| == p && (forall j :: 0 <= j < p ==> c.applied[j] == [])
    && c.appendReqs == {} && c.appendReplies == {} && c.appendDone == {} && c.appendNums == map[]
  }

  /** The first k servers have been asked for their vote, and it was counted as long as it was needed. */
  ghost predicate Polling(c: Cluster, p: nat, i: nat, k: nat) {
    && Idle(c, p) && i < p && k <= p
    && (forall to :: 0 <= to < p && to != i ==> Ask(to, i) in c.voteReqs)
    && (forall r :: r in c.voteDone ==> r.to < k)
    && (i, 1) in c.votedNum
    && (forall j :: 0 <= j < p && j != i ==> c.nodes[j] == if j < k then Voter(j, p, i) else InitNode(j, p))
    && (c.nodes[i] == Elected(i, p)
        || (c.nodes[i] == Candidate1(i, p) && c.votedNum[(i, 1)] == 1 + Others(i, k) < Majority(p)))
  }

  lemma StartPoll(p: nat, i: nat) returns (c: Cluster)
    requires 2 <= p && i < p
    ensures Reachable(c, p) && Polling(c, p, i, 0)
  {
    var init := InitCluster(p);
    assert Run([init], p);
    On(init, Elect(i), p);
    c := Do(init, Elect(i));
    forall to | 0 <= to < p && to != i
      ensures Ask(to, i) in c.voteReqs
    {
      assert VoteReq(to, VoteArgsOf(Candidate1(i, p))) == Ask(to, i);
    }
  }

  lemma VoterGrants(k: nat, p: nat, i: nat)
    ensures RequestVoteStep(InitNode(k, p), Ask(k, i).args) == (Voter(k, p, i), VoteReply(1, Normal, true))
  {
  }

  /** The k-th server has given its vote, and its answer is on the way. */
  ghost predicate Voted(c: Cluster, d: Cluster, p: nat, i: nat, k: nat)
    requires k < |c.nodes|
  {
    && d == c.(nodes := c.nodes[k := Voter(k, p, i)], voteReplies := d.voteReplies)
    && (Ask(k, i), VoteReply(1, Normal, true)) in d.voteReplies
  }

  lemma PollOne(c: Cluster, p: nat, i: nat, k: nat) returns (c': Cluster)
    requires Reachable(c, p) && Polling(c, p, i, k) && k < p && k != i
    ensures Reachable(c', p) && Polling(c', p, i, k + 1)
  {
    VoterGrants(k, p, i);
    On(c, Vote(Ask(k, i)), p);
    c' := Do(c, Vote(Ask(k, i)));
    assert Voted(c, c', p, i, k);
    if c.nodes[i] == Elected(i, p) {
      VotedIsPolled(c, c', p, i, k);
    } else {
      c' := CountOne(c, c', p, i, k);
    }
  }

  lemma VotedIsPolled(c: Cluster, d: Cluster, p: nat, i: nat, k: nat)
    requires Polling(c, p, i, k) && k < p && k != i && Voted(c, d, p, i, k) && c.nodes[i] == Elected(i, p)
    ensures Polling(d, p, i, k + 1)
  {
  }

  lemma CountOne(c: Cluster, d: Cluster, p: nat, i: nat, k: nat) returns (c': Cluster)
    requires Reachable(d, p) && Polling(c, p, i, k) && k < p && k != i && Voted(c, d, p, i, k)
    requires c.nodes[i] != Elected(i, p)
    ensures Reachable(c', p) && Polling(c', p, i, k + 1)
  {
    var r, reply := Ask(k, i), VoteReply(1, Normal, true);
    VoteCounts(i, p, c.votedNum[(i, 1)]);
    assert r !in d.voteDone && d.nodes[i] == Candidate1(i, p);
    On(d, VoteBack(r, reply), p);
    c' := Do(d, VoteBack(r, reply));
    CountedIsPolled(c, d, c', p, i, k);
  }

  lemma CountedIsPolled(c: Cluster, d: Cluster, c': Cluster, p: nat, i: nat, k: nat)
    requires Polling(c, p, i, k) && k < p && k != i && Voted(c, d, p, i, k) && c.nodes[i] == Candidate1(i, p)
    requires var (n, votes) := VoteReplyStep(c.nodes[i], VoteReply(1, Normal, true), c.votedNum[(i, 1)]);
             c' == d.(nodes := d.nodes[i := n], voteDone := d.voteDone + {Ask(k, i)}, votedNum := d.votedNum[(i, 1) := votes])
    requires c.votedNum[(i, 1)] == 1 + Others(i, k)
    ensures Polling(c', p, i, k + 1)
  {
    VoteCounts(i, p, c.votedNum[(i, 1)]);
  }

  lemma VoteCounts(i: nat, p: nat, votes: int)
    ensures VoteReplyStep(Candidate1(i, p), VoteReply(1, Normal, true), votes) ==
            if votes + 1 >= Majority(p) then (Elected(i, p), 0) else (Candidate1(i, p), votes + 1)
  {
    assert seq(p, _ => LastLogIndex(Candidate1(i, p)) + 1) == seq(p, _ => 1);
  }

  lemma {:induction false} PollAll(c: Cluster, p: nat, i: nat, k: nat) returns (c': Cluster)
    requires Reachable(c, p) && Polling(c, p, i, k)
    ensures Reachable(c', p) && Polling(c', p, i, p)
    decreases p - k
  {
    if k == p {
      c' := c;
    } else {
      var d := c;
      if k != i {
        d := PollOne(c, p, i, k);
      }
      c' := PollAll(d, p, i, k + 1);
    }
  }

  // ---------------------------------------------------------------- the first round

  function First(command: string): Entry {
    Entry(command, 1, 1)
  }

  function Brought(to: int, i: nat, command: string): AppendReq {
    AppendReq(to, 0, AppendArgs(1, i, 0, 0, [First(command)], 0))
  }

  /** The leader with its entry, whatever it knows of its peers. */
  ghost predicate Leading(l: Node, p: nat, i: nat, command: string) {
    && l.me == i && l.status == Leader && l.currentTerm == 1 && l.logs == [First(command)]
    && l.snapIndex == l.snapTerm == l.lastApplied == 0 && 0 <= l.commitIndex <= 1
    && |l.nextIndex| == |l.matchIndex| == p
    && (forall j :: 0 <= j < p ==> 1 <= l.nextIndex[j] <= 2 && 0 <= l.matchIndex[j] <= 1)
  }

  function Holder(j: nat, p: nat, i: nat, command: string): Node {
    Voter(j, p, i).(logs := [First(command)])
  }

  /** The first k servers have got the entry, and it was acknowledged as long as it was needed. */
  ghost predicate Copying(c: Cluster, p: nat, i: nat, k: nat, command: string) {
    && |c.nodes| == |c.applied| == p && (forall j :: 0 <= j < p ==> c.applied[j] == []) && i < p && k <= p
    && (forall to :: 0 <= to < p && to != i ==> Brought(to, i, command) in c.appendReqs)
    && (forall r :: r in c.appendDone ==> r.to < k)
    && c.appendNums.Keys == {0}
    && (forall j :: 0 <= j < p && j != i ==> c.nodes[j] == if j < k then Holder(j, p, i, command) else Voter(j, p, i))
    && Leading(c.nodes[i], p, i, command)
    && (c.nodes[i].commitIndex == 1 || c.appendNums[0] == 1 + Others(i, k) < Majority(p))
  }

  /** The leader has taken the command into its log and asked nobody yet. */
  ghost predicate Taken(c: Cluster, p: nat, i: nat, command: string) {
    && Idle(c, p) && i < p
    && (forall j :: 0 <= j < p && j != i ==> c.nodes[j] == Voter(j, p, i))
    && c.nodes[i] == Elected(i, p).(logs := [First(command)])
  }

  lemma TakeCommand(c: Cluster, p: nat, i: nat, command: string) returns (c': Cluster)
    requires Reachable(c, p) && Polling(c, p, i, p) && 2 <= p
    ensures Reachable(c', p) && Taken(c', p, i, command)
  {
    assert c.nodes[i] == Elected(i, p);
    On(c, Command(i, command), p);
    c' := Do(c, Command(i, command));
    CommandIsFirst(i, p, command);
  }

  lemma StartCopy(c: Cluster, p: nat, i: nat, command: string) returns (c': Cluster)
    requires Reachable(c, p) && Taken(c, p, i, command) && 2 <= p
    ensures Reachable(c', p) && Copying(c', p, i, 0, command)
  {
    FirstRequests(c.nodes[i], p, i, command);
    On(c, Beat(i, 0), p);
    c' := Do(c, Beat(i, 0));
    FirstRound(c, p, i, command);
    FirstRoundIsOut(c, c', p, i, command);
  }

  lemma FirstRound(c: Cluster, p: nat, i: nat, command: string)
    requires Taken(c, p, i, command)
    ensures forall to :: 0 <= to < p && to != i ==> Brought(to, i, command) in RoundOf(c.nodes[i], i, p, 0)
  {
    var l := c.nodes[i];
    FirstRequests(l, p, i, command);
    forall to | 0 <= to < p && to != i
      ensures Brought(to, i, command) in RoundOf(l, i, p, 0)
    {
      assert AppendReq(to, 0, AppendArgsFor(l, to)) in RoundOf(l, i, p, 0);
    }
  }

  lemma FirstRoundIsOut(c: Cluster, c': Cluster, p: nat, i: nat, command: string)
    requires Taken(c, p, i, command) && 2 <= p
    requires c' == c.(appendReqs := c'.appendReqs, appendNums := map[0 := 1])
    requires forall to :: 0 <= to < p && to != i ==> Brought(to, i, command) in c'.appendReqs
    ensures Copying(c', p, i, 0, command)
  {
    FirstRequests(c.nodes[i], p, i, command);
  }

  lemma CommandIsFirst(i: nat, p: nat, command: string)
    ensures StartStep(Elected(i, p), command) == Elected(i, p).(logs := [First(command)])
  {
    assert [] + [First(command)] == [First(command)];
  }

  lemma FirstRequests(l: Node, p: nat, i: nat, command: string)
    requires l == Elected(i, p).(logs := [First(command)])
    ensures Leading(l, p, i, command)
    ensures forall to :: 0 <= to < p ==>
              HeartBeatAsserts(l, to) && SendsEntries(l, to) && AppendReq(to, 0, AppendArgsFor(l, to)) == Brought(to, i, command)
  {
  }

  lemma VoterAccepts(k: nat, p: nat, i: nat, command: string)
    ensures var n, a := Voter(k, p, i), Brought(k, i, command).args;
            AppendAsserts(n, a)
            && AppendEntriesStep(n, a) == (Holder(k, p, i, command), AppendReply(1, true, 0))
  {
    assert Merge([], 0, [First(command)]) == [First(command)];
  }

  lemma AckCounts(l: Node, p: nat, i: nat, k: nat, command: string, acks: int)
    requires Leading(l, p, i, command) && k < p
    ensures var a, reply := Brought(k, i, command).args, AppendReply(1, true, 0);
            && AppendReplyAsserts(l, k, a, reply, acks)
            && var (l', acks') := AppendReplyStep(l, k, a, reply, acks);
               && Leading(l', p, i, command)
               && if acks + 1 >= Majority(p) then l'.commitIndex == 1 else l'.commitIndex == l.commitIndex && acks' == acks + 1
  {
  }

  /** The k-th server has got the entry, and its answer is on the way. */
  ghost predicate Received(c: Cluster, d: Cluster, p: nat, i: nat, k: nat, command: string)
    requires k < |c.nodes|
  {
    && d == c.(nodes := c.nodes[k := Holder(k, p, i, command)], appendReplies := d.appendReplies)
    && (Brought(k, i, command), AppendReply(1, true, 0)) in d.appendReplies
  }

  lemma CopyOne(c: Cluster, p: nat, i: nat, k: nat, command: string) returns (c': Cluster)
    requires Reachable(c, p) && Copying(c, p, i, k, command) && k < p && k != i
    ensures Reachable(c', p) && Copying(c', p, i, k + 1, command)
  {
    var r := Brought(k, i, command);
    VoterAccepts(k, p, i, command);
    On(c, Append(r), p);
    c' := Do(c, Append(r));
    assert Received(c, c', p, i, k, command);
    if c.nodes[i].commitIndex == 1 {
      ReceivedIsCopied(c, c', p, i, k, command);
    } else {
      c' := AckOne(c, c', p, i, k, command);
    }
  }

  lemma ReceivedIsCopied(c: Cluster, d: Cluster, p: nat, i: nat, k: nat, command: string)
    requires Copying(c, p, i, k, command) && k < p && k != i && Received(c, d, p, i, k, command)
    requires c.nodes[i].commitIndex == 1
    ensures Copying(d, p, i, k + 1, command)
  {
  }

  lemma AckOne(c: Cluster, d: Cluster, p: nat, i: nat, k: nat, command: string) returns (c': Cluster)
    requires Reachable(d, p) && Copying(c, p, i, k, command) && k < p && k != i && Received(c, d, p, i, k, command)
    requires c.nodes[i].commitIndex != 1
    ensures Reachable(c', p) && Copying(c', p, i, k + 1, command)
  {
    var r, reply := Brought(k, i, command), AppendReply(1, true, 0);
    AckCounts(c.nodes[i], p, i, k, command, c.appendNums[0]);
    assert r !in d.appendDone && d.nodes[i] == c.nodes[i];
    On(d, AppendBack(r, reply), p);
    c' := Do(d, AppendBack(r, reply));
    AckedIsCopied(c, d, c', p, i, k, command);
  }

  lemma AckedIsCopied(c: Cluster, d: Cluster, c': Cluster, p: nat, i: nat, k: nat, command: string)
    requires Copying(c, p, i, k, command) && k < p && k != i && Received(c, d, p, i, k, command)
    requires c.nodes[i].commitIndex != 1
    requires var (l', acks') :=
               AppendReplyStep(c.nodes[i], k, Brought(k, i, command).args, AppendReply(1, true, 0), c.appendNums[0]);
             c' == d.(nodes := d.nodes[i := l'], appendDone := d.appendDone + {Brought(k, i, command)},
                      appendNums := d.appendNums[0 := acks'])
    ensures Copying(c', p, i, k + 1, command)
  {
    AckCounts(c.nodes[i], p, i, k, command, c.appendNums[0]);
  }

  lemma {:induction false} CopyAll(c: Cluster, p: nat, i: nat, k: nat, command: string) returns (c': Cluster)
    requires Reachable(c, p) && Copying(c, p, i, k, command)
    ensures Reachable(c', p) && Copying(c', p, i, p, command)
    decreases p - k
  {
    if k == p {
      c' := c;
    } else {
      var d := c;
      if k != i {
        d := CopyOne(c, p, i, k, command);
      }
      c' := CopyAll(d, p, i, k + 1, command);
    }
  }

  // ---------------------------------------------------------------- the second round

  /** The leader has committed and applied, and the first k servers have heard of it and applied too. */
  ghost predicate Spreading(c: Cluster, p: nat, i: nat, k: nat, command: string, l: Node) {
    && |c.nodes| == |c.applied| == p && i < p && k <= p
    && Leading(l, p, i, command) && l.commitIndex == 1
    && (forall to :: 0 <= to < p && to != i ==>
          HeartBeatAsserts(l, to) && SendsEntries(l, to) && AppendReq(to, 1, AppendArgsFor(l, to)) in c.appendReqs)
    && c.applied[i] == [CommandMsg(command, 1)] && c.nodes[i].status == Leader
    && (forall j :: 0 <= j < p && j != i ==>
          if j < k then c.applied[j] == [CommandMsg(command, 1)]
          else c.applied[j] == [] && c.nodes[j] == Holder(j, p, i, command))
  }

  lemma CommittedApplies(n: Node, command: string)
    requires n.logs == [First(command)] && n.snapIndex == 0 && n.lastApplied == 0 && n.commitIndex == 1
    ensures ApplyAsserts(n) && ApplyBatch(n) == [CommandMsg(command, 1)]
  {
  }

  lemma HeardApplies(d: Cluster, n: Node, p: nat, k: nat, command: string) returns (c': Cluster)
    requires Reachable(d, p) && d.Has(k) && k < |d.applied| && d.nodes[k] == n && d.applied[k] == []
    requires n.logs == [First(command)] && n.snapIndex == 0 && n.lastApplied == 0 && n.commitIndex == 1
    ensures Reachable(c', p) && c'.appendReqs == d.appendReqs
    ensures |c'.nodes| == |d.nodes| && c'.nodes == d.nodes[k := n.(lastApplied := 1)]
    ensures c'.appendNums == d.appendNums
    ensures c'.applied == d.applied[k := [CommandMsg(command, 1)]]
  {
    CommittedApplies(n, command);
    On(d, Apply(k), p);
    c' := Do(d, Apply(k));
    assert [] + [CommandMsg(command, 1)] == [CommandMsg(command, 1)];
  }

  lemma StartSpread(c: Cluster, p: nat, i: nat, command: string) returns (c': Cluster, l: Node)
    requires Reachable(c, p) && Copying(c, p, i, p, command) && 2 <= p
    ensures Reachable(c', p) && Spreading(c', p, i, 0, command, l)
  {
    l := c.nodes[i];
    CommittedByAll(c, p, i, command);
    var d := HeardApplies(c, l, p, i, command);
    var m := d.nodes[i];
    RequestsAfterApply(l, m, p, i, command);
    On(d, Beat(i, 1), p);
    c' := Do(d, Beat(i, 1));
    forall to | 0 <= to < p && to != i
      ensures AppendReq(to, 1, AppendArgsFor(l, to)) in c'.appendReqs
    {
      assert AppendReq(to, 1, AppendArgsFor(m, to)) in RoundOf(m, i, p, 1);
    }
    assert forall j :: 0 <= j < p && j != i ==> c'.nodes[j] == c.nodes[j] && c'.applied[j] == c.applied[j];
  }

  lemma CommittedByAll(c: Cluster, p: nat, i: nat, command: string)
    requires Copying(c, p, i, p, command) && 2 <= p
    ensures c.nodes[i].commitIndex == 1
  {
  }

  lemma RequestsAfterApply(l: Node, m: Node, p: nat, i: nat, command: string)
    requires Leading(l, p, i, command) && m == l.(lastApplied := 1)
    ensures forall to :: 0 <= to < p ==>
              && HeartBeatAsserts(l, to) && SendsEntries(l, to) && HeartBeatAsserts(m, to) && SendsEntries(m, to)
              && AppendArgsFor(m, to) == AppendArgsFor(l, to)
  {
  }

  lemma HolderHears(l: Node, k: nat, p: nat, i: nat, command: string)
    requires Leading(l, p, i, command) && l.commitIndex == 1 && k < p
    requires HeartBeatAsserts(l, k) && SendsEntries(l, k)
    ensures var n, a := Holder(k, p, i, command), AppendArgsFor(l, k);
            AppendAsserts(n, a) && AppendEntriesStep(n, a).0 == n.(commitIndex := 1)
  {
    var n, a := Holder(k, p, i, command), AppendArgsFor(l, k);
    if l.nextIndex[k] == 1 {
      assert a.entries == [First(command)];
    } else {
      assert a.entries == [];
    }
    assert Holds(n.logs, a.prevIndex, a.entries);
  }

  lemma SpreadOne(c: Cluster, p: nat, i: nat, k: nat, command: string, l: Node) returns (c': Cluster)
    requires Reachable(c, p) && Spreading(c, p, i, k, command, l) && k < p && k != i
    ensures Reachable(c', p) && Spreading(c', p, i, k + 1, command, l)
  {
    var n, r := Holder(k, p, i, command).(commitIndex := 1), AppendReq(k, 1, AppendArgsFor(l, k));
    HolderHears(l, k, p, i, command);
    On(c, Append(r), p);
    var d := Do(c, Append(r));
    assert d.nodes == c.nodes[k := n] && d.appendReqs == c.appendReqs && d.applied == c.applied;
    c' := HeardApplies(d, n, p, k, command);
    assert forall j :: 0 <= j < p && j != k ==> c'.nodes[j] == c.nodes[j] && c'.applied[j] == c.applied[j];
  }

  lemma {:induction false} SpreadAll(c: Cluster, p: nat, i: nat, k: nat, command: string, l: Node) returns (c': Cluster)
    requires Reachable(c, p) && Spreading(c, p, i, k, command, l)
    ensures Reachable(c', p) && Spreading(c', p, i, p, command, l)
    decreases p - k
  {
    if k == p {
      c' := c;
    } else {
      var d := c;
      if k != i {
        d := SpreadOne(c, p, i, k, command, l);
      }
      c' := SpreadAll(d, p, i, k + 1, command, l);
    }
  }

  /** Any server of any cluster of two or more can be elected, and any command can get through to all of them. */
  lemma ACommandGetsThrough(p: nat, i: nat, command: string) returns (run: seq<Cluster>, c: Cluster)
    requires 2 <= p && i < p
    ensures Run(run, p) && run[|run| - 1] == c && |c.nodes| == |c.applied| == p && c.nodes[i].status == Leader
    ensures forall j :: 0 <= j < p ==> c.applied[j] == [CommandMsg(command, 1)]
  {
    c := StartPoll(p, i);
    c := PollAll(c, p, i, 0);
    c := TakeCommand(c, p, i, command);
    c := StartCopy(c, p, i, command);
    c := CopyAll(c, p, i, 0, command);
    var l;
    c, l := StartSpread(c, p, i, command);
    c := SpreadAll(c, p, i, 0, command, l);
    run :| Run(run, p) && run[|run| - 1] == c;
  }
}
