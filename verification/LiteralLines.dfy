/** Three lines of raft.cpp that contradict their own comments or their sibling lines; a fourth, line 41, is the
    subject of `LiteralNegotiation`.

    The rest of the model follows the stated intent.  Here each line is taken as it is written: what is lost by it,
    for which inputs exactly, and an input on which it is. */
module LiteralLines {
  import opened RaftTypes
  import opened RaftSteps
  import opened RaftNode
  import opened NodeInvariant
  import C = Cluster
  import I = Invariant
  import H = History
  import S = RaftSafety

  // ---------------------------------------------------------------- raft.cpp:70-71, a term as subscript

  datatype Turn = Merged(logs: seq<Entry>) | OutOfBounds

  /** The conflict branch as written: the *term* found at the entry's slice is used as the subscript, and
      only the term there is overwritten. */
  function LiteralTurn(logs: seq<Entry>, k: nat, e: Entry): Turn
    requires k < |logs|
  {
    var t := logs[k].term;
    if !(0 <= t < |logs|) then OutOfBounds
    else if logs[t].term != e.term then Merged(logs[t := logs[t].(term := e.term)])
    else Merged(logs)
  }

  /** As written a turn does what it should exactly when the term happens to be a subscript of the log and
      either nothing conflicts there, or it is the subscript meant, of the last entry, and the two entries
      differ in nothing but the term. */
  lemma LiteralTurnIff(logs: seq<Entry>, k: nat, e: Entry)
    requires k < |logs|
    ensures LiteralTurn(logs, k, e) == Merged(MergeOne(logs, k, e)) <==>
              var t := logs[k].term;
              && 0 <= t < |logs|
              && (t == e.term ==> logs[t].term == e.term)
              && (t != e.term ==> t == k && k + 1 == |logs| && logs[k].(term := e.term) == e)
  {
    var t := logs[k].term;
    if 0 <= t < |logs| && t != e.term {
      var cut := logs[..k] + [e];
      assert |cut| == k + 1 && cut[k] == e;
      if t == k && k + 1 == |logs| && logs[k].(term := e.term) == e {
        assert logs[k := e] == cut;
      }
    }
  }

  /** After a conflict as written, leader and follower hold the same index and term with different
      commands: log matching is gone.  The intended turn keeps it. */
  lemma LiteralTurnBreaksLogMatching()
    ensures exists logs: seq<Entry>, k: nat, e: Entry :: k < |logs| && logs[k].index == e.index && LiteralTurn(logs, k, e).Merged?
              && k < |LiteralTurn(logs, k, e).logs|
              && LiteralTurn(logs, k, e).logs[k].term == e.term && LiteralTurn(logs, k, e).logs[k] != e
              && MergeOne(logs, k, e)[k] == e
  {
    var logs, e := [Entry("a", 1, 1), Entry("b", 1, 2)], Entry("c", 2, 2);
    assert LiteralTurn(logs, 1, e) == Merged([Entry("a", 1, 1), Entry("b", 2, 2)]);
    assert logs[1].index == e.index;
  }

  // ---------------------------------------------------------------- raft.cpp:649, the term of the *request*

  function LiteralStepDown(n: Node, a: AppendArgs): Node {
    StepDown(n, a.term)
  }

  /** A node that steps down on a reply of a later term grants no vote in the term it leaves.  As written, going to the
      term of its own request, it grants one to any candidate of that term whose log is up to date, voted for
      before or not, if and only if the request is not of a later term. */
  lemma StepDownGrantsIff(n: Node, a: AppendArgs, reply: AppendReply, v: VoteArgs)
    requires reply.term > n.currentTerm && v.term == n.currentTerm
    ensures !RequestVoteStep(StepDown(n, reply.term), v).1.granted
    ensures RequestVoteStep(LiteralStepDown(n, a), v).1.granted <==>
            a.term <= n.currentTerm && UpToDate(n, v.lastLogIndex, v.lastLogTerm)
  {
  }

  /** No request is of a later term than its sender: in every state of every run the vote is forgotten whenever such a
      reply is handled, and a second one is granted to whoever asks with a log that is up to date. */
  lemma LiteralStepDownForgets(run: seq<C.Cluster>, peers: nat, c: C.Cluster, r: C.AppendReq, reply: AppendReply,
                               v: VoteArgs)
    requires C.Run(run, peers) && c == run[|run| - 1] && C.CanAppendBack(c, r, reply)
    requires var n := c.nodes[r.args.leader];
             reply.term > n.currentTerm == v.term && UpToDate(n, v.lastLogIndex, v.lastLogTerm)
    ensures RequestVoteStep(LiteralStepDown(c.nodes[r.args.leader], r.args), v).1.granted
  {
    var h := S.RunHistory(run, peers);
    var n := c.nodes[r.args.leader];
    assert (r, reply).0 in c.appendReqs && I.AppendReqOk(h, peers, r);
    assert I.NodeOk(n, c.applied[r.args.leader], h, peers, r.args.leader);
    var w := h.elected[r.args.term];
    assert H.ElectedOk(h, peers, r.args.term);
    assert H.Backs(h, w.leader, r.args.term, w.leader, w.log);
    StepDownGrantsIff(n, r.args, reply, v);
  }

  /** A leader that steps down as written, on a reply of a later term, votes again, for another candidate, in the
      term it was elected in. */
  lemma LiteralStepDownVotesTwice()
    ensures var n := Node(0, 2, 0, Leader, [], 0, 0, [1, 1, 1], [0, 0, 0], 0, 0);
            var a, reply := AppendArgs(2, 0, 0, 0, [], 0), AppendReply(3, false, NO_UPDATE);
            var v := VoteArgs(2, 1, 0, 0);
            && n.status == Leader && n.votedFor == n.me && a.term == n.currentTerm && reply.term > n.currentTerm
            && v.term == n.currentTerm && v.candidate != n.me
            && RequestVoteStep(LiteralStepDown(n, a), v).1.granted
            && !RequestVoteStep(AppendReplyStep(n, 1, a, reply, 1).0, v).1.granted
  {
  }

  // ---------------------------------------------------------------- raft.cpp:859, applied up to *commit*

  function LiteralSnapshotStep(n: Node, index: int): Node
    requires Indexed(n) && n.commitIndex <= LastLogIndex(n)
  {
    var m := SnapshotStep(n, index);
    if n.snapIndex >= index || index > n.commitIndex then m
    else m.(lastApplied := Max(m.commitIndex, index))
  }

  /** The handlers with that line as written. */
  ghost function LiteralAfter(n: Node, e: Event): Node
    requires Possible(n, e)
  {
    if e.Compacted? then LiteralSnapshotStep(n, e.index) else After(n, e)
  }

  ghost predicate LiteralRun(n: Node, states: seq<Node>, events: seq<Event>) {
    && |states| == |events| + 1 && states[0] == n
    && forall k :: 0 <= k < |events| ==> HappensAt(states, events, k)
  }

  ghost predicate HappensAt(states: seq<Node>, events: seq<Event>, k: int)
    requires 0 <= k < |events| && |states| == |events| + 1
  {
    Possible(states[k], events[k]) && states[k + 1] == LiteralAfter(states[k], events[k])
  }

  /** Whatever happens to the node later, no batch brings the command at index i. */
  ghost predicate NeverPushed(n: Node, i: int) {
    forall states, events :: LiteralRun(n, states, events) ==> !Brings(states[|states| - 1], i)
  }

  lemma LiteralStepForward(n: Node, e: Event)
    requires NodeInv(n) && Possible(n, e)
    ensures NodeInv(LiteralAfter(n, e)) && LiteralAfter(n, e).lastApplied >= n.lastApplied
  {
    HandlersKeepNodeInv(n, e);
    if e.Compacted? {
      var m := LiteralSnapshotStep(n, e.index);
      assert m.logs == SnapshotStep(n, e.index).logs;
    }
  }

  lemma {:induction false} AppliedStays(n: Node, states: seq<Node>, events: seq<Event>)
    requires NodeInv(n) && LiteralRun(n, states, events)
    ensures NodeInv(states[|states| - 1]) && states[|states| - 1].lastApplied >= n.lastApplied
    decreases |events|
  {
    if events != [] {
      var k := |events| - 1;
      RunBefore(n, states, events);
      AppliedStays(n, states[..k + 1], events[..k]);
      LiteralStepForward(states[k], events[k]);
    }
  }

  lemma RunBefore(n: Node, states: seq<Node>, events: seq<Event>)
    requires LiteralRun(n, states, events) && events != []
    ensures var k := |events| - 1;
            LiteralRun(n, states[..k + 1], events[..k]) && HappensAt(states, events, k)
  {
    var k := |events| - 1;
    var few, most := states[..k + 1], events[..k];
    forall j | 0 <= j < |most|
      ensures HappensAt(few, most, j)
    {
      assert HappensAt(states, events, j);
    }
  }

  /** What the node still owes its key-value server after a compaction, the entries committed, not applied and not in
      the snapshot: as intended the next batch brings each; as written each is in no later batch, if and only
      if the compaction takes place. */
  lemma LiteralSnapshotLosesIff(n: Node, index: int, i: int)
    requires NodeInv(n) && Max(n.lastApplied, SnapshotStep(n, index).snapIndex) < i <= n.commitIndex
    ensures Brings(SnapshotStep(n, index), i)
    ensures NeverPushed(LiteralSnapshotStep(n, index), i) <==> n.snapIndex < index <= n.commitIndex
  {
    var m := LiteralSnapshotStep(n, index);
    SnapshotKeepsNodeInv(n, index);
    BringsIff(SnapshotStep(n, index), i);
    LiteralStepForward(n, Compacted(index));
    if n.snapIndex < index <= n.commitIndex {
      forall states, events | LiteralRun(m, states, events)
        ensures !Brings(states[|states| - 1], i)
      {
        AppliedStays(m, states, events);
        BringsIff(states[|states| - 1], i);
      }
    } else {
      assert LiteralRun(m, [m], []);
      assert Brings([m][|[m]| - 1], i);
    }
  }

  /** So something is lost if and only if the compaction takes place and leaves something owed. */
  lemma LiteralSnapshotIsSafeIff(n: Node, index: int)
    requires NodeInv(n)
    ensures LiteralSnapshotStep(n, index) == SnapshotStep(n, index) <==>
            !(n.snapIndex < index <= n.commitIndex) || Max(n.lastApplied, index) == n.commitIndex
    ensures LiteralSnapshotStep(n, index) != SnapshotStep(n, index) ==>
              NeverPushed(LiteralSnapshotStep(n, index), n.commitIndex) && Brings(SnapshotStep(n, index), n.commitIndex)
  {
    if LiteralSnapshotStep(n, index) != SnapshotStep(n, index) {
      LiteralSnapshotLosesIff(n, index, n.commitIndex);
    }
  }

  // ---------------------------------------------------------------- a follower that loses a command

  const A := Entry("a", 1, 1)
  const B := Entry("b", 1, 2)
  const FIRST := AppendArgs(1, 0, 0, 0, [A, B], 1)
  const SECOND := AppendArgs(1, 0, 2, 1, [], 2)

  ghost function Holding(commit: int, applied: int): Node {
    InitNode(1, 3).(currentTerm := 1, logs := [A, B], commitIndex := commit, lastApplied := applied)
  }

  lemma GetsBoth()
    ensures Possible(InitNode(1, 3), GotEntries(FIRST)) && After(InitNode(1, 3), GotEntries(FIRST)) == Holding(1, 0)
  {
    assert Merge([], 0, [A, B]) == [A, B];
  }

  lemma HearsCommit()
    ensures Possible(Holding(1, 1), GotEntries(SECOND)) && After(Holding(1, 1), GotEntries(SECOND)) == Holding(2, 1)
  {
    assert Merge([A, B], 2, []) == [A, B];
  }

  lemma AppliesFirst()
    ensures Possible(Holding(1, 0), Applied) && After(Holding(1, 0), Applied) == Holding(1, 1)
  {
    assert Indexed(Holding(1, 0)) && LastLogIndex(Holding(1, 0)) == 2;
  }

  lemma HeldIsOwed()
    ensures NodeInv(Holding(2, 1)) && Brings(SnapshotStep(Holding(2, 1), 1), 2)
    ensures NeverPushed(LiteralSnapshotStep(Holding(2, 1), 1), 2)
  {
    var n := Holding(2, 1);
    assert Indexed(n) && LastLogIndex(n) == 2;
    LiteralSnapshotLosesIff(n, 1, 2);
  }

  /** A follower of a cluster of three: it gets two entries, applies the first, hears that the second is committed, and
      its key-value server asks it to compact what it has run.  As written the second is never pushed. */
  lemma LiteralSnapshotLosesACommand() returns (states: seq<Node>, events: seq<Event>)
    ensures NodeRun(states, events, 1, 3) && |events| == 3 && states[3] == Holding(2, 1)
    ensures NodeInv(Holding(2, 1)) && Brings(SnapshotStep(Holding(2, 1), 1), 2)
    ensures NeverPushed(LiteralSnapshotStep(Holding(2, 1), 1), 2)
  {
    HeldIsOwed();
    states := [InitNode(1, 3), Holding(1, 0), Holding(1, 1), Holding(2, 1)];
    events := [GotEntries(FIRST), Applied, GotEntries(SECOND)];
    forall k | 0 <= k < |events|
      ensures Possible(states[k], events[k]) && states[k + 1] == After(states[k], events[k])
    {
      if k == 0 {
        GetsBoth();
      } else if k == 1 {
        AppliesFirst();
      } else {
        HearsCommit();
      }
    }
  }
}
