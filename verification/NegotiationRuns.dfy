/** Negotiations of a running cluster: two of its nodes, each compacted up to something it has committed, always
    come to an end. */
module NegotiationRuns {
  import opened RaftTypes
  import opened RaftSteps
  import opened Cluster
  import opened History
  import opened HistorySteps
  import opened Invariant
  import opened VoteSteps
  import opened RaftSafety
  import N = Negotiation
  import I = NodeInvariant

  /** Before it compacts, a node of the cluster keeps what `NodeInvariant` asks. */
  lemma ClusterNode(n: Node, out: seq<ApplyMsg>, h: History, peers: nat, s: int)
    requires NodeOk(n, out, h, peers, s)
    ensures I.NodeInv(n) && LastLogIndex(n) == |n.logs|
  {
    LastIsLength(n, h);
  }

  /** The leader of a term no earlier has what the node has committed. */
  lemma CommittedAtLeader(l: Node, f: Node, h: History, peers: nat, a: int)
    requires Consistent(h, peers) && LeaderField(l, h, a) && l.status == Leader
    requires CommitField(f, h, peers) && f.currentTerm <= l.currentTerm
    ensures f.logs[..f.commitIndex] <= l.logs
  {
    SettledInLeader(h, peers, f.logs[..f.commitIndex], f.currentTerm, l.currentTerm);
  }

  /** So they meet at the snapshot point, wherever the follower compacted. */
  lemma MeetAtSnapshot(l: Node, f: Node, x: int, y: int)
    requires I.NodeInv(l) && I.NodeInv(f) && l.snapIndex == f.snapIndex == 0
    requires f.logs[..f.commitIndex] <= l.logs
    ensures var l', f' := SnapshotStep(l, x), SnapshotStep(f, y);
            l'.snapIndex <= f'.snapIndex ==> N.Meets(l', f', f'.snapIndex)
  {
    var l', f', s := SnapshotStep(l, x), SnapshotStep(f, y), SnapshotStep(f, y).snapIndex;
    I.SnapshotKeepsVirtualLog(l, x);
    I.SnapshotKeepsVirtualLog(f, y);
    if l'.snapIndex <= s && 0 < s {
      assert f.logs[..f.commitIndex][s - 1] == l.logs[s - 1];
      assert TermAt(l', s) == TermAt(l, s) && TermAt(f', s) == TermAt(f, s);
    }
  }

  /** Log matching survives compaction on both sides. */
  lemma MatchingKept(l: Node, f: Node, h: History, x: int, y: int)
    requires Genuine(h, l.logs) && Genuine(h, f.logs)
    requires I.NodeInv(l) && I.NodeInv(f) && l.snapIndex == f.snapIndex == 0
    ensures N.Matching(SnapshotStep(l, x), SnapshotStep(f, y))
  {
    var l', f' := SnapshotStep(l, x), SnapshotStep(f, y);
    forall i, j | N.Meets(l', f', i) && j <= i && I.InMemory(l', j) && I.InMemory(f', j)
      ensures I.EntryAt(l', j) == I.EntryAt(f', j)
    {
      CompactedAt(l, x, i);
      CompactedAt(f, y, i);
      CompactedAt(l, x, j);
      CompactedAt(f, y, j);
      EqualBelow(h, l.logs, f.logs, i, j);
    }
  }

  lemma CompactedAt(n: Node, x: int, i: int)
    requires I.NodeInv(n) && n.snapIndex == 0 && InRange(SnapshotStep(n, x), i)
    ensures 0 <= i <= |n.logs|
    ensures i > 0 ==> TermAt(SnapshotStep(n, x), i) == n.logs[i - 1].term
    ensures I.InMemory(SnapshotStep(n, x), i) ==> i > 0 && I.EntryAt(SnapshotStep(n, x), i) == n.logs[i - 1]
  {
    I.SnapshotKeepsVirtualLog(n, x);
    assert TermAt(SnapshotStep(n, x), i) == TermAt(n, i);
  }

  lemma EqualBelow(h: History, a: Log, b: Log, i: int, j: int)
    requires Genuine(h, a) && Genuine(h, b) && 0 < j <= i <= |a| && i <= |b| && a[i - 1].term == b[i - 1].term
    ensures a[j - 1] == b[j - 1]
  {
    LogMatching(h, a, b, i - 1);
    assert a[j - 1] == a[..i][j - 1] && b[j - 1] == b[..i][j - 1];
  }

  lemma CanTalk(l: Node, f: Node, x: int, y: int, p: int)
    requires I.NodeInv(l) && I.NodeInv(f) && l.snapIndex == f.snapIndex == 0
    requires l.status == Leader && f.currentTerm <= l.currentTerm && f.commitIndex <= |l.logs|
    requires 0 <= p < |l.nextIndex| == |l.matchIndex| && 1 <= l.nextIndex[p] <= |l.logs| + 1
    ensures N.Talking(SnapshotStep(l, x), SnapshotStep(f, y), p)
  {
    LastIndexIsLength(l);
    LastIndexIsLength(f);
    I.SnapshotKeepsNodeInv(l, x);
    I.SnapshotKeepsNodeInv(f, y);
    I.SnapshotKeepsVirtualLog(l, x);
  }

  /** In every state of every run, let a leader and a node not ahead of it in terms compact, each up to anything it
      has committed: their negotiation ends, from any probe q the leader can make, and their logs match, so that
      it comes to what `Negotiation.NegotiationEnds` says. */
  lemma CompactedNegotiationEnds(run: seq<Cluster>, peers: nat, k: nat, a: nat, b: nat, x: int, y: int, q: int)
    requires Run(run, peers) && k < |run| && run[k].Has(a) && run[k].Has(b)
    requires run[k].nodes[a].status == Leader && run[k].nodes[b].currentTerm <= run[k].nodes[a].currentTerm
    requires 1 <= q <= LastLogIndex(run[k].nodes[a]) + 1
    ensures I.NodeInv(run[k].nodes[a]) && I.NodeInv(run[k].nodes[b]) && b < |run[k].nodes[a].nextIndex|
    ensures var l, f := SnapshotStep(Probing(run[k].nodes[a], b, q), x), SnapshotStep(run[k].nodes[b], y);
            N.Talking(l, f, b) && N.Matching(l, f) && N.Ends(l, f, b)
  {
    var h := RunHistory(run[..k + 1], peers);
    var c := run[..k + 1][k];
    assert NodeOk(c.nodes[a], c.applied[a], h, peers, a) && NodeOk(c.nodes[b], c.applied[b], h, peers, b);
    ClusterNode(c.nodes[a], c.applied[a], h, peers, a);
    ClusterNode(c.nodes[b], c.applied[b], h, peers, b);
    CommittedAtLeader(c.nodes[a], c.nodes[b], h, peers, a);
    var l := Probing(c.nodes[a], b, q);
    MatchingKept(l, c.nodes[b], h, x, y);
    CanTalk(l, c.nodes[b], x, y, b);
    EndsAfterCompaction(l, c.nodes[b], x, y, b);
  }

  /** The leader about to probe server p right before index q. */
  function Probing(n: Node, p: nat, q: int): (m: Node)
    requires p < |n.nextIndex|
    ensures I.NodeInv(n) ==> I.NodeInv(m)
  {
    n.(nextIndex := n.nextIndex[p := q])
  }

  lemma EndsAfterCompaction(l: Node, f: Node, x: int, y: int, p: int)
    requires I.NodeInv(l) && I.NodeInv(f) && l.snapIndex == f.snapIndex == 0
    requires f.logs[..f.commitIndex] <= l.logs && N.Talking(SnapshotStep(l, x), SnapshotStep(f, y), p)
    ensures N.Ends(SnapshotStep(l, x), SnapshotStep(f, y), p)
  {
    var l', f' := SnapshotStep(l, x), SnapshotStep(f, y);
    MeetAtSnapshot(l, f, x, y);
    N.EndsIff(l', f', p);
    N.StopAtSnapshot(f', Max(l'.nextIndex[p] - 1, f'.snapIndex));
  }
}
