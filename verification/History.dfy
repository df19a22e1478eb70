/** What a run has decided so far, and the theorem of leader completeness read off it.

    A history records every vote with the voter's log at that moment, every election with the winner's
    log and its voters, the log each leader has built up in its term, and how far each server has
    acknowledged a leader's log.  It is no part of the cluster: `RaftSafety` builds one beside every run. */
module History {
  import opened RaftTypes

  type Log = seq<Entry>

  datatype VoteRec = VoteRec(candidate: int, log: Log)

  datatype Won = Won(leader: int, log: Log, voters: set<int>)

  /** A heart-beat round: who sent it, in which term, and the last index of the sender's log. */
  datatype Round = Round(leader: int, term: int, last: int)

  datatype History = History(
    voted: map<(int, int), VoteRec>,
    elected: map<int, Won>,
    tlog: map<int, Log>,
    acked: map<(int, int), int>,
    counted: map<(int, int), set<int>>,
    rounds: map<int, Round>,
    ackers: map<int, set<int>>)

  // ---------------------------------------------------------------- quorums

  ghost predicate Servers(q: set<int>, peers: nat) {
    forall s :: s in q ==> 0 <= s < peers
  }

  ghost predicate Quorum(q: set<int>, peers: nat) {
    Servers(q, peers) && |q| >= Majority(peers)
  }

  function Below(n: nat): (s: set<int>)
    ensures |s| == n
    ensures forall k :: k in s <==> 0 <= k < n
  {
    if n == 0 then {} else Below(n - 1) + {n - 1}
  }

  lemma SubsetSize(a: set<int>, b: set<int>)
    requires a <= b
    ensures |a| <= |b|
  {
    assert b == a + (b - a);
  }

  lemma ServersBound(q: set<int>, peers: nat)
    requires Servers(q, peers)
    ensures |q| <= peers
  {
    SubsetSize(q, Below(peers));
  }

  lemma AnElement<T>(s: set<T>) returns (x: T)
    requires |s| > 0
    ensures x in s
  {
    x :| x in s;
  }

  /** Two majorities share a server. */
  lemma QuorumsMeet(p: set<int>, q: set<int>, peers: nat) returns (s: int)
    requires Quorum(p, peers) && Quorum(q, peers)
    ensures s in p && s in q
  {
    ServersBound(p + q, peers);
    assert |p + q| + |p * q| == |p| + |q|;
    s := AnElement(p * q);
  }

  // ---------------------------------------------------------------- logs

  function LogTerm(log: Log): int {
    if log == [] then 0 else log[|log| - 1].term
  }

  /** The comparison of `UpToDate` between two whole logs. */
  predicate AtLeast(a: Log, b: Log) {
    LogTerm(a) > LogTerm(b) || (LogTerm(a) == LogTerm(b) && |a| >= |b|)
  }

  /** Position i of the log was written by the leader of its term, and so was everything before it. */
  ghost predicate Written(h: History, log: Log, i: int)
    requires 0 <= i < |log|
  {
    && log[i].index == i + 1
    && log[i].term in h.tlog
    && i < |h.tlog[log[i].term]|
    && log[..i + 1] == h.tlog[log[i].term][..i + 1]
  }

  ghost predicate Genuine(h: History, log: Log) {
    forall i :: 0 <= i < |log| ==> Written(h, log, i)
  }

  /** Some term after t and before `bound` elected a leader without the first L entries of term t's log. */
  ghost predicate Lost(h: History, t: int, L: int, bound: int)
    requires t in h.tlog && 0 <= L <= |h.tlog[t]|
  {
    exists u :: t < u < bound && u in h.elected && !(h.tlog[t][..L] <= h.elected[u].log)
  }

  ghost predicate Keeps(h: History, t: int, L: int, log: Log, bound: int) {
    && t in h.tlog && 0 <= L <= |h.tlog[t]|
    && (h.tlog[t][..L] <= log || Lost(h, t, L, bound))
  }

  ghost predicate KeepsAll(h: History, t: int, acked: int, log: Log, bound: int) {
    forall L :: 0 <= L <= acked ==> Keeps(h, t, L, log, bound)
  }

  // ---------------------------------------------------------------- consistency of a history

  /** Server v voted in term t for `candidate`, whose log was at least as up to date as v's own. */
  ghost predicate Backs(h: History, v: int, t: int, candidate: int, log: Log) {
    && (v, t) in h.voted
    && h.voted[(v, t)].candidate == candidate
    && AtLeast(log, h.voted[(v, t)].log)
  }

  ghost predicate ElectedOk(h: History, peers: nat, t: int)
    requires t in h.elected
  {
    var e := h.elected[t];
    && t >= 1
    && 0 <= e.leader < peers
    && Quorum(e.voters, peers) && e.leader in e.voters
    && t in h.tlog
    && e.log <= h.tlog[t]
    && (forall i :: 0 <= i < |e.log| ==> e.log[i].term < t)
    && (forall i :: |e.log| <= i < |h.tlog[t]| ==> h.tlog[t][i].term == t)
    && Genuine(h, h.tlog[t])
    && (forall v :: v in e.voters ==> Backs(h, v, t, e.leader, e.log))
  }

  ghost predicate VotedOk(h: History, k: (int, int))
    requires k in h.voted
  {
    && Genuine(h, h.voted[k].log)
    && (k.1 !in h.elected || k.0 in h.elected[k.1].voters ==>
          forall t :: t < k.1 && (k.0, t) in h.acked ==> KeepsAll(h, t, h.acked[(k.0, t)], h.voted[k].log, k.1))
  }

  /** Whoever got the vote had voted for itself, with a log at least as up to date as the voter's. */
  ghost predicate Honest(h: History, k: (int, int))
    requires k in h.voted
  {
    var c := (h.voted[k].candidate, k.1);
    c in h.voted && AtLeast(h.voted[c].log, h.voted[k].log)
  }

  ghost predicate Consistent(h: History, peers: nat) {
    && h.tlog.Keys == h.elected.Keys
    && (forall t {:trigger ElectedOk(h, peers, t)} :: t in h.elected ==> ElectedOk(h, peers, t))
    && (forall k {:trigger VotedOk(h, k)} :: k in h.voted ==> VotedOk(h, k))
    && (forall k {:trigger Honest(h, k)} :: k in h.voted ==> Honest(h, k))
    && (forall k :: k in h.acked ==> k.1 in h.tlog && 0 <= h.acked[k] <= |h.tlog[k.1]|)
  }

  // ---------------------------------------------------------------- log matching

  /** Two genuine logs with the same term at a position are equal up to that position. */
  lemma LogMatching(h: History, a: Log, b: Log, i: int)
    requires Genuine(h, a) && Genuine(h, b)
    requires 0 <= i < |a| && i < |b| && a[i].term == b[i].term
    ensures a[..i + 1] == b[..i + 1]
  {
    assert Written(h, a, i) && Written(h, b, i);
  }

  lemma TermsSorted(h: History, peers: nat, log: Log, i: int, j: int)
    requires Consistent(h, peers) && Genuine(h, log)
    requires 0 <= i <= j < |log|
    ensures 1 <= log[i].term <= log[j].term
  {
    assert Written(h, log, j) && Written(h, log, i);
    var t := log[j].term;
    assert ElectedOk(h, peers, t);
    assert ElectedOk(h, peers, log[i].term);
    assert log[i] == log[..j + 1][i] == h.tlog[t][i];
  }

  /** A genuine log whose last entry is of term t is a prefix of the log of t's leader, and contains the
      log that leader started from. */
  lemma LastTermOwner(h: History, peers: nat, log: Log)
    requires Consistent(h, peers) && Genuine(h, log) && log != []
    ensures LogTerm(log) in h.elected
    ensures log <= h.tlog[LogTerm(log)]
    ensures h.elected[LogTerm(log)].log <= log
  {
    var i := |log| - 1;
    var t := LogTerm(log);
    assert Written(h, log, i);
    assert ElectedOk(h, peers, t);
    assert log[..i + 1] == log;
    assert h.tlog[t][i].term == t;
    assert |h.elected[t].log| <= i;
  }

  // ---------------------------------------------------------------- leader completeness

  /** A quorum acknowledged the first L entries of term t's log. */
  ghost predicate AckedBy(h: History, t: int, L: int, q: set<int>) {
    forall s :: s in q ==> (s, t) in h.acked && h.acked[(s, t)] >= L
  }

  /** The commit rule of Raft section 5.4.2: a quorum holds the log through L, and entry L is of term t. */
  ghost predicate Chosen(h: History, peers: nat, t: int, L: int) {
    && t in h.tlog && 1 <= L <= |h.tlog[t]|
    && h.tlog[t][L - 1].term == t
    && exists q :: Quorum(q, peers) && AckedBy(h, t, L, q)
  }

  /** Leader completeness (Raft section 5.4): what was chosen in term t is in the log of every leader of a
      later term, from the moment of its election. */
  lemma {:induction false} LeaderCompleteness(h: History, peers: nat, t: int, L: int, u: int)
    requires Consistent(h, peers) && Chosen(h, peers, t, L)
    requires u in h.elected && t < u
    ensures h.tlog[t][..L] <= h.elected[u].log
    decreases u - t
  {
    var q :| Quorum(q, peers) && AckedBy(h, t, L, q);
    assert ElectedOk(h, peers, u) && ElectedOk(h, peers, t);
    var s := QuorumsMeet(q, h.elected[u].voters, peers);
    var vlog := h.voted[(s, u)].log;
    assert Backs(h, s, u, h.elected[u].leader, h.elected[u].log);
    assert VotedOk(h, (s, u));
    assert Keeps(h, t, L, vlog, u);
    forall w | t < w < u && w in h.elected
      ensures h.tlog[t][..L] <= h.elected[w].log
    {
      LeaderCompleteness(h, peers, t, L, w);
    }
    assert h.tlog[t][..L] <= vlog;
    WinnerHolds(h, peers, t, L, u, vlog);
  }

  /** The winner of term u inherits what one of its voters held. */
  lemma WinnerHolds(h: History, peers: nat, t: int, L: int, u: int, vlog: Log)
    requires Consistent(h, peers)
    requires t in h.tlog && 1 <= L <= |h.tlog[t]| && h.tlog[t][L - 1].term == t
    requires u in h.elected && t < u
    requires Genuine(h, vlog) && h.tlog[t][..L] <= vlog && AtLeast(h.elected[u].log, vlog)
    requires forall w :: t < w < u && w in h.elected ==> h.tlog[t][..L] <= h.elected[w].log
    ensures h.tlog[t][..L] <= h.elected[u].log
  {
    var P, E := h.tlog[t][..L], h.elected[u].log;
    assert ElectedOk(h, peers, u) && ElectedOk(h, peers, t);
    TermsSorted(h, peers, vlog, L - 1, |vlog| - 1);
    assert vlog[L - 1] == P[L - 1];
    assert t <= LogTerm(vlog) <= LogTerm(E);
    assert Genuine(h, E) by { GenuinePrefix(h, h.tlog[u], |E|); assert E == h.tlog[u][..|E|]; }
    LastTermOwner(h, peers, E);
    LastTermOwner(h, peers, vlog);
    if LogTerm(E) == LogTerm(vlog) {
      assert vlog <= E;
    } else {
      assert h.elected[LogTerm(E)].log <= E;
    }
  }

  lemma GenuinePrefix(h: History, log: Log, k: int)
    requires Genuine(h, log) && 0 <= k <= |log|
    ensures Genuine(h, log[..k])
  {
    forall i | 0 <= i < k
      ensures Written(h, log[..k], i)
    {
      assert Written(h, log, i);
      assert log[..k][..i + 1] == log[..i + 1];
    }
  }
}
