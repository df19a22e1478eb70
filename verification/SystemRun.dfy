/** Clients, key-value servers and Raft nodes as one system, over whole runs: what the servers of a cluster hold is
    what one log makes of the store, and that log is the one `ClerkRun` speaks of.

    A request reaches the log when some leader is handed it, any number of times.  A write is answered when some
    server has run an entry with its client and id, or finds it in the request table.  No node compacts here. */
module SystemRun {
  import opened RaftTypes
  import opened RaftSteps
  import opened KvSteps
  import opened KvReplay
  import C = Cluster
  import K = KvServer
  import S = RaftSafety
  import W = ClerkRun

  type Parse = string -> Op

  datatype System = System(cluster: C.Cluster, current: map<string, Op>, waiting: set<string>, sent: set<Op>)

  datatype Move = Issue(op: Op) | Net(step: C.Step) | Answer(clientId: string, server: int)

  function Start(peers: nat): System {
    System(C.InitCluster(peers), map[], {}, {})
  }

  // ---------------------------------------------------------------- what a server makes of its messages

  const NO_OP := Op("", "", "", "", 0)

  /** A cluster pushes commands only (`RaftSafety.StateMachineSafety`). */
  function OpOf(m: ApplyMsg, parse: Parse): Op {
    if m.CommandMsg? then parse(m.command) else NO_OP
  }

  function Ops(out: seq<ApplyMsg>, parse: Parse): (ops: seq<Op>)
    ensures |ops| == |out| && forall k :: 0 <= k < |out| ==> ops[k] == OpOf(out[k], parse)
  {
    seq(|out|, k requires 0 <= k < |out| => OpOf(out[k], parse))
  }

  ghost function Messages(out: seq<ApplyMsg>, parse: Parse): (ms: seq<K.Message>)
    ensures |ms| == |out| && forall k :: 0 <= k < |out| ==> ms[k] == K.CommandMessage(OpOf(out[k], parse), out[k].index)
  {
    seq(|out|, k requires 0 <= k < |out| => K.CommandMessage(OpOf(out[k], parse), out[k].index))
  }

  /** Store and table of a server that has read the messages. */
  ghost function Store(out: seq<ApplyMsg>, parse: Parse): Kv {
    K.HandleAll(K.Server(EMPTY, 0), Messages(out, parse)).kv
  }

  ghost predicate InSequence(out: seq<ApplyMsg>) {
    forall k :: 0 <= k < |out| ==> out[k].CommandMsg? && out[k].index == k + 1
  }

  lemma StoreIsReplay(out: seq<ApplyMsg>, parse: Parse)
    requires InSequence(out)
    ensures Store(out, parse) == Replay(EMPTY, Ops(out, parse))
  {
    var ops := Ops(out, parse);
    assert Messages(out, parse) == K.CommandsFrom(ops, 0)[..|ops| - 0];
    K.CommandsReplayTheRest(K.Server(EMPTY, 0), ops, 0, |ops|);
    assert ops[0..|ops|] == ops;
  }

  // ---------------------------------------------------------------- the moves

  ghost function Clients(s: System, log: seq<Op>): W.World {
    W.World(s.current, s.waiting, s.sent, log)
  }

  /** The two ways to an OK: the entry that was waited for has this client and id, or the table has them. */
  ghost predicate Answers(out: seq<ApplyMsg>, op: Op, parse: Parse) {
    || (exists x :: x in Ops(out, parse) && x.clientId == op.clientId && x.requestId == op.requestId)
    || Duplicate(Store(out, parse), op.clientId, op.requestId)
  }

  ghost predicate Can(s: System, m: Move, parse: Parse) {
    match m
    case Issue(op) => W.Can(Clients(s, []), W.Issue(op))
    case Net(step) => C.Enabled(s.cluster, step) && (step.Command? ==> parse(step.command) in s.sent)
    case Answer(c, i) =>
      && c in s.waiting && c in s.current
      && (Write(s.current[c]) ==>
            0 <= i < |s.cluster.applied| && Answers(s.cluster.applied[i], s.current[c], parse))
  }

  ghost function Do(s: System, m: Move, parse: Parse): System
    requires Can(s, m, parse)
  {
    match m
    case Issue(op) =>
      s.(current := s.current[op.clientId := op], waiting := s.waiting + {op.clientId}, sent := s.sent + {op})
    case Net(step) => s.(cluster := C.Do(s.cluster, step))
    case Answer(c, _) => s.(waiting := s.waiting - {c})
  }

  ghost predicate Run(run: seq<System>, peers: nat, parse: Parse) {
    && run != [] && run[0] == Start(peers)
    && forall i :: 0 < i < |run| ==> MovesAt(run, parse, i)
  }

  ghost predicate MovesAt(run: seq<System>, parse: Parse, i: int)
    requires 0 < i < |run|
  {
    Moves(run[i - 1], run[i], parse)
  }

  ghost predicate Moves(s: System, s': System, parse: Parse) {
    exists m :: Follows(s, m, s', parse)
  }

  ghost predicate Follows(s: System, m: Move, s': System, parse: Parse) {
    Can(s, m, parse) && s' == Do(s, m, parse)
  }

  // ---------------------------------------------------------------- where commands come from

  ghost predicate SourcedLog(log: seq<Entry>, sent: set<Op>, parse: Parse) {
    forall k :: 0 <= k < |log| ==> parse(log[k].command) in sent
  }

  ghost predicate SourcedOut(out: seq<ApplyMsg>, sent: set<Op>, parse: Parse) {
    forall k :: 0 <= k < |out| ==> OpOf(out[k], parse) in sent
  }

  /** Every command anywhere in the cluster is a request some client has sent. */
  ghost predicate Sourced(c: C.Cluster, sent: set<Op>, parse: Parse) {
    && (forall s :: 0 <= s < |c.nodes| ==> SourcedLog(c.nodes[s].logs, sent, parse))
    && (forall r :: r in c.appendReqs ==> SourcedLog(r.args.entries, sent, parse))
    && (forall s :: 0 <= s < |c.applied| ==> SourcedOut(c.applied[s], sent, parse))
  }

  lemma MergeSourced(logs: seq<Entry>, p: nat, entries: seq<Entry>, sent: set<Op>, parse: Parse)
    requires p <= |logs| && SourcedLog(logs, sent, parse) && SourcedLog(entries, sent, parse)
    ensures SourcedLog(Merge(logs, p, entries), sent, parse)
  {
    var merged := Merge(logs, p, entries);
    forall k | 0 <= k < |merged|
      ensures parse(merged[k].command) in sent
    {
      if merged != logs {
        assert merged[k] == if k < p then logs[k] else entries[k - p];
      }
    }
  }

  lemma AppendSourced(n: Node, a: AppendArgs, sent: set<Op>, parse: Parse)
    requires Indexed(n) && SourcedLog(n.logs, sent, parse) && SourcedLog(a.entries, sent, parse)
    ensures SourcedLog(AppendEntriesStep(n, a).0.logs, sent, parse)
  {
    LastIndexIsLength(n);
    if Accepts(n, a) {
      MergeSourced(n.logs, a.prevIndex - n.snapIndex, a.entries, sent, parse);
    }
  }

  lemma BatchSourced(n: Node, sent: set<Op>, parse: Parse)
    requires ApplyAsserts(n) && SourcedLog(n.logs, sent, parse)
    ensures SourcedOut(ApplyBatch(n), sent, parse)
  {
    LastIndexIsLength(n);
  }

  lemma RequestsSourced(c: C.Cluster, i: int, round: int, sent: set<Op>, parse: Parse)
    requires C.CanBeat(c, i, round) && C.Leads(c, i) && SourcedLog(c.nodes[i].logs, sent, parse)
    ensures forall r :: r in C.RoundOf(c.nodes[i], i, |c.nodes|, round) ==> SourcedLog(r.args.entries, sent, parse)
  {
    var n := c.nodes[i];
    forall r | r in C.RoundOf(n, i, |c.nodes|, round)
      ensures SourcedLog(r.args.entries, sent, parse)
    {
      LastIndexIsLength(n);
      assert r.args.entries == n.logs[r.args.prevIndex - n.snapIndex..];
    }
  }

  lemma OneNodeSourced(c: C.Cluster, c': C.Cluster, i: int, sent: set<Op>, parse: Parse)
    requires Sourced(c, sent, parse) && 0 <= i < |c.nodes| == |c'.nodes|
    requires forall s :: 0 <= s < |c.nodes| && s != i ==> c'.nodes[s] == c.nodes[s]
    requires SourcedLog(c'.nodes[i].logs, sent, parse)
    requires c'.appendReqs == c.appendReqs && c'.applied == c.applied
    ensures Sourced(c', sent, parse)
  {
  }

  lemma StepSourced(c: C.Cluster, step: C.Step, sent: set<Op>, parse: Parse)
    requires Sourced(c, sent, parse) && C.Enabled(c, step) && (step.Command? ==> parse(step.command) in sent)
    ensures Sourced(C.Do(c, step), sent, parse)
  {
    match step {
      case Elect(i) => OneNodeSourced(c, C.Do(c, step), i, sent, parse);
      case Vote(r) => OneNodeSourced(c, C.Do(c, step), r.to, sent, parse);
      case VoteBack(r, _) => OneNodeSourced(c, C.Do(c, step), r.args.candidate, sent, parse);
      case Command(i, _) => OneNodeSourced(c, C.Do(c, step), i, sent, parse);
      case _ => EntriesSourced(c, step, sent, parse);
    }
  }

  lemma EntriesSourced(c: C.Cluster, step: C.Step, sent: set<Op>, parse: Parse)
    requires Sourced(c, sent, parse) && C.Enabled(c, step)
    requires step.Beat? || step.Append? || step.AppendBack? || step.Apply?
    ensures Sourced(C.Do(c, step), sent, parse)
  {
    match step {
      case Beat(i, round) =>
        if C.Leads(c, i) {
          RequestsSourced(c, i, round, sent, parse);
        }
      case Append(r) =>
        AppendSourced(c.nodes[r.to], r.args, sent, parse);
        OneNodeSourced(c, C.Do(c, step), r.to, sent, parse);
      case AppendBack(r, _) => OneNodeSourced(c, C.Do(c, step), r.args.leader, sent, parse);
      case Apply(i) => BatchSourced(c.nodes[i], sent, parse);
    }
  }

  // ---------------------------------------------------------------- the one log

  /** The output of a server that is ahead of the others. */
  function Longest(applied: seq<seq<ApplyMsg>>): (out: seq<ApplyMsg>)
    ensures out == [] || out in applied
    ensures forall s :: 0 <= s < |applied| ==> |applied[s]| <= |out|
  {
    if applied == [] then []
    else
      var n := |applied| - 1;
      var rest := Longest(applied[..n]);
      if |applied[n]| > |rest| then applied[n] else rest
  }

  function LogOf(s: System, parse: Parse): seq<Op> {
    Ops(Longest(s.cluster.applied), parse)
  }

  /** Outputs of one run, at any two moments: the shorter is a prefix of the longer. */
  lemma OutputsAgree(cr: seq<C.Cluster>, peers: nat, i: nat, j: nat, a: nat, b: nat)
    requires C.Run(cr, peers) && i < |cr| && j < |cr| && cr[i].Has(a) && cr[j].Has(b)
    ensures a < |cr[i].applied| && b < |cr[j].applied| && InSequence(cr[i].applied[a])
    ensures |cr[i].applied[a]| <= |cr[j].applied[b]| ==> cr[i].applied[a] <= cr[j].applied[b]
  {
    S.StateMachineSafety(cr, peers, i, j, a, b, 0);
    var x, y := cr[i].applied[a], cr[j].applied[b];
    forall k: nat | k < |x|
      ensures x[k].CommandMsg? && x[k].index == k + 1 && (k < |y| ==> x[k] == y[k])
    {
      S.StateMachineSafety(cr, peers, i, i, a, a, k);
      S.StateMachineSafety(cr, peers, i, j, a, b, k);
    }
  }

  /** So the longest output at one moment goes on from every output of an earlier one. */
  lemma LongestIsAhead(cr: seq<C.Cluster>, peers: nat, i: nat, j: nat, a: nat)
    requires C.Run(cr, peers) && i <= j < |cr| && cr[i].Has(a)
    ensures a < |cr[i].applied| && cr[i].applied[a] <= Longest(cr[j].applied) && InSequence(cr[i].applied[a])
  {
    S.StateShape(cr, peers, i);
    S.RunForward(cr, peers, i, j, a);
    S.StateMachineSafety(cr, peers, i, j, a, a, 0);
    var out := Longest(cr[j].applied);
    if out != [] {
      var b :| 0 <= b < |cr[j].applied| && cr[j].applied[b] == out;
      OutputsAgree(cr, peers, i, j, a, b);
    }
    OutputsAgree(cr, peers, i, j, a, a);
  }

  lemma LogGrows(cr: seq<C.Cluster>, peers: nat, i: nat, j: nat)
    requires C.Run(cr, peers) && i <= j < |cr|
    ensures Longest(cr[i].applied) <= Longest(cr[j].applied)
  {
    var out := Longest(cr[i].applied);
    if out != [] {
      var a :| 0 <= a < |cr[i].applied| && cr[i].applied[a] == out;
      S.StateShape(cr, peers, i);
      LongestIsAhead(cr, peers, i, j, a);
    }
  }

  lemma OpsPrefix(a: seq<ApplyMsg>, b: seq<ApplyMsg>, parse: Parse)
    requires a <= b
    ensures Ops(a, parse) == Ops(b, parse)[..|a|]
  {
  }

  lemma LongestSourced(c: C.Cluster, sent: set<Op>, parse: Parse)
    requires Sourced(c, sent, parse)
    ensures forall op :: op in Ops(Longest(c.applied), parse) ==> op in sent
  {
    var out := Longest(c.applied);
    if out != [] {
      var a :| 0 <= a < |c.applied| && c.applied[a] == out;
      assert SourcedOut(c.applied[a], sent, parse);
    }
  }

  // ---------------------------------------------------------------- a run of clients beside every run

  /** A run of the cluster and one of the clients that lead to where the system is. */
  ghost predicate Beside(s: System, cr: seq<C.Cluster>, wr: seq<W.World>, peers: nat, parse: Parse) {
    && C.Run(cr, peers) && cr[|cr| - 1] == s.cluster
    && W.Run(wr) && wr[|wr| - 1] == Clients(s, LogOf(s, parse))
    && Sourced(s.cluster, s.sent, parse)
    && forall c :: c in s.current ==> s.current[c].clientId == c
  }

  lemma WorldOn(wr: seq<W.World>, step: W.Step, w: W.World)
    requires W.Run(wr) && W.Follows(wr[|wr| - 1], step, w)
    ensures W.Run(wr + [w])
  {
    forall i | 0 < i < |wr + [w]|
      ensures W.MovesAt(wr + [w], i)
    {
      if i < |wr| {
        assert W.MovesAt(wr, i);
      } else {
        assert W.Follows((wr + [w])[i - 1], step, (wr + [w])[i]);
      }
    }
  }

  lemma ClusterOn(cr: seq<C.Cluster>, step: C.Step, peers: nat)
    requires C.Run(cr, peers) && C.Enabled(cr[|cr| - 1], step)
    ensures C.Run(cr + [C.Do(cr[|cr| - 1], step)], peers)
  {
    var c := C.Do(cr[|cr| - 1], step);
    var longer := cr + [c];
    assert C.Next(cr[|cr| - 1], c);
    forall k | 0 <= k < |longer| - 1
      ensures C.Next(longer[k], longer[k + 1])
    {
      if k < |cr| - 1 {
        assert longer[k] == cr[k] && longer[k + 1] == cr[k + 1];
      }
    }
  }

  /** Committing what the log has got, one entry after the other. */
  lemma {:induction false} CommitAll(wr: seq<W.World>, log: seq<Op>) returns (longer: seq<W.World>)
    requires W.Run(wr) && wr[|wr| - 1].log <= log
    requires forall op :: op in log ==> op in wr[|wr| - 1].sent
    ensures W.Run(longer) && longer[|longer| - 1] == wr[|wr| - 1].(log := log)
    decreases |log| - |wr[|wr| - 1].log|
  {
    var w := wr[|wr| - 1];
    if w.log == log {
      longer := wr;
    } else {
      var n := |w.log|;
      var w' := w.(log := log[..n + 1]);
      assert log[..n + 1] == w.log + [log[n]] && log[n] in log;
      assert W.Follows(w, W.Commit(log[n]), w');
      WorldOn(wr, W.Commit(log[n]), w');
      longer := CommitAll(wr + [w'], log);
    }
  }

  lemma NetBeside(s: System, step: C.Step, s': System, cr: seq<C.Cluster>, wr: seq<W.World>, peers: nat, parse: Parse)
      returns (cr': seq<C.Cluster>, wr': seq<W.World>)
    requires Beside(s, cr, wr, peers, parse) && Follows(s, Net(step), s', parse)
    ensures Beside(s', cr', wr', peers, parse) && LogOf(s, parse) <= LogOf(s', parse)
  {
    cr' := StepOn(s.cluster, step, cr, peers);
    StepSourced(s.cluster, step, s.sent, parse);
    OpsPrefix(Longest(s.cluster.applied), Longest(s'.cluster.applied), parse);
    LongestSourced(s'.cluster, s.sent, parse);
    wr' := CommitAll(wr, LogOf(s', parse));
  }

  lemma StepOn(c: C.Cluster, step: C.Step, cr: seq<C.Cluster>, peers: nat) returns (cr': seq<C.Cluster>)
    requires C.Run(cr, peers) && cr[|cr| - 1] == c && C.Enabled(c, step)
    ensures C.Run(cr', peers) && cr'[|cr'| - 1] == C.Do(c, step)
    ensures Longest(c.applied) <= Longest(C.Do(c, step).applied)
  {
    ClusterOn(cr, step, peers);
    cr' := cr + [C.Do(c, step)];
    LogGrows(cr', peers, |cr| - 1, |cr|);
  }

  lemma SourcedMore(c: C.Cluster, sent: set<Op>, sent': set<Op>, parse: Parse)
    requires Sourced(c, sent, parse) && sent <= sent'
    ensures Sourced(c, sent', parse)
  {
  }

  lemma IssueBeside(s: System, op: Op, s': System, cr: seq<C.Cluster>, wr: seq<W.World>, peers: nat, parse: Parse)
    requires Beside(s, cr, wr, peers, parse) && Follows(s, Issue(op), s', parse)
    ensures Beside(s', cr, wr + [Clients(s', LogOf(s', parse))], peers, parse)
  {
    var w := Clients(s', LogOf(s', parse));
    assert W.Follows(wr[|wr| - 1], W.Issue(op), w);
    WorldOn(wr, W.Issue(op), w);
    SourcedMore(s.cluster, s.sent, s'.sent, parse);
  }

  lemma OutputInLog(c: C.Cluster, i: int, cr: seq<C.Cluster>, peers: nat, parse: Parse)
    requires C.Run(cr, peers) && cr[|cr| - 1] == c && 0 <= i < |c.applied|
    ensures InSequence(c.applied[i])
    ensures forall x :: x in Ops(c.applied[i], parse) ==> x in Ops(Longest(c.applied), parse)
  {
    S.StateShape(cr, peers, |cr| - 1);
    LongestIsAhead(cr, peers, |cr| - 1, |cr| - 1, i);
    OpsPrefix(c.applied[i], Longest(c.applied), parse);
  }

  /** An answered write is in the log, whichever way the server came to its OK. */
  lemma AnsweredInLog(s: System, c: string, i: int, cr: seq<C.Cluster>, wr: seq<W.World>, peers: nat, parse: Parse)
    requires Beside(s, cr, wr, peers, parse) && Can(s, Answer(c, i), parse) && Write(s.current[c])
    ensures s.current[c] in LogOf(s, parse)
  {
    var out, op := s.cluster.applied[i], s.current[c];
    OutputInLog(s.cluster, i, cr, peers, parse);
    LongestSourced(s.cluster, s.sent, parse);
    var x := AnswerIsEntry(out, op, parse);
    W.RunKeepsInv(wr, |wr| - 1);
    AnswerIsCurrent(wr[|wr| - 1], c, x);
  }

  /** Nothing sent for a client has an id beyond that of its last request. */
  lemma AnswerIsCurrent(w: W.World, c: string, x: Op)
    requires W.WorldInv(w) && c in w.current && w.current[c].clientId == c
    requires x in w.sent && x.clientId == c && x.requestId >= w.current[c].requestId
    ensures x == w.current[c]
  {
  }

  lemma AnswerIsEntry(out: seq<ApplyMsg>, op: Op, parse: Parse) returns (x: Op)
    requires InSequence(out) && Answers(out, op, parse)
    ensures x in Ops(out, parse) && x.clientId == op.clientId && x.requestId >= op.requestId
  {
    var ops := Ops(out, parse);
    if Duplicate(Store(out, parse), op.clientId, op.requestId) {
      StoreIsReplay(out, parse);
      TableOfReplay(ops);
      var last := Replay(EMPTY, ops).last;
      assert Wrote(ops, op.clientId, last[op.clientId]);
      var k :| 0 <= k < |ops| && ops[k].clientId == op.clientId && ops[k].requestId == last[op.clientId];
      x := ops[k];
    } else {
      x :| x in ops && x.clientId == op.clientId && x.requestId == op.requestId;
    }
  }

  lemma AnswerBeside(s: System, c: string, i: int, s': System, cr: seq<C.Cluster>, wr: seq<W.World>, peers: nat,
                     parse: Parse)
    requires Beside(s, cr, wr, peers, parse) && Follows(s, Answer(c, i), s', parse)
    ensures Beside(s', cr, wr + [Clients(s', LogOf(s', parse))], peers, parse)
  {
    if Write(s.current[c]) {
      AnsweredInLog(s, c, i, cr, wr, peers, parse);
    }
    var w := Clients(s', LogOf(s', parse));
    assert W.Follows(wr[|wr| - 1], W.Answer(c), w);
    WorldOn(wr, W.Answer(c), w);
  }

  lemma StartBeside(peers: nat, parse: Parse)
    ensures Beside(Start(peers), [C.InitCluster(peers)], [W.START], peers, parse)
  {
    assert forall out :: out in C.InitCluster(peers).applied ==> out == [];
  }

  lemma MoveBeside(s: System, m: Move, s': System, cr: seq<C.Cluster>, wr: seq<W.World>, peers: nat, parse: Parse)
      returns (cr': seq<C.Cluster>, wr': seq<W.World>)
    requires Beside(s, cr, wr, peers, parse) && Follows(s, m, s', parse)
    ensures Beside(s', cr', wr', peers, parse) && LogOf(s, parse) <= LogOf(s', parse)
  {
    match m {
      case Net(step) =>
        cr', wr' := NetBeside(s, step, s', cr, wr, peers, parse);
      case Issue(op) =>
        IssueBeside(s, op, s', cr, wr, peers, parse);
        cr', wr' := cr, wr + [Clients(s', LogOf(s', parse))];
      case Answer(c, i) =>
        AnswerBeside(s, c, i, s', cr, wr, peers, parse);
        cr', wr' := cr, wr + [Clients(s', LogOf(s', parse))];
    }
  }

  lemma {:induction false} RunBeside(run: seq<System>, peers: nat, parse: Parse, k: nat)
      returns (cr: seq<C.Cluster>, wr: seq<W.World>)
    requires Run(run, peers, parse) && k < |run|
    ensures Beside(run[k], cr, wr, peers, parse)
    ensures forall j: nat :: j <= k ==> LogOf(run[j], parse) <= LogOf(run[k], parse)
    decreases k
  {
    if k == 0 {
      StartBeside(peers, parse);
      cr, wr := [C.InitCluster(peers)], [W.START];
    } else {
      cr, wr := RunBeside(run, peers, parse, k - 1);
      assert MovesAt(run, parse, k);
      var m :| Follows(run[k - 1], m, run[k], parse);
      cr, wr := MoveBeside(run[k - 1], m, run[k], cr, wr, peers, parse);
    }
  }

  // ---------------------------------------------------------------- the theorems

  /** In every run there is, at every moment, one log such that every server, then and at every earlier moment, holds
      what a prefix of it makes of the store; and a run of clients that has led to it. */
  lemma OneLog(run: seq<System>, peers: nat, parse: Parse, k: nat) returns (log: seq<Op>, clients: seq<W.World>)
    requires Run(run, peers, parse) && k < |run|
    ensures W.Run(clients) && clients[|clients| - 1] == Clients(run[k], log)
    ensures forall j: nat, s: nat :: j <= k && run[j].cluster.Has(s) ==> HoldsPrefix(run[j], s, log, parse)
  {
    log := LogOf(run[k], parse);
    var cr;
    cr, clients := RunBeside(run, peers, parse, k);
    forall j: nat, s: nat | j <= k && run[j].cluster.Has(s)
      ensures HoldsPrefix(run[j], s, log, parse)
    {
      var cj, wj := RunBeside(run, peers, parse, j);
      StateHoldsPrefix(run[j], s, cj, wj, peers, parse, log);
    }
  }

  ghost predicate HoldsPrefix(s: System, i: nat, log: seq<Op>, parse: Parse) {
    && i < |s.cluster.applied| && |s.cluster.applied[i]| <= |log|
    && Store(s.cluster.applied[i], parse) == Replay(EMPTY, log[..|s.cluster.applied[i]|])
  }

  lemma StateHoldsPrefix(s: System, i: nat, cr: seq<C.Cluster>, wr: seq<W.World>, peers: nat, parse: Parse, log: seq<Op>)
    requires Beside(s, cr, wr, peers, parse) && s.cluster.Has(i) && LogOf(s, parse) <= log
    ensures HoldsPrefix(s, i, log, parse)
  {
    LongestIsAhead(cr, peers, |cr| - 1, |cr| - 1, i);
    var out := s.cluster.applied[i];
    OpsPrefix(out, Longest(s.cluster.applied), parse);
    StoreIsReplay(out, parse);
    assert Ops(out, parse) == log[..|out|];
  }

  /** So what clients are promised holds of the cluster: an answered write has taken effect in the log the servers
      follow, no write takes effect twice, those of a client take effect in order, and a server that has all of the
      log holds what they make of the store. */
  lemma WritesTakeEffectOnce(run: seq<System>, peers: nat, parse: Parse, k: nat, op: Op)
      returns (log: seq<Op>)
    requires Run(run, peers, parse) && k < |run|
    ensures forall j: nat, s: nat :: j <= k && run[j].cluster.Has(s) ==> HoldsPrefix(run[j], s, log, parse)
    ensures Write(op) && W.IsAnswered(Clients(run[k], log), op) ==> op in Effective(log)
    ensures IdsIncrease(Effective(log)) && Replay(EMPTY, log) == ExecuteAll(EMPTY, Effective(log))
  {
    var clients;
    log, clients := OneLog(run, peers, parse, k);
    W.WritesTakeEffectOnce(clients, |clients| - 1, op);
  }
}
