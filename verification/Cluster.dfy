/** A cluster of Raft nodes: the nodes, the requests ever sent, the replies ever produced, and the two
    kinds of shared counter.

    The network may lose, delay, reorder and duplicate: a request stays available for ever and may be
    handled any number of times, but the thread that sent it waits for one reply only, so one reply per
    request is ever handled (`voteDone`, `appendDone`).  A reply always travels with its request.
    Snapshot transfer is not part of the cluster; no node compacts its log here. */
module Cluster {
  import opened RaftTypes
  import opened RaftSteps

  datatype VoteReq = VoteReq(to: int, args: VoteArgs)

  /** `round` names the heart-beat round, that is, the `appendNums` counter the request carries. */
  datatype AppendReq = AppendReq(to: int, round: int, args: AppendArgs)

  datatype Cluster = Cluster(
    nodes: seq<Node>,
    voteReqs: set<VoteReq>,
    voteReplies: set<(VoteReq, VoteReply)>,
    voteDone: set<VoteReq>,
    votedNum: map<(int, int), int>,
    appendReqs: set<AppendReq>,
    appendReplies: set<(AppendReq, AppendReply)>,
    appendDone: set<AppendReq>,
    appendNums: map<int, int>,
    applied: seq<seq<ApplyMsg>>)
  {
    predicate Has(i: int) {
      0 <= i < |nodes|
    }
  }

  datatype Step =
    | Elect(i: int)
    | Vote(voteReq: VoteReq)
    | VoteBack(voteReq: VoteReq, voteReply: VoteReply)
    | Command(i: int, command: string)
    | Beat(i: int, round: int)
    | Append(appendReq: AppendReq)
    | AppendBack(appendReq: AppendReq, appendReply: AppendReply)
    | Apply(i: int)

  function InitCluster(peers: nat): Cluster {
    Cluster(seq(peers, i => InitNode(i, peers)), {}, {}, {}, map[], {}, {}, {}, map[], seq(peers, _ => []))
  }

  /** The requests of one heart-beat round. */
  ghost function RoundOf(n: Node, me: int, peers: nat, round: int): set<AppendReq> {
    set to | 0 <= to < peers && to != me && HeartBeatAsserts(n, to) && SendsEntries(n, to)
      :: AppendReq(to, round, AppendArgsFor(n, to))
  }

  // ---------------------------------------------------------------- the steps one by one
  // A step is possible when its message exists and no assertion of the handler fails: a failing
  // `myAssert` ends the process, so it is no step.  `RaftSafety` proves that none ever fails.

  predicate CanElect(c: Cluster, i: int) {
    c.Has(i)
  }

  /** The handlers that look first whether the node leads. */
  predicate Leads(c: Cluster, i: int) {
    c.Has(i) && c.nodes[i].status == Leader
  }

  ghost function AfterElect(c: Cluster, i: int): Cluster
    requires CanElect(c, i)
  {
    var n := ElectionStep(c.nodes[i]);
    if Leads(c, i) then c.(nodes := c.nodes[i := n])
    else
      c.(nodes := c.nodes[i := n],
         voteReqs := c.voteReqs + (set to | 0 <= to < |c.nodes| && to != i :: VoteReq(to, VoteArgsOf(n))),
         votedNum := c.votedNum[(i, n.currentTerm) := 1])
  }

  predicate CanVote(c: Cluster, r: VoteReq) {
    r in c.voteReqs && c.Has(r.to)
  }

  ghost function AfterVote(c: Cluster, r: VoteReq): Cluster
    requires CanVote(c, r)
  {
    var (n, reply) := RequestVoteStep(c.nodes[r.to], r.args);
    c.(nodes := c.nodes[r.to := n], voteReplies := c.voteReplies + {(r, reply)})
  }

  predicate CanVoteBack(c: Cluster, r: VoteReq, reply: VoteReply) {
    && (r, reply) in c.voteReplies && r !in c.voteDone && c.Has(r.args.candidate)
    && (r.args.candidate, r.args.term) in c.votedNum
    && VoteReplyAsserts(c.nodes[r.args.candidate], reply, c.votedNum[(r.args.candidate, r.args.term)])
  }

  ghost function AfterVoteBack(c: Cluster, r: VoteReq, reply: VoteReply): Cluster
    requires CanVoteBack(c, r, reply)
  {
    var key := (r.args.candidate, r.args.term);
    var (n, votes) := VoteReplyStep(c.nodes[r.args.candidate], reply, c.votedNum[key]);
    c.(nodes := c.nodes[r.args.candidate := n], voteDone := c.voteDone + {r}, votedNum := c.votedNum[key := votes])
  }

  /** Any node is handed commands; a server does not know who leads before it asks its node. */
  predicate CanCommand(c: Cluster, i: int) {
    c.Has(i)
  }

  ghost function AfterCommand(c: Cluster, i: int, command: string): Cluster
    requires CanCommand(c, i)
  {
    c.(nodes := c.nodes[i := StartStep(c.nodes[i], command)])
  }

  ghost predicate CanBeat(c: Cluster, i: int, round: int) {
    && c.Has(i)
    && (Leads(c, i) ==>
          && round !in c.appendNums
          && forall to :: 0 <= to < |c.nodes| && to != i ==> HeartBeatAsserts(c.nodes[i], to))
  }

  ghost function AfterBeat(c: Cluster, i: int, round: int): Cluster
    requires CanBeat(c, i, round)
  {
    if !Leads(c, i) then c
    else c.(appendReqs := c.appendReqs + RoundOf(c.nodes[i], i, |c.nodes|, round),
            appendNums := c.appendNums[round := 1])
  }

  ghost predicate CanAppend(c: Cluster, r: AppendReq) {
    r in c.appendReqs && c.Has(r.to) && AppendAsserts(c.nodes[r.to], r.args)
  }

  ghost function AfterAppend(c: Cluster, r: AppendReq): Cluster
    requires CanAppend(c, r)
  {
    var (n, reply) := AppendEntriesStep(c.nodes[r.to], r.args);
    c.(nodes := c.nodes[r.to := n], appendReplies := c.appendReplies + {(r, reply)})
  }

  ghost predicate CanAppendBack(c: Cluster, r: AppendReq, reply: AppendReply) {
    && (r, reply) in c.appendReplies && r !in c.appendDone && c.Has(r.args.leader)
    && r.round in c.appendNums
    && AppendReplyAsserts(c.nodes[r.args.leader], r.to, r.args, reply, c.appendNums[r.round])
  }

  ghost function AfterAppendBack(c: Cluster, r: AppendReq, reply: AppendReply): Cluster
    requires CanAppendBack(c, r, reply)
  {
    var (n, acks) := AppendReplyStep(c.nodes[r.args.leader], r.to, r.args, reply, c.appendNums[r.round]);
    c.(nodes := c.nodes[r.args.leader := n], appendDone := c.appendDone + {r},
       appendNums := c.appendNums[r.round := acks])
  }

  ghost predicate CanApply(c: Cluster, i: int) {
    c.Has(i) && i < |c.applied| && ApplyAsserts(c.nodes[i])
  }

  ghost function AfterApply(c: Cluster, i: int): Cluster
    requires CanApply(c, i)
  {
    c.(nodes := c.nodes[i := ApplyStep(c.nodes[i])],
       applied := c.applied[i := c.applied[i] + ApplyBatch(c.nodes[i])])
  }

  // ---------------------------------------------------------------- runs

  ghost predicate Enabled(c: Cluster, s: Step) {
    match s
    case Elect(i) => CanElect(c, i)
    case Vote(r) => CanVote(c, r)
    case VoteBack(r, reply) => CanVoteBack(c, r, reply)
    case Command(i, _) => CanCommand(c, i)
    case Beat(i, round) => CanBeat(c, i, round)
    case Append(r) => CanAppend(c, r)
    case AppendBack(r, reply) => CanAppendBack(c, r, reply)
    case Apply(i) => CanApply(c, i)
  }

  ghost function Do(c: Cluster, s: Step): Cluster
    requires Enabled(c, s)
  {
    match s
    case Elect(i) => AfterElect(c, i)
    case Vote(r) => AfterVote(c, r)
    case VoteBack(r, reply) => AfterVoteBack(c, r, reply)
    case Command(i, command) => AfterCommand(c, i, command)
    case Beat(i, round) => AfterBeat(c, i, round)
    case Append(r) => AfterAppend(c, r)
    case AppendBack(r, reply) => AfterAppendBack(c, r, reply)
    case Apply(i) => AfterApply(c, i)
  }

  ghost predicate Next(c: Cluster, c': Cluster) {
    exists s :: Enabled(c, s) && c' == Do(c, s)
  }

  /** A run of a cluster of `peers` servers. */
  ghost predicate Run(run: seq<Cluster>, peers: nat) {
    && |run| > 0
    && run[0] == InitCluster(peers)
    && forall k :: 0 <= k < |run| - 1 ==> Next(run[k], run[k + 1])
  }
}
