/** The channel from a node to its key-value server.

    The applier collects a batch under the lock and pushes it after releasing it, one message at a time;
    a snapshot from the leader is pushed under the lock, so it can land in front of, inside or behind a
    batch collected before it.  The server skips commands its last snapshot covers, and asks the node to
    compact up to a command it has run, any time after running it. */
module ApplyStream {
  import opened RaftTypes
  import opened RaftSteps
  import opened NodeInvariant

  /** What the key-value server did, in order. */
  datatype Effect = Ran(index: int) | Restored(index: int)

  datatype Stream = Stream(
    node: Node,
    pending: seq<ApplyMsg>,
    channel: seq<ApplyMsg>,
    lastSnapshot: int,
    trace: seq<Effect>)

  /** The largest index of a command run or a snapshot restored.  What the state of the store has to do with the
      log up to there is the subject of `StoreStream`. */
  function Reach(trace: seq<Effect>): int {
    if trace == [] then 0
    else
      var before, e := Reach(trace[..|trace| - 1]), trace[|trace| - 1];
      Max(before, e.index)
  }

  /** Every command run is the one right after the largest index so far. */
  ghost predicate InOrder(trace: seq<Effect>) {
    forall k :: 0 <= k < |trace| && trace[k].Ran? ==> trace[k].index == Reach(trace[..k]) + 1
  }

  /** `ReadRaftApplyCommandLoop` with one message: `GetCommandFromRaft` or `GetSnapShotFromRaft`. */
  function Handle(s: Stream, m: ApplyMsg): Stream {
    match m
    case CommandMsg(_, index) =>
      if index <= s.lastSnapshot then s else s.(trace := s.trace + [Ran(index)])
    case SnapshotMsg(_, _, index) =>
      s.(lastSnapshot := index, trace := s.trace + [Restored(index)])
  }

  datatype Action =
    | Collect
    | Push
    | Install(snapshot: SnapshotArgs)
    | Compact(index: int)
    | Other(event: Event)
    | Pop

  ghost predicate Possibly(s: Stream, a: Action) {
    match a
    case Collect => s.pending == [] && ApplyAsserts(s.node)
    case Push => s.pending != []
    case Install(_) => Indexed(s.node)
    case Compact(index) =>
      Ran(index) in s.trace && Indexed(s.node) && s.node.commitIndex <= LastLogIndex(s.node)
    case Other(e) => !e.Applied? && !e.Compacted? && !e.GotSnapshot? && Possible(s.node, e)
    case Pop => s.channel != []
  }

  ghost function Act(s: Stream, a: Action): Stream
    requires Possibly(s, a)
  {
    match a
    case Collect => s.(pending := ApplyBatch(s.node), node := ApplyStep(s.node))
    case Push => s.(pending := s.pending[1..], channel := s.channel + [s.pending[0]])
    case Install(snapshot) =>
      var (n, msgs) := InstallSnapshotStep(s.node, snapshot);
      s.(node := n, channel := s.channel + msgs)
    case Compact(index) => s.(node := SnapshotStep(s.node, index))
    case Other(e) => s.(node := After(s.node, e))
    case Pop => Handle(s.(channel := s.channel[1..]), s.channel[0])
  }

  // ---------------------------------------------------------------- what is under way

  /** Where messages lead a server that has reached `reach` and whose last snapshot was `snap`; `ok` when every
      command among them is skipped or next, and snapshots only go forward. */
  datatype Flow = Flow(ok: bool, reach: int, snap: int)

  function After1(f: Flow, m: ApplyMsg): Flow {
    match m
    case CommandMsg(_, i) =>
      if i <= f.snap then f else Flow(f.ok && i == f.reach + 1, Max(f.reach, i), f.snap)
    case SnapshotMsg(_, _, i) => Flow(f.ok && f.snap < i, Max(f.reach, i), i)
  }

  function End(msgs: seq<ApplyMsg>, f: Flow): Flow {
    if msgs == [] then f else After1(End(msgs[..|msgs| - 1], f), msgs[|msgs| - 1])
  }

  lemma {:induction false} EndFirst(msgs: seq<ApplyMsg>, f: Flow)
    requires msgs != []
    ensures End(msgs, f) == End(msgs[1..], After1(f, msgs[0]))
    decreases |msgs|
  {
    var last := |msgs| - 1;
    if last == 0 {
      assert msgs[..last] == [] && msgs[1..] == [];
    } else {
      EndFirst(msgs[..last], f);
      assert msgs[..last][1..] == msgs[1..][..last - 1];
    }
  }

  lemma EndSnoc(msgs: seq<ApplyMsg>, m: ApplyMsg, f: Flow)
    ensures End(msgs + [m], f) == After1(End(msgs, f), m)
  {
    assert (msgs + [m])[..|msgs|] == msgs;
  }

  lemma {:induction false} EndForward(msgs: seq<ApplyMsg>, f: Flow)
    ensures End(msgs, f).reach >= f.reach
    ensures End(msgs, f).ok ==> f.ok && End(msgs, f).snap >= f.snap
    ensures f.reach >= f.snap ==> End(msgs, f).reach >= End(msgs, f).snap
    decreases |msgs|
  {
    if msgs != [] {
      EndForward(msgs[..|msgs| - 1], f);
    }
  }

  function Now(s: Stream): Flow {
    Flow(true, Reach(s.trace), s.lastSnapshot)
  }

  /** The batch being pushed is consecutive; the channel leads up to it, or past its beginning because of a
      snapshot; and together they lead exactly to the node's applied index. */
  ghost predicate PendingOk(pending: seq<ApplyMsg>, f: Flow, lastApplied: int) {
    if pending == [] then lastApplied == f.reach
    else
      var p := pending[0].index;
      && (forall k :: 0 <= k < |pending| ==> pending[k].CommandMsg? && pending[k].index == p + k)
      && p - 1 <= f.reach && (f.reach > p - 1 ==> f.reach == f.snap)
      && lastApplied == Max(f.reach, p + |pending| - 1)
  }

  ghost predicate StreamInv(s: Stream) {
    var f := End(s.channel, Now(s));
    && NodeInv(s.node)
    && InOrder(s.trace) && s.lastSnapshot <= Reach(s.trace)
    && f.ok && f.snap <= s.node.snapIndex
    && PendingOk(s.pending, f, s.node.lastApplied)
  }

  lemma ReachSnoc(trace: seq<Effect>, e: Effect)
    ensures Reach(trace + [e]) == Max(Reach(trace), e.index)
  {
    assert (trace + [e])[..|trace|] == trace;
  }

  lemma InOrderSnoc(trace: seq<Effect>, e: Effect)
    requires InOrder(trace) && (e.Ran? ==> e.index == Reach(trace) + 1)
    ensures InOrder(trace + [e])
  {
    var longer := trace + [e];
    forall k | 0 <= k < |longer| && longer[k].Ran?
      ensures longer[k].index == Reach(longer[..k]) + 1
    {
      assert longer[..k] == trace[..k];
      assert trace[..|trace|] == trace;
    }
  }

  lemma {:induction false} WithinReach(trace: seq<Effect>, e: Effect)
    requires e in trace
    ensures e.index <= Reach(trace)
    decreases |trace|
  {
    if e != trace[|trace| - 1] {
      WithinReach(trace[..|trace| - 1], e);
    }
  }

  // ---------------------------------------------------------------- every action keeps it

  lemma PopKeeps(s: Stream)
    requires StreamInv(s) && s.channel != []
    ensures StreamInv(Act(s, Pop))
  {
    var s', m := Act(s, Pop), s.channel[0];
    EndFirst(s.channel, Now(s));
    EndForward(s.channel[1..], After1(Now(s), m));
    match m {
      case CommandMsg(_, i) =>
        ReachSnoc(s.trace, Ran(i));
        if i > s.lastSnapshot {
          InOrderSnoc(s.trace, Ran(i));
        }
      case SnapshotMsg(_, _, i) =>
        ReachSnoc(s.trace, Restored(i));
        InOrderSnoc(s.trace, Restored(i));
    }
    assert Now(s') == After1(Now(s), m);
  }

  lemma PushKeeps(s: Stream)
    requires StreamInv(s) && s.pending != []
    ensures StreamInv(Act(s, Push))
  {
    EndSnoc(s.channel, s.pending[0], Now(s));
    EndForward(s.channel, Now(s));
    PendingAfterCommand(s.pending, End(s.channel, Now(s)), s.node.lastApplied);
  }

  lemma PendingAfterCommand(pending: seq<ApplyMsg>, f: Flow, lastApplied: int)
    requires pending != [] && PendingOk(pending, f, lastApplied) && f.ok && f.snap <= f.reach
    ensures After1(f, pending[0]).ok && After1(f, pending[0]).snap == f.snap
    ensures PendingOk(pending[1..], After1(f, pending[0]), lastApplied)
  {
  }

  lemma InstallKeeps(s: Stream, a: SnapshotArgs)
    requires StreamInv(s)
    ensures StreamInv(Act(s, Install(a)))
  {
    var s', f := Act(s, Install(a)), End(s.channel, Now(s));
    HandlersKeepNodeInv(s.node, GotSnapshot(a));
    InstallPushes(s.node, a);
    EndForward(s.channel, Now(s));
    if Installs(s.node, a) {
      var m := SnapshotMsg(a.data, a.lastTerm, a.lastIndex);
      assert s'.channel == s.channel + [m];
      EndSnoc(s.channel, m, Now(s));
      PendingAfterSnapshot(s.pending, f, s.node.lastApplied, m);
    } else {
      assert s'.channel == s.channel;
    }
  }

  lemma InstallPushes(n: Node, a: SnapshotArgs)
    requires NodeInv(n)
    ensures var (n', msgs) := InstallSnapshotStep(n, a);
            if Installs(n, a) then
              && msgs == [SnapshotMsg(a.data, a.lastTerm, a.lastIndex)]
              && n'.snapIndex == a.lastIndex && n'.lastApplied == Max(n.lastApplied, a.lastIndex)
            else msgs == [] && n'.snapIndex == n.snapIndex && n'.lastApplied == n.lastApplied
  {
  }

  lemma PendingAfterSnapshot(pending: seq<ApplyMsg>, f: Flow, lastApplied: int, m: ApplyMsg)
    requires PendingOk(pending, f, lastApplied) && m.SnapshotMsg? && f.snap < m.index && f.snap <= f.reach
    ensures PendingOk(pending, After1(f, m), Max(lastApplied, m.index))
  {
  }

  lemma NodeActionKeeps(s: Stream, a: Action)
    requires StreamInv(s) && Possibly(s, a) && (a.Collect? || a.Compact? || a.Other?)
    ensures StreamInv(Act(s, a))
  {
    EndForward(s.channel, Now(s));
    match a {
      case Collect =>
        HandlersKeepNodeInv(s.node, Applied);
      case Compact(index) =>
        HandlersKeepNodeInv(s.node, Compacted(index));
        WithinReach(s.trace, Ran(index));
      case Other(e) =>
        HandlersKeepNodeInv(s.node, e);
        OthersApplyNothing(s.node, e);
    }
  }

  lemma OthersApplyNothing(n: Node, e: Event)
    requires Possible(n, e) && !e.Applied? && !e.Compacted? && !e.GotSnapshot?
    ensures After(n, e).lastApplied == n.lastApplied && After(n, e).snapIndex == n.snapIndex
  {
  }

  lemma ActionKeeps(s: Stream, a: Action)
    requires StreamInv(s) && Possibly(s, a)
    ensures StreamInv(Act(s, a))
  {
    match a {
      case Pop => PopKeeps(s);
      case Push => PushKeeps(s);
      case Install(snapshot) => InstallKeeps(s, snapshot);
      case _ => NodeActionKeeps(s, a);
    }
  }

  // ---------------------------------------------------------------- over runs

  ghost predicate StreamRun(states: seq<Stream>, actions: seq<Action>, me: int, peers: nat) {
    && |states| == |actions| + 1
    && states[0] == Stream(InitNode(me, peers), [], [], 0, [])
    && forall k :: 0 <= k < |actions| ==> Possibly(states[k], actions[k]) && states[k + 1] == Act(states[k], actions[k])
  }

  /** Over any interleaving the server runs each command right after the largest index it has run or restored:
      none twice, none out of order, none skipped, and after a snapshot ahead of it the next one is the
      snapshot's successor. */
  lemma {:induction false} AppliesInOrder(states: seq<Stream>, actions: seq<Action>, me: int, peers: nat, k: nat)
    requires StreamRun(states, actions, me, peers) && k < |states|
    ensures StreamInv(states[k]) && InOrder(states[k].trace)
    decreases k
  {
    if k > 0 {
      AppliesInOrder(states, actions, me, peers, k - 1);
      ActionKeeps(states[k - 1], actions[k - 1]);
      assert states[k - 1 + 1] == Act(states[k - 1], actions[k - 1]);
    }
  }

  /** In particular no index is run twice, and later ones are larger. */
  lemma RunOnce(states: seq<Stream>, actions: seq<Action>, me: int, peers: nat, k: nat, i: nat, j: nat)
    requires StreamRun(states, actions, me, peers) && k < |states|
    requires i < j < |states[k].trace| && states[k].trace[i].Ran? && states[k].trace[j].Ran?
    ensures states[k].trace[i].index < states[k].trace[j].index
  {
    var trace := states[k].trace;
    AppliesInOrder(states, actions, me, peers, k);
    assert trace[..j][i] == trace[i];
    WithinReach(trace[..j], trace[i]);
  }

  /** Right after restoring a snapshot ahead of everything before it, the next command is its successor. */
  lemma ContinuesAfterSnapshot(states: seq<Stream>, actions: seq<Action>, me: int, peers: nat, k: nat, i: nat)
    requires StreamRun(states, actions, me, peers) && k < |states|
    requires i + 1 < |states[k].trace| && states[k].trace[i].Restored? && states[k].trace[i + 1].Ran?
    requires states[k].trace[i].index >= Reach(states[k].trace[..i])
    ensures states[k].trace[i + 1].index == states[k].trace[i].index + 1
  {
    var trace := states[k].trace;
    AppliesInOrder(states, actions, me, peers, k);
    assert trace[..i + 1] == trace[..i] + [trace[i]];
    ReachSnoc(trace[..i], trace[i]);
  }

  /** The command was run, or a snapshot that covers it restored. */
  ghost predicate Covered(trace: seq<Effect>, i: int) {
    Ran(i) in trace || exists e :: e in trace && e.Restored? && i <= e.index
  }

  lemma {:induction false} ReachIsCovered(trace: seq<Effect>, i: int)
    requires InOrder(trace) && 1 <= i <= Reach(trace)
    ensures Covered(trace, i)
    decreases |trace|
  {
    var before, e := trace[..|trace| - 1], trace[|trace| - 1];
    assert trace == before + [e];
    if i <= Reach(before) {
      forall k | 0 <= k < |before|
        ensures before[k] == trace[k] && before[..k] == trace[..k]
      {
      }
      ReachIsCovered(before, i);
    } else {
      assert e in trace;
    }
  }

  /** Nothing is lost: when no message is under way, every command up to the last one the node has handed out was run
      or is covered by a snapshot that was restored, and none beyond it. */
  lemma NothingIsLost(states: seq<Stream>, actions: seq<Action>, me: int, peers: nat, k: nat, i: int)
    requires StreamRun(states, actions, me, peers) && k < |states|
    requires states[k].pending == [] && states[k].channel == [] && 1 <= i
    ensures Covered(states[k].trace, i) <==> i <= states[k].node.lastApplied
  {
    var s := states[k];
    AppliesInOrder(states, actions, me, peers, k);
    assert Reach(s.trace) == s.node.lastApplied;
    if i <= Reach(s.trace) {
      ReachIsCovered(s.trace, i);
    }
    forall e | e in s.trace
      ensures e.index <= Reach(s.trace)
    {
      WithinReach(s.trace, e);
    }
  }
}
