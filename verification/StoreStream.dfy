/** What the messages of the apply channel do to the store: the stream of `ApplyStream` and the state machine of
    `KvServer` are one server, and this says when its state is that of the log up to the index the stream has
    reached. */
module StoreStream {
  import opened ApplyStream
  import opened KvReplay
  import opened KvSteps
  import opened NodeInvariant
  import opened Options
  import opened RaftSteps
  import opened RaftTypes
  import opened SkipDump
  import K = KvServer

  type Parse = string -> Op
  type Load = string -> Option<Snapshot>

  /** The archive of a snapshot always has two columns of one length. */
  ghost predicate Loads(load: Load) {
    forall data :: K.WellFormed(load(data))
  }

  function Decode(m: ApplyMsg, parse: Parse, load: Load): K.Message {
    match m
    case CommandMsg(command, index) => K.CommandMessage(parse(command), index)
    case SnapshotMsg(data, _, index) => K.SnapshotMessage(load(data), index)
  }

  /** The server after the first k actions: it handles what it pops. */
  ghost function ServerAt(states: seq<Stream>, actions: seq<Action>, k: nat, parse: Parse, load: Load): K.Server
    requires Loads(load) && k <= |actions| < |states|
  {
    if k == 0 then K.Server(EMPTY, 0)
    else
      var before := ServerAt(states, actions, k - 1, parse, load);
      if actions[k - 1].Pop? && states[k - 1].channel != []
      then K.Handle(before, Decode(states[k - 1].channel[0], parse, load))
      else before
  }

  /** The message carries what the log says: the command at its index, or the state of the log up to there. */
  ghost predicate FromLog(m: ApplyMsg, log: seq<Op>, parse: Parse, load: Load) {
    match m
    case CommandMsg(command, index) => 1 <= index <= |log| && parse(command) == log[index - 1]
    case SnapshotMsg(data, _, index) =>
      0 <= index <= |log| && load(data).Some? && Snaps(load(data).value, Replay(EMPTY, log[..index]))
  }

  ghost predicate PopsLog(states: seq<Stream>, actions: seq<Action>, k: nat, log: seq<Op>, parse: Parse, load: Load)
    requires k <= |actions| < |states|
  {
    forall j :: 0 <= j < k && actions[j].Pop? && states[j].channel != [] ==>
      FromLog(states[j].channel[0], log, parse, load)
  }

  // ---------------------------------------------------------------- a snapshot on top of a replayed prefix

  /** The snapshot at index i fits a server that holds the log up to r: ahead of it, if no key it holds has
      another value there; behind it, if no write in between had an effect. */
  ghost predicate Fits(log: seq<Op>, r: int, i: int)
    requires 0 <= r <= |log| && 0 <= i <= |log|
  {
    if i >= r then
      var held, there := Replay(EMPTY, log[..r]).data, Replay(EMPTY, log[..i]).data;
      forall key :: key in held ==> key in there && there[key] == held[key]
    else
      forall j :: i <= j < r ==> !Fresh(log, j)
  }

  lemma FreshInPrefix(log: seq<Op>, r: nat, j: nat)
    requires j < r <= |log|
    ensures log[..r][j] == log[j] && (Fresh(log[..r], j) <==> Fresh(log, j))
  {
    assert forall i :: 0 <= i <= j ==> log[..r][i] == log[i];
  }

  lemma StaleEntryDoesNothing(log: seq<Op>, j: nat)
    requires j < |log|
    ensures log[..j + 1][..j] == log[..j]
    ensures Replay(EMPTY, log[..j + 1]) == ApplyOp(Replay(EMPTY, log[..j]), log[j])
    ensures !Fresh(log, j) ==> Replay(EMPTY, log[..j + 1]) == Replay(EMPTY, log[..j])
  {
    assert log[..j + 1][..j] == log[..j];
    FreshInPrefix(log, j + 1, j);
    if Write(log[j]) {
      DuplicateIffStale(log[..j + 1]);
    }
  }

  lemma {:induction false} NothingFresh(log: seq<Op>, i: nat, r: nat)
    requires i <= r <= |log| && forall j :: i <= j < r ==> !Fresh(log, j)
    ensures Replay(EMPTY, log[..r]) == Replay(EMPTY, log[..i])
    decreases r
  {
    if i < r {
      NothingFresh(log, i, r - 1);
      StaleEntryDoesNothing(log, r - 1);
    }
  }

  /** A write with an effect is known to every later table and to none before. */
  lemma EffectIsRemembered(log: seq<Op>, i: nat, j: nat, r: nat)
    requires i <= j < r <= |log| && Fresh(log, j)
    ensures Duplicate(Replay(EMPTY, log[..r]), log[j].clientId, log[j].requestId)
    ensures !Duplicate(Replay(EMPTY, log[..i]), log[j].clientId, log[j].requestId)
  {
    var c, id := log[j].clientId, log[j].requestId;
    TableOfReplay(log[..r]);
    assert log[..r][j] == log[j];
    assert Wrote(log[..r], c, id);
    TableOfReplay(log[..i]);
    var last := Replay(EMPTY, log[..i]).last;
    if c in last {
      var k :| 0 <= k < i && Write(log[..i][k]) && log[..i][k].clientId == c && log[..i][k].requestId == last[c];
      assert log[..i][k] == log[k];
    }
  }

  lemma StaleTableIff(log: seq<Op>, i: nat, r: nat)
    requires i <= r <= |log|
    ensures Replay(EMPTY, log[..i]).last == Replay(EMPTY, log[..r]).last <==> forall j :: i <= j < r ==> !Fresh(log, j)
  {
    if forall j :: i <= j < r ==> !Fresh(log, j) {
      NothingFresh(log, i, r);
    } else {
      var j :| i <= j < r && Fresh(log, j);
      EffectIsRemembered(log, i, j, r);
    }
  }

  lemma {:induction false} KeysStay(log: seq<Op>, i: nat, r: nat)
    requires i <= r <= |log|
    ensures Replay(EMPTY, log[..i]).data.Keys <= Replay(EMPTY, log[..r]).data.Keys
    decreases r
  {
    if i < r {
      KeysStay(log, i, r - 1);
      StaleEntryDoesNothing(log, r - 1);
    }
  }

  /** Reading a snapshot gives the state of the longer of the two prefixes if and only if the snapshot fits. */
  lemma RestoreFollowsIff(log: seq<Op>, r: nat, i: nat, snapshot: Snapshot)
    requires r <= |log| && i <= |log| && Snaps(snapshot, Replay(EMPTY, log[..i]))
    ensures Restore(Replay(EMPTY, log[..r]), snapshot) == Replay(EMPTY, log[..Max(r, i)]) <==> Fits(log, r, i)
  {
    var s := Replay(EMPTY, log[..r]);
    if i >= r {
      RestoreExactIff(s, snapshot, Replay(EMPTY, log[..i]));
    } else {
      var there := Replay(EMPTY, log[..i]).data;
      LessIsOrder();
      LoadGivesUnion(Less, s.data, snapshot.dump, there);
      KeysStay(log, i, r);
      assert there + s.data == s.data;
      StaleTableIff(log, i, r);
    }
  }

  // ---------------------------------------------------------------- over runs

  ghost predicate FollowsLog(states: seq<Stream>, actions: seq<Action>, k: nat, log: seq<Op>, parse: Parse, load: Load)
    requires Loads(load) && k <= |actions| < |states|
  {
    && 0 <= Reach(states[k].trace) <= |log|
    && ServerAt(states, actions, k, parse, load).kv == Replay(EMPTY, log[..Reach(states[k].trace)])
  }

  /** Every snapshot popped before step k fits what the stream had reached. */
  ghost predicate SnapshotsFit(states: seq<Stream>, actions: seq<Action>, k: nat, log: seq<Op>)
    requires k <= |actions| < |states|
  {
    forall j :: 0 <= j < k ==> SnapshotFits(states[j], actions[j], log)
  }

  ghost predicate SnapshotFits(s: Stream, a: Action, log: seq<Op>) {
    a.Pop? && s.channel != [] && s.channel[0].SnapshotMsg? ==>
      && 0 <= Reach(s.trace) <= |log| && 0 <= s.channel[0].index <= |log|
      && Fits(log, Reach(s.trace), s.channel[0].index)
  }

  /** The stream and the server skip the same commands. */
  lemma {:induction false} SameSnapshotIndex(states: seq<Stream>, actions: seq<Action>, me: int, peers: nat, k: nat,
                                             parse: Parse, load: Load)
    requires Loads(load) && StreamRun(states, actions, me, peers) && k <= |actions|
    ensures ServerAt(states, actions, k, parse, load).lastSnapshot == states[k].lastSnapshot
    decreases k
  {
    if k > 0 {
      SameSnapshotIndex(states, actions, me, peers, k - 1, parse, load);
      assert states[k - 1 + 1] == Act(states[k - 1], actions[k - 1]);
    }
  }

  /** One message, on a server that holds the log up to what the stream has reached. */
  lemma MessageFollowsIff(s: Stream, server: K.Server, log: seq<Op>, parse: Parse, load: Load)
    requires Loads(load) && s.channel != [] && FromLog(s.channel[0], log, parse, load)
    requires server.lastSnapshot == s.lastSnapshot && 0 <= Reach(s.trace) <= |log|
    requires server.kv == Replay(EMPTY, log[..Reach(s.trace)])
    requires s.channel[0].CommandMsg? && s.channel[0].index > s.lastSnapshot ==>
               s.channel[0].index == Reach(s.trace) + 1
    ensures var s' := Act(s, Pop);
            && 0 <= Reach(s'.trace) <= |log|
            && (K.Handle(server, Decode(s.channel[0], parse, load)).kv == Replay(EMPTY, log[..Reach(s'.trace)]) <==>
                SnapshotFits(s, Pop, log))
  {
    if s.channel[0].CommandMsg? {
      CommandFollows(s, server, log, parse, load);
    } else {
      SnapshotFollowsIff(s, server, log, parse, load);
    }
  }

  lemma CommandFollows(s: Stream, server: K.Server, log: seq<Op>, parse: Parse, load: Load)
    requires Loads(load) && s.channel != [] && s.channel[0].CommandMsg? && FromLog(s.channel[0], log, parse, load)
    requires server.lastSnapshot == s.lastSnapshot && 0 <= Reach(s.trace) <= |log|
    requires server.kv == Replay(EMPTY, log[..Reach(s.trace)])
    requires s.channel[0].index > s.lastSnapshot ==> s.channel[0].index == Reach(s.trace) + 1
    ensures var s' := Act(s, Pop);
            && 0 <= Reach(s'.trace) <= |log|
            && K.Handle(server, Decode(s.channel[0], parse, load)).kv == Replay(EMPTY, log[..Reach(s'.trace)])
  {
    var index := s.channel[0].index;
    ReachSnoc(s.trace, Ran(index));
    if index > s.lastSnapshot {
      StaleEntryDoesNothing(log, Reach(s.trace));
    }
  }

  lemma SnapshotFollowsIff(s: Stream, server: K.Server, log: seq<Op>, parse: Parse, load: Load)
    requires Loads(load) && s.channel != [] && s.channel[0].SnapshotMsg? && FromLog(s.channel[0], log, parse, load)
    requires 0 <= Reach(s.trace) <= |log| && server.kv == Replay(EMPTY, log[..Reach(s.trace)])
    ensures var s' := Act(s, Pop);
            && 0 <= Reach(s'.trace) <= |log|
            && (K.Handle(server, Decode(s.channel[0], parse, load)).kv == Replay(EMPTY, log[..Reach(s'.trace)]) <==>
                SnapshotFits(s, Pop, log))
  {
    var m := s.channel[0];
    ReachSnoc(s.trace, Restored(m.index));
    assert Act(s, Pop).trace == s.trace + [Restored(m.index)];
    assert K.Handle(server, Decode(m, parse, load)).kv == Restore(server.kv, load(m.data).value);
    RestoreFollowsIff(log, Reach(s.trace), m.index, load(m.data).value);
  }

  lemma StepFollowsIff(states: seq<Stream>, actions: seq<Action>, me: int, peers: nat, k: nat, log: seq<Op>,
                       parse: Parse, load: Load)
    requires Loads(load) && StreamRun(states, actions, me, peers) && k < |actions|
    requires PopsLog(states, actions, k + 1, log, parse, load)
    requires FollowsLog(states, actions, k, log, parse, load)
    ensures FollowsLog(states, actions, k + 1, log, parse, load) <==> SnapshotFits(states[k], actions[k], log)
  {
    var s, a := states[k], actions[k];
    assert states[k + 1] == Act(s, a);
    if a.Pop? {
      SameSnapshotIndex(states, actions, me, peers, k, parse, load);
      if s.channel[0].CommandMsg? && s.channel[0].index > s.lastSnapshot {
        AppliesInOrder(states, actions, me, peers, k + 1);
        NextInOrder(s.trace, s.channel[0].index);
      }
      MessageFollowsIff(s, ServerAt(states, actions, k, parse, load), log, parse, load);
    }
  }

  lemma NextInOrder(trace: seq<Effect>, index: int)
    requires InOrder(trace + [Ran(index)])
    ensures index == Reach(trace) + 1
  {
    var longer := trace + [Ran(index)];
    assert longer[|trace|] == Ran(index) && longer[..|trace|] == trace;
  }

  /** In every run whose messages are those of a log, the server holds the state of the log up to what the stream
      has reached, at every moment, if and only if every snapshot it reads fits. */
  lemma ServerFollowsLogIff(states: seq<Stream>, actions: seq<Action>, me: int, peers: nat, k: nat,
                            log: seq<Op>, parse: Parse, load: Load)
    requires Loads(load) && StreamRun(states, actions, me, peers) && k <= |actions|
    requires PopsLog(states, actions, k, log, parse, load)
    ensures (forall j: nat :: j <= k ==> FollowsLog(states, actions, j, log, parse, load)) <==>
            SnapshotsFit(states, actions, k, log)
  {
    if SnapshotsFit(states, actions, k, log) {
      forall j: nat | j <= k
        ensures FollowsLog(states, actions, j, log, parse, load)
      {
        FollowsWhileFit(states, actions, me, peers, j, k, log, parse, load);
      }
    }
    if forall j: nat :: j <= k ==> FollowsLog(states, actions, j, log, parse, load) {
      forall j | 0 <= j < k
        ensures SnapshotFits(states[j], actions[j], log)
      {
        FitsIfFollows(states, actions, me, peers, j, k, log, parse, load);
      }
    }
  }

  lemma {:induction false} FollowsWhileFit(states: seq<Stream>, actions: seq<Action>, me: int, peers: nat, j: nat, k: nat,
                                           log: seq<Op>, parse: Parse, load: Load)
    requires Loads(load) && StreamRun(states, actions, me, peers) && j <= k <= |actions|
    requires PopsLog(states, actions, k, log, parse, load) && SnapshotsFit(states, actions, k, log)
    ensures FollowsLog(states, actions, j, log, parse, load)
    decreases j
  {
    if j == 0 {
      assert log[..0] == [];
    } else {
      FollowsWhileFit(states, actions, me, peers, j - 1, k, log, parse, load);
      StepFollowsIff(states, actions, me, peers, j - 1, log, parse, load);
    }
  }

  lemma FitsIfFollows(states: seq<Stream>, actions: seq<Action>, me: int, peers: nat, j: nat, k: nat,
                      log: seq<Op>, parse: Parse, load: Load)
    requires Loads(load) && StreamRun(states, actions, me, peers) && j < k <= |actions|
    requires PopsLog(states, actions, k, log, parse, load)
    requires FollowsLog(states, actions, j, log, parse, load) && FollowsLog(states, actions, j + 1, log, parse, load)
    ensures SnapshotFits(states[j], actions[j], log)
  {
    StepFollowsIff(states, actions, me, peers, j, log, parse, load);
  }

  /** A snapshot from behind that does not fit makes the server forget a write it has executed: a repetition of
      that write would be executed again. */
  lemma StaleSnapshotForgets(log: seq<Op>, r: nat, i: nat, snapshot: Snapshot) returns (j: nat)
    requires i < r <= |log| && Snaps(snapshot, Replay(EMPTY, log[..i])) && !Fits(log, r, i)
    ensures i <= j < r && Fresh(log, j)
    ensures var s := Replay(EMPTY, log[..r]);
            && Duplicate(s, log[j].clientId, log[j].requestId)
            && !Duplicate(Restore(s, snapshot), log[j].clientId, log[j].requestId)
  {
    var e :| i <= e < r && Fresh(log, e);
    j := e;
    EffectIsRemembered(log, i, j, r);
  }

  // ---------------------------------------------------------------- a snapshot from behind, in a run

  const FIRST := Op("Put", "k", "x", "c", 1)
  const SECOND := Op("Put", "k", "y", "c", 2)

  const A := Entry("a", 1, 1)
  const B := Entry("b", 1, 2)
  const BOTH := AppendArgs(1, 0, 0, 0, [A, B], 2)
  const LATE := SnapshotArgs(1, 0, 1, 1, "s")

  /** The node of the run below when it has committed, applied and been sent the snapshot. */
  ghost function Committed(): RaftTypes.Node {
    InitNode(1, 3).(currentTerm := 1, logs := [A, B], commitIndex := 2)
  }

  ghost function Drained(): RaftTypes.Node {
    Committed().(lastApplied := 2)
  }

  ghost function Overtaken(): RaftTypes.Node {
    Drained().(logs := [B], snapIndex := 1, snapTerm := 1)
  }

  lemma Commits()
    ensures Possible(InitNode(1, 3), GotEntries(BOTH)) && After(InitNode(1, 3), GotEntries(BOTH)) == Committed()
  {
    assert Merge([], 0, [A, B]) == [A, B];
  }

  lemma Drains()
    ensures ApplyAsserts(Committed()) && ApplyStep(Committed()) == Drained()
    ensures ApplyBatch(Committed()) == [CommandMsg("a", 1), CommandMsg("b", 2)]
  {
  }

  lemma IsOvertaken()
    ensures Indexed(Drained()) && InstallSnapshotStep(Drained(), LATE) == (Overtaken(), [SnapshotMsg("s", 1, 1)])
  {
    assert [A, B][1..] == [B];
  }

  /** A run so far, of which only commands of the log were popped. */
  ghost predicate Plain(states: seq<Stream>, actions: seq<Action>, log: seq<Op>, parse: Parse, load: Load) {
    && StreamRun(states, actions, 1, 3) && PopsLog(states, actions, |actions|, log, parse, load)
    && forall j :: 0 <= j < |actions| ==> !PopsSnapshot(states[j], actions[j])
  }

  ghost predicate PopsSnapshot(s: Stream, a: Action) {
    a.Pop? && s.channel != [] && s.channel[0].SnapshotMsg?
  }

  lemma Extend(states: seq<Stream>, actions: seq<Action>, a: Action, s: Stream, log: seq<Op>, parse: Parse, load: Load)
    requires StreamRun(states, actions, 1, 3) && PopsLog(states, actions, |actions|, log, parse, load)
    requires var last := states[|actions|];
             Possibly(last, a) && s == Act(last, a) && (a.Pop? ==> FromLog(last.channel[0], log, parse, load))
    ensures StreamRun(states + [s], actions + [a], 1, 3)
    ensures PopsLog(states + [s], actions + [a], |actions| + 1, log, parse, load)
    ensures Plain(states, actions, log, parse, load) && !PopsSnapshot(states[|actions|], a) ==>
              Plain(states + [s], actions + [a], log, parse, load)
  {
    var states', actions' := states + [s], actions + [a];
    forall k | 0 <= k < |actions'|
      ensures Possibly(states'[k], actions'[k]) && states'[k + 1] == Act(states'[k], actions'[k])
    {
      if k < |actions| {
        assert states'[k] == states[k] && states'[k + 1] == states[k + 1];
      }
    }
  }

  lemma StartsRun(log: seq<Op>, parse: Parse, load: Load)
    ensures Plain([Stream(InitNode(1, 3), [], [], 0, [])], [], log, parse, load)
  {
  }

  lemma RunToBatch(log: seq<Op>, parse: Parse, load: Load) returns (states: seq<Stream>, actions: seq<Action>)
    ensures Plain(states, actions, log, parse, load) && |actions| == 2
    ensures states[2] == Stream(Drained(), [CommandMsg("a", 1), CommandMsg("b", 2)], [], 0, [])
  {
    var start, got := Stream(InitNode(1, 3), [], [], 0, []), Other(GotEntries(BOTH));
    StartsRun(log, parse, load);
    Commits();
    var s1 := start.(node := Committed());
    Extend([start], [], got, s1, log, parse, load);
    Drains();
    var s2 := Stream(Drained(), [CommandMsg("a", 1), CommandMsg("b", 2)], [], 0, []);
    Extend([start] + [s1], [] + [got], Collect, s2, log, parse, load);
    states, actions := [start] + [s1] + [s2], [] + [got] + [Collect];
  }

  /** The batch is pushed message by message. */
  lemma RunToChannel(log: seq<Op>, parse: Parse, load: Load) returns (states: seq<Stream>, actions: seq<Action>)
    ensures Plain(states, actions, log, parse, load) && |actions| == 4
    ensures states[4] == Stream(Drained(), [], [CommandMsg("a", 1), CommandMsg("b", 2)], 0, [])
  {
    var x, y := CommandMsg("a", 1), CommandMsg("b", 2);
    states, actions := RunToBatch(log, parse, load);
    var n := states[2].node;
    assert [x, y][1..] == [y] && [] + [x] == [x] && [y][1..] == [] && [x] + [y] == [x, y];
    var s3, s4 := Stream(n, [y], [x], 0, []), Stream(n, [], [x, y], 0, []);
    Extend(states, actions, Push, s3, log, parse, load);
    states, actions := states + [s3], actions + [Push];
    Extend(states, actions, Push, s4, log, parse, load);
    states, actions := states + [s4], actions + [Push];
  }

  /** And popped. */
  lemma RunToServer(log: seq<Op>, parse: Parse, load: Load) returns (states: seq<Stream>, actions: seq<Action>)
    requires |log| == 2 && parse("a") == log[0] && parse("b") == log[1]
    ensures Plain(states, actions, log, parse, load) && |actions| == 6
    ensures states[6] == Stream(Drained(), [], [], 0, [Ran(1), Ran(2)])
  {
    var x, y := CommandMsg("a", 1), CommandMsg("b", 2);
    states, actions := RunToChannel(log, parse, load);
    var n := states[4].node;
    assert [x, y][1..] == [y] && [] + [Ran(1)] == [Ran(1)] && [y][1..] == [] && [Ran(1)] + [Ran(2)] == [Ran(1), Ran(2)];
    var s5, s6 := Stream(n, [], [y], 0, [Ran(1)]), Stream(n, [], [], 0, [Ran(1), Ran(2)]);
    Extend(states, actions, Pop, s5, log, parse, load);
    states, actions := states + [s5], actions + [Pop];
    Extend(states, actions, Pop, s6, log, parse, load);
    states, actions := states + [s6], actions + [Pop];
  }

  /** Then the leader's snapshot of the first entry arrives late: its index is above the node's snapshot index,
      which is all that is compared. */
  lemma RunToSnapshot(log: seq<Op>, parse: Parse, load: Load) returns (states: seq<Stream>, actions: seq<Action>)
    requires |log| == 2 && parse("a") == log[0] && parse("b") == log[1]
    ensures Plain(states, actions, log, parse, load) && |actions| == 7
    ensures states[7] == Stream(Overtaken(), [], [SnapshotMsg("s", 1, 1)], 0, [Ran(1), Ran(2)])
  {
    states, actions := RunToServer(log, parse, load);
    IsOvertaken();
    var m := SnapshotMsg("s", 1, 1);
    assert [] + [m] == [m];
    var s7 := Stream(Overtaken(), [], [m], 0, [Ran(1), Ran(2)]);
    Extend(states, actions, Install(LATE), s7, log, parse, load);
    states, actions := states + [s7], actions + [Install(LATE)];
  }

  lemma ReachTwo()
    ensures Reach([Ran(1), Ran(2)]) == 2
  {
    ReachSnoc([Ran(1)], Ran(2));
    ReachSnoc([], Ran(1));
    assert [] + [Ran(1)] == [Ran(1)] && [Ran(1)] + [Ran(2)] == [Ran(1), Ran(2)];
  }

  /** In that run the second write is a repetition to the server before it reads the snapshot, and none after. */
  lemma LateSnapshotForgets(parse: Parse, load: Load, snapshot: Snapshot)
      returns (states: seq<Stream>, actions: seq<Action>)
    requires Loads(load) && parse("a") == FIRST && parse("b") == SECOND && load("s") == Some(snapshot)
    requires Snaps(snapshot, Replay(EMPTY, [FIRST]))
    ensures |actions| == 8 && StreamRun(states, actions, 1, 3)
    ensures PopsLog(states, actions, 8, [FIRST, SECOND], parse, load)
    ensures Duplicate(ServerAt(states, actions, 7, parse, load).kv, "c", 2)
    ensures !Duplicate(ServerAt(states, actions, 8, parse, load).kv, "c", 2)
  {
    var log := [FIRST, SECOND];
    assert log[..1] == [FIRST] && log[..2] == log;
    var states7, actions7 := RunToSnapshot(log, parse, load);
    var m := SnapshotMsg("s", 1, 1);
    var s8 := Act(states7[7], Pop);
    Extend(states7, actions7, Pop, s8, log, parse, load);
    states, actions := states7 + [s8], actions7 + [Pop];
    forall j | 0 <= j < 7
      ensures states[j] == states7[j] && actions[j] == actions7[j]
    {
    }
    ServerFollowsLogIff(states, actions, 1, 3, 7, log, parse, load);
    assert FollowsLog(states, actions, 7, log, parse, load);
    ReachTwo();
    assert Fresh(log, 1);
    EffectIsRemembered(log, 1, 1, 2);
  }
}
