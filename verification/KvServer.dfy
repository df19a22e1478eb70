/** class KvServer of src/raftCore/KvServer.cpp and KvServer.h: the apply path over the skip list. */
module KvServer {
  import opened KvReplay
  import opened KvSteps
  import opened Options
  import opened SkipDump
  import opened SkipList
  import opened SkipTower

  /** What the node pushes on the channel; an empty snapshot string is None. */
  datatype Message =
    | CommandMessage(op: Op, index: int)
    | SnapshotMessage(snapshot: Option<Snapshot>, index: int)

  ghost predicate WellFormed(snapshot: Option<Snapshot>) {
    snapshot.Some? ==> |snapshot.value.dump.keys| == |snapshot.value.dump.vals|
  }

  /** The server's state between two messages. */
  datatype Server = Server(kv: Kv, lastSnapshot: int)

  ghost function Handle(s: Server, m: Message): Server
    requires m.SnapshotMessage? ==> WellFormed(m.snapshot)
  {
    match m
    case CommandMessage(op, index) =>
      if index <= s.lastSnapshot then s else s.(kv := ApplyOp(s.kv, op))
    case SnapshotMessage(snapshot, index) =>
      Server(if snapshot.Some? then Restore(s.kv, snapshot.value) else s.kv, index)
  }

  ghost function HandleAll(s: Server, ms: seq<Message>): Server
    requires forall m :: m in ms && m.SnapshotMessage? ==> WellFormed(m.snapshot)
  {
    if ms == [] then s else Handle(HandleAll(s, ms[..|ms| - 1]), ms[|ms| - 1])
  }

  /** The commands of a log from position j on, under their indices. */
  ghost function CommandsFrom(ops: seq<Op>, j: nat): (ms: seq<Message>)
    requires j <= |ops|
    ensures |ms| == |ops| - j && forall i :: 0 <= i < |ms| ==> ms[i] == CommandMessage(ops[j + i], j + i + 1)
  {
    seq(|ops| - j, i requires 0 <= i < |ops| - j => CommandMessage(ops[j + i], j + i + 1))
  }

  /** Commands up to the last snapshot are skipped, the others are replayed. */
  lemma {:induction false} CommandsReplayTheRest(s: Server, ops: seq<Op>, j: nat, n: nat)
    requires j <= n <= |ops| && 0 <= s.lastSnapshot
    ensures var k := if s.lastSnapshot < j then j else if n < s.lastSnapshot then n else s.lastSnapshot;
            HandleAll(s, CommandsFrom(ops, j)[..n - j]) == s.(kv := Replay(s.kv, ops[k..n]))
    decreases n
  {
    if n > j {
      CommandsReplayTheRest(s, ops, j, n - 1);
      HandleOneMore(s, ops, j, n);
      var k := if s.lastSnapshot < j then j else if n < s.lastSnapshot then n else s.lastSnapshot;
      if k < n {
        ReplayOneMore(s.kv, ops, k, n);
      }
    }
  }

  lemma HandleOneMore(s: Server, ops: seq<Op>, j: nat, n: nat)
    requires j < n <= |ops|
    ensures HandleAll(s, CommandsFrom(ops, j)[..n - j]) ==
            Handle(HandleAll(s, CommandsFrom(ops, j)[..n - 1 - j]), CommandMessage(ops[n - 1], n))
  {
    var ms := CommandsFrom(ops, j)[..n - j];
    assert ms[..|ms| - 1] == CommandsFrom(ops, j)[..n - 1 - j];
  }

  lemma ReplayOneMore(s: Kv, ops: seq<Op>, k: nat, n: nat)
    requires k < n <= |ops|
    ensures Replay(s, ops[k..n]) == ApplyOp(Replay(s, ops[k..n - 1]), ops[n - 1])
  {
    assert ops[k..n][..n - k - 1] == ops[k..n - 1];
  }

  /** An empty server that reads the snapshot of the first k entries and is then sent the log from any entry
      not beyond the next one, holds the state of the whole log. */
  lemma EmptyServerCatchesUp(ops: seq<Op>, k: nat, snapshot: Snapshot, j: nat)
    requires j <= k <= |ops| && Snaps(snapshot, Replay(EMPTY, ops[..k]))
    ensures var ms := [SnapshotMessage(Some(snapshot), k)] + CommandsFrom(ops, j);
            HandleAll(Server(EMPTY, 0), ms) == Server(Replay(EMPTY, ops), k)
  {
    var start, rest, m := Server(EMPTY, 0), CommandsFrom(ops, j), SnapshotMessage(Some(snapshot), k);
    var restored := Server(Restore(EMPTY, snapshot), k);
    assert HandleAll(start, [m]) == restored by {
      HandleOne(start, m);
    }
    assert HandleAll(start, [m] + rest) == HandleAll(restored, rest) by {
      HandleSplit(start, [m], rest);
    }
    assert HandleAll(restored, rest) == Server(Replay(EMPTY, ops), k) by {
      CommandsAboveSnapshot(restored, ops, j);
      SnapshotCommutesWithReplay(ops, k, snapshot);
    }
  }

  lemma CommandsAboveSnapshot(s: Server, ops: seq<Op>, j: nat)
    requires j <= s.lastSnapshot <= |ops|
    ensures HandleAll(s, CommandsFrom(ops, j)) == s.(kv := Replay(s.kv, ops[s.lastSnapshot..]))
  {
    AllCommands(ops, j, s.lastSnapshot);
    CommandsReplayTheRest(s, ops, j, |ops|);
  }

  lemma AllCommands(ops: seq<Op>, j: nat, k: nat)
    requires j <= |ops| && k <= |ops|
    ensures CommandsFrom(ops, j)[..|ops| - j] == CommandsFrom(ops, j) && ops[k..|ops|] == ops[k..]
  {
  }

  lemma HandleOne(s: Server, m: Message)
    requires m.SnapshotMessage? ==> WellFormed(m.snapshot)
    ensures HandleAll(s, [m]) == Handle(s, m)
  {
    assert [m][..0] == [];
  }

  lemma {:induction false} HandleSplit(s: Server, a: seq<Message>, b: seq<Message>)
    requires forall m :: m in a + b && m.SnapshotMessage? ==> WellFormed(m.snapshot)
    ensures HandleAll(HandleAll(s, a), b) == HandleAll(s, a + b)
    decreases |b|
  {
    if b == [] {
      assert a + b == a;
    } else {
      assert (a + b)[..|a + b| - 1] == a + b[..|b| - 1];
      HandleSplit(s, a, b[..|b| - 1]);
    }
  }

  class KvServer {
    const skipList: SkipList<string, string>
    var lastRequestId: map<string, int>
    var lastSnapshotRaftLogIndex: int
    /** The archive's slot for the dump, empty except while a snapshot is made or read. */
    var serializedKVData: Option<Dump<string, string>>

    ghost predicate Valid()
      reads this, skipList, skipList.Arrays()
    {
      skipList.Valid() && skipList.less == Less && serializedKVData.None?
    }

    ghost function State(): Kv
      reads this, skipList
    {
      Kv(skipList.Contents(), lastRequestId)
    }

    constructor ()
      ensures Valid() && fresh(skipList) && fresh(skipList.Arrays())
      ensures State() == EMPTY && lastSnapshotRaftLogIndex == 0
    {
      LessIsOrder();
      skipList := new SkipList<string, string>(6, Less, "", "");
      lastRequestId, lastSnapshotRaftLogIndex, serializedKVData := map[], 0, None;
    }

    method ExecuteAppendOpOnKVDB(op: Op, draws: nat)
      requires Valid()
      modifies this`lastRequestId, skipList, skipList.Arrays()
      ensures Valid() && fresh(skipList.Arrays() - old(skipList.Arrays()))
      ensures State() == Execute(old(State()), op)
    {
      skipList.InsertSetElement(op.key, op.value, draws);
      lastRequestId := lastRequestId[op.clientId := op.requestId];
    }

    method ExecutePutOpOnKVDB(op: Op, draws: nat)
      requires Valid()
      modifies this`lastRequestId, skipList, skipList.Arrays()
      ensures Valid() && fresh(skipList.Arrays() - old(skipList.Arrays()))
      ensures State() == Execute(old(State()), op)
    {
      skipList.InsertSetElement(op.key, op.value, draws);
      lastRequestId := lastRequestId[op.clientId := op.requestId];
    }

    method ExecuteGetOpOnKVDB(op: Op) returns (value: string, exist: bool)
      requires Valid()
      modifies this`lastRequestId
      ensures Valid() && State() == ServeRead(old(State()), op)
      ensures exist <==> op.key in State().data
      ensures value == if exist then State().data[op.key] else ""
    {
      value, exist := "", false;
      var found := skipList.SearchElement(op.key);
      if found.Some? {
        value, exist := found.value, true;
      }
      lastRequestId := lastRequestId[op.clientId := op.requestId];
    }

    method IfRequestDuplicate(clientId: string, requestId: int) returns (duplicate: bool)
      ensures duplicate <==> Duplicate(State(), clientId, requestId)
    {
      if clientId !in lastRequestId {
        return false;
      }
      return requestId <= lastRequestId[clientId];
    }

    method GetCommandFromRaft(op: Op, index: int, draws: nat)
      requires Valid()
      modifies this`lastRequestId, skipList, skipList.Arrays()
      ensures Valid() && fresh(skipList.Arrays() - old(skipList.Arrays()))
      ensures Server(State(), lastSnapshotRaftLogIndex) ==
              Handle(Server(old(State()), old(lastSnapshotRaftLogIndex)), CommandMessage(op, index))
    {
      if index <= lastSnapshotRaftLogIndex {
        return;
      }
      var duplicate := IfRequestDuplicate(op.clientId, op.requestId);
      if !duplicate {
        if op.operation == "Put" {
          ExecutePutOpOnKVDB(op, draws);
        }
        if op.operation == "Append" {
          ExecuteAppendOpOnKVDB(op, draws);
        }
      }
    }

    method GetSnapShotData() returns (snapshot: Snapshot)
      requires Valid()
      modifies this`serializedKVData
      ensures Valid() && Snaps(snapshot, State())
    {
      var dump := skipList.DumpFile();
      serializedKVData := Some(dump);
      snapshot := Snapshot(serializedKVData.value, lastRequestId);
      serializedKVData := None;
    }

    method MakeSnapShot() returns (snapshot: Snapshot)
      requires Valid()
      modifies this`serializedKVData
      ensures Valid() && Snaps(snapshot, State())
    {
      snapshot := GetSnapShotData();
    }

    method ParseFromString(snapshot: Snapshot, draws: nat -> nat)
      requires Valid() && WellFormed(Some(snapshot))
      modifies this`lastRequestId, this`serializedKVData, skipList, skipList.Arrays()
      ensures Valid() && fresh(skipList.Arrays() - old(skipList.Arrays()))
      ensures State() == Restore(old(State()), snapshot)
    {
      serializedKVData, lastRequestId := Some(snapshot.dump), snapshot.last;
      skipList.LoadFile(serializedKVData.value, draws);
      serializedKVData := None;
    }

    method ReadSnapShotToInstall(snapshot: Option<Snapshot>, draws: nat -> nat)
      requires Valid() && WellFormed(snapshot)
      modifies this`lastRequestId, this`serializedKVData, skipList, skipList.Arrays()
      ensures Valid() && fresh(skipList.Arrays() - old(skipList.Arrays()))
      ensures State() == if snapshot.Some? then Restore(old(State()), snapshot.value) else old(State())
    {
      if snapshot.None? {
        return;
      }
      ParseFromString(snapshot.value, draws);
    }

    /** The node's `CondInstallSnapshot` agrees to everything. */
    method GetSnapShotFromRaft(snapshot: Option<Snapshot>, index: int, draws: nat -> nat)
      requires Valid() && WellFormed(snapshot)
      modifies this, skipList, skipList.Arrays()
      ensures Valid() && fresh(skipList.Arrays() - old(skipList.Arrays()))
      ensures Server(State(), lastSnapshotRaftLogIndex) ==
              Handle(Server(old(State()), old(lastSnapshotRaftLogIndex)), SnapshotMessage(snapshot, index))
    {
      ReadSnapShotToInstall(snapshot, draws);
      lastSnapshotRaftLogIndex := index;
    }

    /** The apply loop over the messages the channel delivers; `draws(i, j)` are the draws of message i. */
    method ReadRaftApplyCommandLoop(messages: seq<Message>, draws: (nat, nat) -> nat)
      requires Valid()
      requires forall m :: m in messages && m.SnapshotMessage? ==> WellFormed(m.snapshot)
      modifies this, skipList, skipList.Arrays()
      ensures Valid() && fresh(skipList.Arrays() - old(skipList.Arrays()))
      ensures Server(State(), lastSnapshotRaftLogIndex) ==
              HandleAll(Server(old(State()), old(lastSnapshotRaftLogIndex)), messages)
    {
      var i := 0;
      while i < |messages|
        invariant i <= |messages|
        invariant Valid() && fresh(skipList.Arrays() - old(skipList.Arrays()))
        invariant Server(State(), lastSnapshotRaftLogIndex) ==
                  HandleAll(Server(old(State()), old(lastSnapshotRaftLogIndex)), messages[..i])
      {
        var message := messages[i];
        assert messages[..i + 1][..i] == messages[..i];
        match message {
          case CommandMessage(op, index) => GetCommandFromRaft(op, index, draws(i, 0));
          case SnapshotMessage(snapshot, index) => GetSnapShotFromRaft(snapshot, index, j => draws(i, j));
        }
        i := i + 1;
      }
      assert messages[..|messages|] == messages;
    }
  }
}
