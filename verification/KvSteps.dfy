/** The key-value server of src/raftCore/KvServer.cpp as a state machine over values. */
module KvSteps {
  import opened Orders
  import opened SkipDump
  import opened SkipTower

  /** class Op of src/common/include/util.h. */
  datatype Op = Op(operation: string, key: string, value: string, clientId: string, requestId: int)

  /** The store and, for each client, the id of its last write. */
  datatype Kv = Kv(data: map<string, string>, last: map<string, int>)

  /** The archive of the dump and of the request table. */
  datatype Snapshot = Snapshot(dump: Dump<string, string>, last: map<string, int>)

  const EMPTY := Kv(map[], map[])

  predicate Write(op: Op) {
    op.operation == "Put" || op.operation == "Append"
  }

  predicate Duplicate(s: Kv, clientId: string, requestId: int) {
    clientId in s.last && requestId <= s.last[clientId]
  }

  /** Put and Append both overwrite. */
  function Execute(s: Kv, op: Op): Kv {
    Kv(s.data[op.key := op.value], s.last[op.clientId := op.requestId])
  }

  function ApplyOp(s: Kv, op: Op): Kv {
    if Write(op) && !Duplicate(s, op.clientId, op.requestId) then Execute(s, op) else s
  }

  /** A Put or an Append that is later than every write the table has of its client puts its value under its key and its
      id in the table; every other entry of the log changes nothing. */
  lemma ApplyMeans(s: Kv, op: Op)
    ensures var s' := ApplyOp(s, op);
            if op.operation in ["Put", "Append"] && (op.clientId in s.last ==> s.last[op.clientId] < op.requestId) then
              && op.key in s'.data && s'.data[op.key] == op.value && s'.data - {op.key} == s.data - {op.key}
              && op.clientId in s'.last && s'.last[op.clientId] == op.requestId
              && s'.last - {op.clientId} == s.last - {op.clientId}
            else s' == s
  {
  }

  /** A read that is answered leaves its id in the table, outside the log. */
  function ServeRead(s: Kv, op: Op): Kv {
    s.(last := s.last[op.clientId := op.requestId])
  }

  /** A log played from its first entry on. */
  function Replay(s: Kv, ops: seq<Op>): Kv {
    if ops == [] then s else ApplyOp(Replay(s, ops[..|ops| - 1]), ops[|ops| - 1])
  }

  /** What a server holds after reading a snapshot: the table is replaced, the store only added to. */
  function Restore(s: Kv, snapshot: Snapshot): Kv
    requires |snapshot.dump.keys| == |snapshot.dump.vals|
  {
    Kv(Loaded(s.data, snapshot.dump), snapshot.last)
  }

  // ---------------------------------------------------------------- the order of std::string

  predicate Less(a: string, b: string) {
    b != [] && (a == [] || a[0] < b[0] || (a[0] == b[0] && Less(a[1..], b[1..])))
  }

  lemma {:induction false} LessIrreflexive(a: string)
    ensures !Less(a, a)
  {
    if a != [] {
      LessIrreflexive(a[1..]);
    }
  }

  lemma {:induction false} LessTransitive(a: string, b: string, c: string)
    requires Less(a, b) && Less(b, c)
    ensures Less(a, c)
  {
    if a != [] && a[0] == b[0] == c[0] {
      LessTransitive(a[1..], b[1..], c[1..]);
    }
  }

  lemma {:induction false} LessTotal(a: string, b: string)
    ensures a == b || Less(a, b) || Less(b, a)
  {
    if a != [] && b != [] && a[0] == b[0] {
      LessTotal(a[1..], b[1..]);
      assert a == [a[0]] + a[1..] && b == [b[0]] + b[1..];
    }
  }

  lemma LessIsOrder()
    ensures StrictOrder(Less)
  {
    forall a
      ensures Irreflexive(Less, a)
    {
      LessIrreflexive(a);
    }
    forall a, b, c
      ensures Transitive(Less, a, b, c)
    {
      if Less(a, b) && Less(b, c) {
        LessTransitive(a, b, c);
      }
    }
    forall a, b
      ensures Total(Less, a, b)
    {
      LessTotal(a, b);
    }
  }

  /** The snapshot of a state is the dump of its store and its table. */
  ghost predicate Snaps(snapshot: Snapshot, s: Kv) {
    Dumps(Less, snapshot.dump, s.data) && snapshot.last == s.last
  }
}
