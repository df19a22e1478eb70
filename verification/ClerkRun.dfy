/** Clients, the network and the committed log, in as much as request ids are concerned.

    A client has one request under way at a time and sends it again and again, with the same id, until it is
    answered (src/raftClerk/clerk.cpp:7-65).  The network may hold every copy back for any time, so a copy can
    be committed long after its answer.  A write is answered with OK only when it is in the log. */
module ClerkRun {
  import opened KvReplay
  import opened KvSteps

  /** `current` is the last request of each client, `waiting` are the clients without an answer to it. */
  datatype World = World(current: map<string, Op>, waiting: set<string>, sent: set<Op>, log: seq<Op>)

  const START := World(map[], {}, {}, [])

  datatype Step = Issue(op: Op) | Commit(op: Op) | Answer(clientId: string)

  function LastId(w: World, clientId: string): int {
    if clientId in w.current then w.current[clientId].requestId else 0
  }

  ghost predicate Can(w: World, step: Step) {
    match step
    case Issue(op) => op.clientId !in w.waiting && op.requestId == LastId(w, op.clientId) + 1
    case Commit(op) => op in w.sent
    case Answer(c) => c in w.waiting && c in w.current && (Write(w.current[c]) ==> w.current[c] in w.log)
  }

  ghost function Do(w: World, step: Step): World {
    match step
    case Issue(op) =>
      w.(current := w.current[op.clientId := op], waiting := w.waiting + {op.clientId}, sent := w.sent + {op})
    case Commit(op) => w.(log := w.log + [op])
    case Answer(c) => w.(waiting := w.waiting - {c})
  }

  ghost predicate Run(run: seq<World>) {
    && run != [] && run[0] == START
    && forall i :: 0 < i < |run| ==> MovesAt(run, i)
  }

  ghost predicate MovesAt(run: seq<World>, i: int)
    requires 0 < i < |run|
  {
    Moves(run[i - 1], run[i])
  }

  ghost predicate Moves(w: World, w': World) {
    exists step :: Follows(w, step, w')
  }

  ghost predicate Follows(w: World, step: Step, w': World) {
    Can(w, step) && w' == Do(w, step)
  }

  // ---------------------------------------------------------------- the invariant

  ghost predicate Numbered(w: World) {
    && (forall op :: op in w.sent ==> op.clientId in w.current && op.requestId <= LastId(w, op.clientId))
    && (forall op :: op in w.sent && op.requestId == LastId(w, op.clientId) ==> op == w.current[op.clientId])
  }

  /** The server has answered the client's request. */
  ghost predicate IsAnswered(w: World, op: Op) {
    op in w.sent && (op.requestId < LastId(w, op.clientId) || op.clientId !in w.waiting)
  }

  /** What is answered is in the log. */
  ghost predicate Answered(w: World) {
    forall op :: Write(op) && IsAnswered(w, op) ==> op in w.log
  }

  /** One id, one request. */
  ghost predicate OneRequest(w: World) {
    forall a, b :: a in w.sent && b in w.sent && a.clientId == b.clientId && a.requestId == b.requestId ==> a == b
  }

  predicate Below(op: Op, other: Op) {
    Write(op) && op.clientId == other.clientId && op.requestId < other.requestId
  }

  /** Before any entry of the log stand all the writes of its client with smaller ids. */
  ghost predicate Logged(w: World) {
    && (forall i :: 0 <= i < |w.log| ==> w.log[i] in w.sent)
    && (forall i, op :: 0 <= i < |w.log| && op in w.sent && Below(op, w.log[i]) ==> op in w.log[..i])
  }

  ghost predicate WorldInv(w: World) {
    Numbered(w) && Answered(w) && OneRequest(w) && Logged(w)
  }

  lemma IssueKeepsInv(w: World, op: Op)
    requires WorldInv(w) && Can(w, Issue(op))
    ensures WorldInv(Do(w, Issue(op)))
  {
    var w' := Do(w, Issue(op));
    forall i, low | 0 <= i < |w'.log| && low in w'.sent && Below(low, w'.log[i])
      ensures low in w'.log[..i]
    {
      assert w.log[i] in w.sent;
      assert low != op;
    }
  }

  lemma CommitKeepsInv(w: World, op: Op)
    requires WorldInv(w) && Can(w, Commit(op))
    ensures WorldInv(Do(w, Commit(op)))
  {
    var w' := Do(w, Commit(op));
    forall i, low | 0 <= i < |w'.log| && low in w'.sent && Below(low, w'.log[i])
      ensures low in w'.log[..i]
    {
      if i < |w.log| {
        assert w'.log[i] == w.log[i] && w'.log[..i] == w.log[..i];
      } else {
        assert w'.log[..i] == w.log;
      }
    }
  }

  lemma StepKeepsInv(w: World, step: Step)
    requires WorldInv(w) && Can(w, step)
    ensures WorldInv(Do(w, step))
  {
    match step
    case Issue(op) => IssueKeepsInv(w, op);
    case Commit(op) => CommitKeepsInv(w, op);
    case Answer(c) =>
      assert Answered(Do(w, step));
  }

  lemma {:induction false} RunKeepsInv(run: seq<World>, k: nat)
    requires Run(run) && k < |run|
    ensures WorldInv(run[k])
    decreases k
  {
    if k > 0 {
      RunKeepsInv(run, k - 1);
      assert MovesAt(run, k);
      var step :| Follows(run[k - 1], step, run[k]);
      StepKeepsInv(run[k - 1], step);
    }
  }

  // ---------------------------------------------------------------- what clients get

  lemma LoggedIsDisciplined(w: World)
    requires Logged(w)
    ensures Discipline(w.log)
  {
    var ops := w.log;
    forall i, j | 0 <= i < j < |ops| && Write(ops[i]) && Write(ops[j]) && ops[i].clientId == ops[j].clientId
                  && ops[j].requestId < ops[i].requestId
      ensures Wrote(ops[..i], ops[j].clientId, ops[j].requestId)
    {
      assert ops[j] in w.sent && ops[j] in ops[..i];
      var k :| 0 <= k < i && ops[..i][k] == ops[j];
    }
  }

  /** In every run, an answered write has taken effect; no write takes effect twice; the writes of a client
      take effect in the order in which it issued them; and the store is what these writes make of it. */
  lemma WritesTakeEffectOnce(run: seq<World>, k: nat, op: Op)
    requires Run(run) && k < |run|
    ensures var w := run[k];
            && (Write(op) && (IsAnswered(w, op) || op in w.log) ==> op in Effective(w.log))
            && IdsIncrease(Effective(w.log))
            && Replay(EMPTY, w.log) == ExecuteAll(EMPTY, Effective(w.log))
  {
    var w := run[k];
    RunKeepsInv(run, k);
    EffectsInOrder(w.log);
    ReplayIsAtMostOnce(w.log);
    if op in w.log && Write(op) {
      EffectOfEntry(w, op);
    }
  }

  lemma EffectOfEntry(w: World, op: Op)
    requires WorldInv(w) && op in w.log && Write(op)
    ensures op in Effective(w.log)
  {
    LoggedIsDisciplined(w);
    var j :| 0 <= j < |w.log| && w.log[j] == op;
    DisciplineSuffices(w.log, j);
    var f :| 0 <= f < |w.log| && w.log[f].clientId == op.clientId && w.log[f].requestId == op.requestId
             && Fresh(w.log, f);
    assert w.log[f] in w.sent && w.log[j] in w.sent;
    EffectiveAreFresh(w.log, op);
  }
}
