/** Theorems about playing a log into the store: snapshots commute with replay, and duplicates in the log
    do not show. */
module KvReplay {
  import opened KvSteps
  import opened Orders
  import opened SkipDump
  import opened SkipTower

  // ---------------------------------------------------------------- snapshots

  lemma {:induction false} ReplaySplit(s: Kv, a: seq<Op>, b: seq<Op>)
    ensures Replay(Replay(s, a), b) == Replay(s, a + b)
    decreases |b|
  {
    if b == [] {
      assert a + b == a;
    } else {
      var n := |b| - 1;
      ReplaySplit(s, a, b[..n]);
      assert (a + b)[..|a + b| - 1] == a + b[..n];
    }
  }

  /** A snapshot taken after entry k, read into an empty server, followed by the rest of the log, gives the
      store and the request table of the whole log. */
  lemma SnapshotCommutesWithReplay(ops: seq<Op>, k: nat, snapshot: Snapshot)
    requires k <= |ops| && Snaps(snapshot, Replay(EMPTY, ops[..k]))
    ensures Replay(Restore(EMPTY, snapshot), ops[k..]) == Replay(EMPTY, ops)
  {
    LessIsOrder();
    LoadRestoresIff(Less, map[], snapshot.dump, Replay(EMPTY, ops[..k]).data);
    ReplaySplit(EMPTY, ops[..k], ops[k..]);
    assert ops[..k] + ops[k..] == ops;
  }

  /** A server that already holds data gets the state of the snapshot if and only if every key it holds has
      the same value there: `load_file` inserts, and an insertion does not replace. */
  lemma RestoreExactIff(s: Kv, snapshot: Snapshot, state: Kv)
    requires Snaps(snapshot, state)
    ensures Restore(s, snapshot) == state <==>
            forall key :: key in s.data ==> key in state.data && state.data[key] == s.data[key]
  {
    LessIsOrder();
    LoadRestoresIff(Less, s.data, snapshot.dump, state.data);
  }

  /** So a server that lags behind does not always catch up: the key written again behind its back keeps the
      old value, though the table says that the second write is done. */
  lemma LaggingServerKeepsOldValue(first: Op, second: Op, snapshot: Snapshot)
    requires Write(first) && Write(second) && first.key == second.key && first.value != second.value
    requires first.clientId == second.clientId && first.requestId < second.requestId
    requires Snaps(snapshot, Replay(EMPTY, [first, second]))
    ensures var s := Restore(Replay(EMPTY, [first]), snapshot);
            && s.data == map[first.key := first.value]
            && Replay(EMPTY, [first, second]).data == map[first.key := second.value]
            && Duplicate(s, second.clientId, second.requestId)
  {
    assert [first, second][..1] == [first] && [first][..0] == [];
    assert Replay(EMPTY, [first]) == Execute(EMPTY, first);
    LessIsOrder();
    LoadGivesUnion(Less, Replay(EMPTY, [first]).data, snapshot.dump, Replay(EMPTY, [first, second]).data);
  }

  // ---------------------------------------------------------------- at most once

  /** Entry i is a write with an id above the ids of all earlier writes of its client. */
  ghost predicate Fresh(ops: seq<Op>, i: nat)
    requires i < |ops|
  {
    && Write(ops[i])
    && forall j :: 0 <= j < i && Write(ops[j]) && ops[j].clientId == ops[i].clientId ==>
         ops[j].requestId < ops[i].requestId
  }

  /** The writes of the log that have an effect, in order. */
  ghost function Effective(ops: seq<Op>): seq<Op> {
    if ops == [] then []
    else
      var n := |ops| - 1;
      Effective(ops[..n]) + if Fresh(ops, n) then [ops[n]] else []
  }

  /** Plain execution, without looking at ids. */
  function ExecuteAll(s: Kv, ops: seq<Op>): Kv {
    if ops == [] then s else Execute(ExecuteAll(s, ops[..|ops| - 1]), ops[|ops| - 1])
  }

  /** The log holds a write of the client with this id. */
  ghost predicate Wrote(ops: seq<Op>, clientId: string, requestId: int) {
    exists i :: 0 <= i < |ops| && Write(ops[i]) && ops[i].clientId == clientId && ops[i].requestId == requestId
  }

  lemma WroteStep(ops: seq<Op>, clientId: string, requestId: int)
    requires ops != []
    ensures var n := |ops| - 1;
            Wrote(ops, clientId, requestId) <==>
            || Wrote(ops[..n], clientId, requestId)
            || (Write(ops[n]) && ops[n].clientId == clientId && ops[n].requestId == requestId)
  {
    var n := |ops| - 1;
    var rest := ops[..n];
    assert forall i :: 0 <= i < n ==> rest[i] == ops[i];
    if Wrote(rest, clientId, requestId) {
      var i :| 0 <= i < n && Write(rest[i]) && rest[i].clientId == clientId && rest[i].requestId == requestId;
      assert ops[i] == rest[i];
    }
  }

  /** The table holds the largest write id of every client that has written, executed or not. */
  ghost predicate TableIsMax(last: map<string, int>, ops: seq<Op>) {
    && (forall c :: c in last ==> Wrote(ops, c, last[c]))
    && (forall c, id :: Wrote(ops, c, id) ==> c in last && id <= last[c])
  }

  lemma {:induction false} TableOfReplay(ops: seq<Op>)
    ensures TableIsMax(Replay(EMPTY, ops).last, ops)
    decreases |ops|
  {
    if ops != [] {
      TableOfReplay(ops[..|ops| - 1]);
      forall c, id
        ensures var n := |ops| - 1;
                Wrote(ops, c, id) <==>
                Wrote(ops[..n], c, id) || (Write(ops[n]) && ops[n].clientId == c && ops[n].requestId == id)
      {
        WroteStep(ops, c, id);
      }
    }
  }

  lemma FreshMeans(ops: seq<Op>)
    requires ops != []
    ensures var n := |ops| - 1;
            Fresh(ops, n) <==>
            Write(ops[n]) && forall id :: Wrote(ops[..n], ops[n].clientId, id) ==> id < ops[n].requestId
  {
    var n := |ops| - 1;
    assert forall i :: 0 <= i < n ==> ops[..n][i] == ops[i];
    if Write(ops[n]) && forall id :: Wrote(ops[..n], ops[n].clientId, id) ==> id < ops[n].requestId {
      forall j | 0 <= j < n && Write(ops[j]) && ops[j].clientId == ops[n].clientId
        ensures ops[j].requestId < ops[n].requestId
      {
        assert Wrote(ops[..n], ops[n].clientId, ops[j].requestId);
      }
    }
  }

  /** The duplicate check is exact. */
  lemma DuplicateIffStale(ops: seq<Op>)
    requires ops != [] && Write(ops[|ops| - 1])
    ensures var n := |ops| - 1;
            Duplicate(Replay(EMPTY, ops[..n]), ops[n].clientId, ops[n].requestId) <==> !Fresh(ops, n)
  {
    TableOfReplay(ops[..|ops| - 1]);
    FreshMeans(ops);
  }

  /** Playing any log, duplicated and reordered as it may be, is executing exactly the writes whose id is
      above all earlier ones of their client. */
  lemma {:induction false} ReplayIsAtMostOnce(ops: seq<Op>)
    ensures Replay(EMPTY, ops) == ExecuteAll(EMPTY, Effective(ops))
    decreases |ops|
  {
    if ops != [] {
      var n := |ops| - 1;
      ReplayIsAtMostOnce(ops[..n]);
      if Write(ops[n]) {
        DuplicateIffStale(ops);
      }
      var before := Effective(ops[..n]);
      if Fresh(ops, n) {
        assert (before + [ops[n]])[..|before|] == before;
      } else {
        assert before + [] == before;
      }
    }
  }

  ghost predicate IdsIncrease(ops: seq<Op>) {
    forall i, j :: 0 <= i < j < |ops| && ops[i].clientId == ops[j].clientId ==> ops[i].requestId < ops[j].requestId
  }

  /** The writes of a client take effect in the order of their ids, so none does twice. */
  lemma {:induction false} EffectsInOrder(ops: seq<Op>)
    ensures IdsIncrease(Effective(ops))
    ensures forall i :: 0 <= i < |Effective(ops)| ==>
              Wrote(ops, Effective(ops)[i].clientId, Effective(ops)[i].requestId)
    decreases |ops|
  {
    if ops != [] {
      var n := |ops| - 1;
      var before := Effective(ops[..n]);
      EffectsInOrder(ops[..n]);
      FreshMeans(ops);
      forall i | 0 <= i < |before|
        ensures Wrote(ops, before[i].clientId, before[i].requestId)
      {
        WroteStep(ops, before[i].clientId, before[i].requestId);
      }
      WroteStep(ops, ops[n].clientId, ops[n].requestId);
    }
  }

  lemma {:induction false} EffectiveAreFresh(ops: seq<Op>, op: Op)
    ensures op in Effective(ops) <==> exists i :: 0 <= i < |ops| && ops[i] == op && Fresh(ops, i)
    decreases |ops|
  {
    if ops != [] {
      var n := |ops| - 1;
      var rest := ops[..n];
      EffectiveAreFresh(rest, op);
      forall i | 0 <= i < n
        ensures rest[i] == ops[i] && Fresh(rest, i) == Fresh(ops, i)
      {
        assert forall j :: 0 <= j <= i ==> rest[j] == ops[j];
      }
      if op in Effective(rest) {
        var i :| 0 <= i < n && rest[i] == op && Fresh(rest, i);
        assert ops[i] == op && Fresh(ops, i);
      }
    }
  }

  /** Entry i is the last one with this key that has an effect. */
  ghost predicate LastEffect(ops: seq<Op>, key: string, i: nat) {
    && i < |ops| && ops[i].key == key && Fresh(ops, i)
    && forall j :: i < j < |ops| && ops[j].key == key ==> !Fresh(ops, j)
  }

  /** The store, entry by entry of the log: a key is there exactly when some write of it has an effect, with the
      value of the last such write. */
  lemma {:induction false} StoreHoldsLastEffect(ops: seq<Op>, key: string)
    ensures key in Replay(EMPTY, ops).data <==> exists i: nat :: LastEffect(ops, key, i)
    ensures forall i: nat :: LastEffect(ops, key, i) ==>
              key in Replay(EMPTY, ops).data && Replay(EMPTY, ops).data[key] == ops[i].value
    decreases |ops|
  {
    if ops != [] {
      var n := |ops| - 1;
      var rest := ops[..n];
      StoreHoldsLastEffect(rest, key);
      FreshPrefix(ops);
      if Write(ops[n]) {
        DuplicateIffStale(ops);
      }
      if Fresh(ops, n) && ops[n].key == key {
        assert LastEffect(ops, key, n);
      } else {
        forall i: nat
          ensures LastEffect(ops, key, i) <==> LastEffect(rest, key, i)
        {
          LastEffectPrefix(ops, key, i);
        }
      }
    }
  }

  /** An entry without an effect on the key leaves the last effect where it was. */
  lemma LastEffectPrefix(ops: seq<Op>, key: string, i: nat)
    requires ops != [] && !(Fresh(ops, |ops| - 1) && ops[|ops| - 1].key == key)
    ensures LastEffect(ops, key, i) <==> LastEffect(ops[..|ops| - 1], key, i)
  {
    var rest := ops[..|ops| - 1];
    FreshPrefix(ops);
    if i < |rest| {
      assert rest[i] == ops[i];
    }
  }

  lemma FreshPrefix(ops: seq<Op>)
    requires ops != []
    ensures forall i :: 0 <= i < |ops| - 1 ==> ops[..|ops| - 1][i] == ops[i] && Fresh(ops[..|ops| - 1], i) == Fresh(ops, i)
  {
    var rest := ops[..|ops| - 1];
    forall i | 0 <= i < |rest|
      ensures rest[i] == ops[i] && Fresh(rest, i) == Fresh(ops, i)
    {
      assert forall j :: 0 <= j <= i ==> rest[j] == ops[j];
    }
  }

  // ---------------------------------------------------------------- exactly once

  /** Some entry with the client and the id of entry i has an effect. */
  ghost predicate TakesEffect(ops: seq<Op>, i: nat)
    requires i < |ops|
  {
    exists f :: 0 <= f < |ops| && ops[f].clientId == ops[i].clientId && ops[f].requestId == ops[i].requestId
                && Fresh(ops, f)
  }

  /** A smaller id that comes behind a larger one of the same client is a repetition. */
  ghost predicate Discipline(ops: seq<Op>) {
    forall i, j :: 0 <= i < j < |ops| && Write(ops[i]) && Write(ops[j]) && ops[i].clientId == ops[j].clientId
                   && ops[j].requestId < ops[i].requestId ==>
                     Wrote(ops[..i], ops[j].clientId, ops[j].requestId)
  }

  lemma {:induction false} FirstOccurrence(ops: seq<Op>, j: nat) returns (f: nat)
    requires j < |ops| && Write(ops[j])
    ensures f <= j && Write(ops[f]) && ops[f].clientId == ops[j].clientId && ops[f].requestId == ops[j].requestId
    ensures !Wrote(ops[..f], ops[j].clientId, ops[j].requestId)
    decreases j
  {
    if Wrote(ops[..j], ops[j].clientId, ops[j].requestId) {
      var i :| 0 <= i < j && Write(ops[..j][i]) && ops[..j][i].clientId == ops[j].clientId
               && ops[..j][i].requestId == ops[j].requestId;
      assert ops[..j][i] == ops[i];
      f := FirstOccurrence(ops, i);
    } else {
      f := j;
    }
  }

  lemma FirstIsFresh(ops: seq<Op>, f: nat)
    requires Discipline(ops) && f < |ops| && Write(ops[f]) && !Wrote(ops[..f], ops[f].clientId, ops[f].requestId)
    ensures Fresh(ops, f)
  {
    forall i | 0 <= i < f && Write(ops[i]) && ops[i].clientId == ops[f].clientId
      ensures ops[i].requestId < ops[f].requestId
    {
      WroteEarlier(ops, i, f, ops[f].clientId, ops[f].requestId);
      assert ops[..f][i] == ops[i];
    }
  }

  lemma WroteEarlier(ops: seq<Op>, i: nat, f: nat, clientId: string, requestId: int)
    requires i <= f <= |ops|
    ensures Wrote(ops[..i], clientId, requestId) ==> Wrote(ops[..f], clientId, requestId)
  {
    if Wrote(ops[..i], clientId, requestId) {
      var k :| 0 <= k < i && Write(ops[..i][k]) && ops[..i][k].clientId == clientId
               && ops[..i][k].requestId == requestId;
      assert ops[..f][k] == ops[..i][k];
    }
  }

  lemma DisciplineSuffices(ops: seq<Op>, j: nat)
    requires Discipline(ops) && j < |ops| && Write(ops[j])
    ensures TakesEffect(ops, j)
  {
    var f := FirstOccurrence(ops, j);
    FirstIsFresh(ops, f);
  }

  lemma EffectNeedsDiscipline(ops: seq<Op>, i: nat, j: nat)
    requires i < j < |ops| && Write(ops[i]) && Write(ops[j]) && ops[i].clientId == ops[j].clientId
    requires ops[j].requestId < ops[i].requestId && TakesEffect(ops, j)
    ensures Wrote(ops[..i], ops[j].clientId, ops[j].requestId)
  {
    var f :| 0 <= f < |ops| && ops[f].clientId == ops[j].clientId && ops[f].requestId == ops[j].requestId
             && Fresh(ops, f);
    assert f < i;
    assert ops[..i][f] == ops[f];
  }

  ghost predicate EveryWriteTakesEffect(ops: seq<Op>) {
    forall j :: 0 <= j < |ops| && Write(ops[j]) ==> TakesEffect(ops, j)
  }

  /** Every write of a log takes effect, once by `EffectsInOrder`, if and only if a smaller id behind a larger
      one of the same client is always a repetition. */
  lemma EveryWriteOnceIff(ops: seq<Op>)
    ensures Discipline(ops) <==> EveryWriteTakesEffect(ops)
  {
    if Discipline(ops) {
      forall j | 0 <= j < |ops| && Write(ops[j])
        ensures TakesEffect(ops, j)
      {
        DisciplineSuffices(ops, j);
      }
    } else if EveryWriteTakesEffect(ops) {
      EffectsAreDisciplined(ops);
    }
  }

  lemma EffectsAreDisciplined(ops: seq<Op>)
    requires EveryWriteTakesEffect(ops)
    ensures Discipline(ops)
  {
    forall i, j | 0 <= i < j < |ops| && Write(ops[i]) && Write(ops[j]) && ops[i].clientId == ops[j].clientId
                  && ops[j].requestId < ops[i].requestId
      ensures Wrote(ops[..i], ops[j].clientId, ops[j].requestId)
    {
      EffectNeedsDiscipline(ops, i, j);
    }
  }
}
