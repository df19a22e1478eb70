/** What answering a read does to the request table.  `ExecuteGetOpOnKVDB` writes the id of the read into the table of
    the server that answers, outside the log, and the id may be smaller than the one it replaces: a handler can
    come back to a read after its client has been answered elsewhere and has gone on to write. */
module LateReads {
  import opened KvReplay
  import opened KvSteps
  import W = ClerkRun

  datatype Event = Entry | Read(op: Op)

  /** A server that has run the first n entries of the log. */
  datatype Place = Place(kv: Kv, n: nat)

  function Step(log: seq<Op>, at: Place, e: Event): Place {
    match e
    case Entry => if at.n < |log| then Place(ApplyOp(at.kv, log[at.n]), at.n + 1) else at
    case Read(op) => at.(kv := ServeRead(at.kv, op))
  }

  function Play(log: seq<Op>, events: seq<Event>): (at: Place)
    ensures at.n <= |log|
  {
    if events == [] then Place(EMPTY, 0) else Step(log, Play(log, events[..|events| - 1]), events[|events| - 1])
  }

  /** The server has run a write of the same client with a greater id. */
  ghost predicate Behind(log: seq<Op>, n: nat, op: Op)
    requires n <= |log|
  {
    exists i :: 0 <= i < n && Write(log[i]) && log[i].clientId == op.clientId && log[i].requestId > op.requestId
  }

  // ---------------------------------------------------------------- one read

  /** Among the writes the server has run there is one it would run again after answering the read. */
  ghost predicate Forgets(log: seq<Op>, n: nat, op: Op)
    requires n <= |log|
  {
    exists i :: 0 <= i < n && Write(log[i])
                && !Duplicate(ServeRead(Replay(EMPTY, log[..n]), op), log[i].clientId, log[i].requestId)
  }

  /** Whatever the log: a read makes the server forget a write it has run if and only if its client's id has been
      passed by a write the server has run. */
  lemma ReadForgetsIff(log: seq<Op>, n: nat, op: Op)
    requires n <= |log|
    ensures Forgets(log, n, op) <==> Behind(log, n, op)
  {
    TableOfReplay(log[..n]);
    forall i | 0 <= i < n && Write(log[i])
      ensures Duplicate(Replay(EMPTY, log[..n]), log[i].clientId, log[i].requestId)
    {
      assert log[..n][i] == log[i];
      assert Wrote(log[..n], log[i].clientId, log[i].requestId);
    }
  }

  /** No write has passed the last request of its client, the only one the client can be waiting for. */
  lemma LastIsNotBehind(run: seq<W.World>, k: nat, n: nat, op: Op)
    requires W.Run(run) && k < |run| && n <= |run[k].log|
    requires op.requestId == W.LastId(run[k], op.clientId)
    ensures !Forgets(run[k].log, n, op)
  {
    W.RunKeepsInv(run, k);
    ReadForgetsIff(run[k].log, n, op);
    forall i | 0 <= i < n
      ensures run[k].log[i] in run[k].sent
    {
    }
  }

  // ---------------------------------------------------------------- reads in time

  /** The server has run the entry of the read, and no later write of its client. */
  ghost predicate Timely(log: seq<Op>, n: nat, op: Op)
    requires n <= |log|
  {
    !Write(op) && op in log[..n] && !Behind(log, n, op)
  }

  ghost predicate AllTimely(log: seq<Op>, events: seq<Event>) {
    forall k :: 0 <= k < |events| && events[k].Read? ==> TimelyAt(log, events, k)
  }

  ghost predicate TimelyAt(log: seq<Op>, events: seq<Event>, k: nat)
    requires k < |events| && events[k].Read?
  {
    Timely(log, Play(log, events[..k]).n, events[k].op)
  }

  /** The table is that of the replay, but for ids of reads the server has run. */
  ghost predicate TableOk(log: seq<Op>, n: nat, last: map<string, int>)
    requires n <= |log|
  {
    var replayed := Replay(EMPTY, log[..n]).last;
    && (forall c :: c in replayed ==> c in last && replayed[c] <= last[c])
    && (forall c :: c in last && !(c in replayed && replayed[c] == last[c]) ==> ReadId(log, n, c, last[c]))
  }

  ghost predicate ReadId(log: seq<Op>, n: nat, c: string, id: int)
    requires n <= |log|
  {
    exists i :: 0 <= i < n && !Write(log[i]) && log[i].clientId == c && log[i].requestId == id
  }

  lemma ReadKeepsTable(log: seq<Op>, n: nat, last: map<string, int>, op: Op)
    requires n <= |log| && TableOk(log, n, last) && Timely(log, n, op)
    ensures TableOk(log, n, last[op.clientId := op.requestId])
  {
    var replayed, c := Replay(EMPTY, log[..n]).last, op.clientId;
    var i :| 0 <= i < n && log[..n][i] == op;
    assert ReadId(log, n, c, op.requestId);
    TableOfReplay(log[..n]);
    if c in replayed {
      assert Wrote(log[..n], c, replayed[c]);
      var k :| 0 <= k < n && Write(log[..n][k]) && log[..n][k].clientId == c && log[..n][k].requestId == replayed[c];
      assert log[k].requestId == replayed[c];
    }
  }

  /** With such a table the next entry is taken for a repetition exactly when it is one. */
  lemma SameDecision(w: W.World, n: nat, last: map<string, int>)
    requires W.WorldInv(w) && n < |w.log| && TableOk(w.log, n, last) && Write(w.log[n])
    ensures var op, s := w.log[n], Replay(EMPTY, w.log[..n]);
            op.clientId in last && op.requestId <= last[op.clientId] <==> Duplicate(s, op.clientId, op.requestId)
  {
    var op, c := w.log[n], w.log[n].clientId;
    var s := Replay(EMPTY, w.log[..n]);
    if c in last && op.requestId <= last[c] && !Duplicate(s, c, op.requestId) {
      var i :| 0 <= i < n && !Write(w.log[i]) && w.log[i].clientId == c && w.log[i].requestId == last[c];
      PassedIsRun(w, n, i);
      assert false;
    }
  }

  /** A write whose id is not above that of a read run before has been run before. */
  lemma PassedIsRun(w: W.World, n: nat, i: nat)
    requires W.WorldInv(w) && i < n < |w.log| && Write(w.log[n]) && !Write(w.log[i])
    requires w.log[i].clientId == w.log[n].clientId && w.log[n].requestId <= w.log[i].requestId
    ensures Duplicate(Replay(EMPTY, w.log[..n]), w.log[n].clientId, w.log[n].requestId)
  {
    var op := w.log[n];
    assert w.log[i] in w.sent && op in w.sent;
    assert W.Below(op, w.log[i]);
    var k :| 0 <= k < i && w.log[..i][k] == op;
    assert w.log[..n][k] == op;
    TableOfReplay(w.log[..n]);
    assert Wrote(w.log[..n], op.clientId, op.requestId);
  }

  lemma EntryKeepsTable(w: W.World, n: nat, last: map<string, int>)
    requires W.WorldInv(w) && n < |w.log| && TableOk(w.log, n, last)
    ensures var op, s := w.log[n], Replay(EMPTY, w.log[..n]);
            && w.log[..n + 1][..n] == w.log[..n]
            && TableOk(w.log, n + 1, ApplyOp(Kv(s.data, last), op).last)
            && ApplyOp(Kv(s.data, last), op).data == Replay(EMPTY, w.log[..n + 1]).data
  {
    var op, s := w.log[n], Replay(EMPTY, w.log[..n]);
    assert w.log[..n + 1][..n] == w.log[..n];
    if Write(op) {
      SameDecision(w, n, last);
    }
    forall c, id | ReadId(w.log, n, c, id)
      ensures ReadId(w.log, n + 1, c, id)
    {
      var i :| 0 <= i < n && !Write(w.log[i]) && w.log[i].clientId == c && w.log[i].requestId == id;
    }
  }

  /** In a world of clients as they are, a server that answers reads in time, in whatever order with the entries it
      runs, holds at every moment the store of the log it has run. */
  lemma {:induction false} TimelyReadsDoNotShow(w: W.World, events: seq<Event>)
    requires W.WorldInv(w) && AllTimely(w.log, events)
    ensures var at := Play(w.log, events);
            at.kv.data == Replay(EMPTY, w.log[..at.n]).data && TableOk(w.log, at.n, at.kv.last)
    decreases |events|
  {
    if events == [] {
      assert w.log[..0] == [];
    } else {
      var k := |events| - 1;
      TimelyBefore(w.log, events);
      TimelyReadsDoNotShow(w, events[..k]);
      var at := Play(w.log, events[..k]);
      match events[k] {
        case Read(op) =>
          assert TimelyAt(w.log, events, k);
          ReadKeepsTable(w.log, at.n, at.kv.last, op);
        case Entry =>
          if at.n < |w.log| {
            EntryKeepsTable(w, at.n, at.kv.last);
            assert at.kv == Kv(Replay(EMPTY, w.log[..at.n]).data, at.kv.last);
          }
      }
    }
  }

  lemma TimelyBefore(log: seq<Op>, events: seq<Event>)
    requires events != [] && AllTimely(log, events)
    ensures AllTimely(log, events[..|events| - 1])
  {
    var most := events[..|events| - 1];
    forall k | 0 <= k < |most| && most[k].Read?
      ensures TimelyAt(log, most, k)
    {
      assert TimelyAt(log, events, k) && most[..k] == events[..k];
    }
  }

  /** Over runs of the clients. */
  lemma ReadsDoNotShow(run: seq<W.World>, k: nat, events: seq<Event>)
    requires W.Run(run) && k < |run| && AllTimely(run[k].log, events)
    ensures var at := Play(run[k].log, events); at.kv.data == Replay(EMPTY, run[k].log[..at.n]).data
  {
    W.RunKeepsInv(run, k);
    TimelyReadsDoNotShow(run[k], events);
  }

  // ---------------------------------------------------------------- a read that comes late

  const GET := Op("Get", "k", "", "c", 1)
  const OLDER := Op("Put", "k", "x", "c", 2)
  const NEWER := Op("Put", "k", "y", "c", 3)

  lemma On(run: seq<W.World>, step: W.Step) returns (longer: seq<W.World>)
    requires W.Run(run) && W.Can(run[|run| - 1], step)
    ensures W.Run(longer) && longer[|longer| - 1] == W.Do(run[|run| - 1], step)
  {
    var w := W.Do(run[|run| - 1], step);
    longer := run + [w];
    forall i | 0 < i < |longer|
      ensures W.MovesAt(longer, i)
    {
      if i < |run| {
        assert W.MovesAt(run, i);
      } else {
        assert W.Follows(run[|run| - 1], step, w);
      }
    }
  }

  /** A request is issued, committed and answered. */
  lemma Round(run: seq<W.World>, op: Op) returns (longer: seq<W.World>)
    requires W.Run(run)
    requires var w := run[|run| - 1]; op.clientId !in w.waiting && op.requestId == W.LastId(w, op.clientId) + 1
    ensures W.Run(longer)
    ensures var w := run[|run| - 1];
            longer[|longer| - 1] ==
              W.World(w.current[op.clientId := op], w.waiting + {op.clientId} - {op.clientId}, w.sent + {op}, w.log + [op])
  {
    longer := On(run, W.Issue(op));
    longer := On(longer, W.Commit(op));
    assert op in longer[|longer| - 1].log;
    longer := On(longer, W.Answer(op.clientId));
  }

  /** A client reads and then writes twice; a copy of the first write is committed late.  A server that comes back to
      the read before it runs the copy runs the copy too, and loses the second write. */
  lemma LateReadLosesAWrite() returns (run: seq<W.World>)
    ensures W.Run(run) && run[|run| - 1].log == [GET, OLDER, NEWER, OLDER]
    ensures Replay(EMPTY, [GET, OLDER, NEWER, OLDER]).data == map["k" := "y"]
    ensures Play([GET, OLDER, NEWER, OLDER], [Entry, Entry, Entry, Read(GET), Entry]).kv.data == map["k" := "x"]
  {
    run := Round([W.START], GET);
    run := Round(run, OLDER);
    run := Round(run, NEWER);
    run := On(run, W.Commit(OLDER));
    assert run[|run| - 1].log == [GET, OLDER, NEWER, OLDER];
    Replayed();
    Played();
  }

  lemma Replayed()
    ensures Replay(EMPTY, [GET, OLDER, NEWER, OLDER]) == Kv(map["k" := "y"], map["c" := 3])
  {
    var log := [GET, OLDER, NEWER, OLDER];
    assert log[..3][..2] == log[..2] && log[..2][..1] == log[..1] && log[..1][..0] == [];
    assert Replay(EMPTY, log[..1]) == EMPTY;
    assert Replay(EMPTY, log[..2]) == Kv(map["k" := "x"], map["c" := 2]);
    assert Replay(EMPTY, log[..3]) == Kv(map["k" := "y"], map["c" := 3]);
  }

  lemma Played()
    ensures Play([GET, OLDER, NEWER, OLDER], [Entry, Entry, Entry, Read(GET), Entry]) ==
            Place(Kv(map["k" := "x"], map["c" := 2]), 4)
  {
    var log, e := [GET, OLDER, NEWER, OLDER], [Entry, Entry, Entry, Read(GET), Entry];
    assert e[..4][..3] == e[..3] && e[..3][..2] == e[..2] && e[..2][..1] == e[..1] && e[..1][..0] == [];
    assert Play(log, e[..1]) == Place(EMPTY, 1);
    assert Play(log, e[..2]) == Place(Kv(map["k" := "x"], map["c" := 2]), 2);
    assert Play(log, e[..3]) == Place(Kv(map["k" := "y"], map["c" := 3]), 3);
    assert Play(log, e[..4]) == Place(Kv(map["k" := "y"], map["c" := 1]), 3);
  }
}
