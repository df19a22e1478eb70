/** How a leader finds the point from which a follower's log agrees with its own: the heart-beat probe, the
    follower's refusal with a suggestion, and the next probe.

    The leader's log is fixed and no other leader speaks; the two nodes are the real ones, and an exchange
    is the composition of the three handlers involved. */
module Negotiation {
  import opened RaftTypes
  import opened RaftSteps
  import opened NodeInvariant

  /** What every exchange starts from: the leader can probe, the follower is not compacted beyond the leader's
      log and not ahead in terms, and index 0 has term 0, as in every node a run reaches. */
  ghost predicate Talking(l: Node, f: Node, p: int) {
    && l.status == Leader && HeartBeatAsserts(l, p) && |l.nextIndex| == |l.matchIndex|
    && Indexed(f) && f.currentTerm <= l.currentTerm
    && 0 <= l.snapIndex && 0 <= f.snapIndex <= LastLogIndex(l)
    && (l.snapIndex == 0 ==> l.snapTerm == 0) && (f.snapIndex == 0 ==> f.snapTerm == 0)
  }

  /** The follower is not compacted beyond the probe either. */
  ghost predicate Ready(l: Node, f: Node, p: int) {
    Talking(l, f, p) && f.snapIndex < l.nextIndex[p]
  }

  /** Probe, answer, and the leader's reaction to the answer. */
  ghost function Exchange(l: Node, f: Node, p: int): (Node, Node, bool)
    requires Talking(l, f, p) && SendsEntries(l, p)
  {
    var a := AppendArgsFor(l, p);
    var (f', reply) := AppendEntriesStep(f, a);
    (AppendReplyStep(l, p, a, reply, 0).0, f', reply.success)
  }

  /** Both know the index, with one term. */
  predicate Meets(l: Node, f: Node, i: int) {
    InRange(l, i) && InRange(f, i) && TermAt(l, i) == TermAt(f, i)
  }

  // ---------------------------------------------------------------- the follower's answer

  function Suggestion(f: Node, prev: int): int
    requires Indexed(f)
  {
    LastIndexIsLength(f);
    if prev > LastLogIndex(f) then LastLogIndex(f) + 1
    else if prev < f.snapIndex then f.snapIndex + 1
    else BackUp(f, prev, prev)
  }

  /** The same log with the same snapshot. */
  ghost predicate SameLog(f: Node, f': Node) {
    f'.logs == f.logs && f'.snapIndex == f.snapIndex && f'.snapTerm == f.snapTerm
  }

  lemma {:induction false} BackUpSame(n: Node, m: Node, prev: int, i: int)
    requires SameLog(n, m) && n.snapIndex <= i <= prev && InRange(n, prev)
    ensures BackUp(m, prev, i) == BackUp(n, prev, i)
    decreases i - n.snapIndex
  {
    if TermAt(n, i) == TermAt(n, prev) && i != n.snapIndex {
      BackUpSame(n, m, prev, i - 1);
    }
  }

  /** What a follower answers to a probe at `prev` with term `term`, and what becomes of it. */
  ghost predicate Answered(f: Node, a: AppendArgs, f': Node, reply: AppendReply)
    requires Indexed(f)
  {
    && reply.term == a.term && f'.currentTerm == a.term
    && (reply.success <==> InRange(f, a.prevIndex) && TermAt(f, a.prevIndex) == a.prevTerm)
    && (reply.success ==>
          && f'.snapIndex == f.snapIndex && f'.snapTerm == f.snapTerm
          && f'.logs == Merge(f.logs, a.prevIndex - f.snapIndex, a.entries)
          && (f.commitIndex <= f.snapIndex + |f'.logs| ==>
                f'.commitIndex == Max(f.commitIndex, Min(a.leaderCommit, f.snapIndex + |f'.logs|))))
    && (!reply.success ==>
          SameLog(f, f') && f'.commitIndex == f.commitIndex && reply.updateNext == Suggestion(f, a.prevIndex))
  }

  /** The answer to any request that is not stale: acceptance exactly when the terms meet, with the merged log,
      and otherwise the log as it was and a suggestion. */
  lemma AnswerTo(f: Node, a: AppendArgs)
    requires Indexed(f) && f.currentTerm <= a.term
    ensures Answered(f, a, AppendEntriesStep(f, a).0, AppendEntriesStep(f, a).1)
  {
    LastIndexIsLength(f);
    if InRange(f, a.prevIndex) {
      if TermAt(f, a.prevIndex) == a.prevTerm {
        AnswerAccepts(f, a);
      } else {
        var m := if a.term > f.currentTerm then StepDown(f, a.term) else f.(status := Follower);
        BackUpSame(f, m, a.prevIndex, a.prevIndex);
      }
    }
  }

  lemma AnswerAccepts(f: Node, a: AppendArgs)
    requires Indexed(f) && f.currentTerm <= a.term && InRange(f, a.prevIndex) && TermAt(f, a.prevIndex) == a.prevTerm
    ensures Answered(f, a, AppendEntriesStep(f, a).0, AppendEntriesStep(f, a).1)
  {
    LastIndexIsLength(f);
  }

  /** A suggestion made to a probe that was refused can be probed in turn. */
  lemma SuggestionRange(l: Node, f: Node, p: int)
    requires Talking(l, f, p) && SendsEntries(l, p) && !Meets(l, f, l.nextIndex[p] - 1)
    ensures var prev, next := l.nextIndex[p] - 1, Suggestion(f, l.nextIndex[p] - 1);
            && 1 <= next <= LastLogIndex(l) + 1
            && (prev > f.snapIndex ==> f.snapIndex < next <= prev)
            && (prev == f.snapIndex ==> next == f.snapIndex)
            && (prev < f.snapIndex ==> next == f.snapIndex + 1)
  {
    LastIndexIsLength(l);
    LastIndexIsLength(f);
    var prev := l.nextIndex[p] - 1;
    if InRange(f, prev) {
      BackUpRange(f, prev, prev);
    }
  }

  /** What one exchange comes to: acceptance exactly when the logs meet at the probe; a refusal moves the probe to
      the suggestion and leaves everything else that matters alone. */
  ghost predicate Exchanged(l: Node, f: Node, p: int, l': Node, f': Node, accepted: bool)
    requires Talking(l, f, p)
  {
    && (accepted <==> Meets(l, f, l.nextIndex[p] - 1))
    && (accepted ==> TakesOver(l, f, l.nextIndex[p] - 1, f') && CommitsAlong(l, f, f'))
    && (!accepted ==>
          && l' == l.(nextIndex := l.nextIndex[p := Suggestion(f, l.nextIndex[p] - 1)])
          && SameLog(f, f') && f'.commitIndex == f.commitIndex && Talking(l', f', p))
  }

  /** The commit index follows the leader's as far as the log reaches.  A merge that would cut below it ends the
      process. */
  ghost predicate CommitsAlong(l: Node, f: Node, f': Node) {
    f.commitIndex <= End(f') ==> f'.commitIndex == Max(f.commitIndex, Min(l.commitIndex, End(f')))
  }

  /** The last index of the log, read off its length. */
  function End(n: Node): int {
    n.snapIndex + |n.logs|
  }

  /** The follower's log goes on behind the leader's last entry, and already holds all of it from `prev` on. */
  ghost predicate HoldsMore(l: Node, f: Node, prev: int) {
    && End(f) > End(l)
    && forall i :: prev < i && InMemory(l, i) && InMemory(f, i) ==> EntryAt(f, i) == EntryAt(l, i)
  }

  /** The follower's log after it has accepted everything behind `prev`, entry by entry. */
  ghost predicate TakesOver(l: Node, f: Node, prev: int, f': Node) {
    && Meets(l, f, prev) && l.snapIndex <= prev <= End(l) && f.snapIndex <= prev <= End(f)
    && f'.snapIndex == f.snapIndex && f'.snapTerm == f.snapTerm
    && (forall i :: InMemory(f, i) && i <= prev ==> InMemory(f', i) && EntryAt(f', i) == EntryAt(f, i))
    && (forall i :: InMemory(l, i) && i > prev ==> InMemory(f', i) && EntryAt(f', i) == EntryAt(l, i))
    && (if HoldsMore(l, f, prev) then f'.logs == f.logs else End(f') == End(l))
  }

  lemma MergeTakesOver(l: Node, f: Node, prev: int, f': Node)
    requires Meets(l, f, prev) && l.snapIndex <= prev <= End(l) && f.snapIndex <= prev <= End(f)
    requires f'.snapIndex == f.snapIndex && f'.snapTerm == f.snapTerm
    requires f'.logs == Merge(f.logs, prev - f.snapIndex, l.logs[prev - l.snapIndex..])
    ensures TakesOver(l, f, prev, f')
  {
    var q, tail := prev - f.snapIndex, l.logs[prev - l.snapIndex..];
    forall i
      ensures InMemory(f, i) && i <= prev ==> InMemory(f', i) && EntryAt(f', i) == EntryAt(f, i)
      ensures InMemory(l, i) && i > prev ==> InMemory(f', i) && EntryAt(f', i) == EntryAt(l, i)
    {
      TakenOverAt(l, f, prev, f', i);
    }
    HoldsMoreIff(l, f, prev);
    if Holds(f.logs, q, tail) && End(f) == End(l) {
      assert f'.logs == f.logs;
    }
  }

  lemma TakenOverAt(l: Node, f: Node, prev: int, f': Node, i: int)
    requires l.snapIndex <= prev <= End(l) && f.snapIndex <= prev <= End(f) && f'.snapIndex == f.snapIndex
    requires f'.logs == Merge(f.logs, prev - f.snapIndex, l.logs[prev - l.snapIndex..])
    ensures InMemory(f, i) && i <= prev ==> InMemory(f', i) && EntryAt(f', i) == EntryAt(f, i)
    ensures InMemory(l, i) && i > prev ==> InMemory(f', i) && EntryAt(f', i) == EntryAt(l, i)
  {
    MergedAt(f.logs, prev - f.snapIndex, l.logs[prev - l.snapIndex..], i - f.snapIndex - 1);
  }

  lemma HoldsMoreIff(l: Node, f: Node, prev: int)
    requires l.snapIndex <= prev <= End(l) && f.snapIndex <= prev <= End(f)
    ensures HoldsMore(l, f, prev) <==>
            End(f) > End(l) && Holds(f.logs, prev - f.snapIndex, l.logs[prev - l.snapIndex..])
  {
    var q, tail := prev - f.snapIndex, l.logs[prev - l.snapIndex..];
    if HoldsMore(l, f, prev) {
      forall k | 0 <= k < |tail|
        ensures f.logs[q + k] == tail[k]
      {
        assert InMemory(l, prev + k + 1) && InMemory(f, prev + k + 1);
        assert EntryAt(f, prev + k + 1) == EntryAt(l, prev + k + 1);
      }
    }
    if End(f) > End(l) && Holds(f.logs, q, tail) {
      forall i | prev < i && InMemory(l, i) && InMemory(f, i)
        ensures EntryAt(f, i) == EntryAt(l, i)
      {
        assert tail[i - prev - 1] == EntryAt(l, i);
      }
    }
  }

  /** What stands at place k after a merge. */
  lemma MergedAt(logs: seq<Entry>, q: nat, entries: seq<Entry>, k: int)
    requires q <= |logs|
    ensures |Merge(logs, q, entries)| >= q + |entries|
    ensures 0 <= k < q ==> Merge(logs, q, entries)[k] == logs[k]
    ensures q <= k < q + |entries| ==> Merge(logs, q, entries)[k] == entries[k - q]
  {
    if Holds(logs, q, entries) && q <= k < q + |entries| {
      assert logs[q + (k - q)] == entries[k - q];
    }
  }

  lemma ExchangeMeaning(l: Node, f: Node, p: int)
    requires Talking(l, f, p) && SendsEntries(l, p)
    ensures var (l', f', accepted) := Exchange(l, f, p); Exchanged(l, f, p, l', f', accepted)
  {
    LastIndexIsLength(l);
    var a := AppendArgsFor(l, p);
    AnswerTo(f, a);
    var (f', reply) := AppendEntriesStep(f, a);
    ReplyMeaning(l, f, p, a, f', reply);
  }

  /** The leader's part, for whatever answer of that kind. */
  lemma ReplyMeaning(l: Node, f: Node, p: int, a: AppendArgs, f': Node, reply: AppendReply)
    requires Talking(l, f, p) && SendsEntries(l, p) && a == AppendArgsFor(l, p) && Answered(f, a, f', reply)
    ensures Exchanged(l, f, p, AppendReplyStep(l, p, a, reply, 0).0, f', reply.success)
  {
    if Meets(l, f, l.nextIndex[p] - 1) {
      AcceptanceMeaning(l, f, p, a, f', reply);
    } else {
      RefusalMeaning(l, f, p, a, f', reply);
    }
  }

  lemma AcceptanceMeaning(l: Node, f: Node, p: int, a: AppendArgs, f': Node, reply: AppendReply)
    requires Talking(l, f, p) && SendsEntries(l, p) && a == AppendArgsFor(l, p) && Answered(f, a, f', reply)
    requires Meets(l, f, l.nextIndex[p] - 1)
    ensures reply.success && TakesOver(l, f, l.nextIndex[p] - 1, f') && CommitsAlong(l, f, f')
  {
    ProbeInMemory(l, f, p);
    AnswerTakesOver(l, f, l.nextIndex[p] - 1, a, f', reply);
  }

  lemma ProbeInMemory(l: Node, f: Node, p: int)
    requires Talking(l, f, p) && SendsEntries(l, p) && Meets(l, f, l.nextIndex[p] - 1)
    ensures l.snapIndex <= l.nextIndex[p] - 1 <= End(l) && f.snapIndex <= l.nextIndex[p] - 1 <= End(f)
  {
    LastIndexIsLength(l);
    LastIndexIsLength(f);
  }

  lemma AnswerTakesOver(l: Node, f: Node, prev: int, a: AppendArgs, f': Node, reply: AppendReply)
    requires Indexed(f) && Answered(f, a, f', reply) && Meets(l, f, prev)
    requires l.snapIndex <= prev <= End(l) && f.snapIndex <= prev <= End(f)
    requires a.prevIndex == prev && a.prevTerm == TermAt(l, prev) && a.leaderCommit == l.commitIndex
    requires a.entries == l.logs[prev - l.snapIndex..]
    ensures reply.success && TakesOver(l, f, prev, f') && CommitsAlong(l, f, f')
  {
    MergeTakesOver(l, f, prev, f');
  }

  lemma RefusalMeaning(l: Node, f: Node, p: int, a: AppendArgs, f': Node, reply: AppendReply)
    requires Talking(l, f, p) && SendsEntries(l, p) && a == AppendArgsFor(l, p) && Answered(f, a, f', reply)
    requires !Meets(l, f, l.nextIndex[p] - 1)
    ensures Exchanged(l, f, p, AppendReplyStep(l, p, a, reply, 0).0, f', reply.success)
  {
    var next := Suggestion(f, l.nextIndex[p] - 1);
    assert reply.term == l.currentTerm && !reply.success && reply.updateNext == next && 1 <= next by {
      LastIndexIsLength(l);
      SuggestionRange(l, f, p);
    }
    ProbedAgain(l, f, p, f');
    RefusedReply(l, p, a, reply);
  }

  lemma ProbedAgain(l: Node, f: Node, p: int, f': Node)
    requires Talking(l, f, p) && SendsEntries(l, p) && !Meets(l, f, l.nextIndex[p] - 1)
    requires SameLog(f, f') && f'.commitIndex == f.commitIndex && f'.currentTerm == l.currentTerm
    ensures Exchanged(l, f, p, l.(nextIndex := l.nextIndex[p := Suggestion(f, l.nextIndex[p] - 1)]), f', false)
  {
    SuggestionRange(l, f, p);
  }

  lemma RefusedReply(l: Node, p: int, a: AppendArgs, reply: AppendReply)
    requires l.status == Leader && 0 <= p < |l.nextIndex| == |l.matchIndex|
    requires reply.term == l.currentTerm && !reply.success && reply.updateNext != NO_UPDATE
    ensures AppendReplyStep(l, p, a, reply, 0).0 == l.(nextIndex := l.nextIndex[p := reply.updateNext])
  {
  }

  /** A refusal strictly lowers the next index without passing the follower's snapshot index, if and only if,
      when the probe is at that snapshot point, the leader has the follower's term there. */
  lemma RefusalLowersIff(l: Node, f: Node, p: int)
    requires Ready(l, f, p) && SendsEntries(l, p)
    ensures var (l', f', accepted) := Exchange(l, f, p);
            (!accepted ==> f.snapIndex < l'.nextIndex[p] < l.nextIndex[p]) <==>
            (l.nextIndex[p] == f.snapIndex + 1 ==> Meets(l, f, f.snapIndex))
  {
    LastIndexIsLength(l);
    ExchangeMeaning(l, f, p);
    if !Meets(l, f, l.nextIndex[p] - 1) {
      SuggestionRange(l, f, p);
    }
  }

  // ---------------------------------------------------------------- where the probes go

  /** The positions a negotiation can probe from `prev` down: the first one, the end of the follower's log, the
      last index of each stretch of one term, and every index of the stretch that reaches the snapshot. */
  ghost predicate Stop(f: Node, prev: int, j: int)
    requires Indexed(f)
  {
    LastIndexIsLength(f);
    && f.snapIndex <= j <= prev
    && (j == prev || j == LastLogIndex(f)
        || (j < LastLogIndex(f) && (TermAt(f, j) != TermAt(f, j + 1) || OneTerm(f, f.snapIndex, j + 1))))
  }

  ghost predicate OneTerm(f: Node, from: int, to: int)
    requires f.snapIndex <= from && to <= f.snapIndex + |f.logs|
  {
    forall i :: from <= i <= to ==> InRange(f, i) && TermAt(f, i) == TermAt(f, to)
  }

  lemma {:induction false} BackUpMeaning(n: Node, prev: int, i: int)
    requires Indexed(n) && n.snapIndex <= i <= prev && InRange(n, prev) && prev <= n.snapIndex + |n.logs|
    requires OneTerm(n, i, prev) || (i < prev && OneTerm(n, i + 1, prev))
    ensures var b := BackUp(n, prev, i);
            || (n.snapIndex < b <= prev && TermAt(n, b - 1) != TermAt(n, prev) && OneTerm(n, b, prev))
            || (b == prev && OneTerm(n, n.snapIndex, prev))
    decreases i - n.snapIndex
  {
    if TermAt(n, i) == TermAt(n, prev) {
      assert OneTerm(n, i, prev);
      if i != n.snapIndex {
        BackUpMeaning(n, prev, i - 1);
      }
    }
  }

  /** Below a refused probe the stops are those of the next one. */
  lemma StopsBelow(f: Node, prev: int, j: int)
    requires Indexed(f) && f.snapIndex < prev
    ensures Stop(f, prev, j) <==> j == prev || Stop(f, Suggestion(f, prev) - 1, j)
  {
    LastIndexIsLength(f);
    if prev <= LastLogIndex(f) {
      BackUpMeaning(f, prev, prev);
    }
  }

  lemma StopAtSnapshot(f: Node, prev: int)
    requires Indexed(f) && f.snapIndex <= prev
    ensures Stop(f, prev, f.snapIndex)
    ensures forall j :: Stop(f, f.snapIndex, j) ==> j == f.snapIndex
  {
    LastIndexIsLength(f);
    if f.snapIndex < LastLogIndex(f) && TermAt(f, f.snapIndex) == TermAt(f, f.snapIndex + 1) {
      assert OneTerm(f, f.snapIndex, f.snapIndex + 1);
    }
  }

  /** The logs meet at one of the positions probed. */
  ghost predicate MeetsOnTheWay(l: Node, f: Node, prev: int)
    requires Indexed(f)
  {
    exists j :: Stop(f, prev, j) && Meets(l, f, j)
  }

  lemma WayGoesOn(l: Node, f: Node, prev: int, l': Node, f': Node)
    requires Indexed(f) && f.snapIndex < prev && !Meets(l, f, prev)
    requires SameLog(f, f') && SameLog(l, l')
    ensures MeetsOnTheWay(l, f, prev) <==> MeetsOnTheWay(l', f', Suggestion(f, prev) - 1)
  {
    var prev' := Suggestion(f, prev) - 1;
    forall j
      ensures Stop(f, prev, j) && Meets(l, f, j) <==> Stop(f', prev', j) && Meets(l', f', j)
    {
      StopsBelow(f, prev, j);
      SameStops(f, f', prev', j);
    }
  }

  lemma SameStops(f: Node, f': Node, prev: int, j: int)
    requires Indexed(f) && SameLog(f, f')
    ensures Stop(f', prev, j) <==> Stop(f, prev, j)
  {
    LastIndexIsLength(f);
    if f.snapIndex <= j < LastLogIndex(f) {
      assert OneTerm(f, f.snapIndex, j + 1) <==> OneTerm(f', f.snapIndex, j + 1) by {
        assert forall i :: InRange(f, i) ==> TermAt(f', i) == TermAt(f, i);
      }
    }
  }

  // ---------------------------------------------------------------- the whole negotiation

  datatype Pair = Pair(leader: Node, follower: Node)

  ghost predicate Refuses(c: Pair, c': Pair, p: int) {
    && Talking(c.leader, c.follower, p) && SendsEntries(c.leader, p)
    && Exchange(c.leader, c.follower, p) == (c'.leader, c'.follower, false)
  }

  /** Refusal after refusal. */
  ghost predicate Refusals(s: seq<Pair>, p: int) {
    && s != [] && Talking(s[0].leader, s[0].follower, p)
    && forall i :: 0 < i < |s| ==> RefusedAt(s, p, i)
  }

  ghost predicate RefusedAt(s: seq<Pair>, p: int, i: int)
    requires 0 < i < |s|
  {
    Refuses(s[i - 1], s[i], p)
  }

  /** The follower accepts, or the leader has to send its snapshot. */
  ghost predicate Concludes(c: Pair, p: int) {
    && Talking(c.leader, c.follower, p)
    && (SendsEntries(c.leader, p) ==> Exchange(c.leader, c.follower, p).2)
  }

  ghost predicate Ends(l: Node, f: Node, p: int) {
    exists s :: EndsBy(s, Pair(l, f), p)
  }

  ghost predicate EndsBy(s: seq<Pair>, c: Pair, p: int) {
    Refusals(s, p) && s[0] == c && Concludes(s[|s| - 1], p)
  }

  /** What a refusal comes to. */
  ghost predicate Lowers(c: Pair, c': Pair, p: int) {
    && Talking(c.leader, c.follower, p) && SendsEntries(c.leader, p)
    && !Meets(c.leader, c.follower, c.leader.nextIndex[p] - 1)
    && SameLog(c.leader, c'.leader) && SameLog(c.follower, c'.follower) && Talking(c'.leader, c'.follower, p)
    && c'.follower.commitIndex == c.follower.commitIndex
    && c'.leader.nextIndex == c.leader.nextIndex[p := Suggestion(c.follower, c.leader.nextIndex[p] - 1)]
    && c'.leader == c.leader.(nextIndex := c'.leader.nextIndex)
  }

  ghost predicate Lowerings(s: seq<Pair>, p: int) {
    && s != [] && Talking(s[0].leader, s[0].follower, p)
    && forall i :: 0 < i < |s| ==> LoweredAt(s, p, i)
  }

  ghost predicate LoweredAt(s: seq<Pair>, p: int, i: int)
    requires 0 < i < |s|
  {
    Lowers(s[i - 1], s[i], p)
  }

  lemma LoweringsBefore(s: seq<Pair>, p: int)
    requires Lowerings(s, p) && |s| > 1
    ensures Lowerings(s[..|s| - 1], p) && Lowers(s[|s| - 2], s[|s| - 1], p)
  {
    var most := s[..|s| - 1];
    forall i | 0 < i < |most|
      ensures LoweredAt(most, p, i)
    {
      assert LoweredAt(s, p, i);
    }
    assert LoweredAt(s, p, |s| - 1);
  }

  lemma RefusesMeaning(c: Pair, c': Pair, p: int)
    requires Refuses(c, c', p)
    ensures Lowers(c, c', p)
  {
    ExchangeMeaning(c.leader, c.follower, p);
  }

  lemma RefusalsLower(s: seq<Pair>, p: int)
    requires Refusals(s, p)
    ensures Lowerings(s, p)
  {
    forall i | 0 < i < |s|
      ensures LoweredAt(s, p, i)
    {
      assert RefusedAt(s, p, i);
      RefusesMeaning(s[i - 1], s[i], p);
    }
  }

  lemma ConcludesIff(c: Pair, p: int)
    requires Talking(c.leader, c.follower, p)
    ensures Concludes(c, p) <==>
            (SendsEntries(c.leader, p) ==> Meets(c.leader, c.follower, c.leader.nextIndex[p] - 1))
  {
    if SendsEntries(c.leader, p) {
      ExchangeMeaning(c.leader, c.follower, p);
    }
  }

  /** A pair that does not conclude goes on with a refusal. */
  lemma GoesOn(c: Pair, p: int) returns (c': Pair)
    requires Talking(c.leader, c.follower, p) && !Concludes(c, p)
    ensures Refuses(c, c', p) && Lowers(c, c', p)
  {
    var (l', f', accepted) := Exchange(c.leader, c.follower, p);
    c' := Pair(l', f');
    RefusesMeaning(c, c', p);
  }

  // ---------------------------------------------------------------- when it ends

  /** The leader's snapshot is not behind the follower's, or the logs meet on the way. */
  ghost predicate Hopeful(c: Pair, p: int)
    requires Talking(c.leader, c.follower, p)
  {
    || c.leader.snapIndex >= c.follower.snapIndex
    || MeetsOnTheWay(c.leader, c.follower, c.leader.nextIndex[p] - 1)
  }

  /** A refusal leaves a hopeful pair that is still above the snapshot point, or one that concludes. */
  lemma HopefulStays(c: Pair, c': Pair, p: int)
    requires Lowers(c, c', p) && Ready(c.leader, c.follower, p) && Hopeful(c, p)
    ensures c'.leader.nextIndex[p] < c.leader.nextIndex[p]
    ensures if c.leader.nextIndex[p] - 1 > c.follower.snapIndex
            then Ready(c'.leader, c'.follower, p) && Hopeful(c', p)
            else !SendsEntries(c'.leader, p) && c.leader.snapIndex == c.follower.snapIndex
  {
    var l, f, prev := c.leader, c.follower, c.leader.nextIndex[p] - 1;
    SuggestionRange(l, f, p);
    if prev > f.snapIndex {
      WayGoesOn(l, f, prev, c'.leader, c'.follower);
    } else {
      StopAtSnapshot(f, prev);
    }
  }

  lemma {:induction false} EndsWhenHopeful(c: Pair, p: int)
    requires Ready(c.leader, c.follower, p) && Hopeful(c, p)
    ensures Ends(c.leader, c.follower, p)
    decreases c.leader.nextIndex[p]
  {
    if Concludes(c, p) {
      EndsAtOnce(c, p);
    } else {
      var c' := HopefulGoesOn(c, p);
      if Concludes(c', p) {
        EndsAtOnce(c', p);
      } else {
        EndsWhenHopeful(c', p);
      }
      EndsNext(c, c', p);
    }
  }

  lemma EndsAtOnce(c: Pair, p: int)
    requires Concludes(c, p)
    ensures Ends(c.leader, c.follower, p)
  {
    assert EndsBy([c], Pair(c.leader, c.follower), p);
  }

  lemma HopefulGoesOn(c: Pair, p: int) returns (c': Pair)
    requires Ready(c.leader, c.follower, p) && Hopeful(c, p) && !Concludes(c, p)
    ensures Refuses(c, c', p) && Talking(c'.leader, c'.follower, p)
    ensures 0 <= p < |c'.leader.nextIndex| && c'.leader.nextIndex[p] < c.leader.nextIndex[p]
    ensures Concludes(c', p) || (Ready(c'.leader, c'.follower, p) && Hopeful(c', p))
  {
    c' := GoesOn(c, p);
    HopefulStays(c, c', p);
  }

  lemma Prepend(c: Pair, rest: seq<Pair>, p: int)
    requires Refusals(rest, p) && Refuses(c, rest[0], p)
    ensures Refusals([c] + rest, p) && ([c] + rest)[|rest|] == rest[|rest| - 1]
  {
    var s := [c] + rest;
    forall i | 0 < i < |s|
      ensures RefusedAt(s, p, i)
    {
      if i > 1 {
        assert RefusedAt(rest, p, i - 1);
      }
    }
  }

  /** The leader's snapshot is behind the follower's, and from here on no probe meets. */
  ghost predicate Hopeless(l: Node, f: Node, p: int) {
    && Talking(l, f, p) && l.snapIndex < f.snapIndex <= l.nextIndex[p] && !Meets(l, f, f.snapIndex)
    && (f.snapIndex < l.nextIndex[p] ==> !MeetsOnTheWay(l, f, l.nextIndex[p] - 1))
  }

  lemma ProbedInVain(l: Node, f: Node, p: int)
    requires Hopeless(l, f, p)
    ensures SendsEntries(l, p) && !Meets(l, f, l.nextIndex[p] - 1)
  {
    var prev := l.nextIndex[p] - 1;
    if prev >= f.snapIndex {
      assert Stop(f, prev, prev);
    }
  }

  lemma HopelessStays(c: Pair, c': Pair, p: int)
    requires Hopeless(c.leader, c.follower, p) && Lowers(c, c', p)
    ensures Hopeless(c'.leader, c'.follower, p)
  {
    var l, f, prev := c.leader, c.follower, c.leader.nextIndex[p] - 1;
    SuggestionRange(l, f, p);
    if prev > f.snapIndex {
      WayGoesOn(l, f, prev, c'.leader, c'.follower);
    } else {
      StopAtSnapshot(c'.follower, f.snapIndex);
    }
  }

  lemma {:induction false} HopelessForEver(s: seq<Pair>, p: int)
    requires Lowerings(s, p) && Hopeless(s[0].leader, s[0].follower, p)
    ensures Hopeless(s[|s| - 1].leader, s[|s| - 1].follower, p)
    decreases |s|
  {
    if |s| > 1 {
      var n := |s| - 1;
      LoweringsBefore(s, p);
      HopelessForEver(s[..n], p);
      HopelessStays(s[n - 1], s[n], p);
    }
  }

  /** From a probe above the follower's snapshot. */
  lemma EndsFromReadyIff(l: Node, f: Node, p: int)
    requires Ready(l, f, p)
    ensures Ends(l, f, p) <==> l.snapIndex >= f.snapIndex || MeetsOnTheWay(l, f, l.nextIndex[p] - 1)
  {
    if Hopeful(Pair(l, f), p) {
      EndsWhenHopeful(Pair(l, f), p);
    } else {
      StopAtSnapshot(f, l.nextIndex[p] - 1);
      assert Hopeless(l, f, p);
      forall s | Refusals(s, p) && s[0] == Pair(l, f)
        ensures !EndsBy(s, Pair(l, f), p)
      {
        NoConclusion(s, p);
      }
    }
  }

  lemma NoConclusion(s: seq<Pair>, p: int)
    requires Refusals(s, p) && Hopeless(s[0].leader, s[0].follower, p)
    ensures !Concludes(s[|s| - 1], p)
  {
    var c := s[|s| - 1];
    RefusalsLower(s, p);
    HopelessForEver(s, p);
    ProbedInVain(c.leader, c.follower, p);
    ConcludesIff(c, p);
  }

  /** A refusal neither starts nor prevents an end. */
  lemma EndsNext(c: Pair, c': Pair, p: int)
    requires Refuses(c, c', p) && Talking(c'.leader, c'.follower, p)
    ensures Ends(c.leader, c.follower, p) <==> Ends(c'.leader, c'.follower, p)
  {
    if Ends(c.leader, c.follower, p) {
      var s :| EndsBy(s, Pair(c.leader, c.follower), p);
      DropFirst(c, c', s, p);
    }
    if Ends(c'.leader, c'.follower, p) {
      var s :| EndsBy(s, Pair(c'.leader, c'.follower), p);
      PutFirst(c, c', s, p);
    }
  }

  lemma SameRefusal(c: Pair, c': Pair, d: Pair, p: int)
    requires Refuses(c, c', p) && Refuses(c, d, p)
    ensures c' == d && !Concludes(c, p)
  {
  }

  lemma DropFirst(c: Pair, c': Pair, s: seq<Pair>, p: int)
    requires Refuses(c, c', p) && Talking(c'.leader, c'.follower, p)
    requires EndsBy(s, c, p)
    ensures EndsBy(s[1..], c', p)
  {
    SameRefusal(c, c', c', p);
    assert |s| > 1 && RefusedAt(s, p, 1);
    SameRefusal(c, c', s[1], p);
    var rest := s[1..];
    forall i | 0 < i < |rest|
      ensures RefusedAt(rest, p, i)
    {
      assert RefusedAt(s, p, i + 1);
    }
  }

  lemma PutFirst(c: Pair, c': Pair, s: seq<Pair>, p: int)
    requires Refuses(c, c', p) && EndsBy(s, c', p)
    ensures EndsBy([c] + s, c, p)
  {
    Prepend(c, s, p);
    assert ([c] + s)[0] == c;
  }

  /** A probe below the follower's snapshot is refused once, and the next one is at the snapshot point. */
  lemma ComesUp(c: Pair, c': Pair, p: int)
    requires Lowers(c, c', p) && c.leader.nextIndex[p] <= c.follower.snapIndex
    ensures Ready(c'.leader, c'.follower, p) && c'.leader.nextIndex[p] == c.follower.snapIndex + 1
    ensures MeetsOnTheWay(c'.leader, c'.follower, c.follower.snapIndex) <==>
            Meets(c.leader, c.follower, c.follower.snapIndex)
    ensures MeetsOnTheWay(c.leader, c.follower, c.follower.snapIndex) <==>
            Meets(c.leader, c.follower, c.follower.snapIndex)
  {
    SuggestionRange(c.leader, c.follower, p);
    StopAtSnapshot(c.follower, c.follower.snapIndex);
    StopAtSnapshot(c'.follower, c.follower.snapIndex);
  }

  /** A negotiation ends if and only if the leader's snapshot is not behind the follower's or due at once, or the
      logs meet on the way down from the probe, or from the follower's snapshot if the probe is below it. */
  lemma EndsIff(l: Node, f: Node, p: int)
    requires Talking(l, f, p)
    ensures Ends(l, f, p) <==>
            || l.snapIndex >= f.snapIndex || !SendsEntries(l, p)
            || MeetsOnTheWay(l, f, Max(l.nextIndex[p] - 1, f.snapIndex))
  {
    var c := Pair(l, f);
    if f.snapIndex < l.nextIndex[p] {
      EndsFromReadyIff(l, f, p);
    } else if Concludes(c, p) {
      ConcludesIff(c, p);
      assert EndsBy([c], c, p);
    } else {
      var c' := GoesOn(c, p);
      ComesUp(c, c', p);
      EndsNext(c, c', p);
      EndsFromReadyIff(c'.leader, c'.follower, p);
    }
  }

  /** Logs that meet at an index meet at every lower index both know: the terms' part of log matching
      (section 5.3), snapshot points included. */
  ghost predicate TermsMatch(l: Node, f: Node) {
    forall i, j :: Meets(l, f, i) && j <= i && InRange(l, j) && InRange(f, j) ==> Meets(l, f, j)
  }

  /** With log matching: if and only if the leader, unless its snapshot is due at once, does not have the index of
      the follower's snapshot in its log under another term. */
  lemma EndsIffSnapshotMatches(l: Node, f: Node, p: int)
    requires Talking(l, f, p) && TermsMatch(l, f)
    ensures Ends(l, f, p) <==> (l.snapIndex < f.snapIndex && SendsEntries(l, p) ==> Meets(l, f, f.snapIndex))
  {
    var prev := Max(l.nextIndex[p] - 1, f.snapIndex);
    EndsIff(l, f, p);
    StopAtSnapshot(f, prev);
    if MeetsOnTheWay(l, f, prev) && l.snapIndex < f.snapIndex {
      var j :| Stop(f, prev, j) && Meets(l, f, j);
      MeetsBelow(l, f, j, f.snapIndex);
    }
  }

  lemma MeetsBelow(l: Node, f: Node, i: int, j: int)
    requires TermsMatch(l, f) && Meets(l, f, i) && j <= i && l.snapIndex <= j && f.snapIndex <= j
    requires Indexed(l) && Indexed(f)
    ensures Meets(l, f, j)
  {
    LastIndexIsLength(l);
    LastIndexIsLength(f);
  }

  /** Every refusal costs at least one index: in a negotiation that ends there are no more of them than there are
      indices between the follower's snapshot and the probe, and one more when the two snapshots are at one
      index with different terms; from a probe below the snapshot there is at most one. */
  lemma RefusalsBounded(l: Node, f: Node, p: int, s: seq<Pair>)
    requires Talking(l, f, p) && Ends(l, f, p) && Refusals(s, p) && s[0] == Pair(l, f)
    ensures |s| - 1 <= if f.snapIndex < l.nextIndex[p] then l.nextIndex[p] - 1 - f.snapIndex + Apart(l, f) else 1
    ensures l.nextIndex[p] - 1 <= LastLogIndex(l)
  {
    RefusalsLower(s, p);
    if f.snapIndex < l.nextIndex[p] {
      EndsFromReadyIff(l, f, p);
      LoweringsBounded(s, p);
    } else {
      EndsIff(l, f, p);
      OneRefusal(s, p);
    }
  }

  lemma OneRefusal(s: seq<Pair>, p: int)
    requires Lowerings(s, p) && s[0].leader.nextIndex[p] <= s[0].follower.snapIndex
    requires var l, f := s[0].leader, s[0].follower;
             l.snapIndex >= f.snapIndex || !SendsEntries(l, p) || MeetsOnTheWay(l, f, f.snapIndex)
    ensures |s| <= 2
  {
    if |s| > 2 {
      assert LoweredAt(s, p, 1) && LoweredAt(s, p, 2);
      ComesUp(s[0], s[1], p);
    }
  }

  function Apart(l: Node, f: Node): int {
    if l.snapIndex == f.snapIndex && l.snapTerm != f.snapTerm then 1 else 0
  }

  lemma AllButLastSend(s: seq<Pair>, p: int)
    requires Lowerings(s, p)
    ensures forall i :: 0 <= i < |s| - 1 ==> Talking(s[i].leader, s[i].follower, p) && SendsEntries(s[i].leader, p)
  {
    forall i | 0 <= i < |s| - 1
      ensures Talking(s[i].leader, s[i].follower, p) && SendsEntries(s[i].leader, p)
    {
      assert LoweredAt(s, p, i + 1);
    }
  }

  lemma {:induction false} LoweringsBounded(s: seq<Pair>, p: int)
    requires Lowerings(s, p) && Ready(s[0].leader, s[0].follower, p) && Hopeful(s[0], p)
    ensures |s| - 1 <= s[0].leader.nextIndex[p] - 1 - s[0].follower.snapIndex + Apart(s[0].leader, s[0].follower)
    decreases |s|
  {
    if |s| > 1 {
      var c, rest := s[0], s[1..];
      assert LoweredAt(s, p, 1);
      HopefulStays(c, rest[0], p);
      if c.leader.nextIndex[p] - 1 > c.follower.snapIndex {
        LoweringsAfter(s, p);
        LoweringsBounded(rest, p);
      } else {
        AllButLastSend(s, p);
      }
    }
  }

  lemma LoweringsAfter(s: seq<Pair>, p: int)
    requires Lowerings(s, p) && |s| > 1
    ensures Lowerings(s[1..], p)
  {
    assert LoweredAt(s, p, 1);
    forall i | 0 < i < |s[1..]|
      ensures LoweredAt(s[1..], p, i)
    {
      assert LoweredAt(s, p, i + 1);
    }
  }

  /** The log matching property between the two logs (section 5.3). */
  ghost predicate Matching(l: Node, f: Node) {
    forall i, j :: Meets(l, f, i) && j <= i && InMemory(l, j) && InMemory(f, j) ==> EntryAt(l, j) == EntryAt(f, j)
  }

  ghost predicate Agrees(l: Node, f: Node, i: int) {
    InMemory(l, i) && i > f.snapIndex ==> InMemory(f, i) && EntryAt(f, i) == EntryAt(l, i)
  }

  /** An accepted probe leaves the follower with the leader's log: every index the leader has in memory
      above the follower's snapshot, entry by entry. */
  lemma MergedAgrees(l: Node, f: Node, prev: int, f': Node, i: int)
    requires Matching(l, f) && TakesOver(l, f, prev, f')
    ensures Agrees(l, f', i)
  {
    if InMemory(l, i) && f.snapIndex < i <= prev {
      assert InMemory(f, i) && EntryAt(l, i) == EntryAt(f, i);
    }
  }

  /** What a negotiation comes to: a follower that accepts then holds the leader's log, and otherwise the
      leader's snapshot is due. */
  lemma NegotiationEnds(l: Node, f: Node, p: int, s: seq<Pair>, i: int)
    requires Matching(l, f) && Refusals(s, p) && s[0] == Pair(l, f) && Concludes(s[|s| - 1], p)
    ensures var c := s[|s| - 1];
            && SameLog(l, c.leader) && SameLog(f, c.follower) && c.follower.commitIndex == f.commitIndex
            && (if SendsEntries(c.leader, p)
                then var f' := Exchange(c.leader, c.follower, p).1;
                     Agrees(l, f', i) && LastLogIndex(f') >= LastLogIndex(l) && CommitsAlong(l, f, f')
                else c.leader.nextIndex[p] <= l.snapIndex)
  {
    var c := s[|s| - 1];
    RefusalsLower(s, p);
    LogsStay(s, p);
    if SendsEntries(c.leader, p) {
      var f' := Exchange(c.leader, c.follower, p).1;
      assert Agrees(c.leader, f', i) && LastLogIndex(f') >= LastLogIndex(c.leader)
             && CommitsAlong(c.leader, c.follower, f') by {
        SameLogsMatch(l, f, c.leader, c.follower);
        ConclusionHolds(c, p, i);
      }
      AgreesSame(l, c.leader, f', i);
    }
  }

  lemma ConclusionHolds(c: Pair, p: int, i: int)
    requires Concludes(c, p) && SendsEntries(c.leader, p) && Matching(c.leader, c.follower)
    ensures Agrees(c.leader, Exchange(c.leader, c.follower, p).1, i)
    ensures LastLogIndex(Exchange(c.leader, c.follower, p).1) >= LastLogIndex(c.leader)
    ensures CommitsAlong(c.leader, c.follower, Exchange(c.leader, c.follower, p).1)
  {
    var (l', f', accepted) := Exchange(c.leader, c.follower, p);
    ExchangeMeaning(c.leader, c.follower, p);
    AcceptedHolds(c.leader, c.follower, p, l', f', i);
  }

  lemma AcceptedHolds(l: Node, f: Node, p: int, l': Node, f': Node, i: int)
    requires Talking(l, f, p) && Matching(l, f) && Exchanged(l, f, p, l', f', true)
    ensures Agrees(l, f', i) && LastLogIndex(f') >= LastLogIndex(l) && CommitsAlong(l, f, f')
  {
    var prev := l.nextIndex[p] - 1;
    MergedAgrees(l, f, prev, f', i);
    AcceptedReaches(l, f, prev, f');
  }

  lemma {:induction false} LogsStay(s: seq<Pair>, p: int)
    requires Lowerings(s, p)
    ensures SameLog(s[0].leader, s[|s| - 1].leader) && SameLog(s[0].follower, s[|s| - 1].follower)
    ensures s[|s| - 1].leader.commitIndex == s[0].leader.commitIndex
    ensures s[|s| - 1].follower.commitIndex == s[0].follower.commitIndex
    decreases |s|
  {
    if |s| > 1 {
      var n := |s| - 1;
      LoweringsBefore(s, p);
      LogsStay(s[..n], p);
    }
  }

  lemma SameLogsMatch(l: Node, f: Node, l': Node, f': Node)
    requires Matching(l, f) && SameLog(l, l') && SameLog(f, f')
    ensures Matching(l', f')
  {
    forall i, j | Meets(l', f', i) && j <= i && InMemory(l', j) && InMemory(f', j)
      ensures EntryAt(l', j) == EntryAt(f', j)
    {
      assert Meets(l, f, i) && InMemory(l, j) && InMemory(f, j);
      assert EntryAt(l, j) == EntryAt(f, j);
    }
  }

  lemma AgreesSame(l: Node, l': Node, g: Node, i: int)
    requires SameLog(l, l')
    ensures Agrees(l', g, i) == Agrees(l, g, i) && LastLogIndex(l') == LastLogIndex(l)
  {
    if InMemory(l, i) {
      assert EntryAt(l', i) == EntryAt(l, i);
    }
  }

  lemma MergedIndexed(l: Node, f: Node, prev: int, f': Node)
    requires Indexed(l) && Indexed(f) && TakesOver(l, f, prev, f')
    ensures Indexed(f')
  {
    forall k | 0 <= k < |f'.logs|
      ensures f'.logs[k].index == f'.snapIndex + 1 + k
    {
      var i := f.snapIndex + 1 + k;
      if i <= prev {
        assert InMemory(f, i) && EntryAt(f', i) == EntryAt(f, i) == f.logs[k];
      } else if !HoldsMore(l, f, prev) {
        assert InMemory(l, i) && EntryAt(f', i) == EntryAt(l, i) == l.logs[i - l.snapIndex - 1];
      }
    }
  }

  /** The follower's log ends where the leader's does, unless it was longer and already held all of it: a
      tail no leader has contradicted is not dropped. */
  lemma AcceptedReaches(l: Node, f: Node, prev: int, f': Node)
    requires Indexed(l) && Indexed(f) && TakesOver(l, f, prev, f')
    ensures Indexed(f') && LastLogIndex(f') >= LastLogIndex(l)
    ensures LastLogIndex(f') == LastLogIndex(l) <==> !HoldsMore(l, f, prev)
  {
    MergedIndexed(l, f, prev, f');
    LastIndexIsLength(l);
    LastIndexIsLength(f');
  }

  // ---------------------------------------------------------------- the failing side

  /** At the snapshot point without agreement there, two refusals lead back to the same probe. */
  lemma DisagreementCycles(l: Node, f: Node, p: int, s: seq<Pair>)
    requires Refusals(s, p) && |s| == 3 && s[0] == Pair(l, f) && l.nextIndex[p] == f.snapIndex + 1
    requires l.snapIndex < f.snapIndex && TermAt(l, f.snapIndex) != f.snapTerm
    ensures s[2].leader == l && SameLog(f, s[2].follower)
  {
    RefusalsLower(s, p);
    assert LoweredAt(s, p, 1) && LoweredAt(s, p, 2);
    SuggestionRange(l, f, p);
    SuggestionRange(s[1].leader, s[1].follower, p);
    assert s[2].leader.nextIndex == l.nextIndex;
  }

  /** Two nodes that keep the node invariant and negotiate for ever: why the condition is needed, since the code
      does not compare terms at snapshot points.  Nodes that compact what a cluster has committed are never such
      a pair (`NegotiationRuns.CompactedNegotiationEnds`). */
  lemma DisagreementInstance()
    ensures var l := Node(0, 3, 0, Leader, [Entry("a", 1, 1), Entry("b", 3, 2)], 0, 0, [3, 2], [0, 0], 0, 0);
            var f := Node(1, 3, NO_VOTE, Follower, [], 1, 1, [0, 0], [0, 0], 1, 2);
            NodeInv(l) && NodeInv(f) && Ready(l, f, 1) && TermsMatch(l, f) && !Ends(l, f, 1)
  {
    var l := Node(0, 3, 0, Leader, [Entry("a", 1, 1), Entry("b", 3, 2)], 0, 0, [3, 2], [0, 0], 0, 0);
    var f := Node(1, 3, NO_VOTE, Follower, [], 1, 1, [0, 0], [0, 0], 1, 2);
    assert LastLogIndex(l) == 2 && LastLogIndex(f) == 1;
    assert !Meets(l, f, 1) && !InRange(f, 2) && !InRange(f, 0);
    assert Ready(l, f, 1);
    EndsIffSnapshotMatches(l, f, 1);
  }
}
