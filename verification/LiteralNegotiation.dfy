/** raft.cpp:41 as it is written: a follower probed beyond its log suggests its last *term* plus one, where the
    comment at line 37 and the other branches mean an index.  What becomes of the negotiation then. */
module LiteralNegotiation {
  import opened RaftTypes
  import opened RaftSteps
  import opened NodeInvariant
  import opened Negotiation

  /** The probe reaches beyond the follower's log. */
  predicate Beyond(f: Node, prev: int) {
    prev > LastLogIndex(f)
  }

  /** `AppendEntries1` with line 41 as written. */
  function LiteralAppendEntries(f: Node, a: AppendArgs): (Node, AppendReply)
    requires Indexed(f)
  {
    var (f', reply) := AppendEntriesStep(f, a);
    (f', if a.term >= f.currentTerm && Beyond(f, a.prevIndex) then reply.(updateNext := LastLogTerm(f) + 1) else reply)
  }

  ghost function LiteralExchange(l: Node, f: Node, p: int): (Node, Node, bool)
    requires Talking(l, f, p) && SendsEntries(l, p)
  {
    var a := AppendArgsFor(l, p);
    var (f', reply) := LiteralAppendEntries(f, a);
    (AppendReplyStep(l, p, a, reply, 0).0, f', reply.success)
  }

  ghost predicate LiteralRefuses(c: Pair, c': Pair, p: int) {
    && Talking(c.leader, c.follower, p) && SendsEntries(c.leader, p)
    && LiteralExchange(c.leader, c.follower, p) == (c'.leader, c'.follower, false)
  }

  /** Refusal after refusal.  Only the last pair may have a next index with which the leader's next heart-beat
      fails its assertions. */
  ghost predicate LiteralRefusals(s: seq<Pair>, p: int) {
    && s != [] && Talking(s[0].leader, s[0].follower, p)
    && forall i :: 0 < i < |s| ==> LiteralRefusedAt(s, p, i)
  }

  ghost predicate LiteralRefusedAt(s: seq<Pair>, p: int, i: int)
    requires 0 < i < |s|
  {
    LiteralRefuses(s[i - 1], s[i], p)
  }

  ghost predicate LiteralConcludes(c: Pair, p: int) {
    && Talking(c.leader, c.follower, p)
    && (SendsEntries(c.leader, p) ==> LiteralExchange(c.leader, c.follower, p).2)
  }

  ghost predicate LiteralEnds(l: Node, f: Node, p: int) {
    exists s :: LiteralEndsBy(s, Pair(l, f), p)
  }

  ghost predicate LiteralEndsBy(s: seq<Pair>, c: Pair, p: int) {
    LiteralRefusals(s, p) && s[0] == c && LiteralConcludes(s[|s| - 1], p)
  }

  // ---------------------------------------------------------------- one exchange

  /** A probe that finds its index in the follower, or a snapshot that is due. */
  ghost predicate Within(c: Pair, p: int)
    requires Talking(c.leader, c.follower, p)
  {
    SendsEntries(c.leader, p) ==> !Beyond(c.follower, c.leader.nextIndex[p] - 1)
  }

  lemma WithinIsIntended(c: Pair, c': Pair, p: int)
    requires Talking(c.leader, c.follower, p) && Within(c, p)
    ensures LiteralRefuses(c, c', p) <==> Refuses(c, c', p)
    ensures LiteralConcludes(c, p) <==> Concludes(c, p)
  {
  }

  /** What a refusal comes to when the probe is beyond the log. */
  ghost predicate Overshoots(c: Pair, c': Pair, p: int)
    requires 0 <= p < |c.leader.nextIndex|
  {
    && SameLog(c.follower, c'.follower) && c'.follower.currentTerm == c.leader.currentTerm
    && c'.leader == c.leader.(nextIndex := c'.leader.nextIndex)
    && c'.leader.nextIndex == if LastLogTerm(c.follower) + 1 == NO_UPDATE then c.leader.nextIndex
                              else c.leader.nextIndex[p := LastLogTerm(c.follower) + 1]
  }

  lemma BeyondIsRefused(c: Pair, p: int) returns (c': Pair)
    requires Talking(c.leader, c.follower, p) && !Within(c, p)
    ensures LiteralRefuses(c, c', p) && Overshoots(c, c', p)
  {
    var l, f := c.leader, c.follower;
    var a := AppendArgsFor(l, p);
    LastIndexIsLength(f);
    AnswerTo(f, a);
    var (l', f', accepted) := LiteralExchange(l, f, p);
    c' := Pair(l', f');
  }

  lemma OneRefusal(c: Pair, c': Pair, d: Pair, p: int)
    requires LiteralRefuses(c, c', p) && LiteralRefuses(c, d, p)
    ensures c' == d && !LiteralConcludes(c, p)
  {
  }

  // ---------------------------------------------------------------- the failing side

  /** The suggestion can be probed, and finds its index in the follower or the leader's snapshot. */
  predicate Usable(l: Node, f: Node) {
    var t := LastLogTerm(f);
    0 <= t <= LastLogIndex(l) && (t < l.snapIndex || t <= LastLogIndex(f))
  }

  /** Beyond the log, with no usable suggestion. */
  ghost predicate Doomed(c: Pair, p: int) {
    && !Usable(c.leader, c.follower)
    && (Talking(c.leader, c.follower, p) ==> !Within(c, p))
  }

  lemma DoomedStays(c: Pair, c': Pair, p: int)
    requires Doomed(c, p) && LiteralRefuses(c, c', p)
    ensures Doomed(c', p) && Overshoots(c, c', p) && !LiteralConcludes(c, p)
  {
    var d := BeyondIsRefused(c, p);
    OneRefusal(c, c', d, p);
    OvershootIsDoomed(c, c', p);
  }

  lemma OvershootIsDoomed(c: Pair, c': Pair, p: int)
    requires Talking(c.leader, c.follower, p) && !Within(c, p) && !Usable(c.leader, c.follower)
    requires Overshoots(c, c', p)
    ensures Doomed(c', p)
  {
    assert LastLogTerm(c'.follower) == LastLogTerm(c.follower) && LastLogIndex(c'.follower) == LastLogIndex(c.follower);
    assert LastLogIndex(c'.leader) == LastLogIndex(c.leader);
  }

  lemma LiteralPrefix(s: seq<Pair>, p: int)
    requires LiteralRefusals(s, p) && |s| > 1
    ensures LiteralRefusals(s[..|s| - 1], p) && LiteralRefuses(s[|s| - 2], s[|s| - 1], p)
  {
    var most := s[..|s| - 1];
    forall i | 0 < i < |most|
      ensures LiteralRefusedAt(most, p, i)
    {
      assert LiteralRefusedAt(s, p, i);
    }
    assert LiteralRefusedAt(s, p, |s| - 1);
  }

  lemma {:induction false} DoomedForEver(s: seq<Pair>, p: int)
    requires LiteralRefusals(s, p) && Doomed(s[0], p)
    ensures Doomed(s[|s| - 1], p) && !LiteralConcludes(s[|s| - 1], p)
    decreases |s|
  {
    var n := |s| - 1;
    if n > 0 {
      LiteralPrefix(s, p);
      DoomedForEver(s[..n], p);
      DoomedStays(s[n - 1], s[n], p);
    }
    if Talking(s[n].leader, s[n].follower, p) {
      var d := BeyondIsRefused(s[n], p);
      OneRefusal(s[n], d, d, p);
    }
  }

  /** The next index is right behind the follower's last term. */
  ghost predicate Returned(l: Node, f: Node, p: int, c: Pair)
    requires 0 <= p < |l.nextIndex|
  {
    && c.leader == l.(nextIndex := l.nextIndex[p := LastLogTerm(f) + 1]) && SameLog(f, c.follower)
    && (LastLogTerm(f) > LastLogIndex(l) ==> !HeartBeatAsserts(c.leader, p))
  }

  lemma ReturnsAgain(l: Node, f: Node, p: int, c: Pair, c': Pair)
    requires 0 <= p < |l.nextIndex| && 0 <= LastLogTerm(f)
    requires c.leader == l || Returned(l, f, p, c)
    requires SameLog(f, c.follower) && Overshoots(c, c', p)
    ensures Returned(l, f, p, c')
  {
    assert LastLogTerm(c.follower) == LastLogTerm(f);
    assert c'.leader.nextIndex == l.nextIndex[p := LastLogTerm(f) + 1];
    assert LastLogIndex(c'.leader) == LastLogIndex(l);
  }

  /** Without a usable suggestion every pair but the first has the same next index, right behind the follower's last
      term: beyond the follower's log again, or, then there is no third pair, beyond the leader's, where the
      assertions of the next heart-beat fail. */
  lemma {:induction false} SuggestionReturns(l: Node, f: Node, p: int, s: seq<Pair>)
    requires Talking(l, f, p) && SendsEntries(l, p) && Beyond(f, l.nextIndex[p] - 1) && !Usable(l, f)
    requires 0 <= LastLogTerm(f) && LiteralRefusals(s, p) && s[0] == Pair(l, f) && |s| > 1
    ensures Returned(l, f, p, s[|s| - 1])
    ensures LastLogTerm(f) > LastLogIndex(l) ==> |s| == 2
    decreases |s|
  {
    var n := |s| - 1;
    var c, c' := s[n - 1], s[n];
    LiteralPrefix(s, p);
    assert Overshoots(c, c', p) by {
      DoomedForEver(s[..n], p);
      DoomedStays(c, c', p);
    }
    if n > 1 {
      SuggestionReturns(l, f, p, s[..n]);
    }
    ReturnsAgain(l, f, p, c, c');
  }

  // ---------------------------------------------------------------- the rest

  lemma WithinStays(c: Pair, c': Pair, p: int)
    requires Talking(c.leader, c.follower, p) && Within(c, p) && (LiteralRefuses(c, c', p) || Refuses(c, c', p))
    ensures LiteralRefuses(c, c', p) && Refuses(c, c', p)
    ensures Talking(c'.leader, c'.follower, p) && Within(c', p)
  {
    WithinIsIntended(c, c', p);
    RefusesMeaning(c, c', p);
    LowersWithin(c, c', p);
  }

  lemma LowersWithin(c: Pair, c': Pair, p: int)
    requires Lowers(c, c', p) && Within(c, p)
    ensures Within(c', p)
  {
    SuggestionRange(c.leader, c.follower, p);
    LastIndexIsLength(c.follower);
  }

  /** From a probe within the log the two negotiations are one. */
  lemma {:induction false} LiteralIsIntended(s: seq<Pair>, p: int)
    requires LiteralRefusals(s, p) && Within(s[0], p)
    ensures Refusals(s, p) && Talking(s[|s| - 1].leader, s[|s| - 1].follower, p) && Within(s[|s| - 1], p)
    decreases |s|
  {
    var n := |s| - 1;
    if n > 0 {
      LiteralPrefix(s, p);
      LiteralIsIntended(s[..n], p);
      WithinStays(s[n - 1], s[n], p);
      OneMore(s[..n], s[n], p);
      assert s == s[..n] + [s[n]];
    }
  }

  lemma IntendedPrefix(s: seq<Pair>, p: int)
    requires Refusals(s, p) && |s| > 1
    ensures Refusals(s[..|s| - 1], p) && Refuses(s[|s| - 2], s[|s| - 1], p)
  {
    var most := s[..|s| - 1];
    forall i | 0 < i < |most|
      ensures RefusedAt(most, p, i)
    {
      assert RefusedAt(s, p, i);
    }
    assert RefusedAt(s, p, |s| - 1);
  }

  lemma {:induction false} IntendedIsLiteral(s: seq<Pair>, p: int)
    requires Refusals(s, p) && Within(s[0], p)
    ensures LiteralRefusals(s, p) && Talking(s[|s| - 1].leader, s[|s| - 1].follower, p) && Within(s[|s| - 1], p)
    decreases |s|
  {
    var n := |s| - 1;
    if n > 0 {
      IntendedPrefix(s, p);
      IntendedIsLiteral(s[..n], p);
      WithinStays(s[n - 1], s[n], p);
      LiteralOneMore(s[..n], s[n], p);
      assert s == s[..n] + [s[n]];
    }
  }

  lemma OneMore(s: seq<Pair>, c: Pair, p: int)
    requires Refusals(s, p) && Refuses(s[|s| - 1], c, p)
    ensures Refusals(s + [c], p)
  {
    forall i | 0 < i < |s + [c]|
      ensures RefusedAt(s + [c], p, i)
    {
      if i < |s| {
        assert RefusedAt(s, p, i);
      }
    }
  }

  lemma LiteralOneMore(s: seq<Pair>, c: Pair, p: int)
    requires LiteralRefusals(s, p) && LiteralRefuses(s[|s| - 1], c, p)
    ensures LiteralRefusals(s + [c], p)
  {
    forall i | 0 < i < |s + [c]|
      ensures LiteralRefusedAt(s + [c], p, i)
    {
      if i < |s| {
        assert LiteralRefusedAt(s, p, i);
      }
    }
  }

  lemma WithinEndsIff(l: Node, f: Node, p: int)
    requires Talking(l, f, p) && Within(Pair(l, f), p)
    ensures LiteralEnds(l, f, p) <==> Ends(l, f, p)
  {
    if LiteralEnds(l, f, p) {
      var s :| LiteralEndsBy(s, Pair(l, f), p);
      LiteralIsIntended(s, p);
      WithinIsIntended(s[|s| - 1], s[|s| - 1], p);
      assert EndsBy(s, Pair(l, f), p);
    }
    if Ends(l, f, p) {
      var s :| EndsBy(s, Pair(l, f), p);
      IntendedIsLiteral(s, p);
      WithinIsIntended(s[|s| - 1], s[|s| - 1], p);
      assert LiteralEndsBy(s, Pair(l, f), p);
    }
  }

  lemma LiteralEndsNext(c: Pair, c': Pair, p: int)
    requires LiteralRefuses(c, c', p) && Talking(c'.leader, c'.follower, p)
    ensures LiteralEnds(c.leader, c.follower, p) <==> LiteralEnds(c'.leader, c'.follower, p)
  {
    if LiteralEnds(c.leader, c.follower, p) {
      var s :| LiteralEndsBy(s, Pair(c.leader, c.follower), p);
      LiteralTail(c, c', s, p);
    }
    if LiteralEnds(c'.leader, c'.follower, p) {
      var s :| LiteralEndsBy(s, Pair(c'.leader, c'.follower), p);
      LiteralPrepend(c, c', s, p);
    }
  }

  lemma LiteralTail(c: Pair, c': Pair, s: seq<Pair>, p: int)
    requires LiteralRefuses(c, c', p) && Talking(c'.leader, c'.follower, p)
    requires LiteralEndsBy(s, c, p)
    ensures LiteralEndsBy(s[1..], c', p)
  {
    OneRefusal(c, c', c', p);
    assert |s| > 1 && LiteralRefusedAt(s, p, 1);
    OneRefusal(c, c', s[1], p);
    var rest := s[1..];
    forall i | 0 < i < |rest|
      ensures LiteralRefusedAt(rest, p, i)
    {
      assert LiteralRefusedAt(s, p, i + 1);
    }
  }

  lemma LiteralPrepend(c: Pair, c': Pair, rest: seq<Pair>, p: int)
    requires LiteralRefuses(c, c', p) && LiteralEndsBy(rest, c', p)
    ensures LiteralEndsBy([c] + rest, c, p)
  {
    var s := [c] + rest;
    forall i | 0 < i < |s|
      ensures LiteralRefusedAt(s, p, i)
    {
      if i > 1 {
        assert LiteralRefusedAt(rest, p, i - 1);
      }
    }
  }

  // ---------------------------------------------------------------- when it ends

  /** With a usable suggestion the second probe is within the log. */
  lemma ComesDown(c: Pair, c': Pair, p: int)
    requires Talking(c.leader, c.follower, p) && !Within(c, p) && Overshoots(c, c', p)
    requires Usable(c.leader, c.follower)
    ensures Talking(c'.leader, c'.follower, p) && Within(c', p)
    ensures SameLog(c.leader, c'.leader) && SameLog(c.follower, c'.follower)
    ensures c'.leader.nextIndex[p] == LastLogTerm(c.follower) + 1
  {
    LastIndexIsLength(c.leader);
  }

  lemma SameWay(l: Node, f: Node, l': Node, f': Node, prev: int)
    requires Indexed(f) && SameLog(f, f') && SameLog(l, l')
    ensures Indexed(f') && (MeetsOnTheWay(l', f', prev) <==> MeetsOnTheWay(l, f, prev))
  {
    forall j
      ensures Stop(f', prev, j) && Meets(l', f', j) <==> Stop(f, prev, j) && Meets(l, f, j)
    {
      SameStops(f, f', prev, j);
    }
  }

  /** The condition of `Negotiation.EndsIff` with the first probe at `prev`. */
  ghost predicate Meeting(l: Node, f: Node, prev: int)
    requires Indexed(f)
  {
    l.snapIndex >= f.snapIndex || prev < l.snapIndex || MeetsOnTheWay(l, f, Max(prev, f.snapIndex))
  }

  /** As written, a negotiation that starts with a probe beyond the follower's log ends if and only if the follower's
      last term, taken for an index, is not beyond the leader's log, is either below the leader's snapshot or not
      beyond the follower's log, and the negotiation as intended would end from there.  From any other probe the
      line does not matter. */
  lemma LiteralEndsIff(l: Node, f: Node, p: int)
    requires Talking(l, f, p)
    ensures LiteralEnds(l, f, p) <==>
            if SendsEntries(l, p) && Beyond(f, l.nextIndex[p] - 1)
            then Usable(l, f) && Meeting(l, f, LastLogTerm(f))
            else Meeting(l, f, l.nextIndex[p] - 1)
  {
    var c := Pair(l, f);
    if Within(c, p) {
      WithinEndsIff(l, f, p);
      EndsIff(l, f, p);
    } else if Usable(l, f) {
      var c' := BeyondIsRefused(c, p);
      ComesDown(c, c', p);
      LiteralEndsNext(c, c', p);
      WithinEndsIff(c'.leader, c'.follower, p);
      EndsIff(c'.leader, c'.follower, p);
      SameWay(l, f, c'.leader, c'.follower, Max(LastLogTerm(f), f.snapIndex));
    } else {
      forall s | LiteralRefusals(s, p) && s[0] == c
        ensures !LiteralEndsBy(s, c, p)
      {
        DoomedForEver(s, p);
      }
    }
  }

  /** For a leader whose snapshot is not behind the follower's, and which has not compacted beyond the follower's
      last term, that is: if and only if the last term is not greater than the last index. */
  lemma LiteralEndsIffTermFits(l: Node, f: Node, p: int)
    requires Talking(l, f, p) && SendsEntries(l, p) && Beyond(f, l.nextIndex[p] - 1)
    requires f.snapIndex <= l.snapIndex <= LastLogTerm(f)
    ensures LiteralEnds(l, f, p) <==> LastLogTerm(f) <= LastLogIndex(f)
    ensures Ends(l, f, p)
  {
    LiteralEndsIff(l, f, p);
    EndsIff(l, f, p);
  }

  // ---------------------------------------------------------------- two inputs

  /** A leader just elected in term 8, and a follower that is one entry of term 7 short: the suggestion lies
      beyond the leader's log. */
  lemma LiteralSuggestionOvershoots()
    ensures var l := Node(0, 8, 0, Leader, [Entry("x", 7, 1), Entry("y", 7, 2)], 0, 0, [3, 3, 3], [0, 0, 0], 0, 0);
            var f := Node(1, 8, 0, Follower, [Entry("x", 7, 1)], 0, 0, [0, 0, 0], [0, 0, 0], 0, 0);
            && NodeInv(l) && NodeInv(f) && Talking(l, f, 1) && Ends(l, f, 1) && !LiteralEnds(l, f, 1)
            && !HeartBeatAsserts(LiteralExchange(l, f, 1).0, 1)
  {
    var l := Node(0, 8, 0, Leader, [Entry("x", 7, 1), Entry("y", 7, 2)], 0, 0, [3, 3, 3], [0, 0, 0], 0, 0);
    var f := Node(1, 8, 0, Follower, [Entry("x", 7, 1)], 0, 0, [0, 0, 0], [0, 0, 0], 0, 0);
    assert LastLogIndex(l) == 2 && LastLogIndex(f) == 1 && LastLogTerm(f) == 7;
    LiteralEndsIffTermFits(l, f, 1);
    var c' := BeyondIsRefused(Pair(l, f), 1);
  }

  /** The same follower and a leader with more entries: the same suggestion for ever. */
  lemma LiteralSuggestionReturns(n: nat)
    requires n >= 7
    ensures var l := Node(0, 8, 0, Leader, seq(n, i => Entry("x", 7, i + 1)), 0, 0, [n + 1, n + 1, n + 1], [0, 0, 0], 0, 0);
            var f := Node(1, 8, 0, Follower, [Entry("x", 7, 1)], 0, 0, [0, 0, 0], [0, 0, 0], 0, 0);
            NodeInv(l) && NodeInv(f) && Talking(l, f, 1) && Ends(l, f, 1) && !LiteralEnds(l, f, 1)
  {
    var l := Node(0, 8, 0, Leader, seq(n, i => Entry("x", 7, i + 1)), 0, 0, [n + 1, n + 1, n + 1], [0, 0, 0], 0, 0);
    var f := Node(1, 8, 0, Follower, [Entry("x", 7, 1)], 0, 0, [0, 0, 0], [0, 0, 0], 0, 0);
    LastIndexIsLength(l);
    assert LastLogIndex(l) == n && LastLogIndex(f) == 1 && LastLogTerm(f) == 7;
    LiteralEndsIffTermFits(l, f, 1);
  }
}
