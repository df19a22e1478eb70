/** The ways a history grows, each kept consistent, and the facts that growth cannot undo. */
module HistorySteps {
  import opened RaftTypes
  import opened History

  ghost predicate Grows(h: History, h': History) {
    && (forall k :: k in h.voted ==> k in h'.voted && h'.voted[k] == h.voted[k])
    && (forall t :: t in h.elected ==> t in h'.elected && h'.elected[t] == h.elected[t])
    && (forall t :: t in h.tlog ==> t in h'.tlog && h.tlog[t] <= h'.tlog[t])
    && (forall k :: k in h.acked ==> k in h'.acked && h.acked[k] <= h'.acked[k])
    && (forall r :: r in h.rounds ==> r in h'.rounds && h'.rounds[r] == h.rounds[r])
  }

  // ---------------------------------------------------------------- what growth keeps

  lemma GrowsTransitive(h0: History, h1: History, h2: History)
    requires Grows(h0, h1) && Grows(h1, h2)
    ensures Grows(h0, h2)
  {
  }

  lemma GenuineGrows(h: History, h': History, log: Log)
    requires Genuine(h, log) && Grows(h, h')
    ensures Genuine(h', log)
  {
    forall i | 0 <= i < |log|
      ensures Written(h', log, i)
    {
      assert Written(h, log, i);
      var t := log[i].term;
      assert h.tlog[t][..i + 1] == h'.tlog[t][..i + 1];
    }
  }

  lemma KeepsGrows(h: History, h': History, t: int, acked: int, log: Log, bound: int)
    requires KeepsAll(h, t, acked, log, bound) && Grows(h, h')
    ensures KeepsAll(h', t, acked, log, bound)
  {
    forall L | 0 <= L <= acked
      ensures Keeps(h', t, L, log, bound)
    {
      assert Keeps(h, t, L, log, bound);
      assert h'.tlog[t][..L] == h.tlog[t][..L];
      if Lost(h, t, L, bound) {
        var u :| t < u < bound && u in h.elected && !(h.tlog[t][..L] <= h.elected[u].log);
        assert u in h'.elected;
      }
    }
  }

  lemma ChosenGrows(h: History, h': History, peers: nat, t: int, L: int)
    requires Chosen(h, peers, t, L) && Grows(h, h')
    ensures Chosen(h', peers, t, L)
  {
    var q :| Quorum(q, peers) && AckedBy(h, t, L, q);
    assert AckedBy(h', t, L, q);
  }

  // ---------------------------------------------------------------- settled prefixes

  /** The prefix P was chosen in some term up to `bound`. */
  ghost predicate Settled(h: History, peers: nat, P: Log, bound: int) {
    P == [] || exists t, L :: t <= bound && |P| <= L && Chosen(h, peers, t, L) && P <= h.tlog[t]
  }

  lemma SettledGrows(h: History, h': History, peers: nat, P: Log, bound: int, bound': int)
    requires Settled(h, peers, P, bound) && Grows(h, h') && bound <= bound'
    ensures Settled(h', peers, P, bound')
  {
    if P != [] {
      var t, L :| t <= bound && |P| <= L && Chosen(h, peers, t, L) && P <= h.tlog[t];
      ChosenGrows(h, h', peers, t, L);
      assert P <= h'.tlog[t];
    }
  }

  /** A leader has everything that was settled up to its term; what was settled before its term it had
      when it was elected. */
  lemma SettledInLeader(h: History, peers: nat, P: Log, bound: int, u: int)
    requires Consistent(h, peers) && Settled(h, peers, P, bound) && u in h.elected && bound <= u
    ensures P <= h.tlog[u]
    ensures bound < u ==> P <= h.elected[u].log
  {
    if P != [] {
      var t, L :| t <= bound && |P| <= L && Chosen(h, peers, t, L) && P <= h.tlog[t];
      assert ElectedOk(h, peers, u);
      if t < u {
        LeaderCompleteness(h, peers, t, L, u);
        assert P <= h.tlog[t][..L];
      }
    }
  }

  /** Two settled prefixes are prefixes of one log, whatever terms settled them. */
  lemma SettledAgree(h: History, peers: nat, P: Log, Q: Log, p: int, q: int)
    requires Consistent(h, peers) && Settled(h, peers, P, p) && Settled(h, peers, Q, q)
    ensures P <= Q || Q <= P
  {
    if P != [] && Q != [] {
      var t, L :| t <= p && |P| <= L && Chosen(h, peers, t, L) && P <= h.tlog[t];
      var u, M :| u <= q && |Q| <= M && Chosen(h, peers, u, M) && Q <= h.tlog[u];
      if t <= u {
        SettledInLeader(h, peers, P, t, u);
      } else {
        SettledInLeader(h, peers, Q, u, t);
      }
    }
  }

  // ---------------------------------------------------------------- growing

  lemma ElectedStill(h: History, h': History, peers: nat, t: int)
    requires t in h.elected && ElectedOk(h, peers, t) && Grows(h, h') && h'.tlog[t] == h.tlog[t]
    ensures ElectedOk(h', peers, t)
  {
    GenuineGrows(h, h', h.tlog[t]);
  }

  /** A vote, its voter's log beside it.  A voter that repeats its vote keeps the first record. */
  ghost function RecordVote(h: History, k: (int, int), r: VoteRec): History {
    if k in h.voted then h else h.(voted := h.voted[k := r])
  }

  lemma RecordVoteOk(h: History, peers: nat, k: (int, int), r: VoteRec)
    requires Consistent(h, peers)
    requires Genuine(h, r.log)
    requires r.candidate == k.0 || ((r.candidate, k.1) in h.voted && AtLeast(h.voted[(r.candidate, k.1)].log, r.log))
    requires forall t :: t < k.1 && (k.0, t) in h.acked ==> KeepsAll(h, t, h.acked[(k.0, t)], r.log, k.1 + 1)
    ensures Consistent(RecordVote(h, k, r), peers)
    ensures Grows(h, RecordVote(h, k, r))
  {
    var h' := RecordVote(h, k, r);
    if k !in h.voted {
      forall t {:trigger ElectedOk(h', peers, t)} | t in h'.elected
        ensures ElectedOk(h', peers, t)
      {
        ElectedStill(h, h', peers, t);
      }
      forall j {:trigger VotedOk(h', j)} {:trigger Honest(h', j)} | j in h'.voted
        ensures VotedOk(h', j) && Honest(h', j)
      {
        VotedStill(h, h', peers, k, r, j);
      }
    }
  }

  lemma VotedStill(h: History, h': History, peers: nat, k: (int, int), r: VoteRec, j: (int, int))
    requires Consistent(h, peers) && k !in h.voted && h' == RecordVote(h, k, r) && Grows(h, h')
    requires Genuine(h, r.log)
    requires r.candidate == k.0 || ((r.candidate, k.1) in h.voted && AtLeast(h.voted[(r.candidate, k.1)].log, r.log))
    requires forall t :: t < k.1 && (k.0, t) in h.acked ==> KeepsAll(h, t, h.acked[(k.0, t)], r.log, k.1 + 1)
    requires j in h'.voted
    ensures VotedOk(h', j) && Honest(h', j)
  {
    var log := h'.voted[j].log;
    if j != k {
      assert VotedOk(h, j) && Honest(h, j);
    }
    GenuineGrows(h, h', log);
    if j == k && k.1 in h.elected {
      assert ElectedOk(h, peers, k.1) && k == (k.0, k.1);
      var w := h.elected[k.1];
      assert k.0 in w.voters ==> Backs(h, k.0, k.1, w.leader, w.log);
    }
    if j.1 !in h'.elected || j.0 in h'.elected[j.1].voters {
      forall t | t < j.1 && (j.0, t) in h'.acked
        ensures KeepsAll(h', t, h'.acked[(j.0, t)], log, j.1)
      {
        if j == k {
          NarrowBound(h, t, h.acked[(k.0, t)], r.log, k.1);
        }
        KeepsGrows(h, h', t, h.acked[(j.0, t)], log, j.1);
      }
    }
  }

  lemma NarrowBound(h: History, t: int, acked: int, log: Log, bound: int)
    requires KeepsAll(h, t, acked, log, bound + 1) && bound !in h.elected
    ensures KeepsAll(h, t, acked, log, bound)
  {
    forall L | 0 <= L <= acked
      ensures Keeps(h, t, L, log, bound)
    {
      assert Keeps(h, t, L, log, bound + 1);
    }
  }

  /** An election: the winner's log opens the log of its term and is acknowledged by the winner. */
  ghost function RecordWin(h: History, t: int, w: Won): History {
    h.(elected := h.elected[t := w], tlog := h.tlog[t := w.log], acked := h.acked[(w.leader, t) := |w.log|])
  }

  lemma RecordWinOk(h: History, peers: nat, t: int, w: Won)
    requires Consistent(h, peers) && t !in h.elected && t >= 1
    requires 0 <= w.leader < peers && Quorum(w.voters, peers) && w.leader in w.voters
    requires Genuine(h, w.log)
    requires forall i :: 0 <= i < |w.log| ==> w.log[i].term < t
    requires forall v :: v in w.voters ==> Backs(h, v, t, w.leader, w.log)
    requires forall k :: k in h.voted && k.0 == w.leader ==> k.1 <= t
    requires (w.leader, t) !in h.acked
    ensures Consistent(RecordWin(h, t, w), peers)
    ensures Grows(h, RecordWin(h, t, w))
  {
    var h' := RecordWin(h, t, w);
    assert Grows(h, h');
    forall u {:trigger ElectedOk(h', peers, u)} | u in h'.elected
      ensures ElectedOk(h', peers, u)
    {
      if u != t {
        ElectedStill(h, h', peers, u);
      } else {
        ElectedAfterWin(h, h', peers, t, w);
      }
    }
    forall j {:trigger VotedOk(h', j)} {:trigger Honest(h', j)} | j in h'.voted
      ensures VotedOk(h', j) && Honest(h', j)
    {
      assert VotedOk(h, j) && Honest(h, j);
      VotedAfterAck(h, h', j, (w.leader, t));
    }
  }

  lemma ElectedAfterWin(h: History, h': History, peers: nat, t: int, w: Won)
    requires Grows(h, h') && t in h'.elected && h'.elected[t] == w && t in h'.tlog && h'.tlog[t] == w.log && t >= 1
    requires 0 <= w.leader < peers && Quorum(w.voters, peers) && w.leader in w.voters && Genuine(h, w.log)
    requires forall i :: 0 <= i < |w.log| ==> w.log[i].term < t
    requires forall v :: v in w.voters ==> Backs(h, v, t, w.leader, w.log)
    ensures ElectedOk(h', peers, t)
  {
    GenuineGrows(h, h', w.log);
  }

  /** An acknowledgement in a term no earlier than any vote of that server disturbs no vote record. */
  lemma VotedAfterAck(h: History, h': History, j: (int, int), k: (int, int))
    requires j in h.voted && VotedOk(h, j) && Honest(h, j) && Grows(h, h')
    requires h'.voted == h.voted
    requires forall i :: i in h'.acked && i != k ==> i in h.acked && h'.acked[i] == h.acked[i]
    requires j.0 == k.0 ==> j.1 <= k.1
    requires j.1 in h'.elected && j.1 in h.elected ==> h'.elected[j.1] == h.elected[j.1]
    ensures VotedOk(h', j) && Honest(h', j)
  {
    var log := h.voted[j].log;
    GenuineGrows(h, h', log);
    if j.1 !in h'.elected || j.0 in h'.elected[j.1].voters {
      forall t | t < j.1 && (j.0, t) in h'.acked
        ensures KeepsAll(h', t, h'.acked[(j.0, t)], log, j.1)
      {
        KeepsGrows(h, h', t, h.acked[(j.0, t)], log, j.1);
      }
    }
  }

  /** A leader appends an entry of its own term and acknowledges it. */
  ghost function RecordEntry(h: History, s: int, t: int, e: Entry): History
    requires t in h.tlog
  {
    h.(tlog := h.tlog[t := h.tlog[t] + [e]], acked := h.acked[(s, t) := |h.tlog[t]| + 1])
  }

  lemma RecordEntryOk(h: History, peers: nat, s: int, t: int, e: Entry)
    requires Consistent(h, peers) && t in h.elected && e.term == t && e.index == |h.tlog[t]| + 1
    requires forall k :: k in h.voted && k.0 == s ==> k.1 <= t
    ensures Consistent(RecordEntry(h, s, t, e), peers)
    ensures Grows(h, RecordEntry(h, s, t, e))
    ensures Genuine(RecordEntry(h, s, t, e), h.tlog[t] + [e])
  {
    var h' := RecordEntry(h, s, t, e);
    assert Grows(h, h');
    forall u {:trigger ElectedOk(h', peers, u)} | u in h'.elected
      ensures ElectedOk(h', peers, u)
    {
      assert ElectedOk(h, peers, u);
      if u == t {
        ElectedAfterEntry(h, h', peers, t, e);
      } else {
        ElectedStill(h, h', peers, u);
      }
    }
    assert ElectedOk(h', peers, t);
    forall j {:trigger VotedOk(h', j)} {:trigger Honest(h', j)} | j in h'.voted
      ensures VotedOk(h', j) && Honest(h', j)
    {
      assert VotedOk(h, j) && Honest(h, j);
      VotedAfterAck(h, h', j, (s, t));
    }
  }

  lemma ElectedAfterEntry(h: History, h': History, peers: nat, t: int, e: Entry)
    requires t in h.elected && ElectedOk(h, peers, t) && Grows(h, h') && h'.tlog[t] == h.tlog[t] + [e]
    requires e.term == t && e.index == |h.tlog[t]| + 1
    ensures ElectedOk(h', peers, t)
  {
    GenuineGrows(h, h', h.tlog[t]);
    GenuineSnoc(h', h.tlog[t], e);
  }

  lemma GenuineSnoc(h: History, log: Log, e: Entry)
    requires Genuine(h, log) && e.index == |log| + 1
    requires e.term in h.tlog && h.tlog[e.term] == log + [e]
    ensures Genuine(h, log + [e])
  {
    var longer := log + [e];
    forall i | 0 <= i < |longer|
      ensures Written(h, longer, i)
    {
      if i < |log| {
        assert Written(h, log, i);
        assert longer[..i + 1] == log[..i + 1];
      }
    }
  }

  /** A server acknowledges the first L entries of term t's log; it never takes an acknowledgement back. */
  ghost function RecordAck(h: History, k: (int, int), L: int): History {
    if k in h.acked && L <= h.acked[k] then h else h.(acked := h.acked[k := L])
  }

  lemma RecordAckOk(h: History, peers: nat, k: (int, int), L: int)
    requires Consistent(h, peers) && k.1 in h.tlog && 0 <= L <= |h.tlog[k.1]|
    requires forall j :: j in h.voted && j.0 == k.0 ==> j.1 <= k.1
    ensures Consistent(RecordAck(h, k, L), peers)
    ensures Grows(h, RecordAck(h, k, L))
  {
    var h' := RecordAck(h, k, L);
    if h' == h {
      return;
    }
    assert Grows(h, h');
    forall t {:trigger ElectedOk(h', peers, t)} | t in h'.elected
      ensures ElectedOk(h', peers, t)
    {
      ElectedStill(h, h', peers, t);
    }
    forall j {:trigger VotedOk(h', j)} {:trigger Honest(h', j)} | j in h'.voted
      ensures VotedOk(h', j) && Honest(h', j)
    {
      assert VotedOk(h, j) && Honest(h, j);
      VotedAfterAck(h, h', j, k);
    }
  }
}
