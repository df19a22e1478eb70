/** What the timer operations come to for whoever watches the set: who is in it, with which deadline, who is woken, and
    that a timer which was cancelled, or has fired for good, is never handed out again. */
module TimerMeaning {
  import opened Options
  import opened TimerRuns
  import opened TimerSteps

  /** A manager as the operations find it and leave it. */
  ghost predicate Sound(m: Manager) {
    Ordered(m.timers, m.order) && Kept(m)
  }

  /** Nothing happened to any timer but one. */
  ghost predicate Only(m: Manager, m': Manager, id: int) {
    && m'.previousTime == m.previousTime
    && (forall x :: x in m'.timers <==> x in m.timers || x == id)
    && (forall x :: x in m.timers && x != id ==> m'.timers[x] == m.timers[x])
    && (forall x :: x != id ==> (x in m'.order <==> x in m.order))
  }

  /** The timer comes before all others of the set. */
  ghost predicate Foremost(m: Manager, id: int)
    requires id in m.timers
  {
    forall x :: x in m.order && x in m.timers && x != id ==>
      || m.timers[id].next < m.timers[x].next
      || (m.timers[id].next == m.timers[x].next && id < x)
  }

  lemma FrontIff(m: Manager, id: int)
    requires Ordered(m.timers, m.order) && id in m.order && id in m.timers
    ensures m.order[0] == id <==> Foremost(m, id)
  {
    var i :| 0 <= i < |m.order| && m.order[i] == id;
    if m.order[0] == id {
      forall x | x in m.order && x in m.timers && x != id
        ensures Before(KeyOf(m.timers, id), KeyOf(m.timers, x))
      {
        var j :| 0 <= j < |m.order| && m.order[j] == x;
        assert Before(KeyOf(m.timers, m.order[0]), KeyOf(m.timers, m.order[j]));
      }
    } else {
      assert Before(KeyOf(m.timers, m.order[0]), KeyOf(m.timers, m.order[i]));
      assert m.order[0] in m.order;
    }
  }

  // ---------------------------------------------------------------- entering

  /** OnTimerInsertedAtFront is called when the timer that has entered comes before all others and no wake-up was under
      way; then one is. */
  ghost predicate Wakes(m: Manager, m': Manager, id: int, woken: bool) {
    && id in m'.timers && (woken <==> Foremost(m', id) && !m.tickle)
    && (m'.tickle <==> m.tickle || woken)
  }

  lemma EnterMeans(m: Manager, id: int)
    requires Ordered(m.timers, m.order) && id in m.timers && id !in m.order
    ensures var (m', woken) := Enter(m, id);
            && m'.timers == m.timers && Ordered(m'.timers, m'.order) && id in m'.order && Only(m, m', id)
            && Wakes(m, m', id, woken)
  {
    InsertOrdered(m.timers, m.order, id);
    InsertAdds(m.timers, m.order, id);
    FrontIff(Enter(m, id).0, id);
  }

  /** A new timer is in the set, due after its period. */
  lemma AddMeans(m: Manager, id: int, ms: int, cb: Option<string>, recurring: bool, now: int)
    requires Sound(m) && id !in m.timers
    ensures var (m', woken) := AddTimer(m, id, ms, cb, recurring, now);
            && Sound(m') && Only(m, m', id) && id in m'.order
            && m'.timers[id] == Timer(ms, now + ms, recurring, cb)
            && Wakes(m, m', id, woken)
  {
    var t := Timer(ms, now + ms, recurring, cb);
    ChangeOutside(m.timers, m.order, id, t);
    EnterMeans(m.(timers := m.timers[id := t]), id);
  }

  // ---------------------------------------------------------------- leaving

  lemma MovedMeans(m: Manager, id: int, t: Timer)
    requires Ordered(m.timers, m.order) && id in m.order && id in m.timers
    ensures var m' := Moved(m, id, t);
            && Ordered(m'.timers, m'.order) && id !in m'.order && Only(m, m', id)
            && m'.timers[id] == t && m'.tickle == m.tickle
  {
    ReenterOrdered(m.timers, m.order, id, t);
  }

  /** A cancelled timer is out of the set and has no callback; the others stand in the order in which they stood.  The
      answer is whether there was something to cancel, and if not nothing happens. */
  lemma CancelMeans(m: Manager, id: int) returns (k: nat)
    requires Sound(m) && id in m.timers
    ensures var (m', answer) := Cancel(m, id);
            && (answer <==> m.timers[id].cb.Some?)
            && (!answer ==> m' == m)
            && (answer ==>
                  && Sound(m') && Only(m, m', id) && m'.tickle == m.tickle
                  && id !in m'.order && m'.timers[id] == m.timers[id].(cb := None)
                  && k <= |m'.order| && m.order == m'.order[..k] + [id] + m'.order[k..])
  {
    k := 0;
    if m.timers[id].cb.Some? {
      k := Find(m.timers, m.order, id);
      TakenOut(m, id);
      MovedMeans(m, id, m.timers[id].(cb := None));
    }
  }

  /** Erasing what `find` returns takes the timer out from where it stood. */
  lemma TakenOut(m: Manager, id: int)
    requires Ordered(m.timers, m.order) && id in m.order && id in m.timers
    ensures var k := Find(m.timers, m.order, id);
            var rest := Erase(m.order, k);
            k <= |rest| && m.order == rest[..k] + [id] + rest[k..]
  {
    FindIffThere(m.timers, m.order, id);
    PutBack(m.order, Find(m.timers, m.order, id));
  }

  lemma PutBack(s: seq<int>, k: nat)
    requires k < |s|
    ensures var rest := Erase(s, k);
            k <= |rest| && s == rest[..k] + [s[k]] + rest[k..]
  {
    assert Erase(s, k)[..k] == s[..k] && Erase(s, k)[k..] == s[k + 1..];
  }

  // ---------------------------------------------------------------- going back in

  /** A refresh moves the deadline of a timer with a callback to the reading plus its period and wakes nobody; the answer
      says whether it did. */
  lemma RefreshMeans(m: Manager, id: int, now: int)
    requires Sound(m) && id in m.timers
    ensures var (m', answer) := Refresh(m, id, now);
            && (answer <==> m.timers[id].cb.Some?)
            && (!answer ==> m' == m)
            && (answer ==>
                  && Sound(m') && Only(m, m', id) && m'.tickle == m.tickle && id in m'.order
                  && m'.timers[id] == m.timers[id].(next := now + m.timers[id].ms))
  {
    if m.timers[id].cb.Some? {
      var t := Refreshed(m.timers[id], now);
      FindIffThere(m.timers, m.order, id);
      RefreshIsReentry(m, id, now);
      ReenterOrdered(m.timers, m.order, id, t);
    }
  }

  /** The timer has another period and is due one after the given start, and whoever sleeps is woken as for a new one. */
  ghost predicate Restarted(m: Manager, m': Manager, id: int, ms: int, start: int, woken: bool)
    requires id in m.timers
  {
    && Sound(m') && Only(m, m', id) && id in m'.order && id in m'.timers
    && m'.timers[id] == m.timers[id].(ms := ms, next := start + ms)
    && Wakes(m, m', id, woken)
  }

  /** A reset does nothing for the same period counted from the old start, and nothing for a timer without a callback.
      Otherwise the timer starts again with the new period, at the reading or where it had started.  The answer is true
      either way. */
  lemma ResetMeans(m: Manager, id: int, ms: int, fromNow: bool, now: int)
    requires Sound(m) && id in m.timers
    ensures var (m', answer, woken) := Reset(m, id, ms, fromNow, now);
            var t := m.timers[id];
            && answer
            && ((t.ms == ms && !fromNow) || t.cb.None? ==> m' == m && !woken)
            && ((t.ms != ms || fromNow) && t.cb.Some? ==> Restarted(m, m', id, ms, StartOf(t, fromNow, now), woken))
  {
    var t := m.timers[id];
    if (t.ms != ms || fromNow) && t.cb.Some? {
      ResetRestarts(m, id, ms, fromNow, now);
    } else {
      ResetDoesNothing(m, id, ms, fromNow, now);
    }
  }

  /** Where the period is counted from: the reading, or the start of the one under way. */
  function StartOf(t: Timer, fromNow: bool, now: int): int {
    if fromNow then now else t.next - t.ms
  }

  lemma ResetRestarts(m: Manager, id: int, ms: int, fromNow: bool, now: int)
    requires Sound(m) && id in m.timers
    requires (m.timers[id].ms != ms || fromNow) && m.timers[id].cb.Some?
    ensures var (m', answer, woken) := Reset(m, id, ms, fromNow, now);
            answer && Restarted(m, m', id, ms, StartOf(m.timers[id], fromNow, now), woken)
  {
    assert id in m.order;
    ResetIsRestart(m, id, ms, fromNow, now);
    RestartMeans(m, id, ms, StartOf(m.timers[id], fromNow, now));
  }

  lemma ResetDoesNothing(m: Manager, id: int, ms: int, fromNow: bool, now: int)
    requires id in m.timers && Closed(m.timers, m.order)
    requires (m.timers[id].ms == ms && !fromNow) || m.timers[id].cb.None?
    ensures Reset(m, id, ms, fromNow, now) == (m, true, false)
  {
  }

  lemma ResetIsRestart(m: Manager, id: int, ms: int, fromNow: bool, now: int)
    requires Ordered(m.timers, m.order) && id in m.order && id in m.timers
    requires (m.timers[id].ms != ms || fromNow) && m.timers[id].cb.Some?
    ensures var t := m.timers[id];
            var (m', woken) := Restart(m, id, ms, StartOf(t, fromNow, now));
            Reset(m, id, ms, fromNow, now) == (m', true, woken)
  {
    FindIffThere(m.timers, m.order, id);
  }

  lemma RestartMeans(m: Manager, id: int, ms: int, start: int)
    requires Sound(m) && id in m.order && id in m.timers
    ensures var (m', woken) := Restart(m, id, ms, start);
            Restarted(m, m', id, ms, start, woken)
  {
    var t := m.timers[id].(ms := ms, next := start + ms);
    MovedMeans(m, id, t);
    EnterMeans(Moved(m, id, t), id);
  }

  // ---------------------------------------------------------------- sleeping

  /** The flag goes down; with an empty set there is nothing to wait for, which is told as the largest number of 64 bits,
      otherwise what is left until the earliest deadline. */
  lemma NextMeans(m: Manager, now: int)
    requires Sound(m)
    ensures var (m', sleep) := GetNextTimer(m, now);
            && m' == m.(tickle := false)
            && (m.order == [] ==> sleep == 0xFFFF_FFFF_FFFF_FFFF)
            && (m.order != [] ==>
                  && 0 <= sleep
                  && (forall x :: x in m.order ==> sleep == 0 || now + sleep <= m.timers[x].next)
                  && exists x :: x in m.order && (if sleep == 0 then m.timers[x].next <= now
                                                  else now + sleep == m.timers[x].next))
  {
    if m.order != [] {
      FirstIsEarliest(m);
      assert m.order[0] in m.order;
    }
  }

  // ---------------------------------------------------------------- never again

  /** Without a callback and out of the set. */
  ghost predicate Disarmed(m: Manager, id: int) {
    id in m.timers && m.timers[id].cb.None? && id !in m.order
  }

  /** The timers an expiry hands out: the first of the set, one for each callback. */
  ghost function HandedOut(m: Manager, now: int): seq<int>
    requires Closed(m.timers, m.order)
  {
    var k := |ListExpired(m, now).1|;
    if k <= |m.order| then m.order[..k] else []
  }

  lemma HandedOutMeans(m: Manager, now: int)
    requires Sound(m)
    ensures ListExpired(m, now).1 == Callbacks(m.timers, HandedOut(m, now))
    ensures forall x :: x in HandedOut(m, now) ==> x in m.order
  {
    var k := ExpiryCut(m, now);
  }

  /** A timer handed out for good is disarmed. */
  lemma FiredIsDisarmed(m: Manager, now: int, id: int)
    requires Sound(m) && id in HandedOut(m, now) && id in m.timers && !m.timers[id].recurring
    ensures Disarmed(ListExpired(m, now).0, id)
  {
    var k := ExpiryCut(m, now);
    SliceOrdered(m.timers, m.order, k);
  }

  lemma DisarmedStays(w: World, step: Step, id: int)
    requires SetInv(w) && Can(w, step) && Disarmed(w.m, id)
    ensures Disarmed(Do(w, step).m, id)
  {
    match step
    case Advance(_) =>
    case Next =>
    case Add(x, ms, cb, recurring, now) => AddMeans(w.m, x, ms, cb, recurring, now);
    case CancelOne(x) => var k := CancelMeans(w.m, x);
    case RefreshOne(x) => RefreshMeans(w.m, x, w.clock);
    case ResetOne(x, ms, fromNow) => ResetMeans(w.m, x, ms, fromNow, w.clock);
    case Expire(now) => ExpiryKeepsDisarmed(w.m, now, id);
  }

  lemma ExpiryKeepsDisarmed(m: Manager, now: int, id: int)
    requires Sound(m) && Disarmed(m, id)
    ensures Disarmed(ListExpired(m, now).0, id)
  {
    var k := ExpiryCut(m, now);
    SliceOrdered(m.timers, m.order, k);
  }

  lemma {:induction false} DisarmedForEver(run: seq<World>, calm: bool, armed: bool, i: nat, j: nat, id: int)
    requires Run(run, calm, armed) && i <= j < |run| && Disarmed(run[i].m, id)
    ensures Disarmed(run[j].m, id)
    decreases j
  {
    if i < j {
      DisarmedForEver(run, calm, armed, i, j - 1, id);
      RunKeepsInv(run, calm, armed, j - 1);
      assert MovesAt(run, calm, armed, j);
      var step :| Follows(run[j - 1], step, run[j], calm, armed);
      DisarmedStays(run[j - 1], step, id);
    }
  }

  /** In every run, once a timer has been cancelled no later expiry, at whatever reading, hands it out. */
  lemma CancelledNeverFires(run: seq<World>, calm: bool, armed: bool, i: nat, j: nat, id: int, now: int)
    requires Run(run, calm, armed) && i < j < |run| && id in run[i].m.timers && run[i].m.timers[id].cb.Some?
    requires Follows(run[i], CancelOne(id), run[i + 1], calm, armed)
    ensures Closed(run[j].m.timers, run[j].m.order) && id !in HandedOut(run[j].m, now)
    ensures ListExpired(run[j].m, now).1 == Callbacks(run[j].m.timers, HandedOut(run[j].m, now))
  {
    RunKeepsInv(run, calm, armed, i);
    RunKeepsInv(run, calm, armed, j);
    var k := CancelMeans(run[i].m, id);
    DisarmedForEver(run, calm, armed, i + 1, j, id);
    HandedOutMeans(run[j].m, now);
  }

  /** And one that is not recurring is handed out once. */
  lemma FiresOnce(run: seq<World>, calm: bool, armed: bool, i: nat, j: nat, id: int, at: int, now: int)
    requires Run(run, calm, armed) && i < j < |run| && Follows(run[i], Expire(at), run[i + 1], calm, armed)
    requires id in run[i].m.timers && !run[i].m.timers[id].recurring && id in HandedOut(run[i].m, at)
    ensures Closed(run[j].m.timers, run[j].m.order) && id !in HandedOut(run[j].m, now)
  {
    RunKeepsInv(run, calm, armed, i);
    RunKeepsInv(run, calm, armed, j);
    FiredIsDisarmed(run[i].m, at, id);
    DisarmedForEver(run, calm, armed, i + 1, j, id);
    HandedOutMeans(run[j].m, now);
  }
}
