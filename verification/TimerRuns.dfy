/** What the timer manager keeps over every interleaving of its operations with a clock that does not go
    back. */
module TimerRuns {
  import opened Options
  import opened Orders
  import opened TimerSteps

  // ---------------------------------------------------------------- the ordered set

  /** The comparator is a strict order, null pointers included. */
  lemma CompareIsOrder()
    ensures StrictOrder(Compare)
  {
    assert forall a :: Irreflexive(Compare, a);
    assert forall a, b, c :: Transitive(Compare, a, b, c);
    assert forall a, b :: Total(Compare, a, b);
  }

  lemma {:induction false} LowerBoundSplits(timers: map<int, Timer>, order: seq<int>, key: Key)
    requires Ordered(timers, order)
    ensures var k := LowerBound(timers, order, key);
            && (forall i :: 0 <= i < k ==> Before(KeyOf(timers, order[i]), key))
            && (forall i :: k <= i < |order| ==> !Before(KeyOf(timers, order[i]), key))
    decreases |order|
  {
    if order != [] {
      if Before(KeyOf(timers, order[0]), key) {
        LowerBoundSplits(timers, order[1..], key);
      }
    }
  }

  /** `find` finds what is there, since no key changes while its timer is in the set. */
  lemma FindIffThere(timers: map<int, Timer>, order: seq<int>, id: int)
    requires Ordered(timers, order) && id in timers
    ensures var k := Find(timers, order, id);
            (k < |order| <==> id in order) && (k < |order| ==> order[k] == id)
  {
    LowerBoundSplits(timers, order, KeyOf(timers, id));
    if id in order {
      var i :| 0 <= i < |order| && order[i] == id;
    }
  }

  ghost predicate SamePlus(big: seq<int>, small: seq<int>, id: int) {
    && id !in small && |big| == |small| + 1
    && forall x :: x in big <==> x in small || x == id
  }

  lemma InsertOrdered(timers: map<int, Timer>, order: seq<int>, id: int)
    requires Ordered(timers, order) && id in timers && id !in order
    ensures Ordered(timers, Insert(timers, order, id))
  {
    var key := KeyOf(timers, id);
    var k := LowerBound(timers, order, key);
    var s := Insert(timers, order, id);
    LowerBoundSplits(timers, order, key);
    forall i, j | 0 <= i < j < |s|
      ensures Before(KeyOf(timers, s[i]), KeyOf(timers, s[j]))
    {
      if i == k {
        assert s[j] == order[j - 1] && order[j - 1] in order;
      } else if j == k {
        assert s[i] == order[i];
      } else {
        var i', j' := if i < k then i else i - 1, if j < k then j else j - 1;
        assert s[i] == order[i'] && s[j] == order[j'];
      }
    }
  }

  lemma InsertAdds(timers: map<int, Timer>, order: seq<int>, id: int)
    requires id in timers && id !in order && Closed(timers, order)
    ensures SamePlus(Insert(timers, order, id), order, id)
  {
    var k := LowerBound(timers, order, KeyOf(timers, id));
    assert order == order[..k] + order[k..];
  }

  lemma EraseOrdered(timers: map<int, Timer>, order: seq<int>, k: nat)
    requires Ordered(timers, order) && k < |order|
    ensures Ordered(timers, Erase(order, k)) && SamePlus(order, Erase(order, k), order[k])
  {
    var rest := Erase(order, k);
    forall i | 0 <= i < |rest|
      ensures rest[i] == order[if i < k then i else i + 1] && rest[i] != order[k]
    {
    }
    assert order == order[..k] + [order[k]] + order[k + 1..];
  }

  /** Timers outside the set may change their keys. */
  lemma ChangeOutside(timers: map<int, Timer>, order: seq<int>, id: int, t: Timer)
    requires Ordered(timers, order) && id !in order
    ensures Ordered(timers[id := t], order)
  {
    forall i | 0 <= i < |order|
      ensures order[i] in timers && timers[id := t][order[i]] == timers[order[i]]
    {
      assert order[i] in order;
    }
  }

  lemma SliceOrdered(timers: map<int, Timer>, order: seq<int>, k: nat)
    requires Ordered(timers, order) && k <= |order|
    ensures Ordered(timers, order[..k]) && Ordered(timers, order[k..])
    ensures forall x :: x in order[..k] ==> x !in order[k..]
    ensures forall x :: x in order <==> x in order[..k] || x in order[k..]
  {
    assert order == order[..k] + order[k..];
    forall i, j | 0 <= i < k <= j < |order|
      ensures order[i] != order[j]
    {
      assert Before(KeyOf(timers, order[i]), KeyOf(timers, order[j]));
    }
  }

  // ---------------------------------------------------------------- expiry

  /** What expiry makes of a timer that is due. */
  function Fired(t: Timer, now: int): Timer {
    if t.recurring then t.(next := now + t.ms) else t.(cb := None)
  }

  ghost predicate ReaddedTo(m: Manager, expired: seq<int>, now: int, r: Manager) {
    && r.tickle == m.tickle && r.previousTime == m.previousTime && r.timers.Keys == m.timers.Keys
    && (forall id :: id in m.timers ==>
          r.timers[id] == if id in expired then Fired(m.timers[id], now) else m.timers[id])
    && (forall id :: id in r.order <==> id in m.order || (id in expired && id in m.timers && m.timers[id].recurring))
  }

  lemma FireOneMeaning(m: Manager, id: int, now: int)
    requires Ordered(m.timers, m.order) && id in m.timers && id !in m.order
    ensures var r := FireOne(m, id, now);
            && Ordered(r.timers, r.order)
            && r == m.(timers := m.timers[id := Fired(m.timers[id], now)], order := r.order)
            && (forall x :: x in r.order <==> x in m.order || (x == id && m.timers[id].recurring))
  {
    var timers := m.timers[id := Fired(m.timers[id], now)];
    ChangeOutside(m.timers, m.order, id, Fired(m.timers[id], now));
    InsertOrdered(timers, m.order, id);
    InsertAdds(timers, m.order, id);
  }

  lemma {:induction false} ReaddMeaning(m: Manager, expired: seq<int>, now: int)
    requires Ordered(m.timers, m.order)
    requires forall i :: 0 <= i < |expired| ==> expired[i] in m.timers && expired[i] !in m.order
    requires forall i, j :: 0 <= i < j < |expired| ==> expired[i] != expired[j]
    ensures var r := Readd(m, expired, now);
            Ordered(r.timers, r.order) && ReaddedTo(m, expired, now, r)
    decreases |expired|
  {
    if expired != [] {
      var n := |expired| - 1;
      var rest, id := expired[..n], expired[n];
      ReaddMeaning(m, rest, now);
      assert expired == rest + [id] && id !in rest;
      FireOneMeaning(Readd(m, rest, now), id, now);
    }
  }

  lemma ReaddStep(m: Manager, ids: seq<int>, i: nat, now: int)
    requires Closed(m.timers, m.order) && Closed(m.timers, ids) && i < |ids|
    ensures Closed(m.timers, ids[..i]) && Closed(m.timers, ids[..i + 1])
    ensures Readd(m, ids[..i + 1], now) == FireOne(Readd(m, ids[..i], now), ids[i], now)
  {
    assert ids[..i + 1][..i] == ids[..i];
  }

  lemma {:induction false} ReaddUntouched(m: Manager, expired: seq<int>, now: int, id: int)
    requires Closed(m.timers, m.order) && Closed(m.timers, expired) && id in m.timers && id !in expired
    ensures Readd(m, expired, now).timers[id] == m.timers[id]
    decreases |expired|
  {
    if expired != [] {
      ReaddUntouched(m, expired[..|expired| - 1], now, id);
    }
  }

  lemma {:induction false} DueSplits(timers: map<int, Timer>, order: seq<int>, now: int)
    requires Ordered(timers, order)
    ensures var k := Due(timers, order, now);
            && (forall i :: 0 <= i < k ==> timers[order[i]].next <= now)
            && (forall i :: k <= i < |order| ==> timers[order[i]].next > now)
    decreases |order|
  {
    if order != [] {
      if timers[order[0]].next <= now {
        DueSplits(timers, order[1..], now);
      }
    }
  }

  lemma {:induction false} DueIs(timers: map<int, Timer>, order: seq<int>, now: int, k: nat)
    requires Closed(timers, order) && k <= |order|
    requires forall i :: 0 <= i < k ==> timers[order[i]].next <= now
    requires k < |order| ==> timers[order[k]].next > now
    ensures Due(timers, order, now) == k
    decreases k
  {
    if k > 0 {
      DueIs(timers, order[1..], now, k - 1);
    }
  }

  /** The timers that are due, and the rest. */
  ghost predicate DueAre(m: Manager, due: seq<int>, rest: seq<int>, now: int) {
    && (forall id :: id in due ==> id in m.timers && m.timers[id].next <= now)
    && (forall id :: id in rest ==> id in m.timers && m.timers[id].next > now)
  }

  ghost predicate Parts(order: seq<int>, due: seq<int>, rest: seq<int>) {
    && (forall id :: id in order <==> id in due || id in rest)
    && (forall id :: id in due ==> id !in rest)
  }

  /** listExpiredCb: the first k timers leave the set, in order, and their callbacks are handed out; the
      recurring ones are back at now + period and the others have no callback any more; no other timer is
      touched.  Without rollover these are exactly the timers that are due.  The reading is kept for the next check,
      unless the set was empty. */
  lemma ExpiryCut(m: Manager, now: int) returns (k: nat)
    requires Ordered(m.timers, m.order)
    ensures k <= |m.order| && Parts(m.order, m.order[..k], m.order[k..])
    ensures if Rollover(now, m.previousTime) then k == |m.order| else DueAre(m, m.order[..k], m.order[k..], now)
    ensures var (r, cbs) := ListExpired(m, now);
            && cbs == Callbacks(m.timers, m.order[..k])
            && Ordered(r.timers, r.order)
            && ReaddedTo(m.(order := m.order[k..], previousTime := r.previousTime), m.order[..k], now, r)
            && r.previousTime == if m.order == [] then m.previousTime else now
  {
    k := CutAt(m, now);
    DueSplits(m.timers, m.order, now);
    SliceOrdered(m.timers, m.order, k);
    var (r, cbs) := ListExpired(m, now);
    ListExpiredAtCut(m, now);
    ReadingIsKept(m, now);
    ReaddMeaning(m.(order := m.order[k..], previousTime := r.previousTime), m.order[..k], now);
  }

  function CutAt(m: Manager, now: int): (k: nat)
    requires Closed(m.timers, m.order)
    ensures k <= |m.order|
  {
    if Rollover(now, m.previousTime) then |m.order| else Due(m.timers, m.order, now)
  }

  lemma ListExpiredFires(m: Manager, now: int)
    requires Closed(m.timers, m.order) && m.order != []
    requires Rollover(now, m.previousTime) || m.timers[m.order[0]].next <= now
    ensures var k := CutAt(m, now);
            ListExpired(m, now) == (Readd(m.(order := m.order[k..], previousTime := now), m.order[..k], now),
                                    Callbacks(m.timers, m.order[..k]))
  {
  }

  /** The early returns of listExpiredCb are cuts at 0. */
  lemma ListExpiredAtCut(m: Manager, now: int)
    requires Closed(m.timers, m.order)
    ensures var k := CutAt(m, now);
            var (r, cbs) := ListExpired(m, now);
            && cbs == Callbacks(m.timers, m.order[..k])
            && r == Readd(m.(order := m.order[k..], previousTime := r.previousTime), m.order[..k], now)
  {
    if m.order == [] || (!Rollover(now, m.previousTime) && m.timers[m.order[0]].next > now) {
      assert m.order[0..] == m.order && m.order[..0] == [];
    } else {
      ReaddKeepsTime(m.(order := m.order[CutAt(m, now)..], previousTime := now), m.order[..CutAt(m, now)], now);
    }
  }

  lemma ReadingIsKept(m: Manager, now: int)
    requires Closed(m.timers, m.order)
    ensures ListExpired(m, now).0.previousTime == if m.order == [] then m.previousTime else now
  {
    if m.order != [] && (Rollover(now, m.previousTime) || m.timers[m.order[0]].next <= now) {
      ReaddKeepsTime(m.(order := m.order[CutAt(m, now)..], previousTime := now), m.order[..CutAt(m, now)], now);
    }
  }

  lemma {:induction false} ReaddKeepsTime(m: Manager, expired: seq<int>, now: int)
    requires Closed(m.timers, m.order) && Closed(m.timers, expired)
    ensures Readd(m, expired, now).previousTime == m.previousTime
    decreases |expired|
  {
    if expired != [] {
      ReaddKeepsTime(m, expired[..|expired| - 1], now);
    }
  }

  /** The cut is exact if and only if no rollover is seen, or all timers are due anyway. */
  lemma ExpiryExactIff(m: Manager, now: int)
    requires Ordered(m.timers, m.order)
    ensures var (r, cbs) := ListExpired(m, now);
            (forall i :: 0 <= i < |m.order| ==> (i < |cbs| <==> m.timers[m.order[i]].next <= now)) <==>
            !Rollover(now, m.previousTime) || forall i :: 0 <= i < |m.order| ==> m.timers[m.order[i]].next <= now
  {
    DueSplits(m.timers, m.order, now);
  }

  // ---------------------------------------------------------------- the machine

  /** `reported` is the earliest deadline the last getNextTimer saw, absent when there was no timer. */
  datatype World = World(m: Manager, clock: int, reported: Option<int>)

  /** `now` is a reading of the clock taken before the lock, so it may be behind; where there is none, the
      clock is read under the lock. */
  datatype Step =
    | Advance(to: int)
    | Add(id: int, ms: int, cb: Option<string>, recurring: bool, now: int)
    | CancelOne(id: int)
    | RefreshOne(id: int)
    | ResetOne(id: int, ms: int, fromNow: bool)
    | Next
    | Expire(now: int)

  ghost predicate Can(w: World, step: Step) {
    Closed(w.m.timers, w.m.order) &&
    match step
    case Advance(to) => w.clock <= to
    case Add(id, ms, _, _, now) => id !in w.m.timers && 0 <= ms && 0 <= now <= w.clock
    case CancelOne(id) => id in w.m.timers
    case RefreshOne(id) => id in w.m.timers
    case ResetOne(id, ms, _) => id in w.m.timers && 0 <= ms
    case Next => true
    case Expire(now) => 0 <= now <= w.clock
  }

  /** The reading is not so old that it looks like a clock set back. */
  ghost predicate Calm(w: World, step: Step) {
    step.Expire? ==> !Rollover(step.now, w.m.previousTime)
  }

  ghost function Earliest(m: Manager): Option<int>
    requires Closed(m.timers, m.order)
  {
    if m.order == [] then None else Some(m.timers[m.order[0]].next)
  }

  ghost function Do(w: World, step: Step): World
    requires Can(w, step)
  {
    match step
    case Advance(to) => w.(clock := to)
    case Add(id, ms, cb, recurring, now) => w.(m := AddTimer(w.m, id, ms, cb, recurring, now).0)
    case CancelOne(id) => w.(m := Cancel(w.m, id).0)
    case RefreshOne(id) => w.(m := Refresh(w.m, id, w.clock).0)
    case ResetOne(id, ms, fromNow) => w.(m := Reset(w.m, id, ms, fromNow, w.clock).0)
    case Next => w.(m := GetNextTimer(w.m, w.clock).0, reported := Earliest(w.m))
    case Expire(now) => w.(m := ListExpired(w.m, now).0)
  }

  // ---------------------------------------------------------------- the invariant

  /** Every timer was started at or before the present, and not before the beginning of time. */
  ghost predicate Started(w: World) {
    forall id :: id in w.m.timers ==>
      && 0 <= w.m.timers[id].ms
      && 0 <= w.m.timers[id].next - w.m.timers[id].ms <= w.clock
  }

  /** A timer with a callback is in the set. */
  ghost predicate Kept(m: Manager) {
    forall id :: id in m.timers && m.timers[id].cb.Some? ==> id in m.order
  }

  /** Without a wake-up under way, nothing is due before the deadline that was reported. */
  ghost predicate Awake(w: World) {
    !w.m.tickle ==>
      forall id :: id in w.m.order && id in w.m.timers ==>
        w.reported.Some? && w.reported.value <= w.m.timers[id].next
  }

  ghost predicate SetInv(w: World) {
    Ordered(w.m.timers, w.m.order) && Started(w) && Kept(w.m)
  }

  lemma FirstIsEarliest(m: Manager)
    requires Ordered(m.timers, m.order) && m.order != []
    ensures forall id :: id in m.order ==> m.timers[m.order[0]].next <= m.timers[id].next
  {
    forall id | id in m.order
      ensures m.timers[m.order[0]].next <= m.timers[id].next
    {
      var i :| 0 <= i < |m.order| && m.order[i] == id;
      assert i > 0 ==> Before(KeyOf(m.timers, m.order[0]), KeyOf(m.timers, m.order[i]));
    }
  }

  /** Entering the set keeps all of it, whatever the deadline: a timer that comes to stand first asks for a
      wake-up. */
  lemma EnterKeeps(w: World, id: int)
    requires id in w.m.timers && id !in w.m.order
    requires Ordered(w.m.timers, w.m.order)
    ensures var m' := Enter(w.m, id).0;
            && Ordered(m'.timers, m'.order) && SamePlus(m'.order, w.m.order, id)
            && m'.timers == w.m.timers && (Awake(w) ==> Awake(w.(m := m')))
  {
    InsertOrdered(w.m.timers, w.m.order, id);
    InsertAdds(w.m.timers, w.m.order, id);
    var m' := Enter(w.m, id).0;
    FirstIsEarliest(m');
    if !m'.tickle {
      assert m'.order[0] in m'.order && m'.order[0] in w.m.order;
    }
  }

  /** Leaving the set. */
  lemma LeaveKeeps(w: World, id: int)
    requires SetInv(w) && id in w.m.order && id in w.m.timers
    ensures var order := Erase(w.m.order, Find(w.m.timers, w.m.order, id));
            && Ordered(w.m.timers, order) && SamePlus(w.m.order, order, id)
            && (Awake(w) ==> Awake(w.(m := w.m.(order := order))))
  {
    FindIffThere(w.m.timers, w.m.order, id);
    EraseOrdered(w.m.timers, w.m.order, Find(w.m.timers, w.m.order, id));
  }

  lemma AddKeepsInv(w: World, step: Step)
    requires SetInv(w) && step.Add? && Can(w, step)
    ensures SetInv(Do(w, step)) && (Awake(w) ==> Awake(Do(w, step)))
  {
    var id, t := step.id, Timer(step.ms, step.now + step.ms, step.recurring, step.cb);
    var w' := w.(m := w.m.(timers := w.m.timers[id := t]));
    EnteredKeeps(w, w', id, t);
    AddIsEnter(w, w', step);
  }

  lemma AddIsEnter(w: World, w': World, step: Step)
    requires step.Add? && Can(w, step)
    requires w' == w.(m := w.m.(timers := w.m.timers[step.id :=
                        Timer(step.ms, step.now + step.ms, step.recurring, step.cb)]))
    ensures Do(w, step) == w.(m := Enter(w'.m, step.id).0)
  {
  }

  lemma EnteredKeeps(w: World, w': World, id: int, t: Timer)
    requires SetInv(w) && id !in w.m.order && 0 <= t.ms && 0 <= t.next - t.ms <= w.clock
    requires w' == w.(m := w.m.(timers := w.m.timers[id := t]))
    ensures var m' := Enter(w'.m, id).0;
            SetInv(w.(m := m')) && (Awake(w) ==> Awake(w.(m := m')))
  {
    ChangeOutside(w.m.timers, w.m.order, id, t);
    AwakeOutside(w, id, t);
    EnterKeeps(w', id);
    AddedKeeps(w, id, t, Enter(w'.m, id).0);
  }

  /** A timer outside the set wakes nobody. */
  lemma AwakeOutside(w: World, id: int, t: Timer)
    requires id !in w.m.order
    ensures Awake(w) ==> Awake(w.(m := w.m.(timers := w.m.timers[id := t])))
  {
  }

  lemma AddedKeeps(w: World, id: int, t: Timer, m': Manager)
    requires SetInv(w) && 0 <= t.ms && 0 <= t.next - t.ms <= w.clock
    requires m'.timers == w.m.timers[id := t] && SamePlus(m'.order, w.m.order, id)
    requires Ordered(m'.timers, m'.order)
    ensures SetInv(w.(m := m'))
  {
  }

  lemma CancelKeepsInv(w: World, id: int)
    requires SetInv(w) && Can(w, CancelOne(id))
    ensures SetInv(Do(w, CancelOne(id))) && (Awake(w) ==> Awake(Do(w, CancelOne(id))))
  {
    var t := w.m.timers[id];
    if t.cb.Some? {
      LeaveKeeps(w, id);
      var order := Erase(w.m.order, Find(w.m.timers, w.m.order, id));
      ChangeOutside(w.m.timers, order, id, t.(cb := None));
    }
  }

  /** Out of the set, changed, and in again: `erase`, the new key, `insert`. */
  lemma ReenterOrdered(timers: map<int, Timer>, order: seq<int>, id: int, t: Timer)
    requires Ordered(timers, order) && id in order && id in timers
    ensures var rest := Erase(order, Find(timers, order, id));
            var timers' := timers[id := t];
            && Ordered(timers', rest) && SamePlus(order, rest, id)
            && Ordered(timers', Insert(timers', rest, id)) && SamePlus(Insert(timers', rest, id), rest, id)
  {
    FindIffThere(timers, order, id);
    EraseOrdered(timers, order, Find(timers, order, id));
    var rest := Erase(order, Find(timers, order, id));
    ChangeOutside(timers, rest, id, t);
    InsertOrdered(timers[id := t], rest, id);
    InsertAdds(timers[id := t], rest, id);
  }

  /** A timer that re-enters keeps the invariant when it was started by now, and when its deadline is no
      earlier than before or it asks for a wake-up as it enters. */
  lemma ReenterKeepsInv(w: World, id: int, t: Timer, m': Manager)
    requires SetInv(w) && id in w.m.order && id in w.m.timers && w.m.timers[id].cb.Some?
    requires 0 <= t.ms && 0 <= t.next - t.ms <= w.clock
    requires m'.timers == w.m.timers[id := t] && Ordered(m'.timers, m'.order)
    requires forall x :: x in m'.order <==> x in w.m.order
    requires m'.tickle || (!w.m.tickle && (w.m.timers[id].next <= t.next || (m'.order != [] && m'.order[0] != id)))
    ensures SetInv(w.(m := m')) && (Awake(w) ==> Awake(w.(m := m')))
  {
    if !m'.tickle && t.next < w.m.timers[id].next {
      FirstIsEarliest(m');
      assert m'.order[0] in m'.order && m'.order[0] in w.m.order;
    }
  }

  /** The manager after `refresh` and `reset` of a timer in the set. */
  function Reentered(m: Manager, id: int, t: Timer, wake: bool): Manager
    requires id in m.timers && Closed(m.timers, m.order)
  {
    var timers, rest := m.timers[id := t], Erase(m.order, Find(m.timers, m.order, id));
    var order := Insert(timers, rest, id);
    m.(timers := timers, order := order, tickle := m.tickle || (wake && order[0] == id))
  }

  lemma ReenteredKeepsInv(w: World, id: int, t: Timer, wake: bool)
    requires SetInv(w) && id in w.m.order && id in w.m.timers && w.m.timers[id].cb.Some?
    requires 0 <= t.ms && 0 <= t.next - t.ms <= w.clock
    requires wake || w.m.timers[id].next <= t.next
    ensures var w' := w.(m := Reentered(w.m, id, t, wake)); SetInv(w') && (Awake(w) ==> Awake(w'))
  {
    ReenterOrdered(w.m.timers, w.m.order, id, t);
    var m' := Reentered(w.m, id, t, wake);
    assert forall x :: x in m'.order <==> x in w.m.order;
    ReenterKeepsInv(w, id, t, m');
  }

  /** What `refresh` makes of a timer. */
  function Refreshed(t: Timer, now: int): Timer {
    t.(next := now + t.ms)
  }

  lemma RefreshIsReentry(m: Manager, id: int, now: int)
    requires id in m.timers && Closed(m.timers, m.order) && m.timers[id].cb.Some?
    requires Find(m.timers, m.order, id) < |m.order|
    ensures Refresh(m, id, now).0 == Reentered(m, id, Refreshed(m.timers[id], now), false)
  {
  }

  /** What `reset` makes of a timer. */
  function Restarted(t: Timer, ms: int, fromNow: bool, now: int): Timer {
    t.(ms := ms, next := (if fromNow then now else t.next - t.ms) + ms)
  }

  lemma ResetIsReentry(m: Manager, id: int, ms: int, fromNow: bool, now: int)
    requires id in m.timers && Closed(m.timers, m.order) && m.timers[id].cb.Some?
    requires Find(m.timers, m.order, id) < |m.order| && !(m.timers[id].ms == ms && !fromNow)
    ensures Reset(m, id, ms, fromNow, now).0 == Reentered(m, id, Restarted(m.timers[id], ms, fromNow, now), true)
  {
  }

  lemma RefreshKeepsInv(w: World, id: int)
    requires SetInv(w) && Can(w, RefreshOne(id))
    ensures SetInv(Do(w, RefreshOne(id))) && (Awake(w) ==> Awake(Do(w, RefreshOne(id))))
  {
    var t := w.m.timers[id];
    FindIffThere(w.m.timers, w.m.order, id);
    if t.cb.Some? {
      assert 0 <= t.ms && 0 <= t.next - t.ms <= w.clock;
      RefreshIsReentry(w.m, id, w.clock);
      ReenteredKeepsInv(w, id, Refreshed(t, w.clock), false);
    }
  }

  lemma ResetKeepsInv(w: World, step: Step)
    requires SetInv(w) && step.ResetOne? && Can(w, step)
    ensures SetInv(Do(w, step)) && (Awake(w) ==> Awake(Do(w, step)))
  {
    var id, t := step.id, w.m.timers[step.id];
    FindIffThere(w.m.timers, w.m.order, id);
    if !(t.ms == step.ms && !step.fromNow) && t.cb.Some? {
      ResetIsReentry(w.m, id, step.ms, step.fromNow, w.clock);
      ReenteredKeepsInv(w, id, Restarted(t, step.ms, step.fromNow, w.clock), true);
    }
  }

  lemma ExpireKeepsInv(w: World, now: int)
    requires SetInv(w) && Can(w, Expire(now))
    ensures SetInv(Do(w, Expire(now)))
    ensures Awake(w) && Calm(w, Expire(now)) ==> Awake(Do(w, Expire(now)))
  {
    var k := ExpiryCut(w.m, now);
    var due, rest, r := w.m.order[..k], w.m.order[k..], ListExpired(w.m, now).0;
    ExpiredKeepsSet(w, now, due, rest, r);
    if Awake(w) && Calm(w, Expire(now)) {
      ExpiredKeepsAwake(w, now, due, rest, r);
    }
  }

  lemma ExpiredKeepsSet(w: World, now: int, due: seq<int>, rest: seq<int>, r: Manager)
    requires SetInv(w) && 0 <= now <= w.clock && Parts(w.m.order, due, rest)
    requires ReaddedTo(w.m.(order := rest, previousTime := r.previousTime), due, now, r)
    requires Ordered(r.timers, r.order)
    ensures SetInv(w.(m := r))
  {
  }

  /** Nothing is put back in front of where it was. */
  lemma ExpiredKeepsAwake(w: World, now: int, due: seq<int>, rest: seq<int>, r: Manager)
    requires SetInv(w) && Awake(w) && Parts(w.m.order, due, rest) && DueAre(w.m, due, rest, now)
    requires ReaddedTo(w.m.(order := rest, previousTime := r.previousTime), due, now, r)
    ensures Awake(w.(m := r))
  {
  }

  /** Every step keeps the set as it should be, and lets nobody oversleep unless it sees a rollover. */
  lemma StepKeepsInv(w: World, step: Step)
    requires SetInv(w) && Can(w, step)
    ensures SetInv(Do(w, step))
    ensures Awake(w) && Calm(w, step) ==> Awake(Do(w, step))
  {
    match step
    case Advance(to) =>
    case Add(_, _, _, _, _) => AddKeepsInv(w, step);
    case CancelOne(id) => CancelKeepsInv(w, id);
    case RefreshOne(id) => RefreshKeepsInv(w, id);
    case ResetOne(_, _, _) => ResetKeepsInv(w, step);
    case Next =>
      if w.m.order != [] {
        FirstIsEarliest(w.m);
      }
    case Expire(now) => ExpireKeepsInv(w, now);
  }

  // ---------------------------------------------------------------- runs

  ghost predicate Begins(w: World) {
    w.m == Manager(map[], [], false, w.clock) && w.reported.None? && 0 <= w.clock
  }

  /** A run, in which no rollover is seen if it is to be calm, and no timer is added without a callback if it is
      to be armed. */
  ghost predicate Run(run: seq<World>, calm: bool, armed: bool) {
    && run != [] && Begins(run[0])
    && forall i :: 0 < i < |run| ==> MovesAt(run, calm, armed, i)
  }

  ghost predicate MovesAt(run: seq<World>, calm: bool, armed: bool, i: int)
    requires 0 < i < |run|
  {
    Moves(run[i - 1], run[i], calm, armed)
  }

  ghost predicate Moves(w: World, w': World, calm: bool, armed: bool) {
    exists step :: Follows(w, step, w', calm, armed)
  }

  ghost predicate Follows(w: World, step: Step, w': World, calm: bool, armed: bool) {
    && Can(w, step) && (calm ==> Calm(w, step)) && (armed ==> !(step.Add? && step.cb.None?))
    && w' == Do(w, step)
  }

  lemma {:induction false} RunKeepsInv(run: seq<World>, calm: bool, armed: bool, k: nat)
    requires Run(run, calm, armed) && k < |run|
    ensures SetInv(run[k]) && (calm ==> Awake(run[k])) && (armed ==> Armed(run[k].m))
    decreases k
  {
    if k > 0 {
      RunKeepsInv(run, calm, armed, k - 1);
      assert MovesAt(run, calm, armed, k);
      var step :| Follows(run[k - 1], step, run[k], calm, armed);
      StepKeepsInv(run[k - 1], step);
      if armed {
        ArmedAfter(run[k - 1], step);
      }
    }
  }

  lemma AwakeMeans(w: World)
    requires SetInv(w) && Awake(w) && !w.m.tickle && w.m.order != []
    ensures w.reported.Some? && w.reported.value <= Earliest(w.m).value
  {
    assert w.m.order[0] in w.m.order;
  }

  /** In every calm run, while no wake-up has been asked for since the last getNextTimer, the earliest deadline
      is not earlier than the one reported then. */
  lemma NoOversleep(run: seq<World>, k: nat)
    requires Run(run, true, false) && k < |run|
    ensures var w := run[k];
            && Closed(w.m.timers, w.m.order)
            && (!w.m.tickle && w.m.order != [] ==>
                  w.reported.Some? && w.reported.value <= w.m.timers[w.m.order[0]].next)
  {
    RunKeepsInv(run, true, false, k);
    if !run[k].m.tickle && run[k].m.order != [] {
      AwakeMeans(run[k]);
    }
  }

  /** What getNextTimer tells its caller to sleep ends at the earliest deadline, or at once if that has
      passed. */
  lemma SleepEndsAtDeadline(m: Manager, now: int)
    requires Ordered(m.timers, m.order) && m.order != []
    ensures var (m', r) := GetNextTimer(m, now);
            && (forall id :: id in m.order ==> now + r <= m.timers[id].next || r == 0)
            && (r > 0 ==> exists id :: id in m.order && m.timers[id].next == now + r)
            && (r == 0 <==> exists id :: id in m.order && m.timers[id].next <= now)
            && r >= 0 && m'.order == m.order
  {
    FirstIsEarliest(m);
    assert m.order[0] in m.order;
  }

  /** `cancel` erases an element that is in the set, and that element is the timer. */
  lemma CancelFinds(run: seq<World>, k: nat, id: int)
    requires Run(run, false, false) && k < |run|
    ensures var m := run[k].m;
            && Closed(m.timers, m.order)
            && (id in m.timers && m.timers[id].cb.Some? ==>
                  Find(m.timers, m.order, id) < |m.order| && m.order[Find(m.timers, m.order, id)] == id)
  {
    RunKeepsInv(run, false, false, k);
    if id in run[k].m.timers {
      FindIffThere(run[k].m.timers, run[k].m.order, id);
    }
  }

  /** Every timer of the set has a callback. */
  ghost predicate Armed(m: Manager) {
    forall id :: id in m.order && id in m.timers ==> m.timers[id].cb.Some?
  }

  lemma ArmedAfterExpire(w: World, now: int)
    requires SetInv(w) && Can(w, Expire(now)) && Armed(w.m)
    ensures Armed(Do(w, Expire(now)).m)
  {
    var k := ExpiryCut(w.m, now);
    ArmedExpired(w.m, now, w.m.order[..k], w.m.order[k..], ListExpired(w.m, now).0);
  }

  lemma ArmedExpired(m: Manager, now: int, expired: seq<int>, rest: seq<int>, r: Manager)
    requires Armed(m) && Parts(m.order, expired, rest) && Closed(m.timers, m.order)
    requires ReaddedTo(m.(order := rest, previousTime := r.previousTime), expired, now, r)
    ensures Armed(r)
  {
  }

  lemma ArmedAfterReenter(w: World, id: int, t: Timer, wake: bool)
    requires SetInv(w) && id in w.m.order && id in w.m.timers && t.cb.Some? && Armed(w.m)
    ensures Armed(Reentered(w.m, id, t, wake))
  {
    ReenterOrdered(w.m.timers, w.m.order, id, t);
  }

  lemma ArmedAfterChange(w: World, step: Step)
    requires SetInv(w) && (step.RefreshOne? || step.ResetOne? || step.CancelOne?) && Can(w, step) && Armed(w.m)
    ensures Armed(Do(w, step).m)
  {
    var id, t := step.id, w.m.timers[step.id];
    FindIffThere(w.m.timers, w.m.order, id);
    if t.cb.Some? {
      match step
      case RefreshOne(_) =>
        RefreshIsReentry(w.m, id, w.clock);
        ArmedAfterReenter(w, id, Refreshed(t, w.clock), false);
      case ResetOne(_, ms, fromNow) =>
        if !(t.ms == ms && !fromNow) {
          ResetIsReentry(w.m, id, ms, fromNow, w.clock);
          ArmedAfterReenter(w, id, Restarted(t, ms, fromNow, w.clock), true);
        }
      case CancelOne(_) => LeaveKeeps(w, id);
    }
  }

  /** In every run that adds no timer without a callback, a timer has a callback if and only if it is in the
      set. */
  lemma CallbackIffInSet(run: seq<World>, k: nat, id: int)
    requires Run(run, false, true) && k < |run| && id in run[k].m.timers
    ensures run[k].m.timers[id].cb.Some? <==> id in run[k].m.order
  {
    RunKeepsInv(run, false, true, k);
  }

  lemma ArmedAfterAdd(w: World, step: Step)
    requires SetInv(w) && step.Add? && Can(w, step) && Armed(w.m)
    ensures Armed(Do(w, step).m) <==> step.cb.Some?
  {
    var id, t := step.id, Timer(step.ms, step.now + step.ms, step.recurring, step.cb);
    var timers := w.m.timers[id := t];
    ChangeOutside(w.m.timers, w.m.order, id, t);
    InsertAdds(timers, w.m.order, id);
    ArmedAdded(w.m, id, t, Do(w, step).m);
  }

  lemma ArmedAdded(m: Manager, id: int, t: Timer, m': Manager)
    requires Armed(m) && Closed(m.timers, m.order)
    requires m'.timers == m.timers[id := t] && SamePlus(m'.order, m.order, id)
    ensures Armed(m') <==> t.cb.Some?
  {
  }

  /** One step goes on so exactly when it is not such an addition. */
  lemma ArmedAfter(w: World, step: Step)
    requires SetInv(w) && Can(w, step) && Armed(w.m)
    ensures Armed(Do(w, step).m) <==> !(step.Add? && step.cb.None?)
  {
    match step
    case Advance(_) =>
    case Next =>
    case Add(_, _, _, _, _) => ArmedAfterAdd(w, step);
    case Expire(now) => ArmedAfterExpire(w, now);
    case CancelOne(_) => ArmedAfterChange(w, step);
    case RefreshOne(_) => ArmedAfterChange(w, step);
    case ResetOne(_, _, _) => ArmedAfterChange(w, step);
  }

  // ---------------------------------------------------------------- calm runs

  /** The run that takes the steps one after the other. */
  ghost predicate Takes(run: seq<World>, steps: seq<Step>) {
    && |run| == |steps| + 1 && Begins(run[0])
    && forall i :: 0 <= i < |steps| ==> Follows(run[i], steps[i], run[i + 1], false, false)
  }

  /** The readings of listExpiredCb do not go back, from the making of the manager on. */
  ghost predicate Forward(run: seq<World>, steps: seq<Step>)
    requires run != []
  {
    && (forall i :: 0 <= i < |steps| && steps[i].Expire? ==> run[0].m.previousTime <= steps[i].now)
    && (forall i, j :: 0 <= i < j < |steps| && steps[i].Expire? && steps[j].Expire? ==> steps[i].now <= steps[j].now)
  }

  lemma PreviousTimeMoves(w: World, step: Step)
    requires Can(w, step)
    ensures Do(w, step).m.previousTime == w.m.previousTime || (step.Expire? && Do(w, step).m.previousTime == step.now)
  {
    if step.Expire? {
      var k := CutAt(w.m, step.now);
      if w.m.order != [] {
        ReaddKeepsTime(w.m.(order := w.m.order[k..], previousTime := step.now), w.m.order[..k], step.now);
      }
    }
  }

  lemma {:induction false} PreviousTimeBelow(run: seq<World>, steps: seq<Step>, k: nat, now: int)
    requires Takes(run, steps) && k <= |steps| && run[0].m.previousTime <= now
    requires forall i :: 0 <= i < k && steps[i].Expire? ==> steps[i].now <= now
    ensures run[k].m.previousTime <= now
    decreases k
  {
    if k > 0 {
      PreviousTimeBelow(run, steps, k - 1, now);
      assert Follows(run[k - 1], steps[k - 1], run[k - 1 + 1], false, false);
      PreviousTimeMoves(run[k - 1], steps[k - 1]);
    }
  }

  /** Readings that do not go back make the run calm. */
  lemma ForwardIsCalm(run: seq<World>, steps: seq<Step>)
    requires Takes(run, steps) && Forward(run, steps)
    ensures Run(run, true, false)
  {
    forall i | 0 < i < |run|
      ensures MovesAt(run, true, false, i)
    {
      var step := steps[i - 1];
      assert Follows(run[i - 1], step, run[i - 1 + 1], false, false);
      if step.Expire? {
        PreviousTimeBelow(run, steps, i - 1, step.now);
      }
      assert Follows(run[i - 1], step, run[i], true, false);
    }
  }
}
