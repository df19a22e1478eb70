/** class Timer and class TimerManager of src/fiber/timer.cpp over the heap: the set holds shared timers, and
    its operations take a timer out before they change its key.  Every method does to the abstract state what
    the function of the same name in `TimerSteps` says; `TimerRuns` says what these keep.

    Locks are left out: a method is one critical section.  A reading of the clock is a parameter. */
module TimerManager {
  import opened Options
  import S = TimerSteps
  import R = TimerRuns

  class Timer {
    /** The address, by which the comparator breaks ties. */
    const id: int
    const manager: TimerManager
    var recurring: bool
    var ms: int
    var next: int
    var cb: Option<string>

    constructor (id: int, ms: int, cb: Option<string>, recurring: bool, manager: TimerManager, now: int)
      ensures this.id == id && this.manager == manager
      ensures Value() == S.Timer(ms, now + ms, recurring, cb)
    {
      this.id, this.manager := id, manager;
      this.recurring, this.ms, this.cb := recurring, ms, cb;
      next := now + ms;
    }

    function Key(): S.Key
      reads this`next
    {
      S.Key(next, id)
    }

    ghost function Value(): S.Timer
      reads this
    {
      S.Timer(ms, next, recurring, cb)
    }

    /** What is erased has to be in the set. */
    method Cancel() returns (done: bool)
      requires manager.Valid() && manager.Knows(this)
      requires cb.Some? ==> manager.Find(this) < |manager.timers|
      requires S.Ordered(manager.State().timers, manager.State().order)
      modifies this`cb, manager`timers
      ensures manager.Valid() && (manager.State(), done) == S.Cancel(old(manager.State()), id)
      ensures done == old(cb.Some?) && cb.None? && (done ==> this !in manager.timers)
    {
      ghost var m := manager.State();
      if cb.Some? {
        manager.TakeOut(this);
        cb := None;
        manager.Changed(this, m.timers);
        return true;
      }
      return false;
    }

    method Refresh(now: int) returns (done: bool)
      requires manager.Valid() && manager.Knows(this)
      requires S.Ordered(manager.State().timers, manager.State().order)
      modifies this`ms, this`next, manager`timers
      ensures manager.Valid() && (manager.State(), done) == S.Refresh(old(manager.State()), id, now)
    {
      if cb.None? {
        return false;
      }
      if manager.Find(this) == |manager.timers| {
        return false;
      }
      Again(now);
      return true;
    }

    /** The second half of `refresh`. */
    method Again(now: int)
      requires manager.Valid() && manager.Knows(this) && manager.Find(this) < |manager.timers|
      requires S.Ordered(manager.State().timers, manager.State().order)
      modifies this`ms, this`next, manager`timers
      ensures manager.Valid()
      ensures var m := old(manager.State());
              manager.State() == S.Back(S.Moved(m, id, m.timers[id].(next := now + m.timers[id].ms)), id)
    {
      ghost var t := manager.State().timers[id];
      assert t == Value() && t.(ms := ms, next := now + ms) == t.(next := now + t.ms);
      Move(ms, now + ms);
      manager.PutIn(this);
    }

    /** Out of the set, and then a new key. */
    method Move(ms: int, next: int)
      requires manager.Valid() && manager.Knows(this) && manager.Find(this) < |manager.timers|
      requires S.Ordered(manager.State().timers, manager.State().order)
      modifies this`ms, this`next, manager`timers
      ensures manager.Valid()
      ensures var m := old(manager.State());
              manager.State() == S.Moved(m, id, m.timers[id].(ms := ms, next := next))
    {
      ghost var m := manager.State();
      manager.TakeOut(this);
      assert this !in manager.timers;
      this.ms, this.next := ms, next;
      manager.Changed(this, m.timers);
    }

    method Reset(ms: int, fromNow: bool, now: int) returns (done: bool, woken: bool)
      requires manager.Valid() && manager.Knows(this)
      requires S.Ordered(manager.State().timers, manager.State().order)
      modifies this`ms, this`next, manager`timers, manager`tickle
      ensures manager.Valid() && (manager.State(), done, woken) == S.Reset(old(manager.State()), id, ms, fromNow, now)
    {
      if this.ms == ms && !fromNow {
        return true, false;
      }
      if cb.None? {
        return true, false;
      }
      if manager.Find(this) == |manager.timers| {
        return false, false;
      }
      woken := Restart(ms, if fromNow then now else next - this.ms);
      return true, woken;
    }

    /** The second half of `reset`. */
    method Restart(ms: int, start: int) returns (woken: bool)
      requires manager.Valid() && manager.Knows(this) && manager.Find(this) < |manager.timers|
      requires S.Ordered(manager.State().timers, manager.State().order)
      modifies this`ms, this`next, manager`timers, manager`tickle
      ensures manager.Valid() && (manager.State(), woken) == S.Restart(old(manager.State()), id, ms, start)
    {
      ghost var m := manager.State();
      ghost var moved := S.Moved(m, id, m.timers[id].(ms := ms, next := start + ms));
      Move(ms, start + ms);
      assert manager.State() == moved;
      woken := manager.Enter(this);
      assert (manager.State(), woken) == S.Enter(moved, id);
    }
  }

  function Ids(s: seq<Timer>): (ids: seq<int>)
    ensures |ids| == |s| && forall k :: 0 <= k < |s| ==> ids[k] == s[k].id
  {
    seq(|s|, k requires 0 <= k < |s| => s[k].id)
  }

  lemma PutInMembers(s: seq<Timer>, k: nat, t: Timer)
    requires k <= |s|
    ensures forall x :: x in s[..k] + [t] + s[k..] <==> x in s || x == t
  {
    assert s == s[..k] + s[k..];
  }

  /** A timer whose address has gone from the set is not in it. */
  lemma NotAmong(s: seq<Timer>, t: Timer)
    requires t.id !in Ids(s)
    ensures t !in s
  {
  }

  class TimerManager {
    /** m_timers, first to last. */
    var timers: seq<Timer>
    var tickle: bool
    var previousTime: int
    /** Every timer made, by address. */
    ghost var all: map<int, Timer>

    ghost predicate Knows(t: Timer)
      reads this`all
    {
      t.id in all && all[t.id] == t
    }

    ghost predicate KnowsAll(s: seq<Timer>)
      reads this`all
    {
      forall k :: 0 <= k < |s| ==> Knows(s[k])
    }

    ghost predicate Valid()
      reads this
    {
      (forall i :: i in all ==> all[i].id == i && all[i].manager == this) && KnowsAll(timers)
    }

    ghost function Values(): map<int, S.Timer>
      reads this`all, all.Values
    {
      map i | i in all :: all[i].Value()
    }

    ghost function State(): (m: S.Manager)
      requires Valid()
      reads this, all.Values
      ensures S.Closed(m.timers, m.order)
    {
      S.Manager(Values(), Ids(timers), tickle, previousTime)
    }

    constructor (now: int)
      ensures Valid() && State() == S.Manager(map[], [], false, now)
    {
      timers, tickle, previousTime := [], false, now;
      all := map[];
    }

    // -------------------------------------------------------------- std::set

    function LowerBound(s: seq<Timer>, key: S.Key): (k: nat)
      reads s
      ensures k <= |s|
    {
      if s == [] || !S.Before(s[0].Key(), key) then 0 else 1 + LowerBound(s[1..], key)
    }

    lemma {:induction false} LowerBoundAgrees(s: seq<Timer>, key: S.Key)
      requires KnowsAll(s)
      ensures S.Closed(Values(), Ids(s)) && LowerBound(s, key) == S.LowerBound(Values(), Ids(s), key)
      decreases |s|
    {
      if s != [] {
        assert Ids(s)[1..] == Ids(s[1..]);
        LowerBoundAgrees(s[1..], key);
      }
    }

    function Find(t: Timer): (k: nat)
      requires Valid() && Knows(t)
      reads this, timers, t, all.Values
      ensures S.Closed(Values(), Ids(timers)) && k == S.Find(Values(), Ids(timers), t.id)
      ensures k <= |timers|
    {
      LowerBoundAgrees(timers, t.Key());
      var k := LowerBound(timers, t.Key());
      if k < |timers| && !S.Before(t.Key(), timers[k].Key()) then k else |timers|
    }

    /** `find` and `erase`. */
    method TakeOut(t: Timer)
      requires Valid() && Knows(t) && Find(t) < |timers| && S.Ordered(State().timers, State().order)
      modifies this`timers
      ensures Valid() && t !in timers
      ensures var m := old(State()); State() == m.(order := S.Erase(m.order, S.Find(m.timers, m.order, t.id)))
    {
      var it := Find(t);
      ghost var values, ids := Values(), Ids(timers);
      assert t.id !in S.Erase(ids, it) by {
        R.FindIffThere(values, ids, t.id);
        R.EraseOrdered(values, ids, it);
      }
      timers := timers[..it] + timers[it + 1..];
      assert Ids(timers) == S.Erase(ids, it);
      NotAmong(timers, t);
    }

    /** `insert`. */
    method PutIn(t: Timer)
      requires Valid() && Knows(t)
      modifies this`timers
      ensures Valid() && forall x :: x in timers <==> x in old(timers) || x == t
      ensures State() == S.Back(old(State()), t.id)
    {
      LowerBoundAgrees(timers, t.Key());
      var k := LowerBound(timers, t.Key());
      ghost var ids := Ids(timers);
      PutInMembers(timers, k, t);
      timers := timers[..k] + [t] + timers[k..];
      assert Ids(timers) == ids[..k] + [t.id] + ids[k..];
    }

    /** One timer's fields have changed. */
    lemma Changed(t: Timer, before: map<int, S.Timer>)
      requires Knows(t) && Valid() && before.Keys == all.Keys
      requires forall i :: i in all && i != t.id ==> before[i] == all[i].Value()
      ensures Values() == before[t.id := t.Value()]
    {
      var after := before[t.id := t.Value()];
      assert Values().Keys == after.Keys;
      forall i | i in Values()
        ensures Values()[i] == after[i]
      {
      }
    }

    // -------------------------------------------------------------- operations

    /** The protected addTimer; `woken` is a call of OnTimerInsertedAtFront. */
    method Enter(t: Timer) returns (woken: bool)
      requires Valid() && Knows(t)
      modifies this`timers, this`tickle
      ensures Valid() && (State(), woken) == S.Enter(old(State()), t.id)
    {
      PutIn(t);
      assert Knows(timers[0]);
      var atFront := timers[0] == t && !tickle;
      if atFront {
        tickle := true;
      }
      woken := atFront;
    }

    method AddTimer(id: int, ms: int, cb: Option<string>, recurring: bool, now: int)
        returns (timer: Timer, woken: bool)
      requires Valid() && id !in all
      modifies this
      ensures Valid() && fresh(timer) && timer.id == id && Knows(timer)
      ensures (State(), woken) == S.AddTimer(old(State()), id, ms, cb, recurring, now)
    {
      ghost var m := State();
      timer := new Timer(id, ms, cb, recurring, this, now);
      all := all[id := timer];
      assert Values() == m.timers[id := timer.Value()];
      woken := Enter(timer);
    }

    /** How long to sleep. */
    method GetNextTimer(now: int) returns (r: int)
      requires Valid()
      modifies this`tickle
      ensures Valid() && (State(), r) == S.GetNextTimer(old(State()), now)
    {
      tickle := false;
      if timers == [] {
        return S.FOREVER;
      }
      assert Knows(timers[0]);
      if now >= timers[0].next {
        return 0;
      }
      return timers[0].next - now;
    }

    method HasTimer() returns (b: bool)
      requires Valid()
      ensures b <==> exists i :: i in State().order
    {
      assert timers != [] ==> Ids(timers)[0] in Ids(timers);
      b := timers != [];
    }

    method DetectClockRollover(now: int) returns (rollover: bool)
      modifies this`previousTime
      ensures rollover == S.Rollover(now, old(previousTime)) && previousTime == now
    {
      rollover := false;
      if now < previousTime && now < (previousTime - 60 * 60 * 1000) % S.WORD {
        rollover := true;
      }
      previousTime := now;
    }

    /** What is put back or loses its callback. */
    method FireOne(t: Timer, now: int)
      requires Valid() && Knows(t) && t !in timers
      modifies t`next, t`cb, this`timers
      ensures Valid() && forall x :: x in timers ==> x in old(timers) || x == t
      ensures State() == S.FireOne(old(State()), t.id, now)
    {
      if t.recurring {
        FireAgain(t, now);
      } else {
        ghost var m := State();
        t.cb := None;
        Changed(t, m.timers);
      }
    }

    method FireAgain(t: Timer, now: int)
      requires Valid() && Knows(t) && t !in timers && t.recurring
      modifies t`next, this`timers
      ensures Valid() && forall x :: x in timers ==> x in old(timers) || x == t
      ensures State() == S.FireOne(old(State()), t.id, now)
    {
      ghost var m := State();
      t.next := now + t.ms;
      Changed(t, m.timers);
      assert State() == m.(timers := m.timers[t.id := t.Value()]);
      PutIn(t);
    }

    /** The end of what is due: `lower_bound` for a timer made for the search, at any address, and then the
        timers with the same deadline. */
    method ExpiryEnd(now: int, address: int) returns (it: nat)
      requires Valid() && S.Ordered(State().timers, State().order)
      ensures it == S.Due(State().timers, State().order, now)
    {
      ghost var m := State();
      it := LowerBound(timers, S.Key(now, address));
      LowerBoundAgrees(timers, S.Key(now, address));
      R.LowerBoundSplits(m.timers, m.order, S.Key(now, address));
      while it < |timers| && timers[it].next == now
        invariant it <= |timers|
        invariant forall i :: 0 <= i < it ==> m.timers[m.order[i]].next <= now
        invariant forall i :: it <= i < |timers| ==> !S.Before(S.KeyOf(m.timers, m.order[i]), S.Key(now, address))
      {
        assert Knows(timers[it]);
        it := it + 1;
      }
      if it < |timers| {
        assert Knows(timers[it]) && m.timers[m.order[it]].next > now;
      }
      R.DueIs(m.timers, m.order, now, it);
    }

    /** `address` is where the timer made for the search comes to lie. */
    method ListExpiredCb(now: int, address: int) returns (cbs: seq<Option<string>>)
      requires Valid() && S.Ordered(State().timers, State().order)
      modifies this, timers
      ensures Valid() && (State(), cbs) == S.ListExpired(old(State()), now)
    {
      ghost var m := State();
      cbs := [];
      if timers == [] {
        return;
      }
      var rollover := DetectClockRollover(now);
      assert Knows(timers[0]);
      if !rollover && timers[0].next > now {
        return;
      }
      var it := |timers|;
      if !rollover {
        it := ExpiryEnd(now, address);
      }
      R.ListExpiredFires(m, now);
      cbs := Fire(it, now);
    }

    /** The first `it` timers leave the set and fire. */
    method Fire(it: nat, now: int) returns (cbs: seq<Option<string>>)
      requires Valid() && S.Ordered(State().timers, State().order) && it <= |timers|
      modifies this`timers, timers
      ensures Valid()
      ensures var m := old(State());
              && State() == S.Readd(m.(order := m.order[it..]), m.order[..it], now)
              && cbs == S.Callbacks(m.timers, m.order[..it])
    {
      ghost var m := State();
      var expired := timers[..it];
      R.SliceOrdered(m.timers, m.order, it);
      timers := timers[it..];
      forall i | 0 <= i < |expired|
        ensures expired[i] !in timers
      {
        assert m.order[..it][i] == expired[i].id && forall j :: 0 <= j < |timers| ==> m.order[it..][j] == timers[j].id;
      }
      assert State() == m.(order := m.order[it..]) && Ids(expired) == m.order[..it];
      cbs := FireAll(expired, now);
    }

    /** The first i of the expired timers have fired, the others are still out of the set. */
    ghost predicate Firing(m: S.Manager, expired: seq<Timer>, i: nat, now: int)
      reads this, all.Values
    {
      && Valid() && KnowsAll(expired) && i <= |expired|
      && S.Closed(m.timers, m.order) && S.Closed(m.timers, Ids(expired)) && S.Closed(m.timers, Ids(expired)[..i])
      && State() == S.Readd(m, Ids(expired)[..i], now)
      && (forall j :: i <= j < |expired| ==> expired[j] !in timers)
    }

    method FireNext(ghost m: S.Manager, timer: Timer, ghost expired: seq<Timer>, ghost i: nat, now: int)
        returns (cb: Option<string>)
      requires i < |expired| && timer == expired[i] && Firing(m, expired, i, now)
      requires forall j, k :: 0 <= j < k < |expired| ==> expired[j] != expired[k]
      modifies timer`next, timer`cb, this`timers
      ensures Firing(m, expired, i + 1, now) && cb == m.timers[Ids(expired)[i]].cb
    {
      ghost var ids := Ids(expired);
      assert Knows(timer) && timer.id == ids[i] && ids[i] !in ids[..i];
      R.ReaddUntouched(m, ids[..i], now, ids[i]);
      cb := timer.cb;
      R.ReaddStep(m, ids, i, now);
      FireOne(timer, now);
    }

    static lemma CallbacksSnoc(timers: map<int, S.Timer>, ids: seq<int>, i: nat)
      requires i < |ids| && S.Closed(timers, ids)
      ensures S.Callbacks(timers, ids[..i + 1]) == S.Callbacks(timers, ids[..i]) + [timers[ids[i]].cb]
    {
    }

    /** The loop over the expired timers. */
    method FireAll(expired: seq<Timer>, now: int) returns (cbs: seq<Option<string>>)
      requires Valid() && KnowsAll(expired)
      requires forall i :: 0 <= i < |expired| ==> expired[i] !in timers
      requires forall i, j :: 0 <= i < j < |expired| ==> expired[i] != expired[j]
      modifies this`timers, expired
      ensures Valid() && S.Closed(old(State()).timers, Ids(expired))
      ensures State() == S.Readd(old(State()), Ids(expired), now)
      ensures cbs == S.Callbacks(old(State()).timers, Ids(expired))
    {
      ghost var m, ids := State(), Ids(expired);
      cbs := [];
      var i := 0;
      while i < |expired|
        invariant Firing(m, expired, i, now)
        invariant S.Closed(m.timers, ids) && i <= |ids| && cbs == S.Callbacks(m.timers, ids[..i])
      {
        var cb := FireNext(m, expired[i], expired, i, now);
        CallbacksSnoc(m.timers, ids, i);
        cbs := cbs + [cb];
        i := i + 1;
      }
      assert ids[..|ids|] == ids;
    }
  }
}
