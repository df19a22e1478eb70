/** src/fiber/timer.cpp as functions on values: the ordered set of timers, its changing keys, and the flag
    that asks for a wake-up. */
module TimerSteps {
  import opened Options

  /** class Timer; `cb` is the callback, absent once the timer has fired for good or was cancelled. */
  datatype Timer = Timer(ms: int, next: int, recurring: bool, cb: Option<string>)

  /** What the set is ordered by: the deadline, then the address. */
  datatype Key = Key(next: int, id: int)

  /** class TimerManager.  `timers` are all timers ever made, by address; `order` is `m_timers`, first to
      last. */
  datatype Manager = Manager(timers: map<int, Timer>, order: seq<int>, tickle: bool, previousTime: int)

  const HOUR := 60 * 60 * 1000
  const WORD := 0x1_0000_0000_0000_0000
  /** ~0ull */
  const FOREVER := WORD - 1

  // ---------------------------------------------------------------- the order

  /** Timer::Comparator, null pointers included. */
  predicate Compare(lhs: Option<Key>, rhs: Option<Key>) {
    if lhs.None? && rhs.None? then false
    else if lhs.None? then true
    else if rhs.None? then false
    else if lhs.value.next < rhs.value.next then true
    else if rhs.value.next < lhs.value.next then false
    else lhs.value.id < rhs.value.id
  }

  predicate Before(a: Key, b: Key) {
    Compare(Some(a), Some(b))
  }

  function KeyOf(timers: map<int, Timer>, id: int): Key
    requires id in timers
  {
    Key(timers[id].next, id)
  }

  predicate Closed(timers: map<int, Timer>, order: seq<int>) {
    forall i :: 0 <= i < |order| ==> order[i] in timers
  }

  ghost predicate Ordered(timers: map<int, Timer>, order: seq<int>) {
    && Closed(timers, order)
    && (forall i, j :: 0 <= i < j < |order| ==> Before(KeyOf(timers, order[i]), KeyOf(timers, order[j])))
  }

  /** std::set::lower_bound: how many are before the key. */
  function LowerBound(timers: map<int, Timer>, order: seq<int>, key: Key): (k: nat)
    requires Closed(timers, order)
    ensures k <= |order|
  {
    if order == [] || !Before(KeyOf(timers, order[0]), key) then 0 else 1 + LowerBound(timers, order[1..], key)
  }

  /** std::set::insert of a timer that is not in the set. */
  function Insert(timers: map<int, Timer>, order: seq<int>, id: int): seq<int>
    requires id in timers && Closed(timers, order)
  {
    var k := LowerBound(timers, order, KeyOf(timers, id));
    order[..k] + [id] + order[k..]
  }

  /** std::set::find, the length of the set standing for its end. */
  function Find(timers: map<int, Timer>, order: seq<int>, id: int): (k: nat)
    requires id in timers && Closed(timers, order)
    ensures k <= |order|
  {
    var k := LowerBound(timers, order, KeyOf(timers, id));
    if k < |order| && !Before(KeyOf(timers, id), KeyOf(timers, order[k])) then k else |order|
  }

  /** std::set::erase; erasing the end is undefined in C++, here it does nothing. */
  function Erase(order: seq<int>, k: nat): (rest: seq<int>)
    requires k <= |order|
    ensures forall i :: 0 <= i < |rest| ==> rest[i] in order
  {
    if k < |order| then order[..k] + order[k + 1..] else order
  }

  // ---------------------------------------------------------------- the operations

  /** The protected addTimer: a timer at the front asks for a wake-up, unless one was asked for already.  The
      flag that is returned says whether OnTimerInsertedAtFront is called. */
  function Enter(m: Manager, id: int): (Manager, bool)
    requires id in m.timers && Closed(m.timers, m.order)
  {
    var order := Insert(m.timers, m.order, id);
    var atFront := order[0] == id && !m.tickle;
    (m.(order := order, tickle := m.tickle || atFront), atFront)
  }

  /** The public addTimer; `now` is the clock when the timer is made. */
  function AddTimer(m: Manager, id: int, ms: int, cb: Option<string>, recurring: bool, now: int): (Manager, bool)
    requires Closed(m.timers, m.order)
  {
    Enter(m.(timers := m.timers[id := Timer(ms, now + ms, recurring, cb)]), id)
  }

  function Cancel(m: Manager, id: int): (Manager, bool)
    requires id in m.timers && Closed(m.timers, m.order)
  {
    var t := m.timers[id];
    if t.cb.Some? then
      (m.(timers := m.timers[id := t.(cb := None)], order := Erase(m.order, Find(m.timers, m.order, id))), true)
    else (m, false)
  }

  /** Out of the set and changed. */
  function Moved(m: Manager, id: int, t: Timer): (m': Manager)
    requires id in m.timers && Closed(m.timers, m.order)
    ensures id in m'.timers && Closed(m'.timers, m'.order)
  {
    m.(timers := m.timers[id := t], order := Erase(m.order, Find(m.timers, m.order, id)))
  }

  /** Into the set. */
  function Back(m: Manager, id: int): Manager
    requires id in m.timers && Closed(m.timers, m.order)
  {
    m.(order := Insert(m.timers, m.order, id))
  }

  /** Back into the set without asking for a wake-up. */
  function Refresh(m: Manager, id: int, now: int): (Manager, bool)
    requires id in m.timers && Closed(m.timers, m.order)
  {
    var t := m.timers[id];
    if t.cb.None? || Find(m.timers, m.order, id) == |m.order| then (m, false)
    else
      (Back(Moved(m, id, t.(next := now + t.ms)), id), true)
  }

  /** The second half of `reset`: out, changed, and in again. */
  function Restart(m: Manager, id: int, ms: int, start: int): (Manager, bool)
    requires id in m.timers && Closed(m.timers, m.order)
  {
    Enter(Moved(m, id, m.timers[id].(ms := ms, next := start + ms)), id)
  }

  function Reset(m: Manager, id: int, ms: int, fromNow: bool, now: int): (Manager, bool, bool)
    requires id in m.timers && Closed(m.timers, m.order)
  {
    var t := m.timers[id];
    if (t.ms == ms && !fromNow) || t.cb.None? then (m, true, false)
    else if Find(m.timers, m.order, id) == |m.order| then (m, false, false)
    else
      var (m', atFront) := Restart(m, id, ms, if fromNow then now else t.next - t.ms);
      (m', true, atFront)
  }

  /** How long to sleep; the flag goes down. */
  function GetNextTimer(m: Manager, now: int): (Manager, int)
    requires Closed(m.timers, m.order)
  {
    (m.(tickle := false),
     if m.order == [] then FOREVER
     else if now >= m.timers[m.order[0]].next then 0
     else m.timers[m.order[0]].next - now)
  }

  /** detectClockRollover, in 64-bit unsigned arithmetic. */
  predicate Rollover(now: int, previousTime: int) {
    now < previousTime && now < (previousTime - HOUR) % WORD
  }

  /** How many of the first timers are due. */
  function Due(timers: map<int, Timer>, order: seq<int>, now: int): (k: nat)
    requires Closed(timers, order)
    ensures k <= |order|
  {
    if order == [] || timers[order[0]].next > now then 0 else 1 + Due(timers, order[1..], now)
  }

  /** A timer that is due: a recurring one goes back, another one loses its callback. */
  function FireOne(m: Manager, id: int, now: int): (r: Manager)
    requires id in m.timers && Closed(m.timers, m.order)
    ensures r.timers.Keys == m.timers.Keys && Closed(r.timers, r.order)
  {
    var t := m.timers[id];
    if t.recurring then
      var timers := m.timers[id := t.(next := now + t.ms)];
      m.(timers := timers, order := Insert(timers, m.order, id))
    else
      m.(timers := m.timers[id := t.(cb := None)])
  }

  /** The loop over the expired timers. */
  function Readd(m: Manager, expired: seq<int>, now: int): (r: Manager)
    requires Closed(m.timers, m.order) && Closed(m.timers, expired)
    ensures r.timers.Keys == m.timers.Keys && Closed(r.timers, r.order)
  {
    if expired == [] then m
    else FireOne(Readd(m, expired[..|expired| - 1], now), expired[|expired| - 1], now)
  }

  function Callbacks(timers: map<int, Timer>, expired: seq<int>): (cbs: seq<Option<string>>)
    requires Closed(timers, expired)
    ensures |cbs| == |expired| && forall i :: 0 <= i < |expired| ==> cbs[i] == timers[expired[i]].cb
  {
    seq(|expired|, i requires 0 <= i < |expired| => timers[expired[i]].cb)
  }

  /** listExpiredCb, with the clock as it read it before it took the lock. */
  function ListExpired(m: Manager, now: int): (Manager, seq<Option<string>>)
    requires Closed(m.timers, m.order)
  {
    if m.order == [] then (m, [])
    else
      var rollover := Rollover(now, m.previousTime);
      var m := m.(previousTime := now);
      if !rollover && m.timers[m.order[0]].next > now then (m, [])
      else
        var k := if rollover then |m.order| else Due(m.timers, m.order, now);
        (Readd(m.(order := m.order[k..]), m.order[..k], now), Callbacks(m.timers, m.order[..k]))
  }
}
