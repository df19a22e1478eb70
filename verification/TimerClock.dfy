/** The clock the timers read, as src/fiber/include/utils.hpp:26-30 computes it, and what its steps back do to
    them.  The other timer modules take any clock that does not go back. */
module TimerClock {
  import opened Options
  import opened TimerRuns
  import opened TimerSteps

  const SECOND := 1000
  const NANOS := 1_000_000_000

  /** Milliseconds from seconds and nanoseconds, with the minus sign of the code. */
  function Elapsed(sec: int, nsec: int): int {
    (sec * 1000 - nsec / 1_000_000) % WORD
  }

  ghost predicate Reading(sec: int, nsec: int) {
    0 <= sec < WORD / 1000 && 0 <= nsec < NANOS
  }

  ghost predicate NotAfter(sec: int, nsec: int, sec': int, nsec': int) {
    sec < sec' || (sec == sec' && nsec <= nsec')
  }

  /** The milliseconds are subtracted; in the very first second that wraps around. */
  lemma ElapsedValue(sec: int, nsec: int)
    requires Reading(sec, nsec)
    ensures 0 <= nsec / 1_000_000 < SECOND
    ensures Elapsed(sec, nsec) == sec * 1000 - nsec / 1_000_000
                                  + (if sec == 0 && nsec / 1_000_000 > 0 then WORD else 0)
  {
  }

  /** Of two readings in order, the second is not the smaller one if and only if they are taken in the same
      millisecond or in different seconds: within a second this clock runs backwards.  In the very first second
      after the start it wraps, and only its first millisecond is below what follows. */
  lemma ElapsedForwardIff(sec: int, nsec: int, sec': int, nsec': int)
    requires Reading(sec, nsec) && Reading(sec', nsec') && NotAfter(sec, nsec, sec', nsec')
    ensures Elapsed(sec, nsec) <= Elapsed(sec', nsec') <==>
            || (sec == sec' && nsec / 1_000_000 == nsec' / 1_000_000)
            || (if sec == 0 then nsec / 1_000_000 == 0 else sec < sec')
  {
    ElapsedValue(sec, nsec);
    ElapsedValue(sec', nsec');
    if sec == sec' {
      assert nsec / 1_000_000 <= nsec' / 1_000_000;
    }
  }

  /** The rollover check with its unsigned subtraction: in the first hour any step back is a rollover. */
  lemma RolloverIff(now: int, previousTime: int)
    requires 0 <= now < WORD && 0 <= previousTime < WORD
    ensures Rollover(now, previousTime) <==>
            now < previousTime && (previousTime < HOUR || now < previousTime - HOUR)
  {
    if previousTime < HOUR {
      assert (previousTime - HOUR) % WORD == previousTime - HOUR + WORD;
    }
  }

  /** Two calls of listExpiredCb within one second: the second takes all timers for expired if and only if it
      reads a later millisecond, in the first hour (by this clock) but not in the first second. */
  lemma SecondCallExpiresAllIff(m: Manager, sec: int, nsec: int, nsec': int)
    requires Reading(sec, nsec) && Reading(sec, nsec') && nsec <= nsec'
    requires Ordered(m.timers, m.order) && m.order != [] && m.previousTime == Elapsed(sec, nsec)
    requires forall id :: id in m.order ==> m.timers[id].next > Elapsed(sec, nsec')
    ensures |ListExpired(m, Elapsed(sec, nsec')).1| ==
            if sec > 0 && nsec / 1_000_000 < nsec' / 1_000_000 && Elapsed(sec, nsec) < HOUR then |m.order| else 0
  {
    ElapsedValue(sec, nsec);
    ElapsedValue(sec, nsec');
    RolloverIff(Elapsed(sec, nsec'), m.previousTime);
    assert nsec / 1_000_000 <= nsec' / 1_000_000;
    assert m.order[0] in m.order;
    assert m.order[..|m.order|] == m.order;
  }

  /** A refresh lets the timer's deadline slip in front of the report, without a wake-up, if and only if the reading
      plus the period is before the report. */
  lemma RefreshOversleepsIff(w: World, id: int, now: int)
    requires SetInv(w) && Awake(w) && !w.m.tickle && id in w.m.timers && w.m.timers[id].cb.Some?
    ensures w.reported.Some?
    ensures Awake(w.(m := Refresh(w.m, id, now).0)) <==> w.reported.value <= now + w.m.timers[id].ms
  {
    var t := w.m.timers[id];
    FindIffThere(w.m.timers, w.m.order, id);
    RefreshIsReentry(w.m, id, now);
    ReenterOrdered(w.m.timers, w.m.order, id, Refreshed(t, now));
    ReenteredOversleepsIff(w, id, Refreshed(t, now), Refresh(w.m, id, now).0);
  }

  lemma ReenteredOversleepsIff(w: World, id: int, t: Timer, m': Manager)
    requires Awake(w) && !w.m.tickle && id in w.m.timers && id in w.m.order && w.reported.Some?
    requires m'.timers == w.m.timers[id := t] && !m'.tickle
    requires forall x :: x in m'.order <==> x in w.m.order
    ensures Awake(w.(m := m')) <==> w.reported.value <= t.next
  {
  }

  /** For the timer that was reported: if and only if the clock has gone back behind the timer's start. */
  lemma ReportedRefreshOversleepsIff(w: World, id: int, now: int)
    requires SetInv(w) && Awake(w) && !w.m.tickle && id in w.m.timers && w.m.timers[id].cb.Some?
    requires w.reported == Some(w.m.timers[id].next)
    ensures Awake(w.(m := Refresh(w.m, id, now).0)) <==> w.m.timers[id].next - w.m.timers[id].ms <= now
  {
    RefreshOversleepsIff(w, id, now);
  }

  /** On the clock of the code: a reported timer that was started at one reading and is refreshed at a later one
      keeps the promise if and only if the two are in the same millisecond or in different seconds, the first
      not in the part of the very first second that wraps. */
  lemma RefreshOnClockIff(w: World, id: int, sec: int, nsec: int, sec': int, nsec': int)
    requires SetInv(w) && Awake(w) && !w.m.tickle && id in w.m.timers && w.m.timers[id].cb.Some?
    requires w.reported == Some(w.m.timers[id].next)
    requires Reading(sec, nsec) && Reading(sec', nsec') && NotAfter(sec, nsec, sec', nsec')
    requires w.m.timers[id].next == Elapsed(sec, nsec) + w.m.timers[id].ms
    ensures Awake(w.(m := Refresh(w.m, id, Elapsed(sec', nsec')).0)) <==>
            || (sec == sec' && nsec / 1_000_000 == nsec' / 1_000_000)
            || (if sec == 0 then nsec / 1_000_000 == 0 else sec < sec')
  {
    ReportedRefreshOversleepsIff(w, id, Elapsed(sec', nsec'));
    ElapsedForwardIff(sec, nsec, sec', nsec');
  }

  const SOON := Timer(50, 1100, false, Some("a"))
  const LATER := Timer(51, 1101, false, Some("b"))

  /** A manager with both timers. */
  ghost function Both(tickle: bool): Manager {
    Manager(map[1 := SOON, 2 := LATER], [1, 2], tickle, 0)
  }

  lemma BothAreAdded()
    ensures AddTimer(Manager(map[], [], false, 0), 1, 50, Some("a"), false, 1050).0 == Manager(map[1 := SOON], [1], true, 0)
    ensures AddTimer(Manager(map[1 := SOON], [1], true, 0), 2, 51, Some("b"), false, 1050).0 == Both(true)
  {
    assert map[][1 := SOON] == map[1 := SOON] && map[1 := SOON][2 := LATER] == map[1 := SOON, 2 := LATER];
    assert Insert(map[1 := SOON], [], 1) == [1];
    assert Insert(map[1 := SOON, 2 := LATER], [1], 2) == [1, 2];
  }

  lemma LaterIsRefreshed()
    ensures Refresh(Both(false), 2, 1001).0 ==
            Manager(map[1 := SOON, 2 := LATER.(next := 1052)], [2, 1], false, 0)
  {
    var timers := map[1 := SOON, 2 := LATER];
    assert LowerBound(timers, [1, 2], KeyOf(timers, 2)) == 1 by {
      assert [1, 2][1..] == [2] && LowerBound(timers, [2], KeyOf(timers, 2)) == 0;
    }
    assert Find(timers, [1, 2], 2) == 1;
    assert Erase([1, 2], 1) == [1] by {
      assert [1, 2][..1] == [1] && [1, 2][2..] == [];
    }
    assert Insert(timers[2 := LATER.(next := 1052)], [1], 2) == [2, 1];
    assert timers[2 := LATER.(next := 1052)] == map[1 := SOON, 2 := LATER.(next := 1052)];
  }

  /** Two timers are added and the first, due at 1100, is reported at 2.950 s, which reads 1050; at 2.999 s, which reads
      1001, the second is refreshed, comes to stand first with 1052, and wakes nobody. */
  lemma RefreshOversleepsOnClock()
    ensures var at := Elapsed(2, 950_000_000);
            && AddTimer(Manager(map[], [], false, 0), 1, 50, Some("a"), false, at).0 == Manager(map[1 := SOON], [1], true, 0)
            && AddTimer(Manager(map[1 := SOON], [1], true, 0), 2, 51, Some("b"), false, at).0 == Both(true)
            && GetNextTimer(Both(true), at) == (Both(false), 50)
    ensures Refresh(Both(false), 2, Elapsed(2, 999_000_000)).0 ==
            Manager(map[1 := SOON, 2 := LATER.(next := 1052)], [2, 1], false, 0)
  {
    assert Elapsed(2, 950_000_000) == 1050 && Elapsed(2, 999_000_000) == 1001;
    BothAreAdded();
    LaterIsRefreshed();
  }

  /** A rollover starts all recurring timers again at a reading that may be old, so one may come to stand in
      front of the report, without a wake-up. */
  lemma RolloverOversleepsIff(w: World, now: int)
    requires SetInv(w) && Awake(w) && !w.m.tickle && Can(w, Expire(now)) && !Calm(w, Expire(now))
    ensures Awake(Do(w, Expire(now))) <==>
            forall id :: id in w.m.order && w.m.timers[id].recurring ==>
              w.reported.value <= now + w.m.timers[id].ms
  {
    var k := ExpiryCut(w.m, now);
    assert w.m.order[..k] == w.m.order && w.m.order[k..] == [];
    RestartedOversleepsIff(w, now, ListExpired(w.m, now).0);
  }

  lemma RestartedOversleepsIff(w: World, now: int, r: Manager)
    requires Awake(w) && !w.m.tickle && Closed(w.m.timers, w.m.order)
    requires ReaddedTo(w.m.(order := [], previousTime := r.previousTime), w.m.order, now, r)
    ensures Awake(w.(m := r)) <==>
            forall id :: id in w.m.order && w.m.timers[id].recurring ==>
              w.reported.Some? && w.reported.value <= now + w.m.timers[id].ms
  {
  }

  // ---------------------------------------------------------------- it happens, with a reading that is only late

  const TICK := Timer(10, 110, true, Some("tick"))

  /** The manager of the run below with its one timer. */
  ghost function Ticking(tickle: bool, previousTime: int): Manager {
    Manager(map[1 := TICK], [1], tickle, previousTime)
  }

  ghost function Blank(): World {
    World(Manager(map[], [], false, 100), 100, None)
  }

  lemma TickIsAdded()
    ensures Can(Blank(), Add(1, 10, Some("tick"), true, 100))
    ensures Do(Blank(), Add(1, 10, Some("tick"), true, 100)) == World(Ticking(true, 100), 100, None)
  {
    assert map[][1 := TICK] == map[1 := TICK];
    assert Insert(map[1 := TICK], [], 1) == [1];
  }

  lemma TickIsNotDue()
    ensures var w := World(Ticking(true, 100), 105, None);
            Can(w, Expire(105)) && Do(w, Expire(105)) == World(Ticking(true, 105), 105, None)
  {
  }

  lemma TickIsReported()
    ensures var w := World(Ticking(true, 105), 105, None);
            Can(w, Next) && Do(w, Next) == World(Ticking(false, 105), 105, Some(110))
  {
  }

  /** A run on a clock that never goes back: a timer is added at 100, looked for at 105 and reported as due at
      110; then a thread that has read 99 before looks for expired timers, and the timer is due at 109. */
  lemma RolloverOversleeps() returns (run: seq<World>)
    ensures Run(run, false, true) && |run| == 6
    ensures var w := run[5]; Closed(w.m.timers, w.m.order) && w.reported == Some(110) && !w.m.tickle && !Awake(w)
  {
    var w4 := World(Ticking(false, 105), 105, Some(110));
    run := RunToReport();
    LateExpiry(w4);
    run := RunOn(run, Expire(99), Do(w4, Expire(99)));
  }

  lemma RunToSearch() returns (run: seq<World>)
    ensures Run(run, false, true) && |run| == 3 && run[2] == World(Ticking(true, 100), 105, None)
  {
    var w := World(Ticking(true, 100), 100, None);
    TickIsAdded();
    BlankRun();
    run := RunOn([Blank()], Add(1, 10, Some("tick"), true, 100), w);
    assert Can(w, Advance(105)) && Do(w, Advance(105)) == World(Ticking(true, 100), 105, None);
    run := RunOn(run, Advance(105), World(Ticking(true, 100), 105, None));
  }

  lemma BlankRun()
    ensures Run([Blank()], false, true)
  {
  }

  lemma RunToReport() returns (run: seq<World>)
    ensures Run(run, false, true) && |run| == 5 && run[4] == World(Ticking(false, 105), 105, Some(110))
  {
    run := RunToSearch();
    TickIsNotDue();
    run := RunOn(run, Expire(105), World(Ticking(true, 105), 105, None));
    TickIsReported();
    run := RunOn(run, Next, World(Ticking(false, 105), 105, Some(110)));
  }

  lemma RunOn(run: seq<World>, step: Step, w: World) returns (longer: seq<World>)
    requires Run(run, false, true) && Can(run[|run| - 1], step) && w == Do(run[|run| - 1], step)
    requires !(step.Add? && step.cb.None?)
    ensures Run(longer, false, true) && |longer| == |run| + 1 && longer[|run|] == w
  {
    longer := run + [w];
    assert Follows(run[|run| - 1], step, w, false, true);
    forall i | 0 < i < |longer|
      ensures MovesAt(longer, false, true, i)
    {
      if i < |run| {
        assert MovesAt(run, false, true, i);
      }
    }
  }

  lemma LateExpiry(w: World)
    requires w == World(Ticking(false, 105), 105, Some(110))
    ensures Can(w, Expire(99))
    ensures var w' := Do(w, Expire(99));
            Closed(w'.m.timers, w'.m.order) && w'.reported == Some(110) && !w'.m.tickle && !Awake(w')
  {
    assert SetInv(w) && Awake(w) && !Calm(w, Expire(99));
    assert w.m.order[0] in w.m.order;
    RolloverOversleepsIff(w, 99);
    ExpireKeepsInv(w, 99);
  }
}
