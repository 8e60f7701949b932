/**
 The query timeout (`src/storage/query_conn.rs`): the query thread runs a closure while a
 timer thread waits on a condition variable, ready to interrupt the connection.

 `World` holds both threads' program points, the mutex, the shared `done` flag, the
 pending notification and the clock. A run is any sequence of enabled steps, so every
 interleaving is covered, with spurious wake-ups. `timeout` is the wait's time limit.
 */
module QueryTimer {
  import opened BasicTypes

  datatype Holder = Free | ByQuery | ByTimer

  datatype QueryPoint =
    | InClosure            // f is running on the connection
    | WantsLock            // f has returned; about to lock and set the flag
    | SetsDone             // holds the lock
    | Notifies             // flag set, lock released
    | Joins
    | Returned(timedOut: bool)

  datatype TimerPoint =
    | Spawned
    | ChecksDone           // holds the lock for the first time
    | Waits(since: nat)    // parked on the condition variable, lock released
    | Reacquires(timedOut: bool)
    | Decides(timedOut: bool)   // holds the lock again
    | Interrupts           // holds the lock, about to call interrupt()
    | Exited(fired: bool)

  datatype World = World(
    query: QueryPoint, timer: TimerPoint, lock: Holder, done: bool, notified: bool,
    interrupts: nat, clock: nat)

  datatype Wakeup = Notified | TimedOut | Spurious

  datatype Step =
    | Tick
    | FinishClosure | LockQuery | SetDone | Notify | Join
    | LockTimer | CheckDone | WakeTimer(why: Wakeup, late: bool) | RelockTimer | Decide | Interrupt

  const START := World(InClosure, Spawned, Free, false, false, 0, 0)

  /**
   `late` is what the wait reports about its time limit: always for a wake-up by time-out,
   never before the limit has passed.
   */
  predicate Enabled(w: World, timeout: nat, s: Step) {
    match s
    case Tick => true
    case FinishClosure => w.query.InClosure?
    case LockQuery => w.query.WantsLock? && w.lock.Free?
    case SetDone => w.query.SetsDone?
    case Notify => w.query.Notifies?
    case Join => w.query.Joins? && w.timer.Exited?
    case LockTimer => w.timer.Spawned? && w.lock.Free?
    case CheckDone => w.timer.ChecksDone?
    case WakeTimer(why, late) =>
      && w.timer.Waits?
      && (late ==> w.clock >= w.timer.since + timeout)
      && (why.TimedOut? ==> late)
      && (why.Notified? ==> w.notified)
      && (why.Spurious? ==> !late)
    case RelockTimer => w.timer.Reacquires? && w.lock.Free?
    case Decide => w.timer.Decides?
    case Interrupt => w.timer.Interrupts?
  }

  function Next(w: World, timeout: nat, s: Step): World
    requires Enabled(w, timeout, s)
  {
    match s
    case Tick => w.(clock := w.clock + 1)
    case FinishClosure => w.(query := WantsLock)
    case LockQuery => w.(query := SetsDone, lock := ByQuery)
    case SetDone => w.(query := Notifies, lock := Free, done := true)
    // A notification wakes only a thread that is already waiting; otherwise it is dropped.
    case Notify => w.(query := Joins, notified := w.timer.Waits?)
    case Join => w.(query := Returned(w.timer.fired))
    case LockTimer => w.(timer := ChecksDone, lock := ByTimer)
    case CheckDone =>
      if w.done then w.(timer := Exited(false), lock := Free)
      else w.(timer := Waits(w.clock), lock := Free)
    case WakeTimer(_, late) => w.(timer := Reacquires(late), notified := false)
    case RelockTimer => w.(timer := Decides(w.timer.timedOut), lock := ByTimer)
    case Decide =>
      if !w.done && w.timer.timedOut then w.(timer := Interrupts)
      else w.(timer := Exited(false), lock := Free)
    case Interrupt => w.(timer := Exited(true), lock := Free, interrupts := w.interrupts + 1)
  }

  ghost predicate IsRun(timeout: nat, steps: seq<Step>)
    decreases |steps|, 0
  {
    steps == [] ||
    var before := steps[..|steps| - 1];
    IsRun(timeout, before) && Enabled(After(timeout, before), timeout, steps[|steps| - 1])
  }

  ghost function After(timeout: nat, steps: seq<Step>): World
    requires IsRun(timeout, steps)
    decreases |steps|, 1
  {
    if steps == [] then START else
    var before := steps[..|steps| - 1];
    Next(After(timeout, before), timeout, steps[|steps| - 1])
  }

  // ----- Safety -----

  predicate QueryHoldsLock(q: QueryPoint) { q.SetsDone? }
  predicate TimerHoldsLock(t: TimerPoint) { t.ChecksDone? || t.Decides? || t.Interrupts? }

  ghost predicate Inv(w: World) {
    && (QueryHoldsLock(w.query) <==> w.lock.ByQuery?)
    && (TimerHoldsLock(w.timer) <==> w.lock.ByTimer?)
    && (w.done <==> w.query.Notifies? || w.query.Joins? || w.query.Returned?)
    && w.interrupts == (if w.timer == Exited(true) then 1 else 0)
    && (w.timer.Interrupts? ==> !w.done)
    // No lost notification: once the notifier has run, a timer still waiting has been woken.
    && (w.timer.Waits? && (w.query.Joins? || w.query.Returned?) ==> w.notified)
    && (w.notified ==> w.timer.Waits? && w.query.Joins?)
    && (w.timer.Waits? ==> w.timer.since <= w.clock)
    && (w.query.Returned? ==> w.timer == Exited(w.query.timedOut))
  }

  lemma {:induction false} InvHolds(timeout: nat, steps: seq<Step>)
    requires IsRun(timeout, steps)
    ensures Inv(After(timeout, steps))
  {
    if steps != [] {
      InvHolds(timeout, steps[..|steps| - 1]);
    }
  }

  /**
   The connection is interrupted at most once, only while the timer holds the lock and the
   flag is unset, so the query thread is still before setting it; after the call has
   returned nothing is interrupted.
   */
  lemma InterruptIsSafe(timeout: nat, steps: seq<Step>)
    requires IsRun(timeout, steps) && Enabled(After(timeout, steps), timeout, Interrupt)
    ensures var w := After(timeout, steps);
      && w.interrupts == 0 && !w.done && w.lock == ByTimer
      && (w.query.InClosure? || w.query.WantsLock?)
  {
    InvHolds(timeout, steps);
  }

  /** What the call returns: the timeout error if the timer fired, else the closure's own result. */
  function CallResult<T, E>(returned: QueryPoint, closure: T, timeoutError: E): (r: Result<T, E>)
    requires returned.Returned?
  {
    if returned.timedOut then Err(timeoutError) else Ok(closure)
  }

  /** A returned call reports a timeout exactly when the connection was interrupted, once. */
  lemma TimeoutIffInterrupted<T, E>(timeout: nat, steps: seq<Step>, closure: T, timeoutError: E)
    requires IsRun(timeout, steps) && After(timeout, steps).query.Returned?
    ensures var w := After(timeout, steps);
      CallResult(w.query, closure, timeoutError)
        == (if w.interrupts == 1 then Err(timeoutError) else Ok(closure))
      && w.interrupts <= 1
      && forall s: Step | Enabled(w, timeout, s) :: s == Tick
  {
    InvHolds(timeout, steps);
  }

  // ----- How soon the timer fires -----

  /** The ticks of the clock since the timer began to wait. */
  function TicksWaited(steps: seq<Step>): nat {
    if steps == [] then 0 else
    var before, last := TicksWaited(steps[..|steps| - 1]), steps[|steps| - 1];
    if last.CheckDone? then 0 else if last.Tick? then before + 1 else before
  }

  ghost predicate WaitedOut(w: World, timeout: nat, ticks: nat) {
    match w.timer
    case Waits(since) => w.clock == since + ticks
    case Reacquires(late) => late ==> ticks >= timeout
    case Decides(late) => late ==> ticks >= timeout
    case Interrupts => ticks >= timeout
    case Exited(fired) => fired ==> ticks >= timeout
    case _ => true
  }

  /** In every run a wait that is over its limit, and any interrupt, came after that many ticks of waiting. */
  lemma {:induction false} NeverTooSoon(timeout: nat, steps: seq<Step>)
    requires IsRun(timeout, steps)
    ensures WaitedOut(After(timeout, steps), timeout, TicksWaited(steps))
    ensures After(timeout, steps).interrupts > 0 ==> TicksWaited(steps) >= timeout
  {
    InvHolds(timeout, steps);
    if steps != [] {
      NeverTooSoon(timeout, steps[..|steps| - 1]);
    }
  }

  // ----- When the timer fires -----

  /** The wait ended past its time limit. */
  ghost predicate WokeLate(steps: seq<Step>) {
    exists i :: 0 <= i < |steps| && steps[i].WakeTimer? && steps[i].late
  }

  /** The timer had the lock back before the query thread set the flag. */
  ghost predicate RelockedFirst(steps: seq<Step>) {
    exists i :: 0 <= i < |steps| && steps[i] == RelockTimer && SetDone !in steps[..i]
  }

  ghost predicate WokeSpuriously(steps: seq<Step>) {
    exists i :: 0 <= i < |steps| && steps[i].WakeTimer? && steps[i].why.Spurious?
  }

  /** What the timer's program point says about the schedule so far. */
  ghost predicate ScheduleRead(t: TimerPoint, done: bool, steps: seq<Step>) {
    && (done <==> SetDone in steps)
    && (match t
        case Reacquires(late) => (WokeLate(steps) <==> late) && !RelockedFirst(steps)
        case Decides(late) => (WokeLate(steps) <==> late) && (RelockedFirst(steps) <==> !done)
        case Interrupts => WokeLate(steps) && RelockedFirst(steps) && !done
        case Exited(fired) => fired <==> WokeLate(steps) && RelockedFirst(steps)
        case _ => !WokeLate(steps) && !RelockedFirst(steps) && !WokeSpuriously(steps))
    && (WokeSpuriously(steps) ==> !WokeLate(steps))
  }

  /** One step adds to the schedule's wake-ups and relocks only what it is itself. */
  lemma ScheduleGrows(before: seq<Step>, s: Step)
    ensures WokeLate(before + [s]) <==> WokeLate(before) || (s.WakeTimer? && s.late)
    ensures WokeSpuriously(before + [s]) <==> WokeSpuriously(before) || (s.WakeTimer? && s.why.Spurious?)
    ensures RelockedFirst(before + [s]) <==> RelockedFirst(before) || (s == RelockTimer && SetDone !in before)
    ensures SetDone in before + [s] <==> SetDone in before || s == SetDone
  {
    var steps, n := before + [s], |before|;
    assert steps[n] == s && steps[..n] == before;
    assert forall i | 0 <= i < n :: steps[i] == before[i] && steps[..i] == before[..i];
    if WokeLate(before) {
      var i :| 0 <= i < n && before[i].WakeTimer? && before[i].late;
      assert steps[i].WakeTimer? && steps[i].late;
    }
    if WokeSpuriously(before) {
      var i :| 0 <= i < n && before[i].WakeTimer? && before[i].why.Spurious?;
      assert steps[i].WakeTimer? && steps[i].why.Spurious?;
    }
    if RelockedFirst(before) {
      var i :| 0 <= i < n && before[i] == RelockTimer && SetDone !in before[..i];
      assert steps[i] == RelockTimer && SetDone !in steps[..i];
    }
  }

  lemma ScheduleStep(w: World, timeout: nat, before: seq<Step>, s: Step)
    requires Inv(w) && Enabled(w, timeout, s) && ScheduleRead(w.timer, w.done, before)
    ensures ScheduleRead(Next(w, timeout, s).timer, Next(w, timeout, s).done, before + [s])
  {
    ScheduleGrows(before, s);
    hide WokeLate, RelockedFirst, WokeSpuriously;
  }

  /** In every run the timer's program point is the one its schedule calls for. */
  lemma {:induction false} FiringMatchesSchedule(timeout: nat, steps: seq<Step>)
    requires IsRun(timeout, steps)
    ensures ScheduleRead(After(timeout, steps).timer, After(timeout, steps).done, steps)
  {
    if steps != [] {
      var before, s := steps[..|steps| - 1], steps[|steps| - 1];
      FiringMatchesSchedule(timeout, before);
      InvHolds(timeout, before);
      ScheduleStep(After(timeout, before), timeout, before, s);
      assert before + [s] == steps;
    }
  }

  /**
   The exact condition for a returned call to report a timeout, read off the schedule: the
   wait ended past its limit, and the timer had the lock back before the flag was set.
   */
  lemma TimesOutExactlyWhen(timeout: nat, steps: seq<Step>)
    requires IsRun(timeout, steps) && After(timeout, steps).query.Returned?
    ensures After(timeout, steps).query.timedOut <==> WokeLate(steps) && RelockedFirst(steps)
  {
    InvHolds(timeout, steps);
    FiringMatchesSchedule(timeout, steps);
  }

  /** One spurious wake-up disarms the timer for the rest of the run: the wait is not in a loop. */
  lemma SpuriousWakeupDisarms(timeout: nat, steps: seq<Step>)
    requires IsRun(timeout, steps) && WokeSpuriously(steps)
    ensures After(timeout, steps).interrupts == 0 && !After(timeout, steps).timer.Interrupts?
  {
    InvHolds(timeout, steps);
    FiringMatchesSchedule(timeout, steps);
  }

  /** A wait that ends while the closure still runs ended for its time limit, unless spuriously. */
  ghost predicate HonestWait(w: World) {
    && (w.timer.Reacquires? && !w.timer.timedOut ==> w.done)
    && (w.timer.Decides? && !w.timer.timedOut ==> w.done)
    && (w.timer == Exited(false) ==> w.done)
  }

  lemma NoSilentExit(w: World)
    requires Inv(w) && HonestWait(w)
    ensures w.timer.Exited? && !w.done ==> w.interrupts == 1
  {
  }

  lemma HonestStep(w: World, timeout: nat, s: Step)
    requires Inv(w) && HonestWait(w) && Enabled(w, timeout, s) && (s.WakeTimer? ==> !s.why.Spurious?)
    ensures HonestWait(Next(w, timeout, s))
  {
  }

  /**
   Without spurious wake-ups the timer gives up only after the flag is set: a closure still
   running when the timer exits has been interrupted.
   */
  lemma {:induction false} OverlongIsInterrupted(timeout: nat, steps: seq<Step>)
    requires IsRun(timeout, steps) && !WokeSpuriously(steps)
    ensures HonestWait(After(timeout, steps))
    ensures After(timeout, steps).timer.Exited? && !After(timeout, steps).done
            ==> After(timeout, steps).interrupts == 1
  {
    InvHolds(timeout, steps);
    if steps != [] {
      hide WokeSpuriously, Inv, HonestWait;
      var before, s := steps[..|steps| - 1], steps[|steps| - 1];
      assert before + [s] == steps;
      ScheduleGrows(before, s);
      OverlongIsInterrupted(timeout, before);
      InvHolds(timeout, before);
      HonestStep(After(timeout, before), timeout, s);
    }
    assert HonestWait(After(timeout, steps));
    NoSilentExit(After(timeout, steps));
  }

  /**
   A timer that has given up while the closure still runs did so uninterrupted exactly if
   its wait ended spuriously.
   */
  lemma UninterruptedExactlyWhen(timeout: nat, steps: seq<Step>)
    requires IsRun(timeout, steps) && After(timeout, steps).timer.Exited? && !After(timeout, steps).done
    ensures After(timeout, steps).interrupts == 0 <==> WokeSpuriously(steps)
  {
    if WokeSpuriously(steps) {
      SpuriousWakeupDisarms(timeout, steps);
    } else {
      OverlongIsInterrupted(timeout, steps);
    }
  }

  /** The steps of the timer thread, its wait ended by its time limit. */
  predicate OwnStep(s: Step) {
    s in {LockTimer, CheckDone, WakeTimer(TimedOut, true), RelockTimer, Decide, Interrupt}
  }

  /**
   While the closure runs on past the limit, the timer thread can always move without being
   notified or woken spuriously, until it has exited; `StepsLeft` bounds how often.
   */
  lemma OverlongTimerProceeds(timeout: nat, steps: seq<Step>)
    requires IsRun(timeout, steps) && After(timeout, steps).query.InClosure? && !After(timeout, steps).timer.Exited?
    requires var w := After(timeout, steps); w.timer.Waits? ==> w.clock >= w.timer.since + timeout
    ensures var w := After(timeout, steps); exists s: Step :: OwnStep(s) && Enabled(w, timeout, s)
  {
    InvHolds(timeout, steps);
    var w := After(timeout, steps);
    var s := match w.timer
      case Spawned => LockTimer
      case ChecksDone => CheckDone
      case Waits(_) => WakeTimer(TimedOut, true)
      case Reacquires(_) => RelockTimer
      case Decides(_) => Decide
      case Interrupts => Interrupt;
    assert OwnStep(s) && Enabled(w, timeout, s);
  }

  /** Such a run exists: the timer has given up while the closure still runs. */
  lemma SpuriousRunExists(timeout: nat)
    ensures var steps := [LockTimer, CheckDone, WakeTimer(Spurious, false), RelockTimer, Decide];
      && IsRun(timeout, steps) && WokeSpuriously(steps)
      && After(timeout, steps).timer == Exited(false) && After(timeout, steps).query.InClosure?
  {
    var s := [LockTimer, CheckDone, WakeTimer(Spurious, false), RelockTimer, Decide];
    hide IsRun, After;
    RunStarts(timeout);
    var wake := WakeTimer(Spurious, false);
    RunGrows(timeout, [], LockTimer);
    RunGrows(timeout, [] + [LockTimer], CheckDone);
    RunGrows(timeout, [] + [LockTimer] + [CheckDone], wake);
    RunGrows(timeout, [] + [LockTimer] + [CheckDone] + [wake], RelockTimer);
    RunGrows(timeout, [] + [LockTimer] + [CheckDone] + [wake] + [RelockTimer], Decide);
    assert s == [] + [LockTimer] + [CheckDone] + [wake] + [RelockTimer] + [Decide];
    assert s[2].WakeTimer? && s[2].why.Spurious?;
  }

  lemma RunStarts(timeout: nat)
    ensures IsRun(timeout, []) && After(timeout, []) == START
  {
  }

  lemma RunGrows(timeout: nat, before: seq<Step>, s: Step)
    requires IsRun(timeout, before) && Enabled(After(timeout, before), timeout, s)
    ensures IsRun(timeout, before + [s]) && After(timeout, before + [s]) == Next(After(timeout, before), timeout, s)
  {
    assert (before + [s])[..|before|] == before;
  }

  /** A timer that waits for so many ticks while the closure runs. */
  function WaitingRun(ticks: nat): seq<Step> {
    if ticks == 0 then [] + [LockTimer] + [CheckDone] else WaitingRun(ticks - 1) + [Tick]
  }

  lemma {:induction false} WaitingRunExists(timeout: nat, ticks: nat)
    ensures IsRun(timeout, WaitingRun(ticks))
    ensures After(timeout, WaitingRun(ticks)) == World(InClosure, Waits(0), Free, false, false, 0, ticks)
  {
    hide IsRun, After;
    if ticks == 0 {
      RunStarts(timeout);
      RunGrows(timeout, [], LockTimer);
      RunGrows(timeout, [] + [LockTimer], CheckDone);
    } else {
      WaitingRunExists(timeout, ticks - 1);
      RunGrows(timeout, WaitingRun(ticks - 1), Tick);
    }
  }

  /** For every limit there is a run in which the timer waits it out and the call returns the time-out. */
  lemma TimeoutRunExists(timeout: nat)
    ensures var steps := WaitingRun(timeout) + [WakeTimer(TimedOut, true)] + [RelockTimer] + [Decide] + [Interrupt];
      && IsRun(timeout, steps)
      && After(timeout, steps) == World(InClosure, Exited(true), Free, false, false, 1, timeout)
      && var returned := steps + [FinishClosure] + [LockQuery] + [SetDone] + [Notify] + [Join];
      && IsRun(timeout, returned)
      && After(timeout, returned) == World(Returned(true), Exited(true), Free, true, false, 1, timeout)
  {
    hide IsRun, After;
    WaitingRunExists(timeout, timeout);
    var s := WaitingRun(timeout);
    RunGrows(timeout, s, WakeTimer(TimedOut, true));
    s := s + [WakeTimer(TimedOut, true)];
    RunGrows(timeout, s, RelockTimer);
    s := s + [RelockTimer];
    RunGrows(timeout, s, Decide);
    s := s + [Decide];
    RunGrows(timeout, s, Interrupt);
    s := s + [Interrupt];
    RunGrows(timeout, s, FinishClosure);
    s := s + [FinishClosure];
    RunGrows(timeout, s, LockQuery);
    s := s + [LockQuery];
    RunGrows(timeout, s, SetDone);
    s := s + [SetDone];
    RunGrows(timeout, s, Notify);
    RunGrows(timeout, s + [Notify], Join);
  }

  // ----- The call returns -----

  /** How many more steps other than clock ticks either thread can take. */
  function StepsLeft(w: World): nat {
    (match w.query
     case InClosure => 5 case WantsLock => 4 case SetsDone => 3
     case Notifies => 2 case Joins => 1 case Returned(_) => 0) +
    (match w.timer
     case Spawned => 6 case ChecksDone => 5 case Waits(_) => 4
     case Reacquires(_) => 3 case Decides(_) => 2 case Interrupts => 1 case Exited(_) => 0)
  }

  /**
   Every step but a tick brings the call closer to its return, and once the closure has
   returned some such step is always enabled without waiting for the time limit or a
   spurious wake-up: the timer is always released, and the join completes.
   */
  lemma JoinCompletes(timeout: nat, steps: seq<Step>)
    requires IsRun(timeout, steps)
    ensures var w := After(timeout, steps);
      && (forall s: Step | Enabled(w, timeout, s) && s != Tick :: StepsLeft(Next(w, timeout, s)) < StepsLeft(w))
      && (!w.query.InClosure? && !w.query.Returned? ==>
            exists s: Step :: Enabled(w, timeout, s) && s != Tick
                              && (s.WakeTimer? ==> s.why.Notified? && !s.late))
  {
    InvHolds(timeout, steps);
    var w := After(timeout, steps);
    if !w.query.InClosure? && !w.query.Returned? {
      var s :=
        if w.timer.ChecksDone? then CheckDone
        else if w.timer.Decides? then Decide
        else if w.timer.Interrupts? then Interrupt
        else match w.query
             case WantsLock => LockQuery
             case SetsDone => SetDone
             case Notifies => Notify
             case _ =>
               if w.timer.Spawned? then LockTimer
               else if w.timer.Waits? then WakeTimer(Notified, false)
               else if w.timer.Reacquires? then RelockTimer
               else Join;
      assert Enabled(w, timeout, s) && s != Tick && (s.WakeTimer? ==> s.why.Notified? && !s.late);
    }
  }
}
