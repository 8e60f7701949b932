/**
 Query admission control (`src/admission_control.rs`).

 `World` is the controller seen by all its threads at once. Each `Step` is what one
 thread does while it holds the mutex once, so a sequence of steps is an interleaving;
 a waiter may wake at any step, whether notified, timed out or spuriously.
 `AdmissionController` is the object itself, with the wait loop of one caller.
 */
module Admission {
  import opened BasicTypes

  datatype QueryClass = Cheap | Heavy

  datatype Capacities = Capacities(cheap: nat, heavy: nat) {
    function Of(class_: QueryClass): nat {
      if class_.Cheap? then cheap else heavy
    }
  }

  function SaturatingSub(a: nat, b: nat): nat {
    if a < b then 0 else a - b
  }

  function Min(a: nat, b: nat): nat { if a <= b then a else b }
  function Max(a: nat, b: nat): nat { if a <= b then b else a }

  /** The two fixed capacities derived from the configuration. */
  function NewCapacities(concurrency: nat, cheapCapacity: nat): Capacities {
    var cheap := Max(Min(cheapCapacity, SaturatingSub(concurrency, 1)), 1);
    Capacities(cheap, Max(SaturatingSub(concurrency, cheap), 1))
  }

  /** The accepted configurations: at least one slot is left for heavy queries. */
  predicate ValidConfig(concurrency: nat, cheapCapacity: nat) {
    0 < cheapCapacity < concurrency
  }

  /**
   Both classes always get a slot. The two capacities add up to the configured concurrency
   exactly when that is at least two; with less, one slot each is more than was asked for.
   */
  lemma CapacitiesSplitConcurrency(concurrency: nat, cheapCapacity: nat)
    ensures var c := NewCapacities(concurrency, cheapCapacity);
      && c.cheap >= 1 && c.heavy >= 1
      && (c.cheap + c.heavy == concurrency <==> concurrency >= 2)
      && c.cheap + c.heavy >= concurrency
      && (ValidConfig(concurrency, cheapCapacity) ==>
            c.cheap == cheapCapacity && c.heavy == concurrency - cheapCapacity)
      && (cheapCapacity == 0 ==> c.cheap == 1)
      && (cheapCapacity >= concurrency ==> c.heavy == 1)
  {
  }

  // ----- All threads at once -----

  type ThreadId = nat

  /** A reservation attempt waits for its class until its deadline; a guard holds a slot. */
  datatype Thread = Waiting(class_: QueryClass, deadline: int) | Holding(class_: QueryClass)

  datatype World = World(
    cheapActive: nat, heavyActive: nat, rejections: nat,
    clock: int, threads: map<ThreadId, Thread>)
  {
    function Active(class_: QueryClass): nat {
      if class_.Cheap? then cheapActive else heavyActive
    }
  }

  datatype Step =
    | Arrive(t: ThreadId, class_: QueryClass, maxWait: nat, start: int, now: int)  // lock, first look
    | Wake(t: ThreadId, now: int)                                                  // lock again, look again
    | DropGuard(t: ThreadId)

  datatype Verdict = Admitted | Rejected | KeepsWaiting

  /** One turn of the reservation loop under the lock. */
  function Look(w: World, caps: Capacities, class_: QueryClass, zeroWait: bool, deadline: int, now: int): Verdict {
    if w.Active(class_) < caps.Of(class_) then Admitted
    else if zeroWait || now >= deadline then Rejected
    else KeepsWaiting
  }

  function WithActive(w: World, class_: QueryClass, n: nat): World {
    if class_.Cheap? then w.(cheapActive := n) else w.(heavyActive := n)
  }

  function Conclude(w: World, t: ThreadId, class_: QueryClass, deadline: int, now: int, v: Verdict): World {
    match v
    case Admitted =>
      WithActive(w, class_, w.Active(class_) + 1).(threads := w.threads[t := Holding(class_)], clock := now)
    case Rejected => w.(rejections := w.rejections + 1, threads := w.threads - {t}, clock := now)
    case KeepsWaiting => w.(threads := w.threads[t := Waiting(class_, deadline)], clock := now)
  }

  predicate Enabled(w: World, s: Step) {
    match s
    case Arrive(t, _, _, start, now) => t !in w.threads && now >= start >= w.clock
    case Wake(t, now) => t in w.threads && w.threads[t].Waiting? && now >= w.clock
    case DropGuard(t) => t in w.threads && w.threads[t].Holding?
  }

  function VerdictOf(w: World, caps: Capacities, s: Step): Verdict
    requires Enabled(w, s) && !s.DropGuard?
  {
    match s
    case Arrive(_, class_, maxWait, start, now) => Look(w, caps, class_, maxWait == 0, start + maxWait, now)
    case Wake(t, now) => Look(w, caps, w.threads[t].class_, false, w.threads[t].deadline, now)
  }

  function ClassOf(w: World, s: Step): QueryClass
    requires Enabled(w, s)
  {
    if s.Arrive? then s.class_ else w.threads[s.t].class_
  }

  function Next(w: World, caps: Capacities, s: Step): World
    requires Enabled(w, s)
  {
    match s
    case Arrive(t, class_, maxWait, start, now) =>
      Conclude(w, t, class_, start + maxWait, now, VerdictOf(w, caps, s))
    case Wake(t, now) =>
      Conclude(w, t, w.threads[t].class_, w.threads[t].deadline, now, VerdictOf(w, caps, s))
    case DropGuard(t) =>
      var class_ := w.threads[t].class_;
      WithActive(w, class_, SaturatingSub(w.Active(class_), 1)).(threads := w.threads - {t})
  }

  const EMPTY_WORLD := World(0, 0, 0, 0, map[])

  /** A run is a sequence of steps, each enabled where it is taken. */
  ghost predicate IsRun(caps: Capacities, steps: seq<Step>)
    decreases |steps|, 0
  {
    steps == [] ||
    var before := steps[..|steps| - 1];
    IsRun(caps, before) && Enabled(After(caps, before), steps[|steps| - 1])
  }

  ghost function After(caps: Capacities, steps: seq<Step>): World
    requires IsRun(caps, steps)
    decreases |steps|, 1
  {
    if steps == [] then EMPTY_WORLD else
    var before := steps[..|steps| - 1];
    Next(After(caps, before), caps, steps[|steps| - 1])
  }

  ghost function Guards(w: World, class_: QueryClass): set<ThreadId> {
    set t | t in w.threads && w.threads[t] == Holding(class_)
  }

  lemma NextGuards(w: World, caps: Capacities, s: Step, c: QueryClass)
    requires Enabled(w, s)
    ensures s.t in Guards(w, c) <==> s.DropGuard? && ClassOf(w, s) == c
    ensures Guards(Next(w, caps, s), c) ==
      if ClassOf(w, s) != c then Guards(w, c)
      else if s.DropGuard? then Guards(w, c) - {s.t}
      else if VerdictOf(w, caps, s).Admitted? then Guards(w, c) + {s.t}
      else Guards(w, c)
  {
    var w' := Next(w, caps, s);
    assert forall t | t != s.t :: t in w.threads <==> t in w'.threads;
    assert forall t | t != s.t && t in w.threads :: w.threads[t] == w'.threads[t];
  }

  ghost predicate ClassInv(w: World, caps: Capacities, c: QueryClass) {
    |Guards(w, c)| == w.Active(c) <= caps.Of(c)
  }

  ghost predicate Inv(w: World, caps: Capacities) {
    ClassInv(w, caps, Cheap) && ClassInv(w, caps, Heavy)
  }

  lemma NextActive(w: World, caps: Capacities, s: Step, c: QueryClass)
    requires Enabled(w, s)
    ensures Next(w, caps, s).Active(c) ==
      if ClassOf(w, s) != c then w.Active(c)
      else if s.DropGuard? then SaturatingSub(w.Active(c), 1)
      else if VerdictOf(w, caps, s).Admitted? then w.Active(c) + 1
      else w.Active(c)
    ensures !s.DropGuard? && ClassOf(w, s) == c && VerdictOf(w, caps, s).Admitted? ==> w.Active(c) < caps.Of(c)
  {
  }

  lemma NextKeepsClassInv(w: World, caps: Capacities, s: Step, c: QueryClass)
    requires ClassInv(w, caps, c) && Enabled(w, s)
    ensures ClassInv(Next(w, caps, s), caps, c)
  {
    NextGuards(w, caps, s, c);
    NextActive(w, caps, s, c);
    hide Guards, Next, VerdictOf, ClassOf;
    var g, g' := Guards(w, c), Guards(Next(w, caps, s), c);
    if s.DropGuard? && ClassOf(w, s) == c {
      assert s.t in g && |g'| == |g| - 1;
    } else if !s.DropGuard? && ClassOf(w, s) == c && VerdictOf(w, caps, s).Admitted? {
      assert s.t !in g && |g'| == |g| + 1;
    }
  }

  /**
   In every interleaving of arrivals, wake-ups and guard drops, each class's active count
   is its number of live guards and never exceeds the class's capacity.
   */
  lemma {:induction false} ActiveIsLiveGuards(caps: Capacities, steps: seq<Step>)
    requires IsRun(caps, steps)
    ensures Inv(After(caps, steps), caps)
  {
    if steps == [] {
      assert Guards(EMPTY_WORLD, Cheap) == {} && Guards(EMPTY_WORLD, Heavy) == {};
    } else {
      var before, last := steps[..|steps| - 1], steps[|steps| - 1];
      ActiveIsLiveGuards(caps, before);
      NextKeepsClassInv(After(caps, before), caps, last, Cheap);
      NextKeepsClassInv(After(caps, before), caps, last, Heavy);
    }
  }

  /** With the configured capacities, at most `concurrency` queries run at any time. */
  lemma RunningNeverExceedsConcurrency(concurrency: nat, cheapCapacity: nat, steps: seq<Step>)
    requires concurrency >= 2
    requires IsRun(NewCapacities(concurrency, cheapCapacity), steps)
    ensures var w := After(NewCapacities(concurrency, cheapCapacity), steps);
      |Guards(w, Cheap) + Guards(w, Heavy)| == w.cheapActive + w.heavyActive <= concurrency
  {
    var caps := NewCapacities(concurrency, cheapCapacity);
    ActiveIsLiveGuards(caps, steps);
    CapacitiesSplitConcurrency(concurrency, cheapCapacity);
    var w := After(caps, steps);
    assert Guards(w, Cheap) !! Guards(w, Heavy);
    assert |Guards(w, Cheap)| == w.Active(Cheap) && |Guards(w, Heavy)| == w.Active(Heavy);
  }

  ghost predicate Rejects(caps: Capacities, before: seq<Step>, s: Step)
    requires IsRun(caps, before) && Enabled(After(caps, before), s)
  {
    !s.DropGuard? && VerdictOf(After(caps, before), caps, s).Rejected?
  }

  ghost predicate Admits(caps: Capacities, before: seq<Step>, s: Step)
    requires IsRun(caps, before) && Enabled(After(caps, before), s)
  {
    !s.DropGuard? && VerdictOf(After(caps, before), caps, s).Admitted?
  }

  /**
   Whatever step of a run rejects a reservation, at that moment every slot of its class is
   held by a live guard, and, unless the caller asked for no wait, its deadline has passed.
   A wake-up after the deadline still gets the slot if one is free.
   */
  lemma RejectedOnlyWhenFull(caps: Capacities, before: seq<Step>, s: Step)
    requires IsRun(caps, before) && Enabled(After(caps, before), s) && !s.DropGuard?
    ensures var w, c := After(caps, before), ClassOf(After(caps, before), s);
      && (Rejects(caps, before, s) ==>
            && |Guards(w, c)| == caps.Of(c)
            && (s.Wake? ==> s.now >= w.threads[s.t].deadline)
            && (s.Arrive? ==> s.maxWait == 0 || s.now >= s.start + s.maxWait))
      && (Admits(caps, before, s) <==> |Guards(w, c)| < caps.Of(c))
  {
    ActiveIsLiveGuards(caps, before);
    hide After, Guards, IsRun;
  }

  /** The saturating decrement of a dropped guard never saturates: it frees exactly one slot. */
  lemma DropFreesOneSlot(caps: Capacities, before: seq<Step>, t: ThreadId)
    requires IsRun(caps, before) && Enabled(After(caps, before), DropGuard(t))
    ensures var w := After(caps, before); var w', c := Next(w, caps, DropGuard(t)), w.threads[t].class_;
      && w.Active(c) >= 1 && w'.Active(c) == w.Active(c) - 1
      && t in Guards(w, c) && Guards(w', c) == Guards(w, c) - {t}
      && (forall other: QueryClass | other != c :: w'.Active(other) == w.Active(other))
  {
    ActiveIsLiveGuards(caps, before);
    NextGuards(After(caps, before), caps, DropGuard(t), After(caps, before).threads[t].class_);
  }

  ghost function Rejections(caps: Capacities, steps: seq<Step>): nat
    requires IsRun(caps, steps)
  {
    if steps == [] then 0 else
    var before, last := steps[..|steps| - 1], steps[|steps| - 1];
    Rejections(caps, before) + if Rejects(caps, before, last) then 1 else 0
  }

  /** Admissions of a class minus its dropped guards. */
  ghost function NetAdmissions(caps: Capacities, steps: seq<Step>, c: QueryClass): int
    requires IsRun(caps, steps)
  {
    if steps == [] then 0 else
    var before, last := steps[..|steps| - 1], steps[|steps| - 1];
    NetAdmissions(caps, before, c) +
    if ClassOf(After(caps, before), last) != c then 0
    else if last.DropGuard? then -1
    else if Admits(caps, before, last) then 1 else 0
  }

  /** Over every run, rejections and slots are conserved: each counter equals what happened. */
  lemma {:induction false} CountersMatchHistory(caps: Capacities, steps: seq<Step>)
    requires IsRun(caps, steps)
    ensures After(caps, steps).rejections == Rejections(caps, steps)
    ensures forall c: QueryClass :: After(caps, steps).Active(c) == NetAdmissions(caps, steps, c)
  {
    if steps != [] {
      var before, last := steps[..|steps| - 1], steps[|steps| - 1];
      CountersMatchHistory(caps, before);
      ActiveIsLiveGuards(caps, before);
      if last.DropGuard? {
        DropFreesOneSlot(caps, before, last.t);
      }
    }
  }

  // ----- From an arrival to its verdict -----

  /** The arrival of the reservation a thread is at, or was at last. */
  function LastArrival(steps: seq<Step>, t: ThreadId): (a: Option<Step>)
    ensures a.Some? ==> a.value.Arrive? && a.value.t == t
  {
    if steps == [] then None else
    var last := steps[|steps| - 1];
    if last.Arrive? && last.t == t then Some(last) else LastArrival(steps[..|steps| - 1], t)
  }

  /** The thread waits or holds as the arrival asked: for its class, and until its own deadline. */
  predicate AsAsked(thread: Thread, a: Step)
    requires a.Arrive?
  {
    match thread
    case Waiting(class_, deadline) => class_ == a.class_ && deadline == a.start + a.maxWait && a.maxWait > 0
    case Holding(class_) => class_ == a.class_
  }

  ghost predicate ThreadsAsAsked(w: World, steps: seq<Step>) {
    forall t | t in w.threads :: LastArrival(steps, t).Some? && AsAsked(w.threads[t], LastArrival(steps, t).value)
  }

  /** In every run each thread still waits for, or holds, what it asked for when it arrived. */
  lemma {:induction false} ThreadsKeepTheirRequest(caps: Capacities, steps: seq<Step>)
    requires IsRun(caps, steps)
    ensures ThreadsAsAsked(After(caps, steps), steps)
  {
    if steps != [] {
      var before, last := steps[..|steps| - 1], steps[|steps| - 1];
      ThreadsKeepTheirRequest(caps, before);
      var w, w' := After(caps, before), After(caps, steps);
      forall t | t in w'.threads
        ensures LastArrival(steps, t).Some? && AsAsked(w'.threads[t], LastArrival(steps, t).value)
      {
        assert t != last.t ==> t in w.threads && w'.threads[t] == w.threads[t];
      }
    }
  }

  /** The arrival a look is about: its own, or that of the thread that woke. */
  function ArrivalOf(before: seq<Step>, s: Step): Option<Step>
    requires !s.DropGuard?
  {
    if s.Arrive? then Some(s) else LastArrival(before, s.t)
  }

  /** What one look does, given the arrival it is about and whether its class is full. */
  ghost predicate LookDoes(w: World, w': World, full: bool, a: Step, now: int)
    requires a.Arrive?
  {
    var late := a.maxWait == 0 || now >= a.start + a.maxWait;
    && w'.threads - {a.t} == w.threads - {a.t}
    && (a.t in w'.threads <==> !(full && late))
    && (!full ==> w'.threads[a.t] == Holding(a.class_))
    && (full && !late ==> w'.threads[a.t] == Waiting(a.class_, a.start + a.maxWait))
    && w'.rejections == w.rejections + (if full && late then 1 else 0)
    && (forall c: QueryClass :: w'.Active(c) == w.Active(c) + (if c == a.class_ && !full then 1 else 0))
    && w'.clock == now
  }

  /**
   Each look of a reservation, the first or a later one, is decided by what its thread asked
   for on arrival: it is admitted exactly if its class has a free slot, rejected exactly if
   the class is full and no wait was asked for or the deadline has come, and else goes on to
   wait. Nothing happens to any other thread.
   */
  lemma LookDecidedByArrival(caps: Capacities, before: seq<Step>, s: Step)
    requires IsRun(caps, before) && Enabled(After(caps, before), s) && !s.DropGuard?
    ensures var a := ArrivalOf(before, s);
      && a.Some? && a.value.t == s.t
      && var w := After(caps, before);
         LookDoes(w, Next(w, caps, s), |Guards(w, a.value.class_)| >= caps.Of(a.value.class_), a.value, s.now)
  {
    ThreadsKeepTheirRequest(caps, before);
    ActiveIsLiveGuards(caps, before);
    var w, a := After(caps, before), ArrivalOf(before, s).value;
    assert |Guards(w, Cheap)| == w.Active(Cheap) && |Guards(w, Heavy)| == w.Active(Heavy);
    OneLook(w, caps, s, a);
    hide After, Guards, IsRun, LastArrival, LookDoes, Next;
  }

  lemma OneLook(w: World, caps: Capacities, s: Step, a: Step)
    requires Enabled(w, s) && !s.DropGuard? && a.Arrive? && a.t == s.t
    requires if s.Arrive? then a == s else AsAsked(w.threads[s.t], a)
    ensures LookDoes(w, Next(w, caps, s), w.Active(a.class_) >= caps.Of(a.class_), a, s.now)
  {
    var w' := Next(w, caps, s);
    assert w'.threads - {a.t} == w.threads - {a.t};
  }

  // ----- The controller object -----

  /** A clock read that moves on between two waits. */
  ghost predicate Advances(clock: nat -> int) {
    forall j: nat, k: nat | j < k :: clock(j) < clock(k)
  }

  /** The counters a caller sees on its k-th look: its own first, then what others left after each wait. */
  function Seen(first: (nat, nat, nat), others: nat -> (nat, nat, nat), k: nat): (nat, nat, nat) {
    if k == 0 then first else others(k - 1)
  }

  /** What other threads leave is within the capacities. */
  ghost predicate LeaveWithin(others: nat -> (nat, nat, nat), caps: Capacities) {
    forall k: nat :: others(k).0 <= caps.cheap && others(k).1 <= caps.heavy
  }

  /** Every wait before the last of so many looks ended before the deadline. */
  ghost predicate InTime(clock: nat -> int, deadline: int, looks: nat) {
    forall k: nat | 1 <= k < looks :: clock(k) < deadline
  }

  lemma NoLooksYet(clock: nat -> int, deadline: int, first: (nat, nat, nat), others: nat -> (nat, nat, nat))
    ensures InTime(clock, deadline, 1) && Seen(first, others, 0) == first
  {
  }

  /** A look that found nothing before the deadline is followed by another, and the clock has moved on. */
  lemma OneMoreLook(caps: Capacities, clock: nat -> int, deadline: int, first: (nat, nat, nat),
                    others: nat -> (nat, nat, nat), looks: nat)
    requires Advances(clock) && LeaveWithin(others, caps) && InTime(clock, deadline, looks)
    requires looks > 0 && clock(looks) < deadline
    ensures InTime(clock, deadline, looks + 1) && clock(looks - 1) < clock(looks)
    ensures Seen(first, others, looks) == others(looks - 1)
    ensures others(looks - 1).0 <= caps.cheap && others(looks - 1).1 <= caps.heavy
  {
  }

  class AdmissionController {
    const caps: Capacities
    var cheapActive: nat
    var heavyActive: nat
    var rejectionsTotal: nat

    constructor (concurrency: nat, cheapCapacity: nat)
      ensures caps == NewCapacities(concurrency, cheapCapacity)
      ensures cheapActive == heavyActive == rejectionsTotal == 0
    {
      caps := NewCapacities(concurrency, cheapCapacity);
      cheapActive, heavyActive, rejectionsTotal := 0, 0, 0;
    }

    function Active(class_: QueryClass): nat
      reads this
    {
      if class_.Cheap? then cheapActive else heavyActive
    }

    ghost predicate WithinCapacity()
      reads this
    {
      cheapActive <= caps.cheap && heavyActive <= caps.heavy
    }

    method TryReserveLocked(class_: QueryClass) returns (reserved: bool)
      modifies `cheapActive, `heavyActive
      ensures reserved == (old(Active(class_)) < caps.Of(class_))
      ensures Active(class_) == old(Active(class_)) + (if reserved then 1 else 0)
      ensures forall c: QueryClass | c != class_ :: Active(c) == old(Active(c))
      ensures old(WithinCapacity()) ==> WithinCapacity()
    {
      match class_ {
        case Cheap =>
          reserved := cheapActive < caps.cheap;
          if reserved { cheapActive := cheapActive + 1; }
        case Heavy =>
          reserved := heavyActive < caps.heavy;
          if reserved { heavyActive := heavyActive + 1; }
      }
    }

    method RejectLocked()
      modifies `rejectionsTotal
      ensures rejectionsTotal == old(rejectionsTotal) + 1
    {
      rejectionsTotal := rejectionsTotal + 1;
    }

    /** Dropping a guard of the class. */
    method Release(class_: QueryClass)
      modifies `cheapActive, `heavyActive
      ensures Active(class_) == SaturatingSub(old(Active(class_)), 1)
      ensures forall c: QueryClass | c != class_ :: Active(c) == old(Active(c))
    {
      match class_ {
        case Cheap => cheapActive := SaturatingSub(cheapActive, 1);
        case Heavy => heavyActive := SaturatingSub(heavyActive, 1);
      }
    }

    /**
     The reservation loop of one caller. `clock(k)` is its k-th clock read, `others(k)` the
     counters it finds when it holds the lock again after its k-th wait. The loop ends
     because the clock moves on; `looks` counts its turns, and the last turn's counters
     decide: admitted if the class had a free slot then, rejected only if it had none and
     the caller would not or could no longer wait.
     */
    method ReserveWithWait(class_: QueryClass, maxWait: nat, clock: nat -> int, others: nat -> (nat, nat, nat))
      returns (admitted: bool, looks: nat)
      requires WithinCapacity() && Advances(clock) && LeaveWithin(others, caps)
      modifies `cheapActive, `heavyActive, `rejectionsTotal
      ensures WithinCapacity() && looks >= 1
      ensures var (cheap, heavy, rejections) :=
          Seen((old(cheapActive), old(heavyActive), old(rejectionsTotal)), others, looks - 1);
        var active := if class_.Cheap? then cheap else heavy;
        && admitted == (active < caps.Of(class_))
        && Active(class_) == active + (if admitted then 1 else 0)
        && rejectionsTotal == rejections + (if admitted then 0 else 1)
      ensures !admitted ==> maxWait == 0 || clock(looks) >= clock(0) + maxWait
      ensures InTime(clock, clock(0) + maxWait, looks) && (looks > 1 ==> maxWait > 0)
    {
      hide Advances, LeaveWithin, InTime, Seen;
      var deadline := clock(0) + maxWait;
      ghost var first := (cheapActive, heavyActive, rejectionsTotal);
      looks := 0;
      NoLooksYet(clock, deadline, first, others);
      while true
        invariant WithinCapacity()
        invariant looks > 0 ==> clock(looks) < deadline && maxWait > 0
        invariant InTime(clock, deadline, looks + 1)
        invariant (cheapActive, heavyActive, rejectionsTotal) == Seen(first, others, looks)
        decreases if looks == 0 then 1 else 0, deadline - clock(looks)
      {
        looks := looks + 1;
        admitted := TryReserveLocked(class_);
        if admitted {
          return;
        }
        if maxWait == 0 {
          RejectLocked();
          return;
        }
        var now := clock(looks);
        if now >= deadline {
          RejectLocked();
          return;
        }
        OneMoreLook(caps, clock, deadline, first, others, looks);
        // Waiting releases the lock; other threads leave these counters behind.
        cheapActive, heavyActive, rejectionsTotal := others(looks - 1).0, others(looks - 1).1, others(looks - 1).2;
      }
    }
  }
}
