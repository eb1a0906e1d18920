/** gputils/gp/utils/Runloop.cpp: the timer queue. Time is counted in ticks of the loop; timeouts arrive already divided
    by the loop's period. */
module Runloops {

  datatype Entry = Entry(target: int, timer: nat)

  datatype Dispatch = Dispatch(timer: nat, target: int, tick: int)

  /** chains is the number of run() continuations alive, each of them one pending tick; log is specification only. */
  datatype State = State(queue: seq<Entry>, ticks: int, chains: nat, log: seq<Dispatch>)

  datatype Action = Schedule(timer: nat, timeout: int) | Invalidate(timer: nat) | Tick

  const INITIAL := State([], 0, 0, [])

  /** Position of a timer, or the length of the queue. */
  function Position(q: seq<Entry>, timer: nat): (k: nat)
    ensures k <= |q|
    ensures k < |q| ==> q[k].timer == timer
    ensures forall i :: 0 <= i < k ==> q[i].timer != timer
  {
    if q == [] || q[0].timer == timer then 0 else 1 + Position(q[1..], timer)
  }

  predicate Queued(q: seq<Entry>, timer: nat) {
    Position(q, timer) < |q|
  }

  /** std::lower_bound on the target ticks: equal targets end up behind the new one. */
  function LowerBound(q: seq<Entry>, target: int): (k: nat)
    ensures k <= |q|
    ensures forall i :: 0 <= i < k ==> q[i].target < target
    ensures k < |q| ==> target <= q[k].target
  {
    if q == [] || target <= q[0].target then 0 else 1 + LowerBound(q[1..], target)
  }

  function Insert(q: seq<Entry>, e: Entry): seq<Entry> {
    var k := LowerBound(q, e.target);
    q[..k] + [e] + q[k..]
  }

  predicate Enabled(s: State, a: Action) {
    a.Tick? ==> s.chains > 0
  }

  function Apply(s: State, a: Action): State
    requires Enabled(s, a)
  {
    match a
    case Schedule(timer, timeout) =>
      if Queued(s.queue, timer) then s
      else s.(queue := Insert(s.queue, Entry(timeout + s.ticks, timer)), chains := s.chains + 1)
    case Invalidate(timer) =>
      var k := Position(s.queue, timer);
      if k < |s.queue| then s.(queue := s.queue[..k] + s.queue[k + 1..]) else s
    case Tick =>
      if s.queue == [] then s.(ticks := 0, chains := s.chains - 1)
      else
        var t := s.(ticks := s.ticks + 1);
        var front := s.queue[0];
        if front.target <= t.ticks then
          t.(queue := s.queue[1..], log := s.log + [Dispatch(front.timer, front.target, t.ticks)])
        else t
  }

  predicate Legal(s: State, run: seq<Action>)
    decreases |run|
  {
    run == [] || (Enabled(s, run[0]) && Legal(Apply(s, run[0]), run[1..]))
  }

  function Exec(s: State, run: seq<Action>): State
    requires Legal(s, run)
    decreases |run|
  {
    if run == [] then s else Exec(Apply(s, run[0]), run[1..])
  }

  // ---------- invariants over every run ----------

  ghost predicate Sorted(q: seq<Entry>) {
    forall i, j :: 0 <= i < j < |q| ==> q[i].target <= q[j].target
  }

  ghost predicate DistinctTimers(q: seq<Entry>) {
    forall i, j :: 0 <= i < j < |q| ==> q[i].timer != q[j].timer
  }

  /** The queue is sorted by target with distinct timers; a tick is pending whenever it is non-empty; nothing was
      dispatched before its target; with no tick pending the clock stands at zero. */
  ghost predicate Inv(s: State) {
    && Sorted(s.queue)
    && DistinctTimers(s.queue)
    && (s.queue != [] ==> s.chains > 0)
    && (s.chains == 0 ==> s.ticks == 0)
    && forall k :: 0 <= k < |s.log| ==> s.log[k].target <= s.log[k].tick
  }

  lemma InsertKeeps(q: seq<Entry>, e: Entry)
    requires Sorted(q) && DistinctTimers(q) && !Queued(q, e.timer)
    ensures Sorted(Insert(q, e)) && DistinctTimers(Insert(q, e))
  {
    var k := LowerBound(q, e.target);
    var r := Insert(q, e);
    forall i | 0 <= i < |r|
      ensures r[i] == if i < k then q[i] else if i == k then e else q[i - 1]
    {
    }
  }

  lemma RemoveKeeps(q: seq<Entry>, k: nat)
    requires Sorted(q) && DistinctTimers(q) && k < |q|
    ensures Sorted(q[..k] + q[k + 1..]) && DistinctTimers(q[..k] + q[k + 1..])
  {
  }

  lemma TailKeeps(q: seq<Entry>)
    requires Sorted(q) && DistinctTimers(q) && q != []
    ensures Sorted(q[1..]) && DistinctTimers(q[1..])
  {
  }

  lemma ScheduleStep(s: State, timer: nat, timeout: int)
    requires Inv(s)
    ensures Inv(Apply(s, Schedule(timer, timeout)))
  {
    hide Sorted, DistinctTimers, Insert, Position;
    if !Queued(s.queue, timer) {
      InsertKeeps(s.queue, Entry(timeout + s.ticks, timer));
    }
  }

  lemma InvalidateStep(s: State, timer: nat)
    requires Inv(s)
    ensures Inv(Apply(s, Invalidate(timer)))
  {
    hide Sorted, DistinctTimers;
    if Queued(s.queue, timer) {
      RemoveKeeps(s.queue, Position(s.queue, timer));
    }
  }

  lemma TickStep(s: State)
    requires Inv(s) && Enabled(s, Tick)
    ensures Inv(Apply(s, Tick)) && s.log <= Apply(s, Tick).log
  {
    hide Sorted, DistinctTimers;
    if s.queue != [] {
      TailKeeps(s.queue);
    }
  }

  lemma Step(s: State, a: Action)
    requires Inv(s) && Enabled(s, a)
    ensures Inv(Apply(s, a)) && s.log <= Apply(s, a).log
  {
    hide Sorted, DistinctTimers, Insert, Position, Inv;
    match a {
      case Schedule(timer, timeout) => ScheduleStep(s, timer, timeout);
      case Invalidate(timer) => InvalidateStep(s, timer);
      case Tick => TickStep(s);
    }
  }

  lemma {:induction false} InvHolds(s: State, run: seq<Action>)
    requires Inv(s) && Legal(s, run)
    ensures Inv(Exec(s, run)) && s.log <= Exec(s, run).log
    decreases |run|
  {
    if run != [] {
      Step(s, run[0]);
      InvHolds(Apply(s, run[0]), run[1..]);
    }
  }

  lemma Reachable(run: seq<Action>)
    requires Legal(INITIAL, run)
    ensures var s := Exec(INITIAL, run);
            && Sorted(s.queue) && DistinctTimers(s.queue)
            && (s.queue != [] ==> s.chains > 0) && (s.chains == 0 ==> s.ticks == 0)
            && forall k :: 0 <= k < |s.log| ==> s.log[k].target <= s.log[k].tick
  {
    InvHolds(INITIAL, run);
  }

  // ---------- the deadline ----------

  function Max(x: int, y: int): int { if x < y then y else x }

  /** The tick by which a queued timer is dispatched: its target, but not before the next tick, plus one tick for each
      timer ahead of it. */
  function Deadline(s: State, timer: nat): int
    requires Queued(s.queue, timer)
  {
    var k := Position(s.queue, timer);
    Max(s.queue[k].target, s.ticks + 1) + k
  }

  /** As long as the timer is queued, it is not invalidated and no timer is inserted ahead of it. */
  predicate Undisturbed(s: State, run: seq<Action>, timer: nat)
    requires Legal(s, run)
    decreases |run|
  {
    if run == [] || !Queued(s.queue, timer) then true else
      && (run[0].Schedule? && !Queued(s.queue, run[0].timer) ==>
            LowerBound(s.queue, run[0].timeout + s.ticks) > Position(s.queue, timer))
      && run[0] != Invalidate(timer)
      && Undisturbed(Apply(s, run[0]), run[1..], timer)
  }

  function Ticks(run: seq<Action>): nat {
    if run == [] then 0 else (if run[0] == Tick then 1 else 0) + Ticks(run[1..])
  }

  /** The timer was dispatched for that target, not before it and by that tick. */
  ghost predicate DispatchedBy(log: seq<Dispatch>, from: nat, timer: nat, target: int, tick: int) {
    exists k :: from <= k < |log| && log[k].timer == timer && log[k].target == target && target <= log[k].tick <= tick
  }

  function TargetOf(s: State, timer: nat): int
    requires Queued(s.queue, timer)
  {
    s.queue[Position(s.queue, timer)].target
  }

  lemma PositionIs(q: seq<Entry>, timer: nat, k: nat)
    requires k < |q| && q[k].timer == timer && DistinctTimers(q)
    ensures Position(q, timer) == k
  {
  }

  /** A step never moves the deadline of an undisturbed timer back, and a tick advances the clock by one. */
  ghost predicate DeadlineKept(s: State, t: State, timer: nat)
    requires Queued(s.queue, timer)
  {
    && (Queued(t.queue, timer) ==> Deadline(t, timer) <= Deadline(s, timer) && TargetOf(t, timer) == TargetOf(s, timer))
    && (!Queued(t.queue, timer) ==>
          && |t.log| == |s.log| + 1
          && t.log[|s.log|].timer == timer && t.log[|s.log|].target == TargetOf(s, timer)
          && TargetOf(s, timer) <= t.log[|s.log|].tick <= Deadline(s, timer))
  }

  lemma DeadlineAfterSchedule(s: State, other: nat, timeout: int, timer: nat)
    requires Inv(s) && Queued(s.queue, timer) && !Queued(s.queue, other)
    requires LowerBound(s.queue, timeout + s.ticks) > Position(s.queue, timer)
    ensures DeadlineKept(s, Apply(s, Schedule(other, timeout)), timer)
  {
    hide LowerBound, Position;
    var k := Position(s.queue, timer);
    var q := Insert(s.queue, Entry(timeout + s.ticks, other));
    InsertKeeps(s.queue, Entry(timeout + s.ticks, other));
    assert q[k] == s.queue[k];
    PositionIs(q, timer, k);
  }

  lemma DeadlineAfterInvalidate(s: State, other: nat, timer: nat)
    requires Inv(s) && Queued(s.queue, timer) && other != timer
    ensures DeadlineKept(s, Apply(s, Invalidate(other)), timer)
  {
    hide Position;
    var k := Position(s.queue, timer);
    var j := Position(s.queue, other);
    if j < |s.queue| {
      RemoveKeeps(s.queue, j);
      var q := s.queue[..j] + s.queue[j + 1..];
      var k' := if j < k then k - 1 else k;
      assert q[k'] == s.queue[k];
      PositionIs(q, timer, k');
    }
  }

  lemma DeadlineAfterTick(s: State, timer: nat)
    requires Inv(s) && Enabled(s, Tick) && Queued(s.queue, timer)
    ensures DeadlineKept(s, Apply(s, Tick), timer) && Apply(s, Tick).ticks == s.ticks + 1
  {
    hide Position;
    var k := Position(s.queue, timer);
    if s.queue[0].target <= s.ticks + 1 {
      TailKeeps(s.queue);
      if k > 0 {
        PositionIs(s.queue[1..], timer, k - 1);
      } else {
        NotQueuedAfterPop(s.queue, timer);
      }
    }
  }

  lemma DeadlineStep(s: State, a: Action, timer: nat)
    requires Inv(s) && Enabled(s, a) && Queued(s.queue, timer)
    requires a.Schedule? && !Queued(s.queue, a.timer) ==>
               LowerBound(s.queue, a.timeout + s.ticks) > Position(s.queue, timer)
    requires a != Invalidate(timer)
    ensures DeadlineKept(s, Apply(s, a), timer)
    ensures Apply(s, a).ticks == s.ticks + (if a == Tick then 1 else 0)
  {
    hide Inv, LowerBound, Position, Insert;
    match a {
      case Schedule(other, timeout) =>
        if !Queued(s.queue, other) {
          DeadlineAfterSchedule(s, other, timeout, timer);
        }
      case Invalidate(other) => DeadlineAfterInvalidate(s, other, timer);
      case Tick => DeadlineAfterTick(s, timer);
    }
  }

  lemma NotQueuedAfterPop(q: seq<Entry>, timer: nat)
    requires q != [] && q[0].timer == timer && DistinctTimers(q)
    ensures !Queued(q[1..], timer)
  {
  }

  /** An undisturbed timer is either dispatched by its deadline or still queued with the clock short of it. */
  lemma {:induction false} DispatchedInTime(s: State, run: seq<Action>, timer: nat)
    requires Inv(s) && Legal(s, run) && Queued(s.queue, timer) && Undisturbed(s, run, timer)
    ensures var t := Exec(s, run);
            || DispatchedBy(t.log, |s.log|, timer, TargetOf(s, timer), Deadline(s, timer))
            || (Queued(t.queue, timer) && t.ticks == s.ticks + Ticks(run) < Deadline(s, timer))
    decreases |run|
  {
    if run != [] {
      var a := run[0];
      var u := Apply(s, a);
      DeadlineStep(s, a, timer);
      Step(s, a);
      InvHolds(u, run[1..]);
      var log := Exec(s, run).log;
      if Queued(u.queue, timer) {
        DispatchedInTime(u, run[1..], timer);
        if DispatchedBy(log, |u.log|, timer, TargetOf(u, timer), Deadline(u, timer)) {
          var k :| |u.log| <= k < |log| && log[k].timer == timer && log[k].target == TargetOf(u, timer)
                   && TargetOf(u, timer) <= log[k].tick <= Deadline(u, timer);
          assert |s.log| <= k && log[k].tick <= Deadline(s, timer);
        }
      } else {
        assert log[|s.log|] == u.log[|s.log|];
      }
    }
  }

  /** Enough ticks force the dispatch. */
  lemma EventuallyDispatched(s: State, run: seq<Action>, timer: nat)
    requires Inv(s) && Legal(s, run) && Queued(s.queue, timer) && Undisturbed(s, run, timer)
    requires s.ticks + Ticks(run) >= Deadline(s, timer)
    ensures DispatchedBy(Exec(s, run).log, |s.log|, timer, TargetOf(s, timer), Deadline(s, timer))
  {
    DispatchedInTime(s, run, timer);
  }

  /** A timer scheduled with a timeout behind j earlier ones is dispatched no sooner than the timeout has passed, and by tick
      max(now + timeout, now + 1) + j, once that many ticks have come, if it is neither invalidated nor overtaken. */
  lemma ScheduledIsDispatchedOnTime(s: State, timer: nat, timeout: int, j: nat, run: seq<Action>)
    requires Inv(s) && !Queued(s.queue, timer) && j <= |s.queue|
    requires (forall i :: 0 <= i < j ==> s.queue[i].target < s.ticks + timeout)
             && (j < |s.queue| ==> s.ticks + timeout <= s.queue[j].target)
    requires var t := Apply(s, Schedule(timer, timeout));
             && Legal(t, run) && Queued(t.queue, timer) && Undisturbed(t, run, timer)
             && s.ticks + Ticks(run) >= Max(s.ticks + timeout, s.ticks + 1) + j
    ensures DispatchedBy(Exec(Apply(s, Schedule(timer, timeout)), run).log, |s.log|, timer,
                         s.ticks + timeout, Max(s.ticks + timeout, s.ticks + 1) + j)
  {
    hide Position;
    var t := Apply(s, Schedule(timer, timeout));
    ScheduleStep(s, timer, timeout);
    LowerBoundFound(s, timeout, j);
    assert t.queue[j] == Entry(s.ticks + timeout, timer);
    PositionIs(t.queue, timer, j);
    EventuallyDispatched(t, run, timer);
  }

  lemma LowerBoundFound(s: State, timeout: int, j: nat)
    requires Sorted(s.queue) && j <= |s.queue|
    requires (forall i :: 0 <= i < j ==> s.queue[i].target < s.ticks + timeout)
             && (j < |s.queue| ==> s.ticks + timeout <= s.queue[j].target)
    ensures LowerBound(s.queue, s.ticks + timeout) == j
  {
  }

  // ---------- invalidation ----------

  ghost predicate NotScheduled(run: seq<Action>, timer: nat) {
    forall i :: 0 <= i < |run| ==> !(run[i].Schedule? && run[i].timer == timer)
  }

  /** A timer that is not queued is not dispatched again until it is scheduled again. */
  lemma {:induction false} NotQueuedIsNotDispatched(s: State, timer: nat, run: seq<Action>)
    requires Inv(s) && !Queued(s.queue, timer) && Legal(s, run) && NotScheduled(run, timer)
    ensures s.log <= Exec(s, run).log
    ensures forall k :: |s.log| <= k < |Exec(s, run).log| ==> Exec(s, run).log[k].timer != timer
    decreases |run|
  {
    hide Position, Inv;
    if run != [] {
      var t, rest := Apply(s, run[0]), run[1..];
      Step(s, run[0]);
      StaysOut(s, run[0], timer);
      assert forall i :: 0 <= i < |rest| ==> rest[i] == run[i + 1];
      NotQueuedIsNotDispatched(t, timer, rest);
      var log := Exec(s, run).log;
      assert forall k :: |s.log| <= k < |t.log| ==> log[k] == t.log[k];
    }
  }

  lemma StaysOut(s: State, a: Action, timer: nat)
    requires Inv(s) && Enabled(s, a) && !Queued(s.queue, timer) && !(a.Schedule? && a.timer == timer)
    ensures !Queued(Apply(s, a).queue, timer)
    ensures forall k :: |s.log| <= k < |Apply(s, a).log| ==> Apply(s, a).log[k].timer != timer
  {
    hide LowerBound;
    assert forall i :: 0 <= i < |s.queue| ==> s.queue[i].timer != timer;
    var q := Apply(s, a).queue;
    forall i | 0 <= i < |q|
      ensures q[i].timer != timer
    {
    }
  }

  /** An invalidated timer is not dispatched until it is scheduled again. */
  lemma InvalidatedIsNotDispatched(s: State, timer: nat, run: seq<Action>)
    requires Inv(s) && Legal(Apply(s, Invalidate(timer)), run) && NotScheduled(run, timer)
    ensures var t := Apply(s, Invalidate(timer));
            t.log == s.log && forall k :: |s.log| <= k < |Exec(t, run).log| ==> Exec(t, run).log[k].timer != timer
  {
    hide Exec, Legal;
    var t := Apply(s, Invalidate(timer));
    InvalidateStep(s, timer);
    InvalidatedIsOut(s, timer);
    NotQueuedIsNotDispatched(t, timer, run);
  }

  lemma InvalidatedIsOut(s: State, timer: nat)
    requires DistinctTimers(s.queue)
    ensures !Queued(Apply(s, Invalidate(timer)).queue, timer)
  {
    var q := Apply(s, Invalidate(timer)).queue;
    forall i | 0 <= i < |q|
      ensures q[i].timer != timer
    {
    }
  }

  // ---------- the class ----------

  class Runloop {
    var queue: seq<Entry>
    var ticks: int
    ghost var chains: nat
    ghost var log: seq<Dispatch>

    ghost function Snapshot(): State
      reads this
    {
      State(queue, ticks, chains, log)
    }

    constructor ()
      ensures Snapshot() == INITIAL && Inv(Snapshot())
    {
      queue, ticks, chains, log := [], 0, 0, [];
    }

    method ScheduleTimer(timer: nat, timeout: int)
      requires Inv(Snapshot())
      modifies this
      ensures Snapshot() == Apply(old(Snapshot()), Schedule(timer, timeout)) && Inv(Snapshot())
    {
      hide Inv, Position, LowerBound;
      Step(Snapshot(), Schedule(timer, timeout));
      var i := 0;
      while i < |queue|
        invariant 0 <= i <= |queue|
        invariant forall k :: 0 <= k < i ==> queue[k].timer != timer
      {
        if queue[i].timer == timer {
          return;
        }
        i := i + 1;
      }
      var target := timeout + ticks;
      var at := 0;
      while at < |queue| && queue[at].target < target
        invariant 0 <= at <= |queue|
        invariant forall k :: 0 <= k < at ==> queue[k].target < target
      {
        at := at + 1;
      }
      queue := queue[..at] + [Entry(target, timer)] + queue[at..];
      chains := chains + 1;
    }

    method InvalidateTimer(timer: nat)
      requires Inv(Snapshot())
      modifies this
      ensures Snapshot() == Apply(old(Snapshot()), Invalidate(timer)) && Inv(Snapshot())
    {
      var i := 0;
      while i < |queue|
        invariant 0 <= i <= |queue| && queue == old(queue)
        invariant forall k :: 0 <= k < i ==> queue[k].timer != timer
      {
        if queue[i].timer == timer {
          queue := queue[..i] + queue[i + 1..];
          return;
        }
        i := i + 1;
      }
    }

    /** The continuation that run() posts to the worker queue after its sleep; the result is the dispatched timer. */
    method RunTick() returns (dispatched: seq<nat>)
      requires Inv(Snapshot()) && chains > 0
      modifies this
      ensures Snapshot() == Apply(old(Snapshot()), Tick) && Inv(Snapshot())
      ensures dispatched == if |log| > |old(log)| then [log[|old(log)|].timer] else []
    {
      dispatched := [];
      if |queue| == 0 {
        ticks := 0;
        chains := chains - 1;
        return;
      }
      ticks := ticks + 1;
      var closest := queue[0];
      if closest.target <= ticks {
        queue := queue[1..];
        log := log + [Dispatch(closest.timer, closest.target, ticks)];
        dispatched := [closest.timer];
      }
    }
  }
}
