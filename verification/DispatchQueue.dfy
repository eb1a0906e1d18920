/** gputils/gp/utils/DispatchQueue.cpp and Semaphore.h: any number of producer calls interleaved with the one worker
    thread. Every action below is one atomic step: a critical section, a semaphore operation, or a step of the worker's
    private deque. Histories (pushed, started, completed) are specification only. */
module DispatchQueues {
  import opened Options
  import Sequences

  /** id is the position at which the push took the mutex. */
  datatype Job = Job(id: nat, isSync: bool)

  /** A producer call, one per push: before its notify, waiting on its own semaphore, or returned. */
  datatype Call = Unnotified | Waiting | Returned

  /** The worker in maybeDispatchWorker: before the swap, at the loop test, inside work(), after it, after signalling a
      sync caller, and at the semaphore. */
  datatype Worker = AtSwap | Draining | Running | Ran | Signalled | AtWait

  /** nested is the push that the running job has made and not yet notified. */
  datatype State = State(
    jobs: seq<Job>,
    tempJobs: seq<Job>,
    count: nat,
    worker: Worker,
    nested: Option<nat>,
    calls: seq<Call>,
    signalled: set<nat>,
    pushed: seq<Job>,
    started: seq<Job>,
    completed: seq<Job>)

  /** NestedPush is an asyncForce from inside a running job; its notify is an ordinary Notify. A job may also call async
      or sync on its own queue: those run inline and leave the queue alone. */
  datatype Action =
    | Push(isSync: bool) | Notify(id: nat) | SyncReturn(id: nat)
    | NestedPush | Swap | Start | Finish | Signal | Pop | Done | Wake

  const INITIAL := State([], [], 0, AtSwap, None, [], {}, [], [], [])

  predicate Enabled(s: State, a: Action) {
    match a
    case Push(_) => true
    case Notify(id) => id < |s.calls| && s.calls[id] == Unnotified
    case SyncReturn(id) => id < |s.calls| && s.calls[id] == Waiting && id in s.signalled
    case NestedPush => s.worker == Running && s.nested == None
    case Swap => s.worker == AtSwap
    case Start => s.worker == Draining && s.tempJobs != []
    case Finish => s.worker == Running && s.nested == None
    case Signal => s.worker == Ran && s.tempJobs != []
    case Pop => s.worker == Signalled && s.tempJobs != []
    case Done => s.worker == Draining && s.tempJobs == []
    case Wake => s.worker == AtWait && s.count > 0
  }

  function PushJob(s: State, isSync: bool): State {
    var job := Job(|s.pushed|, isSync);
    s.(jobs := s.jobs + [job], pushed := s.pushed + [job], calls := s.calls + [Unnotified])
  }

  function Apply(s: State, a: Action): State
    requires Enabled(s, a)
  {
    match a
    case Push(isSync) => PushJob(s, isSync)
    case Notify(id) =>
      var isSync := id < |s.pushed| && s.pushed[id].isSync;
      s.(count := s.count + 1,
         calls := s.calls[id := if isSync then Waiting else Returned],
         nested := if s.nested == Some(id) then None else s.nested)
    case SyncReturn(id) => s.(calls := s.calls[id := Returned], signalled := s.signalled - {id})
    case NestedPush => PushJob(s, false).(nested := Some(|s.pushed|))
    case Swap => s.(tempJobs := s.jobs, jobs := [], worker := Draining)
    case Start => s.(started := s.started + [s.tempJobs[0]], worker := Running)
    case Finish => s.(completed := s.started, worker := Ran)
    case Signal =>
      s.(signalled := if s.tempJobs[0].isSync then s.signalled + {s.tempJobs[0].id} else s.signalled,
         worker := Signalled)
    case Pop => s.(tempJobs := s.tempJobs[1..], worker := Draining)
    case Done => s.(worker := AtWait)
    case Wake => s.(count := s.count - 1, worker := AtSwap)
  }

  // ---------- runs ----------

  predicate Legal(s: State, run: seq<Action>)
    decreases |run|
  {
    run == [] || (Enabled(s, run[0]) && Legal(Apply(s, run[0]), run[1..]))
  }

  function Exec(s: State, run: seq<Action>): State
    requires Legal(s, run)
    decreases |run|
  {
    if run == [] then s else Exec(Apply(s, run[0]), run[1..])
  }

  function UnnotifiedCalls(calls: seq<Call>): nat {
    if calls == [] then 0
    else (if calls[|calls| - 1] == Unnotified then 1 else 0) + UnnotifiedCalls(calls[..|calls| - 1])
  }

  lemma {:induction false} CallSettled(calls: seq<Call>, id: nat, c: Call)
    requires id < |calls| && c != Unnotified
    ensures UnnotifiedCalls(calls[id := c]) == UnnotifiedCalls(calls) - (if calls[id] == Unnotified then 1 else 0)
  {
    var n := |calls| - 1;
    if id == n {
      assert calls[id := c][..n] == calls[..n];
    } else {
      CallSettled(calls[..n], id, c);
      assert calls[id := c][..n] == calls[..n][id := c];
    }
  }

  lemma CallAdded(calls: seq<Call>)
    ensures UnnotifiedCalls(calls + [Unnotified]) == UnnotifiedCalls(calls) + 1
  {
    assert (calls + [Unnotified])[..|calls|] == calls;
  }

  // ---------- the invariant ----------

  predicate HoldsFront(s: State) {
    s.worker in {Running, Ran, Signalled}
  }

  /** The jobs not yet started, in the order they will be. */
  function Upcoming(s: State): seq<Job> {
    (if HoldsFront(s) && s.tempJobs != [] then s.tempJobs[1..] else s.tempJobs) + s.jobs
  }

  /** First in, first out: started jobs, then waiting _tempJobs, then _jobs, are the pushes in mutex order. */
  ghost predicate Fifo(s: State) {
    && s.started + Upcoming(s) == s.pushed
    && |s.calls| == |s.pushed|
    && (forall k :: 0 <= k < |s.pushed| ==> s.pushed[k].id == k)
    && (HoldsFront(s) ==> s.tempJobs != [] && s.started != [] && s.tempJobs[0] == s.started[|s.started| - 1])
    && (s.worker in {AtSwap, AtWait} ==> s.tempJobs == [])
    && s.completed == (if s.worker == Running then s.started[..|s.started| - 1] else s.started)
    && (s.nested.Some? ==> s.worker == Running && s.nested.value < |s.calls| && s.calls[s.nested.value] == Unnotified)
  }

  /** No lost wake-up: from the swap to the wait, every job pushed since is backed by a semaphore unit or by a producer
      that has yet to notify. */
  ghost predicate Backed(s: State) {
    s.worker != AtSwap ==> |s.jobs| <= s.count + UnnotifiedCalls(s.calls)
  }

  /** The worker has run job id and is past signalling its caller. */
  predicate PastSignal(s: State, id: nat) {
    id < |s.completed| && !(s.worker == Ran && id == |s.completed| - 1)
  }

  /** A sync call is signalled or has returned exactly when the worker is past signalling it. */
  ghost predicate SyncSafe(s: State) {
    && |s.calls| == |s.pushed|
    && (forall id :: 0 <= id < |s.calls| && s.pushed[id].isSync ==>
          (id in s.signalled || s.calls[id] == Returned <==> PastSignal(s, id)))
    && (forall id :: id in s.signalled ==> id < |s.calls| && s.pushed[id].isSync && s.calls[id] != Returned)
    && (forall id :: 0 <= id < |s.calls| && s.calls[id] == Waiting ==> s.pushed[id].isSync)
  }

  ghost predicate Inv(s: State) {
    Fifo(s) && Backed(s) && SyncSafe(s)
  }

  lemma FifoPush(s: State, a: Action)
    requires Fifo(s) && Enabled(s, a) && (a.Push? || a.NestedPush?)
    ensures Fifo(Apply(s, a))
  {
    var t := Apply(s, a);
    var job := t.pushed[|s.pushed|];
    assert Upcoming(t) == Upcoming(s) + [job];
    Sequences.Associative(s.started, Upcoming(s), [job]);
  }

  lemma FifoStart(s: State)
    requires Fifo(s) && Enabled(s, Start)
    ensures Fifo(Apply(s, Start))
  {
    var t := Apply(s, Start);
    assert Upcoming(s) == [s.tempJobs[0]] + Upcoming(t);
    Sequences.Associative(s.started, [s.tempJobs[0]], Upcoming(t));
    assert t.started[..|s.started|] == s.started;
  }

  lemma FifoOther(s: State, a: Action)
    requires Fifo(s) && Enabled(s, a) && !a.Push? && !a.NestedPush? && !a.Start?
    ensures Fifo(Apply(s, a))
  {
    assert Upcoming(Apply(s, a)) == Upcoming(s);
  }

  lemma FifoStep(s: State, a: Action)
    requires Fifo(s) && Enabled(s, a)
    ensures Fifo(Apply(s, a))
  {
    hide Fifo;
    if a.Push? || a.NestedPush? {
      FifoPush(s, a);
    } else if a.Start? {
      FifoStart(s);
    } else {
      FifoOther(s, a);
    }
  }

  lemma BackedStep(s: State, a: Action)
    requires Backed(s) && Enabled(s, a)
    ensures Backed(Apply(s, a))
  {
    match a {
      case Push(_) => CallAdded(s.calls);
      case NestedPush => CallAdded(s.calls);
      case Notify(id) => CallSettled(s.calls, id, Apply(s, a).calls[id]);
      case SyncReturn(id) => CallSettled(s.calls, id, Returned);
      case _ =>
    }
  }

  lemma FrontIsLastStarted(s: State)
    requires Fifo(s) && HoldsFront(s)
    ensures |s.started| <= |s.pushed| && s.tempJobs[0] == s.pushed[|s.started| - 1] && s.tempJobs[0].id == |s.started| - 1
  {
    assert s.pushed[|s.started| - 1] == s.started[|s.started| - 1];
  }

  lemma CompletedIsPrefix(s: State)
    requires Fifo(s)
    ensures s.completed <= s.started <= s.pushed
  {
  }

  lemma SyncSafeCall(s: State, a: Action)
    requires SyncSafe(s) && Enabled(s, a) && (a.Push? || a.NestedPush? || a.Notify? || a.SyncReturn?)
    requires |s.completed| <= |s.pushed|
    ensures SyncSafe(Apply(s, a))
  {
    var t := Apply(s, a);
    forall id | 0 <= id < |t.calls| && t.pushed[id].isSync
      ensures id in t.signalled || t.calls[id] == Returned <==> PastSignal(t, id)
    {
      if id < |s.calls| {
        assert t.pushed[id] == s.pushed[id];
      }
    }
  }

  lemma SyncSafeWorker(s: State, a: Action)
    requires Fifo(s) && SyncSafe(s) && Enabled(s, a) && !(a.Push? || a.NestedPush? || a.Notify? || a.SyncReturn?)
    ensures SyncSafe(Apply(s, a))
  {
    if HoldsFront(s) {
      FrontIsLastStarted(s);
    }
  }

  lemma SyncSafeStep(s: State, a: Action)
    requires Fifo(s) && SyncSafe(s) && Enabled(s, a)
    ensures SyncSafe(Apply(s, a))
  {
    if a.Push? || a.NestedPush? || a.Notify? || a.SyncReturn? {
      assert |s.started| <= |s.pushed|;
      SyncSafeCall(s, a);
    } else {
      SyncSafeWorker(s, a);
    }
  }

  lemma InvStep(s: State, a: Action)
    requires Inv(s) && Enabled(s, a)
    ensures Inv(Apply(s, a))
  {
    hide Fifo, Backed, SyncSafe;
    FifoStep(s, a);
    BackedStep(s, a);
    SyncSafeStep(s, a);
  }

  lemma QueueFacts(s: State)
    requires Inv(s)
    ensures |s.calls| == |s.pushed|
    ensures s.worker == AtSwap ==> s.tempJobs == []
    ensures HoldsFront(s) ==> s.tempJobs != []
    ensures s.worker == Draining && s.tempJobs != [] ==> |s.started| < |s.pushed| && s.tempJobs[0] == s.pushed[|s.started|]
  {
    if s.worker == Draining && s.tempJobs != [] {
      assert (s.started + Upcoming(s))[|s.started|] == s.tempJobs[0];
    }
  }

  /** A sync caller that can return finds its job completed. */
  lemma SyncCallerServed(s: State, id: nat)
    requires Inv(s) && Enabled(s, SyncReturn(id))
    ensures id < |s.completed| && id < |s.pushed| && s.completed[id] == s.pushed[id]
  {
    CompletedIsPrefix(s);
  }

  lemma {:induction false} InvHolds(s: State, run: seq<Action>)
    requires Inv(s) && Legal(s, run)
    ensures Inv(Exec(s, run))
    decreases |run|
  {
    if run != [] {
      hide Inv;
      InvStep(s, run[0]);
      InvHolds(Apply(s, run[0]), run[1..]);
    }
  }

  /** Every reachable state of every interleaving. */
  lemma Reachable(run: seq<Action>)
    requires Legal(INITIAL, run)
    ensures Inv(Exec(INITIAL, run))
  {
    InvHolds(INITIAL, run);
  }

  /** The queue is first in, first out over every interleaving: what has started is a prefix of what was pushed. */
  lemma FirstInFirstOut(run: seq<Action>)
    requires Legal(INITIAL, run)
    ensures var s := Exec(INITIAL, run); s.started + Upcoming(s) == s.pushed && s.completed <= s.started <= s.pushed
  {
    Reachable(run);
    CompletedIsPrefix(Exec(INITIAL, run));
  }

  /** The worker never blocks at the semaphore with a job whose producer has notified: if it is blocked while jobs wait,
      at least as many producers are still between push and notify. */
  lemma NoLostWakeUp(run: seq<Action>)
    requires Legal(INITIAL, run)
    ensures var s := Exec(INITIAL, run);
            s.worker == AtWait && !Enabled(s, Wake) ==> |s.jobs| <= UnnotifiedCalls(s.calls)
  {
    Reachable(run);
  }

  /** sync returns only after its job has run to completion. */
  lemma SyncReturnsAfterJob(run: seq<Action>, id: nat)
    requires Legal(INITIAL, run)
    requires var s := Exec(INITIAL, run); id < |s.calls| && s.calls[id] == Returned && id < |s.pushed| && s.pushed[id].isSync
    ensures var s := Exec(INITIAL, run); id < |s.completed| && s.completed[id] == s.pushed[id]
  {
    Reachable(run);
    CompletedIsPrefix(Exec(INITIAL, run));
  }

  // ---------- progress ----------

  /** The worker's own next step, when no job pushes again. */
  function WorkerAction(s: State): Option<Action> {
    match s.worker
    case AtSwap => Some(Swap)
    case Draining => Some(if s.tempJobs == [] then Done else Start)
    case Running => if s.nested == None then Some(Finish) else None
    case Ran => if s.tempJobs == [] then None else Some(Signal)
    case Signalled => if s.tempJobs == [] then None else Some(Pop)
    case AtWait => if s.count > 0 then Some(Wake) else None
  }

  function Rank(s: State): int {
    3 * s.count + 4 * (|s.jobs| + |s.tempJobs|) +
    match s.worker
    case AtSwap => 2
    case Draining => 1
    case Running => 0
    case Ran => -1
    case Signalled => -2
    case AtWait => 0
  }

  /** The worker alone, until it blocks. */
  function Drain(s: State): State
    requires Inv(s)
    decreases Rank(s) + 2
  {
    match WorkerAction(s)
    case None => s
    case Some(a) =>
      InvStep(s, a);
      RankDrops(s, a);
      Drain(Apply(s, a))
  }

  lemma RankDrops(s: State, a: Action)
    requires WorkerAction(s) == Some(a)
    ensures 0 <= Rank(Apply(s, a)) + 2 < Rank(s) + 2
  {
  }

  /** Once every producer has notified, the worker left to itself runs every job ever pushed, blocks with nothing to do,
      and every sync caller still waiting can return. */
  lemma {:induction false} DrainCompletes(s: State)
    requires Inv(s) && UnnotifiedCalls(s.calls) == 0 && s.nested == None
    ensures var t := Drain(s);
            && t.worker == AtWait && t.count == 0 && t.jobs == [] && t.tempJobs == []
            && t.pushed == s.pushed && t.started == s.pushed && t.completed == s.pushed
            && t.calls == s.calls
            && forall id :: 0 <= id < |t.calls| && t.calls[id] == Waiting ==> Enabled(t, SyncReturn(id))
    decreases Rank(s) + 2
  {
    match WorkerAction(s) {
      case None =>
        DrainedIsComplete(s);
      case Some(a) =>
        hide Inv, Apply, Rank, WorkerAction;
        InvStep(s, a);
        WorkerKeeps(s, a);
        RankDrops(s, a);
        DrainCompletes(Apply(s, a));
    }
  }

  lemma WorkerKeeps(s: State, a: Action)
    requires WorkerAction(s) == Some(a)
    ensures var t := Apply(s, a); t.pushed == s.pushed && t.calls == s.calls && t.nested == s.nested
  {
  }

  lemma DrainedIsComplete(s: State)
    requires Inv(s) && UnnotifiedCalls(s.calls) == 0 && s.nested == None && WorkerAction(s) == None
    ensures s.worker == AtWait && s.count == 0 && s.jobs == [] && s.tempJobs == []
    ensures s.started == s.pushed && s.completed == s.pushed
    ensures forall id :: 0 <= id < |s.calls| && s.calls[id] == Waiting ==> Enabled(s, SyncReturn(id))
  {
    assert s.worker == AtWait;
    assert s.started + [] == s.started;
  }

  // ---------- the class, one method per atomic step ----------

  /** The producer and worker code of the original cut at its lock and semaphore operations. calls, worker and nested are
      the program counters of the threads. */
  class DispatchQueue {
    var jobs: seq<Job>
    var tempJobs: seq<Job>
    var semaphoreCount: nat
    ghost var worker: Worker
    ghost var nested: Option<nat>
    ghost var calls: seq<Call>
    var signalled: set<nat>
    ghost var pushed: seq<Job>
    ghost var started: seq<Job>
    ghost var completed: seq<Job>
    var nextId: nat

    ghost function Snapshot(): State
      reads this
    {
      State(jobs, tempJobs, semaphoreCount, worker, nested, calls, signalled, pushed, started, completed)
    }

    ghost predicate Valid()
      reads this
    {
      Inv(Snapshot()) && nextId == |pushed|
    }

    constructor ()
      ensures Valid() && Snapshot() == INITIAL
    {
      jobs, tempJobs, semaphoreCount, signalled, nextId := [], [], 0, {}, 0;
      worker, nested, calls, pushed, started, completed := AtSwap, None, [], [], [], [];
    }

    /** The critical section of sync and of _async. */
    method EmplaceBack(isSync: bool) returns (id: nat)
      requires Valid()
      modifies this
      ensures Valid() && id == old(|pushed|) && Snapshot() == Apply(old(Snapshot()), Push(isSync))
    {
      hide Fifo, Backed, SyncSafe;
      InvStep(Snapshot(), Push(isSync));
      id := nextId;
      jobs := jobs + [Job(id, isSync)];
      nextId := nextId + 1;
      pushed, calls := pushed + [Job(id, isSync)], calls + [Unnotified];
    }

    /** _asyncSemaphore->notify() after the push. */
    method NotifyWorker(id: nat)
      requires Valid() && Enabled(Snapshot(), Notify(id))
      modifies this
      ensures Valid() && Snapshot() == Apply(old(Snapshot()), Notify(id))
    {
      hide Fifo, Backed, SyncSafe;
      QueueFacts(Snapshot());
      InvStep(Snapshot(), Notify(id));
      semaphoreCount := semaphoreCount + 1;
      calls := calls[id := if pushed[id].isSync then Waiting else Returned];
      nested := if nested == Some(id) then None else nested;
    }

    /** syncSemaphore->wait() of a sync caller: by the time it gets through, its job has run. */
    method SyncWait(id: nat)
      requires Valid() && Enabled(Snapshot(), SyncReturn(id))
      modifies this
      ensures Valid() && Snapshot() == Apply(old(Snapshot()), SyncReturn(id))
      ensures id < |completed| && completed[id] == pushed[id]
    {
      hide Fifo, Backed, SyncSafe;
      SyncCallerServed(Snapshot(), id);
      InvStep(Snapshot(), SyncReturn(id));
      signalled := signalled - {id};
      calls := calls[id := Returned];
    }

    /** The locked move of _jobs into _tempJobs; the deque it overwrites is empty. */
    method MoveJobs()
      requires Valid() && worker == AtSwap
      modifies this
      ensures Valid() && old(tempJobs) == [] && Snapshot() == Apply(old(Snapshot()), Swap)
    {
      hide Fifo, Backed, SyncSafe;
      QueueFacts(Snapshot());
      InvStep(Snapshot(), Swap);
      tempJobs := jobs;
      jobs := [];
      worker := Draining;
    }

    /** One iteration of the loop up to the point where work() is entered. */
    method BeginWork() returns (job: Job)
      requires Valid() && worker == Draining && tempJobs != []
      modifies this
      ensures Valid() && Snapshot() == Apply(old(Snapshot()), Start) && job == old(pushed)[old(|started|)]
    {
      hide Fifo, Backed, SyncSafe;
      QueueFacts(Snapshot());
      InvStep(Snapshot(), Start);
      job := tempJobs[0];
      started, worker := started + [job], Running;
    }

    method EndWork()
      requires Valid() && Enabled(Snapshot(), Finish)
      modifies this
      ensures Valid() && Snapshot() == Apply(old(Snapshot()), Finish)
    {
      hide Fifo, Backed, SyncSafe;
      InvStep(Snapshot(), Finish);
      completed, worker := started, Ran;
    }

    method SignalSyncCaller()
      requires Valid() && worker == Ran
      modifies this
      ensures Valid() && Snapshot() == Apply(old(Snapshot()), Signal)
    {
      hide Fifo, Backed, SyncSafe;
      QueueFacts(Snapshot());
      InvStep(Snapshot(), Signal);
      if tempJobs[0].isSync {
        signalled := signalled + {tempJobs[0].id};
      }
      worker := Signalled;
    }

    method PopFront()
      requires Valid() && worker == Signalled
      modifies this
      ensures Valid() && Snapshot() == Apply(old(Snapshot()), Pop)
    {
      hide Fifo, Backed, SyncSafe;
      QueueFacts(Snapshot());
      InvStep(Snapshot(), Pop);
      tempJobs := tempJobs[1..];
      worker := Draining;
    }

    /** _asyncSemaphore->wait(), from the end of the loop to the next call of maybeDispatchWorker. */
    method Wait()
      requires Valid() && worker == AtWait && semaphoreCount > 0
      modifies this
      ensures Valid() && Snapshot() == Apply(old(Snapshot()), Wake)
    {
      hide Fifo, Backed, SyncSafe;
      InvStep(Snapshot(), Wake);
      semaphoreCount := semaphoreCount - 1;
      worker := AtSwap;
    }
  }
}
