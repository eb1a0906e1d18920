/** gp/proto/ClientSync.cpp: the event queue between the protocol threads and the callers of receive. push_back and
    pop_front are two atomic steps each; any number of threads may be between their two steps. */
module ClientSyncs {
  import opened Options

  /** An event of the original is Some of it; the null pointer that notifyReceiveQueue pushes is None. */
  datatype State<!E> = State(
    queue: seq<Option<E>>,
    count: nat,
    pushers: nat,
    poppers: nat,
    pushed: seq<Option<E>>,
    results: seq<Option<E>>)

  /** The steps: push_back under its mutex, its notify, the wait of pop_front, and its critical section. */
  datatype Action<!E> = Enqueue(event: Option<E>) | Notify | Wait | Dequeue

  function Initial<E>(): State<E> {
    State([], 0, 0, 0, [], [])
  }

  predicate Enabled<E>(s: State<E>, a: Action<E>) {
    match a
    case Enqueue(_) => true
    case Notify => s.pushers > 0
    case Wait => s.count > 0
    case Dequeue => s.poppers > 0
  }

  /** An empty queue yields the null result without removing anything. */
  function Apply<E>(s: State<E>, a: Action<E>): State<E>
    requires Enabled(s, a)
  {
    match a
    case Enqueue(e) => s.(queue := s.queue + [e], pushers := s.pushers + 1, pushed := s.pushed + [e])
    case Notify => s.(pushers := s.pushers - 1, count := s.count + 1)
    case Wait => s.(count := s.count - 1, poppers := s.poppers + 1)
    case Dequeue =>
      if s.queue == [] then s.(poppers := s.poppers - 1, results := s.results + [None])
      else s.(poppers := s.poppers - 1, queue := s.queue[1..], results := s.results + [s.queue[0]])
  }

  predicate Legal<E>(s: State<E>, run: seq<Action<E>>)
    decreases |run|
  {
    run == [] || (Enabled(s, run[0]) && Legal(Apply(s, run[0]), run[1..]))
  }

  function Exec<E>(s: State<E>, run: seq<Action<E>>): State<E>
    requires Legal(s, run)
    decreases |run|
  {
    if run == [] then s else Exec(Apply(s, run[0]), run[1..])
  }

  ghost predicate Inv<E>(s: State<E>) {
    && |s.queue| == s.count + s.pushers + s.poppers
    && s.results + s.queue == s.pushed
  }

  lemma Step<E>(s: State<E>, a: Action<E>)
    requires Inv(s) && Enabled(s, a)
    ensures Inv(Apply(s, a))
  {
    if a.Enqueue? {
      assert s.results + (s.queue + [a.event]) == s.pushed + [a.event];
    } else if a.Dequeue? {
      assert (s.results + [s.queue[0]]) + s.queue[1..] == s.pushed;
    }
  }

  lemma {:induction false} InvHolds<E>(s: State<E>, run: seq<Action<E>>)
    requires Inv(s) && Legal(s, run)
    ensures Inv(Exec(s, run))
    decreases |run|
  {
    if run != [] {
      Step(s, run[0]);
      InvHolds(Apply(s, run[0]), run[1..]);
    }
  }

  /** Over every interleaving: the queue length is accounted for by the semaphore and the threads between their steps;
      results come out in push order; the empty-queue exit is unreachable. */
  lemma Reachable<E>(run: seq<Action<E>>)
    requires Legal(Initial(), run)
    ensures var s := Exec(Initial(), run);
            && |s.queue| == s.count + s.pushers + s.poppers
            && s.results + s.queue == s.pushed
            && (Enabled(s, Dequeue) ==> s.queue != [])
  {
    hide Exec, Legal;
    InvHolds(Initial(), run);
  }

  /** A null result is exactly a wake-up event: the k-th critical section of pop_front returns the k-th event pushed. */
  lemma NullIsWakeUp<E>(run: seq<Action<E>>, k: nat)
    requires Legal(Initial(), run) && k < |Exec(Initial(), run).results|
    ensures var s := Exec(Initial(), run); k < |s.pushed| && s.results[k] == s.pushed[k]
  {
    InvHolds(Initial(), run);
    var s := Exec(Initial(), run);
    assert (s.results + s.queue)[k] == s.results[k];
  }

  /** A caller blocked at the semaphore leaves no event behind that another thread is not about to deliver. */
  lemma NoEventStranded<E>(run: seq<Action<E>>)
    requires Legal(Initial(), run)
    ensures var s := Exec(Initial(), run); !Enabled(s, Wait) ==> |s.queue| == s.pushers + s.poppers
  {
    hide Exec, Legal;
    InvHolds(Initial(), run);
  }

  class ClientSync<E(==)> {
    var queue: seq<Option<E>>
    var count: nat
    ghost var pushers: nat
    ghost var poppers: nat
    ghost var pushed: seq<Option<E>>
    ghost var results: seq<Option<E>>

    ghost function Snapshot(): State<E>
      reads this
    {
      State(queue, count, pushers, poppers, pushed, results)
    }

    constructor ()
      ensures Snapshot() == Initial() && Inv(Snapshot())
    {
      queue, count, pushers, poppers, pushed, results := [], 0, 0, 0, [], [];
    }

    method PushUnderLock(event: Option<E>)
      requires Inv(Snapshot())
      modifies this
      ensures Snapshot() == Apply(old(Snapshot()), Enqueue(event)) && Inv(Snapshot())
    {
      queue := queue + [event];
      pushers, pushed := pushers + 1, pushed + [event];
    }

    method SemaphoreNotify()
      requires Inv(Snapshot()) && pushers > 0
      modifies this
      ensures Snapshot() == Apply(old(Snapshot()), Notify) && Inv(Snapshot())
    {
      count := count + 1;
      pushers := pushers - 1;
    }

    method SemaphoreWait()
      requires Inv(Snapshot()) && count > 0
      modifies this
      ensures Snapshot() == Apply(old(Snapshot()), Wait) && Inv(Snapshot())
    {
      count := count - 1;
      poppers := poppers + 1;
    }

    method PopUnderLock() returns (event: Option<E>)
      requires Inv(Snapshot()) && poppers > 0
      modifies this
      ensures Snapshot() == Apply(old(Snapshot()), Dequeue) && Inv(Snapshot())
      ensures event == old(pushed)[old(|results|)]
    {
      poppers := poppers - 1;
      if |queue| == 0 {
        return None;
      }
      event := queue[0];
      queue := queue[1..];
      results := results + [event];
    }
  }
}
