/** Proto::requestTransportTransactions (and TcpTransport::setDelegateNeedsTransaction, which has the same shape): the
    requests for a transaction that arrive before a pass starts are served by one pass. */
module RequestPasses {

  /** What waits in the protocol's serial queue: a posted request, the coalesced pass, or any other job. */
  datatype Item = Request | Pass | Other

  datatype Event = Handled | PassStarted

  /** willRequest is willRequestTransactionOnNextQueuePass; log is specification only. */
  datatype State = State(queue: seq<Item>, willRequest: bool, log: seq<Event>)

  /** Post: any thread posts a job. Next: the worker takes the front job. Inline: the running job calls
      requestTransportTransactions, whose handler then runs in place. */
  datatype Action = Post(item: Item) | Next | Inline

  const INITIAL := State([], false, [])

  predicate Enabled(s: State, a: Action) {
    match a
    case Post(item) => item != Pass
    case Next => s.queue != []
    case Inline => true
  }

  /** The handler of a request. */
  function Handle(s: State): State {
    var t := s.(log := s.log + [Handled]);
    if t.willRequest then t else t.(willRequest := true, queue := t.queue + [Pass])
  }

  function Apply(s: State, a: Action): State
    requires Enabled(s, a)
  {
    match a
    case Post(item) => s.(queue := s.queue + [item])
    case Inline => Handle(s)
    case Next =>
      var t := s.(queue := s.queue[1..]);
      match s.queue[0]
      case Request => Handle(t)
      case Pass => t.(willRequest := false, log := t.log + [PassStarted])
      case Other => t
  }

  predicate Legal(s: State, run: seq<Action>)
    decreases |run|
  {
    run == [] || (Enabled(s, run[0]) && Legal(Apply(s, run[0]), run[1..]))
  }

  function Exec(s: State, run: seq<Action>): State
    requires Legal(s, run)
    decreases |run|
  {
    if run == [] then s else Exec(Apply(s, run[0]), run[1..])
  }

  function Passes(q: seq<Item>): nat {
    if q == [] then 0 else (if q[0] == Pass then 1 else 0) + Passes(q[1..])
  }

  lemma {:induction false} PassesSnoc(q: seq<Item>, item: Item)
    ensures Passes(q + [item]) == Passes(q) + if item == Pass then 1 else 0
  {
    if q == [] {
      assert q + [item] == [item] && [item][1..] == [];
    } else {
      PassesSnoc(q[1..], item);
      assert (q + [item])[1..] == q[1..] + [item];
    }
  }

  /** A request handled since the last pass started. */
  predicate Owed(log: seq<Event>) {
    log != [] && log[|log| - 1] == Handled
  }

  /** The flag holds exactly while one unstarted pass is queued, and exactly while some handled request is still owed a
      pass. */
  predicate Inv(s: State) {
    Passes(s.queue) == (if s.willRequest then 1 else 0) && (Owed(s.log) <==> s.willRequest)
  }

  lemma Step(s: State, a: Action)
    requires Inv(s) && Enabled(s, a)
    ensures Inv(Apply(s, a))
  {
    PassesSnoc(s.queue, Pass);
    match a {
      case Post(item) => PassesSnoc(s.queue, item);
      case Next => PassesSnoc(s.queue[1..], Pass);
      case Inline =>
    }
  }

  lemma {:induction false} Reachable(s: State, run: seq<Action>)
    requires Inv(s) && Legal(s, run)
    ensures Inv(Exec(s, run)) && s.log <= Exec(s, run).log
    decreases |run|
  {
    if run != [] {
      Step(s, run[0]);
      Reachable(Apply(s, run[0]), run[1..]);
    }
  }

  function Taken(run: seq<Action>): nat {
    if run == [] then 0 else (if run[0] == Next then 1 else 0) + Taken(run[1..])
  }

  function PassPosition(q: seq<Item>): nat
    requires Passes(q) > 0
    ensures PassPosition(q) < |q|
  {
    if q[0] == Pass then 0 else 1 + PassPosition(q[1..])
  }

  lemma {:induction false} PositionKept(q: seq<Item>, item: Item)
    requires Passes(q) > 0
    ensures Passes(q + [item]) > 0 && PassPosition(q + [item]) == PassPosition(q)
  {
    if q[0] != Pass {
      PositionKept(q[1..], item);
      assert (q + [item])[1..] == q[1..] + [item];
    }
  }

  ghost predicate PassStartedSince(from: nat, log: seq<Event>) {
    exists k :: from <= k < |log| && log[k] == PassStarted
  }

  /** Every handled request is followed by a pass that starts later: whatever else happens meanwhile, by the time the
      worker has taken as many jobs as stand up to the pending pass, that pass has started. */
  lemma {:induction false} RequestIsServed(s: State, run: seq<Action>)
    requires Inv(s) && Owed(s.log) && Legal(s, run)
    requires Taken(run) > PassPosition(s.queue)
    ensures PassStartedSince(|s.log|, Exec(s, run).log)
    decreases |run|
  {
    var a := run[0];
    var t := Apply(s, a);
    Step(s, a);
    Reachable(t, run[1..]);
    var log := Exec(s, run).log;
    if a == Next && s.queue[0] == Pass {
      assert t.log[|s.log|] == PassStarted && log[|s.log|] == PassStarted;
      assert PassStartedSince(|s.log|, log);
    } else {
      match a {
        case Post(item) => PositionKept(s.queue, item);
        case _ =>
      }
      RequestIsServed(t, run[1..]);
      assert PassStartedSince(|t.log|, log);
      var k :| |t.log| <= k < |log| && log[k] == PassStarted;
      assert |s.log| <= k;
      assert PassStartedSince(|s.log|, log);
    }
  }

  class Coalescer {
    var queue: seq<Item>
    var willRequestTransactionOnNextQueuePass: bool
    ghost var log: seq<Event>

    ghost function Snapshot(): State
      reads this
    {
      State(queue, willRequestTransactionOnNextQueuePass, log)
    }

    constructor ()
      ensures Snapshot() == INITIAL && Inv(Snapshot())
    {
      queue, willRequestTransactionOnNextQueuePass, log := [], false, [];
    }

    /** The body that requestTransportTransactions runs on the protocol queue. */
    method HandleRequest()
      requires Inv(Snapshot())
      modifies this
      ensures Snapshot() == Apply(old(Snapshot()), Inline) && Inv(Snapshot())
    {
      Step(Snapshot(), Inline);
      log := log + [Handled];
      if willRequestTransactionOnNextQueuePass {
        return;
      }
      willRequestTransactionOnNextQueuePass := true;
      queue := queue + [Pass];
    }

    /** The worker takes the front job; the result says which. */
    method RunNext() returns (item: Item)
      requires Inv(Snapshot()) && queue != []
      modifies this
      ensures Snapshot() == Apply(old(Snapshot()), Next) && Inv(Snapshot()) && item == old(queue)[0]
    {
      Step(Snapshot(), Next);
      item := queue[0];
      queue := queue[1..];
      match item {
        case Request =>
          log := log + [Handled];
          if !willRequestTransactionOnNextQueuePass {
            willRequestTransactionOnNextQueuePass := true;
            queue := queue + [Pass];
          }
        case Pass =>
          willRequestTransactionOnNextQueuePass := false;
          log := log + [PassStarted];
        case Other =>
      }
    }
  }
}
