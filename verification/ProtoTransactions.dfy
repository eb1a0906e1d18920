/** gp/proto/Proto.cpp, transportReadyForTransaction and its callbacks, over the request service and the session's
    counters. A run interleaves passes, transport outcomes (any order, any delay), failure notices, responses, session
    changes and the application's own calls. */
module ProtoTransactions {
  import opened Options
  import opened Sessions
  import opened RequestMessageServices

  // ---------- preparing one pass ----------

  /** The two counters of a session. */
  datatype Ids = Ids(seqNo: int, last: int)

  /** An id and a sequence number the session has given to a message, content-related or not. */
  datatype Issued = Issued(messageId: int, seqNo: int, content: bool)

  /** The locals of the preparation loop; order lists the prepared messages in the order they enter a container. issued is
      specification only: what the session gave out in this pass, to dropped messages too. */
  datatype Preparation = Preparation(ids: Ids, prepared: map<int, Prepared>, order: seq<Prepared>, violated: bool,
                                     issued: seq<Issued>)

  /** Once a violation is reported the rest of the pass is dropped too, except in unauthorized mode. */
  function Keep(p: Preparation, m: Outgoing, x: Prepared, unauthorized: bool): Preparation {
    if !p.violated || unauthorized then p.(prepared := p.prepared[m.internalId := x], order := p.order + [x]) else p
  }

  function PrepareOne(p: Preparation, m: Outgoing, clock: int, unauthorized: bool): Preparation {
    if m.messageId == 0 then
      var x := Prepared(NextId(p.ids.last, clock), NextSeqNo(p.ids.seqNo, m.requiresConfirmation));
      var q := p.(ids := Ids(SeqNoAfter(p.ids.seqNo, m.requiresConfirmation), x.messageId),
                  violated := p.violated || Violates(p.ids.last, clock),
                  issued := p.issued + [Issued(x.messageId, x.seqNo, m.requiresConfirmation)]);
      Keep(q, m, x, unauthorized)
    else
      Keep(p, m, Prepared(m.messageId, m.seqNo), unauthorized)
  }

  /** One clock reading per message. */
  function PrepareAll(ids: Ids, payload: seq<Outgoing>, clocks: seq<int>, unauthorized: bool): Preparation
    requires |clocks| >= |payload|
    decreases |payload|
  {
    var n := |payload|;
    if n == 0 then Preparation(ids, map[], [], false, [])
    else PrepareOne(PrepareAll(ids, payload[..n - 1], clocks, unauthorized), payload[n - 1], clocks[n - 1], unauthorized)
  }

  // ---------- the state machine ----------

  /** A transaction handed to the transport whose outcome is still to come. */
  datatype InFlight = InFlight(transaction: Transaction, prepared: map<int, Prepared>)

  /** A message that was prepared for a request. */
  datatype Sent = Sent(messageId: int, seqNo: int, request: int)

  /** The last three fields are specification only: the messages of the session prepared for requests, whether any id
      generation of the session found the clock behind the last id, reported or not, and all the session gave out, in
      order. */
  datatype State = State(ids: Ids, service: Service, inFlight: seq<InFlight>, nextOutgoing: int,
                         sent: set<Sent>, regressed: bool, issued: seq<Issued>)

  /** The other services' messages are all unnumbered; the flags say which require confirmation. */
  datatype PassInput = PassInput(before: seq<bool>, after: seq<bool>, clocks: seq<int>, containerClock: int,
                                 saltSetEmpty: bool, unauthorized: bool)

  datatype Action =
    | AddRequest(internalId: int)
    | CancelRequest(internalId: int)
    | Receive(messageId: int, reply: Reply)
    | TransactionsFailed(transactionIds: seq<int>)
    | AllTransactionsFailed
    | DeliveryFailed(messageId: int)
    | DeliveryConfirmed(messageIds: seq<int>)
    | ConnectionChanged
    | ServerChangedSession
    | ResetSession
    | Pass(input: PassInput)
    | TimeFix(clock: int)
    | Outcome(index: nat, success: bool, transactionId: int)

  const INITIAL := State(Ids(0, 0), Service([], true, [], [], []), [], 0, {}, false, [])

  function Others(flags: seq<bool>, firstId: int): (ms: seq<Outgoing>)
    ensures |ms| == |flags|
    ensures forall k :: 0 <= k < |ms| ==> ms[k] == Outgoing(firstId + k, 0, 0, flags[k], false)
  {
    seq(|flags|, i requires 0 <= i < |flags| => Outgoing(firstId + i, 0, 0, flags[i], false))
  }

  function ServiceSelection(s: State): Selection {
    Select(s.service, s.nextOutgoing, |s.service.requests|)
  }

  function FullPayload(s: State, input: PassInput): seq<Outgoing> {
    var t := ServiceSelection(s).transaction;
    var first := s.nextOutgoing + |t.payload|;
    Others(input.before, first) + t.payload + Others(input.after, first + |input.before|)
  }

  function PassPreparation(s: State, input: PassInput): Preparation
    requires |input.clocks| >= |FullPayload(s, input)|
  {
    PrepareAll(s.ids, FullPayload(s, input), input.clocks, input.unauthorized)
  }

  function SentIn(t: Transaction, prepared: map<int, Prepared>): set<Sent> {
    set r | r in t.carries && t.carries[r] in prepared ::
      Sent(prepared[t.carries[r]].messageId, prepared[t.carries[r]].seqNo, r)
  }

  /** The state after the prepared callbacks. */
  function AfterPrepared(s: State, input: PassInput): State
    requires |input.clocks| >= |FullPayload(s, input)|
  {
    var selection := ServiceSelection(s);
    var p := PassPreparation(s, input);
    s.(ids := p.ids,
       service := OnPrepared(s.service.(willInitializeApi := selection.willInitializeApi), selection.transaction,
                             p.prepared),
       nextOutgoing := s.nextOutgoing + |FullPayload(s, input)|,
       sent := s.sent + SentIn(selection.transaction, p.prepared),
       regressed := s.regressed || p.violated,
       issued := s.issued + p.issued)
  }

  predicate MakesContainer(p: Preparation, input: PassInput) {
    !input.unauthorized && |p.order| >= 2
  }

  function DoPass(s: State, input: PassInput): State
    requires |input.clocks| >= |FullPayload(s, input)|
  {
    var t := ServiceSelection(s).transaction;
    var p := PassPreparation(s, input);
    var u := AfterPrepared(s, input);
    if p.violated || input.saltSetEmpty then u.(service := OnCompleted(u.service, t, map[], map[]))
    else if p.order == [] then u
    else
      var v := u.(inFlight := u.inFlight + [InFlight(t, p.prepared)]);
      if MakesContainer(p, input) then
        var container := Issued(NextId(v.ids.last, input.containerClock), NextSeqNo(v.ids.seqNo, false), false);
        v.(ids := Ids(SeqNoAfter(v.ids.seqNo, false), container.messageId),
           regressed := v.regressed || Violates(v.ids.last, input.containerClock),
           issued := v.issued + [container])
      else v
  }

  function PayloadIds(t: Transaction): set<int> {
    set m | m in t.payload :: m.internalId
  }

  /** Every message of the transaction gets the transport's id. */
  function AllInto(t: Transaction, transactionId: int): map<int, int> {
    map m | m in PayloadIds(t) :: transactionId
  }

  function DoOutcome(s: State, index: nat, success: bool, transactionId: int): State
    requires index < |s.inFlight|
  {
    var f := s.inFlight[index];
    s.(inFlight := s.inFlight[..index] + s.inFlight[index + 1..],
       service := if success then OnCompleted(s.service, f.transaction, AllInto(f.transaction, transactionId), f.prepared)
                  else OnFailed(s.service, f.transaction))
  }

  predicate Enabled(s: State, a: Action) {
    match a
    case AddRequest(id) => id !in s.service.added
    case Pass(input) => |input.clocks| >= |FullPayload(s, input)|
    case Outcome(index, _, _) => index < |s.inFlight|
    case _ => true
  }

  function Apply(s: State, a: Action): State
    requires Enabled(s, a)
  {
    match a
    case AddRequest(id) => s.(service := Add(s.service, id))
    case CancelRequest(id) => s.(service := Cancel(s.service, id))
    case Receive(messageId, reply) => s.(service := Respond(s.service, messageId, reply))
    case TransactionsFailed(ids) => s.(service := ForgetTransactions(s.service, ids))
    case AllTransactionsFailed => s.(service := ForgetAll(s.service))
    case DeliveryFailed(messageId) => s.(service := ForgetMessage(s.service, messageId))
    case DeliveryConfirmed(ids) => s.(service := Confirm(s.service, ids))
    case ConnectionChanged => s.(service := s.service.(willInitializeApi := true))
    case ServerChangedSession => s.(service := ChangeSession(s.service))
    case ResetSession => s.(ids := Ids(0, 0), service := ChangeSession(s.service), sent := {}, regressed := false,
                             issued := [])
    case Pass(input) => DoPass(s, input)
    case TimeFix(clock) =>
      var ping := Issued(NextId(s.ids.last, clock), NextSeqNo(s.ids.seqNo, false), false);
      s.(ids := Ids(SeqNoAfter(s.ids.seqNo, false), ping.messageId),
         regressed := s.regressed || Violates(s.ids.last, clock), issued := s.issued + [ping])
    case Outcome(index, success, transactionId) => DoOutcome(s, index, success, transactionId)
  }

  predicate Legal(s: State, run: seq<Action>)
    decreases |run|
  {
    run == [] || (Enabled(s, run[0]) && Legal(Apply(s, run[0]), run[1..]))
  }

  function Exec(s: State, run: seq<Action>): State
    requires Legal(s, run)
    decreases |run|
  {
    if run == [] then s else Exec(Apply(s, run[0]), run[1..])
  }

  // ---------- conservation of requests ----------

  function IdsOf(rs: seq<Request>): (ids: seq<int>)
    ensures |ids| == |rs| && forall k :: 0 <= k < |rs| ==> ids[k] == rs[k].internalId
  {
    seq(|rs|, i requires 0 <= i < |rs| => rs[i].internalId)
  }

  function CallbackIds(cs: seq<Callback>): (ids: seq<int>)
    ensures |ids| == |cs| && forall k :: 0 <= k < |cs| ==> ids[k] == cs[k].internalId
  {
    seq(|cs|, i requires 0 <= i < |cs| => cs[i].internalId)
  }

  ghost predicate NoDuplicates(xs: seq<int>) {
    forall x :: multiset(xs)[x] <= 1
  }

  /** Every added request is either listed or was removed once; the application heard of it at most once, and only when
      it was removed. */
  ghost predicate Conserved(s: Service) {
    && NoDuplicates(s.added)
    && multiset(s.added) == multiset(IdsOf(s.requests)) + multiset(s.removed)
    && NoDuplicates(CallbackIds(s.callbacks))
    && (forall id :: id in CallbackIds(s.callbacks) ==> id in s.removed)
  }

  lemma EachConserves(s: Service, t: Service)
    requires Conserved(s) && t.added == s.added && t.removed == s.removed && t.callbacks == s.callbacks
    requires IdsOf(t.requests) == IdsOf(s.requests)
    ensures Conserved(t)
  {
  }

  lemma AddConserves(s: Service, id: int)
    requires Conserved(s) && id !in s.added
    ensures Conserved(Add(s, id))
  {
    var t := Add(s, id);
    assert IdsOf(t.requests) == IdsOf(s.requests) + [id];
    assert id !in multiset(s.added);
  }

  lemma RemoveConserves(s: Service, k: nat)
    requires Conserved(s) && k < |s.requests|
    ensures Conserved(RemoveAt(s, k)) && s.requests[k].internalId !in s.removed
  {
    var id := s.requests[k].internalId;
    var ids := IdsOf(s.requests);
    assert ids == ids[..k] + [id] + ids[k + 1..];
    assert IdsOf(RemoveAt(s, k).requests) == ids[..k] + ids[k + 1..];
    assert multiset(s.added)[id] <= 1;
    assert id in multiset(ids);
  }

  lemma CallbackConserves(s: Service, c: Callback, before: seq<int>)
    requires Conserved(s) && s.removed == before + [c.internalId] && c.internalId !in before
    requires forall id :: id in CallbackIds(s.callbacks) ==> id in before
    ensures Conserved(s.(callbacks := s.callbacks + [c]))
  {
    var ids := CallbackIds(s.callbacks);
    assert CallbackIds(s.callbacks + [c]) == ids + [c.internalId];
    assert c.internalId !in multiset(ids);
  }

  lemma RespondConserves(s: Service, messageId: int, reply: Reply)
    requires Conserved(s)
    ensures Conserved(Respond(s, messageId, reply))
  {
    hide Conserved;
    var k := IndexOfMessage(s.requests, messageId);
    if !reply.Escapes? && k < |s.requests| {
      RemoveConserves(s, k);
      CallbacksRemoved(s);
      var t := RemoveAt(s, k);
      var id := s.requests[k].internalId;
      match reply {
        case ErrorReply(code, description) => CallbackConserves(t, Failure(id, code, description), s.removed);
        case DataReply(data) => CallbackConserves(t, Completion(id, data), s.removed);
        case _ =>
      }
    }
  }

  lemma CallbacksRemoved(s: Service)
    requires Conserved(s)
    ensures forall id :: id in CallbackIds(s.callbacks) ==> id in s.removed
  {
  }

  /** Passes and outcomes only rewrite the contexts of the listed requests. */
  lemma ContextsOnly(s: State, a: Action)
    requires Enabled(s, a) && (a.Pass? || a.Outcome?)
    ensures var t := Apply(s, a).service;
            && t.added == s.service.added && t.removed == s.service.removed && t.callbacks == s.service.callbacks
            && IdsOf(t.requests) == IdsOf(s.service.requests)
  {
    hide Select, FullPayload, PrepareAll, AllInto, SentIn, NextId, MakesContainer;
  }

  lemma ConservedStep(s: State, a: Action)
    requires Conserved(s.service) && Enabled(s, a)
    ensures Conserved(Apply(s, a).service)
  {
    hide Conserved, DoPass, DoOutcome;
    match a {
      case AddRequest(id) => AddConserves(s.service, id);
      case CancelRequest(id) =>
        var k := IndexOfId(s.service.requests, id);
        if k < |s.service.requests| {
          RemoveConserves(s.service, k);
        }
      case Receive(messageId, reply) => RespondConserves(s.service, messageId, reply);
      case Pass(_) =>
        ContextsOnly(s, a);
        EachConserves(s.service, Apply(s, a).service);
      case Outcome(_, _, _) =>
        ContextsOnly(s, a);
        EachConserves(s.service, Apply(s, a).service);
      case _ => EachConserves(s.service, Apply(s, a).service);
    }
  }

  // ---------- no request is stranded ----------

  predicate IsWaiting(r: Request) {
    r.context.Some? && r.context.value.waitingForMessageId
  }

  ghost predicate Carried(inFlight: seq<InFlight>, id: int) {
    exists j :: 0 <= j < |inFlight| && id in inFlight[j].transaction.carries
  }

  /** A request waits only while a transaction that carries it is still in flight. */
  ghost predicate NoneStranded(rs: seq<Request>, inFlight: seq<InFlight>) {
    forall k :: 0 <= k < |rs| && IsWaiting(rs[k]) ==> Carried(inFlight, rs[k].internalId)
  }

  lemma {:induction false} NothingPrepared(ids: Ids, payload: seq<Outgoing>, clocks: seq<int>, unauthorized: bool)
    requires |clocks| >= |payload|
    ensures var p := PrepareAll(ids, payload, clocks, unauthorized); p.order == [] ==> p.prepared == map[]
    decreases |payload|
  {
    var n := |payload|;
    if n > 0 {
      NothingPrepared(ids, payload[..n - 1], clocks, unauthorized);
    }
  }

  lemma CarriedKeeps(inFlight: seq<InFlight>, f: InFlight, id: int)
    requires Carried(inFlight, id) || id in f.transaction.carries
    ensures Carried(inFlight + [f], id)
  {
    var more := inFlight + [f];
    if Carried(inFlight, id) {
      var j :| 0 <= j < |inFlight| && id in inFlight[j].transaction.carries;
      assert more[j] == inFlight[j];
    } else {
      assert more[|inFlight|] == f;
    }
  }

  lemma CarriedByOthers(inFlight: seq<InFlight>, index: nat, id: int)
    requires index < |inFlight| && Carried(inFlight, id) && id !in inFlight[index].transaction.carries
    ensures Carried(inFlight[..index] + inFlight[index + 1..], id)
  {
    var j :| 0 <= j < |inFlight| && id in inFlight[j].transaction.carries;
    var rest := inFlight[..index] + inFlight[index + 1..];
    assert rest[if j < index then j else j - 1] == inFlight[j];
  }

  lemma PassStrandsNone(s: State, input: PassInput)
    requires NoneStranded(s.service.requests, s.inFlight) && Enabled(s, Pass(input))
    ensures NoneStranded(DoPass(s, input).service.requests, DoPass(s, input).inFlight)
  {
    hide Select, FullPayload, Carried, PrepareAll;
    var t := ServiceSelection(s).transaction;
    var p := PassPreparation(s, input);
    var u := DoPass(s, input);
    NothingPrepared(s.ids, FullPayload(s, input), input.clocks, input.unauthorized);
    forall k | 0 <= k < |u.service.requests| && IsWaiting(u.service.requests[k])
      ensures Carried(u.inFlight, u.service.requests[k].internalId)
    {
      var r := s.service.requests[k];
      assert !p.violated && !input.saltSetEmpty;
      assert u.service.requests[k] == PreparedOne(r, t, p.prepared);
      if p.order != [] {
        CarriedKeeps(s.inFlight, InFlight(t, p.prepared), r.internalId);
      }
    }
  }

  lemma OutcomeStrandsNone(s: State, index: nat, success: bool, transactionId: int)
    requires NoneStranded(s.service.requests, s.inFlight) && index < |s.inFlight|
    ensures var u := DoOutcome(s, index, success, transactionId); NoneStranded(u.service.requests, u.inFlight)
  {
    hide Carried, AllInto;
    var u := DoOutcome(s, index, success, transactionId);
    var f := s.inFlight[index];
    forall k | 0 <= k < |u.service.requests| && IsWaiting(u.service.requests[k])
      ensures Carried(u.inFlight, u.service.requests[k].internalId)
    {
      var r := s.service.requests[k];
      if !success {
        assert u.service.requests[k] == FailedOne(r, f.transaction);
        CarriedByOthers(s.inFlight, index, r.internalId);
      }
    }
  }

  lemma RemovalStrandsNone(rs: seq<Request>, k: nat, inFlight: seq<InFlight>)
    requires NoneStranded(rs, inFlight) && k < |rs|
    ensures NoneStranded(rs[..k] + rs[k + 1..], inFlight)
  {
    hide Carried;
  }

  /** Only a pass can make a request wait: every other action that keeps the list leaves waiting requests as they were. */
  lemma UpdateStrandsNone(rs: seq<Request>, rs': seq<Request>, inFlight: seq<InFlight>)
    requires NoneStranded(rs, inFlight) && |rs'| == |rs|
    requires forall k :: 0 <= k < |rs| ==> rs'[k].internalId == rs[k].internalId && (IsWaiting(rs'[k]) ==> IsWaiting(rs[k]))
    ensures NoneStranded(rs', inFlight)
  {
    hide Carried;
  }

  lemma StrandedStep(s: State, a: Action)
    requires NoneStranded(s.service.requests, s.inFlight) && Enabled(s, a)
    ensures NoneStranded(Apply(s, a).service.requests, Apply(s, a).inFlight)
  {
    hide Carried, DoPass, DoOutcome, NoneStranded;
    var rs := s.service.requests;
    match a {
      case Pass(input) => PassStrandsNone(s, input);
      case Outcome(index, success, transactionId) => OutcomeStrandsNone(s, index, success, transactionId);
      case AddRequest(id) => AddStrandsNone(rs, Request(id, None), s.inFlight);
      case CancelRequest(id) =>
        if IndexOfId(rs, id) < |rs| {
          RemovalStrandsNone(rs, IndexOfId(rs, id), s.inFlight);
        }
      case Receive(messageId, reply) =>
        if IndexOfMessage(rs, messageId) < |rs| {
          RemovalStrandsNone(rs, IndexOfMessage(rs, messageId), s.inFlight);
        }
      case _ => UpdateStrandsNone(rs, Apply(s, a).service.requests, s.inFlight);
    }
  }

  lemma AddStrandsNone(rs: seq<Request>, r: Request, inFlight: seq<InFlight>)
    requires NoneStranded(rs, inFlight) && !IsWaiting(r)
    ensures NoneStranded(rs + [r], inFlight)
  {
    hide Carried;
  }

  // ---------- the run theorems ----------

  ghost predicate Sound(s: State) {
    Conserved(s.service) && NoneStranded(s.service.requests, s.inFlight)
  }

  lemma {:induction false} SoundHolds(s: State, run: seq<Action>)
    requires Sound(s) && Legal(s, run)
    ensures Sound(Exec(s, run))
    decreases |run|
  {
    hide Conserved, NoneStranded;
    if run != [] {
      ConservedStep(s, run[0]);
      StrandedStep(s, run[0]);
      SoundHolds(Apply(s, run[0]), run[1..]);
    }
  }

  /** Over every run: each added request is listed or was removed, exactly one of the two and once; it gets at most one
      callback, and only by being removed. */
  lemma RequestsAreConserved(run: seq<Action>)
    requires Legal(INITIAL, run)
    ensures var s := Exec(INITIAL, run).service;
            && multiset(s.added) == multiset(IdsOf(s.requests)) + multiset(s.removed)
            && (forall id :: multiset(s.added)[id] <= 1)
            && (forall id :: multiset(s.removed)[id] <= 1)
            && (forall id :: multiset(CallbackIds(s.callbacks))[id] <= 1)
            && (forall id :: id in CallbackIds(s.callbacks) ==> id in s.removed && id !in IdsOf(s.requests))
  {
    SoundHolds(INITIAL, run);
    var s := Exec(INITIAL, run).service;
    forall id
      ensures multiset(s.removed)[id] <= 1
    {
      assert multiset(s.added)[id] <= 1;
    }
    forall id | id in CallbackIds(s.callbacks)
      ensures id !in IdsOf(s.requests)
    {
      assert id in multiset(s.removed);
      assert multiset(s.added)[id] <= 1;
      assert multiset(IdsOf(s.requests))[id] == 0;
    }
  }

  /** Over every run, once no transaction is in flight every listed request is selectable by the next pass, has been
      delivered, or carries a transport id. */
  lemma NoRequestIsStranded(run: seq<Action>, k: nat)
    requires Legal(INITIAL, run)
    requires Exec(INITIAL, run).inFlight == [] && k < |Exec(INITIAL, run).service.requests|
    ensures var r := Exec(INITIAL, run).service.requests[k];
            Selectable(r) || r.context.value.delivered || r.context.value.transactionId != -1
  {
    SoundHolds(INITIAL, run);
    var s := Exec(INITIAL, run);
    assert IsWaiting(s.service.requests[k]) ==> Carried(s.inFlight, s.service.requests[k].internalId);
  }

  /** Right after the outcome of a transaction, and whatever else is in flight, no listed request it carried waits. */
  lemma OutcomeReleases(s: State, index: nat, success: bool, transactionId: int, k: nat)
    requires index < |s.inFlight| && k < |s.service.requests|
    requires s.service.requests[k].internalId in s.inFlight[index].transaction.carries
    ensures var r := DoOutcome(s, index, success, transactionId).service.requests[k];
            && r.internalId == s.service.requests[k].internalId
            && !IsWaiting(r)
            && (Selectable(r) || r.context.value.delivered || r.context.value.transactionId != -1)
  {
    hide AllInto;
  }

  /** An aborted pass (reported violation or no salt) leaves nothing waiting and nothing in flight of its own. */
  lemma AbortReleases(s: State, input: PassInput, k: nat)
    requires Enabled(s, Pass(input)) && k < |s.service.requests|
    requires PassPreparation(s, input).violated || input.saltSetEmpty
    ensures DoPass(s, input).inFlight == s.inFlight
    ensures !IsWaiting(DoPass(s, input).service.requests[k])
  {
    hide PrepareAll, Select, FullPayload;
  }
}
