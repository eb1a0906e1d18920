/** When a request is sent again: the notices of gp/proto/RequestMessageService.cpp against the passes of
    gp/proto/Proto.cpp, over every run. */
module Resendings {
  import opened Options
  import opened Sessions
  import opened RequestMessageServices
  import opened ProtoTransactions
  import opened ReplyRouting

  // ---------- a request that is on its way ----------

  /** The request has been delivered or handed to the transport. */
  predicate Settled(r: Request) {
    r.context.Some? && (r.context.value.delivered || r.context.value.transactionId != -1)
  }

  /** The successful transaction carried the request. */
  ghost predicate CompletedBy(f: InFlight, r: Request) {
    && r.internalId in f.transaction.carries
    && f.transaction.carries[r.internalId] in f.prepared
    && (exists j :: 0 <= j < |f.transaction.payload|
          && f.transaction.payload[j].internalId == f.transaction.carries[r.internalId])
  }

  /** The action takes the request off its way: a notice that names its transaction or its message, the loss of all
      contexts, or a transaction that succeeds without an id. */
  ghost predicate Releases(s: State, a: Action, r: Request)
    requires Enabled(s, a) && r.context.Some?
  {
    match a
    case TransactionsFailed(ids) => r.context.value.transactionId in ids
    case DeliveryFailed(messageId) => r.context.value.messageId == messageId
    case AllTransactionsFailed => true
    case ServerChangedSession => true
    case ResetSession => true
    case Outcome(index, success, transactionId) => success && transactionId == -1 && CompletedBy(s.inFlight[index], r)
    case _ => false
  }

  /** The action puts the request on its way. */
  ghost predicate Settles(s: State, a: Action, r: Request)
    requires Enabled(s, a)
  {
    match a
    case DeliveryConfirmed(ids) => r.context.Some? && r.context.value.messageId in ids
    case Outcome(index, success, transactionId) => success && transactionId != -1 && CompletedBy(s.inFlight[index], r)
    case _ => false
  }

  /** Wherever the request is listed, it is on its way. */
  ghost predicate AllSettled(rs: seq<Request>, id: int) {
    forall k :: 0 <= k < |rs| && rs[k].internalId == id ==> Settled(rs[k])
  }

  /** The action does not release the request. */
  ghost predicate Keeps(s: State, a: Action, id: int)
    requires Enabled(s, a)
  {
    var rs := s.service.requests;
    forall k :: 0 <= k < |rs| && rs[k].internalId == id && rs[k].context.Some? ==> !Releases(s, a, rs[k])
  }

  lemma AddedIsListed(s: Service, k: nat)
    requires Conserved(s) && k < |s.requests|
    ensures s.requests[k].internalId in s.added
  {
    assert IdsOf(s.requests)[k] in multiset(IdsOf(s.requests));
    assert multiset(s.added)[IdsOf(s.requests)[k]] >= 1;
  }

  lemma SelectedExactly(s: State, k: nat)
    requires DistinctRequests(s.service.requests) && k < |s.service.requests|
    ensures s.service.requests[k].internalId in ServiceSelection(s).transaction.carries
            <==> Selectable(s.service.requests[k])
  {
    hide Select;
    SelectIsFaithful(s.service, s.nextOutgoing, |s.service.requests|);
  }

  lemma PayloadIsListed(t: Transaction, id: int)
    ensures id in PayloadIds(t) <==> exists j :: 0 <= j < |t.payload| && t.payload[j].internalId == id
  {
  }

  lemma NotSelected(s: State, id: int)
    requires DistinctRequests(s.service.requests) && AllSettled(s.service.requests, id)
    ensures id !in ServiceSelection(s).transaction.carries
  {
    hide Select;
    SelectIsFaithful(s.service, s.nextOutgoing, |s.service.requests|);
  }

  /** A pass rewrites the contexts of the requests it carries only. */
  lemma PassKeepsSettled(s: State, input: PassInput, id: int)
    requires Enabled(s, Pass(input)) && id !in ServiceSelection(s).transaction.carries
    requires AllSettled(s.service.requests, id)
    ensures AllSettled(DoPass(s, input).service.requests, id)
  {
    hide Select, PrepareAll, FullPayload, MakesContainer;
  }

  lemma OutcomeSettles(s: State, index: nat, success: bool, transactionId: int, k: nat)
    requires index < |s.inFlight| && k < |s.service.requests|
    ensures var r, q := s.service.requests[k], DoOutcome(s, index, success, transactionId).service.requests[k];
            && q.internalId == r.internalId
            && Settled(q) == if success && CompletedBy(s.inFlight[index], r) then transactionId != -1 else Settled(r)
  {
    var f, id := s.inFlight[index], s.service.requests[k].internalId;
    PayloadIsListed(f.transaction, if id in f.transaction.carries then f.transaction.carries[id] else 0);
  }

  /** What an outcome does to each listed request. A failure ends the wait of exactly the requests it carried and leaves the
      others alone; a success ends every wait, also of requests in other transactions, and gives exactly the ones it
      prepared the transport's id, with the id, number and initialisation they were sent with. */
  lemma OutcomeIsExact(s: State, index: nat, success: bool, transactionId: int, k: nat)
    requires index < |s.inFlight| && k < |s.service.requests|
    ensures var f, r := s.inFlight[index], s.service.requests[k];
            var q := DoOutcome(s, index, success, transactionId).service.requests[k];
            && q.internalId == r.internalId && !(success && IsWaiting(q))
            && (!success && r.internalId !in f.transaction.carries ==> q == r)
            && (!success && r.internalId in f.transaction.carries ==> !IsWaiting(q))
            && (success && CompletedBy(f, r) ==>
                  var x := f.prepared[f.transaction.carries[r.internalId]];
                  q.context == Some(RequestContext(x.messageId, x.seqNo, transactionId, false, false,
                                                   f.transaction.initializeApi)))
            && (!(success && CompletedBy(f, r)) ==>
                  && q.context.Some? == r.context.Some?
                  && (r.context.Some? ==>
                        q.context.value.(waitingForMessageId := r.context.value.waitingForMessageId) == r.context.value))
  {
    var f, id := s.inFlight[index], s.service.requests[k].internalId;
    PayloadIsListed(f.transaction, if id in f.transaction.carries then f.transaction.carries[id] else 0);
  }

  lemma OutcomeKeepsSettled(s: State, index: nat, success: bool, transactionId: int, id: int)
    requires index < |s.inFlight| && AllSettled(s.service.requests, id)
    requires Keeps(s, Outcome(index, success, transactionId), id)
    ensures AllSettled(DoOutcome(s, index, success, transactionId).service.requests, id)
  {
    hide DoOutcome, CompletedBy;
    ContextsOnly(s, Outcome(index, success, transactionId));
    var rs, t := s.service.requests, DoOutcome(s, index, success, transactionId);
    assert |t.service.requests| == |rs| by {
      assert |IdsOf(t.service.requests)| == |IdsOf(rs)|;
    }
    forall k | 0 <= k < |rs|
      ensures t.service.requests[k].internalId == rs[k].internalId
      ensures rs[k].internalId == id ==> Settled(t.service.requests[k])
    {
      OutcomeSettles(s, index, success, transactionId, k);
    }
  }

  lemma RemovalKeepsSettled(s: Service, k: nat, id: int)
    requires k < |s.requests| && AllSettled(s.requests, id)
    ensures AllSettled(RemoveAt(s, k).requests, id)
  {
  }

  lemma CallKeepsSettled(s: State, a: Action, id: int)
    requires Enabled(s, a) && (a.AddRequest? || a.CancelRequest? || a.Receive?) && id in s.service.added
    requires AllSettled(s.service.requests, id)
    ensures AllSettled(Apply(s, a).service.requests, id)
  {
    hide AllSettled, RemoveAt, IndexOfId, IndexOfMessage;
    match a {
      case AddRequest(added) => AddKeepsSettled(s.service, added, id);
      case CancelRequest(cancelled) =>
        var k := IndexOfId(s.service.requests, cancelled);
        if k < |s.service.requests| {
          RemovalKeepsSettled(s.service, k, id);
        }
      case Receive(messageId, _) =>
        var k := IndexOfMessage(s.service.requests, messageId);
        if k < |s.service.requests| {
          RemovalKeepsSettled(s.service, k, id);
        }
    }
  }

  lemma AddKeepsSettled(s: Service, added: int, id: int)
    requires added !in s.added && id in s.added && AllSettled(s.requests, id)
    ensures AllSettled(Add(s, added).requests, id)
  {
  }

  lemma NoticeKeepsSettled(s: State, a: Action, id: int)
    requires Enabled(s, a) && !a.Pass? && !a.Outcome? && !a.AddRequest? && !a.CancelRequest? && !a.Receive?
    requires AllSettled(s.service.requests, id) && Keeps(s, a, id)
    ensures AllSettled(Apply(s, a).service.requests, id)
  {
    hide DoPass, DoOutcome, Add, Cancel, Respond, CompletedBy, NextId, NextSeqNo, SeqNoAfter;
  }

  /** An action that does not release the request leaves it on its way, or removes it. */
  lemma SettledStep(s: State, a: Action, id: int)
    requires Conserved(s.service) && Enabled(s, a) && id in s.service.added
    requires AllSettled(s.service.requests, id) && Keeps(s, a, id)
    ensures AllSettled(Apply(s, a).service.requests, id) && id in Apply(s, a).service.added
  {
    hide Conserved, DoPass, DoOutcome, AllSettled, Keeps;
    ConservedIsDistinct(s.service);
    AddedStays(s, a, id);
    match a {
      case Pass(input) =>
        NotSelected(s, id);
        PassKeepsSettled(s, input, id);
      case Outcome(index, success, transactionId) => OutcomeKeepsSettled(s, index, success, transactionId, id);
      case AddRequest(_) => CallKeepsSettled(s, a, id);
      case CancelRequest(_) => CallKeepsSettled(s, a, id);
      case Receive(_, _) => CallKeepsSettled(s, a, id);
      case _ => NoticeKeepsSettled(s, a, id);
    }
  }

  // ---------- when it is sent again ----------

  lemma ReleasedIsListed(s: State, a: Action, k: nat)
    requires Enabled(s, a) && k < |s.service.requests| && s.service.requests[k].context.Some?
    requires Releases(s, a, s.service.requests[k])
    ensures var rs := Apply(s, a).service.requests;
            |rs| == |s.service.requests| && rs[k].internalId == s.service.requests[k].internalId && !Settled(rs[k])
    ensures a.Outcome? ==> !IsWaiting(Apply(s, a).service.requests[k])
    ensures !a.Outcome? ==> Apply(s, a).service.requests[k].context == None
  {
    hide DoOutcome;
    match a {
      case Outcome(index, success, transactionId) =>
        ContextsOnly(s, a);
        OutcomeSettles(s, index, success, transactionId, k);
        OutcomeReleases(s, index, success, transactionId, k);
        assert |IdsOf(DoOutcome(s, index, success, transactionId).service.requests)| == |s.service.requests|;
      case _ =>
    }
  }

  /** Whatever happens next, the next pass carries a request that is on its way exactly when that step released it. */
  lemma SentAgainExactly(s: State, a: Action, k: nat)
    requires Conserved(s.service) && Enabled(s, a)
    requires k < |s.service.requests| && Settled(s.service.requests[k])
    ensures s.service.requests[k].internalId in ServiceSelection(Apply(s, a)).transaction.carries
            <==> Releases(s, a, s.service.requests[k])
  {
    hide Conserved, Apply, ServiceSelection, Releases;
    var r := s.service.requests[k];
    ConservedIsDistinct(s.service);
    ConservedStep(s, a);
    var t := Apply(s, a);
    ConservedIsDistinct(t.service);
    if Releases(s, a, r) {
      ReleasedIsListed(s, a, k);
      SelectedExactly(t, k);
    } else {
      AddedIsListed(s.service, k);
      assert forall j :: 0 <= j < |s.service.requests| && j != k ==> s.service.requests[j].internalId != r.internalId;
      SettledStep(s, a, r.internalId);
      NotSelected(t, r.internalId);
    }
  }

  /** No step of the run releases the request. */
  ghost predicate Undisturbed(s: State, run: seq<Action>, id: int)
    requires Legal(s, run)
    decreases |run|
  {
    run != [] ==>
    && Keeps(s, run[0], id)
    && Undisturbed(Apply(s, run[0]), run[1..], id)
  }

  lemma {:induction false} SettledHolds(s: State, run: seq<Action>, id: int)
    requires Conserved(s.service) && id in s.service.added && AllSettled(s.service.requests, id)
    requires Legal(s, run) && Undisturbed(s, run, id)
    ensures Conserved(Exec(s, run).service) && AllSettled(Exec(s, run).service.requests, id)
    decreases |run|
  {
    hide Conserved, Apply;
    if run != [] {
      ConservedStep(s, run[0]);
      SettledStep(s, run[0], id);
      SettledHolds(Apply(s, run[0]), run[1..], id);
    }
  }

  lemma SettlesIsListed(s: State, a: Action, k: nat)
    requires DistinctRequests(s.service.requests) && Enabled(s, a) && k < |s.service.requests|
    requires Settles(s, a, s.service.requests[k])
    ensures AllSettled(Apply(s, a).service.requests, s.service.requests[k].internalId)
  {
    hide DoOutcome;
    match a {
      case Outcome(index, success, transactionId) =>
        ContextsOnly(s, a);
        var t := DoOutcome(s, index, success, transactionId);
        forall j | 0 <= j < |t.service.requests|
          ensures t.service.requests[j].internalId == s.service.requests[j].internalId
          ensures j == k ==> Settled(t.service.requests[j])
        {
          assert |IdsOf(t.service.requests)| == |s.service.requests|;
          OutcomeSettles(s, index, success, transactionId, j);
        }
      case _ =>
    }
  }

  /** A confirmed message, or one handed to the transport, is not sent again in any continuation that does not release its
      request: no pass carries the request, however many responses, passes and other notices come between. */
  lemma NotSentTwice(earlier: seq<Action>, a: Action, run: seq<Action>, k: nat)
    requires Legal(INITIAL, earlier) && Enabled(Exec(INITIAL, earlier), a)
    requires var s := Exec(INITIAL, earlier);
             && k < |s.service.requests| && Settles(s, a, s.service.requests[k])
             && Legal(Apply(s, a), run) && Undisturbed(Apply(s, a), run, s.service.requests[k].internalId)
    ensures var s := Exec(INITIAL, earlier);
            s.service.requests[k].internalId !in ServiceSelection(Exec(Apply(s, a), run)).transaction.carries
  {
    hide Conserved, Apply, Exec, Legal, Undisturbed, ServiceSelection, Settles;
    ConservedAfter(earlier);
    var s := Exec(INITIAL, earlier);
    var id := s.service.requests[k].internalId;
    ConservedIsDistinct(s.service);
    AddedIsListed(s.service, k);
    SettlesIsListed(s, a, k);
    ConservedStep(s, a);
    AddedStays(s, a, id);
    SettledHolds(Apply(s, a), run, id);
    ConservedIsDistinct(Exec(Apply(s, a), run).service);
    NotSelected(Exec(Apply(s, a), run), id);
  }

  lemma ConservedAfter(run: seq<Action>)
    requires Legal(INITIAL, run)
    ensures Conserved(Exec(INITIAL, run).service)
  {
    SoundHolds(INITIAL, run);
  }

  lemma AddedStays(s: State, a: Action, id: int)
    requires Enabled(s, a) && id in s.service.added
    ensures id in Apply(s, a).service.added
  {
    if a.Pass? || a.Outcome? {
      ContextsOnly(s, a);
    }
  }

  // ---------- when the API is initialised again ----------

  /** The action makes the service initialise the API again. */
  predicate Reinitializes(a: Action) {
    a.ConnectionChanged? || a.ServerChangedSession? || a.ResetSession?
  }

  /** No pass of the run finds a request to carry. */
  predicate NothingSelected(s: State, run: seq<Action>)
    requires Legal(s, run)
    decreases |run|
  {
    run != [] ==>
    && (run[0].Pass? ==> ServiceSelection(s).transaction.payload == [])
    && NothingSelected(Apply(s, run[0]), run[1..])
  }

  lemma FlagStays(s: State, a: Action)
    requires Enabled(s, a) && (a.Pass? ==> ServiceSelection(s).transaction.payload == [])
    requires s.service.willInitializeApi
    ensures Apply(s, a).service.willInitializeApi
  {
    hide Select, PrepareAll, FullPayload, MakesContainer;
    InitializationIsSpentOnce(s.service, s.nextOutgoing, |s.service.requests|);
  }

  lemma {:induction false} FlagHolds(s: State, run: seq<Action>)
    requires Legal(s, run) && NothingSelected(s, run) && s.service.willInitializeApi
    ensures Exec(s, run).service.willInitializeApi
    decreases |run|
  {
    hide Apply, ServiceSelection;
    if run != [] {
      FlagStays(s, run[0]);
      FlagHolds(Apply(s, run[0]), run[1..]);
    }
  }

  /** After a change of connection or session the first pass that carries requests initialises the API with its first
      message, and that pass spends the flag; everything before it, passes without requests included, keeps it. */
  lemma ReinitializedOnce(s: State, a: Action, run: seq<Action>, input: PassInput)
    requires Enabled(s, a) && Reinitializes(a)
    requires Legal(Apply(s, a), run) && NothingSelected(Apply(s, a), run)
    requires Enabled(Exec(Apply(s, a), run), Pass(input))
    ensures var u := Exec(Apply(s, a), run);
            var payload := ServiceSelection(u).transaction.payload;
            && (payload != [] ==> payload[0].initializeApi)
            && Apply(u, Pass(input)).service.willInitializeApi == (payload == [])
  {
    hide Legal, Exec, NothingSelected;
    FlagHolds(Apply(s, a), run);
    var u := Exec(Apply(s, a), run);
    PassFlag(u, input);
  }

  lemma PassFlag(u: State, input: PassInput)
    requires Enabled(u, Pass(input)) && u.service.willInitializeApi
    ensures var payload := ServiceSelection(u).transaction.payload;
            && (payload != [] ==> payload[0].initializeApi)
            && DoPass(u, input).service.willInitializeApi == (payload == [])
  {
    hide Select, PrepareAll, FullPayload, MakesContainer;
    InitializationIsSpentOnce(u.service, u.nextOutgoing, |u.service.requests|);
  }
}
