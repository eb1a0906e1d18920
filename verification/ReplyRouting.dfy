/** Which request a reply reaches: message ids over the passes of gp/proto/Proto.cpp and the contexts of
    gp/proto/RequestMessageService.cpp. */
module ReplyRouting {
  import opened Options
  import opened Sessions
  import opened RequestMessageServices
  import opened ProtoTransactions

  // ---------- what a pass does to ids ----------

  ghost predicate DistinctRequests(rs: seq<Request>) {
    forall i, j :: 0 <= i < j < |rs| ==> rs[i].internalId != rs[j].internalId
  }

  lemma TwiceInSequence(xs: seq<int>, i: nat, j: nat)
    requires i < j < |xs| && xs[i] == xs[j]
    ensures multiset(xs)[xs[i]] >= 2
  {
    assert xs == xs[..j] + xs[j..];
    assert xs[..j][i] == xs[i] && xs[j..][0] == xs[j];
    assert xs[i] in multiset(xs[..j]) && xs[i] in multiset(xs[j..]);
  }

  lemma ConservedIsDistinct(s: Service)
    requires Conserved(s)
    ensures DistinctRequests(s.requests)
  {
    var ids := IdsOf(s.requests);
    forall i, j | 0 <= i < j < |s.requests|
      ensures s.requests[i].internalId != s.requests[j].internalId
    {
      assert multiset(s.added)[ids[i]] <= 1;
      if ids[i] == ids[j] {
        TwiceInSequence(ids, i, j);
      }
    }
  }

  /** The id a selected request is sent under again, or 0. */
  function KnownId(r: Request): int {
    if r.context.Some? then r.context.value.messageId else 0
  }

  /** The outgoing messages are consecutive and each carries one request. */
  ghost predicate Numbered(t: Transaction, firstId: int) {
    && (forall k :: 0 <= k < |t.payload| ==> t.payload[k].internalId == firstId + k)
    && (forall r :: r in t.carries ==> firstId <= t.carries[r] < firstId + |t.payload|)
    && (forall r, q :: r in t.carries && q in t.carries && r != q ==> t.carries[r] != t.carries[q])
  }

  ghost predicate OnlySelected(rs: seq<Request>, n: nat, t: Transaction)
    requires n <= |rs|
  {
    forall r :: r in t.carries ==> exists k :: 0 <= k < n && rs[k].internalId == r && Selectable(rs[k])
  }

  /** The message that carries the request asks for confirmation, and for the id and sequence number it already has. */
  ghost predicate CarriedFaithfully(r: Request, t: Transaction, firstId: int) {
    && r.internalId in t.carries
    && firstId <= t.carries[r.internalId] < firstId + |t.payload|
    && var m := t.payload[t.carries[r.internalId] - firstId];
       && m.messageId == KnownId(r) && (r.context.Some? ==> m.seqNo == r.context.value.seqNo)
       && m.requiresConfirmation
  }

  ghost predicate AllSelected(rs: seq<Request>, n: nat, t: Transaction, firstId: int)
    requires n <= |rs|
  {
    forall k :: 0 <= k < n && Selectable(rs[k]) ==> CarriedFaithfully(rs[k], t, firstId)
  }

  /** The transaction carries exactly the selectable requests, one to one. */
  ghost predicate SelectionFaithful(rs: seq<Request>, n: nat, t: Transaction, firstId: int)
    requires n <= |rs|
  {
    Numbered(t, firstId) && OnlySelected(rs, n, t) && AllSelected(rs, n, t, firstId)
  }

  lemma {:induction false} SelectIsFaithful(s: Service, firstId: int, n: nat)
    requires n <= |s.requests| && DistinctRequests(s.requests)
    ensures SelectionFaithful(s.requests, n, Select(s, firstId, n).transaction, firstId)
    decreases n
  {
    hide SelectOne;
    if n > 0 {
      SelectIsFaithful(s, firstId, n - 1);
      var a := Select(s, firstId, n - 1);
      SelectOneNumbered(a, s.requests[n - 1], firstId);
      SelectOneOnly(s.requests, n, a, firstId);
      SelectOneAll(s.requests, n, a, firstId);
    }
  }

  lemma SelectOneNumbered(a: Selection, r: Request, firstId: int)
    requires Numbered(a.transaction, firstId)
    ensures Numbered(SelectOne(a, r, firstId).transaction, firstId)
  {
  }

  lemma SelectOneOnly(rs: seq<Request>, n: nat, a: Selection, firstId: int)
    requires 0 < n <= |rs| && OnlySelected(rs, n - 1, a.transaction)
    ensures OnlySelected(rs, n, SelectOne(a, rs[n - 1], firstId).transaction)
  {
    var t := SelectOne(a, rs[n - 1], firstId).transaction;
    forall q | q in t.carries
      ensures exists k :: 0 <= k < n && rs[k].internalId == q && Selectable(rs[k])
    {
      if q in a.transaction.carries {
        var k :| 0 <= k < n - 1 && rs[k].internalId == q && Selectable(rs[k]);
      } else {
        assert rs[n - 1].internalId == q && Selectable(rs[n - 1]);
      }
    }
  }

  lemma SelectOneAll(rs: seq<Request>, n: nat, a: Selection, firstId: int)
    requires 0 < n <= |rs| && DistinctRequests(rs)
    requires Numbered(a.transaction, firstId) && AllSelected(rs, n - 1, a.transaction, firstId)
    ensures AllSelected(rs, n, SelectOne(a, rs[n - 1], firstId).transaction, firstId)
  {
    var t := SelectOne(a, rs[n - 1], firstId).transaction;
    forall k | 0 <= k < n && Selectable(rs[k])
      ensures CarriedFaithfully(rs[k], t, firstId)
    {
      if k < n - 1 {
        assert CarriedFaithfully(rs[k], a.transaction, firstId);
        assert rs[k].internalId != rs[n - 1].internalId;
      }
    }
  }

  ghost predicate DistinctMessages(payload: seq<Outgoing>) {
    forall i, j :: 0 <= i < j < |payload| ==> payload[i].internalId != payload[j].internalId
  }

  ghost predicate InPayload(payload: seq<Outgoing>, internalId: int) {
    exists k :: 0 <= k < |payload| && payload[k].internalId == internalId
  }

  ghost predicate PreparedOnly(payload: seq<Outgoing>, prepared: map<int, Prepared>) {
    forall m :: m in prepared ==> InPayload(payload, m)
  }

  ghost predicate AllPrepared(payload: seq<Outgoing>, prepared: map<int, Prepared>) {
    forall k :: 0 <= k < |payload| ==> payload[k].internalId in prepared
  }

  ghost predicate KnownKept(payload: seq<Outgoing>, prepared: map<int, Prepared>)
    requires AllPrepared(payload, prepared)
  {
    forall k :: 0 <= k < |payload| && payload[k].messageId != 0 ==>
      prepared[payload[k].internalId].messageId == payload[k].messageId
  }

  ghost predicate FreshBetween(low: int, high: int, payload: seq<Outgoing>, prepared: map<int, Prepared>)
    requires AllPrepared(payload, prepared)
  {
    forall k :: 0 <= k < |payload| && payload[k].messageId == 0 ==>
      low < prepared[payload[k].internalId].messageId <= high
  }

  ghost predicate FreshGrow(payload: seq<Outgoing>, prepared: map<int, Prepared>)
    requires AllPrepared(payload, prepared)
  {
    forall i, j :: 0 <= i < j < |payload| && payload[i].messageId == 0 && payload[j].messageId == 0 ==>
      prepared[payload[i].internalId].messageId < prepared[payload[j].internalId].messageId
  }

  /** What preparation does while nothing is reported: known ids are kept, fresh ones lie above the previous last id and
      grow along the payload. */
  ghost predicate PreparationFaithful(last: int, payload: seq<Outgoing>, p: Preparation) {
    && last <= p.ids.last
    && PreparedOnly(payload, p.prepared) && AllPrepared(payload, p.prepared)
    && KnownKept(payload, p.prepared)
    && FreshBetween(last, p.ids.last, payload, p.prepared)
    && FreshGrow(payload, p.prepared)
  }

  lemma {:induction false} PrepareIsFaithful(ids: Ids, payload: seq<Outgoing>, clocks: seq<int>, unauthorized: bool)
    requires |clocks| >= |payload| && DistinctMessages(payload) && ids.last % 4 == 0
    ensures var p := PrepareAll(ids, payload, clocks, unauthorized);
            p.ids.last % 4 == 0 && (!p.violated ==> PreparationFaithful(ids.last, payload, p))
    decreases |payload|
  {
    var n := |payload|;
    if n > 0 {
      PrepareIsFaithful(ids, payload[..n - 1], clocks, unauthorized);
      var p := PrepareAll(ids, payload[..n - 1], clocks, unauthorized);
      IdGrowsUnlessReported(p.ids.last, clocks[n - 1]);
      if !PrepareAll(ids, payload, clocks, unauthorized).violated {
        PrepareOneFaithful(ids.last, payload, p, clocks[n - 1], unauthorized);
      }
    }
  }

  lemma PrepareOneFaithful(last: int, payload: seq<Outgoing>, p: Preparation, clock: int, unauthorized: bool)
    requires payload != [] && DistinctMessages(payload) && p.ids.last % 4 == 0
    requires !p.violated && PreparationFaithful(last, payload[..|payload| - 1], p)
    requires !PrepareOne(p, payload[|payload| - 1], clock, unauthorized).violated
    ensures PreparationFaithful(last, payload, PrepareOne(p, payload[|payload| - 1], clock, unauthorized))
  {
    hide DistinctMessages, PreparedOnly, AllPrepared, KnownKept, FreshBetween, FreshGrow, NextId, SeqNoAfter, NextSeqNo;
    var n := |payload|;
    var m := payload[n - 1];
    var earlier := payload[..n - 1];
    var q := PrepareOne(p, m, clock, unauthorized);
    IdGrowsUnlessReported(p.ids.last, clock);
    assert payload == earlier + [m];
    var x := q.prepared[m.internalId];
    ExtendPrepared(earlier, m, p.prepared, x);
    ExtendFresh(last, p.ids.last, q.ids.last, earlier, m, p.prepared, x);
  }

  lemma ExtendPrepared(earlier: seq<Outgoing>, m: Outgoing, prepared: map<int, Prepared>, x: Prepared)
    requires PreparedOnly(earlier, prepared) && AllPrepared(earlier, prepared) && KnownKept(earlier, prepared)
    requires DistinctMessages(earlier + [m]) && (m.messageId != 0 ==> x.messageId == m.messageId)
    ensures PreparedOnly(earlier + [m], prepared[m.internalId := x])
    ensures AllPrepared(earlier + [m], prepared[m.internalId := x])
    ensures KnownKept(earlier + [m], prepared[m.internalId := x])
  {
    var payload := earlier + [m];
    assert payload[|earlier|] == m;
    forall i | i in prepared
      ensures InPayload(payload, i)
    {
      var k :| 0 <= k < |earlier| && earlier[k].internalId == i;
      assert payload[k].internalId == i;
    }
    assert forall k :: 0 <= k < |earlier| ==> payload[k].internalId != payload[|earlier|].internalId;
  }

  lemma ExtendFresh(low: int, mid: int, high: int, earlier: seq<Outgoing>, m: Outgoing, prepared: map<int, Prepared>,
                    x: Prepared)
    requires AllPrepared(earlier, prepared) && AllPrepared(earlier + [m], prepared[m.internalId := x])
    requires FreshBetween(low, mid, earlier, prepared) && FreshGrow(earlier, prepared) && low <= mid <= high
    requires DistinctMessages(earlier + [m]) && (m.messageId == 0 ==> mid < x.messageId <= high)
    ensures FreshBetween(low, high, earlier + [m], prepared[m.internalId := x])
    ensures FreshGrow(earlier + [m], prepared[m.internalId := x])
  {
    hide AllPrepared;
    var payload := earlier + [m];
    assert payload[|earlier|] == m;
    assert forall k :: 0 <= k < |earlier| ==> payload[k] == earlier[k] && earlier[k].internalId != m.internalId by {
      assert forall k :: 0 <= k < |earlier| ==> payload[k].internalId != payload[|earlier|].internalId;
    }
  }

  /** An id belongs to one request. */
  ghost predicate Functional(sent: set<Sent>) {
    forall x, y :: x in sent && y in sent && x.messageId == y.messageId ==> x.request == y.request
  }

  ghost predicate Bounded(sent: set<Sent>, last: int) {
    forall x :: x in sent ==> x.messageId <= last
  }

  /** The message a request's context speaks of. */
  function SentOf(r: Request): Sent
    requires r.context.Some?
  {
    Sent(r.context.value.messageId, r.context.value.seqNo, r.internalId)
  }

  ghost predicate ContextsSent(rs: seq<Request>, sent: set<Sent>) {
    forall k :: 0 <= k < |rs| && rs[k].context.Some? ==> SentOf(rs[k]) in sent
  }

  ghost predicate FlightsSent(inFlight: seq<InFlight>, sent: set<Sent>) {
    forall j :: 0 <= j < |inFlight| ==> SentIn(inFlight[j].transaction, inFlight[j].prepared) <= sent
  }

  /** Contexts and flights only hold ids that were prepared for their own requests. */
  ghost predicate Recorded(s: State) {
    s.ids.last % 4 == 0 && ContextsSent(s.service.requests, s.sent) && FlightsSent(s.inFlight, s.sent)
  }

  lemma PayloadDistinct(s: State, input: PassInput)
    requires Numbered(ServiceSelection(s).transaction, s.nextOutgoing)
    ensures DistinctMessages(FullPayload(s, input))
  {
    hide Select;
    var t := ServiceSelection(s).transaction;
    var payload := FullPayload(s, input);
    var b, n := |input.before|, |t.payload|;
    forall k | 0 <= k < |payload|
      ensures payload[k].internalId ==
        s.nextOutgoing + if k < b then n + k else if k < b + n then k - b else k
    {
    }
  }

  /** A request carried by the pass: its message in the payload. */
  lemma CarriedMessage(s: State, input: PassInput, r: int) returns (k: nat, i: nat)
    requires var t := ServiceSelection(s).transaction;
             SelectionFaithful(s.service.requests, |s.service.requests|, t, s.nextOutgoing) && r in t.carries
    ensures k < |s.service.requests| && s.service.requests[k].internalId == r && Selectable(s.service.requests[k])
    ensures i < |FullPayload(s, input)|
    ensures FullPayload(s, input)[i].internalId == ServiceSelection(s).transaction.carries[r]
    ensures var m := FullPayload(s, input)[i];
            && m.messageId == KnownId(s.service.requests[k]) && m.requiresConfirmation
            && (m.messageId != 0 ==> m.seqNo == s.service.requests[k].context.value.seqNo)
  {
    hide Select;
    var t := ServiceSelection(s).transaction;
    var rs := s.service.requests;
    k :| 0 <= k < |rs| && rs[k].internalId == r && Selectable(rs[k]);
    assert CarriedFaithfully(rs[k], t, s.nextOutgoing);
    i := |input.before| + t.carries[r] - s.nextOutgoing;
    assert FullPayload(s, input)[i] == t.payload[t.carries[r] - s.nextOutgoing];
  }

  /** What the faithfulness lemmas give for one pass that reports nothing. */
  ghost predicate FaithfulPass(s: State, input: PassInput)
    requires |input.clocks| >= |FullPayload(s, input)|
  {
    && SelectionFaithful(s.service.requests, |s.service.requests|, ServiceSelection(s).transaction, s.nextOutgoing)
    && DistinctMessages(FullPayload(s, input))
    && PreparationFaithful(s.ids.last, FullPayload(s, input), PassPreparation(s, input))
  }

  lemma PassIsFaithful(s: State, input: PassInput)
    requires Enabled(s, Pass(input)) && DistinctRequests(s.service.requests) && s.ids.last % 4 == 0
    ensures PassPreparation(s, input).ids.last % 4 == 0
    ensures !PassPreparation(s, input).violated ==> FaithfulPass(s, input)
  {
    hide Select, FullPayload, PrepareAll, PreparationFaithful, DistinctMessages;
    SelectIsFaithful(s.service, s.nextOutgoing, |s.service.requests|);
    PayloadDistinct(s, input);
    PrepareIsFaithful(s.ids, FullPayload(s, input), input.clocks, input.unauthorized);
  }

  lemma {:induction false} PreparedAreInPayload(ids: Ids, payload: seq<Outgoing>, clocks: seq<int>, unauthorized: bool)
    requires |clocks| >= |payload|
    ensures forall m :: m in PrepareAll(ids, payload, clocks, unauthorized).prepared ==> InPayload(payload, m)
    decreases |payload|
  {
    var n := |payload|;
    if n > 0 {
      var earlier := payload[..n - 1];
      PreparedAreInPayload(ids, earlier, clocks, unauthorized);
      assert InPayload(payload, payload[n - 1].internalId);
      forall m | InPayload(earlier, m)
        ensures InPayload(payload, m)
      {
        var k :| 0 <= k < |earlier| && earlier[k].internalId == m;
        assert payload[k].internalId == m;
      }
    }
  }

  // ---------- when a pass reuses an id ----------

  /** The id that message i of the payload gets if it asks for a fresh one; it depends on nothing but the counters, the
      payload and the clock readings. */
  function FreshId(s: State, input: PassInput, i: nat): int
    requires Enabled(s, Pass(input)) && i < |FullPayload(s, input)|
  {
    NextId(PrepareAll(s.ids, FullPayload(s, input)[..i], input.clocks, input.unauthorized).ids.last, input.clocks[i])
  }

  /** Message i asks for a fresh id, is not dropped, and carries the request. */
  ghost predicate GivenTo(s: State, input: PassInput, i: nat, request: int)
    requires Enabled(s, Pass(input))
  {
    var t := ServiceSelection(s).transaction;
    && i < |FullPayload(s, input)| && FullPayload(s, input)[i].messageId == 0
    && request in t.carries && t.carries[request] == FullPayload(s, input)[i].internalId
    && FullPayload(s, input)[i].internalId in PassPreparation(s, input).prepared
  }

  /** No fresh id given to a request is one that another request of the session already has. */
  ghost predicate NoReuse(s: State, input: PassInput)
    requires Enabled(s, Pass(input))
  {
    forall i: nat, r, x :: GivenTo(s, input, i, r) && x in s.sent && x.messageId == FreshId(s, input, i) ==> x.request == r
  }

  /** No two requests get the same fresh id in the pass. */
  ghost predicate NoTwins(s: State, input: PassInput)
    requires Enabled(s, Pass(input))
  {
    forall i: nat, r, j: nat, q ::
      GivenTo(s, input, i, r) && GivenTo(s, input, j, q) && FreshId(s, input, i) == FreshId(s, input, j) ==> r == q
  }

  /** What a message is prepared as, if it is. */
  lemma {:induction false} PreparedIs(ids: Ids, payload: seq<Outgoing>, clocks: seq<int>, unauthorized: bool, i: nat)
    requires |clocks| >= |payload| && DistinctMessages(payload) && i < |payload|
    requires payload[i].internalId in PrepareAll(ids, payload, clocks, unauthorized).prepared
    ensures var x := PrepareAll(ids, payload, clocks, unauthorized).prepared[payload[i].internalId];
            if payload[i].messageId != 0 then x == Prepared(payload[i].messageId, payload[i].seqNo)
            else x.messageId == NextId(PrepareAll(ids, payload[..i], clocks, unauthorized).ids.last, clocks[i])
    decreases |payload|
  {
    hide NextId;
    var n := |payload|;
    var earlier := payload[..n - 1];
    if i < n - 1 {
      PreparedIs(ids, earlier, clocks, unauthorized, i);
      assert earlier[..i] == payload[..i];
    } else {
      NotPreparedBefore(ids, payload, clocks, unauthorized);
    }
  }

  lemma NotPreparedBefore(ids: Ids, payload: seq<Outgoing>, clocks: seq<int>, unauthorized: bool)
    requires |clocks| >= |payload| && DistinctMessages(payload) && payload != []
    ensures var n := |payload|;
            payload[n - 1].internalId !in PrepareAll(ids, payload[..n - 1], clocks, unauthorized).prepared
  {
    hide PrepareAll;
    PreparedAreInPayload(ids, payload[..|payload| - 1], clocks, unauthorized);
  }

  /** Fresh ids grow along the messages that are kept, unless a pass in plain mode goes on after a report. */
  lemma {:induction false} FreshIdsGrow(ids: Ids, payload: seq<Outgoing>, clocks: seq<int>, unauthorized: bool,
                                        i: nat, j: nat)
    requires |clocks| >= |payload| && DistinctMessages(payload) && ids.last % 4 == 0 && i < j < |payload|
    requires !unauthorized || !PrepareAll(ids, payload, clocks, unauthorized).violated
    requires payload[i].messageId == 0 && payload[j].messageId == 0
    requires payload[i].internalId in PrepareAll(ids, payload, clocks, unauthorized).prepared
    requires payload[j].internalId in PrepareAll(ids, payload, clocks, unauthorized).prepared
    ensures NextId(PrepareAll(ids, payload[..i], clocks, unauthorized).ids.last, clocks[i])
            < NextId(PrepareAll(ids, payload[..j], clocks, unauthorized).ids.last, clocks[j])
    decreases |payload|
  {
    hide NextId;
    var n := |payload|;
    var earlier := payload[..n - 1];
    NotPreparedBefore(ids, payload, clocks, unauthorized);
    if j < n - 1 {
      FreshIdsGrow(ids, earlier, clocks, unauthorized, i, j);
      assert earlier[..i] == payload[..i] && earlier[..j] == payload[..j];
    } else {
      LastKeptGrows(ids, payload, clocks, unauthorized, i);
    }
  }

  lemma LastKeptGrows(ids: Ids, payload: seq<Outgoing>, clocks: seq<int>, unauthorized: bool, i: nat)
    requires |clocks| >= |payload| && DistinctMessages(payload) && ids.last % 4 == 0 && i < |payload| - 1
    requires !PrepareAll(ids, payload, clocks, unauthorized).violated
    requires payload[i].messageId == 0 && payload[|payload| - 1].messageId == 0
    ensures NextId(PrepareAll(ids, payload[..i], clocks, unauthorized).ids.last, clocks[i])
            < NextId(PrepareAll(ids, payload[..|payload| - 1], clocks, unauthorized).ids.last, clocks[|payload| - 1])
  {
    hide PrepareAll, NextId, DistinctMessages;
    PrepareIsFaithful(ids, payload, clocks, unauthorized);
    PreparedIs(ids, payload, clocks, unauthorized, i);
    PreparedIs(ids, payload, clocks, unauthorized, |payload| - 1);
  }

  /** A message the pass records is an old one, or a fresh id given to a request. */
  lemma NewMessage(s: State, input: PassInput, x: Sent)
    requires Enabled(s, Pass(input)) && DistinctRequests(s.service.requests) && ContextsSent(s.service.requests, s.sent)
    requires x in SentIn(ServiceSelection(s).transaction, PassPreparation(s, input).prepared)
    ensures x in s.sent || exists i: nat :: GivenTo(s, input, i, x.request) && FreshId(s, input, i) == x.messageId
  {
    hide Select, FullPayload, PrepareAll, DistinctMessages, NextId, FreshId, Numbered, OnlySelected, AllSelected;
    SelectIsFaithful(s.service, s.nextOutgoing, |s.service.requests|);
    PayloadDistinct(s, input);
    var k, i := CarriedMessage(s, input, x.request);
    FreshIsPrepared(s, input, i);
    if FullPayload(s, input)[i].messageId == 0 {
      assert GivenTo(s, input, i, x.request);
    }
  }

  lemma FreshIsPrepared(s: State, input: PassInput, i: nat)
    requires Enabled(s, Pass(input)) && i < |FullPayload(s, input)| && DistinctMessages(FullPayload(s, input))
    requires FullPayload(s, input)[i].internalId in PassPreparation(s, input).prepared
    ensures var m := FullPayload(s, input)[i];
            var x := PassPreparation(s, input).prepared[m.internalId];
            if m.messageId != 0 then x == Prepared(m.messageId, m.seqNo) else x.messageId == FreshId(s, input, i)
  {
    hide FullPayload, PrepareAll, DistinctMessages, NextId;
    PreparedIs(s.ids, FullPayload(s, input), input.clocks, input.unauthorized, i);
  }

  /** Every fresh id given to a request is recorded. */
  lemma GivenIsRecorded(s: State, input: PassInput, i: nat, r: int)
    requires Enabled(s, Pass(input)) && DistinctRequests(s.service.requests) && GivenTo(s, input, i, r)
    ensures exists x :: x in SentIn(ServiceSelection(s).transaction, PassPreparation(s, input).prepared)
                        && x.messageId == FreshId(s, input, i) && x.request == r
  {
    hide Select, FullPayload, PrepareAll, DistinctMessages, NextId, FreshId, Numbered, OnlySelected, AllSelected;
    SelectIsFaithful(s.service, s.nextOutgoing, |s.service.requests|);
    PayloadDistinct(s, input);
    FreshIsPrepared(s, input, i);
    var x := PassPreparation(s, input).prepared[FullPayload(s, input)[i].internalId];
    assert Sent(x.messageId, x.seqNo, r) in SentIn(ServiceSelection(s).transaction, PassPreparation(s, input).prepared);
  }

  /** Whatever the clock does and whether or not anything is reported: a pass keeps the ids of the session's requests
      apart if and only if it gives no request an id of another request, nor two requests the same id. */
  lemma PassKeepsIdsApart(s: State, input: PassInput)
    requires Enabled(s, Pass(input)) && Recorded(s) && DistinctRequests(s.service.requests) && Functional(s.sent)
    ensures Functional(DoPass(s, input).sent) <==> NoReuse(s, input) && NoTwins(s, input)
  {
    hide Select, FullPayload, PrepareAll, SentIn, FreshId, DistinctRequests, FlightsSent, ContextsSent, PassPreparation;
    var recorded := SentIn(ServiceSelection(s).transaction, PassPreparation(s, input).prepared);
    var u := DoPass(s, input);
    assert u.sent == s.sent + recorded;
    forall i: nat, r | GivenTo(s, input, i, r)
      ensures exists x :: x in recorded && x.messageId == FreshId(s, input, i) && x.request == r
    {
      GivenIsRecorded(s, input, i, r);
    }
    if NoReuse(s, input) && NoTwins(s, input) {
      forall x, y | x in u.sent && y in u.sent && x.messageId == y.messageId
        ensures x.request == y.request
      {
        if x !in s.sent {
          NewMessage(s, input, x);
        }
        if y !in s.sent {
          NewMessage(s, input, y);
        }
      }
    }
  }

  /** In encrypted mode, or when nothing is reported, only old ids matter. */
  lemma NoTwinsUnlessReported(s: State, input: PassInput)
    requires Enabled(s, Pass(input)) && DistinctRequests(s.service.requests) && s.ids.last % 4 == 0
    requires !input.unauthorized || !PassPreparation(s, input).violated
    ensures NoTwins(s, input)
  {
    hide Select, FullPayload, PrepareAll, DistinctRequests, DistinctMessages, NextId;
    SelectIsFaithful(s.service, s.nextOutgoing, |s.service.requests|);
    PayloadDistinct(s, input);
    forall i: nat, r, j: nat, q | GivenTo(s, input, i, r) && GivenTo(s, input, j, q) && FreshId(s, input, i) == FreshId(s, input, j)
      ensures r == q
    {
      if i < j {
        FreshIdsGrow(s.ids, FullPayload(s, input), input.clocks, input.unauthorized, i, j);
      } else if j < i {
        FreshIdsGrow(s.ids, FullPayload(s, input), input.clocks, input.unauthorized, j, i);
      }
    }
  }

  /** A pass that reports nothing, and every pass in encrypted mode, keeps the ids apart if and only if no fresh id it gives
      to a request is one that another request of the session already has. */
  lemma UnreportedPassKeepsIdsApart(s: State, input: PassInput)
    requires Enabled(s, Pass(input)) && Recorded(s) && DistinctRequests(s.service.requests) && Functional(s.sent)
    requires !input.unauthorized || !PassPreparation(s, input).violated
    ensures Functional(DoPass(s, input).sent) <==> NoReuse(s, input)
  {
    hide DoPass, NoReuse, NoTwins, PassPreparation, Recorded, DistinctRequests;
    RecordedIsMultipleOfFour(s);
    PassKeepsIdsApart(s, input);
    NoTwinsUnlessReported(s, input);
  }

  lemma RecordedIsMultipleOfFour(s: State)
    requires Recorded(s)
    ensures s.ids.last % 4 == 0
  {
  }

  /** In clock terms: readings above every id of the session's requests never reuse one. */
  lemma LateReadingsNeverReuse(s: State, input: PassInput)
    requires Enabled(s, Pass(input))
    requires forall x, i :: x in s.sent && 0 <= i < |FullPayload(s, input)| ==> x.messageId < input.clocks[i]
    ensures NoReuse(s, input)
  {
    hide FullPayload, PrepareAll;
  }

  /** Nor do readings that are not below the last id issued, while that is the largest id of the session. */
  lemma UnreportedNeverReusesBelowLast(s: State, input: PassInput)
    requires Enabled(s, Pass(input)) && DistinctRequests(s.service.requests) && s.ids.last % 4 == 0
    requires !PassPreparation(s, input).violated && Bounded(s.sent, s.ids.last)
    ensures NoReuse(s, input)
    ensures forall i: nat, r :: GivenTo(s, input, i, r) ==> FreshId(s, input, i) <= PassPreparation(s, input).ids.last
  {
    hide Select, FullPayload, PrepareAll, SelectionFaithful, DistinctMessages, NextId, FreshId;
    PassIsFaithful(s, input);
    forall i: nat, r | GivenTo(s, input, i, r)
      ensures s.ids.last < FreshId(s, input, i) <= PassPreparation(s, input).ids.last
    {
      FreshIsPrepared(s, input, i);
    }
  }

  // ---------- the invariants over runs ----------

  lemma {:induction false} LastStaysMultipleOfFour(ids: Ids, payload: seq<Outgoing>, clocks: seq<int>, unauthorized: bool)
    requires |clocks| >= |payload| && ids.last % 4 == 0
    ensures PrepareAll(ids, payload, clocks, unauthorized).ids.last % 4 == 0
    decreases |payload|
  {
    var n := |payload|;
    if n > 0 {
      LastStaysMultipleOfFour(ids, payload[..n - 1], clocks, unauthorized);
    }
  }

  lemma PreparedContextsSent(rs: seq<Request>, t: Transaction, prepared: map<int, Prepared>, sent: set<Sent>)
    requires ContextsSent(rs, sent)
    ensures ContextsSent(Each(rs, (r: Request) => PreparedOne(r, t, prepared)), sent + SentIn(t, prepared))
  {
  }

  lemma CompletedContextsSent(rs: seq<Request>, t: Transaction, transactionIds: map<int, int>, prepared: map<int, Prepared>,
                              sent: set<Sent>)
    requires ContextsSent(rs, sent) && SentIn(t, prepared) <= sent
    ensures ContextsSent(Each(rs, (r: Request) => CompletedOne(r, t, transactionIds, prepared)), sent)
  {
    forall k | 0 <= k < |rs| && CompletedOne(rs[k], t, transactionIds, prepared).context.Some?
      ensures SentOf(CompletedOne(rs[k], t, transactionIds, prepared)) in sent
    {
      var r := rs[k].internalId;
      if r in t.carries && t.carries[r] in prepared {
        assert Sent(prepared[t.carries[r]].messageId, prepared[t.carries[r]].seqNo, r) in SentIn(t, prepared);
      }
    }
  }

  lemma PassRecorded(s: State, input: PassInput)
    requires Enabled(s, Pass(input)) && Recorded(s)
    ensures Recorded(DoPass(s, input))
  {
    hide Select, FullPayload, PrepareAll, SentIn, ContextsSent, NextId;
    var t := ServiceSelection(s).transaction;
    var p := PassPreparation(s, input);
    var a := AfterPrepared(s, input);
    LastStaysMultipleOfFour(s.ids, FullPayload(s, input), input.clocks, input.unauthorized);
    IdGrowsUnlessReported(p.ids.last, input.containerClock);
    PreparedContextsSent(s.service.requests, t, p.prepared, s.sent);
    if p.violated || input.saltSetEmpty {
      NothingSent(t);
      CompletedContextsSent(a.service.requests, t, map[], map[], a.sent);
    } else if p.order != [] {
      FlightAdded(s, a, InFlight(t, p.prepared));
    }
  }

  lemma OutcomeRecorded(s: State, index: nat, success: bool, transactionId: int)
    requires index < |s.inFlight| && Recorded(s)
    ensures Recorded(DoOutcome(s, index, success, transactionId))
  {
    hide SentIn, AllInto;
    var f := s.inFlight[index];
    if success {
      CompletedContextsSent(s.service.requests, f.transaction, AllInto(f.transaction, transactionId), f.prepared, s.sent);
    }
  }

  lemma NothingSent(t: Transaction)
    ensures SentIn(t, map[]) == {}
  {
  }

  lemma FlightAdded(s: State, a: State, f: InFlight)
    requires FlightsSent(a.inFlight, a.sent) && SentIn(f.transaction, f.prepared) <= a.sent
    ensures FlightsSent(a.inFlight + [f], a.sent)
  {
  }

  lemma RemovalRecorded(rs: seq<Request>, k: nat, sent: set<Sent>)
    requires ContextsSent(rs, sent) && k < |rs|
    ensures ContextsSent(rs[..k] + rs[k + 1..], sent)
  {
  }

  lemma UpdateRecorded(rs: seq<Request>, rs': seq<Request>, sent: set<Sent>)
    requires ContextsSent(rs, sent) && |rs'| == |rs|
    requires forall k :: 0 <= k < |rs| ==>
               && rs'[k].internalId == rs[k].internalId
               && (rs'[k].context.Some? ==>
                     && rs[k].context.Some?
                     && rs'[k].context.value.messageId == rs[k].context.value.messageId
                     && rs'[k].context.value.seqNo == rs[k].context.value.seqNo)
    ensures ContextsSent(rs', sent)
  {
  }

  lemma AddRecorded(rs: seq<Request>, r: Request, sent: set<Sent>)
    requires ContextsSent(rs, sent) && r.context == None
    ensures ContextsSent(rs + [r], sent)
  {
  }

  lemma ForgottenRecorded(rs: seq<Request>)
    requires forall k :: 0 <= k < |rs| ==> rs[k].context == None
    ensures ContextsSent(rs, {})
  {
  }

  lemma QuietRecorded(s: State, a: Action)
    requires Recorded(s) && Enabled(s, a) && !a.Pass? && !a.Outcome?
    requires a == ResetSession ==> s.inFlight == []
    ensures Recorded(Apply(s, a))
  {
    hide ContextsSent, FlightsSent, NextId, Cancel, Respond, ChangeSession;
    match a {
      case AddRequest(id) => AddRecorded(s.service.requests, Request(id, None), s.sent);
      case CancelRequest(id) => CancelRecorded(s, id);
      case Receive(messageId, reply) => RespondRecorded(s, messageId, reply);
      case TimeFix(clock) => IdGrowsUnlessReported(s.ids.last, clock);
      case ResetSession => ReplacedRecorded(s);
      case _ => NoticeRecorded(s, a);
    }
  }

  lemma CancelRecorded(s: State, id: int)
    requires Recorded(s)
    ensures Recorded(s.(service := Cancel(s.service, id)))
  {
    hide ContextsSent, FlightsSent;
    var k := IndexOfId(s.service.requests, id);
    if k < |s.service.requests| {
      RemovalRecorded(s.service.requests, k, s.sent);
    }
  }

  lemma RespondRecorded(s: State, messageId: int, reply: Reply)
    requires Recorded(s)
    ensures Recorded(s.(service := Respond(s.service, messageId, reply)))
  {
    hide ContextsSent, FlightsSent;
    var k := IndexOfMessage(s.service.requests, messageId);
    if k < |s.service.requests| {
      RemovalRecorded(s.service.requests, k, s.sent);
    }
  }

  lemma ReplacedRecorded(s: State)
    requires s.inFlight == []
    ensures Recorded(Apply(s, ResetSession))
  {
    hide ContextsSent, FlightsSent;
    ForgottenRecorded(Apply(s, ResetSession).service.requests);
    NothingInFlight();
  }

  lemma NoticeRecorded(s: State, a: Action)
    requires Recorded(s) && Enabled(s, a)
    requires || a.TransactionsFailed? || a.AllTransactionsFailed? || a.DeliveryFailed? || a.DeliveryConfirmed?
             || a.ConnectionChanged? || a.ServerChangedSession?
    ensures Recorded(Apply(s, a))
  {
    hide ContextsSent, FlightsSent;
    UpdateRecorded(s.service.requests, Apply(s, a).service.requests, s.sent);
  }

  lemma NothingInFlight()
    ensures FlightsSent([], {})
  {
  }

  lemma RecordedStep(s: State, a: Action)
    requires Recorded(s) && Enabled(s, a)
    requires a == ResetSession ==> s.inFlight == []
    ensures Recorded(Apply(s, a))
  {
    hide Recorded, DoPass, DoOutcome;
    match a {
      case Pass(input) => PassRecorded(s, input);
      case Outcome(index, success, transactionId) => OutcomeRecorded(s, index, success, transactionId);
      case _ => QuietRecorded(s, a);
    }
  }

  /** The session is never replaced while a transaction is in flight. */
  predicate QuietResets(s: State, run: seq<Action>)
    requires Legal(s, run)
    decreases |run|
  {
    run == [] || ((run[0] == ResetSession ==> s.inFlight == []) && QuietResets(Apply(s, run[0]), run[1..]))
  }

  /** The outcome of a transaction follows its pass at once. That is how TcpTransport, the transport of the repository,
      runs: it completes each transaction inside the callback that receives it, on the queue of the pass. */
  predicate Prompt(s: State, run: seq<Action>)
    requires Legal(s, run)
    decreases |run|
  {
    run == [] || ((s.inFlight != [] ==> run[0].Outcome?) && Prompt(Apply(s, run[0]), run[1..]))
  }

  lemma {:induction false} PromptIsQuiet(s: State, run: seq<Action>)
    requires Legal(s, run) && Prompt(s, run)
    ensures QuietResets(s, run)
    decreases |run|
  {
    hide Apply;
    if run != [] {
      PromptIsQuiet(Apply(s, run[0]), run[1..]);
    }
  }

  /** One action in front of a run. */
  lemma Prepend(s: State, a: Action, run: seq<Action>)
    requires Enabled(s, a) && Legal(Apply(s, a), run)
    ensures Legal(s, [a] + run) && Exec(s, [a] + run) == Exec(Apply(s, a), run)
    ensures QuietResets(s, [a] + run) <==> (a == ResetSession ==> s.inFlight == []) && QuietResets(Apply(s, a), run)
    ensures Prompt(s, [a] + run) <==> (s.inFlight != [] ==> a.Outcome?) && Prompt(Apply(s, a), run)
  {
    hide Apply, Enabled;
    assert ([a] + run)[1..] == run;
  }

  ghost predicate Sane(s: State) {
    Recorded(s) && Conserved(s.service)
  }

  lemma SaneStep(s: State, a: Action)
    requires Sane(s) && Enabled(s, a)
    requires a == ResetSession ==> s.inFlight == []
    ensures Sane(Apply(s, a))
  {
    hide Recorded, Conserved, Apply;
    RecordedStep(s, a);
    ConservedStep(s, a);
  }

  lemma {:induction false} SaneHolds(s: State, run: seq<Action>)
    requires Sane(s) && Legal(s, run) && QuietResets(s, run)
    ensures Sane(Exec(s, run))
    decreases |run|
  {
    hide Sane;
    if run != [] {
      SaneStep(s, run[0]);
      SaneHolds(Apply(s, run[0]), run[1..]);
    }
  }

  /** Every pass of the run gives its requests ids no other request of the session has. */
  ghost predicate NeverReuses(s: State, run: seq<Action>)
    requires Legal(s, run)
    decreases |run|
  {
    run == [] || ((run[0].Pass? ==> NoReuse(s, run[0].input) && NoTwins(s, run[0].input))
                  && NeverReuses(Apply(s, run[0]), run[1..]))
  }

  /** In every state of the run, an id belongs to one request. */
  ghost predicate StaysFunctional(s: State, run: seq<Action>)
    requires Legal(s, run)
    decreases |run|
  {
    Functional(s.sent) && (run == [] || StaysFunctional(Apply(s, run[0]), run[1..]))
  }

  lemma FunctionalStep(s: State, a: Action)
    requires Sane(s) && Enabled(s, a) && Functional(s.sent)
    ensures Functional(Apply(s, a).sent) <==> (a.Pass? ==> NoReuse(s, a.input) && NoTwins(s, a.input))
  {
    hide DoPass, NoReuse, NoTwins, Recorded, Conserved, Functional;
    ConservedIsDistinct(s.service);
    match a {
      case Pass(input) => PassKeepsIdsApart(s, input);
      case ResetSession => EmptyIsFunctional();
      case _ =>
    }
  }

  lemma EmptyIsFunctional()
    ensures Functional({})
  {
  }

  /** Over any run of a session, ids belong to one request throughout if and only if no pass reuses one. */
  lemma {:induction false} IdsStayApartExactly(s: State, run: seq<Action>)
    requires Sane(s) && Functional(s.sent) && Legal(s, run) && Prompt(s, run)
    ensures StaysFunctional(s, run) <==> NeverReuses(s, run)
    decreases |run|
  {
    hide Sane, Functional, NoReuse, NoTwins, Apply;
    if run != [] {
      FunctionalStep(s, run[0]);
      SaneStep(s, run[0]);
      if Functional(Apply(s, run[0]).sent) {
        IdsStayApartExactly(Apply(s, run[0]), run[1..]);
      } else {
        NotFunctionalAtStart(Apply(s, run[0]), run[1..]);
      }
    }
  }

  lemma NotFunctionalAtStart(s: State, run: seq<Action>)
    requires Legal(s, run) && !Functional(s.sent)
    ensures !StaysFunctional(s, run)
  {
  }

  lemma {:induction false} FunctionalAtEnd(s: State, run: seq<Action>)
    requires Legal(s, run) && StaysFunctional(s, run)
    ensures Functional(Exec(s, run).sent)
    decreases |run|
  {
    hide Functional, Apply;
    if run != [] {
      FunctionalAtEnd(Apply(s, run[0]), run[1..]);
    }
  }

  // ---------- the routing theorems ----------

  /** The k-th listed request has an id of its own, and a reply to that id removes this request and no other and tells
      the application exactly what came: the data, the error, or nothing for any other service message. */
  ghost predicate RepliesReach(s: State, k: nat, reply: Reply)
    requires k < |s.service.requests| && s.service.requests[k].context.Some?
  {
    var r := s.service.requests[k];
    var m := r.context.value.messageId;
    && SentOf(r) in s.sent
    && (forall x :: x in s.sent && x.messageId == m ==> x.request == r.internalId)
    && (forall j :: 0 <= j < |s.service.requests| && SentAs(s.service.requests[j], m) ==> j == k)
    && var t := Respond(s.service, m, reply);
       && t.removed == s.service.removed + [r.internalId]
       && t.requests == s.service.requests[..k] + s.service.requests[k + 1..]
       && t.callbacks == s.service.callbacks + match reply
                                               case DataReply(data) => [Completion(r.internalId, data)]
                                               case ErrorReply(code, text) => [Failure(r.internalId, code, text)]
                                               case _ => []
  }

  lemma FunctionalRoutes(s: State, k: nat, reply: Reply)
    requires Sane(s) && Functional(s.sent) && !reply.Escapes?
    requires k < |s.service.requests| && s.service.requests[k].context.Some?
    ensures RepliesReach(s, k, reply)
  {
    hide Conserved, FlightsSent;
    ConservedIsDistinct(s.service);
    var rs := s.service.requests;
    var m := rs[k].context.value.messageId;
    forall j | 0 <= j < |rs| && SentAs(rs[j], m)
      ensures j == k
    {
      assert SentOf(rs[j]) in s.sent && SentOf(rs[k]) in s.sent;
    }
    assert SentAs(rs[k], m);
    assert IndexOfMessage(rs, m) == k;
  }

  /** As long as no pass of the current session has reused an id, whatever was reported or not: no two listed requests
      share a message id, and a reply removes exactly the request that was prepared under the id it answers. The run is
      split where the session began. */
  lemma RepliesReachTheirRequest(earlier: seq<Action>, session: seq<Action>, k: nat, reply: Reply)
    requires Legal(INITIAL, earlier) && Prompt(INITIAL, earlier) && Exec(INITIAL, earlier).sent == {}
    requires var start := Exec(INITIAL, earlier);
             Legal(start, session) && Prompt(start, session) && NeverReuses(start, session)
    requires !reply.Escapes?
    requires var s := Exec(Exec(INITIAL, earlier), session);
             k < |s.service.requests| && s.service.requests[k].context.Some?
    ensures RepliesReach(Exec(Exec(INITIAL, earlier), session), k, reply)
  {
    hide Exec, Prompt, Legal, QuietResets, NeverReuses, StaysFunctional, RepliesReach, Functional, Sane;
    InitialIsSane();
    EmptyIsFunctional();
    PromptIsQuiet(INITIAL, earlier);
    SaneHolds(INITIAL, earlier);
    var start := Exec(INITIAL, earlier);
    PromptIsQuiet(start, session);
    SaneHolds(start, session);
    IdsStayApartExactly(start, session);
    FunctionalAtEnd(start, session);
    FunctionalRoutes(Exec(start, session), k, reply);
  }

  lemma InitialIsSane()
    ensures Sane(INITIAL)
  {
  }

  /** In clock terms: while no reading of the session was below the last id issued, reported or not, the ids of its
      requests are distinct and at most that last one. */
  ghost predicate Routed(s: State) {
    Sane(s) && (!s.regressed ==> Functional(s.sent) && Bounded(s.sent, s.ids.last))
  }

  lemma PassBounded(s: State, input: PassInput)
    requires Enabled(s, Pass(input)) && Recorded(s) && DistinctRequests(s.service.requests)
    requires !PassPreparation(s, input).violated && Bounded(s.sent, s.ids.last)
    ensures Bounded(AfterPrepared(s, input).sent, PassPreparation(s, input).ids.last)
  {
    hide Select, FullPayload, PrepareAll, FaithfulPass, SentIn, GivenTo, FreshId, NoReuse, DistinctRequests;
    UnreportedNeverReusesBelowLast(s, input);
    PassIsFaithful(s, input);
    PassRaisesLast(s, input);
    var u := AfterPrepared(s, input);
    forall x | x in u.sent
      ensures x.messageId <= u.ids.last
    {
      if x !in s.sent {
        NewMessage(s, input, x);
      }
    }
  }

  lemma PassRaisesLast(s: State, input: PassInput)
    requires Enabled(s, Pass(input)) && FaithfulPass(s, input)
    ensures s.ids.last <= PassPreparation(s, input).ids.last
  {
    hide Select, FullPayload, PrepareAll, SelectionFaithful, DistinctMessages;
  }

  lemma PassRouted(s: State, input: PassInput)
    requires Enabled(s, Pass(input)) && Recorded(s) && DistinctRequests(s.service.requests)
    requires Functional(s.sent) && Bounded(s.sent, s.ids.last)
    requires !DoPass(s, input).regressed
    ensures Functional(DoPass(s, input).sent) && Bounded(DoPass(s, input).sent, DoPass(s, input).ids.last)
  {
    hide Select, FullPayload, PrepareAll, SentIn, Functional, NoReuse, Recorded, DistinctRequests;
    RecordedIsMultipleOfFour(s);
    var p := PassPreparation(s, input);
    UnreportedNeverReusesBelowLast(s, input);
    UnreportedPassKeepsIdsApart(s, input);
    PassBounded(s, input);
    LastStaysMultipleOfFour(s.ids, FullPayload(s, input), input.clocks, input.unauthorized);
    IdGrowsUnlessReported(p.ids.last, input.containerClock);
  }

  lemma RoutedStep(s: State, a: Action)
    requires Routed(s) && Enabled(s, a)
    requires a == ResetSession ==> s.inFlight == []
    ensures Routed(Apply(s, a))
  {
    hide DoPass, DoOutcome, Recorded, Conserved, Functional;
    SaneStep(s, a);
    RecordedIsMultipleOfFour(s);
    match a {
      case Pass(input) =>
        RegressedStays(s, input);
        ConservedIsDistinct(s.service);
        if !DoPass(s, input).regressed {
          PassRouted(s, input);
        }
      case Outcome(index, success, transactionId) => OutcomeKeepsIds(s, index, success, transactionId);
      case TimeFix(clock) => IdGrowsUnlessReported(s.ids.last, clock);
      case ResetSession => EmptyIsFunctional();
      case _ =>
    }
  }

  lemma RegressedStays(s: State, input: PassInput)
    requires Enabled(s, Pass(input))
    ensures s.regressed ==> DoPass(s, input).regressed
  {
    hide Select, FullPayload, PrepareAll;
  }

  lemma OutcomeKeepsIds(s: State, index: nat, success: bool, transactionId: int)
    requires index < |s.inFlight|
    ensures var u := DoOutcome(s, index, success, transactionId);
            u.sent == s.sent && u.ids == s.ids && u.regressed == s.regressed
  {
  }

  lemma {:induction false} RoutedHolds(s: State, run: seq<Action>)
    requires Routed(s) && Legal(s, run) && QuietResets(s, run)
    ensures Routed(Exec(s, run))
    decreases |run|
  {
    hide Routed;
    if run != [] {
      RoutedStep(s, run[0]);
      RoutedHolds(Apply(s, run[0]), run[1..]);
    }
  }

  /** Every clock reading of the session at least the last id issued: then replies reach their requests. */
  lemma RepliesReachWhileClockAhead(run: seq<Action>, k: nat, reply: Reply)
    requires Legal(INITIAL, run) && Prompt(INITIAL, run) && !reply.Escapes?
    requires var s := Exec(INITIAL, run); !s.regressed && k < |s.service.requests| && s.service.requests[k].context.Some?
    ensures RepliesReach(Exec(INITIAL, run), k, reply)
  {
    hide Exec, Prompt, Legal, QuietResets, RepliesReach, Functional, Sane;
    InitialIsSane();
    EmptyIsFunctional();
    PromptIsQuiet(INITIAL, run);
    RoutedHolds(INITIAL, run);
    FunctionalRoutes(Exec(INITIAL, run), k, reply);
  }

  // ---------- resending and containers ----------

  /** A request whose transaction failed in transit is selected again, under the id and sequence number it already had. */
  lemma FailedIsResentUnderSameId(s: Service, t: Transaction, firstId: int, k: nat)
    requires DistinctRequests(s.requests) && k < |s.requests| && s.requests[k].internalId in t.carries
    requires s.requests[k].context.Some? && !s.requests[k].context.value.delivered
    requires s.requests[k].context.value.transactionId == -1
    ensures var u := OnFailed(s, t);
            var again := Select(u, firstId, |u.requests|).transaction;
            CarriedFaithfully(u.requests[k], again, firstId)
            && KnownId(u.requests[k]) == s.requests[k].context.value.messageId
  {
    var u := OnFailed(s, t);
    SelectIsFaithful(u, firstId, |u.requests|);
    assert Selectable(u.requests[k]);
  }

  ghost predicate IsPreparedMessage(p: Preparation, x: Prepared) {
    exists m :: m in p.prepared && p.prepared[m] == x
  }

  ghost predicate OrderPrepared(p: Preparation) {
    forall x :: x in p.order ==> IsPreparedMessage(p, x)
  }

  lemma {:induction false} OrderIsPrepared(ids: Ids, payload: seq<Outgoing>, clocks: seq<int>, unauthorized: bool)
    requires |clocks| >= |payload| && DistinctMessages(payload)
    ensures OrderPrepared(PrepareAll(ids, payload, clocks, unauthorized))
    decreases |payload|
  {
    var n := |payload|;
    if n > 0 {
      var earlier := payload[..n - 1];
      OrderIsPrepared(ids, earlier, clocks, unauthorized);
      PreparedAreInPayload(ids, earlier, clocks, unauthorized);
      var p := PrepareAll(ids, earlier, clocks, unauthorized);
      KeptInOrder(p, payload, clocks[n - 1], unauthorized);
    }
  }

  lemma KeptInOrder(p: Preparation, payload: seq<Outgoing>, clock: int, unauthorized: bool)
    requires payload != [] && DistinctMessages(payload)
    requires forall m :: m in p.prepared ==> InPayload(payload[..|payload| - 1], m)
    requires OrderPrepared(p)
    ensures OrderPrepared(PrepareOne(p, payload[|payload| - 1], clock, unauthorized))
  {
    var n := |payload|;
    var q := PrepareOne(p, payload[n - 1], clock, unauthorized);
    forall x | x in q.order
      ensures IsPreparedMessage(q, x)
    {
      if x in p.order {
        assert IsPreparedMessage(p, x);
        var m :| m in p.prepared && p.prepared[m] == x;
        assert InPayload(payload[..n - 1], m);
        var k :| 0 <= k < n - 1 && payload[..n - 1][k].internalId == m;
        assert payload[k].internalId == m;
        assert q.prepared[m] == x;
      } else {
        assert q.prepared[payload[n - 1].internalId] == x;
      }
    }
  }

  /** In a pass that reports nothing, every carried message id, fresh or known, is at most the last id issued; so the
      container's own id exceeds them all whenever the clock is not behind once more, and then only by being above that
      last id. */
  lemma ContainerIdExceedsContents(s: State, input: PassInput)
    requires Enabled(s, Pass(input)) && Routed(s) && !s.regressed && Conserved(s.service)
    requires !PassPreparation(s, input).violated
    ensures var p := PassPreparation(s, input);
            var containerId := NextId(p.ids.last, input.containerClock);
            && (forall x :: x in p.order ==> x.messageId <= p.ids.last)
            && (containerId > p.ids.last <==> !Violates(p.ids.last, input.containerClock))
            && (!Violates(p.ids.last, input.containerClock) ==> forall x :: x in p.order ==> x.messageId < containerId)
  {
    hide Select, PrepareAll, FullPayload;
    ConservedIsDistinct(s.service);
    PassIsFaithful(s, input);
    var p := PassPreparation(s, input);
    IdGrowsUnlessReported(p.ids.last, input.containerClock);
    OrderIsPrepared(s.ids, FullPayload(s, input), input.clocks, input.unauthorized);
    forall x | x in p.order
      ensures x.messageId <= p.ids.last
    {
      assert IsPreparedMessage(p, x);
      var m :| m in p.prepared && p.prepared[m] == x;
      var k :| 0 <= k < |FullPayload(s, input)| && FullPayload(s, input)[k].internalId == m;
      KnownIdsAreOld(s, input, k);
    }
  }

  /** In a pass that reports nothing every message is prepared, and a container has them in the order of the payload. */
  lemma {:induction false} OrderIsThePayload(ids: Ids, payload: seq<Outgoing>, clocks: seq<int>, unauthorized: bool)
    requires |clocks| >= |payload| && DistinctMessages(payload)
    requires !PrepareAll(ids, payload, clocks, unauthorized).violated
    ensures var p := PrepareAll(ids, payload, clocks, unauthorized);
            && |p.order| == |payload|
            && forall k :: 0 <= k < |payload| ==>
                 payload[k].internalId in p.prepared && p.order[k] == p.prepared[payload[k].internalId]
    decreases |payload|
  {
    hide NextId;
    if payload != [] {
      OrderIsThePayload(ids, payload[..|payload| - 1], clocks, unauthorized);
      NotPreparedBefore(ids, payload, clocks, unauthorized);
    }
  }

  // ---------- when a request is sent again ----------

  /** After a pass that is not aborted every request it prepared waits, and no later pass selects it before the outcome. */
  lemma PreparedIsNotSelectedAgain(s: State, input: PassInput, k: nat)
    requires Enabled(s, Pass(input)) && k < |s.service.requests|
    requires !PassPreparation(s, input).violated && !input.saltSetEmpty
    requires var t := ServiceSelection(s).transaction;
             s.service.requests[k].internalId in t.carries
             && t.carries[s.service.requests[k].internalId] in PassPreparation(s, input).prepared
    ensures var r := DoPass(s, input).service.requests[k];
            && r.internalId == s.service.requests[k].internalId
            && IsWaiting(r) && r.context.value.transactionId == -1 && !r.context.value.delivered && !Selectable(r)
  {
    hide Select, PrepareAll, FullPayload;
  }

  lemma KnownIdsAreOld(s: State, input: PassInput, k: nat)
    requires k < |FullPayload(s, input)| && ContextsSent(s.service.requests, s.sent) && Bounded(s.sent, s.ids.last)
    requires DistinctRequests(s.service.requests)
    ensures FullPayload(s, input)[k].messageId != 0 ==> FullPayload(s, input)[k].messageId <= s.ids.last
  {
    SelectKnown(s.service, s.nextOutgoing, |s.service.requests|);
    var t := ServiceSelection(s).transaction;
    var b := |input.before|;
    if b <= k < b + |t.payload| && FullPayload(s, input)[k].messageId != 0 {
      assert FullPayload(s, input)[k] == t.payload[k - b];
      assert AsksForKnown(s.service.requests, t.payload[k - b].messageId);
      var i :| 0 <= i < |s.service.requests| && KnownId(s.service.requests[i]) == t.payload[k - b].messageId;
      assert SentOf(s.service.requests[i]) in s.sent;
    }
  }

  ghost predicate AllKnown(rs: seq<Request>, payload: seq<Outgoing>) {
    forall j :: 0 <= j < |payload| ==> AsksForKnown(rs, payload[j].messageId)
  }

  ghost predicate AsksForKnown(rs: seq<Request>, messageId: int) {
    exists i :: 0 <= i < |rs| && KnownId(rs[i]) == messageId
  }

  lemma {:induction false} SelectKnown(s: Service, firstId: int, n: nat)
    requires n <= |s.requests|
    ensures AllKnown(s.requests, Select(s, firstId, n).transaction.payload)
    decreases n
  {
    if n > 0 {
      SelectKnown(s, firstId, n - 1);
      assert AsksForKnown(s.requests, KnownId(s.requests[n - 1]));
    }
  }
}
