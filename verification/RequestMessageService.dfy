/** gp/proto/RequestMessageService.cpp: the request list and the three closures of its transactions. A request object
    and its context are reached only through the list, so both are values here. */
module RequestMessageServices {
  import opened Bytes
  import opened Options
  import InternalParser
  import IncomingMessages
  import opened MessageForms
  import opened Tl

  datatype RequestContext = RequestContext(messageId: int, seqNo: int, transactionId: int, waitingForMessageId: bool,
                                           delivered: bool, willInitializeApi: bool)

  datatype Request = Request(internalId: int, context: Option<RequestContext>)

  /** What the application was told about a request. */
  datatype Callback =
    | Completion(internalId: int, data: Option<seq<byte>>)
    | Failure(internalId: int, code: i32, description: seq<byte>)

  /** added, removed and callbacks are specification only. */
  datatype Service = Service(requests: seq<Request>, willInitializeApi: bool, added: seq<int>, removed: seq<int>,
                             callbacks: seq<Callback>)

  /** An outgoing message; internalId is unique to it, messageId 0 asks for a fresh one. */
  datatype Outgoing = Outgoing(internalId: int, messageId: int, seqNo: int, requiresConfirmation: bool, initializeApi: bool)

  datatype Prepared = Prepared(messageId: int, seqNo: int)

  /** The captured state of a transaction's closures: which outgoing message carries which request. */
  datatype Transaction = Transaction(carries: map<int, int>, payload: seq<Outgoing>, initializeApi: bool)

  // ---------- selection ----------

  predicate Selectable(r: Request) {
    match r.context
    case None => true
    case Some(c) => !c.waitingForMessageId && !c.delivered && c.transactionId == -1
  }

  /** The locals of protoMessageTransaction: transaction so far, and the flag of the service. */
  datatype Selection = Selection(transaction: Transaction, willInitializeApi: bool)

  function SelectOne(a: Selection, r: Request, firstId: int): Selection {
    if !Selectable(r) then a else
      var t := a.transaction;
      var carried := if r.context.Some? then r.context.value.willInitializeApi else t.initializeApi;
      var initializeApi := carried || a.willInitializeApi;
      var message :=
        if r.context.Some?
        then Outgoing(firstId + |t.payload|, r.context.value.messageId, r.context.value.seqNo, true, initializeApi)
        else Outgoing(firstId + |t.payload|, 0, 0, true, initializeApi);
      Selection(Transaction(t.carries[r.internalId := message.internalId], t.payload + [message], initializeApi), false)
  }

  /** The transaction for the first n requests, with outgoing ids counted up from firstId. */
  function Select(s: Service, firstId: int, n: nat): Selection
    requires n <= |s.requests|
  {
    if n == 0 then Selection(Transaction(map[], [], false), s.willInitializeApi)
    else SelectOne(Select(s, firstId, n - 1), s.requests[n - 1], firstId)
  }

  // ---------- the closures ----------

  function PreparedOne(r: Request, t: Transaction, prepared: map<int, Prepared>): Request {
    if r.internalId in t.carries && t.carries[r.internalId] in prepared then
      var p := prepared[t.carries[r.internalId]];
      r.(context := Some(RequestContext(p.messageId, p.seqNo, -1, true, false, false)))
    else r
  }

  function StopWaiting(r: Request): Request {
    if r.context.Some? then r.(context := Some(r.context.value.(waitingForMessageId := false))) else r
  }

  function FailedOne(r: Request, t: Transaction): Request {
    if r.internalId in t.carries then StopWaiting(r) else r
  }

  function CompletedOne(r: Request, t: Transaction, transactionIds: map<int, int>, prepared: map<int, Prepared>): Request {
    var q := StopWaiting(r);
    if r.internalId in t.carries && t.carries[r.internalId] in prepared && t.carries[r.internalId] in transactionIds then
      var p := prepared[t.carries[r.internalId]];
      var transactionId := transactionIds[t.carries[r.internalId]];
      q.(context := Some(RequestContext(p.messageId, p.seqNo, transactionId, false, false, t.initializeApi)))
    else q
  }

  function OnPrepared(s: Service, t: Transaction, prepared: map<int, Prepared>): Service {
    s.(requests := Each(s.requests, (r: Request) => PreparedOne(r, t, prepared)))
  }

  function OnFailed(s: Service, t: Transaction): Service {
    s.(requests := Each(s.requests, (r: Request) => FailedOne(r, t)))
  }

  function OnCompleted(s: Service, t: Transaction, transactionIds: map<int, int>, prepared: map<int, Prepared>): Service {
    s.(requests := Each(s.requests, (r: Request) => CompletedOne(r, t, transactionIds, prepared)))
  }

  function Each(rs: seq<Request>, f: Request -> Request): (q: seq<Request>)
    ensures |q| == |rs| && forall k :: 0 <= k < |rs| ==> q[k] == f(rs[k])
  {
    seq(|rs|, i requires 0 <= i < |rs| => f(rs[i]))
  }

  // ---------- notices ----------

  function Forget(r: Request): Request {
    r.(context := None)
  }

  function ForgetTransactions(s: Service, transactionIds: seq<int>): Service {
    s.(requests := Each(s.requests,
      (r: Request) => if r.context.Some? && r.context.value.transactionId in transactionIds then Forget(r) else r))
  }

  function ForgetAll(s: Service): Service {
    s.(requests := Each(s.requests, (r: Request) => Forget(r)))
  }

  function ForgetMessage(s: Service, messageId: int): Service {
    s.(requests := Each(s.requests,
      (r: Request) => if r.context.Some? && r.context.value.messageId == messageId then Forget(r) else r))
  }

  function Confirm(s: Service, messageIds: seq<int>): Service {
    s.(requests := Each(s.requests,
      (r: Request) => if r.context.Some? && r.context.value.messageId in messageIds
           then r.(context := Some(r.context.value.(delivered := true))) else r))
  }

  /** protoDidChangeSession and protoServerDidChangeSession */
  function ChangeSession(s: Service): Service {
    ForgetAll(s).(willInitializeApi := true)
  }

  // ---------- adding and removing ----------

  function Add(s: Service, internalId: int): Service {
    s.(requests := s.requests + [Request(internalId, None)], added := s.added + [internalId])
  }

  function RemoveAt(s: Service, k: nat): Service
    requires k < |s.requests|
  {
    s.(requests := s.requests[..k] + s.requests[k + 1..], removed := s.removed + [s.requests[k].internalId])
  }

  function IndexOfId(rs: seq<Request>, internalId: int): (k: nat)
    ensures k <= |rs|
    ensures k < |rs| ==> rs[k].internalId == internalId
    ensures forall i :: 0 <= i < k ==> rs[i].internalId != internalId
  {
    if rs == [] || rs[0].internalId == internalId then 0 else 1 + IndexOfId(rs[1..], internalId)
  }

  predicate SentAs(r: Request, messageId: int) {
    r.context.Some? && r.context.value.messageId == messageId
  }

  function IndexOfMessage(rs: seq<Request>, messageId: int): (k: nat)
    ensures k <= |rs|
    ensures k < |rs| ==> SentAs(rs[k], messageId)
    ensures forall i :: 0 <= i < k ==> !SentAs(rs[i], messageId)
  {
    if rs == [] || SentAs(rs[0], messageId) then 0 else 1 + IndexOfMessage(rs[1..], messageId)
  }

  function Cancel(s: Service, internalId: int): Service {
    var k := IndexOfId(s.requests, internalId);
    if k < |s.requests| then RemoveAt(s, k) else s
  }

  /** What the body of an RPC result turns out to be. Escapes: the parser's exception is not caught. */
  datatype Reply =
    | ErrorReply(code: i32, description: seq<byte>)
    | InternalReply
    | DataReply(data: Option<seq<byte>>)
    | Escapes

  function Classify(env: IncomingMessages.Environment, responseData: seq<byte>): Reply {
    match InternalParser.ParseMessage(responseData)
    case Thrown(_) => Escapes
    case Got(Some(RpcError(code, description)), _) => ErrorReply(code, description)
    case Got(Some(_), _) => InternalReply
    case Got(None, _) => DataReply(IncomingMessages.Unwrap(env, responseData))
  }

  /** An internal reply that is not an error removes the request and tells nobody. */
  function Respond(s: Service, messageId: int, reply: Reply): Service {
    var k := IndexOfMessage(s.requests, messageId);
    if reply.Escapes? || k == |s.requests| then s else
      var id := s.requests[k].internalId;
      var t := RemoveAt(s, k);
      match reply
      case ErrorReply(code, description) => t.(callbacks := t.callbacks + [Failure(id, code, description)])
      case DataReply(data) => t.(callbacks := t.callbacks + [Completion(id, data)])
      case _ => t
  }

  // ---------- what the operations are for ----------

  predicate KnownSignature(w: u32) {
    w in {0x15d04c69, 0xcb73e0c5, 0xf026f3c8, 0xefeab3aa, 0x73d45989, 0x5b04490c, 0x7250ae2a, 0x7abe77ec, 0xf35c6d01,
          0x2144ca19, 0x347773c5, 0x62d6b459, 0x73f1f8dc, 0xae500895, 0xa7eff811, 0xedab447b}
  }

  /** The written form of an error is reported as that error, whatever is behind it; any other service message is
      swallowed; and bytes that start with no signature of the parser's are handed over as they are, or unpacked when they
      start as packed ones. */
  lemma ClassifyExact(env: IncomingMessages.Environment, data: seq<byte>, m: InternalParser.Message, rest: seq<byte>, w: u32)
    ensures SizesAllowed(m) && Matches(data, LayoutOf(m), rest) ==>
              Classify(env, data) == if m.RpcError? then ErrorReply(m.code, m.description) else InternalReply
    ensures |data| >= 4 && data[..4] == U32Bytes(w) && !KnownSignature(w) ==>
              Classify(env, data)
              == DataReply(if w != 0x3072cfa1 then Some(data)
                           else if ReadBytes(data[4..]).Thrown? then None
                           else env.gunzip(ReadBytes(data[4..]).value))
    ensures |data| < 4 ==> Classify(env, data) == Escapes
  {
    hide Matches, SizesAllowed, InternalParser.ParseMessage, U32Bytes, ReadBytes, LayoutOf;
    ParseExact(data, m, rest);
    if |data| < 4 {
      ShortThrows(data);
    } else if data[..4] == U32Bytes(w) && !KnownSignature(w) {
      assert data == U32Bytes(w) + data[4..];
      UnknownIsNull(w, data[4..]);
      if w != 0x3072cfa1 {
        IncomingMessages.WordsDiffer(w, 0x3072cfa1);
      }
    }
  }

  lemma ShortThrows(data: seq<byte>)
    requires |data| < 4
    ensures InternalParser.ParseMessage(data).Thrown?
  {
  }

  lemma UnknownIsNull(w: u32, s: seq<byte>)
    requires !KnownSignature(w)
    ensures InternalParser.ParseMessage(U32Bytes(w) + s) == Got(None, s)
  {
    InternalParser.ParseAfterSignature(w, s);
  }

  /** Each failure notice makes exactly the requests it speaks of selectable again and leaves the others alone. */
  lemma NoticesForgetExactly(s: Service, transactionIds: seq<int>, messageId: int, k: nat)
    requires k < |s.requests|
    ensures |ForgetTransactions(s, transactionIds).requests| == |ForgetMessage(s, messageId).requests|
            == |ForgetAll(s).requests| == |s.requests|
    ensures var r, t := s.requests[k], ForgetTransactions(s, transactionIds).requests[k];
            if r.context.Some? && r.context.value.transactionId in transactionIds
            then t.internalId == r.internalId && Selectable(t) && t.context == None else t == r
    ensures var r, t := s.requests[k], ForgetMessage(s, messageId).requests[k];
            if r.context.Some? && r.context.value.messageId == messageId
            then t.internalId == r.internalId && Selectable(t) && t.context == None else t == r
    ensures var r, t := s.requests[k], ForgetAll(s).requests[k];
            t.internalId == r.internalId && Selectable(t) && t.context == None
    ensures ChangeSession(s).requests == ForgetAll(s).requests && ChangeSession(s).willInitializeApi
  {
  }

  /** A confirmed request is not selected again; nothing else about it, and nothing about the others, changes. */
  lemma ConfirmedExactly(s: Service, messageIds: seq<int>, k: nat)
    requires k < |s.requests|
    ensures |Confirm(s, messageIds).requests| == |s.requests|
    ensures var r, t := s.requests[k], Confirm(s, messageIds).requests[k];
            if r.context.Some? && r.context.value.messageId in messageIds
            then t.internalId == r.internalId && t.context.Some? && !Selectable(t)
                 && t.context.value.(delivered := r.context.value.delivered) == r.context.value
            else t == r
  {
  }

  /** Cancelling removes exactly the first request with that id and tells the application nothing; when ids are distinct,
      the request is gone. */
  lemma CancelledIsGone(s: Service, id: int, k: nat)
    requires k <= |s.requests| && forall j :: 0 <= j < k ==> s.requests[j].internalId != id
    requires k < |s.requests| ==> s.requests[k].internalId == id
    ensures var t := Cancel(s, id);
            && t.callbacks == s.callbacks
            && (k == |s.requests| ==> t == s)
            && (k < |s.requests| ==>
                  t.requests == s.requests[..k] + s.requests[k + 1..] && t.removed == s.removed + [id])
            && ((forall i, j :: 0 <= i < j < |s.requests| ==> s.requests[i].internalId != s.requests[j].internalId) ==>
                  forall j :: 0 <= j < |t.requests| ==> t.requests[j].internalId != id)
  {
    assert IndexOfId(s.requests, id) == k;
  }

  /** The flag to initialise the API is spent by the first message selected; messages never sent before all share it. */
  lemma {:induction false} InitializationIsSpentOnce(s: Service, firstId: int, n: nat)
    requires n <= |s.requests|
    ensures var a := Select(s, firstId, n);
            && (a.transaction.payload == [] ==> a.willInitializeApi == s.willInitializeApi && !a.transaction.initializeApi)
            && (a.transaction.payload != [] ==> !a.willInitializeApi)
            && (s.willInitializeApi && a.transaction.payload != [] ==> a.transaction.payload[0].initializeApi)
            && (!s.willInitializeApi && (forall k :: 0 <= k < n && s.requests[k].context.Some? ==>
                                           !s.requests[k].context.value.willInitializeApi) ==>
                  forall k :: 0 <= k < |a.transaction.payload| ==> !a.transaction.payload[k].initializeApi)
            && ((forall k :: 0 <= k < n ==> s.requests[k].context == None) ==>
                  && (a.transaction.payload != [] ==> a.transaction.initializeApi == s.willInitializeApi)
                  && forall k :: 0 <= k < |a.transaction.payload| ==>
                       a.transaction.payload[k].initializeApi == s.willInitializeApi)
            && (a.transaction.payload != [] ==>
                  a.transaction.initializeApi == a.transaction.payload[|a.transaction.payload| - 1].initializeApi)
  {
    if n > 0 {
      InitializationIsSpentOnce(s, firstId, n - 1);
    }
  }

  // ---------- the class ----------

  class RequestMessageService {
    var requests: seq<Request>
    var willInitializeApi: bool
    ghost var added: seq<int>
    ghost var removed: seq<int>
    ghost var callbacks: seq<Callback>

    ghost function State(): Service
      reads this
    {
      Service(requests, willInitializeApi, added, removed, callbacks)
    }

    constructor ()
      ensures State() == Service([], true, [], [], [])
    {
      requests, willInitializeApi, added, removed, callbacks := [], true, [], [], [];
    }

    method AddRequest(internalId: int)
      modifies this
      ensures State() == Add(old(State()), internalId)
    {
      requests := requests + [Request(internalId, None)];
      added := added + [internalId];
    }

    method CancelRequest(internalId: int)
      modifies this
      ensures State() == Cancel(old(State()), internalId)
    {
      var i := 0;
      while i < |requests|
        invariant 0 <= i <= |requests| && State() == old(State())
        invariant forall k :: 0 <= k < i ==> requests[k].internalId != internalId
      {
        if requests[i].internalId == internalId {
          removed := removed + [internalId];
          requests := requests[..i] + requests[i + 1..];
          return;
        }
        i := i + 1;
      }
    }

    method ProtoDidReceiveMessage(env: IncomingMessages.Environment, requestMessageId: int, responseData: seq<byte>)
      modifies this
      ensures State() == Respond(old(State()), requestMessageId, Classify(env, responseData))
    {
      hide Classify;
      var reply := Classify(env, responseData);
      if reply.Escapes? {
        return;
      }
      var i := 0;
      while i < |requests|
        invariant 0 <= i <= |requests| && State() == old(State())
        invariant forall k :: 0 <= k < i ==> !SentAs(requests[k], requestMessageId)
      {
        var request := requests[i];
        if SentAs(request, requestMessageId) {
          removed := removed + [request.internalId];
          requests := requests[..i] + requests[i + 1..];
          match reply {
            case ErrorReply(code, description) =>
              callbacks := callbacks + [Failure(request.internalId, code, description)];
            case DataReply(data) =>
              callbacks := callbacks + [Completion(request.internalId, data)];
            case _ =>
          }
          return;
        }
        i := i + 1;
      }
    }

    /** The result tells the caller to ask for a new pass. */
    method ProtoTransactionsMayHaveFailed(transactionIds: seq<int>) returns (requestTransaction: bool)
      modifies this`requests
      ensures State() == ForgetTransactions(old(State()), transactionIds)
      ensures requestTransaction <==>
                exists k :: 0 <= k < |old(requests)| && old(requests)[k].context.Some?
                            && old(requests)[k].context.value.transactionId in transactionIds
    {
      requestTransaction := false;
      var i := 0;
      while i < |requests|
        invariant 0 <= i <= |requests| == |old(requests)|
        invariant forall k :: i <= k < |requests| ==> requests[k] == old(requests)[k]
        invariant forall k :: 0 <= k < i ==>
                    requests[k] == ForgetTransactions(old(State()), transactionIds).requests[k]
        invariant requestTransaction <==>
                    exists k :: 0 <= k < i && old(requests)[k].context.Some?
                                && old(requests)[k].context.value.transactionId in transactionIds
      {
        if requests[i].context.Some? && requests[i].context.value.transactionId in transactionIds {
          requests := requests[i := Forget(requests[i])];
          requestTransaction := true;
        }
        i := i + 1;
      }
    }

    method ProtoAllTransactionsMayHaveFailed() returns (requestTransaction: bool)
      modifies this`requests
      ensures State() == ForgetAll(old(State()))
      ensures requestTransaction <==> exists k :: 0 <= k < |old(requests)| && old(requests)[k].context.Some?
    {
      requestTransaction := false;
      var i := 0;
      while i < |requests|
        invariant 0 <= i <= |requests| == |old(requests)|
        invariant forall k :: i <= k < |requests| ==> requests[k] == old(requests)[k]
        invariant forall k :: 0 <= k < i ==> requests[k] == Forget(old(requests)[k])
        invariant requestTransaction <==> exists k :: 0 <= k < i && old(requests)[k].context.Some?
      {
        if requests[i].context != None {
          requests := requests[i := Forget(requests[i])];
          requestTransaction := true;
        }
        i := i + 1;
      }
    }

    method ProtoMessageDeliveryFailed(messageId: int) returns (requestTransaction: bool)
      modifies this`requests
      ensures State() == ForgetMessage(old(State()), messageId)
      ensures requestTransaction <==> exists k :: 0 <= k < |old(requests)| && SentAs(old(requests)[k], messageId)
    {
      requestTransaction := false;
      var i := 0;
      while i < |requests|
        invariant 0 <= i <= |requests| == |old(requests)|
        invariant forall k :: i <= k < |requests| ==> requests[k] == old(requests)[k]
        invariant forall k :: 0 <= k < i ==> requests[k] == ForgetMessage(old(State()), messageId).requests[k]
        invariant requestTransaction <==> exists k :: 0 <= k < i && SentAs(old(requests)[k], messageId)
      {
        if SentAs(requests[i], messageId) {
          requests := requests[i := Forget(requests[i])];
          requestTransaction := true;
        }
        i := i + 1;
      }
    }

    method ProtoMessagesDeliveryConfirmed(messages: seq<int>)
      modifies this`requests
      ensures State() == Confirm(old(State()), messages)
    {
      var m := 0;
      assert messages[..0] == [];
      while m < |messages|
        invariant 0 <= m <= |messages|
        invariant requests == Confirm(old(State()), messages[..m]).requests
      {
        ghost var before := requests;
        var i := 0;
        while i < |requests|
          invariant 0 <= i <= |requests| == |before| == |old(requests)|
          invariant forall k :: i <= k < |requests| ==> requests[k] == before[k]
          invariant forall k :: 0 <= k < i ==> requests[k] == Confirm(old(State()), messages[..m + 1]).requests[k]
        {
          assert messages[..m + 1] == messages[..m] + [messages[m]];
          if SentAs(requests[i], messages[m]) {
            requests := requests[i := requests[i].(context := Some(requests[i].context.value.(delivered := true)))];
          }
          i := i + 1;
        }
        m := m + 1;
      }
      assert messages[..m] == messages;
    }

    method ProtoDidChangeSession() returns (requestTransaction: bool)
      modifies this
      ensures State() == ChangeSession(old(State()))
      ensures forall k :: 0 <= k < |requests| ==> requests[k].context == None
      ensures requestTransaction <==> requests != []
    {
      willInitializeApi := true;
      var i := 0;
      while i < |requests|
        invariant 0 <= i <= |requests| == |old(requests)|
        invariant forall k :: i <= k < |requests| ==> requests[k] == old(requests)[k]
        invariant forall k :: 0 <= k < i ==> requests[k] == Forget(old(requests)[k])
        invariant willInitializeApi && added == old(added) && removed == old(removed) && callbacks == old(callbacks)
      {
        requests := requests[i := Forget(requests[i])];
        i := i + 1;
      }
      requestTransaction := requests != [];
    }

    method ProtoConnectionStateChanged()
      modifies this`willInitializeApi
      ensures State() == old(State()).(willInitializeApi := true)
    {
      willInitializeApi := true;
    }

    method ProtoMessageTransaction(firstId: int) returns (t: Transaction)
      modifies this`willInitializeApi
      ensures var a := Select(old(State()), firstId, |requests|);
              t == a.transaction && State() == old(State()).(willInitializeApi := a.willInitializeApi)
    {
      var messages: seq<Outgoing>, carries: map<int, int>, initializeApi := [], map[], false;
      var i := 0;
      while i < |requests|
        invariant 0 <= i <= |requests|
        invariant Select(old(State()), firstId, i) == Selection(Transaction(carries, messages, initializeApi), willInitializeApi)
      {
        var request := requests[i];
        if request.context == None
           || (!request.context.value.waitingForMessageId && !request.context.value.delivered
               && request.context.value.transactionId == -1) {
          var messageId, seqNo := 0, 0;
          if request.context.Some? {
            messageId, seqNo := request.context.value.messageId, request.context.value.seqNo;
            initializeApi := request.context.value.willInitializeApi;
          }
          initializeApi := initializeApi || willInitializeApi;
          willInitializeApi := false;
          var outgoing := Outgoing(firstId + |messages|, messageId, seqNo, true, initializeApi);
          messages := messages + [outgoing];
          carries := carries[request.internalId := outgoing.internalId];
        }
        i := i + 1;
      }
      t := Transaction(carries, messages, initializeApi);
    }

    method TransactionPrepared(t: Transaction, prepared: map<int, Prepared>)
      modifies this`requests
      ensures State() == OnPrepared(old(State()), t, prepared)
    {
      var i := 0;
      while i < |requests|
        invariant 0 <= i <= |requests| == |old(requests)|
        invariant forall k :: i <= k < |requests| ==> requests[k] == old(requests)[k]
        invariant forall k :: 0 <= k < i ==> requests[k] == PreparedOne(old(requests)[k], t, prepared)
      {
        var request := requests[i];
        if request.internalId in t.carries {
          var messageInternalId := t.carries[request.internalId];
          if messageInternalId in prepared {
            var p := prepared[messageInternalId];
            requests := requests[i := request.(context := Some(RequestContext(p.messageId, p.seqNo, -1, true, false, false)))];
          }
        }
        i := i + 1;
      }
    }

    method TransactionFailed(t: Transaction)
      modifies this`requests
      ensures State() == OnFailed(old(State()), t)
    {
      var i := 0;
      while i < |requests|
        invariant 0 <= i <= |requests| == |old(requests)|
        invariant forall k :: i <= k < |requests| ==> requests[k] == old(requests)[k]
        invariant forall k :: 0 <= k < i ==> requests[k] == FailedOne(old(requests)[k], t)
      {
        var request := requests[i];
        if request.internalId in t.carries && request.context.Some? {
          requests := requests[i := request.(context := Some(request.context.value.(waitingForMessageId := false)))];
        }
        i := i + 1;
      }
    }

    method TransactionCompleted(t: Transaction, transactionIds: map<int, int>, prepared: map<int, Prepared>)
      modifies this`requests
      ensures State() == OnCompleted(old(State()), t, transactionIds, prepared)
    {
      var i := 0;
      while i < |requests|
        invariant 0 <= i <= |requests| == |old(requests)|
        invariant forall k :: i <= k < |requests| ==> requests[k] == old(requests)[k]
        invariant forall k :: 0 <= k < i ==> requests[k] == CompletedOne(old(requests)[k], t, transactionIds, prepared)
      {
        var request := requests[i];
        if request.context.Some? {
          request := request.(context := Some(request.context.value.(waitingForMessageId := false)));
        }
        if request.internalId in t.carries {
          var messageInternalId := t.carries[request.internalId];
          if messageInternalId in prepared && messageInternalId in transactionIds {
            var p := prepared[messageInternalId];
            request := request.(context :=
              Some(RequestContext(p.messageId, p.seqNo, transactionIds[messageInternalId], false, false, t.initializeApi)));
          }
        }
        requests := requests[i := request];
        i := i + 1;
      }
    }
  }
}
