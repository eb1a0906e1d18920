/** gp/proto/Proto.cpp: the transaction pass and its completion in the form of the original, updating the session, the
    request service and the transactions handed to the transport. */
module Protos {
  import opened Options
  import opened Sessions
  import opened RequestMessageServices
  import opened ProtoTransactions
  import Confirmations
  import SessionResets

  /** inFlight, ackFlights and the counters stand for what the closures of pending transactions capture. */
  class Proto {
    var session: Session
    const service: RequestMessageService
    var inFlight: seq<InFlight>
    var nextOutgoing: int
    var forceAcks: bool
    var ackFlights: seq<seq<int>>
    var resetSessionInfoLock: real
    ghost var dispatched: seq<int>
    ghost var owed: set<int>
    ghost var acked: set<(int, int)>
    ghost var sent: set<Sent>
    ghost var regressed: bool
    ghost var issued: seq<Issued>

    ghost function State(): ProtoTransactions.State
      reads this, session, service
    {
      ProtoTransactions.State(Ids(session.seqNo, session.lastClientMessageId), service.State(), inFlight, nextOutgoing,
                              sent, regressed, issued)
    }

    /** The receiving side. */
    ghost function Receiving(): Confirmations.State
      reads this, session
    {
      Confirmations.State(session.processedMessageIds, session.scheduled, forceAcks, ackFlights, dispatched, owed, acked)
    }

    constructor (sessionId: int)
      ensures State() == INITIAL && Receiving() == Confirmations.INITIAL && fresh(session) && fresh(service)
    {
      session := new Session(sessionId);
      service := new RequestMessageService();
      inFlight, nextOutgoing, sent, regressed, issued := [], 0, {}, false, [];
      forceAcks, ackFlights, resetSessionInfoLock, dispatched, owed, acked := false, [], 0.0, [], {}, {};
    }

    /** The two preparation loops of a pass over one payload. */
    method Prepare(payload: seq<Outgoing>, clocks: seq<int>, unauthorized: bool)
      returns (prepared: map<int, Prepared>, order: seq<Prepared>, violated: bool, ghost given: seq<Issued>)
      requires |clocks| >= |payload|
      modifies session`seqNo, session`lastClientMessageId
      ensures Preparation(Ids(session.seqNo, session.lastClientMessageId), prepared, order, violated, given)
              == PrepareAll(old(Ids(session.seqNo, session.lastClientMessageId)), payload, clocks, unauthorized)
    {
      prepared, order, violated, given := map[], [], false, [];
      ghost var ids := Ids(session.seqNo, session.lastClientMessageId);
      var i := 0;
      while i < |payload|
        invariant 0 <= i <= |payload|
        invariant Preparation(Ids(session.seqNo, session.lastClientMessageId), prepared, order, violated, given)
                  == PrepareAll(ids, payload[..i], clocks, unauthorized)
      {
        assert payload[..i + 1][..i] == payload[..i];
        var outgoing := payload[i];
        var messageId, seqNo := outgoing.messageId, outgoing.seqNo;
        if outgoing.messageId == 0 {
          seqNo := session.GenerateClientSeqNo(outgoing.requiresConfirmation);
          messageId, violated := session.GenerateClientMessageId(clocks[i], violated);
          given := given + [Issued(messageId, seqNo, outgoing.requiresConfirmation)];
        }
        if !violated || unauthorized {
          prepared := prepared[outgoing.internalId := Prepared(messageId, seqNo)];
          order := order + [Prepared(messageId, seqNo)];
        }
        i := i + 1;
      }
      assert payload[..i] == payload;
    }

    /** A pass up to and including the prepared callbacks. */
    method PreparePass(input: PassInput)
      returns (t: Transaction, prepared: map<int, Prepared>, order: seq<Prepared>, violated: bool, ghost given: seq<Issued>)
      requires Enabled(State(), Pass(input))
      modifies this`nextOutgoing, this`sent, this`regressed, this`issued, session`seqNo, session`lastClientMessageId,
               service`requests, service`willInitializeApi
      ensures State() == AfterPrepared(old(State()), input)
      ensures t == ServiceSelection(old(State())).transaction
      ensures PassPreparation(old(State()), input)
              == Preparation(Ids(session.seqNo, session.lastClientMessageId), prepared, order, violated, given)
    {
      hide Select, PrepareAll;
      t := service.ProtoMessageTransaction(nextOutgoing);
      var first := nextOutgoing + |t.payload|;
      var payload := Others(input.before, first) + t.payload + Others(input.after, first + |input.before|);
      assert payload == FullPayload(old(State()), input);
      nextOutgoing := nextOutgoing + |payload|;
      prepared, order, violated, given := Prepare(payload, input.clocks, input.unauthorized);
      sent, regressed, issued := sent + SentIn(t, prepared), regressed || violated, issued + given;
      service.TransactionPrepared(t, prepared);
    }

    /** The session's part of dataForEncryptedContainer; the reported violation is ignored, as in the original. */
    method RegisterContainer(order: seq<Prepared>, clock: int) returns (containerId: int, containerSeqNo: int)
      modifies this`regressed, this`issued, session`lastClientMessageId, session`seqNo, session`containers
      ensures containerId == NextId(old(session.lastClientMessageId), clock) == session.lastClientMessageId
      ensures containerSeqNo == NextSeqNo(old(session.seqNo), false) && session.seqNo == SeqNoAfter(old(session.seqNo), false)
      ensures issued == old(issued) + [Issued(containerId, containerSeqNo, false)]
      ensures regressed == (old(regressed) || Violates(old(session.lastClientMessageId), clock))
      ensures session.containers == old(session.containers)[containerId := MessageIds(order)]
    {
      regressed := regressed || Violates(session.lastClientMessageId, clock);
      var id, _ := session.GenerateClientMessageId(clock, false);
      session.AddContainerMessageIdMapping(id, MessageIds(order));
      containerSeqNo := session.GenerateClientSeqNo(false);
      containerId := id;
      issued := issued + [Issued(containerId, containerSeqNo, false)];
    }

    /** transportReadyForTransaction while transactions may be asked for. A container, which is made for two messages or
        more in encrypted mode, is recorded under its id with the ids it carries; the result is its id and number. */
    method TransportReadyForTransaction(input: PassInput) returns (container: Option<Prepared>)
      requires Enabled(State(), Pass(input))
      modifies this`inFlight, this`nextOutgoing, this`sent, this`regressed, this`issued, session`lastClientMessageId,
               session`seqNo,
               session`containers, service
      ensures State() == DoPass(old(State()), input)
      ensures var p := PassPreparation(old(State()), input);
              && (container.Some? <==> !p.violated && !input.saltSetEmpty && !input.unauthorized && |p.order| >= 2)
              && (container.Some? ==>
                    && container.value.messageId == session.lastClientMessageId
                    && issued != [] && issued[|issued| - 1] == Issued(container.value.messageId, container.value.seqNo, false)
                    && session.containers == old(session.containers)[container.value.messageId := MessageIds(p.order)])
      ensures container == None ==> session.containers == old(session.containers)
    {
      hide FullPayload, ServiceSelection, PassPreparation, AfterPrepared, OnCompleted;
      var t, prepared, order, violated, _ := PreparePass(input);
      container := None;
      if violated || input.saltSetEmpty {
        service.TransactionCompleted(t, map[], map[]);
        return;
      }
      if order == [] {
        return;
      }
      inFlight := inFlight + [InFlight(t, prepared)];
      if !input.unauthorized && |order| >= 2 {
        var id, seqNo := RegisterContainer(order, input.containerClock);
        container := Some(Prepared(id, seqNo));
      }
    }

    /** The transport's completion of one transaction. */
    method TransactionOutcome(index: nat, success: bool, transactionId: int)
      requires index < |inFlight|
      modifies this`inFlight, service
      ensures State() == DoOutcome(old(State()), index, success, transactionId)
    {
      var f := inFlight[index];
      inFlight := inFlight[..index] + inFlight[index + 1..];
      if success {
        service.TransactionCompleted(f.transaction, AllInto(f.transaction, transactionId), f.prepared);
      } else {
        service.TransactionFailed(f.transaction);
      }
    }

    /** processIncomingMessage as far as the session is concerned; the result is what the services get to see. */
    method ProcessIncomingMessage(messageId: int, length: nat, body: Confirmations.Body, seqNo: int,
                                  useUnauthorizedMode: bool)
      returns (toServices: bool, requestTransactions: bool)
      modifies session`processedMessageIds, session`scheduled, this`forceAcks, this`dispatched, this`owed
      ensures Receiving() == Confirmations.Process(old(Receiving()), messageId, length, body, seqNo, useUnauthorizedMode)
      ensures State() == old(State())
      ensures toServices <==> messageId !in old(session.processedMessageIds) && body.ServiceMessage?
      ensures requestTransactions
              <==> messageId in old(session.processedMessageIds)
                   || (toServices && !useUnauthorizedMode && seqNo % 2 != 0 && |session.scheduled| > 2)
      ensures Confirmations.AcksDue(Receiving()) ==> requestTransactions || Confirmations.AcksDue(old(Receiving()))
    {
      requestTransactions := false;
      var duplicate := session.MarkProcessed(messageId);
      if duplicate {
        forceAcks := true;
        session.ScheduleMessageConfirmation(messageId, length);
        owed := owed + {messageId};
        assert session.processedMessageIds == old(session.processedMessageIds);
        return false, true;
      }
      if body != Confirmations.ServiceMessage {
        return false, false;
      }
      if !useUnauthorizedMode && seqNo % 2 != 0 {
        session.ScheduleMessageConfirmation(messageId, length);
        owed := owed + {messageId};
        requestTransactions := |session.scheduled| > Confirmations.MAX_UNACKNOWLEDGED;
      }
      dispatched := dispatched + [messageId];
      toServices := true;
    }

    /** The delivery notices a bad message leads to: for the message itself, then, if it was a container, for every message
        it carried. Exactly their requests are to be sent anew. */
    method BadMessageNotices(badMessageId: int)
      modifies service`requests
      ensures var bad := {badMessageId} + set m | m in session.MessageIdsInContainer(badMessageId);
              && |service.requests| == |old(service.requests)|
              && forall k :: 0 <= k < |service.requests| ==>
                   service.requests[k] == if old(service.requests)[k].context.Some?
                                             && old(service.requests)[k].context.value.messageId in bad
                                          then Forget(old(service.requests)[k]) else old(service.requests)[k]
      ensures Receiving() == old(Receiving())
    {
      var containerMessageIds := session.MessageIdsInContainer(badMessageId);
      var _ := service.ProtoMessageDeliveryFailed(badMessageId);
      ghost var before := old(service.requests);
      for i := 0 to |containerMessageIds|
        invariant |service.requests| == |before|
        invariant forall k :: 0 <= k < |service.requests| ==>
                    service.requests[k] == if before[k].context.Some?
                                              && (before[k].context.value.messageId == badMessageId
                                                  || before[k].context.value.messageId in containerMessageIds[..i])
                                           then Forget(before[k]) else before[k]
      {
        var _ := service.ProtoMessageDeliveryFailed(containerMessageIds[i]);
        assert containerMessageIds[..i + 1] == containerMessageIds[..i] + [containerMessageIds[i]];
      }
      assert containerMessageIds[..|containerMessageIds|] == containerMessageIds;
    }

    /** The acknowledgement part of a pass: the listed ids, if an acknowledgement is due. */
    method PrepareAcks() returns (listed: Option<seq<int>>)
      modifies this`forceAcks, this`ackFlights
      ensures Receiving() == Confirmations.Apply(old(Receiving()), Confirmations.AckPass) && State() == old(State())
      ensures listed.Some? <==> Confirmations.AcksDue(old(Receiving()))
      ensures listed.Some? ==> listed.value == ScheduledIds(session.scheduled)
    {
      listed := None;
      if |session.scheduled| > Confirmations.MAX_UNACKNOWLEDGED || forceAcks {
        forceAcks := false;
        var ids := ScheduledIds(session.scheduled);
        ackFlights := ackFlights + [ids];
        listed := Some(ids);
      }
    }

    method AckTransactionCompleted(index: nat, transportId: int)
      requires index < |ackFlights|
      modifies session`scheduled, this`ackFlights, this`acked
      ensures Receiving() == Confirmations.Apply(old(Receiving()), Confirmations.AckCompleted(index, transportId))
      ensures State() == old(State())
    {
      var ids := ackFlights[index];
      session.AssignTransactionId(transportId, ids);
      ackFlights := ackFlights[..index] + ackFlights[index + 1..];
      acked := acked + Confirmations.Listed(ids, transportId);
    }

    /** transportTransactionsSucceeded */
    method TransportTransactionsSucceeded(transportId: int)
      modifies session`scheduled
      ensures Receiving() == Confirmations.Apply(old(Receiving()), Confirmations.Decoded(transportId))
      ensures State() == old(State())
    {
      session.RemoveScheduledConfirmationWithTransactionId(transportId);
    }

    method TakeResetLock(now: real) returns (allowed: bool)
      modifies this`resetSessionInfoLock
      ensures (allowed, resetSessionInfoLock) == SessionResets.Attempt(old(resetSessionInfoLock), now)
    {
      if resetSessionInfoLock != 0.0 {
        if now > resetSessionInfoLock + 1.0 {
          resetSessionInfoLock := 0.0;
        } else {
          return false;
        }
      } else {
        resetSessionInfoLock := now;
      }
      allowed := true;
    }

    method ReplaceSession(newSessionId: int)
      modifies this`session, this`sent, this`regressed, this`issued, this`dispatched, this`owed, this`acked, service
      ensures fresh(session) && State() == Apply(old(State()), ResetSession)
      ensures session.id == newSessionId && session.seqNo == session.lastClientMessageId == 0 && session.scheduled == []
              && session.processedMessageIds == {} && session.containers == map[]
              && forall k :: 0 <= k < |service.requests| ==> service.requests[k].context == None
      ensures Receiving() == Confirmations.Apply(old(Receiving()), Confirmations.ReplaceSession)
    {
      hide ChangeSession;
      var _ := service.ProtoDidChangeSession();
      session := new Session(newSessionId);
      sent, regressed, issued := {}, false, [];
      dispatched, owed, acked := [], {}, {};
    }

    /** resetSessionInfo: counters, request contexts and receiving side are replaced together, or nothing is. */
    method ResetSessionInfo(now: real, newSessionId: int) returns (replaced: bool)
      modifies this, service
      ensures (replaced, resetSessionInfoLock) == SessionResets.Attempt(old(resetSessionInfoLock), now)
      ensures replaced ==> fresh(session) && State() == Apply(old(State()), ResetSession)
      ensures replaced ==>
              && session.id == newSessionId && session.seqNo == session.lastClientMessageId == 0 && session.scheduled == []
              && session.processedMessageIds == {} && session.containers == map[]
              && forall k :: 0 <= k < |service.requests| ==> service.requests[k].context == None
      ensures replaced ==> Receiving() == Confirmations.Apply(old(Receiving()), Confirmations.ReplaceSession)
      ensures !replaced ==> State() == old(State()) && Receiving() == old(Receiving())
    {
      hide ChangeSession;
      replaced := TakeResetLock(now);
      if replaced {
        ReplaceSession(newSessionId);
      }
    }
  }

  function MessageIds(order: seq<Prepared>): (ids: seq<int>)
    ensures |ids| == |order| && forall k :: 0 <= k < |ids| ==> ids[k] == order[k].messageId
  {
    seq(|order|, i requires 0 <= i < |order| => order[i].messageId)
  }
}
