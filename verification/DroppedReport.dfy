/** What ignoring the report of a container's id costs: a run without a reset, whose outcomes are prompt and whose passes
    report nothing, after which a reply removes the wrong request. */
module DroppedReports {
  import opened Options
  import opened RequestMessageServices
  import opened ProtoTransactions
  import opened ReplyRouting

  /** The clock falls from 800 to 100 for the container of the first pass; nobody looks at that report. */
  const FIRST := PassInput([], [], [400, 800], 100, false, false)

  const SECOND := PassInput([], [], [400], 0, false, false)

  const RUN := [AddRequest(1), AddRequest(2), Pass(FIRST), Outcome(0, true, 5), AddRequest(3), Pass(SECOND),
                Outcome(0, true, 5)]

  const TRANSACTION :=
    Transaction(map[1 := 0, 2 := 1], [Outgoing(0, 0, 0, true, true), Outgoing(1, 0, 0, true, true)], true)

  const FLIGHT := InFlight(TRANSACTION, map[0 := Prepared(400, 1), 1 := Prepared(800, 3)])

  const LATER_TRANSACTION := Transaction(map[3 := 2], [Outgoing(2, 0, 0, true, false)], false)

  const LATER_FLIGHT := InFlight(LATER_TRANSACTION, map[2 := Prepared(400, 5)])

  function Waiting(messageId: int, seqNo: int): Option<RequestContext> {
    Some(RequestContext(messageId, seqNo, -1, true, false, false))
  }

  function Answerable(messageId: int, seqNo: int, initializeApi: bool): Option<RequestContext> {
    Some(RequestContext(messageId, seqNo, 5, false, false, initializeApi))
  }

  const READY := State(Ids(0, 0), Service([Request(1, None), Request(2, None)], true, [1, 2], [], []), [], 0, {}, false, [])

  const FIRST_MESSAGES := {Sent(400, 1, 1), Sent(800, 3, 2)}

  const FIRST_ISSUED := [Issued(400, 1, true), Issued(800, 3, true), Issued(100, 4, false)]

  const AFTER_FIRST := State(
    Ids(4, 100), Service([Request(1, Waiting(400, 1)), Request(2, Waiting(800, 3))], false, [1, 2], [], []),
    [FLIGHT], 2, FIRST_MESSAGES, true, FIRST_ISSUED)

  const FIRST_SENT := State(
    Ids(4, 100), Service([Request(1, Answerable(400, 1, true)), Request(2, Answerable(800, 3, true))], false, [1, 2], [], []),
    [], 2, FIRST_MESSAGES, true, FIRST_ISSUED)

  const BEFORE_SECOND := State(
    Ids(4, 100),
    Service([Request(1, Answerable(400, 1, true)), Request(2, Answerable(800, 3, true)), Request(3, None)], false, [1, 2, 3], [], []),
    [], 2, FIRST_MESSAGES, true, FIRST_ISSUED)

  const AFTER_SECOND := State(
    Ids(6, 400),
    Service([Request(1, Answerable(400, 1, true)), Request(2, Answerable(800, 3, true)), Request(3, Waiting(400, 5))], false,
            [1, 2, 3], [], []),
    [LATER_FLIGHT], 3, FIRST_MESSAGES + {Sent(400, 5, 3)}, true, FIRST_ISSUED + [Issued(400, 5, true)])

  const FINAL := State(
    Ids(6, 400),
    Service([Request(1, Answerable(400, 1, true)), Request(2, Answerable(800, 3, true)), Request(3, Answerable(400, 5, false))], false,
            [1, 2, 3], [], []),
    [], 3, FIRST_MESSAGES + {Sent(400, 5, 3)}, true, FIRST_ISSUED + [Issued(400, 5, true)])

  lemma FirstSelection()
    ensures Select(READY.service, 0, 2) == Selection(TRANSACTION, false)
    ensures FullPayload(READY, FIRST) == TRANSACTION.payload
  {
    var s := READY.service;
    assert Select(s, 0, 0) == Selection(Transaction(map[], [], false), true);
    assert Select(s, 0, 1) == Selection(Transaction(map[1 := 0], [Outgoing(0, 0, 0, true, true)], true), false);
    assert Select(s, 0, 2) == Selection(TRANSACTION, false);
    hide Select;
    assert ServiceSelection(READY).transaction == TRANSACTION;
  }

  lemma FirstPreparation()
    ensures PrepareAll(Ids(0, 0), TRANSACTION.payload, FIRST.clocks, false)
         == Preparation(Ids(4, 800), FLIGHT.prepared, [Prepared(400, 1), Prepared(800, 3)], false,
                        [Issued(400, 1, true), Issued(800, 3, true)])
    ensures SentIn(TRANSACTION, FLIGHT.prepared) == FIRST_MESSAGES
  {
    var payload := TRANSACTION.payload;
    assert payload[..1] == [Outgoing(0, 0, 0, true, true)];
    assert payload[..1][..0] == [];
    assert PrepareAll(Ids(0, 0), payload[..1], FIRST.clocks, false)
        == Preparation(Ids(2, 400), map[0 := Prepared(400, 1)], [Prepared(400, 1)], false, [Issued(400, 1, true)]);
    assert TRANSACTION.carries[1] in FLIGHT.prepared && FLIGHT.prepared[0].messageId == 400;
    assert TRANSACTION.carries[2] in FLIGHT.prepared && FLIGHT.prepared[1].messageId == 800;
  }

  lemma FirstPass()
    ensures Enabled(READY, Pass(FIRST)) && !PassPreparation(READY, FIRST).violated
    ensures Apply(READY, Pass(FIRST)) == AFTER_FIRST
  {
    hide Select, FullPayload, PrepareAll, SentIn;
    FirstSelection();
    FirstPreparation();
  }

  lemma FirstOutcome()
    ensures Apply(AFTER_FIRST, Outcome(0, true, 5)) == FIRST_SENT
  {
    assert PayloadIds(TRANSACTION) == {0, 1} by {
      assert TRANSACTION.payload[0].internalId == 0 && TRANSACTION.payload[1].internalId == 1;
    }
  }

  lemma SecondSelection()
    ensures Select(BEFORE_SECOND.service, 2, 3) == Selection(LATER_TRANSACTION, false)
    ensures FullPayload(BEFORE_SECOND, SECOND) == LATER_TRANSACTION.payload
  {
    var s := BEFORE_SECOND.service;
    var none := Selection(Transaction(map[], [], false), false);
    assert Select(s, 2, 0) == none && Select(s, 2, 1) == none && Select(s, 2, 2) == none;
    assert Select(s, 2, 3) == Selection(LATER_TRANSACTION, false);
    hide Select;
    assert ServiceSelection(BEFORE_SECOND).transaction == LATER_TRANSACTION;
  }

  lemma SecondPreparation()
    ensures PrepareAll(Ids(4, 100), LATER_TRANSACTION.payload, SECOND.clocks, false)
         == Preparation(Ids(6, 400), LATER_FLIGHT.prepared, [Prepared(400, 5)], false, [Issued(400, 5, true)])
    ensures SentIn(LATER_TRANSACTION, LATER_FLIGHT.prepared) == {Sent(400, 5, 3)}
  {
    assert LATER_TRANSACTION.payload[..0] == [];
    assert LATER_TRANSACTION.carries[3] in LATER_FLIGHT.prepared && LATER_FLIGHT.prepared[2].messageId == 400;
  }

  lemma SecondPass()
    ensures Enabled(BEFORE_SECOND, Pass(SECOND)) && !PassPreparation(BEFORE_SECOND, SECOND).violated
    ensures Apply(BEFORE_SECOND, Pass(SECOND)) == AFTER_SECOND
  {
    hide Select, FullPayload, PrepareAll, SentIn;
    SecondSelection();
    SecondPreparation();
  }

  lemma SecondOutcome()
    ensures Apply(AFTER_SECOND, Outcome(0, true, 5)) == FINAL
  {
    assert PayloadIds(LATER_TRANSACTION) == {2} by { assert LATER_TRANSACTION.payload[0].internalId == 2; }
  }

  /** No pass of the run reports a violation, and the session is never replaced. */
  ghost predicate NothingReported(s: State, run: seq<Action>)
    requires Legal(s, run)
    decreases |run|
  {
    run == [] || (&& (run[0].Pass? ==> !PassPreparation(s, run[0].input).violated)
                  && !run[0].ResetSession?
                  && NothingReported(Apply(s, run[0]), run[1..]))
  }

  lemma PrependUnreported(s: State, a: Action, run: seq<Action>)
    requires Enabled(s, a) && Legal(Apply(s, a), run) && NothingReported(Apply(s, a), run) && !a.ResetSession?
    requires (s.inFlight != [] ==> a.Outcome?) && Prompt(Apply(s, a), run)
    requires a.Pass? ==> !PassPreparation(s, a.input).violated
    ensures Legal(s, [a] + run) && Exec(s, [a] + run) == Exec(Apply(s, a), run)
    ensures Prompt(s, [a] + run) && NothingReported(s, [a] + run)
  {
    hide Apply, Enabled, PassPreparation;
    Prepend(s, a, run);
    assert ([a] + run)[1..] == run;
  }

  lemma Added()
    ensures Apply(Apply(INITIAL, AddRequest(1)), AddRequest(2)) == READY
    ensures Apply(FIRST_SENT, AddRequest(3)) == BEFORE_SECOND
  {
    assert [] + [Request(1, None)] == [Request(1, None)];
  }

  const SECOND_HALF := [AddRequest(3), Pass(SECOND), Outcome(0, true, 5)]

  lemma SecondHalf()
    ensures Legal(FIRST_SENT, SECOND_HALF) && Prompt(FIRST_SENT, SECOND_HALF) && NothingReported(FIRST_SENT, SECOND_HALF)
    ensures Exec(FIRST_SENT, SECOND_HALF) == FINAL
  {
    hide DoPass, DoOutcome, PassPreparation, NothingReported, Prompt, Add;
    SecondPass();
    SecondOutcome();
    Added();
    EmptyRun(FINAL);
    var tail2 := [Outcome(0, true, 5)] + [];
    var tail1 := [Pass(SECOND)] + tail2;
    PrependUnreported(AFTER_SECOND, Outcome(0, true, 5), []);
    PrependUnreported(BEFORE_SECOND, Pass(SECOND), tail2);
    PrependUnreported(FIRST_SENT, AddRequest(3), tail1);
    assert SECOND_HALF == [AddRequest(3)] + tail1;
  }

  lemma RunEnds()
    ensures Legal(INITIAL, RUN) && Prompt(INITIAL, RUN) && NothingReported(INITIAL, RUN) && Exec(INITIAL, RUN) == FINAL
  {
    hide DoPass, DoOutcome, PassPreparation, NothingReported, Prompt;
    FirstPass();
    FirstOutcome();
    Added();
    SecondHalf();
    var once := Apply(INITIAL, AddRequest(1));
    var tail3 := [Outcome(0, true, 5)] + SECOND_HALF;
    var tail2 := [Pass(FIRST)] + tail3;
    var tail1 := [AddRequest(2)] + tail2;
    PrependUnreported(AFTER_FIRST, Outcome(0, true, 5), SECOND_HALF);
    PrependUnreported(READY, Pass(FIRST), tail3);
    PrependUnreported(once, AddRequest(2), tail2);
    PrependUnreported(INITIAL, AddRequest(1), tail1);
    assert RUN == [AddRequest(1)] + tail1;
  }

  lemma EmptyRun(s: State)
    ensures Legal(s, []) && Prompt(s, []) && NothingReported(s, [])
  {
  }

  /** Requests 1 and 3 end up listed under one id, and the reply to request 3 removes request 1. */
  lemma DroppedReportMisroutes(reply: Reply)
    requires !reply.Escapes?
    ensures Legal(INITIAL, RUN) && Prompt(INITIAL, RUN) && NothingReported(INITIAL, RUN)
    ensures var s := Exec(INITIAL, RUN);
            && |s.service.requests| == 3
            && SentAs(s.service.requests[0], 400) && s.service.requests[0].internalId == 1
            && SentAs(s.service.requests[2], 400) && s.service.requests[2].internalId == 3
            && !RepliesReach(s, 2, reply)
            && Respond(s.service, 400, reply).removed == [1]
  {
    hide Legal, Prompt, NothingReported, Exec;
    RunEnds();
    assert SentAs(FINAL.service.requests[0], 400);
    assert IndexOfMessage(FINAL.service.requests, 400) == 0;
  }
}
