/** About a transport the repository does not have: one that reports the outcome of a transaction after its pass has
    ended. ReplyRouting covers the prompt runs of TcpTransport; this run shows what such a transport would add to guard
    against. */
module LateOutcomes {
  import opened Options
  import opened RequestMessageServices
  import opened ProtoTransactions
  import opened ReplyRouting

  const FIRST := PassInput([], [], [400], 0, false, false)
  const SECOND := PassInput([], [], [100, 400], 800, false, false)
  const LATE := [AddRequest(1), Pass(FIRST), ResetSession, AddRequest(2), Pass(SECOND), Outcome(0, true, 5)]

  const OLD_TRANSACTION := Transaction(map[1 := 0], [Outgoing(0, 0, 0, true, true)], true)
  const NEW_TRANSACTION :=
    Transaction(map[1 := 1, 2 := 2], [Outgoing(1, 0, 0, true, true), Outgoing(2, 0, 0, true, true)], true)

  const OLD_FLIGHT := InFlight(OLD_TRANSACTION, map[0 := Prepared(400, 1)])
  const NEW_FLIGHT := InFlight(NEW_TRANSACTION, map[1 := Prepared(100, 1), 2 := Prepared(400, 3)])

  function WaitingAs(messageId: int, seqNo: int): Option<RequestContext> {
    Some(RequestContext(messageId, seqNo, -1, true, false, false))
  }

  const AFTER_FIRST := State(
    Ids(2, 400), Service([Request(1, WaitingAs(400, 1))], false, [1], [], []),
    [OLD_FLIGHT], 1, {Sent(400, 1, 1)}, false, [Issued(400, 1, true)])

  const REPLACED := State(
    Ids(0, 0), Service([Request(1, None), Request(2, None)], true, [1, 2], [], []),
    [OLD_FLIGHT], 1, {}, false, [])

  const AFTER_SECOND := State(
    Ids(4, 800), Service([Request(1, WaitingAs(100, 1)), Request(2, WaitingAs(400, 3))], false, [1, 2], [], []),
    [OLD_FLIGHT, NEW_FLIGHT], 3, {Sent(100, 1, 1), Sent(400, 3, 2)}, false,
    [Issued(100, 1, true), Issued(400, 3, true), Issued(800, 4, false)])

  const ONE_ADDED := State(Ids(0, 0), Service([Request(1, None)], true, [1], [], []), [], 0, {}, false, [])

  lemma FirstSelection()
    ensures Select(ONE_ADDED.service, 0, 1) == Selection(OLD_TRANSACTION, false)
    ensures FullPayload(ONE_ADDED, FIRST) == OLD_TRANSACTION.payload
  {
    assert Select(ONE_ADDED.service, 0, 0) == Selection(Transaction(map[], [], false), true);
    assert Select(ONE_ADDED.service, 0, 1) == Selection(OLD_TRANSACTION, false);
    hide Select;
    assert ServiceSelection(ONE_ADDED).transaction == OLD_TRANSACTION;
  }

  lemma FirstPreparation()
    ensures PrepareAll(Ids(0, 0), OLD_TRANSACTION.payload, FIRST.clocks, false)
         == Preparation(Ids(2, 400), OLD_FLIGHT.prepared, [Prepared(400, 1)], false, [Issued(400, 1, true)])
    ensures SentIn(OLD_TRANSACTION, OLD_FLIGHT.prepared) == {Sent(400, 1, 1)}
  {
    assert OLD_TRANSACTION.payload[..0] == [];
    assert OLD_TRANSACTION.carries[1] in OLD_FLIGHT.prepared && OLD_FLIGHT.prepared[0].messageId == 400;
  }

  lemma FirstPass()
    ensures Enabled(ONE_ADDED, Pass(FIRST)) && Apply(INITIAL, AddRequest(1)) == ONE_ADDED
    ensures Apply(ONE_ADDED, Pass(FIRST)) == AFTER_FIRST
  {
    hide Select, FullPayload, PrepareAll, SentIn;
    FirstSelection();
    FirstPreparation();
  }

  lemma SecondSelection()
    ensures Select(REPLACED.service, 1, 2) == Selection(NEW_TRANSACTION, false)
    ensures FullPayload(REPLACED, SECOND) == NEW_TRANSACTION.payload
  {
    var s := REPLACED.service;
    assert Select(s, 1, 0) == Selection(Transaction(map[], [], false), true);
    assert Select(s, 1, 1) == Selection(Transaction(map[1 := 1], [Outgoing(1, 0, 0, true, true)], true), false);
    assert Select(s, 1, 2) == Selection(NEW_TRANSACTION, false);
    hide Select;
    assert ServiceSelection(REPLACED).transaction == NEW_TRANSACTION;
  }

  lemma SecondPreparation()
    ensures PrepareAll(Ids(0, 0), NEW_TRANSACTION.payload, SECOND.clocks, false)
         == Preparation(Ids(4, 400), NEW_FLIGHT.prepared, [Prepared(100, 1), Prepared(400, 3)], false,
                        [Issued(100, 1, true), Issued(400, 3, true)])
    ensures SentIn(NEW_TRANSACTION, NEW_FLIGHT.prepared) == {Sent(100, 1, 1), Sent(400, 3, 2)}
  {
    var payload := NEW_TRANSACTION.payload;
    assert payload[..1] == [Outgoing(1, 0, 0, true, true)];
    assert payload[..1][..0] == [];
    assert PrepareAll(Ids(0, 0), payload[..1], SECOND.clocks, false)
        == Preparation(Ids(2, 100), map[1 := Prepared(100, 1)], [Prepared(100, 1)], false, [Issued(100, 1, true)]);
    assert NEW_TRANSACTION.carries[1] in NEW_FLIGHT.prepared && NEW_FLIGHT.prepared[1].messageId == 100;
    assert NEW_TRANSACTION.carries[2] in NEW_FLIGHT.prepared && NEW_FLIGHT.prepared[2].messageId == 400;
  }

  lemma SecondPass()
    ensures Enabled(REPLACED, Pass(SECOND))
    ensures Apply(REPLACED, Pass(SECOND)) == AFTER_SECOND
  {
    hide Select, FullPayload, PrepareAll, SentIn;
    SecondSelection();
    SecondPreparation();
  }

  lemma ReplacedSession()
    ensures Apply(Apply(AFTER_FIRST, ResetSession), AddRequest(2)) == REPLACED
  {
    assert Apply(AFTER_FIRST, ResetSession).service.requests == [Request(1, None)];
  }

  const LATE_STATE := Apply(AFTER_SECOND, Outcome(0, true, 5))

  lemma LateRun()
    ensures Legal(INITIAL, LATE) && !QuietResets(INITIAL, LATE) && Exec(INITIAL, LATE) == LATE_STATE
  {
    hide DoPass, DoOutcome, FullPayload, Add;
    FirstPass();
    SecondPass();
    ReplacedSession();
    var replaced := Apply(AFTER_FIRST, ResetSession);
    Prepend(AFTER_SECOND, Outcome(0, true, 5), []);
    Prepend(REPLACED, Pass(SECOND), [Outcome(0, true, 5)]);
    Prepend(replaced, AddRequest(2), [Pass(SECOND), Outcome(0, true, 5)]);
    Prepend(AFTER_FIRST, ResetSession, [AddRequest(2), Pass(SECOND), Outcome(0, true, 5)]);
    Prepend(Apply(INITIAL, AddRequest(1)), Pass(FIRST), [ResetSession, AddRequest(2), Pass(SECOND), Outcome(0, true, 5)]);
    Prepend(INITIAL, AddRequest(1), [Pass(FIRST), ResetSession, AddRequest(2), Pass(SECOND), Outcome(0, true, 5)]);
  }

  lemma LateIsNotPrompt()
    ensures Legal(INITIAL, LATE) && !Prompt(INITIAL, LATE)
  {
    hide Legal, Prompt, QuietResets, Exec, Apply;
    LateRun();
    if Prompt(INITIAL, LATE) {
      PromptIsQuiet(INITIAL, LATE);
    }
  }

  /** Under such a transport routing can fail although no session finds the clock behind its own last id: a transaction
      of the replaced session completes late, its request takes back the old id, and the answer to that id in the new
      session removes the wrong request. */
  lemma LateOutcomeMisroutes()
    ensures Legal(INITIAL, LATE) && !QuietResets(INITIAL, LATE) && !Prompt(INITIAL, LATE)
    ensures var s := Exec(INITIAL, LATE);
            && !s.regressed && Sent(400, 3, 2) in s.sent && Sent(400, 1, 1) !in s.sent
            && Respond(s.service, 400, InternalReply).removed == [1]
  {
    hide Legal, QuietResets, Prompt, Exec;
    LateRun();
    LateIsNotPrompt();
    var first := LATE_STATE.service.requests[0];
    assert PayloadIds(OLD_TRANSACTION) == {0} by { assert OLD_TRANSACTION.payload[0].internalId == 0; }
    assert SentAs(first, 400);
  }
}
