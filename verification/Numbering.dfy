/** The sequence numbers of gp/proto/Proto.cpp's passes: "Message Sequence Number" in the MTProto "Mobile Protocol: Detailed
    Description", from the messages of one pass to whole sessions. */
module Numberings {
  import opened Sessions
  import opened RequestMessageServices
  import opened ProtoTransactions
  import opened ReplyRouting

  /** How many messages ask for a fresh id and require confirmation. */
  function ContentMessages(payload: seq<Outgoing>): nat {
    if payload == [] then 0 else
      var m := payload[|payload| - 1];
      ContentMessages(payload[..|payload| - 1]) + if m.messageId == 0 && m.requiresConfirmation then 1 else 0
  }

  /** The number of a prepared message by the rule: a known message keeps its own, a fresh one gets twice the content
      messages before it, plus one if it is one. */
  function RuledNumber(start: int, payload: seq<Outgoing>, k: nat): int
    requires k < |payload|
  {
    if payload[k].messageId != 0 then payload[k].seqNo
    else start + 2 * ContentMessages(payload[..k]) + if payload[k].requiresConfirmation then 1 else 0
  }

  /** In a pass every prepared message has the number of the rule, and the counter ends at twice the content messages,
      dropped ones included. */
  lemma {:induction false} PassNumbersByTheRule(ids: Ids, payload: seq<Outgoing>, clocks: seq<int>, unauthorized: bool)
    requires |clocks| >= |payload| && DistinctMessages(payload)
    ensures var p := PrepareAll(ids, payload, clocks, unauthorized);
            && p.ids.seqNo == ids.seqNo + 2 * ContentMessages(payload)
            && forall k :: 0 <= k < |payload| && payload[k].internalId in p.prepared ==>
                 p.prepared[payload[k].internalId].seqNo == RuledNumber(ids.seqNo, payload, k)
    decreases |payload|
  {
    hide NextId;
    var n := |payload|;
    if n > 0 {
      var earlier := payload[..n - 1];
      PassNumbersByTheRule(ids, earlier, clocks, unauthorized);
      NotPreparedBefore(ids, payload, clocks, unauthorized);
      forall k | 0 <= k < n - 1
        ensures RuledNumber(ids.seqNo, payload, k) == RuledNumber(ids.seqNo, earlier, k)
      {
        assert payload[..k] == earlier[..k];
      }
    }
  }

  // ---------- what the session gives out ----------

  function Contents(issued: seq<Issued>): (flags: seq<bool>)
    ensures |flags| == |issued| && forall k :: 0 <= k < |flags| ==> flags[k] == issued[k].content
  {
    seq(|issued|, i requires 0 <= i < |issued| => issued[i].content)
  }

  /** The flags of the messages that ask for a fresh id. */
  function FreshContents(payload: seq<Outgoing>): seq<bool> {
    if payload == [] then [] else
      var m := payload[|payload| - 1];
      FreshContents(payload[..|payload| - 1]) + if m.messageId == 0 then [m.requiresConfirmation] else []
  }

  /** The rule over everything the session has given out, containers and time fixes included. */
  ghost predicate Ruled(issued: seq<Issued>, seqNo: int) {
    && seqNo == 2 * ContentCount(Contents(issued))
    && forall k :: 0 <= k < |issued| ==>
         issued[k].seqNo == 2 * ContentCount(Contents(issued[..k])) + if issued[k].content then 1 else 0
  }

  lemma {:induction false} CountAppend(flags: seq<bool>, flag: bool)
    ensures ContentCount(flags + [flag]) == ContentCount(flags) + if flag then 1 else 0
  {
    if flags != [] {
      CountAppend(flags[1..], flag);
      assert (flags + [flag])[1..] == flags[1..] + [flag];
    }
  }

  lemma RuledAppend(issued: seq<Issued>, seqNo: int, x: Issued)
    requires Ruled(issued, seqNo) && x.seqNo == NextSeqNo(seqNo, x.content)
    ensures Ruled(issued + [x], SeqNoAfter(seqNo, x.content))
  {
    var more := issued + [x];
    CountAppend(Contents(issued), x.content);
    assert Contents(more) == Contents(issued) + [x.content];
    forall k | 0 <= k < |issued|
      ensures more[..k] == issued[..k]
    {
    }
    assert more[..|issued|] == issued;
  }

  lemma {:induction false} PassRuled(before: seq<Issued>, ids: Ids, payload: seq<Outgoing>, clocks: seq<int>,
                                     unauthorized: bool)
    requires |clocks| >= |payload| && Ruled(before, ids.seqNo)
    ensures var p := PrepareAll(ids, payload, clocks, unauthorized);
            && Ruled(before + p.issued, p.ids.seqNo)
            && Contents(p.issued) == FreshContents(payload)
    decreases |payload|
  {
    hide Ruled, NextId, NextSeqNo, SeqNoAfter;
    var n := |payload|;
    if n == 0 {
      assert before + [] == before;
    } else {
      PassRuled(before, ids, payload[..n - 1], clocks, unauthorized);
      var p := PrepareAll(ids, payload[..n - 1], clocks, unauthorized);
      var m := payload[n - 1];
      if m.messageId == 0 {
        var x := Issued(NextId(p.ids.last, clocks[n - 1]), NextSeqNo(p.ids.seqNo, m.requiresConfirmation), m.requiresConfirmation);
        RuledAppend(before + p.issued, p.ids.seqNo, x);
        assert before + (p.issued + [x]) == (before + p.issued) + [x];
        assert Contents(p.issued + [x]) == Contents(p.issued) + [x.content];
      }
    }
  }

  /** Every message recorded for a request was given out as a content-related one. */
  ghost predicate SentAsContent(s: State) {
    forall x :: x in s.sent ==> Issued(x.messageId, x.seqNo, true) in s.issued
  }

  lemma {:induction false} FreshIsIssued(ids: Ids, payload: seq<Outgoing>, clocks: seq<int>, unauthorized: bool, i: nat)
    requires |clocks| >= |payload| && DistinctMessages(payload) && i < |payload| && payload[i].messageId == 0
    requires payload[i].internalId in PrepareAll(ids, payload, clocks, unauthorized).prepared
    ensures var p := PrepareAll(ids, payload, clocks, unauthorized);
            var x := p.prepared[payload[i].internalId];
            Issued(x.messageId, x.seqNo, payload[i].requiresConfirmation) in p.issued
    decreases |payload|
  {
    hide NextId;
    var n := |payload|;
    var earlier := payload[..n - 1];
    NotPreparedBefore(ids, payload, clocks, unauthorized);
    if i < n - 1 {
      FreshIsIssued(ids, earlier, clocks, unauthorized, i);
    }
  }

  lemma PassSentAsContent(s: State, input: PassInput)
    requires Enabled(s, Pass(input)) && Recorded(s) && DistinctRequests(s.service.requests) && SentAsContent(s)
    ensures forall x :: x in AfterPrepared(s, input).sent ==>
              Issued(x.messageId, x.seqNo, true) in AfterPrepared(s, input).issued
  {
    hide Select, FullPayload, PrepareAll, SentIn, DistinctMessages, Numbered, OnlySelected, AllSelected, FlightsSent;
    SelectIsFaithful(s.service, s.nextOutgoing, |s.service.requests|);
    PayloadDistinct(s, input);
    var u := AfterPrepared(s, input);
    forall x | x in u.sent
      ensures Issued(x.messageId, x.seqNo, true) in u.issued
    {
      if x in s.sent {
        assert Issued(x.messageId, x.seqNo, true) in s.issued;
      } else {
        NewIsContent(s, input, x);
      }
    }
  }

  lemma NewIsContent(s: State, input: PassInput, x: Sent)
    requires Enabled(s, Pass(input)) && ContextsSent(s.service.requests, s.sent) && DistinctRequests(s.service.requests)
    requires x in SentIn(ServiceSelection(s).transaction, PassPreparation(s, input).prepared) && x !in s.sent
    ensures Issued(x.messageId, x.seqNo, true) in PassPreparation(s, input).issued
  {
    hide Select, FullPayload, PrepareAll, DistinctMessages, Numbered, OnlySelected, AllSelected, NextId, FreshId;
    SelectIsFaithful(s.service, s.nextOutgoing, |s.service.requests|);
    PayloadDistinct(s, input);
    var k, i := CarriedMessage(s, input, x.request);
    FreshIsPrepared(s, input, i);
    if FullPayload(s, input)[i].messageId == 0 {
      FreshIsIssued(s.ids, FullPayload(s, input), input.clocks, input.unauthorized, i);
    }
  }

  // ---------- over runs ----------

  ghost predicate ByTheRule(s: State) {
    Ruled(s.issued, s.ids.seqNo) && SentAsContent(s)
  }

  lemma PassByTheRule(s: State, input: PassInput)
    requires Enabled(s, Pass(input)) && Sane(s) && ByTheRule(s)
    ensures ByTheRule(DoPass(s, input))
  {
    hide Select, FullPayload, PrepareAll, SentIn, Ruled, Recorded, Conserved, NextId, NextSeqNo, SeqNoAfter;
    ConservedIsDistinct(s.service);
    PassSentAsContent(s, input);
    PassRuled(s.issued, s.ids, FullPayload(s, input), input.clocks, input.unauthorized);
    var a := AfterPrepared(s, input);
    var container := Issued(NextId(a.ids.last, input.containerClock), NextSeqNo(a.ids.seqNo, false), false);
    RuledAppend(a.issued, a.ids.seqNo, container);
  }

  lemma StepByTheRule(s: State, a: Action)
    requires Enabled(s, a) && Sane(s) && ByTheRule(s)
    ensures ByTheRule(Apply(s, a))
  {
    hide DoPass, DoOutcome, Ruled, Sane, NextId, NextSeqNo, SeqNoAfter;
    match a {
      case Pass(input) => PassByTheRule(s, input);
      case Outcome(index, success, transactionId) => OutcomeGivesNothing(s, index, success, transactionId);
      case TimeFix(clock) =>
        RuledAppend(s.issued, s.ids.seqNo, Issued(NextId(s.ids.last, clock), NextSeqNo(s.ids.seqNo, false), false));
      case ResetSession => NothingIsRuled();
      case _ =>
    }
  }

  lemma OutcomeGivesNothing(s: State, index: nat, success: bool, transactionId: int)
    requires index < |s.inFlight|
    ensures var u := DoOutcome(s, index, success, transactionId); u.sent == s.sent && u.ids == s.ids && u.issued == s.issued
  {
  }

  lemma NothingIsRuled()
    ensures Ruled([], 0)
  {
  }

  lemma {:induction false} RuleHolds(s: State, run: seq<Action>)
    requires Sane(s) && ByTheRule(s) && Legal(s, run) && Prompt(s, run)
    ensures ByTheRule(Exec(s, run))
    decreases |run|
  {
    hide Sane, ByTheRule;
    if run != [] {
      StepByTheRule(s, run[0]);
      SaneStep(s, run[0]);
      RuleHolds(Apply(s, run[0]), run[1..]);
    }
  }

  /** Over every run, since the last reset: each number given out, to messages, containers and time fixes alike, is twice
      the content-related messages before it, plus one if it is one; the counter is twice all of them; and every request
      sent carries the number it was given as a content-related message, an odd one. */
  lemma SessionNumbersByTheRule(run: seq<Action>)
    requires Legal(INITIAL, run) && Prompt(INITIAL, run)
    ensures var s := Exec(INITIAL, run);
            && s.ids.seqNo == 2 * ContentCount(Contents(s.issued))
            && (forall k :: 0 <= k < |s.issued| ==>
                  s.issued[k].seqNo == 2 * ContentCount(Contents(s.issued[..k])) + if s.issued[k].content then 1 else 0)
            && (forall k :: 0 <= k < |s.service.requests| && s.service.requests[k].context.Some? ==>
                  var c := s.service.requests[k].context.value;
                  Issued(c.messageId, c.seqNo, true) in s.issued && c.seqNo % 2 == 1)
  {
    hide Legal, Prompt, QuietResets, Exec, Sane, Recorded, Conserved, SentAsContent;
    InitialIsSane();
    NothingIsRuled();
    NothingSentYet();
    PromptIsQuiet(INITIAL, run);
    SaneHolds(INITIAL, run);
    RuleHolds(INITIAL, run);
    RequestsAreOdd(Exec(INITIAL, run));
  }

  lemma NothingSentYet()
    ensures SentAsContent(INITIAL)
  {
  }

  lemma RequestsAreOdd(s: State)
    requires Sane(s) && ByTheRule(s)
    ensures forall k :: 0 <= k < |s.service.requests| && s.service.requests[k].context.Some? ==>
              var c := s.service.requests[k].context.value;
              Issued(c.messageId, c.seqNo, true) in s.issued && c.seqNo % 2 == 1
  {
    hide Conserved, FlightsSent;
    forall k | 0 <= k < |s.service.requests| && s.service.requests[k].context.Some?
      ensures var c := s.service.requests[k].context.value;
              Issued(c.messageId, c.seqNo, true) in s.issued && c.seqNo % 2 == 1
    {
      var x := SentOf(s.service.requests[k]);
      assert x in s.sent;
      var i :| 0 <= i < |s.issued| && s.issued[i] == Issued(x.messageId, x.seqNo, true);
    }
  }

  /** What one pass gives out, in order: its fresh messages under their own flags, then the container, if it makes one,
      as not content-related. A container is made exactly in encrypted mode, for two messages or more, when nothing was
      reported and there is a salt. */
  lemma PassGivesOut(s: State, input: PassInput)
    requires Enabled(s, Pass(input)) && Ruled(s.issued, s.ids.seqNo)
    ensures var p := PassPreparation(s, input);
            var container := !p.violated && !input.saltSetEmpty && !input.unauthorized && |p.order| >= 2;
            && s.issued <= DoPass(s, input).issued
            && Contents(DoPass(s, input).issued[|s.issued|..])
               == FreshContents(FullPayload(s, input)) + if container then [false] else []
  {
    hide Select, FullPayload, PrepareAll, SentIn, Ruled, NextId, NextSeqNo, SeqNoAfter, FreshContents;
    PassRuled(s.issued, s.ids, FullPayload(s, input), input.clocks, input.unauthorized);
    var p := PassPreparation(s, input);
    var u := DoPass(s, input);
    var given := u.issued[|s.issued|..];
    assert given[..|p.issued|] == p.issued;
  }
}
