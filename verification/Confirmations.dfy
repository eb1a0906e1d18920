/** The receiving side of gp/proto/Proto.cpp: processIncomingMessage with its duplicate check, the acknowledgement
    transaction of a pass, and the removal of confirmations once data arrives on the transport that carried them. */
module Confirmations {
  import opened Sessions

  /** What processIncomingMessage tells apart. */
  datatype Body = BadNotification | Acknowledgement | ServiceMessage

  /** flights are the ids listed by acknowledgement transactions whose outcome is still to come. The last three fields
      are specification only and concern the current session: ids handed to protoDidReceiveMessage, ids
      that were to be confirmed, and the (id, transport) pairs of completed acknowledgement transactions. */
  datatype State = State(
    processed: set<int>,
    scheduled: seq<Confirmation>,
    forceAcks: bool,
    flights: seq<seq<int>>,
    dispatched: seq<int>,
    owed: set<int>,
    acked: set<(int, int)>)

  datatype Action =
    | Receive(messageId: int, size: nat, body: Body, seqNo: int, unauthorized: bool)
    | AckPass
    | AckCompleted(index: nat, transportId: int)
    | AckDropped(index: nat)
    | Decoded(transportId: int)
    | ReplaceSession

  const MAX_UNACKNOWLEDGED := 2

  const INITIAL := State({}, [], false, [], [], {}, {})

  function ScheduleIn(s: State, messageId: int, size: nat): State {
    s.(scheduled := Schedule(s.scheduled, messageId, size), owed := s.owed + {messageId})
  }

  function Process(s: State, messageId: int, size: nat, body: Body, seqNo: int, unauthorized: bool): State {
    if messageId in s.processed then ScheduleIn(s, messageId, size).(forceAcks := true)
    else
      var t := s.(processed := s.processed + {messageId});
      if body != ServiceMessage then t
      else
        var u := if !unauthorized && seqNo % 2 != 0 then ScheduleIn(t, messageId, size) else t;
        u.(dispatched := u.dispatched + [messageId])
  }

  predicate AcksDue(s: State) {
    |s.scheduled| > MAX_UNACKNOWLEDGED || s.forceAcks
  }

  predicate Enabled(s: State, a: Action) {
    match a
    case AckCompleted(index, _) => index < |s.flights|
    case AckDropped(index) => index < |s.flights|
    case _ => true
  }

  function Listed(ids: seq<int>, transportId: int): set<(int, int)> {
    set m | m in ids :: (m, transportId)
  }

  function Apply(s: State, a: Action): State
    requires Enabled(s, a)
  {
    match a
    case Receive(messageId, size, body, seqNo, unauthorized) => Process(s, messageId, size, body, seqNo, unauthorized)
    case AckPass =>
      if AcksDue(s) then s.(forceAcks := false, flights := s.flights + [ScheduledIds(s.scheduled)]) else s
    case AckCompleted(index, transportId) =>
      s.(scheduled := Assign(s.scheduled, transportId, s.flights[index]),
         flights := s.flights[..index] + s.flights[index + 1..],
         acked := s.acked + Listed(s.flights[index], transportId))
    case AckDropped(index) => s.(flights := s.flights[..index] + s.flights[index + 1..])
    case Decoded(transportId) => s.(scheduled := RemoveWith(s.scheduled, transportId))
    case ReplaceSession => s.(processed := {}, scheduled := [], dispatched := [], owed := {}, acked := {})
  }

  predicate Legal(s: State, run: seq<Action>)
    decreases |run|
  {
    run == [] || (Enabled(s, run[0]) && Legal(Apply(s, run[0]), run[1..]))
  }

  function Exec(s: State, run: seq<Action>): State
    requires Legal(s, run)
    decreases |run|
  {
    if run == [] then s else Exec(Apply(s, run[0]), run[1..])
  }

  // ---------- the invariant ----------

  ghost predicate Distinct(xs: seq<int>) {
    forall i, j :: 0 <= i < j < |xs| ==> xs[i] != xs[j]
  }

  /** Nothing is handed to the services twice in a session. */
  ghost predicate DispatchedOnce(s: State) {
    Distinct(s.dispatched) && forall m :: m in s.dispatched ==> m in s.processed
  }

  /** A confirmation only carries transports on which a transaction listing it completed. */
  ghost predicate Backed(s: State) {
    forall c, t :: c in s.scheduled && t in c.transactionIds ==> (c.messageId, t) in s.acked
  }

  ghost predicate AckedSomewhere(s: State, m: int) {
    exists t :: (m, t) in s.acked
  }

  /** Every id to be confirmed is pending or was listed by a completed acknowledgement. */
  ghost predicate NoneForgotten(s: State) {
    forall m :: m in s.owed ==> IsScheduled(s.scheduled, m) || AckedSomewhere(s, m)
  }

  ghost predicate Inv(s: State) {
    DistinctIds(s.scheduled) && DispatchedOnce(s) && Backed(s) && NoneForgotten(s)
  }

  lemma ScheduleKeeps(s: State, messageId: int, size: nat)
    requires Inv(s)
    ensures Inv(ScheduleIn(s, messageId, size))
  {
    var t := ScheduleIn(s, messageId, size);
    if !IsScheduled(s.scheduled, messageId) {
      assert t.scheduled[|s.scheduled|].messageId == messageId;
    }
    forall m | m in t.owed
      ensures IsScheduled(t.scheduled, m) || AckedSomewhere(t, m)
    {
      if m != messageId {
        if IsScheduled(s.scheduled, m) {
          var k :| 0 <= k < |s.scheduled| && s.scheduled[k].messageId == m;
          assert t.scheduled[k].messageId == m;
        } else {
          assert AckedSomewhere(s, m);
          var t' :| (m, t') in s.acked;
          assert (m, t') in t.acked;
        }
      }
    }
  }

  lemma ReceiveKeeps(s: State, a: Action)
    requires Inv(s) && a.Receive?
    ensures Inv(Apply(s, a))
  {
    if a.messageId in s.processed {
      ScheduleKeeps(s, a.messageId, a.size);
    } else {
      var t := s.(processed := s.processed + {a.messageId});
      assert NoneForgotten(t) by {
        SameForgotten(s, t);
      }
      if a.body == ServiceMessage && !a.unauthorized && a.seqNo % 2 != 0 {
        ScheduleKeeps(t, a.messageId, a.size);
        var u := ScheduleIn(t, a.messageId, a.size);
        SameForgotten(u, Apply(s, a));
      } else {
        SameForgotten(s, Apply(s, a));
      }
    }
  }

  lemma SameForgotten(s: State, t: State)
    requires NoneForgotten(s) && t.scheduled == s.scheduled && t.owed == s.owed && s.acked <= t.acked
    ensures NoneForgotten(t)
  {
    forall m | m in t.owed
      ensures IsScheduled(t.scheduled, m) || AckedSomewhere(t, m)
    {
      if !IsScheduled(s.scheduled, m) {
        assert AckedSomewhere(s, m);
        var x :| (m, x) in s.acked;
        assert (m, x) in t.acked;
      }
    }
  }

  lemma AckCompletedKeeps(s: State, index: nat, transportId: int)
    requires Inv(s) && index < |s.flights|
    ensures Inv(Apply(s, AckCompleted(index, transportId)))
  {
    var t := Apply(s, AckCompleted(index, transportId));
    forall c, x | c in t.scheduled && x in c.transactionIds
      ensures (c.messageId, x) in t.acked
    {
      var k :| 0 <= k < |t.scheduled| && t.scheduled[k] == c;
      assert c == AssignOne(s.scheduled[k], transportId, s.flights[index]);
      assert s.scheduled[k] in s.scheduled;
    }
    forall m | m in t.owed
      ensures IsScheduled(t.scheduled, m) || AckedSomewhere(t, m)
    {
      if IsScheduled(s.scheduled, m) {
        var k :| 0 <= k < |s.scheduled| && s.scheduled[k].messageId == m;
        assert t.scheduled[k].messageId == m;
      } else {
        assert AckedSomewhere(s, m);
        var x :| (m, x) in s.acked;
        assert (m, x) in t.acked;
      }
    }
  }

  lemma DecodedKeeps(s: State, transportId: int)
    requires Inv(s)
    ensures Inv(Apply(s, Decoded(transportId)))
  {
    var t := Apply(s, Decoded(transportId));
    RemoveWithExact(s.scheduled, transportId);
    forall m | m in t.owed
      ensures IsScheduled(t.scheduled, m) || AckedSomewhere(t, m)
    {
      if IsScheduled(s.scheduled, m) {
        var k :| 0 <= k < |s.scheduled| && s.scheduled[k].messageId == m;
        var c := s.scheduled[k];
        assert c in s.scheduled;
        if transportId in c.transactionIds {
          assert (m, transportId) in t.acked;
        } else {
          assert c in t.scheduled;
          var l :| 0 <= l < |t.scheduled| && t.scheduled[l] == c;
          assert t.scheduled[l].messageId == m;
        }
      } else {
        assert AckedSomewhere(s, m);
        var x :| (m, x) in s.acked;
        assert (m, x) in t.acked;
      }
    }
  }

  lemma Step(s: State, a: Action)
    requires Inv(s) && Enabled(s, a)
    ensures Inv(Apply(s, a))
  {
    hide Process, RemoveWith;
    match a {
      case Receive(_, _, _, _, _) => ReceiveKeeps(s, a);
      case AckCompleted(index, transportId) => AckCompletedKeeps(s, index, transportId);
      case Decoded(transportId) => DecodedKeeps(s, transportId);
      case AckPass => SameForgotten(s, Apply(s, a));
      case AckDropped(_) => SameForgotten(s, Apply(s, a));
      case ReplaceSession =>
    }
  }

  lemma {:induction false} InvHolds(s: State, run: seq<Action>)
    requires Inv(s) && Legal(s, run)
    ensures Inv(Exec(s, run))
    decreases |run|
  {
    hide Inv;
    if run != [] {
      Step(s, run[0]);
      InvHolds(Apply(s, run[0]), run[1..]);
    }
  }

  // ---------- main results ----------

  /** Over every run: within one session no message id reaches the services twice and no id is pending twice; an id that
      was to be confirmed is still pending unless a completed acknowledgement listed it. */
  lemma ReceivedOnceConfirmedOrPending(run: seq<Action>)
    requires Legal(INITIAL, run)
    ensures var s := Exec(INITIAL, run);
            && Distinct(s.dispatched)
            && DistinctIds(s.scheduled)
            && forall m :: m in s.owed ==> IsScheduled(s.scheduled, m) || AckedSomewhere(s, m)
  {
    InvHolds(INITIAL, run);
  }

  /** A pending confirmation leaves the list in two ways only: the session is replaced, or data is decoded on a transport
      on which an acknowledgement transaction listing it had completed. */
  lemma LeavesOnlyWhenAcknowledged(run: seq<Action>, a: Action, c: Confirmation)
    requires Legal(INITIAL, run) && Enabled(Exec(INITIAL, run), a)
    requires c in Exec(INITIAL, run).scheduled && !IsScheduled(Apply(Exec(INITIAL, run), a).scheduled, c.messageId)
    ensures a == ReplaceSession || (a.Decoded? && (c.messageId, a.transportId) in Exec(INITIAL, run).acked)
  {
    InvHolds(INITIAL, run);
    if a != ReplaceSession && !(a.Decoded? && (c.messageId, a.transportId) in Exec(INITIAL, run).acked) {
      StaysPending(Exec(INITIAL, run), a, c);
    }
  }

  lemma StaysPending(s: State, a: Action, c: Confirmation)
    requires Inv(s) && Enabled(s, a) && c in s.scheduled
    requires a != ReplaceSession && !(a.Decoded? && (c.messageId, a.transportId) in s.acked)
    ensures IsScheduled(Apply(s, a).scheduled, c.messageId)
  {
    var t := Apply(s, a);
    var k :| 0 <= k < |s.scheduled| && s.scheduled[k] == c;
    if a.Decoded? {
      RemoveWithExact(s.scheduled, a.transportId);
      assert c in t.scheduled;
      var l :| 0 <= l < |t.scheduled| && t.scheduled[l] == c;
    } else {
      assert t.scheduled[k].messageId == c.messageId;
    }
  }

  // ---------- what must happen ----------

  /** The k-th action receives an id the session has not seen before. */
  ghost predicate FirstReception(s: State, run: seq<Action>, k: nat) {
    && k < |run| && run[k].Receive? && run[k].messageId !in s.processed
    && forall j :: 0 <= j < k && run[j].Receive? ==> run[j].messageId != run[k].messageId
  }

  ghost predicate ReachesServices(s: State, run: seq<Action>, m: int) {
    exists k: nat :: FirstReception(s, run, k) && run[k].messageId == m && run[k].body == ServiceMessage
  }

  /** A repeated reception, or a first one of a content-related service message in encrypted mode. */
  ghost predicate MustBeConfirmed(s: State, run: seq<Action>, k: nat) {
    && k < |run| && run[k].Receive?
    && (FirstReception(s, run, k) ==> run[k].body == ServiceMessage && !run[k].unauthorized && run[k].seqNo % 2 != 0)
  }

  ghost predicate SomeMustBeConfirmed(s: State, run: seq<Action>, m: int) {
    exists k: nat :: MustBeConfirmed(s, run, k) && run[k].messageId == m
  }

  lemma FirstReceptionShifts(s: State, run: seq<Action>, k: nat)
    requires run != [] && Enabled(s, run[0]) && run[0] != ReplaceSession && k < |run| - 1
    ensures FirstReception(Apply(s, run[0]), run[1..], k) <==> FirstReception(s, run, k + 1)
  {
    var rest := run[1..];
    var t := Apply(s, run[0]);
    assert rest[k] == run[k + 1];
    assert t.processed == if run[0].Receive? then s.processed + {run[0].messageId} else s.processed;
    if FirstReception(t, rest, k) {
      forall j | 0 <= j < k + 1 && run[j].Receive?
        ensures run[j].messageId != run[k + 1].messageId
      {
        if j > 0 {
          assert rest[j - 1] == run[j];
        }
      }
    }
    if FirstReception(s, run, k + 1) {
      forall j | 0 <= j < k && rest[j].Receive?
        ensures rest[j].messageId != rest[k].messageId
      {
        assert rest[j] == run[j + 1];
      }
    }
  }

  lemma ReachesSplit(s: State, run: seq<Action>, m: int)
    requires run != [] && Enabled(s, run[0]) && run[0] != ReplaceSession
    ensures ReachesServices(s, run, m)
            <==> ReachesServices(Apply(s, run[0]), run[1..], m)
                 || (FirstReception(s, run, 0) && run[0].messageId == m && run[0].body == ServiceMessage)
  {
    var t, rest := Apply(s, run[0]), run[1..];
    if ReachesServices(s, run, m) {
      var k: nat :| FirstReception(s, run, k) && run[k].messageId == m && run[k].body == ServiceMessage;
      if k > 0 {
        FirstReceptionShifts(s, run, k - 1);
        assert rest[k - 1] == run[k];
      }
    }
    if ReachesServices(t, rest, m) {
      var k: nat :| FirstReception(t, rest, k) && rest[k].messageId == m && rest[k].body == ServiceMessage;
      FirstReceptionShifts(s, run, k);
      assert rest[k] == run[k + 1];
    }
  }

  lemma ConfirmSplit(s: State, run: seq<Action>, m: int)
    requires run != [] && Enabled(s, run[0]) && run[0] != ReplaceSession
    ensures SomeMustBeConfirmed(s, run, m)
            <==> SomeMustBeConfirmed(Apply(s, run[0]), run[1..], m)
                 || (MustBeConfirmed(s, run, 0) && run[0].messageId == m)
  {
    var t, rest := Apply(s, run[0]), run[1..];
    if SomeMustBeConfirmed(s, run, m) {
      var k: nat :| MustBeConfirmed(s, run, k) && run[k].messageId == m;
      if k > 0 {
        FirstReceptionShifts(s, run, k - 1);
        assert rest[k - 1] == run[k];
        assert MustBeConfirmed(t, rest, k - 1);
      }
    }
    if SomeMustBeConfirmed(t, rest, m) {
      var k: nat :| MustBeConfirmed(t, rest, k) && rest[k].messageId == m;
      FirstReceptionShifts(s, run, k);
      assert rest[k] == run[k + 1];
      assert MustBeConfirmed(s, run, k + 1);
    }
  }

  /** Within a session, the services get exactly the service messages received for the first time, and exactly the repeated
      messages and the content-related ones are to be confirmed. */
  lemma {:induction false} ReceptionIsExact(s: State, run: seq<Action>, m: int)
    requires Legal(s, run) && ReplaceSession !in run
    ensures m in Exec(s, run).dispatched <==> m in s.dispatched || ReachesServices(s, run, m)
    ensures m in Exec(s, run).owed <==> m in s.owed || SomeMustBeConfirmed(s, run, m)
    decreases |run|
  {
    if run != [] {
      hide Exec, Legal, ReachesServices, SomeMustBeConfirmed, FirstReception;
      ExecStep(s, run);
      ReachesSplit(s, run, m);
      ConfirmSplit(s, run, m);
      ReceptionIsExact(Apply(s, run[0]), run[1..], m);
      OneReception(s, run, m);
    }
  }

  lemma ExecStep(s: State, run: seq<Action>)
    requires run != [] && Legal(s, run)
    ensures Enabled(s, run[0]) && Legal(Apply(s, run[0]), run[1..]) && Exec(s, run) == Exec(Apply(s, run[0]), run[1..])
  {
  }

  lemma OneReception(s: State, run: seq<Action>, m: int)
    requires run != [] && Enabled(s, run[0]) && run[0] != ReplaceSession
    ensures var t := Apply(s, run[0]);
            && (m in t.dispatched <==>
                  m in s.dispatched || (FirstReception(s, run, 0) && run[0].messageId == m && run[0].body == ServiceMessage))
            && (m in t.owed <==> m in s.owed || (MustBeConfirmed(s, run, 0) && run[0].messageId == m))
  {
  }

  /** A replaced session knows nothing of the ids received before: from then on the services get exactly the service
      messages that come first since the replacement, however often they came before it. */
  lemma ReplacementForgets(s: State, run: seq<Action>, m: int)
    requires Legal(Apply(s, ReplaceSession), run) && ReplaceSession !in run
    ensures m in Exec(Apply(s, ReplaceSession), run).dispatched
            <==> exists k :: 0 <= k < |run| && ReceivedFirst(run, k) && run[k].messageId == m && run[k].body == ServiceMessage
  {
    hide Exec, Legal;
    var t := Apply(s, ReplaceSession);
    ReceptionIsExact(t, run, m);
    forall k: nat
      ensures FirstReception(t, run, k) <==> k < |run| && ReceivedFirst(run, k)
    {
    }
  }

  ghost predicate ReceivedFirst(run: seq<Action>, k: int)
    requires 0 <= k < |run|
  {
    run[k].Receive? && forall j :: 0 <= j < k && run[j].Receive? ==> run[j].messageId != run[k].messageId
  }

  ghost predicate MarkedWith(cs: seq<Confirmation>, m: int, transportId: int) {
    forall k :: 0 <= k < |cs| && cs[k].messageId == m ==> transportId in cs[k].transactionIds
  }

  ghost predicate NotReceived(run: seq<Action>, m: int) {
    forall k :: 0 <= k < |run| && run[k].Receive? ==> run[k].messageId != m
  }

  lemma MarkStays(s: State, a: Action, m: int, transportId: int)
    requires Enabled(s, a) && MarkedWith(s.scheduled, m, transportId) && (a.Receive? ==> a.messageId != m)
    ensures MarkedWith(Apply(s, a).scheduled, m, transportId)
  {
    if a.Decoded? {
      RemoveWithExact(s.scheduled, a.transportId);
      var cs := Apply(s, a).scheduled;
      forall k | 0 <= k < |cs| && cs[k].messageId == m
        ensures transportId in cs[k].transactionIds
      {
        assert cs[k] in s.scheduled;
      }
    }
  }

  lemma {:induction false} MarkHolds(s: State, run: seq<Action>, m: int, transportId: int)
    requires Legal(s, run) && MarkedWith(s.scheduled, m, transportId) && NotReceived(run, m)
    ensures MarkedWith(Exec(s, run).scheduled, m, transportId)
    decreases |run|
  {
    hide Apply, MarkedWith;
    if run != [] {
      MarkStays(s, run[0], m, transportId);
      forall k | 0 <= k < |run[1..]| && run[1..][k].Receive?
        ensures run[1..][k].messageId != m
      {
        assert run[1..][k] == run[k + 1];
      }
      MarkHolds(Apply(s, run[0]), run[1..], m, transportId);
    }
  }

  /** Every transport that carried a completed acknowledgement of the id releases it, however many others carry it as well:
      unless the message itself comes again, data decoded on that transport leaves the id not pending. */
  lemma AcknowledgedThenDecoded(s: State, index: nat, transportId: int, run: seq<Action>, m: int)
    requires Enabled(s, AckCompleted(index, transportId)) && m in s.flights[index]
    requires Legal(Apply(s, AckCompleted(index, transportId)), run) && NotReceived(run, m)
    ensures var t := Exec(Apply(s, AckCompleted(index, transportId)), run);
            !IsScheduled(Apply(t, Decoded(transportId)).scheduled, m)
  {
    hide Exec, Legal;
    var u := Apply(s, AckCompleted(index, transportId));
    MarkHolds(u, run, m, transportId);
    var t := Exec(u, run);
    RemoveWithExact(t.scheduled, transportId);
    var cs := Apply(t, Decoded(transportId)).scheduled;
    forall k | 0 <= k < |cs|
      ensures cs[k].messageId != m
    {
      assert cs[k] in t.scheduled;
    }
  }

  /** A pass lists all pending ids, in order, exactly when more than two are pending or a repeated message has come since the
      last list; so a repeated message is in the list of the next pass. */
  lemma AcknowledgedWhenDue(s: State, a: Action)
    requires a.Receive?
    ensures var t := Apply(s, AckPass);
            && t.scheduled == s.scheduled && t.processed == s.processed
            && t.flights == s.flights + (if |s.scheduled| > 2 || s.forceAcks then [ScheduledIds(s.scheduled)] else [])
            && (|s.scheduled| > 2 || s.forceAcks ==> !t.forceAcks)
    ensures a.messageId in s.processed ==>
              var t := Apply(Apply(s, a), AckPass);
              |t.flights| == |s.flights| + 1 && a.messageId in t.flights[|s.flights|]
  {
    if a.messageId in s.processed {
      var u := Apply(s, a);
      var k :| 0 <= k < |u.scheduled| && u.scheduled[k].messageId == a.messageId;
      assert ScheduledIds(u.scheduled)[k] == a.messageId;
    }
  }
}
