/** gp/proto/Session.cpp: message ids, sequence numbers, the processed set, scheduled confirmations and the container
    mapping. The clock is an arbitrary integer in units of 2^-32 seconds. */
module Sessions {
  import Sequences

  // ---------- message ids ----------

  function RoundUpTo4(t: int): (id: int)
    ensures id % 4 == 0 && t <= id < t + 4
  {
    t + (4 - t % 4) % 4
  }

  predicate Violates(last: int, clock: int) {
    clock < last
  }

  function NextId(last: int, clock: int): int {
    RoundUpTo4(if clock == last then last + 1 else clock)
  }

  /** A generated id is a multiple of four that exceeds the previous one exactly when no violation is reported. */
  lemma IdGrowsUnlessReported(last: int, clock: int)
    requires last % 4 == 0
    ensures NextId(last, clock) % 4 == 0
    ensures NextId(last, clock) > last <==> !Violates(last, clock)
    ensures NextId(last, clock) >= clock
  {
  }

  /** The ids issued for successive clock values. */
  function Issue(last: int, clocks: seq<int>): seq<int>
    decreases |clocks|
  {
    if clocks == [] then [] else
      var id := NextId(last, clocks[0]);
      [id] + Issue(id, clocks[1..])
  }

  predicate Reported(last: int, clocks: seq<int>)
    decreases |clocks|
  {
    clocks != [] && (Violates(last, clocks[0]) || Reported(NextId(last, clocks[0]), clocks[1..]))
  }

  ghost predicate StrictlyIncreasing(ids: seq<int>) {
    forall i, j :: 0 <= i < j < |ids| ==> ids[i] < ids[j]
  }

  /** Over a whole session: the ids are multiples of four, and they are strictly increasing (and above the starting
      point) exactly when no call reported a violation. */
  lemma {:induction false} IdsIncreaseUntilReported(last: int, clocks: seq<int>)
    requires last % 4 == 0
    ensures var ids := Issue(last, clocks);
            && |ids| == |clocks|
            && (forall k :: 0 <= k < |ids| ==> ids[k] % 4 == 0)
            && (StrictlyIncreasing([last] + ids) <==> !Reported(last, clocks))
    decreases |clocks|
  {
    if clocks == [] {
    } else {
      var id := NextId(last, clocks[0]);
      IdGrowsUnlessReported(last, clocks[0]);
      IdsIncreaseUntilReported(id, clocks[1..]);
      IncreasingCons(last, id, Issue(id, clocks[1..]));
      var ids := Issue(last, clocks);
      forall k | 0 <= k < |ids|
        ensures ids[k] % 4 == 0
      {
        if k > 0 {
          assert ids[k] == Issue(id, clocks[1..])[k - 1];
        }
      }
    }
  }

  lemma IncreasingCons(x: int, y: int, rest: seq<int>)
    ensures StrictlyIncreasing([x] + ([y] + rest)) <==> x < y && StrictlyIncreasing([y] + rest)
  {
    var t := [y] + rest;
    var s := [x] + t;
    assert s[1..] == t;
    if StrictlyIncreasing(s) {
      assert s[0] < s[1];
      forall i, j | 0 <= i < j < |t|
        ensures t[i] < t[j]
      {
        assert s[i + 1] < s[j + 1];
      }
    }
    if x < y && StrictlyIncreasing(t) {
      forall i, j | 0 <= i < j < |s|
        ensures s[i] < s[j]
      {
        assert s[j] == t[j - 1];
        if i == 0 {
          assert t[0] <= t[j - 1];
        } else {
          assert s[i] == t[i - 1];
        }
      }
    }
  }

  /** The report is not a clock regression as such: the id is rounded up past the clock, so a clock that did not go back is
      reported exactly when it has not yet reached the id issued for the previous reading. */
  lemma ReportedOnAdvance(last: int, earlier: int, later: int)
    ensures Violates(NextId(last, earlier), later) && earlier <= later
            <==> earlier <= later < RoundUpTo4(if earlier == last then last + 1 else earlier)
    ensures last % 4 == 0 && earlier <= later ==>
              (Violates(NextId(last, earlier), later) <==> later - earlier < IdLead(last, earlier))
  {
  }

  /** How far the id lies ahead of the reading it was issued for. */
  function IdLead(last: int, clock: int): (n: nat)
    ensures n <= 4
    ensures last % 4 == 0 ==> NextId(last, clock) == clock + n
  {
    if clock == last then 4 else (4 - clock % 4) % 4
  }

  ghost predicate SpacedByFour(clocks: seq<int>) {
    forall i :: 0 <= i < |clocks| - 1 ==> clocks[i] + 4 <= clocks[i + 1]
  }

  /** Over a whole session, readings at least four units apart are never reported. */
  lemma {:induction false} SpacedReadingsAreNeverReported(last: int, clocks: seq<int>)
    requires last % 4 == 0 && SpacedByFour(clocks)
    requires clocks != [] ==> last <= clocks[0]
    ensures !Reported(last, clocks)
    decreases |clocks|
  {
    if clocks != [] {
      var rest := clocks[1..];
      forall i | 0 <= i < |rest| - 1
        ensures rest[i] + 4 <= rest[i + 1]
      {
        assert clocks[i + 1] + 4 <= clocks[i + 2];
      }
      SpacedReadingsAreNeverReported(NextId(last, clocks[0]), rest);
    }
  }

  /** A witness: the readings 1 and 2 are reported, although the second is later. */
  lemma ReportedWithoutRegression()
    ensures Reported(0, [1, 2]) && 1 < 2
  {
    assert NextId(0, 1) == 4;
    assert [1, 2][1..] == [2];
  }

  // ---------- sequence numbers ----------

  function NextSeqNo(seqNo: int, content: bool): int {
    if content then seqNo + 1 else seqNo
  }

  function SeqNoAfter(seqNo: int, content: bool): int {
    if content then seqNo + 2 else seqNo
  }

  function IssueSeqNos(seqNo: int, contents: seq<bool>): seq<int>
    decreases |contents|
  {
    if contents == [] then [] else
      [NextSeqNo(seqNo, contents[0])] + IssueSeqNos(SeqNoAfter(seqNo, contents[0]), contents[1..])
  }

  function ContentCount(contents: seq<bool>): nat {
    if contents == [] then 0 else (if contents[0] then 1 else 0) + ContentCount(contents[1..])
  }

  /** "Message Sequence Number" in the MTProto "Mobile Protocol: Detailed Description": twice the number of
      content-related messages so far, plus one if this message is content-related itself. */
  lemma {:induction false} SeqNoRule(start: int, contents: seq<bool>, k: nat)
    requires k < |contents|
    ensures |IssueSeqNos(start, contents)| == |contents|
    ensures IssueSeqNos(start, contents)[k] == start + 2 * ContentCount(contents[..k]) + (if contents[k] then 1 else 0)
    decreases |contents|
  {
    SeqNoCount(start, contents);
    if k > 0 {
      SeqNoRule(SeqNoAfter(start, contents[0]), contents[1..], k - 1);
      assert contents[..k][1..] == contents[1..][..k - 1];
    }
  }

  lemma {:induction false} SeqNoCount(start: int, contents: seq<bool>)
    ensures |IssueSeqNos(start, contents)| == |contents|
    decreases |contents|
  {
    if contents != [] {
      SeqNoCount(SeqNoAfter(start, contents[0]), contents[1..]);
    }
  }

  // ---------- confirmations ----------

  datatype Confirmation = Confirmation(messageId: int, size: nat, transactionIds: set<int>)

  predicate IsScheduled(cs: seq<Confirmation>, messageId: int) {
    exists k :: 0 <= k < |cs| && cs[k].messageId == messageId
  }

  function Schedule(cs: seq<Confirmation>, messageId: int, size: nat): seq<Confirmation> {
    if IsScheduled(cs, messageId) then cs else cs + [Confirmation(messageId, size, {})]
  }

  function ScheduledIds(cs: seq<Confirmation>): (ids: seq<int>)
    ensures |ids| == |cs| && forall k :: 0 <= k < |cs| ==> ids[k] == cs[k].messageId
  {
    seq(|cs|, i requires 0 <= i < |cs| => cs[i].messageId)
  }

  function AssignOne(c: Confirmation, transactionId: int, ids: seq<int>): Confirmation {
    if c.messageId in ids then c.(transactionIds := c.transactionIds + {transactionId}) else c
  }

  function Assign(cs: seq<Confirmation>, transactionId: int, ids: seq<int>): (r: seq<Confirmation>)
    ensures |r| == |cs| && forall k :: 0 <= k < |cs| ==> r[k] == AssignOne(cs[k], transactionId, ids)
  {
    seq(|cs|, i requires 0 <= i < |cs| => AssignOne(cs[i], transactionId, ids))
  }

  function RemoveWith(cs: seq<Confirmation>, transactionId: int): seq<Confirmation> {
    if cs == [] then []
    else (if transactionId in cs[0].transactionIds then [] else [cs[0]]) + RemoveWith(cs[1..], transactionId)
  }

  ghost predicate DistinctIds(cs: seq<Confirmation>) {
    forall i, j :: 0 <= i < j < |cs| ==> cs[i].messageId != cs[j].messageId
  }

  /** Removal works part by part, so it keeps the order: it decides each confirmation on its own, by its transaction ids. */
  lemma {:induction false} RemoveWithInOrder(cs: seq<Confirmation>, ds: seq<Confirmation>, c: Confirmation, transactionId: int)
    ensures RemoveWith(cs + ds, transactionId) == RemoveWith(cs, transactionId) + RemoveWith(ds, transactionId)
    ensures RemoveWith([c], transactionId) == if transactionId in c.transactionIds then [] else [c]
  {
    if cs == [] {
      assert cs + ds == ds;
    } else {
      assert (cs + ds)[1..] == cs[1..] + ds;
      RemoveWithInOrder(cs[1..], ds, c, transactionId);
    }
    assert [c][1..] == [];
  }

  /** A scheduled id is never scheduled twice, keeps its first size, and is listed last when it is new. */
  lemma ScheduleExact(cs: seq<Confirmation>, messageId: int, size: nat)
    ensures (forall k :: 0 <= k < |cs| ==> cs[k].messageId != messageId) ==>
              Schedule(cs, messageId, size) == cs + [Confirmation(messageId, size, {})]
    ensures !(forall k :: 0 <= k < |cs| ==> cs[k].messageId != messageId) ==> Schedule(cs, messageId, size) == cs
    ensures DistinctIds(cs) ==> DistinctIds(Schedule(cs, messageId, size))
  {
  }

  /** Removal takes exactly the confirmations carrying the transaction id. */
  lemma {:induction false} RemoveWithExact(cs: seq<Confirmation>, transactionId: int)
    ensures forall c :: c in RemoveWith(cs, transactionId) <==> c in cs && transactionId !in c.transactionIds
    ensures DistinctIds(cs) ==> DistinctIds(RemoveWith(cs, transactionId))
  {
    if cs != [] {
      RemoveWithExact(cs[1..], transactionId);
      var r := RemoveWith(cs[1..], transactionId);
      assert forall k :: 0 <= k < |r| ==> r[k] in cs[1..];
      assert cs == [cs[0]] + cs[1..];
    }
  }

  // ---------- the class ----------

  class Session {
    const id: int
    var seqNo: int
    var lastClientMessageId: int
    var processedMessageIds: set<int>
    var scheduled: seq<Confirmation>
    var containers: map<int, seq<int>>

    constructor (id: int)
      ensures this.id == id && seqNo == 0 && lastClientMessageId == 0
      ensures processedMessageIds == {} && scheduled == [] && containers == map[]
    {
      this.id := id;
      seqNo, lastClientMessageId := 0, 0;
      processedMessageIds, scheduled, containers := {}, [], map[];
    }

    /** The flag is only ever raised, as the reference parameter of the original is. */
    method GenerateClientMessageId(clock: int, violated: bool) returns (messageId: int, violatedNow: bool)
      modifies this`lastClientMessageId
      ensures messageId == NextId(old(lastClientMessageId), clock) && lastClientMessageId == messageId
      ensures violatedNow <==> violated || Violates(old(lastClientMessageId), clock)
    {
      messageId := clock;
      violatedNow := violated;
      if messageId < lastClientMessageId {
        violatedNow := true;
      }
      if messageId == lastClientMessageId {
        messageId := lastClientMessageId + 1;
      }
      ghost var start := messageId;
      while messageId % 4 != 0
        invariant start <= messageId <= RoundUpTo4(start)
        decreases RoundUpTo4(start) - messageId
      {
        messageId := messageId + 1;
      }
      lastClientMessageId := messageId;
    }

    method GenerateClientSeqNo(messageIdIsMeaningful: bool) returns (result: int)
      modifies this`seqNo
      ensures result == NextSeqNo(old(seqNo), messageIdIsMeaningful)
      ensures seqNo == SeqNoAfter(old(seqNo), messageIdIsMeaningful)
    {
      if messageIdIsMeaningful {
        result := seqNo + 1;
        seqNo := seqNo + 2;
      } else {
        result := seqNo;
      }
    }

    method ScheduleMessageConfirmation(messageId: int, size: nat)
      modifies this`scheduled
      ensures scheduled == Schedule(old(scheduled), messageId, size)
    {
      var found := false;
      var i := 0;
      while i < |scheduled|
        invariant 0 <= i <= |scheduled|
        invariant found ==> IsScheduled(scheduled, messageId)
        invariant !found ==> forall k :: 0 <= k < i ==> scheduled[k].messageId != messageId
      {
        if scheduled[i].messageId == messageId {
          found := true;
          break;
        }
        i := i + 1;
      }
      if !found {
        scheduled := scheduled + [Confirmation(messageId, size, {})];
      }
    }

    method AssignTransactionId(transactionId: int, mids: seq<int>)
      modifies this`scheduled
      ensures scheduled == Assign(old(scheduled), transactionId, mids)
    {
      var i := 0;
      while i < |scheduled|
        invariant 0 <= i <= |scheduled| == |old(scheduled)|
        invariant forall k :: 0 <= k < i ==> scheduled[k] == AssignOne(old(scheduled)[k], transactionId, mids)
        invariant forall k :: i <= k < |scheduled| ==> scheduled[k] == old(scheduled)[k]
      {
        var j := 0;
        while j < |mids|
          invariant 0 <= j <= |mids|
          invariant |scheduled| == |old(scheduled)|
          invariant forall k :: 0 <= k < i ==> scheduled[k] == AssignOne(old(scheduled)[k], transactionId, mids)
          invariant forall k :: i <= k < |scheduled| ==> scheduled[k] == old(scheduled)[k]
          invariant scheduled[i].messageId !in mids[..j]
        {
          if mids[j] == scheduled[i].messageId {
            scheduled := scheduled[i := scheduled[i].(transactionIds := scheduled[i].transactionIds + {transactionId})];
            break;
          }
          j := j + 1;
        }
        i := i + 1;
      }
    }

    method RemoveScheduledConfirmationWithTransactionId(transactionId: int)
      modifies this`scheduled
      ensures scheduled == RemoveWith(old(scheduled), transactionId)
    {
      var kept: seq<Confirmation> := [];
      var i := 0;
      assert scheduled[0..] == scheduled;
      Sequences.EmptyIsNeutral(RemoveWith(scheduled, transactionId));
      while i < |scheduled|
        invariant 0 <= i <= |scheduled|
        invariant scheduled == old(scheduled)
        invariant kept + RemoveWith(scheduled[i..], transactionId) == RemoveWith(scheduled, transactionId)
      {
        assert scheduled[i..][1..] == scheduled[i + 1..];
        ghost var rest := RemoveWith(scheduled[i + 1..], transactionId);
        Sequences.Associative(kept, [scheduled[i]], rest);
        Sequences.EmptyIsNeutral(rest);
        if transactionId !in scheduled[i].transactionIds {
          kept := kept + [scheduled[i]];
        }
        i := i + 1;
      }
      assert RemoveWith(scheduled[i..], transactionId) == [];
      Sequences.EmptyIsNeutral(kept);
      scheduled := kept;
    }

    /** setMessageProcessed, told apart from a duplicate by messageIdProcessed. */
    method MarkProcessed(messageId: int) returns (duplicate: bool)
      modifies this`processedMessageIds
      ensures duplicate <==> messageId in old(processedMessageIds)
      ensures processedMessageIds == old(processedMessageIds) + {messageId}
    {
      duplicate := messageId in processedMessageIds;
      processedMessageIds := processedMessageIds + {messageId};
    }

    method AddContainerMessageIdMapping(containerMessageId: int, childMessageIds: seq<int>)
      modifies this`containers
      ensures containers == old(containers)[containerMessageId := childMessageIds]
    {
      containers := containers[containerMessageId := childMessageIds];
    }

    function MessageIdsInContainer(containerMessageId: int): seq<int>
      reads this
    {
      if containerMessageId in containers then containers[containerMessageId] else []
    }
  }
}
