/** gp/proto/AuthKeyInfo.cpp: the salt list that prunes itself on look-up, and the merge of a fresh salt list. */
module AuthKeyInfos {
  import opened Bytes
  import Sequences

  datatype Salt = Salt(salt: i64, firstValidMessageId: i64, lastValidMessageId: i64) {
    predicate Covers(messageId: i64) {
      firstValidMessageId <= messageId <= lastValidMessageId
    }

    predicate IsValidFutureSalt(messageId: i64) {
      lastValidMessageId > messageId
    }
  }

  // ---------- look-up ----------

  /** Index of the first salt covering the id, or the length of the list. */
  function FirstMatch(salts: seq<Salt>, messageId: i64): (k: nat)
    ensures k <= |salts|
    ensures forall i :: 0 <= i < k ==> !salts[i].Covers(messageId)
    ensures k < |salts| ==> salts[k].Covers(messageId)
  {
    if salts == [] || salts[0].Covers(messageId) then 0 else 1 + FirstMatch(salts[1..], messageId)
  }

  predicate Found(salts: seq<Salt>, messageId: i64) {
    FirstMatch(salts, messageId) < |salts|
  }

  /** The salt a search returns; 0 stands for none. */
  function Search(salts: seq<Salt>, messageId: i64): i64 {
    if Found(salts, messageId) then salts[FirstMatch(salts, messageId)].salt else 0
  }

  /** What a look-up leaves behind: everything it scanned without success is gone. */
  function Pruned(salts: seq<Salt>, messageId: i64): seq<Salt> {
    salts[FirstMatch(salts, messageId)..]
  }

  /** What a look-up returns and leaves: the salts before the first one whose interval holds the id go, and that one's
      value is the result; without one everything goes and the result is 0. */
  lemma LookUpExact(salts: seq<Salt>, messageId: i64)
    ensures var rest := Pruned(salts, messageId);
            && (rest != [] ==> rest[0].firstValidMessageId <= messageId <= rest[0].lastValidMessageId
                               && Search(salts, messageId) == rest[0].salt)
            && (rest == [] ==> Search(salts, messageId) == 0)
            && |rest| <= |salts| && rest == salts[|salts| - |rest|..]
            && forall i :: 0 <= i < |salts| - |rest| ==>
                 messageId < salts[i].firstValidMessageId || salts[i].lastValidMessageId < messageId
  {
  }

  function PrunedBy(salts: seq<Salt>, messageIds: seq<i64>): seq<Salt> {
    if messageIds == [] then salts else PrunedBy(Pruned(salts, messageIds[0]), messageIds[1..])
  }

  ghost predicate SortedSalts(salts: seq<Salt>) {
    forall i, j :: 0 <= i < j < |salts| ==> salts[i].firstValidMessageId <= salts[j].firstValidMessageId
  }

  ghost predicate NonDecreasing(ids: seq<i64>) {
    forall i, j :: 0 <= i < j < |ids| ==> ids[i] <= ids[j]
  }

  ghost predicate AllFound(salts: seq<Salt>, ids: seq<i64>) {
    forall i :: 0 <= i < |ids| ==> Found(salts, ids[i])
  }

  /** A successful look-up on a sorted list changes no later search. */
  lemma PruneOnce(salts: seq<Salt>, earlier: i64, later: i64)
    requires SortedSalts(salts) && earlier <= later && Found(salts, earlier)
    ensures var rest := Pruned(salts, earlier);
            SortedSalts(rest) && Search(rest, later) == Search(salts, later) && (Found(rest, later) <==> Found(salts, later))
  {
    var k := FirstMatch(salts, earlier);
    forall i | 0 <= i < k
      ensures !salts[i].Covers(later)
    {
      assert salts[i].firstValidMessageId <= salts[k].firstValidMessageId <= earlier;
    }
    SkipMisses(salts, k, later);
  }

  lemma {:induction false} SkipMisses(salts: seq<Salt>, k: nat, messageId: i64)
    requires k <= |salts| && forall i :: 0 <= i < k ==> !salts[i].Covers(messageId)
    ensures FirstMatch(salts, messageId) == k + FirstMatch(salts[k..], messageId)
  {
    if k > 0 {
      SkipMisses(salts[1..], k - 1, messageId);
      assert salts[1..][k - 1..] == salts[k..];
    }
  }

  lemma {:induction false} EmptyStaysEmpty(ids: seq<i64>)
    ensures PrunedBy([], ids) == []
  {
    if ids != [] {
      EmptyStaysEmpty(ids[1..]);
    }
  }

  /** The self-pruning look-up is a sound cache: on a sorted list and non-decreasing ids it returns what a search of the
      original list would exactly when every earlier id was covered, or the original search finds nothing either. A
      single miss empties the list. */
  lemma {:induction false} PruningIsSound(salts: seq<Salt>, ids: seq<i64>, messageId: i64)
    requires SortedSalts(salts) && NonDecreasing(ids + [messageId])
    ensures AllFound(salts, ids) ==> Search(PrunedBy(salts, ids), messageId) == Search(salts, messageId)
    ensures !AllFound(salts, ids) ==> PrunedBy(salts, ids) == []
    ensures (Found(PrunedBy(salts, ids), messageId) <==> Found(salts, messageId))
            <==> AllFound(salts, ids) || !Found(salts, messageId)
    decreases |ids|
  {
    if ids != [] {
      var rest := Pruned(salts, ids[0]);
      var all := ids + [messageId];
      assert all[1..] == ids[1..] + [messageId];
      assert ids[0] == all[0] <= all[|ids|];
      if Found(salts, ids[0]) {
        forall i | 1 <= i < |ids|
          ensures Found(rest, ids[i]) <==> Found(salts, ids[i])
        {
          assert all[0] <= all[i];
          PruneOnce(salts, ids[0], ids[i]);
        }
        PruneOnce(salts, ids[0], messageId);
        PruningIsSound(rest, ids[1..], messageId);
        SplitAllFound(salts, rest, ids);
      } else {
        assert rest == [];
        EmptyStaysEmpty(ids[1..]);
      }
    }
  }

  lemma SplitAllFound(salts: seq<Salt>, rest: seq<Salt>, ids: seq<i64>)
    requires ids != [] && Found(salts, ids[0])
    requires forall i :: 1 <= i < |ids| ==> (Found(rest, ids[i]) <==> Found(salts, ids[i]))
    ensures AllFound(salts, ids) <==> AllFound(rest, ids[1..])
  {
    if AllFound(rest, ids[1..]) {
      forall i | 0 <= i < |ids|
        ensures Found(salts, ids[i])
      {
        if i > 0 {
          assert ids[i] == ids[1..][i - 1];
        }
      }
    }
  }

  /** The miss that loses a salt which is not yet valid: an id between two intervals. */
  lemma MissLosesFutureSalt()
    ensures var salts := [Salt(5, 0, 10), Salt(6, 20, 30)];
            SortedSalts(salts) && Search(salts, 25) == 6 && Search(PrunedBy(salts, [15]), 25) == 0
  {
    var salts := [Salt(5, 0, 10), Salt(6, 20, 30)];
    assert salts[1..] == [Salt(6, 20, 30)] && salts[1..][1..] == [];
    assert FirstMatch(salts, 25) == 1 && FirstMatch(salts, 15) == 2;
    assert Pruned(salts, 15) == [];
    assert [15 as i64][1..] == [];
  }

  // ---------- merge ----------

  function Unexpired(salts: seq<Salt>, reference: i64): seq<Salt> {
    if salts == [] then []
    else (if salts[0].IsValidFutureSalt(reference) then [salts[0]] else []) + Unexpired(salts[1..], reference)
  }

  predicate HasFirst(salts: seq<Salt>, first: i64) {
    exists k :: 0 <= k < |salts| && salts[k].firstValidMessageId == first
  }

  function AddNew(merged: seq<Salt>, updates: seq<Salt>, reference: i64): seq<Salt>
    decreases |updates|
  {
    if updates == [] then merged
    else
      AddNew(AddOne(merged, updates[0], reference), updates[1..], reference)
  }

  function Merge(salts: seq<Salt>, updates: seq<Salt>, reference: i64): seq<Salt> {
    AddNew(Unexpired(salts, reference), updates, reference)
  }

  ghost predicate DistinctFirsts(salts: seq<Salt>) {
    forall i, j :: 0 <= i < j < |salts| ==> salts[i].firstValidMessageId != salts[j].firstValidMessageId
  }

  lemma {:induction false} UnexpiredKeeps(salts: seq<Salt>, reference: i64)
    ensures forall s :: s in Unexpired(salts, reference) <==> s in salts && s.IsValidFutureSalt(reference)
    ensures DistinctFirsts(salts) ==> DistinctFirsts(Unexpired(salts, reference))
    ensures SortedSalts(salts) ==> SortedSalts(Unexpired(salts, reference))
  {
    if salts != [] {
      UnexpiredKeeps(salts[1..], reference);
      var u := Unexpired(salts[1..], reference);
      assert forall s :: s in salts <==> s == salts[0] || s in salts[1..] by {
        assert salts == [salts[0]] + salts[1..];
      }
      FirstBelowRest(salts);
      if salts[0].IsValidFutureSalt(reference) {
        PrependKeeps(salts[0], u);
      } else {
        Sequences.EmptyIsNeutral(u);
      }
    }
  }

  lemma FirstBelowRest(salts: seq<Salt>)
    requires salts != []
    ensures SortedSalts(salts) ==>
              && SortedSalts(salts[1..])
              && forall s :: s in salts[1..] ==> salts[0].firstValidMessageId <= s.firstValidMessageId
    ensures DistinctFirsts(salts) ==>
              && DistinctFirsts(salts[1..])
              && forall s :: s in salts[1..] ==> salts[0].firstValidMessageId != s.firstValidMessageId
  {
  }

  lemma PrependKeeps(first: Salt, rest: seq<Salt>)
    ensures SortedSalts(rest) && (forall s :: s in rest ==> first.firstValidMessageId <= s.firstValidMessageId) ==>
              SortedSalts([first] + rest)
    ensures DistinctFirsts(rest) && (forall s :: s in rest ==> first.firstValidMessageId != s.firstValidMessageId) ==>
              DistinctFirsts([first] + rest)
  {
  }

  /** One round of the second loop. */
  function AddOne(merged: seq<Salt>, u: Salt, reference: i64): seq<Salt> {
    if !HasFirst(merged, u.firstValidMessageId) && u.IsValidFutureSalt(reference) then merged + [u] else merged
  }

  lemma {:induction false} AddNewExtends(merged: seq<Salt>, updates: seq<Salt>, reference: i64)
    ensures var r := AddNew(merged, updates, reference);
            merged <= r && forall k :: |merged| <= k < |r| ==> r[k] in updates && r[k].IsValidFutureSalt(reference)
    decreases |updates|
  {
    hide HasFirst;
    if updates != [] {
      var next := AddOne(merged, updates[0], reference);
      AddNewExtends(next, updates[1..], reference);
      var r := AddNew(next, updates[1..], reference);
      assert forall u :: u in updates[1..] ==> u in updates;
      assert updates[0] in updates;
      assert forall k :: |merged| <= k < |next| ==> r[k] == next[k] == updates[0];
    }
  }

  lemma {:induction false} AddNewCovers(merged: seq<Salt>, updates: seq<Salt>, reference: i64, u: Salt)
    requires u in updates && u.IsValidFutureSalt(reference)
    ensures HasFirst(AddNew(merged, updates, reference), u.firstValidMessageId)
    decreases |updates|
  {
    var next := AddOne(merged, updates[0], reference);
    if u == updates[0] {
      if next != merged {
        assert next[|merged|] == u;
      }
      AddNewExtends(next, updates[1..], reference);
      var r := AddNew(next, updates[1..], reference);
      var k :| 0 <= k < |next| && next[k].firstValidMessageId == u.firstValidMessageId;
      assert r[k] == next[k];
    } else {
      assert u in updates[1..];
      AddNewCovers(next, updates[1..], reference, u);
    }
  }

  lemma {:induction false} AddNewDistinct(merged: seq<Salt>, updates: seq<Salt>, reference: i64)
    requires DistinctFirsts(merged)
    ensures DistinctFirsts(AddNew(merged, updates, reference))
    decreases |updates|
  {
    if updates != [] {
      AddNewDistinct(AddOne(merged, updates[0], reference), updates[1..], reference);
    }
  }

  /** Merging keeps every unexpired old salt in order as a prefix, adds only unexpired new ones, leaves every unexpired
      new validity start represented, and keeps validity starts distinct. */
  lemma MergeIsConservative(salts: seq<Salt>, updates: seq<Salt>, reference: i64)
    ensures var r := Merge(salts, updates, reference);
            && Unexpired(salts, reference) <= r
            && (forall s :: s in salts && reference < s.lastValidMessageId ==> s in r)
            && (forall s :: s in r ==> reference < s.lastValidMessageId && (s in salts || s in updates))
            && (forall u :: u in updates && reference < u.lastValidMessageId ==> HasFirst(r, u.firstValidMessageId))
            && (DistinctFirsts(salts) ==> DistinctFirsts(r))
  {
    UnexpiredKeeps(salts, reference);
    var kept := Unexpired(salts, reference);
    AddNewExtends(kept, updates, reference);
    if DistinctFirsts(salts) {
      AddNewDistinct(kept, updates, reference);
    }
    forall u | u in updates && u.IsValidFutureSalt(reference)
      ensures HasFirst(Merge(salts, updates, reference), u.firstValidMessageId)
    {
      AddNewCovers(kept, updates, reference, u);
    }
    var r := Merge(salts, updates, reference);
    forall s | s in salts && s.IsValidFutureSalt(reference)
      ensures s in r
    {
      var k :| 0 <= k < |kept| && kept[k] == s;
      assert r[k] == s;
    }
    forall s | s in r
      ensures s.IsValidFutureSalt(reference) && (s in salts || s in updates)
    {
      var k :| 0 <= k < |r| && r[k] == s;
      if k < |kept| {
        assert kept[k] in kept;
      }
    }
  }

  /** Every unexpired update whose validity start is new starts no earlier than anything in the list. */
  ghost predicate NewStartLater(merged: seq<Salt>, updates: seq<Salt>, reference: i64) {
    forall u :: u in updates && u.IsValidFutureSalt(reference) && !HasFirst(merged, u.firstValidMessageId) ==>
      forall k :: 0 <= k < |merged| ==> merged[k].firstValidMessageId <= u.firstValidMessageId
  }

  lemma {:induction false} AddNewSorted(merged: seq<Salt>, updates: seq<Salt>, reference: i64)
    requires SortedSalts(merged) && SortedSalts(updates) && NewStartLater(merged, updates, reference)
    ensures SortedSalts(AddNew(merged, updates, reference))
    decreases |updates|
  {
    if updates != [] {
      AddOneSorted(merged, updates, reference);
      AddNewSorted(AddOne(merged, updates[0], reference), updates[1..], reference);
    }
  }

  lemma AddOneSorted(merged: seq<Salt>, updates: seq<Salt>, reference: i64)
    requires updates != []
    requires SortedSalts(merged) && SortedSalts(updates) && NewStartLater(merged, updates, reference)
    ensures var next := AddOne(merged, updates[0], reference);
            SortedSalts(next) && SortedSalts(updates[1..]) && NewStartLater(next, updates[1..], reference)
  {
    var next := AddOne(merged, updates[0], reference);
    FirstBelowRest(updates);
    assert updates[0] in updates;
    forall u | u in updates[1..] && u.IsValidFutureSalt(reference) && !HasFirst(next, u.firstValidMessageId)
      ensures forall k :: 0 <= k < |next| ==> next[k].firstValidMessageId <= u.firstValidMessageId
    {
      assert u in updates;
      HasFirstLonger(merged, next, u.firstValidMessageId);
    }
  }

  lemma HasFirstLonger(salts: seq<Salt>, longer: seq<Salt>, first: i64)
    requires salts <= longer
    ensures HasFirst(salts, first) ==> HasFirst(longer, first)
  {
    if HasFirst(salts, first) {
      var k :| 0 <= k < |salts| && salts[k].firstValidMessageId == first;
      assert longer[k] == salts[k];
    }
  }

  /** The merge appends, so it can break the order that pruning relies on. It keeps it exactly when no new salt starts
      before an unexpired old one. */
  lemma MergeSortedExactly(salts: seq<Salt>, updates: seq<Salt>, reference: i64)
    requires SortedSalts(salts) && SortedSalts(updates)
    ensures SortedSalts(Merge(salts, updates, reference))
            <==> NewStartLater(Unexpired(salts, reference), updates, reference)
  {
    var kept := Unexpired(salts, reference);
    var r := Merge(salts, updates, reference);
    UnexpiredKeeps(salts, reference);
    if NewStartLater(kept, updates, reference) {
      AddNewSorted(kept, updates, reference);
    }
    if SortedSalts(r) {
      SortedMergeStartsLater(kept, updates, reference);
    }
  }

  lemma SortedMergeStartsLater(kept: seq<Salt>, updates: seq<Salt>, reference: i64)
    requires SortedSalts(AddNew(kept, updates, reference))
    ensures NewStartLater(kept, updates, reference)
  {
    hide AddNew;
    var r := AddNew(kept, updates, reference);
    AddNewExtends(kept, updates, reference);
    forall u | u in updates && u.IsValidFutureSalt(reference) && !HasFirst(kept, u.firstValidMessageId)
      ensures forall k :: 0 <= k < |kept| ==> kept[k].firstValidMessageId <= u.firstValidMessageId
    {
      AddNewCovers(kept, updates, reference, u);
      NewIsBehind(kept, r, u.firstValidMessageId);
    }
  }

  lemma NewIsBehind(kept: seq<Salt>, r: seq<Salt>, first: i64)
    requires kept <= r && SortedSalts(r) && HasFirst(r, first) && !HasFirst(kept, first)
    ensures forall k :: 0 <= k < |kept| ==> kept[k].firstValidMessageId <= first
  {
    var j :| 0 <= j < |r| && r[j].firstValidMessageId == first;
    assert forall k :: 0 <= k < |kept| ==> kept[k] == r[k];
  }

  /** So after a merge that meets the condition the pruning look-up is the sound cache of PruningIsSound again. */
  lemma MergeThenPrune(salts: seq<Salt>, updates: seq<Salt>, reference: i64, ids: seq<i64>, messageId: i64)
    requires SortedSalts(salts) && SortedSalts(updates) && NonDecreasing(ids + [messageId])
    requires NewStartLater(Unexpired(salts, reference), updates, reference)
    ensures var merged := Merge(salts, updates, reference);
            && (AllFound(merged, ids) ==> Search(PrunedBy(merged, ids), messageId) == Search(merged, messageId))
            && ((Found(PrunedBy(merged, ids), messageId) <==> Found(merged, messageId))
                <==> AllFound(merged, ids) || !Found(merged, messageId))
  {
    MergeSortedExactly(salts, updates, reference);
    PruningIsSound(Merge(salts, updates, reference), ids, messageId);
  }

  /** A witness: two sorted lists whose merge is not sorted. */
  lemma MergeCanUnsort()
    ensures var old', new' := [Salt(5, 20, 30)], [Salt(6, 0, 40)];
            SortedSalts(old') && SortedSalts(new') && !SortedSalts(Merge(old', new', 10))
  {
    var old', new' := [Salt(5, 20, 30)], [Salt(6, 0, 40)];
    assert old'[1..] == [] && new'[1..] == [];
    assert Unexpired(old', 10) == old';
    var r := Merge(old', new', 10);
    assert !HasFirst(old', 0);
    assert r == old' + new';
    assert r[0].firstValidMessageId == 20 && r[1].firstValidMessageId == 0;
  }

  // ---------- the class ----------

  class AuthKeyInfo {
    var saltSet: seq<Salt>

    constructor (salts: seq<Salt>)
      ensures saltSet == salts
    {
      saltSet := salts;
    }

    /** Scans, remembers the indices to drop, then erases them from the back. */
    method AuthSaltForClientMessageId(messageId: i64) returns (bestSalt: i64)
      modifies this
      ensures bestSalt == Search(old(saltSet), messageId) && saltSet == Pruned(old(saltSet), messageId)
    {
      bestSalt := 0;
      ghost var k := FirstMatch(saltSet, messageId);
      var saltsToRemove: set<int> := {};
      var index := 0;
      while index < |saltSet|
        invariant 0 <= index <= k && saltSet == old(saltSet) && bestSalt == 0
        invariant forall i :: i in saltsToRemove <==> 0 <= i < index
      {
        if messageId >= saltSet[index].firstValidMessageId && messageId <= saltSet[index].lastValidMessageId {
          bestSalt := saltSet[index].salt;
          break;
        }
        saltsToRemove := saltsToRemove + {index};
        index := index + 1;
      }
      assert index == k;
      var i := |saltSet| - 1;
      while i >= 0
        invariant -1 <= i < |old(saltSet)|
        invariant i + 1 >= k ==> saltSet == old(saltSet)
        invariant i + 1 < k ==> saltSet == old(saltSet)[..i + 1] + old(saltSet)[k..]
      {
        if i in saltsToRemove {
          saltSet := saltSet[..i] + saltSet[i + 1..];
        }
        i := i - 1;
      }
      assert saltSet == old(saltSet)[k..];
    }

    /** The inner search of the second loop. */
    method ExistsFirst(merged: seq<Salt>, first: i64) returns (alreadyExists: bool)
      ensures alreadyExists <==> HasFirst(merged, first)
    {
      alreadyExists := false;
      var j := 0;
      while j < |merged|
        invariant 0 <= j <= |merged|
        invariant forall k :: 0 <= k < j ==> merged[k].firstValidMessageId != first
      {
        if merged[j].firstValidMessageId == first {
          return true;
        }
        j := j + 1;
      }
    }

    method MergeSaltset(updatedSaltset: seq<Salt>, reference: i64) returns (merged: seq<Salt>)
      ensures merged == Merge(saltSet, updatedSaltset, reference)
    {
      hide HasFirst;
      merged := [];
      var i := 0;
      assert saltSet[0..] == saltSet;
      while i < |saltSet|
        invariant 0 <= i <= |saltSet|
        invariant merged + Unexpired(saltSet[i..], reference) == Unexpired(saltSet, reference)
      {
        assert saltSet[i..][1..] == saltSet[i + 1..];
        ghost var rest := Unexpired(saltSet[i + 1..], reference);
        if saltSet[i].IsValidFutureSalt(reference) {
          merged := merged + [saltSet[i]];
        }
        i := i + 1;
      }
      assert merged == Unexpired(saltSet, reference);
      i := 0;
      assert updatedSaltset[0..] == updatedSaltset;
      while i < |updatedSaltset|
        invariant 0 <= i <= |updatedSaltset|
        invariant AddNew(merged, updatedSaltset[i..], reference) == Merge(saltSet, updatedSaltset, reference)
      {
        assert updatedSaltset[i..][1..] == updatedSaltset[i + 1..];
        var alreadyExists := ExistsFirst(merged, updatedSaltset[i].firstValidMessageId);
        if !alreadyExists {
          if updatedSaltset[i].IsValidFutureSalt(reference) {
            merged := merged + [updatedSaltset[i]];
          }
        }
        i := i + 1;
      }
    }
  }
}
