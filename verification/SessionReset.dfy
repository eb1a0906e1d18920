/** The lock of resetSessionInfo in gp/proto/Proto.cpp, and the reactions of processIncomingMessage to a bad message
    notification that lead to it. Times are seconds. */
module SessionResets {

  /** Whether an attempt replaces the session, and the lock it leaves; 0 is "no lock". */
  function Attempt(lock: real, now: real): (bool, real) {
    if lock != 0.0 then
      if now > lock + 1.0 then (true, 0.0) else (false, lock)
    else (true, now)
  }

  /** How many of a run of attempts replace the session. */
  function Replacements(lock: real, times: seq<real>): nat
    decreases |times|
  {
    if times == [] then 0 else
      var (allowed, next) := Attempt(lock, times[0]);
      (if allowed then 1 else 0) + Replacements(next, times[1..])
  }

  function After(t: real, times: seq<real>): nat {
    if times == [] then 0 else (if times[0] > t then 1 else 0) + After(t, times[1..])
  }

  ghost predicate Window(times: seq<real>) {
    && (forall i, j :: 0 <= i < j < |times| ==> times[i] <= times[j] <= times[i] + 1.0)
    && (forall i :: 0 <= i < |times| ==> times[i] > 0.0)
  }

  function AtMost(n: nat, bound: nat): nat { if n < bound then n else bound }

  /** The lock is meant to limit replacements to one a second. Within a second it does, exactly when no lock is set at the
      start or at most one attempt comes after the set lock has expired: an expired lock is cleared instead of renewed, so
      the next attempt succeeds as well. */
  lemma {:induction false} ReplacementsInASecond(lock: real, times: seq<real>)
    requires Window(times) && lock >= 0.0
    ensures Replacements(lock, times)
            == if lock == 0.0 then AtMost(|times|, 1) else AtMost(After(lock + 1.0, times), 2)
    ensures Replacements(lock, times) <= 1 <==> lock == 0.0 || After(lock + 1.0, times) <= 1
    decreases |times|
  {
    if times != [] {
      var (allowed, next) := Attempt(lock, times[0]);
      assert Window(times[1..]);
      ReplacementsInASecond(next, times[1..]);
      if lock == 0.0 {
        NoneAfter(times[0] + 1.0, times[1..]);
      } else if allowed {
        AllAfter(lock + 1.0, times);
      }
    }
  }

  lemma {:induction false} NoneAfter(t: real, times: seq<real>)
    requires forall i :: 0 <= i < |times| ==> times[i] <= t
    ensures After(t, times) == 0
  {
    if times != [] {
      NoneAfter(t, times[1..]);
    }
  }

  lemma {:induction false} AllAfter(t: real, times: seq<real>)
    requires Window(times) && (times != [] ==> times[0] > t)
    ensures After(t, times) == |times|
  {
    if times != [] {
      assert Window(times[1..]);
      AllAfter(t, times[1..]);
    }
  }

  // ---------- bad message notifications ----------

  datatype Reaction = InitiateTimeSync | ResetSession

  /** The switch on the error code: no case ends in a break, so each falls through to all that follow. */
  method BadMessageReactions(errorCode: int) returns (reactions: seq<Reaction>)
    ensures errorCode in {16, 17} ==>
              reactions == [InitiateTimeSync, ResetSession, InitiateTimeSync, InitiateTimeSync, ResetSession]
    ensures errorCode in {32, 33} ==> reactions == [ResetSession, InitiateTimeSync, InitiateTimeSync, ResetSession]
    ensures errorCode == 48 ==> reactions == [InitiateTimeSync, ResetSession]
    ensures errorCode !in {16, 17, 32, 33, 48} ==> reactions == [ResetSession]
  {
    reactions := [];
    if errorCode in {16, 17} {
      reactions := reactions + [InitiateTimeSync];
    }
    if errorCode in {16, 17, 32, 33} {
      reactions := reactions + [ResetSession, InitiateTimeSync];
    }
    if errorCode in {16, 17, 32, 33, 48} {
      reactions := reactions + [InitiateTimeSync];
    }
    reactions := reactions + [ResetSession];
  }
}
