/** Every client hears of exactly the logouts of others between its own IAM and its own BYE. */
module Logouts {
  import opened Basics
  import opened ChatSystem
  import opened Flows
  import opened History
  import opened Stays

  /** The server tells `k` of a logout when `k` is registered, and not otherwise. */
  lemma {:induction false} ToldWhileIn(log: seq<Event>, k: nat)
    ensures Entered(UoffFlow, k, log) == DueWhileIn(Leavers(k), k, log)
  {
    if log == [] {
    } else {
      ToldWhileIn(Front(log), k);
    }
  }

  /** The UOFF frames read by `k`, then those in its channel, name the others that left during its stay. */
  lemma LogoutsAreHeard(names: seq<string>, steps: seq<Step>, k: nat) returns (iam: nat, bye: nat)
    requires k < |names| && Member(Exec(Init(names), steps).log, k) != Never
    ensures var s := Exec(Init(names), steps);
            && IsStay(names, s.log, k, iam, bye)
            && Left(UoffFlow, k, s.log) + Waiting(UoffFlow, s.clients[k])
               == AllDue(Leavers(k), s.log[iam + 1..bye])
  {
    var s := Exec(Init(names), steps);
    LogReached(names, steps);
    iam, bye := StayOf(names, s.log, Leavers(k), k);
    ToldWhileIn(s.log, k);
    FlowReached(names, steps, UoffFlow, k);
  }

  /** A client that never registered hears of no logout. */
  lemma OutsidersHearNothing(names: seq<string>, steps: seq<Step>, k: nat)
    requires k < |names| && Member(Exec(Init(names), steps).log, k) == Never
    ensures var s := Exec(Init(names), steps);
            Left(UoffFlow, k, s.log) == [] && Waiting(UoffFlow, s.clients[k]) == []
  {
    var s := Exec(Init(names), steps);
    NothingBeforeJoining(Leavers(k), k, s.log);
    ToldWhileIn(s.log, k);
    FlowReached(names, steps, UoffFlow, k);
  }
}
