/** What happens while a connection is registered, between its own IAM and its own BYE. */
module Stays {
  import opened Basics
  import opened ChatSystem
  import opened Flows
  import opened History

  /**
   What a registered client is to be told of: the logouts of others, the messages from name `a` to its
   own name `b`, or those that come from connection `i`.
   */
  datatype Interest = Leavers(k: nat) | Messages(a: string, b: string) | MessagesOf(i: nat, a: string, b: string)

  /** What event `e` gives a registered client to be told. */
  function Due(what: Interest, e: Event): seq<Item> {
    match what
    case Leavers(k) => if e.LoggedOut? && e.i != k then [Item(e.n, "")] else []
    case Messages(a, b) => if (e.Routed? || e.Refused?) && e.a == a && e.b == b then [Item(a, e.text)] else []
    case MessagesOf(i, a, b) => if (e.Routed? || e.Refused?) && e.i == i && e.b == b then [Item(a, e.text)] else []
  }

  function AllDue(what: Interest, es: seq<Event>): seq<Item> {
    if es == [] then [] else AllDue(what, Front(es)) + Due(what, Last(es))
  }

  /** What of it comes while `k` is registered. */
  function DueWhileIn(what: Interest, k: nat, log: seq<Event>): seq<Item> {
    if log == [] then []
    else
      DueWhileIn(what, k, Front(log)) + (if Member(Front(log), k) == Now then Due(what, Last(log)) else [])
  }

  /** `log[iam]` is the IAM of `k`, and `bye` its BYE, or the end of the log while there is none. */
  ghost predicate IsStay(names: seq<string>, log: seq<Event>, k: nat, iam: nat, bye: nat)
    requires k < |names|
  {
    && iam < bye <= |log| && log[iam] == Registered(k, names[k])
    && (if bye < |log| then log[bye] == LoggedOut(k, names[k])
        else forall p :: 0 <= p < |log| ==> log[p] != LoggedOut(k, names[k]))
  }

  lemma {:induction false} NothingBeforeJoining(what: Interest, k: nat, log: seq<Event>)
    requires Member(log, k) == Never
    ensures DueWhileIn(what, k, log) == []
  {
    if log == [] {
    } else {
      NothingBeforeJoining(what, k, Front(log));
    }
  }

  lemma {:induction false} NoByeYet(names: seq<string>, log: seq<Event>, k: nat)
    requires LogOk(names, log) && k < |names| && Member(log, k) != Past
    ensures LoggedOut(k, names[k]) !in log
  {
    if log == [] {
    } else {
      NoByeYet(names, Front(log), k);
    }
  }

  /** The stay of `k`, with all that it is to be told. */
  ghost predicate ToldDuring(names: seq<string>, log: seq<Event>, what: Interest, k: nat, iam: nat, bye: nat)
    requires k < |names|
  {
    && IsStay(names, log, k, iam, bye)
    && DueWhileIn(what, k, log) == AllDue(what, log[iam + 1..bye])
    && (bye == |log| <==> Member(log, k) == Now)
  }

  lemma StayBegins(names: seq<string>, log: seq<Event>, what: Interest, k: nat)
    requires k < |names| && Member(log, k) == Never && LoggedOut(k, names[k]) !in log
    ensures ToldDuring(names, log + [Registered(k, names[k])], what, k, |log|, |log| + 1)
  {
    var e := Registered(k, names[k]);
    Snoc(log, e);
    NothingBeforeJoining(what, k, log);
    assert (log + [e])[|log| + 1..|log| + 1] == [];
  }

  lemma StayGoesOn(names: seq<string>, log: seq<Event>, e: Event, what: Interest, k: nat, iam: nat)
    requires k < |names| && ToldDuring(names, log, what, k, iam, |log|)
    requires !(e.LoggedOut? && e.i == k) && !(e.Registered? && e.i == k)
    ensures ToldDuring(names, log + [e], what, k, iam, |log| + 1)
  {
    Snoc(log, e);
    assert (log + [e])[iam + 1..|log| + 1] == log[iam + 1..|log|] + [e];
    Snoc(log[iam + 1..|log|], e);
  }

  lemma StayEnds(names: seq<string>, log: seq<Event>, what: Interest, k: nat, iam: nat)
    requires k < |names| && ToldDuring(names, log, what, k, iam, |log|)
    requires Due(what, LoggedOut(k, names[k])) == []
    ensures ToldDuring(names, log + [LoggedOut(k, names[k])], what, k, iam, |log|)
  {
    Snoc(log, LoggedOut(k, names[k]));
    assert (log + [LoggedOut(k, names[k])])[iam + 1..|log|] == log[iam + 1..|log|];
  }

  lemma StayIsOver(names: seq<string>, log: seq<Event>, e: Event, what: Interest, k: nat, iam: nat, bye: nat)
    requires k < |names| && ToldDuring(names, log, what, k, iam, bye) && bye < |log|
    requires !(e.Registered? && e.i == k)
    ensures ToldDuring(names, log + [e], what, k, iam, bye)
  {
    Snoc(log, e);
    assert (log + [e])[iam + 1..bye] == log[iam + 1..bye];
  }

  /** Whoever has registered has one stay; what comes while it is registered is what comes during that stay. */
  lemma {:induction false} StayOf(names: seq<string>, log: seq<Event>, what: Interest, k: nat)
    returns (iam: nat, bye: nat)
    requires LogOk(names, log) && k < |names| && Member(log, k) != Never
    requires Due(what, LoggedOut(k, names[k])) == []
    ensures ToldDuring(names, log, what, k, iam, bye)
  {
    var front, e := Front(log), Last(log);
    assert log == front + [e];
    if e.Registered? && e.i == k {
      iam, bye := |front|, |log|;
      NoByeYet(names, front, k);
      StayBegins(names, front, what, k);
    } else {
      iam, bye := StayOf(names, front, what, k);
      if bye < |front| {
        StayIsOver(names, front, e, what, k, iam, bye);
      } else if e.LoggedOut? && e.i == k {
        StayEnds(names, front, what, k, iam);
      } else {
        StayGoesOn(names, front, e, what, k, iam);
        bye := |log|;
      }
    }
  }
}
