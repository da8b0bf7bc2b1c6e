/** What one client receives from another is what the other sent, in order, without loss or repetition. */
module Delivery {
  import opened Basics
  import opened Registry
  import opened ChatSystem
  import opened Flows
  import opened History
  import opened Stays

  /** The items that carry `name`, in order. */
  function Named(items: seq<Item>, name: string): seq<Item> {
    if items == [] then []
    else Named(Front(items), name) + (if Last(items).name == name then [Last(items)] else [])
  }

  lemma {:induction false} NamedConcat(p: seq<Item>, q: seq<Item>, name: string)
    ensures Named(p + q, name) == Named(p, name) + Named(q, name)
  {
    if q == [] {
      assert p + q == p;
    } else {
      assert Front(p + q) == p + Front(q) && Last(p + q) == Last(q);
      NamedConcat(p, Front(q), name);
    }
  }

  lemma NamedShort(x: seq<Item>, name: string)
    requires |x| <= 1
    ensures Named(x, name) == if x != [] && x[0].name == name then x else []
  {
    if x != [] {
      assert Front(x) == [] && x == [x[0]];
    }
  }

  /** What the server has put into the channel to `j` for the name `a`. */
  function Forwarded(log: seq<Event>, a: string, j: nat): seq<Item> {
    if log == [] then []
    else
      Forwarded(Front(log), a, j)
      + (if Last(log).Routed? && Last(log).a == a && Last(log).j == j then [Item(a, Last(log).text)] else [])
  }

  lemma ForwardedByOne(log: seq<Event>, e: Event, a: string, j: nat)
    ensures Named(Enters(FromFlow, j, log, e), a)
            == if e.Routed? && e.a == a && e.j == j then [Item(a, e.text)] else []
  {
    NamedShort(Enters(FromFlow, j, log, e), a);
  }

  lemma {:induction false} ForwardedEnters(log: seq<Event>, a: string, j: nat)
    ensures Named(Entered(FromFlow, j, log), a) == Forwarded(log, a, j)
  {
    if log == [] {
    } else {
      ForwardedEnters(Front(log), a, j);
      NamedConcat(Entered(FromFlow, j, Front(log)), Enters(FromFlow, j, Front(log), Last(log)), a);
      ForwardedByOne(Front(log), Last(log), a, j);
    }
  }

  /** What `j` has received from `a`, then what is queued for it. */
  function ReceivedThenQueued(s: System, a: string, j: nat): seq<Item>
    requires j < |s.clients|
  {
    Named(Left(FromFlow, j, s.log), a) + Named(Waiting(FromFlow, s.clients[j]), a)
  }

  /** What `j` has received from `a`, then what is queued, is what was forwarded to it for `a`. */
  lemma NothingLost(names: seq<string>, steps: seq<Step>, a: string, j: nat)
    requires j < |names|
    ensures var s := Exec(Init(names), steps);
            ReceivedThenQueued(s, a, j) == Forwarded(s.log, a, j)
  {
    var s := Exec(Init(names), steps);
    FlowReached(names, steps, FromFlow, j);
    NamedConcat(Left(FromFlow, j, s.log), Waiting(FromFlow, s.clients[j]), a);
    ForwardedEnters(s.log, a, j);
  }

  /**
   A message to the name of `j` that the server processes is forwarded to `j`, and not refused, when `j`
   is registered; at other times nothing is forwarded to `j`.
   */
  lemma ForwardedIffIn(names: seq<string>, log: seq<Event>, e: Event, a: string, j: nat)
    requires LogOk(names, log) && Justified(names, log, e) && j < |names|
    ensures e.Routed? && e.a == a && e.j == j
            <==> Member(log, j) == Now && Due(Messages(a, names[j]), e) != []
  {
    var users := Live(log);
    if e.Routed? && Member(log, j) == Now {
      ScansAgree(users, User(names[j], j));
      ScansAgree(users, User(e.b, e.j));
    }
  }

  lemma {:induction false} ForwardedWhileIn(names: seq<string>, log: seq<Event>, a: string, j: nat)
    requires LogOk(names, log) && j < |names|
    ensures Forwarded(log, a, j) == DueWhileIn(Messages(a, names[j]), j, log)
  {
    if log == [] {
    } else {
      ForwardedWhileIn(names, Front(log), a, j);
      ForwardedIffIn(names, Front(log), Last(log), a, j);
    }
  }

  /**
   What the client on connection `j` has received from the name `a`, followed by what is queued for it,
   is what the server has processed, between the IAM and the BYE of `j`, of the messages of whoever was
   called `a` to the name of `j`: in that order, none missing, none twice, none refused.
   */
  lemma InOrderDelivery(names: seq<string>, steps: seq<Step>, a: string, j: nat) returns (iam: nat, bye: nat)
    requires j < |names| && Member(Exec(Init(names), steps).log, j) != Never
    ensures var s := Exec(Init(names), steps);
            && IsStay(names, s.log, j, iam, bye)
            && ReceivedThenQueued(s, a, j) == AllDue(Messages(a, names[j]), s.log[iam + 1..bye])
  {
    var s := Exec(Init(names), steps);
    LogReached(names, steps);
    iam, bye := StayOf(names, s.log, Messages(a, names[j]), j);
    ForwardedWhileIn(names, s.log, a, j);
    NothingLost(names, steps, a, j);
  }

  /** A client that never registered receives nothing. */
  lemma OutsidersReceiveNothing(names: seq<string>, steps: seq<Step>, a: string, j: nat)
    requires j < |names| && Member(Exec(Init(names), steps).log, j) == Never
    ensures var s := Exec(Init(names), steps);
            ReceivedThenQueued(s, a, j) == []
  {
    var s := Exec(Init(names), steps);
    LogReached(names, steps);
    NothingBeforeJoining(Messages(a, names[j]), j, s.log);
    ForwardedWhileIn(names, s.log, a, j);
    NothingLost(names, steps, a, j);
  }

  // ----- the messages of one connection

  /** Only connection `i` has ever registered as `a`. */
  ghost predicate OnlyHolder(log: seq<Event>, a: string, i: nat) {
    forall k, n :: Registered(k, n) in log && n == a ==> k == i
  }

  /** If nobody else has had the name, a message of that name comes from the connection itself. */
  lemma OwnMessage(names: seq<string>, log: seq<Event>, e: Event, i: nat, b: string)
    requires Justified(names, log, e) && i < |names|
    requires forall k :: User(names[i], k) in Live(log) ==> k == i
    ensures Due(Messages(names[i], b), e) == Due(MessagesOf(i, names[i], b), e)
  {
  }

  lemma HoldersAreKnown(log: seq<Event>, n: nat, a: string, i: nat)
    requires OnlyHolder(log, a, i) && n <= |log|
    ensures forall k :: User(a, k) in Live(log[..n]) ==> k == i
  {
    forall k | User(a, k) in Live(log[..n]) ensures k == i {
      LiveHasRegistered(log[..n], User(a, k));
      assert Registered(k, a) in log;
    }
  }

  lemma DueGrows(what: Interest, log: seq<Event>, m: nat, n: nat)
    requires m < n <= |log|
    ensures AllDue(what, log[m..n]) == AllDue(what, log[m..n - 1]) + Due(what, log[n - 1])
  {
    assert log[m..n] == log[m..n - 1] + [log[n - 1]];
    Snoc(log[m..n - 1], log[n - 1]);
  }

  lemma {:induction false} SameDue(names: seq<string>, log: seq<Event>, i: nat, b: string, m: nat, n: nat)
    requires LogOk(names, log) && i < |names| && OnlyHolder(log, names[i], i) && m <= n <= |log|
    ensures AllDue(Messages(names[i], b), log[m..n]) == AllDue(MessagesOf(i, names[i], b), log[m..n])
  {
    if m == n {
      assert log[m..n] == [];
    } else {
      SameDue(names, log, i, b, m, n - 1);
      DueGrows(Messages(names[i], b), log, m, n);
      DueGrows(MessagesOf(i, names[i], b), log, m, n);
      LogOkAt(names, log, n - 1);
      HoldersAreKnown(log, n - 1, names[i], i);
      OwnMessage(names, log[..n - 1], log[n - 1], i, b);
    }
  }

  /**
   For a connection `i` whose name nobody else has had: what `j` has received from it and what is queued
   is what the server has processed of the messages of that connection during the stay of `j`.
   */
  lemma OwnMessagesInOrder(names: seq<string>, steps: seq<Step>, i: nat, j: nat) returns (iam: nat, bye: nat)
    requires i < |names| && j < |names|
    requires Member(Exec(Init(names), steps).log, j) != Never
    requires OnlyHolder(Exec(Init(names), steps).log, names[i], i)
    ensures var s := Exec(Init(names), steps);
            && IsStay(names, s.log, j, iam, bye)
            && ReceivedThenQueued(s, names[i], j) == AllDue(MessagesOf(i, names[i], names[j]), s.log[iam + 1..bye])
  {
    iam, bye := InOrderDelivery(names, steps, names[i], j);
    LogReached(names, steps);
    SameDue(names, Exec(Init(names), steps).log, i, names[j], iam + 1, bye);
  }

  /** The messages of connection `i` to the name `b` are processed in the order in which `i` sent them. */
  lemma ProcessedInOrder(names: seq<string>, steps: seq<Step>, i: nat, b: string)
    requires i < |names|
    ensures var s := Exec(Init(names), steps);
            AllDue(MessagesOf(i, b, b), s.log) + Named(Waiting(ToFlow, s.clients[i]), b)
            == Named(Entered(ToFlow, i, s.log), b)
  {
    var s := Exec(Init(names), steps);
    FlowReached(names, steps, ToFlow, i);
    NamedConcat(Left(ToFlow, i, s.log), Waiting(ToFlow, s.clients[i]), b);
    DueIsProcessed(s.log, i, b);
  }

  lemma {:induction false} DueIsProcessed(log: seq<Event>, i: nat, b: string)
    ensures AllDue(MessagesOf(i, b, b), log) == Named(Left(ToFlow, i, log), b)
  {
    if log == [] {
    } else {
      DueIsProcessed(Front(log), i, b);
      NamedConcat(Left(ToFlow, i, Front(log)), Leaves(ToFlow, i, Last(log)), b);
      NamedShort(Leaves(ToFlow, i, Last(log)), b);
    }
  }

  /** Every message the server processes is forwarded or refused, and each refusal goes back to its sender. */
  lemma RefusalsReturn(names: seq<string>, steps: seq<Step>, i: nat)
    requires i < |names|
    ensures var s := Exec(Init(names), steps);
            Left(EdneFlow, i, s.log) + Waiting(EdneFlow, s.clients[i]) == Entered(EdneFlow, i, s.log)
            && |Left(ToFlow, i, s.log)| == ForwardedFrom(s.log, i) + |Entered(EdneFlow, i, s.log)|
  {
    FlowReached(names, steps, EdneFlow, i);
    ProcessedSplit(Exec(Init(names), steps).log, i);
  }

  /** How many messages of connection `i` were forwarded. */
  function ForwardedFrom(log: seq<Event>, i: nat): nat {
    if log == [] then 0
    else ForwardedFrom(Front(log), i) + (if Last(log).Routed? && Last(log).i == i then 1 else 0)
  }

  lemma {:induction false} ProcessedSplit(log: seq<Event>, i: nat)
    ensures |Left(ToFlow, i, log)| == ForwardedFrom(log, i) + |Entered(EdneFlow, i, log)|
  {
    if log == [] {
    } else {
      ProcessedSplit(Front(log), i);
    }
  }
}
