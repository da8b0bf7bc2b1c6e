/** Messages, deliveries, replies and confirmations, counted for each pair of names. */
module Accounting {
  import opened Basics
  import opened Messages
  import opened Registry
  import opened ChatSystem
  import opened Flows
  import opened Invariant
  import opened History
  import opened Causality

  datatype Kind =
    | Typing        // TO b, typed by a client called a
    | Processed     // of these, processed by the server
    | Refusal       // of these, answered with EDNE
    | Forwarding    // of these, forwarded as FROM a
    | Delivery      // FROM a, read by b
    | Response      // of these, answered with MORF a
    | Confirmation  // MORF a of b, processed by the server
    | Notice        // of these, passed on to a as OT b
    | Reading       // OT b, read by a client called a

  /** Whether `e` is of this kind, for messages from `a` to `b`. */
  predicate Is(kind: Kind, names: seq<string>, a: string, b: string, e: Event) {
    match kind
    case Typing => e.Sent? && e.i < |names| && names[e.i] == a && e.b == b
    case Processed => (e.Routed? || e.Refused?) && e.a == a && e.b == b
    case Refusal => e.Refused? && e.a == a && e.b == b
    case Forwarding => e.Routed? && e.a == a && e.b == b
    case Delivery => e.Delivered? && e.a == a && e.b == b
    case Response => e.Delivered? && e.a == a && e.b == b && e.answered
    case Confirmation => e.Confirmed? && e.a == a && e.b == b
    case Notice => e.Confirmed? && e.a == a && e.b == b && e.heard.Some?
    case Reading => e.OtRead? && e.i < |names| && names[e.i] == a && e.b == b
  }

  function Tally(kind: Kind, names: seq<string>, a: string, b: string, log: seq<Event>): nat {
    if log == [] then 0
    else Tally(kind, names, a, b, Front(log)) + (if Is(kind, names, a, b, Last(log)) then 1 else 0)
  }

  function Count(items: seq<Item>, a: string): nat {
    if items == [] then 0 else Count(Front(items), a) + (if Last(items).name == a then 1 else 0)
  }

  lemma {:induction false} CountConcat(p: seq<Item>, q: seq<Item>, a: string)
    ensures Count(p + q, a) == Count(p, a) + Count(q, a)
  {
    if q == [] {
      assert p + q == p;
    } else {
      assert Front(p + q) == p + Front(q) && Last(p + q) == Last(q);
      CountConcat(p, Front(q), a);
    }
  }

  /** The items with name `x` that wait in flow `f` for those of the first `n` clients that are called `home`. */
  function Backlog(f: Flow, x: string, home: string, clients: seq<Client>, n: nat): nat
    requires n <= |clients|
  {
    if n == 0 then 0
    else
      Backlog(f, x, home, clients, n - 1)
      + (if clients[n - 1].name == home then Count(Waiting(f, clients[n - 1]), x) else 0)
  }

  /** The history of one end of flow `f` at connection `k`. */
  function End(f: Flow, k: nat, log: seq<Event>, entering: bool): seq<Item> {
    if entering then Entered(f, k, log) else Left(f, k, log)
  }

  /** The flows that a message and its confirmation go through. */
  predicate OfMessages(f: Flow) {
    f == ToFlow || f == FromFlow || f == MorfFlow || f == OtFlow
  }

  /** The kind of event at one end of such a flow. */
  function KindOf(f: Flow, entering: bool): Kind
    requires OfMessages(f)
  {
    match f
    case ToFlow => if entering then Typing else Processed
    case FromFlow => if entering then Forwarding else Delivery
    case MorfFlow => if entering then Response else Confirmation
    case OtFlow => if entering then Notice else Reading
  }

  /** The connection that such an event is about. */
  function At(kind: Kind, e: Event): nat {
    match kind
    case Typing => if e.Sent? then e.i else 0
    case Processed => if e.Routed? || e.Refused? then e.i else 0
    case Notice => if e.Confirmed? && e.heard.Some? then e.heard.value else 0
    case Reading => if e.OtRead? then e.i else 0
    case _ => if e.Routed? || e.Delivered? || e.Confirmed? then e.j else 0
  }

  /** The name of the clients at the end of the flow: the sender for TO and OT, the recipient for FROM and MORF. */
  function Home(f: Flow, a: string, b: string): string {
    if f == ToFlow || f == OtFlow then a else b
  }

  /** The name that the frames carry. */
  function Carried(f: Flow, a: string, b: string): string {
    if f == ToFlow || f == OtFlow then b else a
  }

  /** One end of flow `f` for the name `x`, summed over those of the first `n` connections that are called `home`. */
  function Total(f: Flow, x: string, home: string, names: seq<string>, log: seq<Event>, entering: bool, n: nat): nat
    requires n <= |names|
  {
    if n == 0 then 0
    else
      Total(f, x, home, names, log, entering, n - 1)
      + (if names[n - 1] == home then Count(End(f, n - 1, log, entering), x) else 0)
  }

  /** The item that event `e` adds at one end of flow `f` at connection `k`. */
  function New(f: Flow, k: nat, log: seq<Event>, e: Event, entering: bool): seq<Item> {
    if entering then Enters(f, k, log, e) else Leaves(f, k, e)
  }

  lemma EndGrows(f: Flow, k: nat, log: seq<Event>, entering: bool, a: string)
    requires log != []
    ensures Count(End(f, k, log, entering), a)
            == Count(End(f, k, Front(log), entering), a) + Count(New(f, k, Front(log), Last(log), entering), a)
  {
    CountConcat(End(f, k, Front(log), entering), New(f, k, Front(log), Last(log), entering), a);
  }

  /** An event of the right kind adds one item, at the connection that it is about; no other event adds any. */
  lemma NewItem(names: seq<string>, log: seq<Event>, e: Event, f: Flow, k: nat, entering: bool, a: string, b: string)
    requires OfMessages(f)
    requires Justified(names, log, e) && k < |names| && names[k] == Home(f, a, b)
    ensures Count(New(f, k, log, e, entering), Carried(f, a, b))
            == if Is(KindOf(f, entering), names, a, b, e) && At(KindOf(f, entering), e) == k then 1 else 0
  {
    var x := New(f, k, log, e, entering);
    if x != [] {
      assert Front(x) == [];
    }
  }

  lemma {:induction false} TotalGrows(names: seq<string>, log: seq<Event>, f: Flow, entering: bool,
                                      a: string, b: string, n: nat)
    requires OfMessages(f)
    requires log != [] && Justified(names, Front(log), Last(log)) && n <= |names|
    ensures var x, home, kind := Carried(f, a, b), Home(f, a, b), KindOf(f, entering);
            Total(f, x, home, names, log, entering, n)
            == Total(f, x, home, names, Front(log), entering, n)
               + (if Is(kind, names, a, b, Last(log)) && At(kind, Last(log)) < n then 1 else 0)
  {
    if n == 0 {
    } else {
      TotalGrows(names, log, f, entering, a, b, n - 1);
      if names[n - 1] == Home(f, a, b) {
        EndGrows(f, n - 1, log, entering, Carried(f, a, b));
        NewItem(names, Front(log), Last(log), f, n - 1, entering, a, b);
      } else if Is(KindOf(f, entering), names, a, b, Last(log)) {
        NamedByIndex(names, Front(log), Last(log), f, entering, a, b);
      }
    }
  }

  lemma NamedByIndex(names: seq<string>, log: seq<Event>, e: Event, f: Flow, entering: bool, a: string, b: string)
    requires OfMessages(f) && Justified(names, log, e) && Is(KindOf(f, entering), names, a, b, e)
    ensures var k := At(KindOf(f, entering), e); k < |names| && names[k] == Home(f, a, b)
  {
  }

  lemma {:induction false} TallyIsTotal(names: seq<string>, log: seq<Event>, f: Flow, entering: bool,
                                        a: string, b: string)
    requires OfMessages(f) && LogOk(names, log)
    ensures Tally(KindOf(f, entering), names, a, b, log)
            == Total(f, Carried(f, a, b), Home(f, a, b), names, log, entering, |names|)
  {
    if log == [] {
      TotalOfNothing(names, f, entering, Carried(f, a, b), Home(f, a, b), |names|);
    } else {
      TallyIsTotal(names, Front(log), f, entering, a, b);
      TotalGrows(names, log, f, entering, a, b, |names|);
      if Is(KindOf(f, entering), names, a, b, Last(log)) {
        NamedByIndex(names, Front(log), Last(log), f, entering, a, b);
      }
    }
  }

  lemma {:induction false} TotalOfNothing(names: seq<string>, f: Flow, entering: bool,
                                          x: string, home: string, n: nat)
    requires n <= |names|
    ensures Total(f, x, home, names, [], entering, n) == 0
  {
    if n == 0 {
    } else {
      TotalOfNothing(names, f, entering, x, home, n - 1);
    }
  }

  ghost predicate Balanced(s: System, f: Flow, k: nat, a: string)
    requires k < |s.clients|
  {
    Count(End(f, k, s.log, true), a) == Count(End(f, k, s.log, false), a) + Count(Waiting(f, s.clients[k]), a)
  }

  lemma AllBalanced(s: System, f: Flow, a: string)
    requires Inv(s)
    ensures forall k :: 0 <= k < |s.clients| ==> Balanced(s, f, k, a)
  {
    forall k | 0 <= k < |s.clients| ensures Balanced(s, f, k, a) {
      assert Conserved(s, f, k);
      CountConcat(Left(f, k, s.log), Waiting(f, s.clients[k]), a);
    }
  }

  lemma {:induction false} TotalsBalance(s: System, names: seq<string>, f: Flow, x: string, home: string, n: nat)
    requires NamesIn(s.clients) == names && n <= |names|
    requires forall k :: 0 <= k < |s.clients| ==> Balanced(s, f, k, x)
    ensures Total(f, x, home, names, s.log, true, n)
            == Total(f, x, home, names, s.log, false, n) + Backlog(f, x, home, s.clients, n)
  {
    if n == 0 {
    } else {
      TotalsBalance(s, names, f, x, home, n - 1);
      assert s.clients[n - 1].name == names[n - 1];
      assert Balanced(s, f, n - 1, x);
    }
  }

  lemma {:induction false} KindsNest(names: seq<string>, a: string, b: string, log: seq<Event>)
    ensures Tally(Processed, names, a, b, log) == Tally(Forwarding, names, a, b, log) + Tally(Refusal, names, a, b, log)
    ensures Tally(Notice, names, a, b, log) <= Tally(Confirmation, names, a, b, log)
    ensures Tally(Response, names, a, b, log) <= Tally(Delivery, names, a, b, log)
  {
    if log == [] {
    } else {
      KindsNest(names, a, b, Front(log));
    }
  }

  /** How often `kind` happens in a run, for messages from `a` to `b`. */
  function Times(kind: Kind, names: seq<string>, steps: seq<Step>, a: string, b: string): nat {
    Tally(kind, names, a, b, Exec(Init(names), steps).log)
  }

  /** How many frames of flow `f` wait in the channels after a run, for messages from `a` to `b`. */
  function InFlight(f: Flow, names: seq<string>, steps: seq<Step>, a: string, b: string): nat {
    Backlog(f, Carried(f, a, b), Home(f, a, b), Exec(Init(names), steps).clients, |names|)
  }

  /** In each of the four flows, what went in has come out or waits. */
  lemma FlowAccount(names: seq<string>, steps: seq<Step>, f: Flow, a: string, b: string)
    requires OfMessages(f)
    ensures Times(KindOf(f, true), names, steps, a, b)
            == Times(KindOf(f, false), names, steps, a, b) + InFlight(f, names, steps, a, b)
  {
    var s := Reached(names, steps);
    TallyIsTotal(names, s.log, f, true, a, b);
    TallyIsTotal(names, s.log, f, false, a, b);
    AllBalanced(s, f, Carried(f, a, b));
    TotalsBalance(s, names, f, Carried(f, a, b), Home(f, a, b), |names|);
  }

  /**
   For every pair of names, the accounts of messages from `a` to `b`, from the typed line to the
   confirmation read. What is not in a channel was refused, or not answered by a client that is leaving,
   or confirmed for somebody who has left.
   */
  lemma Accounts(names: seq<string>, steps: seq<Step>, a: string, b: string)
    ensures Times(Typing, names, steps, a, b)
            == Times(Processed, names, steps, a, b) + InFlight(ToFlow, names, steps, a, b)
    ensures Times(Processed, names, steps, a, b)
            == Times(Forwarding, names, steps, a, b) + Times(Refusal, names, steps, a, b)
    ensures Times(Forwarding, names, steps, a, b)
            == Times(Delivery, names, steps, a, b) + InFlight(FromFlow, names, steps, a, b)
    ensures Times(Response, names, steps, a, b)
            == Times(Confirmation, names, steps, a, b) + InFlight(MorfFlow, names, steps, a, b)
    ensures Times(Notice, names, steps, a, b)
            == Times(Reading, names, steps, a, b) + InFlight(OtFlow, names, steps, a, b)
  {
    KindsNest(names, a, b, Exec(Init(names), steps).log);
    FlowAccount(names, steps, ToFlow, a, b);
    FlowAccount(names, steps, FromFlow, a, b);
    FlowAccount(names, steps, MorfFlow, a, b);
    FlowAccount(names, steps, OtFlow, a, b);
  }

  /** OT read <= OT sent <= MORF processed <= FROM delivered <= TO processed <= TO typed, for each pair of names. */
  lemma AcknowledgementsNeverExceed(names: seq<string>, steps: seq<Step>, a: string, b: string)
    ensures Times(Reading, names, steps, a, b) <= Times(Notice, names, steps, a, b)
            <= Times(Confirmation, names, steps, a, b) <= Times(Delivery, names, steps, a, b)
            <= Times(Processed, names, steps, a, b) <= Times(Typing, names, steps, a, b)
  {
    Accounts(names, steps, a, b);
    KindsNest(names, a, b, Exec(Init(names), steps).log);
  }

  // ----- without logouts

  /** Nobody has left, or is leaving. */
  ghost predicate Staying(s: System) {
    && (forall k :: 0 <= k < |s.clients| ==>
          s.clients[k].login != Leaving && s.clients[k].login != Gone && Bye !in s.clients[k].outbox)
    && (forall e :: e in s.log ==> !e.LoggedOut? && (e.Delivered? ==> e.answered))
  }

  lemma StayingStep(s: System, st: Step)
    requires Inv(s) && Staying(s) && !st.Logout?
    ensures Staying(Next(s, st))
  {
    if Enabled(s, st) {
      var t := Next(s, st);
      forall k | 0 <= k < |s.clients|
        ensures t.clients[k].login != Leaving && t.clients[k].login != Gone && Bye !in t.clients[k].outbox
      {
        NextClient(s, st, k);
        if st == Receive(k) {
          StayingReader(s.clients[k], Member(s.log, k), k);
        }
      }
      if st.Serve? {
        assert s.clients[st.i].outbox[0] in s.clients[st.i].outbox;
      }
    }
  }

  lemma StayingReader(c: Client, m: Membership, k: nat)
    requires Phase(c, m) && c.inbox != [] && c.login in {Hello, Naming, Approved, Chatting}
    requires Bye !in c.outbox
    ensures var c' := Moved(c, Receive(k));
            c'.login != Leaving && c'.login != Gone && Bye !in c'.outbox
  {
  }

  lemma {:induction false} StayingRun(names: seq<string>, steps: seq<Step>)
    requires forall st :: st in steps ==> !st.Logout?
    ensures Staying(Exec(Init(names), steps))
  {
    if steps == [] {
    } else {
      assert Last(steps) in steps;
      StayingRun(names, Front(steps));
      var s := Reached(names, Front(steps));
      StayingStep(s, Last(steps));
    }
  }

  /** Whoever has registered is still in the registry, if nobody has logged out. */
  lemma {:induction false} RegisteredRemain(log: seq<Event>, u: User, n: nat)
    requires n <= |log| && u in Live(log[..n])
    requires forall e :: e in log ==> !e.LoggedOut?
    ensures u in Live(log)
  {
    if n < |log| {
      assert Front(log)[..n] == log[..n];
      RegisteredRemain(Front(log), u, n);
      assert Last(log) in log;
    } else {
      assert log[..n] == log;
    }
  }

  lemma {:induction false} TalliesAgree(names: seq<string>, a: string, b: string, log: seq<Event>)
    requires forall e :: e in log ==> (e.Delivered? ==> e.answered) && (e.Confirmed? ==> e.heard.Some?)
    ensures Tally(Notice, names, a, b, log) == Tally(Confirmation, names, a, b, log)
    ensures Tally(Response, names, a, b, log) == Tally(Delivery, names, a, b, log)
  {
    if log == [] {
    } else {
      assert Last(log) in log;
      TalliesAgree(names, a, b, Front(log));
    }
  }

  lemma EveryReplyIsHeard(names: seq<string>, steps: seq<Step>, p: nat)
    requires Staying(Exec(Init(names), steps))
    requires p < |Exec(Init(names), steps).log| && Exec(Init(names), steps).log[p].Confirmed?
    ensures Exec(Init(names), steps).log[p].heard.Some?
  {
    var log := Exec(Init(names), steps).log;
    var h := ConfirmationHasTrace(names, steps, p);
    EventHolds(names, steps, h.routed);
    EventHolds(names, steps, p);
    var u := User(log[p].a, h.i);
    assert log[..p][..h.routed] == log[..h.routed];
    RegisteredRemain(log[..p], u, h.routed);
    assert HasName(Live(log[..p]), u.name);
  }

  lemma AllAreHeard(names: seq<string>, steps: seq<Step>)
    requires Staying(Exec(Init(names), steps))
    ensures forall e :: e in Exec(Init(names), steps).log && e.Confirmed? ==> e.heard.Some?
  {
    var log := Exec(Init(names), steps).log;
    forall e | e in log && e.Confirmed? ensures e.heard.Some? {
      var p :| 0 <= p < |log| && log[p] == e;
      EveryReplyIsHeard(names, steps, p);
    }
  }

  /** With no logouts every delivery is answered, and every answer is passed on. */
  lemma AllAreAnswered(names: seq<string>, steps: seq<Step>, a: string, b: string)
    requires forall st :: st in steps ==> !st.Logout?
    ensures Times(Notice, names, steps, a, b) == Times(Confirmation, names, steps, a, b)
    ensures Times(Response, names, steps, a, b) == Times(Delivery, names, steps, a, b)
  {
    StayingRun(names, steps);
    AllAreHeard(names, steps);
    TalliesAgree(names, a, b, Exec(Init(names), steps).log);
  }

  /** With no logouts, a message that was typed was refused or confirmed to its sender, or is in exactly one channel. */
  lemma AccountsWithoutLogouts(names: seq<string>, steps: seq<Step>, a: string, b: string)
    requires forall st :: st in steps ==> !st.Logout?
    ensures Times(Notice, names, steps, a, b) == Times(Confirmation, names, steps, a, b)
    ensures Times(Delivery, names, steps, a, b)
            == Times(Confirmation, names, steps, a, b) + InFlight(MorfFlow, names, steps, a, b)
    ensures Times(Typing, names, steps, a, b)
            == Times(Refusal, names, steps, a, b) + Times(Reading, names, steps, a, b)
               + InFlight(ToFlow, names, steps, a, b) + InFlight(FromFlow, names, steps, a, b)
               + InFlight(MorfFlow, names, steps, a, b) + InFlight(OtFlow, names, steps, a, b)
  {
    Accounts(names, steps, a, b);
    AllAreAnswered(names, steps, a, b);
  }

  /** When no channel holds a frame, every message that was typed was refused, or its confirmation has been read. */
  lemma QuietIsSettled(names: seq<string>, steps: seq<Step>, a: string, b: string)
    requires forall st :: st in steps ==> !st.Logout?
    requires forall c :: c in Exec(Init(names), steps).clients ==> c.inbox == [] && c.outbox == []
    ensures Times(Typing, names, steps, a, b)
            == Times(Refusal, names, steps, a, b) + Times(Reading, names, steps, a, b)
  {
    AccountsWithoutLogouts(names, steps, a, b);
    NothingWaits(ToFlow, b, a, Exec(Init(names), steps).clients, |names|);
    NothingWaits(FromFlow, a, b, Exec(Init(names), steps).clients, |names|);
    NothingWaits(MorfFlow, a, b, Exec(Init(names), steps).clients, |names|);
    NothingWaits(OtFlow, b, a, Exec(Init(names), steps).clients, |names|);
  }

  lemma {:induction false} NothingWaits(f: Flow, x: string, home: string, clients: seq<Client>, n: nat)
    requires n <= |clients| && forall c :: c in clients ==> c.inbox == [] && c.outbox == []
    ensures Backlog(f, x, home, clients, n) == 0
  {
    if n == 0 {
    } else {
      NothingWaits(f, x, home, clients, n - 1);
      assert clients[n - 1] in clients;
    }
  }
}
