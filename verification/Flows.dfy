/**
 Conservation in the channels. Every frame that carries a name belongs to one of six flows; what
 has entered a flow at connection `k` is what has left it followed by what is waiting in the channel.
 */
module Flows {
  import opened Basics
  import opened Messages
  import opened Registry
  import opened ChatSystem

  datatype Item = Item(name: string, text: string)

  datatype Flow = ToFlow | FromFlow | MorfFlow | OtFlow | EdneFlow | UoffFlow

  /** Whether connection `k` has not been registered, is registered, or has logged out. */
  datatype Membership = Never | Now | Past

  function Member(log: seq<Event>, k: nat): Membership {
    if log == [] then Never
    else
      match Last(log)
      case Registered(i, _) => if i == k then Now else Member(Front(log), k)
      case LoggedOut(i, _) => if i == k then Past else Member(Front(log), k)
      case _ => Member(Front(log), k)
  }

  /** What event `e`, coming after `log`, puts into flow `f` at connection `k`. */
  function Enters(f: Flow, k: nat, log: seq<Event>, e: Event): seq<Item> {
    match f
    case ToFlow => if e.Sent? && e.i == k then [Item(e.b, e.text)] else []
    case FromFlow => if e.Routed? && e.j == k then [Item(e.a, e.text)] else []
    case MorfFlow => if e.Delivered? && e.j == k && e.answered then [Item(e.a, "")] else []
    case OtFlow => if e.Confirmed? && e.heard == Some(k) then [Item(e.b, "")] else []
    case EdneFlow => if e.Refused? && e.i == k then [Item(e.b, "")] else []
    case UoffFlow => if e.LoggedOut? && e.i != k && Member(log, k) == Now then [Item(e.n, "")] else []
  }

  /** What event `e` takes out of flow `f` at connection `k`. */
  function Leaves(f: Flow, k: nat, e: Event): seq<Item> {
    match f
    case ToFlow => if (e.Routed? || e.Refused?) && e.i == k then [Item(e.b, e.text)] else []
    case FromFlow => if e.Delivered? && e.j == k then [Item(e.a, e.text)] else []
    case MorfFlow => if e.Confirmed? && e.j == k then [Item(e.a, "")] else []
    case OtFlow => if e.OtRead? && e.i == k then [Item(e.b, "")] else []
    case EdneFlow => if e.EdneRead? && e.i == k then [Item(e.b, "")] else []
    case UoffFlow => if e.UoffRead? && e.i == k then [Item(e.n, "")] else []
  }

  /** The item of flow `f` that frame `m` carries. */
  function Of(f: Flow, m: Msg): seq<Item> {
    match f
    case ToFlow => if m.To? then [Item(m.name, m.text)] else []
    case FromFlow => if m.From? then [Item(m.name, m.text)] else []
    case MorfFlow => if m.Morf? then [Item(m.name, "")] else []
    case OtFlow => if m.Ot? then [Item(m.name, "")] else []
    case EdneFlow => if m.Edne? then [Item(m.name, "")] else []
    case UoffFlow => if m.Uoff? then [Item(m.name, "")] else []
  }

  function Entered(f: Flow, k: nat, log: seq<Event>): seq<Item> {
    if log == [] then [] else Entered(f, k, Front(log)) + Enters(f, k, Front(log), Last(log))
  }

  function Left(f: Flow, k: nat, log: seq<Event>): seq<Item> {
    if log == [] then [] else Left(f, k, Front(log)) + Leaves(f, k, Last(log))
  }

  function Items(f: Flow, q: seq<Msg>): seq<Item> {
    if q == [] then [] else Of(f, q[0]) + Items(f, q[1..])
  }

  function Channel(f: Flow, c: Client): seq<Msg> {
    if f == ToFlow || f == MorfFlow then c.outbox else c.inbox
  }

  function Waiting(f: Flow, c: Client): seq<Item> {
    Items(f, Channel(f, c))
  }

  // ----- histories grow at the end, queues at the end and shrink at the front

  lemma {:induction false} ItemsConcat(f: Flow, p: seq<Msg>, q: seq<Msg>)
    ensures Items(f, p + q) == Items(f, p) + Items(f, q)
  {
    if p == [] {
      assert p + q == q;
    } else {
      assert (p + q)[1..] == p[1..] + q;
      ItemsConcat(f, p[1..], q);
    }
  }

  function EnteredBy(f: Flow, k: nat, log: seq<Event>, es: seq<Event>): seq<Item> {
    if es == [] then [] else Enters(f, k, log, es[0])
  }

  function LeftBy(f: Flow, k: nat, es: seq<Event>): seq<Item> {
    if es == [] then [] else Leaves(f, k, es[0])
  }

  lemma HistoryGrows(f: Flow, k: nat, log: seq<Event>, es: seq<Event>)
    requires |es| <= 1
    ensures Entered(f, k, log + es) == Entered(f, k, log) + EnteredBy(f, k, log, es)
    ensures Left(f, k, log + es) == Left(f, k, log) + LeftBy(f, k, es)
  {
    if es == [] {
      assert log + es == log;
    } else {
      assert es == [es[0]];
      Snoc(log, es[0]);
    }
  }

  /** The frames that a step removes from, and adds to, the channels of client `k`. */
  function Popped(s: System, st: Step, k: nat, inward: bool): seq<Msg>
    requires Enabled(s, st) && k < |s.clients|
  {
    if inward && st == Receive(k) then [s.clients[k].inbox[0]]
    else if !inward && st == Serve(k) then [s.clients[k].outbox[0]]
    else []
  }

  function Pushed(s: System, st: Step, k: nat, inward: bool): seq<Msg>
    requires Enabled(s, st) && k < |s.clients|
  {
    if inward then
      if st.Serve? then Addressed(Handle(s.users, st.i, s.clients[st.i].outbox[0]).sends, k) else []
    else if st.i != k then []
    else
      match st
      case Connect(_) => [Me2u]
      case Receive(_) => React(s.clients[k], s.clients[k].inbox[0]).replies
      case Chat(_, b, text) => [To(b, text)]
      case List(_) => [Listu]
      case Logout(_) => [Bye]
      case Serve(_) => []
  }

  /** Client `k` after a step. */
  lemma NextClient(s: System, st: Step, k: nat)
    requires Enabled(s, st) && k < |s.clients|
    ensures var c := s.clients[k];
            Next(s, st).clients[k]
            == if st.Serve? then
                 var arrived := c.(inbox := c.inbox + Pushed(s, st, k, true));
                 if k == st.i then
                   arrived.(outbox := c.outbox[1..], thread := Handle(s.users, k, c.outbox[0]).thread)
                 else arrived
               else if k == st.i then Moved(c, st)
               else c
  {
  }

  lemma Channels(s: System, st: Step, k: nat)
    requires Enabled(s, st) && k < |s.clients|
    ensures s.clients[k].inbox + Pushed(s, st, k, true)
            == Popped(s, st, k, true) + Next(s, st).clients[k].inbox
    ensures s.clients[k].outbox + Pushed(s, st, k, false)
            == Popped(s, st, k, false) + Next(s, st).clients[k].outbox
    ensures Next(s, st).clients[k].name == s.clients[k].name
  {
    NextClient(s, st, k);
  }

  ghost predicate Conserved(s: System, f: Flow, k: nat)
    requires k < |s.clients|
  {
    Entered(f, k, s.log) == Left(f, k, s.log) + Waiting(f, s.clients[k])
  }

  function Inward(f: Flow): bool { !(f == ToFlow || f == MorfFlow) }

  lemma WaitingStep(s: System, st: Step, f: Flow, k: nat)
    requires Enabled(s, st) && k < |s.clients|
    ensures Waiting(f, s.clients[k]) + Items(f, Pushed(s, st, k, Inward(f)))
            == Items(f, Popped(s, st, k, Inward(f))) + Waiting(f, Next(s, st).clients[k])
  {
    Channels(s, st, k);
    ItemsConcat(f, Channel(f, s.clients[k]), Pushed(s, st, k, Inward(f)));
    ItemsConcat(f, Popped(s, st, k, Inward(f)), Channel(f, Next(s, st).clients[k]));
  }

  lemma Splice<T>(all: seq<T>, gone: seq<T>, w: seq<T>, w': seq<T>, x: seq<T>, y: seq<T>)
    requires all == gone + w && w + x == y + w'
    ensures all + x == gone + y + w'
  {
    assert all + x == gone + (w + x);
    assert gone + y + w' == gone + (y + w');
  }

  /** A step keeps a flow if its event says what it does to the channel. */
  lemma ConservedStep(s: System, st: Step, f: Flow, k: nat)
    requires Enabled(s, st) && k < |s.clients| && Conserved(s, f, k)
    requires Items(f, Pushed(s, st, k, Inward(f))) == EnteredBy(f, k, s.log, Events(s, st))
    requires Items(f, Popped(s, st, k, Inward(f))) == LeftBy(f, k, Events(s, st))
    ensures Conserved(Next(s, st), f, k)
  {
    HistoryGrows(f, k, s.log, Events(s, st));
    WaitingStep(s, st, f, k);
    Splice(Entered(f, k, s.log), Left(f, k, s.log), Waiting(f, s.clients[k]), Waiting(f, Next(s, st).clients[k]),
           EnteredBy(f, k, s.log, Events(s, st)), LeftBy(f, k, Events(s, st)));
  }
}
