/**
 What the log says. Every event agrees with the registry as the events before it left it, and the
 partner lists are the names met so far, in the order of first contact.
 */
module History {
  import opened Basics
  import opened Messages
  import opened Registry
  import opened ChatSystem
  import opened Flows
  import opened Invariant

  /** The registry that the events of `log` leave. */
  function Live(log: seq<Event>): seq<User> {
    if log == [] then []
    else
      match Last(log)
      case Registered(i, n) => Live(Front(log)) + [User(n, i)]
      case LoggedOut(i, _) => Without(Live(Front(log)), i)
      case _ => Live(Front(log))
  }

  /** The partners that client `k` has met, in the order of first contact. */
  function Contacts(log: seq<Event>, k: nat): seq<string> {
    if log == [] then []
    else
      match Last(log)
      case Sent(i, b, _) => if i == k then Meet(Contacts(Front(log), k), b) else Contacts(Front(log), k)
      case Delivered(j, _, a, _, _) => if j == k then Meet(Contacts(Front(log), k), a) else Contacts(Front(log), k)
      case _ => Contacts(Front(log), k)
  }

  /** Event `e` is justified by the registry that the events before it leave. */
  ghost predicate Justified(names: seq<string>, log: seq<Event>, e: Event) {
    var users := Live(log);
    match e
    case Sent(i, _, _) => i < |names|
    case Delivered(j, b, _, _, _) => j < |names| && b == names[j]
    case Registered(i, n) => i < |names| && n == names[i] && !HasName(users, n) && Member(log, i) == Never
    case Routed(i, a, j, b, _) =>
      && i < |names| && j < |names| && a == names[i] && b == names[j]
      && User(a, i) in users && User(b, j) in users
    case Refused(i, a, b, _) =>
      i < |names| && a == names[i] && User(a, i) in users && !HasName(users, b)
    case Confirmed(j, b, a, heard) =>
      && j < |names| && b == names[j] && User(b, j) in users
      && (match heard
          case None => !HasName(users, a)
          case Some(i) => i < |names| && a == names[i] && User(a, i) in users)
    case LoggedOut(i, n) => i < |names| && n == names[i] && Member(log, i) == Now
    case _ => true
  }

  /** The registry that `log` leaves has each member once, under its own name, and nobody else. */
  ghost predicate Sound(names: seq<string>, log: seq<Event>) {
    && NamesDistinct(Live(log)) && ConnsDistinct(Live(log))
    && (forall u :: u in Live(log) ==> u.conn < |names| && u.name == names[u.conn])
    && (forall k :: 0 <= k < |names| ==> (Member(log, k) == Now <==> User(names[k], k) in Live(log)))
  }

  ghost predicate LogOk(names: seq<string>, log: seq<Event>) {
    && Sound(names, log)
    && (log == [] || (LogOk(names, Front(log)) && Justified(names, Front(log), Last(log))))
  }

  function NamesIn(clients: seq<Client>): (r: seq<string>)
    ensures |r| == |clients|
    ensures forall k :: 0 <= k < |r| ==> r[k] == clients[k].name
  {
    seq(|clients|, k requires 0 <= k < |clients| => clients[k].name)
  }

  /** A failed client has read the confirmation of a message to someone it has never met. */
  ghost predicate FailureExplained(c: Client, log: seq<Event>, k: nat) {
    c.login == Failed ==> exists b :: OtRead(k, b) in log && b !in c.partners
  }

  ghost predicate HistoryOk(s: System, names: seq<string>) {
    && NamesIn(s.clients) == names
    && s.users == Live(s.log)
    && LogOk(names, s.log)
    && (forall k :: 0 <= k < |s.clients| ==> s.clients[k].partners == Contacts(s.log, k))
    && (forall k :: 0 <= k < |s.clients| ==> FailureExplained(s.clients[k], s.log, k))
  }

  function LiveAfter(users: seq<User>, e: Event): seq<User> {
    match e
    case Registered(i, n) => users + [User(n, i)]
    case LoggedOut(i, _) => Without(users, i)
    case _ => users
  }

  function ContactsAfter(met: seq<string>, e: Event, k: nat): seq<string> {
    match e
    case Sent(i, b, _) => if i == k then Meet(met, b) else met
    case Delivered(j, _, a, _, _) => if j == k then Meet(met, a) else met
    case _ => met
  }

  lemma LogGrows(log: seq<Event>, es: seq<Event>, k: nat)
    requires |es| <= 1
    ensures Live(log + es) == if es == [] then Live(log) else LiveAfter(Live(log), es[0])
    ensures Contacts(log + es, k) == if es == [] then Contacts(log, k) else ContactsAfter(Contacts(log, k), es[0], k)
  {
    if es == [] {
      assert log + es == log;
    } else {
      assert es == [es[0]];
      Snoc(log, es[0]);
    }
  }

  lemma UsersFollowLog(s: System, st: Step)
    requires Inv(s) && Enabled(s, st) && s.users == Live(s.log)
    ensures Next(s, st).users == Live(Next(s, st).log)
  {
    LogGrows(s.log, Events(s, st), 0);
    if st.Serve? {
      HandledUsers(s, st.i);
    }
  }

  lemma HandledUsers(s: System, i: nat)
    requires Inv(s) && Enabled(s, Serve(i))
    ensures var es := Events(s, Serve(i));
            Handle(s.users, i, s.clients[i].outbox[0]).users
            == if es == [] then s.users else LiveAfter(s.users, es[0])
  {
    HeadIsServable(s, i);
    UsersByEvent(s.users, i, s.clients[i].name, s.clients[i].outbox[0]);
  }

  /** What a served frame does to the registry is what its event says. */
  lemma UsersByEvent(users: seq<User>, i: nat, own: string, m: Msg)
    requires Servable(users, i, own, m)
    ensures var es := ServeEvent(users, i, m);
            Handle(users, i, m).users == if es == [] then users else LiveAfter(users, es[0])
  {
    if m.Iam? {
    } else if m == Bye {
      assert ServeEvent(users, i, m) == [LoggedOut(i, own)];
    } else {
      assert Handle(users, i, m).users == users;
    }
  }

  lemma EventJustified(s: System, names: seq<string>, st: Step)
    requires Inv(s) && Enabled(s, st) && NamesIn(s.clients) == names && s.users == Live(s.log)
    requires Events(s, st) != []
    ensures Justified(names, s.log, Events(s, st)[0])
  {
    assert Phase(s.clients[st.i], Member(s.log, st.i));
    assert s.clients[st.i].name == names[st.i];
    if st.Serve? {
      HeadIsServable(s, st.i);
      var m := s.clients[st.i].outbox[0];
      if (m.To? || m.Morf?) && HolderOf(s.users, m.name).Some? {
        HolderIsMember(s, m.name);
        var j := HolderOf(s.users, m.name).value;
        assert s.clients[j].name == names[j];
      }
    }
  }

  lemma PartnersFollowLog(s: System, st: Step, k: nat)
    requires Inv(s) && Enabled(s, st) && k < |s.clients| && s.clients[k].partners == Contacts(s.log, k)
    ensures Next(s, st).clients[k].partners == Contacts(Next(s, st).log, k)
  {
    NextClient(s, st, k);
    LogGrows(s.log, Events(s, st), k);
    if st.Receive? {
      ReaderMeets(s.clients[st.i], st.i, Member(s.log, st.i), k, Contacts(s.log, k));
    } else if st.Serve? {
      ServerMeetsNobody(s.users, st.i, s.clients[st.i].outbox[0], k, Contacts(s.log, k));
    }
  }

  lemma ReaderMeets(c: Client, i: nat, p: Membership, k: nat, met: seq<string>)
    requires Phase(c, p) && c.inbox != [] && c.login in {Hello, Naming, Approved, Chatting, Leaving}
    requires k == i ==> met == c.partners
    ensures var es := ReadEvent(c, i, c.inbox[0]);
            (if es == [] then met else ContactsAfter(met, es[0], k))
            == if k == i then Moved(c, Receive(i)).partners else met
  {
  }

  lemma ServerMeetsNobody(users: seq<User>, i: nat, m: Msg, k: nat, met: seq<string>)
    ensures var es := ServeEvent(users, i, m); es != [] ==> ContactsAfter(met, es[0], k) == met
  {
  }

  lemma FailureStep(s: System, st: Step, k: nat)
    requires Inv(s) && Enabled(s, st) && k < |s.clients| && FailureExplained(s.clients[k], s.log, k)
    ensures FailureExplained(Next(s, st).clients[k], Next(s, st).log, k)
  {
    var c, es := s.clients[k], Events(s, st);
    var t := Next(s, st);
    if st == Receive(k) {
      assert Phase(c, Member(s.log, k));
      if t.clients[k].login == Failed {
        assert c.inbox[0].Ot? && c.inbox[0].name !in c.partners;
        assert t.log[|s.log|] == OtRead(k, c.inbox[0].name);
      }
    } else {
      assert t.clients[k].login == Failed ==> c.login == Failed && t.clients[k].partners == c.partners;
      if t.clients[k].login == Failed {
        var b :| OtRead(k, b) in s.log && b !in c.partners;
        assert OtRead(k, b) in t.log;
      }
    }
  }

  lemma LogIsSound(s: System, names: seq<string>)
    requires RegistryOk(s) && NamesIn(s.clients) == names && s.users == Live(s.log)
    ensures Sound(names, s.log)
  {
    forall k | 0 <= k < |names| ensures Member(s.log, k) == Now <==> User(names[k], k) in s.users {
      assert s.clients[k].name == names[k];
      assert User(names[k], k) in s.users ==> HasConn(s.users, k);
      if Member(s.log, k) == Now {
        NameIsKnown(s, k);
      }
    }
  }

  lemma LogStep(s: System, names: seq<string>, st: Step)
    requires Inv(s) && NamesIn(s.clients) == names && s.users == Live(s.log) && LogOk(names, s.log)
    requires Enabled(s, st) && Sound(names, Next(s, st).log)
    ensures LogOk(names, Next(s, st).log)
  {
    var es := Events(s, st);
    if es == [] {
      assert s.log + es == s.log;
    } else {
      EventJustified(s, names, st);
      assert es == [es[0]];
      Snoc(s.log, es[0]);
    }
  }

  lemma HistoryStep(s: System, names: seq<string>, st: Step)
    requires Inv(s) && HistoryOk(s, names)
    ensures HistoryOk(Next(s, st), names)
  {
    if Enabled(s, st) {
      var t := Next(s, st);
      forall k | 0 <= k < |s.clients|
        ensures t.clients[k].name == s.clients[k].name
        ensures t.clients[k].partners == Contacts(t.log, k) && FailureExplained(t.clients[k], t.log, k)
      {
        Channels(s, st, k);
        PartnersFollowLog(s, st, k);
        FailureStep(s, st, k);
      }
      assert NamesIn(t.clients) == NamesIn(s.clients);
      UsersFollowLog(s, st);
      InvStep(s, st);
      LogIsSound(t, names);
      LogStep(s, names, st);
    }
  }

  /** Everything known of the state after a run. */
  lemma {:induction false} Reached(names: seq<string>, steps: seq<Step>) returns (s: System)
    ensures s == Exec(Init(names), steps) && |s.clients| == |names|
    ensures Inv(s) && HistoryOk(s, names)
  {
    s := Exec(Init(names), steps);
    InvRun(names, steps);
    if steps == [] {
      assert NamesIn(s.clients) == names;
    } else {
      var r := Reached(names, Front(steps));
      HistoryStep(r, names, Last(steps));
    }
  }

  /** The part of it that is about the log. */
  lemma LogReached(names: seq<string>, steps: seq<Step>)
    ensures LogOk(names, Exec(Init(names), steps).log)
  {
    var s := Reached(names, steps);
  }

  /** The part of it that is about flow `f` at connection `k`. */
  lemma FlowReached(names: seq<string>, steps: seq<Step>, f: Flow, k: nat)
    requires k < |names|
    ensures Conserved(Exec(Init(names), steps), f, k)
  {
    var s := Reached(names, steps);
  }

  lemma {:induction false} LogOkAt(names: seq<string>, log: seq<Event>, p: nat)
    requires LogOk(names, log) && p < |log|
    ensures LogOk(names, log[..p]) && Justified(names, log[..p], log[p])
  {
    if p == |log| - 1 {
    } else {
      LogOkAt(names, Front(log), p);
      assert Front(log)[..p] == log[..p];
    }
  }

  /** What event number `p` of a run records is justified by the events before it. */
  lemma EventHolds(names: seq<string>, steps: seq<Step>, p: nat)
    requires p < |Exec(Init(names), steps).log|
    ensures var log := Exec(Init(names), steps).log;
            Justified(names, log[..p], log[p]) && NamesDistinct(Live(log[..p])) && ConnsDistinct(Live(log[..p]))
  {
    var s := Reached(names, steps);
    LogOkAt(names, s.log, p);
  }

  /** Whoever is in the registry has registered. */
  lemma {:induction false} LiveHasRegistered(log: seq<Event>, u: User)
    requires u in Live(log)
    ensures Registered(u.conn, u.name) in log
  {
    if log == [] {
    } else {
      var e := Last(log);
      if e == Registered(u.conn, u.name) {
        assert log[|log| - 1] == e;
      } else {
        assert u in Live(Front(log));
        LiveHasRegistered(Front(log), u);
      }
    }
  }
}
