/** What every step keeps: the phase of each connection, the registry and the six flows. */
module Invariant {
  import opened Basics
  import opened Messages
  import opened Registry
  import opened ChatSystem
  import opened Flows

  /** Frames the server may send once a login is complete, before the logout is acknowledged. */
  predicate InChat(m: Msg) {
    m.Utsil? || m.From? || m.Ot? || m.Edne? || m.Uoff?
  }

  predicate AllInChat(q: seq<Msg>) {
    forall k :: 0 <= k < |q| ==> InChat(q[k])
  }

  /** Frames a client sends while chatting. */
  predicate AllOutChat(q: seq<Msg>) {
    forall k :: 0 <= k < |q| ==> q[k].Listu? || q[k].To? || q[k].Morf?
  }

  predicate ChatThenBye(q: seq<Msg>) {
    q != [] && Last(q) == Bye && AllOutChat(Front(q))
  }

  /** How far a connection has come: its login state, its channels, its thread and its membership agree. */
  predicate Phase(c: Client, m: Membership) {
    match c.login
    case Start => m == Never && c.thread == Serving && c.inbox == [] && c.outbox == []
    case Hello =>
      && m == Never && c.thread == Serving
      && ((c.outbox == [Me2u] && c.inbox == []) || (c.outbox == [] && c.inbox == [U2em]))
    case Naming =>
      || (m == Never && c.thread == Serving && c.outbox == [Iam(c.name)] && c.inbox == [])
      || (m == Never && c.thread == Ended && c.outbox == [] && c.inbox == [Etaken])
      || (m == Now && c.thread == Serving && c.outbox == []
          && |c.inbox| >= 2 && c.inbox[0] == Mai && c.inbox[1].Motd? && AllInChat(c.inbox[2..]))
    case Approved =>
      && m == Now && c.thread == Serving && c.outbox == []
      && |c.inbox| >= 1 && c.inbox[0].Motd? && AllInChat(c.inbox[1..])
    case Chatting => m == Now && c.thread == Serving && AllOutChat(c.outbox) && AllInChat(c.inbox)
    case Leaving =>
      || (m == Now && c.thread == Serving && ChatThenBye(c.outbox) && AllInChat(c.inbox))
      || (m == Past && c.thread == Ended && c.outbox == []
          && c.inbox != [] && Last(c.inbox) == Eyb && AllInChat(Front(c.inbox)))
    case Gone => m == Past && c.thread == Ended && c.outbox == [] && c.inbox == []
    case Rejected => m == Never && c.thread == Ended && c.outbox == [] && c.inbox == []
    case Failed =>
      || (m == Now && c.thread == Serving && (AllOutChat(c.outbox) || ChatThenBye(c.outbox)))
      || (m == Past && c.thread == Ended && c.outbox == [])
  }

  ghost predicate RegistryOk(s: System) {
    && NamesDistinct(s.users) && ConnsDistinct(s.users)
    && (forall u :: u in s.users ==> u.conn < |s.clients| && s.clients[u.conn].name == u.name)
    && (forall k :: 0 <= k < |s.clients| ==> (HasConn(s.users, k) <==> Member(s.log, k) == Now))
  }

  ghost predicate PhasesOk(s: System) {
    forall k :: 0 <= k < |s.clients| ==> Phase(s.clients[k], Member(s.log, k))
  }

  ghost predicate FlowsOk(s: System) {
    forall f: Flow, k :: 0 <= k < |s.clients| ==> Conserved(s, f, k)
  }

  ghost predicate Inv(s: System) {
    RegistryOk(s) && PhasesOk(s) && FlowsOk(s)
  }

  // ----- the registry in a good state

  lemma NameIsKnown(s: System, k: nat)
    requires RegistryOk(s) && k < |s.clients| && Member(s.log, k) == Now
    ensures NameOf(s.users, k) == Some(s.clients[k].name)
    ensures HolderOf(s.users, s.clients[k].name) == Some(k)
  {
    var n := NameOf(s.users, k).value;
    assert User(n, k) in s.users;
    ScansAgree(s.users, User(n, k));
  }

  lemma HolderIsMember(s: System, name: string)
    requires RegistryOk(s) && HolderOf(s.users, name).Some?
    ensures var j := HolderOf(s.users, name).value;
            j < |s.clients| && s.clients[j].name == name && Member(s.log, j) == Now
  {
    var j := HolderOf(s.users, name).value;
    assert User(name, j) in s.users;
    assert HasConn(s.users, j);
  }

  function MemberAfter(m: Membership, es: seq<Event>, k: nat): Membership {
    if es == [] then m
    else if es[0].Registered? && es[0].i == k then Now
    else if es[0].LoggedOut? && es[0].i == k then Past
    else m
  }

  lemma MemberStep(s: System, st: Step, k: nat)
    requires Enabled(s, st)
    ensures Member(Next(s, st).log, k) == MemberAfter(Member(s.log, k), Events(s, st), k)
  {
    var es := Events(s, st);
    if es == [] {
      assert s.log + es == s.log;
    } else {
      assert es == [es[0]];
      Snoc(s.log, es[0]);
    }
  }

  // ----- what the server answers

  lemma AddressedOne(x: Send, k: nat)
    ensures Addressed([x], k) == if x.conn == k then [x.msg] else []
  {
    assert [x][1..] == [];
  }

  lemma AddressedTwo(x: Send, y: Send, k: nat)
    requires x.conn == y.conn
    ensures Addressed([x, y], k) == if x.conn == k then [x.msg, y.msg] else []
  {
    assert [x, y][1..] == [y];
    AddressedOne(y, k);
  }

  /** What the answer to frame `m` of connection `i`, called `own`, puts on the channel to `k`. */
  ghost function Answer(users: seq<User>, i: nat, own: string, m: Msg, k: nat): seq<Msg> {
    match m
    case Me2u => if k == i then [U2em] else []
    case Iam(n) =>
      if k != i then [] else if HolderOf(users, n).Some? then [Etaken] else [Mai, Motd(GREETING)]
    case Listu => if k == i then [Utsil(Names(users))] else []
    case To(b, text) =>
      (match HolderOf(users, b)
       case None => if k == i then [Edne(b)] else []
       case Some(j) => if k == j then [From(own, text)] else [])
    case Morf(a) => if HolderOf(users, a) == Some(k) then [Ot(own)] else []
    case Bye => if k == i then [Eyb] else if HasConn(users, k) then [Uoff(own)] else []
    case _ => []
  }

  /** Frames that only a registered client sends. */
  predicate NeedsLogin(m: Msg) {
    m.Listu? || m.To? || m.Morf? || m.Bye?
  }

  /** A served frame is a login frame, or comes from a connection that the registry knows. */
  ghost predicate Servable(users: seq<User>, i: nat, own: string, m: Msg) {
    m == Me2u || m.Iam? || (NeedsLogin(m) && NameOf(users, i) == Some(own))
  }

  lemma AnswerIsSent(users: seq<User>, i: nat, own: string, m: Msg, k: nat)
    requires NamesDistinct(users) && ConnsDistinct(users) && Servable(users, i, own, m)
    ensures Addressed(Handle(users, i, m).sends, k) == Answer(users, i, own, m, k)
  {
    var r := Handle(users, i, m);
    if m == Bye {
      ByeIsSent(users, i, own, k);
    } else if m.Morf? {
      MorfIsSent(users, i, own, m.name, k);
    } else if m.Iam? && HolderOf(users, m.name).None? {
      AddressedTwo(r.sends[0], r.sends[1], k);
    } else {
      AddressedOne(r.sends[0], k);
    }
  }

  lemma MorfIsSent(users: seq<User>, i: nat, own: string, a: string, k: nat)
    requires NamesDistinct(users) && NameOf(users, i) == Some(own)
    ensures Addressed(Handle(users, i, Morf(a)).sends, k) == Answer(users, i, own, Morf(a), k)
  {
    SendToAllNamedIsOne(users, a, Ot(own));
    match HolderOf(users, a) {
      case None =>
      case Some(j) => AddressedOne(Send(j, Ot(own)), k);
    }
  }

  lemma ByeIsSent(users: seq<User>, i: nat, own: string, k: nat)
    requires NamesDistinct(users) && ConnsDistinct(users) && NameOf(users, i) == Some(own)
    ensures Addressed(Handle(users, i, Bye).sends, k) == Answer(users, i, own, Bye, k)
  {
    var rest := Without(users, i);
    WithoutKeepsDistinct(users, i);
    WithoutConn(users, i, k);
    AddressedBroadcast(rest, Uoff(own), k);
    var sends := [Send(i, Eyb)] + Broadcast(rest, Uoff(own));
    assert sends[1..] == Broadcast(rest, Uoff(own));
  }

  lemma ThreadAfter(users: seq<User>, i: nat, own: string, m: Msg)
    requires Servable(users, i, own, m)
    ensures Handle(users, i, m).thread
            == if m == Bye || (m.Iam? && HolderOf(users, m.name).Some?) then Ended else Serving
  {
  }

  /** The registry after a served frame. */
  lemma UsersAfter(users: seq<User>, i: nat, own: string, m: Msg)
    requires NamesDistinct(users) && ConnsDistinct(users) && Servable(users, i, own, m)
    requires m.Iam? ==> !HasConn(users, i)
    ensures var after := Handle(users, i, m).users;
            && NamesDistinct(after) && ConnsDistinct(after)
            && (forall u :: u in after ==> u in users || (m.Iam? && u == User(m.name, i)))
            && (forall k {:trigger HasConn(after, k)} ::
                  HasConn(after, k) <==> if k == i && m == Bye then false
                                         else if k == i && m.Iam? then HolderOf(users, m.name).None?
                                         else HasConn(users, k))
  {
    var after := Handle(users, i, m).users;
    if m == Bye {
      WithoutKeepsDistinct(users, i);
      forall k ensures HasConn(after, k) <==> HasConn(users, k) && k != i {
        WithoutConn(users, i, k);
      }
    } else if m.Iam? && HolderOf(users, m.name).None? {
      Appended(users, User(m.name, i));
    }
  }

  /** The head of a channel that is served is servable. */
  lemma HeadIsServable(s: System, i: nat)
    requires RegistryOk(s) && PhasesOk(s) && Enabled(s, Serve(i))
    ensures var c := s.clients[i];
            && Servable(s.users, i, c.name, c.outbox[0])
            && (c.outbox[0].Iam? ==> c.outbox[0].name == c.name && Member(s.log, i) == Never)
            && (c.outbox[0] == Me2u ==> Member(s.log, i) == Never)
            && (NeedsLogin(c.outbox[0]) ==> Member(s.log, i) == Now)
  {
    var c := s.clients[i];
    HeadOfPhase(c, Member(s.log, i));
    if Member(s.log, i) == Now { NameIsKnown(s, i); }
  }

  lemma HeadOfPhase(c: Client, m: Membership)
    requires Phase(c, m) && c.outbox != [] && c.thread == Serving
    ensures var h := c.outbox[0];
            || (h == Me2u && m == Never && c.login == Hello)
            || (h == Iam(c.name) && m == Never && c.login == Naming && c.outbox == [h] && c.inbox == [])
            || (NeedsLogin(h) && m == Now && (c.login == Chatting || c.login == Leaving || c.login == Failed))
  {
  }

  lemma PushedIsAnswer(s: System, i: nat, k: nat)
    requires RegistryOk(s) && PhasesOk(s) && Enabled(s, Serve(i)) && k < |s.clients|
    ensures Pushed(s, Serve(i), k, true) == Answer(s.users, i, s.clients[i].name, s.clients[i].outbox[0], k)
  {
    HeadIsServable(s, i);
    AnswerIsSent(s.users, i, s.clients[i].name, s.clients[i].outbox[0], k);
  }

  // ----- phases of one connection

  lemma PhaseGrows(c: Client, m: Membership, add: seq<Msg>)
    requires Phase(c, m) && AllInChat(add) && (m != Now ==> add == [])
    ensures Phase(c.(inbox := c.inbox + add), m)
  {
    var q := c.inbox + add;
    if add == [] {
      assert q == c.inbox;
    } else {
      assert |c.inbox| >= 1 ==> q[1..] == c.inbox[1..] + add;
      assert |c.inbox| >= 2 ==> q[2..] == c.inbox[2..] + add;
    }
  }

  lemma PhaseOfLoginServed(c: Client, m: Membership, add: seq<Msg>)
    requires Phase(c, m) && c.outbox != [] && c.thread == Serving
    requires c.outbox[0] == Me2u && add == [U2em]
    ensures Phase(c.(inbox := c.inbox + add, outbox := c.outbox[1..]), m)
  {
  }

  lemma PhaseOfNameServed(c: Client, taken: bool, add: seq<Msg>)
    requires c.login == Naming && c.thread == Serving && c.outbox == [Iam(c.name)] && c.inbox == []
    requires add == if taken then [Etaken] else [Mai, Motd(GREETING)]
    ensures Phase(c.(inbox := c.inbox + add, outbox := c.outbox[1..], thread := if taken then Ended else Serving),
                  if taken then Never else Now)
  {
    assert c.inbox + add == add;
  }

  lemma PhaseOfByeServed(c: Client)
    requires Phase(c, Now) && c.outbox != [] && c.outbox[0] == Bye
    ensures Phase(c.(inbox := c.inbox + [Eyb], outbox := c.outbox[1..], thread := Ended), Past)
  {
    assert c.outbox[1..] == [];
    Snoc(c.inbox, Eyb);
  }

  lemma PhaseOfChatServed(c: Client, add: seq<Msg>)
    requires Phase(c, Now) && c.outbox != [] && NeedsLogin(c.outbox[0]) && c.outbox[0] != Bye && AllInChat(add)
    ensures Phase(c.(inbox := c.inbox + add, outbox := c.outbox[1..]), Now)
  {
    PhaseGrows(c, Now, add);
    if ChatThenBye(c.outbox) {
      assert Front(c.outbox)[1..] == Front(c.outbox[1..]);
      assert ChatThenBye(c.outbox[1..]);
    }
  }

  lemma PhaseOfReader(c: Client, m: Membership, i: nat)
    requires Phase(c, m) && c.inbox != [] && c.login in {Hello, Naming, Approved, Chatting, Leaving}
    ensures Phase(Moved(c, Receive(i)), m)
  {
    if c.login == Leaving && m == Past && |c.inbox| > 1 {
      assert c.inbox[0] == Front(c.inbox)[0];
      assert Front(c.inbox)[1..] == Front(c.inbox[1..]);
    }
  }

  lemma PhaseOfTyper(c: Client, m: Membership, st: Step)
    requires Phase(c, m) && !st.Receive? && !st.Serve?
    requires if st.Connect? then c.login == Start else c.login == Chatting
    ensures Phase(Moved(c, st), m)
  {
    if st.Logout? {
      Snoc(c.outbox, Bye);
    }
  }

  // ----- one step

  /** Only the connection that acts can change its membership. */
  lemma MemberOfOther(s: System, st: Step, k: nat)
    requires Enabled(s, st)
    requires k != st.i || !st.Serve?
    ensures Member(Next(s, st).log, k) == Member(s.log, k)
  {
    MemberStep(s, st, k);
  }

  lemma MemberOfServed(s: System, i: nat)
    requires RegistryOk(s) && PhasesOk(s) && Enabled(s, Serve(i))
    ensures var m := s.clients[i].outbox[0];
            Member(Next(s, Serve(i)).log, i)
            == if m == Bye then Past
               else if m.Iam? && HolderOf(s.users, m.name).None? then Now
               else Member(s.log, i)
  {
    HeadIsServable(s, i);
    MemberStep(s, Serve(i), i);
  }

  /** What others are answered is chat, and goes to members only. */
  lemma AnswerToOther(s: System, i: nat, m: Msg, k: nat)
    requires RegistryOk(s) && i < |s.clients| && k < |s.clients| && k != i
    ensures var add := Answer(s.users, i, s.clients[i].name, m, k);
            AllInChat(add) && (Member(s.log, k) != Now ==> add == [])
  {
    if (m.To? || m.Morf?) && HolderOf(s.users, m.name).Some? {
      HolderIsMember(s, m.name);
    }
  }

  lemma PhaseOfOther(s: System, i: nat, k: nat)
    requires RegistryOk(s) && PhasesOk(s) && Enabled(s, Serve(i)) && k < |s.clients| && k != i
    ensures Phase(s.clients[k].(inbox := s.clients[k].inbox + Pushed(s, Serve(i), k, true)), Member(s.log, k))
  {
    PushedIsAnswer(s, i, k);
    AnswerToOther(s, i, s.clients[i].outbox[0], k);
    PhaseGrows(s.clients[k], Member(s.log, k), Pushed(s, Serve(i), k, true));
  }

  lemma PhaseOfServed(s: System, i: nat)
    requires RegistryOk(s) && PhasesOk(s) && Enabled(s, Serve(i))
    ensures var c := s.clients[i];
            Phase(c.(inbox := c.inbox + Pushed(s, Serve(i), i, true), outbox := c.outbox[1..],
                     thread := Handle(s.users, i, c.outbox[0]).thread),
                  Member(Next(s, Serve(i)).log, i))
  {
    var c := s.clients[i];
    var h := c.outbox[0];
    var add := Answer(s.users, i, c.name, h, i);
    PushedIsAnswer(s, i, i);
    MemberOfServed(s, i);
    HeadIsServable(s, i);
    HeadOfPhase(c, Member(s.log, i));
    ThreadAfter(s.users, i, c.name, h);
    if h == Me2u {
      PhaseOfLoginServed(c, Never, add);
    } else if h.Iam? {
      PhaseOfNameServed(c, HolderOf(s.users, h.name).Some?, add);
    } else if h == Bye {
      PhaseOfByeServed(c);
    } else {
      PhaseOfChatServed(c, add);
    }
  }

  lemma PhasesStep(s: System, st: Step)
    requires RegistryOk(s) && PhasesOk(s) && Enabled(s, st)
    ensures PhasesOk(Next(s, st))
  {
    forall k | 0 <= k < |s.clients|
      ensures Phase(Next(s, st).clients[k], Member(Next(s, st).log, k))
    {
      PhaseStep(s, st, k);
    }
  }

  lemma PhaseStep(s: System, st: Step, k: nat)
    requires RegistryOk(s) && PhasesOk(s) && Enabled(s, st) && k < |s.clients|
    ensures Phase(Next(s, st).clients[k], Member(Next(s, st).log, k))
  {
    NextClient(s, st, k);
    assert Phase(s.clients[k], Member(s.log, k));
    if st.Serve? && k == st.i {
      PhaseOfServed(s, k);
    } else {
      MemberOfOther(s, st, k);
      if st.Serve? {
        PhaseOfOther(s, st.i, k);
      } else if k == st.i {
        if st.Receive? {
          PhaseOfReader(s.clients[k], Member(s.log, k), k);
        } else {
          PhaseOfTyper(s.clients[k], Member(s.log, k), st);
        }
      }
    }
  }

  lemma RegistryStep(s: System, st: Step)
    requires RegistryOk(s) && PhasesOk(s) && Enabled(s, st)
    ensures RegistryOk(Next(s, st))
  {
    var t := Next(s, st);
    forall k | 0 <= k < |s.clients|
      ensures t.clients[k].name == s.clients[k].name
      ensures HasConn(t.users, k) <==> Member(t.log, k) == Now
    {
      NextClient(s, st, k);
      MembershipStep(s, st, k);
    }
    if st.Serve? {
      HeadIsServable(s, st.i);
      UsersAfter(s.users, st.i, s.clients[st.i].name, s.clients[st.i].outbox[0]);
    }
  }

  lemma MembershipStep(s: System, st: Step, k: nat)
    requires RegistryOk(s) && PhasesOk(s) && Enabled(s, st) && k < |s.clients|
    ensures HasConn(Next(s, st).users, k) <==> Member(Next(s, st).log, k) == Now
  {
    assert HasConn(s.users, k) <==> Member(s.log, k) == Now;
    if st.Serve? {
      HeadIsServable(s, st.i);
      UsersAfter(s.users, st.i, s.clients[st.i].name, s.clients[st.i].outbox[0]);
    }
    if st.Serve? && k == st.i {
      MemberOfServed(s, k);
    } else {
      MemberOfOther(s, st, k);
    }
  }

  // ----- the flows

  lemma ItemsShort(f: Flow, q: seq<Msg>)
    requires |q| <= 1 || q == [Mai, Motd(GREETING)]
    ensures Items(f, q) == if |q| == 1 then Of(f, q[0]) else []
  {
    if |q| == 1 {
      assert q[1..] == [];
    } else if q != [] {
      assert q[1..] == [q[1]];
      assert q[1..][1..] == [];
    }
  }

  lemma ItemsOfAnswer(users: seq<User>, i: nat, own: string, m: Msg, f: Flow, k: nat)
    ensures var add := Answer(users, i, own, m, k);
            Items(f, add) == if |add| == 1 then Of(f, add[0]) else []
  {
    ItemsShort(f, Answer(users, i, own, m, k));
  }

  /** The answer to a frame is what its event puts into the flows from the server. */
  lemma AnswerEnters(users: seq<User>, i: nat, own: string, m: Msg, f: Flow, k: nat, log: seq<Event>)
    requires Servable(users, i, own, m) && Inward(f)
    requires HasConn(users, k) <==> Member(log, k) == Now
    ensures Items(f, Answer(users, i, own, m, k)) == EnteredBy(f, k, log, ServeEvent(users, i, m))
  {
    ItemsOfAnswer(users, i, own, m, f, k);
    match m {
      case To(b, text) =>
      case Morf(a) =>
      case Bye =>
      case Iam(n) =>
      case _ =>
    }
  }

  /** A served frame is what its event takes out of the flows to the server. */
  lemma ServedLeaves(users: seq<User>, i: nat, own: string, m: Msg, f: Flow, k: nat)
    requires Servable(users, i, own, m)
    ensures LeftBy(f, k, ServeEvent(users, i, m)) == if !Inward(f) && k == i then Of(f, m) else []
  {
  }

  lemma ServedEntersNothing(users: seq<User>, i: nat, m: Msg, f: Flow, k: nat, log: seq<Event>)
    requires !Inward(f)
    ensures EnteredBy(f, k, log, ServeEvent(users, i, m)) == []
  {
  }

  lemma ServedFlow(s: System, i: nat, f: Flow, k: nat)
    requires RegistryOk(s) && PhasesOk(s) && Enabled(s, Serve(i)) && k < |s.clients|
    ensures Items(f, Pushed(s, Serve(i), k, Inward(f))) == EnteredBy(f, k, s.log, Events(s, Serve(i)))
    ensures Items(f, Popped(s, Serve(i), k, Inward(f))) == LeftBy(f, k, Events(s, Serve(i)))
  {
    var m, own := s.clients[i].outbox[0], s.clients[i].name;
    HeadIsServable(s, i);
    ServedLeaves(s.users, i, own, m, f, k);
    ItemsShort(f, [m]);
    if Inward(f) {
      PushedIsAnswer(s, i, k);
      AnswerEnters(s.users, i, own, m, f, k, s.log);
    } else {
      ServedEntersNothing(s.users, i, m, f, k, s.log);
    }
  }

  lemma HeadOfInbox(c: Client, m: Membership)
    requires Phase(c, m) && c.inbox != [] && c.login in {Hello, Naming, Approved, Chatting, Leaving}
    ensures c.login == Chatting || c.login == Leaving || !InChat(c.inbox[0])
  {
  }

  /** Reading a frame takes its item out of its flow. */
  lemma ReadLeaves(c: Client, i: nat, m: Msg, f: Flow, k: nat)
    requires c.login == Chatting || c.login == Leaving || !InChat(m)
    ensures LeftBy(f, k, ReadEvent(c, i, m)) == if Inward(f) && k == i then Of(f, m) else []
  {
  }

  /** The reply to a frame enters the flow of replies. */
  lemma ReadEnters(c: Client, i: nat, m: Msg, f: Flow, k: nat, log: seq<Event>)
    ensures EnteredBy(f, k, log, ReadEvent(c, i, m))
            == if !Inward(f) && k == i then Items(f, React(c, m).replies) else []
  {
    ItemsShort(f, React(c, m).replies);
  }

  lemma ReceivedFlow(s: System, i: nat, f: Flow, k: nat)
    requires PhasesOk(s) && Enabled(s, Receive(i)) && k < |s.clients|
    ensures Items(f, Pushed(s, Receive(i), k, Inward(f))) == EnteredBy(f, k, s.log, Events(s, Receive(i)))
    ensures Items(f, Popped(s, Receive(i), k, Inward(f))) == LeftBy(f, k, Events(s, Receive(i)))
  {
    var c := s.clients[i];
    var m := c.inbox[0];
    HeadOfInbox(c, Member(s.log, i));
    ReadEnters(c, i, m, f, k, s.log);
    ReadLeaves(c, i, m, f, k);
    ItemsShort(f, [m]);
  }

  lemma TypedFlow(s: System, st: Step, f: Flow, k: nat)
    requires Enabled(s, st) && k < |s.clients| && !st.Serve? && !st.Receive?
    ensures Items(f, Pushed(s, st, k, Inward(f))) == EnteredBy(f, k, s.log, Events(s, st))
    ensures Items(f, Popped(s, st, k, Inward(f))) == LeftBy(f, k, Events(s, st))
  {
    ItemsShort(f, Pushed(s, st, k, Inward(f)));
  }

  lemma StepMoves(s: System, st: Step, f: Flow, k: nat)
    requires RegistryOk(s) && PhasesOk(s) && Enabled(s, st) && k < |s.clients|
    ensures Items(f, Pushed(s, st, k, Inward(f))) == EnteredBy(f, k, s.log, Events(s, st))
    ensures Items(f, Popped(s, st, k, Inward(f))) == LeftBy(f, k, Events(s, st))
  {
    if st.Serve? {
      ServedFlow(s, st.i, f, k);
    } else if st.Receive? {
      ReceivedFlow(s, st.i, f, k);
    } else {
      TypedFlow(s, st, f, k);
    }
  }

  lemma FlowsStep(s: System, st: Step)
    requires Inv(s) && Enabled(s, st)
    ensures FlowsOk(Next(s, st))
  {
    forall f: Flow, k | 0 <= k < |s.clients| ensures Conserved(Next(s, st), f, k) {
      StepMoves(s, st, f, k);
      ConservedStep(s, st, f, k);
    }
  }

  // ----- every run

  lemma InvStep(s: System, st: Step)
    requires Inv(s)
    ensures Inv(Next(s, st))
  {
    if Enabled(s, st) {
      RegistryStep(s, st);
      PhasesStep(s, st);
      FlowsStep(s, st);
    }
  }

  lemma InvInit(names: seq<string>)
    ensures Inv(Init(names))
  {
  }

  lemma {:induction false} InvRun(names: seq<string>, steps: seq<Step>)
    ensures Inv(Exec(Init(names), steps))
  {
    if steps == [] {
      InvInit(names);
    } else {
      InvRun(names, Front(steps));
      InvStep(Exec(Init(names), Front(steps)), Last(steps));
    }
  }
}
