/**
 The error for a confirmation from "a user that never existed": when a run can reach it, and why a run
 in which no name is registered twice cannot.
 */
module Confirmations {
  import opened Basics
  import opened Messages
  import opened Registry
  import opened ChatSystem
  import opened Flows
  import opened Invariant
  import opened History
  import opened Causality

  lemma {:induction false} SendersHaveMet(log: seq<Event>, i: nat, b: string, text: string)
    requires Sent(i, b, text) in log
    ensures b in Contacts(log, i)
  {
    if Last(log) == Sent(i, b, text) {
      var met := Contacts(Front(log), i);
      assert Meet(met, b)[|Meet(met, b)| - 1] == b || b in met;
    } else {
      assert Sent(i, b, text) in Front(log);
      SendersHaveMet(Front(log), i, b, text);
    }
  }

  /**
   A confirmation that reaches a client which has not met its sender answers a message of somebody
   else: another connection that has held the same name.
   */
  lemma StrangersNeedTwoHolders(names: seq<string>, steps: seq<Step>, i: nat, b: string) returns (k: nat, j: nat)
    requires i < |names|
    requires var s := Exec(Init(names), steps);
             Item(b, "") in Entered(OtFlow, i, s.log) && b !in s.clients[i].partners
    ensures k < |names| && j < |names| && k != i
    ensures names[k] == names[i] && names[j] == b && names[j] != names[i]
    ensures var log := Exec(Init(names), steps).log;
            Registered(i, names[i]) in log && Registered(k, names[k]) in log
  {
    var s := Reached(names, steps);
    var log := s.log;
    var n :| 0 <= n < |Entered(OtFlow, i, log)| && Entered(OtFlow, i, log)[n] == Item(b, "");
    EnterTimesCarry(OtFlow, i, log, n);
    var p := EnterTimes(OtFlow, i, log)[n];
    var h := ConfirmationHasTrace(names, steps, p);
    k, j := h.i, log[p].j;
    EventHolds(names, steps, p);
    EventHolds(names, steps, h.routed);
    SendersHaveMet(log, k, b, h.text);
    OneHolderAtATime(Live(log[..p]), names[i], i, names[j], j);
    OneHolderAtATime(Live(log[..h.routed]), names[i], k, names[j], j);
    LiveHasRegistered(log[..p], User(names[i], i));
    LiveHasRegistered(log[..h.routed], User(names[k], k));
  }

  lemma OneHolderAtATime(users: seq<User>, a: string, i: nat, b: string, j: nat)
    requires NamesDistinct(users) && ConnsDistinct(users) && User(a, i) in users && User(b, j) in users
    ensures a == b ==> i == j
  {
    ScansAgree(users, User(a, i));
    ScansAgree(users, User(b, j));
  }

  /** No name is registered twice. */
  ghost predicate NamesUsedOnce(log: seq<Event>) {
    forall i, k, n :: Registered(i, n) in log && Registered(k, n) in log ==> i == k
  }

  /** In such a run every confirmation that waits for a client comes from one of its partners. */
  lemma ConfirmersAreKnown(names: seq<string>, steps: seq<Step>, i: nat, q: nat)
    requires i < |names| && NamesUsedOnce(Exec(Init(names), steps).log)
    requires var c := Exec(Init(names), steps).clients[i]; q < |c.inbox| && c.inbox[q].Ot?
    ensures var c := Exec(Init(names), steps).clients[i]; c.inbox[q].name in c.partners
  {
    var s := Reached(names, steps);
    var c := s.clients[i];
    assert Conserved(s, OtFlow, i);
    Waits(OtFlow, c.inbox, q);
    if c.inbox[q].name !in c.partners {
      var k, j := StrangersNeedTwoHolders(names, steps, i, c.inbox[q].name);
      assert false;
    }
  }

  lemma {:induction false} Waits(f: Flow, inbox: seq<Msg>, q: nat)
    requires q < |inbox|
    ensures forall x :: x in Of(f, inbox[q]) ==> x in Items(f, inbox)
  {
    if q == 0 {
    } else {
      Waits(f, inbox[1..], q - 1);
    }
  }

  /** In such a run no client ever fails. */
  lemma NobodyFails(names: seq<string>, steps: seq<Step>, i: nat)
    requires i < |names| && NamesUsedOnce(Exec(Init(names), steps).log)
    ensures Exec(Init(names), steps).clients[i].login != Failed
  {
    if Exec(Init(names), steps).clients[i].login == Failed {
      var k, j := FailureNeedsTwoHolders(names, steps, i);
      assert false;
    }
  }

  lemma FailureNeedsTwoHolders(names: seq<string>, steps: seq<Step>, i: nat) returns (k: nat, j: nat)
    requires i < |names| && Exec(Init(names), steps).clients[i].login == Failed
    ensures k < |names| && j < |names| && k != i
    ensures names[k] == names[i] && names[j] != names[i]
    ensures var log := Exec(Init(names), steps).log;
            Registered(i, names[i]) in log && Registered(k, names[k]) in log
  {
    var b := FailureReads(names, steps, i);
    k, j := StrangersNeedTwoHolders(names, steps, i, b);
  }

  /** A failed client has been sent the confirmation of somebody it has never met. */
  lemma FailureReads(names: seq<string>, steps: seq<Step>, i: nat) returns (b: string)
    requires i < |names| && Exec(Init(names), steps).clients[i].login == Failed
    ensures var s := Exec(Init(names), steps);
            Item(b, "") in Entered(OtFlow, i, s.log) && b !in s.clients[i].partners
  {
    var s := Reached(names, steps);
    assert FailureExplained(s.clients[i], s.log, i);
    b :| OtRead(i, b) in s.log && b !in s.clients[i].partners;
    assert Conserved(s, OtFlow, i);
    ReadHasLeft(s.log, i, b);
  }

  lemma {:induction false} ReadHasLeft(log: seq<Event>, i: nat, b: string)
    requires OtRead(i, b) in log
    ensures Item(b, "") in Left(OtFlow, i, log)
  {
    if Last(log) == OtRead(i, b) {
    } else {
      assert OtRead(i, b) in Front(log);
      ReadHasLeft(Front(log), i, b);
    }
  }

  // ----- the error can happen, if two clients share a name and a third has another

  ghost predicate Clash(names: seq<string>, i: nat, k: nat, j: nat) {
    i < |names| && k < |names| && j < |names| && i != k && names[i] == names[k] && names[j] != names[i]
  }

  ghost predicate CanFail(names: seq<string>) {
    exists steps: seq<Step>, k: nat :: k < |names| && Exec(Init(names), steps).clients[k].login == Failed
  }

  /** What is typed in the run: empty messages to configured names. */
  ghost predicate PlainChats(names: seq<string>, steps: seq<Step>) {
    forall st :: st in steps && st.Chat? ==> st.b in names && st.text == ""
  }

  /** Client `x` after step `st`. */
  ghost function ClientAfter(s: System, st: Step, x: nat): Client
    requires Enabled(s, st) && x < |s.clients|
  {
    var c := s.clients[x];
    if st.Serve? then
      var server := s.clients[st.i];
      var arrived := c.(inbox := c.inbox + Answer(s.users, st.i, server.name, server.outbox[0], x));
      if x == st.i then arrived.(outbox := c.outbox[1..], thread := Handle(s.users, x, c.outbox[0]).thread)
      else arrived
    else if x == st.i then Moved(c, st)
    else c
  }

  /** Extends a run by one step. */
  lemma Do(names: seq<string>, steps: seq<Step>, st: Step) returns (steps': seq<Step>, t: System)
    requires PlainChats(names, steps) && (st.Chat? ==> st.b in names && st.text == "")
    requires Enabled(Exec(Init(names), steps), st)
    ensures PlainChats(names, steps')
    ensures var s := Exec(Init(names), steps);
            && t == Exec(Init(names), steps') && |t.clients| == |s.clients| == |names|
            && (forall x :: 0 <= x < |names| ==> t.clients[x] == ClientAfter(s, st, x))
            && t.users == if st.Serve? then Handle(s.users, st.i, s.clients[st.i].outbox[0]).users else s.users
  {
    var s := Reached(names, steps);
    steps' := steps + [st];
    Snoc(steps, st);
    t := Exec(Init(names), steps');
    forall x | 0 <= x < |names| ensures t.clients[x] == ClientAfter(s, st, x) {
      NextClient(s, st, x);
      if st.Serve? {
        PushedIsAnswer(s, st.i, x);
      }
    }
  }

  function Fresh(name: string): Client {
    Client(name, Start, [], [], [], Serving)
  }

  ghost predicate OnlyMoves(s: System, t: System, x: nat) {
    |s.clients| == |t.clients| && forall y :: 0 <= y < |s.clients| && y != x ==> t.clients[y] == s.clients[y]
  }

  /** ME2U, and its answer. */
  lemma Hail(names: seq<string>, steps: seq<Step>, x: nat) returns (steps': seq<Step>, t: System)
    requires PlainChats(names, steps)
    requires x < |names| && Exec(Init(names), steps).clients[x] == Fresh(names[x])
    ensures PlainChats(names, steps')
    ensures var s := Exec(Init(names), steps);
            && t == Exec(Init(names), steps') && t.users == s.users && OnlyMoves(s, t, x)
            && t.clients[x] == Fresh(names[x]).(login := Hello, inbox := [U2em])
  {
    steps', t := Do(names, steps, Connect(x));
    assert t.clients[x] == Fresh(names[x]).(login := Hello, outbox := [Me2u]);
    steps', t := Do(names, steps', Serve(x));
  }

  /** U2EM read, and the name sent. */
  lemma Greet(names: seq<string>, steps: seq<Step>, x: nat) returns (steps': seq<Step>, t: System)
    requires PlainChats(names, steps)
    requires x < |names| && Exec(Init(names), steps).clients[x] == Fresh(names[x])
    ensures PlainChats(names, steps')
    ensures var s := Exec(Init(names), steps);
            && t == Exec(Init(names), steps') && t.users == s.users && OnlyMoves(s, t, x)
            && t.clients[x] == Fresh(names[x]).(login := Naming, outbox := [Iam(names[x])])
  {
    steps', t := Hail(names, steps, x);
    steps', t := Do(names, steps', Receive(x));
  }

  /** IAM, if the name is free. */
  lemma Approve(names: seq<string>, steps: seq<Step>, x: nat) returns (steps': seq<Step>, t: System)
    requires PlainChats(names, steps)
    requires x < |names|
    requires Exec(Init(names), steps).clients[x] == Fresh(names[x]).(login := Naming, outbox := [Iam(names[x])])
    requires HolderOf(Exec(Init(names), steps).users, names[x]) == None
    ensures PlainChats(names, steps')
    ensures var s := Exec(Init(names), steps);
            && t == Exec(Init(names), steps') && t.users == s.users + [User(names[x], x)] && OnlyMoves(s, t, x)
            && t.clients[x] == Fresh(names[x]).(login := Naming, inbox := [Mai, Motd(GREETING)])
  {
    steps', t := Do(names, steps, Serve(x));
  }

  /** MAI. */
  lemma HearMai(names: seq<string>, steps: seq<Step>, x: nat) returns (steps': seq<Step>, t: System)
    requires PlainChats(names, steps)
    requires x < |names|
    requires Exec(Init(names), steps).clients[x]
             == Fresh(names[x]).(login := Naming, inbox := [Mai, Motd(GREETING)])
    ensures PlainChats(names, steps')
    ensures var s := Exec(Init(names), steps);
            && t == Exec(Init(names), steps') && t.users == s.users && OnlyMoves(s, t, x)
            && t.clients[x] == Fresh(names[x]).(login := Approved, inbox := [Motd(GREETING)])
  {
    steps', t := Do(names, steps, Receive(x));
    assert [Mai, Motd(GREETING)][1..] == [Motd(GREETING)];
  }

  /** MAI and MOTD. */
  lemma Enter(names: seq<string>, steps: seq<Step>, x: nat) returns (steps': seq<Step>, t: System)
    requires PlainChats(names, steps)
    requires x < |names|
    requires Exec(Init(names), steps).clients[x]
             == Fresh(names[x]).(login := Naming, inbox := [Mai, Motd(GREETING)])
    ensures PlainChats(names, steps')
    ensures var s := Exec(Init(names), steps);
            && t == Exec(Init(names), steps') && t.users == s.users && OnlyMoves(s, t, x)
            && t.clients[x] == Fresh(names[x]).(login := Chatting)
  {
    steps', t := HearMai(names, steps, x);
    steps', t := Do(names, steps', Receive(x));
    assert [Motd(GREETING)][1..] == [];
  }

  /** The whole login of a client whose name is free. */
  lemma LogIn(names: seq<string>, steps: seq<Step>, x: nat) returns (steps': seq<Step>, t: System)
    requires PlainChats(names, steps)
    requires x < |names| && Exec(Init(names), steps).clients[x] == Fresh(names[x])
    requires HolderOf(Exec(Init(names), steps).users, names[x]) == None
    ensures PlainChats(names, steps')
    ensures var s := Exec(Init(names), steps);
            && t == Exec(Init(names), steps') && t.users == s.users + [User(names[x], x)] && OnlyMoves(s, t, x)
            && t.clients[x] == Fresh(names[x]).(login := Chatting)
  {
    steps', t := Greet(names, steps, x);
    steps', t := Approve(names, steps', x);
    steps', t := Enter(names, steps', x);
  }

  /** The registry holds `j`, then `i`. */
  ghost predicate TwoUsers(names: seq<string>, users: seq<User>, j: nat, i: nat) {
    i < |names| && j < |names| && i != j && names[i] != names[j]
    && users == [User(names[j], j), User(names[i], i)]
  }

  lemma TwoUsersServed(names: seq<string>, users: seq<User>, j: nat, i: nat)
    requires TwoUsers(names, users, j, i)
    ensures Handle(users, i, To(names[j], "")) == Reply(users, [Send(j, From(names[i], ""))], Serving)
    ensures HolderOf(users, names[j]) == Some(j) && HolderOf(users, names[i]) == Some(i)
    ensures Handle(users, i, Bye).users == [User(names[j], j)] && HasConn(users, j)
    ensures forall y :: HasConn(users, y) <==> y == i || y == j
  {
    assert users[0] == User(names[j], j) && users[1] == User(names[i], i);
    NameOfSecond(users);
  }

  /** The server forwards what `i` has typed to `j`. */
  lemma Forward(names: seq<string>, steps: seq<Step>, i: nat, j: nat) returns (steps': seq<Step>, t: System)
    requires PlainChats(names, steps)
    requires TwoUsers(names, Exec(Init(names), steps).users, j, i)
    requires Exec(Init(names), steps).clients[i]
             == Fresh(names[i]).(login := Chatting, partners := [names[j]], outbox := [To(names[j], "")])
    ensures PlainChats(names, steps')
    ensures var s := Exec(Init(names), steps);
            && t == Exec(Init(names), steps') && t.users == s.users && |t.clients| == |names|
            && t.clients[i] == Fresh(names[i]).(login := Chatting, partners := [names[j]])
            && t.clients[j] == s.clients[j].(inbox := s.clients[j].inbox + [From(names[i], "")])
            && forall y :: 0 <= y < |names| && y != i && y != j ==> t.clients[y] == s.clients[y]
  {
    TwoUsersServed(names, Exec(Init(names), steps).users, j, i);
    steps', t := Do(names, steps, Serve(i));
  }

  lemma TypeChat(names: seq<string>, steps: seq<Step>, i: nat, b: string) returns (steps': seq<Step>, t: System)
    requires PlainChats(names, steps)
    requires i < |names| && Exec(Init(names), steps).clients[i] == Fresh(names[i]).(login := Chatting) && b in names
    ensures PlainChats(names, steps')
    ensures var s := Exec(Init(names), steps);
            && t == Exec(Init(names), steps') && t.users == s.users && OnlyMoves(s, t, i)
            && t.clients[i] == Fresh(names[i]).(login := Chatting, partners := [b], outbox := [To(b, "")])
  {
    steps', t := Do(names, steps, Chat(i, b, ""));
  }

  /** `i` types an empty message to `j`, and the server forwards it. */
  lemma Write(names: seq<string>, steps: seq<Step>, i: nat, j: nat) returns (steps': seq<Step>, t: System)
    requires PlainChats(names, steps)
    requires TwoUsers(names, Exec(Init(names), steps).users, j, i)
    requires Exec(Init(names), steps).clients[i] == Fresh(names[i]).(login := Chatting)
    ensures PlainChats(names, steps')
    ensures var s := Exec(Init(names), steps);
            && t == Exec(Init(names), steps') && t.users == s.users && |t.clients| == |names|
            && t.clients[i] == Fresh(names[i]).(login := Chatting, partners := [names[j]])
            && t.clients[j] == s.clients[j].(inbox := s.clients[j].inbox + [From(names[i], "")])
            && forall y :: 0 <= y < |names| && y != i && y != j ==> t.clients[y] == s.clients[y]
  {
    steps', t := TypeChat(names, steps, i, names[j]);
    steps', t := Forward(names, steps', i, j);
  }

  /** The server processes the BYE of `i`, and `j` is told. */
  lemma Release(names: seq<string>, steps: seq<Step>, i: nat, j: nat) returns (steps': seq<Step>, t: System)
    requires PlainChats(names, steps)
    requires TwoUsers(names, Exec(Init(names), steps).users, j, i)
    requires var c := Exec(Init(names), steps).clients[i]; c.name == names[i] && c.outbox == [Bye] && c.thread == Serving
    ensures PlainChats(names, steps')
    ensures var s := Exec(Init(names), steps);
            && t == Exec(Init(names), steps') && t.users == [User(names[j], j)] && |t.clients| == |names|
            && t.clients[j] == s.clients[j].(inbox := s.clients[j].inbox + [Uoff(names[i])])
            && forall y :: 0 <= y < |names| && y != i && y != j ==> t.clients[y] == s.clients[y]
  {
    TwoUsersServed(names, Exec(Init(names), steps).users, j, i);
    steps', t := Do(names, steps, Serve(i));
  }

  /** `i` logs out. */
  lemma Depart(names: seq<string>, steps: seq<Step>, i: nat, j: nat) returns (steps': seq<Step>, t: System)
    requires PlainChats(names, steps)
    requires TwoUsers(names, Exec(Init(names), steps).users, j, i)
    requires Exec(Init(names), steps).clients[i] == Fresh(names[i]).(login := Chatting, partners := [names[j]])
    ensures PlainChats(names, steps')
    ensures var s := Exec(Init(names), steps);
            && t == Exec(Init(names), steps') && t.users == [User(names[j], j)] && |t.clients| == |names|
            && t.clients[j] == s.clients[j].(inbox := s.clients[j].inbox + [Uoff(names[i])])
            && forall y :: 0 <= y < |names| && y != i && y != j ==> t.clients[y] == s.clients[y]
  {
    steps', t := Do(names, steps, Logout(i));
    steps', t := Release(names, steps', i, j);
  }

  /** `j` and `i` log in. */
  lemma Gather(names: seq<string>, i: nat, k: nat, j: nat) returns (steps: seq<Step>, t: System)
    requires Clash(names, i, k, j)
    ensures PlainChats(names, steps)
    ensures t == Exec(Init(names), steps) && |t.clients| == |names|
    ensures TwoUsers(names, t.users, j, i) && t.clients[k] == Fresh(names[k])
    ensures t.clients[i] == Fresh(names[i]).(login := Chatting)
    ensures t.clients[j] == Fresh(names[j]).(login := Chatting)
  {
    t := Exec(Init(names), []);
    steps, t := LogIn(names, [], j);
    assert t.users == [User(names[j], j)];
    steps, t := LogIn(names, steps, i);
  }

  /** `i` logs in, writes to `j`, and logs out; the message waits for `j`. */
  lemma WriteAndLeave(names: seq<string>, i: nat, k: nat, j: nat) returns (steps: seq<Step>, t: System)
    requires Clash(names, i, k, j)
    ensures PlainChats(names, steps)
    ensures t == Exec(Init(names), steps) && |t.clients| == |names|
    ensures t.users == [User(names[j], j)] && t.clients[k] == Fresh(names[k])
    ensures t.clients[j]
            == Fresh(names[j]).(login := Chatting, inbox := [From(names[i], ""), Uoff(names[i])])
  {
    steps, t := Gather(names, i, k, j);
    steps, t := Write(names, steps, i, j);
    steps, t := Depart(names, steps, i, j);
  }

  lemma NameOfSecond(users: seq<User>)
    requires |users| == 2 && users[0].conn != users[1].conn && users[0].name != users[1].name
    ensures NameOf(users, users[1].conn) == Some(users[1].name)
    ensures HolderOf(users, users[1].name) == Some(users[1].conn)
    ensures Without(users, users[1].conn) == [users[0]]
  {
    assert users[1..] == [users[1]];
    assert users[1..][1..] == [];
  }

  /** `j` reads the message of `i`, and replies. */
  lemma ReadMessage(names: seq<string>, steps: seq<Step>, i: nat, j: nat) returns (steps': seq<Step>, t: System)
    requires PlainChats(names, steps)
    requires i < |names| && j < |names|
    requires Exec(Init(names), steps).clients[j]
             == Fresh(names[j]).(login := Chatting, inbox := [From(names[i], ""), Uoff(names[i])])
    ensures PlainChats(names, steps')
    ensures var s := Exec(Init(names), steps);
            && t == Exec(Init(names), steps') && t.users == s.users && OnlyMoves(s, t, j)
            && t.clients[j].name == names[j] && t.clients[j].thread == Serving
            && t.clients[j].outbox == [Morf(names[i])]
  {
    steps', t := Do(names, steps, Receive(j));
    ReplyToMessage(Exec(Init(names), steps).clients[j], j, names[i]);
  }

  lemma ReplyToMessage(c: Client, j: nat, a: string)
    requires c.login == Chatting && c.inbox != [] && c.inbox[0] == From(a, "") && c.outbox == []
    ensures var c' := Moved(c, Receive(j));
            c'.name == c.name && c'.thread == c.thread && c'.outbox == [Morf(a)]
  {
  }

  /** The reply reaches the new holder of the name. */
  lemma Confirm(names: seq<string>, steps: seq<Step>, k: nat, j: nat) returns (steps': seq<Step>, t: System)
    requires PlainChats(names, steps)
    requires TwoUsers(names, Exec(Init(names), steps).users, j, k)
    requires Exec(Init(names), steps).clients[k] == Fresh(names[k]).(login := Chatting)
    requires var c := Exec(Init(names), steps).clients[j];
             c.name == names[j] && c.outbox == [Morf(names[k])] && c.thread == Serving
    ensures PlainChats(names, steps')
    ensures t == Exec(Init(names), steps') && |t.clients| == |names|
    ensures t.clients[k] == Fresh(names[k]).(login := Chatting, inbox := [Ot(names[j])])
  {
    TwoUsersServed(names, Exec(Init(names), steps).users, j, k);
    steps', t := Do(names, steps, Serve(j));
  }

  /** Another client takes the name, and is told that a message it never sent has arrived. */
  lemma ClashReachesFailure(names: seq<string>, i: nat, k: nat, j: nat) returns (steps: seq<Step>)
    requires Clash(names, i, k, j)
    ensures PlainChats(names, steps) && Exec(Init(names), steps).clients[k].login == Failed
  {
    var t: System;
    steps, t := WriteAndLeave(names, i, k, j);
    steps, t := LogIn(names, steps, k);
    steps, t := ReadMessage(names, steps, i, j);
    steps, t := Confirm(names, steps, k, j);
    steps := ReadNotice(names, steps, k, names[j]);
  }

  lemma ReadNotice(names: seq<string>, steps: seq<Step>, k: nat, b: string) returns (steps': seq<Step>)
    requires PlainChats(names, steps) && k < |names|
    requires Exec(Init(names), steps).clients[k] == Fresh(names[k]).(login := Chatting, inbox := [Ot(b)])
    ensures PlainChats(names, steps') && Exec(Init(names), steps').clients[k].login == Failed
  {
    var t: System;
    steps', t := Do(names, steps, Receive(k));
  }

  /**
   Some run reaches the error exactly when two clients are configured with one name and a third client
   with another.
   */
  lemma FailureIffClash(names: seq<string>)
    ensures CanFail(names) <==> exists i, k, j :: Clash(names, i, k, j)
  {
    if CanFail(names) {
      var steps: seq<Step>, i: nat :| i < |names| && Exec(Init(names), steps).clients[i].login == Failed;
      var k, j := FailureNeedsTwoHolders(names, steps, i);
      assert Clash(names, i, k, j);
    }
    if i, k, j :| Clash(names, i, k, j) {
      var steps := ClashReachesFailure(names, i, k, j);
    }
  }
}
