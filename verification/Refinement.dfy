/** The protocol steps are what the two programs do on bytes, as long as names are names and texts have no terminators. */
module Refinement {
  import opened Basics
  import opened Text
  import opened Framing
  import opened Messages
  import opened Registry
  import opened ChatSystem
  import opened Flows
  import opened Invariant
  import opened History
  import opened Wire
  import opened Handshake
  import opened EndToEnd

  /** A text without terminators; if it is to be `whole`, it does not end in half of one either. */
  ghost predicate IsText(text: string, whole: bool) {
    !HasEnding(text) && (whole ==> !EndsInHalf(text))
  }

  /** A frame whose names are names and whose text is a text. */
  ghost predicate Proper(m: Msg, whole: bool) {
    WellNamed(m) && ((m.To? || m.From?) ==> IsText(m.text, whole)) && (m.Motd? ==> m.text == GREETING)
  }

  /** A message whose text ends in half a terminator. */
  predicate IsHalved(m: Msg) {
    (m.To? || m.From?) && EndsInHalf(m.text)
  }

  ghost predicate AllProper(q: seq<Msg>, whole: bool) {
    forall m :: m in q ==> Proper(m, whole)
  }

  /** What the users type: recipients that are names, and texts. */
  ghost predicate ProperInput(steps: seq<Step>, whole: bool) {
    forall st :: st in steps && st.Chat? ==> IsName(st.b) && IsText(st.text, whole)
  }

  ghost predicate ProperState(s: System, whole: bool) {
    && (forall k :: 0 <= k < |s.clients| ==>
          IsName(s.clients[k].name) && AllProper(s.clients[k].inbox, whole) && AllProper(s.clients[k].outbox, whole))
    && (forall u :: u in s.users ==> IsName(u.name))
  }

  lemma ProperAnswer(users: seq<User>, i: nat, own: string, m: Msg, k: nat, whole: bool)
    requires (forall u :: u in users ==> IsName(u.name)) && IsName(own) && Proper(m, whole)
    ensures AllProper(Answer(users, i, own, m, k), whole)
  {
    if m == Listu {
      assert forall n :: n in Names(users) ==> exists j :: 0 <= j < |users| && users[j].name == n && users[j] in users;
    }
  }

  lemma ProperReaction(c: Client, m: Msg, whole: bool)
    requires IsName(c.name) && Proper(m, whole)
    ensures AllProper(React(c, m).replies, whole)
  {
  }

  /** What the server sends in a step is proper. */
  lemma ProperPushed(s: System, st: Step, k: nat, whole: bool)
    requires Inv(s) && ProperState(s, whole) && Enabled(s, st) && k < |s.clients|
    ensures AllProper(Pushed(s, st, k, true), whole)
  {
    if st.Serve? {
      var server := s.clients[st.i];
      PushedIsAnswer(s, st.i, k);
      assert server.outbox[0] in server.outbox;
      ProperAnswer(s.users, st.i, server.name, server.outbox[0], k, whole);
    }
  }

  lemma ProperClient(s: System, st: Step, k: nat, whole: bool)
    requires Inv(s) && ProperState(s, whole) && Enabled(s, st) && k < |s.clients|
    requires st.Chat? ==> IsName(st.b) && IsText(st.text, whole)
    ensures var c := Next(s, st).clients[k];
            IsName(c.name) && AllProper(c.inbox, whole) && AllProper(c.outbox, whole)
  {
    NextClient(s, st, k);
    ProperPushed(s, st, k, whole);
    if st == Receive(k) {
      assert s.clients[k].inbox[0] in s.clients[k].inbox;
      ProperReaction(s.clients[k], s.clients[k].inbox[0], whole);
    }
  }

  lemma ProperUsers(s: System, st: Step, whole: bool)
    requires Inv(s) && ProperState(s, whole) && Enabled(s, st)
    ensures forall u :: u in Next(s, st).users ==> IsName(u.name)
  {
    if st.Serve? {
      HeadIsServable(s, st.i);
      UsersAfter(s.users, st.i, s.clients[st.i].name, s.clients[st.i].outbox[0]);
    }
  }

  lemma {:induction false} ProperRun(names: seq<string>, steps: seq<Step>, whole: bool)
    requires (forall n :: n in names ==> IsName(n)) && ProperInput(steps, whole)
    ensures ProperState(Exec(Init(names), steps), whole)
  {
    if steps == [] {
      forall k | 0 <= k < |names| ensures IsName(Init(names).clients[k].name) {
        assert names[k] in names;
      }
    } else {
      var s, st := Exec(Init(names), Front(steps)), Last(steps);
      assert st in steps;
      ProperRun(names, Front(steps), whole);
      var r := Reached(names, Front(steps));
      if Enabled(s, st) {
        ProperUsers(s, st, whole);
        forall k | 0 <= k < |s.clients|
          ensures var c := Next(s, st).clients[k];
                  IsName(c.name) && AllProper(c.inbox, whole) && AllProper(c.outbox, whole)
        {
          ProperClient(s, st, k, whole);
        }
      }
    }
  }

  lemma {:induction false} ListedIsPlain(names: seq<string>)
    requires forall n :: n in names ==> IsName(n)
    ensures NoNewline(Listed(names))
  {
    if names == [] {
    } else {
      assert Last(names) in names;
      ListedIsPlain(Front(names));
    }
  }

  /** The text of a proper frame has no terminator, and ends in half of one only if its message does. */
  lemma ProperText(m: Msg)
    requires Proper(m, false)
    ensures !HasEnding(Show(m)) && (EndsInHalf(Show(m)) <==> IsHalved(m))
  {
    FramableIff(Show(m));
    if m.To? || m.From? {
      var verb := if m.To? then "TO" else "FROM";
      NamedHead(verb, m.name);
      SameEndings(verb + " " + (m.name + " "), m.text);
      HeadAndText(verb, m.name, m.text);
      FramableIff(m.text);
    } else {
      if m.Utsil? { ListedIsPlain(m.names); }
      PlainIsFramable(Show(m));
    }
  }

  /**
   In every state of a run with proper names and input, the head of every channel goes through the
   bytes unharmed: the server's text handler makes of it what the protocol step makes, and so does the
   client's, while chatting and while logging in; and it is reassembled from all divisions into chunks
   exactly when its text does not end in half a terminator.
   */
  lemma StepsAreByteSteps(names: seq<string>, steps: seq<Step>, i: nat)
    requires (forall n :: n in names ==> IsName(n)) && ProperInput(steps, false) && i < |names|
    ensures var s := Exec(Init(names), steps);
            var c := s.clients[i];
            && (Enabled(s, Serve(i)) ==>
                  Server.HandleText(s.users, i, Strip(Terminated(Show(c.outbox[0]))))
                  == Handle(s.users, i, c.outbox[0]))
            && (Enabled(s, Receive(i)) ==>
                  var m := c.inbox[0];
                  && (Reassembles([Show(m)]) <==> !IsHalved(m))
                  && (c.login == Chatting || c.login == Leaving ==>
                        Clients.ChatReaction(c.partners, c.login == Leaving, Show(m)) == Clients.Shown(React(c, m)))
                  && (c.login == Hello || c.login == Naming || c.login == Approved ==>
                        LoginAgrees(c, m)))
  {
    var s := Reached(names, steps);
    var c := s.clients[i];
    ProperRun(names, steps, false);
    if Enabled(s, Serve(i)) {
      assert c.outbox[0] in c.outbox;
      HeadIsServable(s, i);
      RequestIsProper(s.users, i, c.name, c.outbox[0]);
    }
    if Enabled(s, Receive(i)) {
      assert c.inbox[0] in c.inbox;
      assert Phase(c, Member(s.log, i));
      FrameIsProper(c, Member(s.log, i));
    }
  }

  ghost predicate LoginAgrees(c: Client, m: Msg)
    requires c.login in {Hello, Naming, Approved}
  {
    React(c, m).login in {Hello, Naming, Approved, Chatting, Rejected, Failed}
    && StateOf(React(c, m).login) == Advance(StateOf(c.login), Show(m))
  }

  lemma RequestIsProper(users: seq<User>, i: nat, own: string, m: Msg)
    requires Proper(m, false) && Servable(users, i, own, m)
    ensures Server.HandleText(users, i, Strip(Terminated(Show(m)))) == Handle(users, i, m)
  {
    ProperText(m);
    if m.To? { SpaceFree(m.name); }
    Server.TextIsHandled(users, i, m);
  }

  lemma FrameIsProper(c: Client, p: Membership)
    requires Phase(c, p) && c.inbox != [] && Proper(c.inbox[0], false)
    requires c.login in {Hello, Naming, Approved, Chatting, Leaving}
    ensures var m := c.inbox[0];
            && (Reassembles([Show(m)]) <==> !IsHalved(m))
            && (c.login == Chatting || c.login == Leaving ==>
                  Clients.ChatReaction(c.partners, c.login == Leaving, Show(m)) == Clients.Shown(React(c, m)))
            && (c.login == Hello || c.login == Naming || c.login == Approved ==> LoginAgrees(c, m))
  {
    var m := c.inbox[0];
    ProperText(m);
    ReassemblesIff([Show(m)]);
    if c.login == Chatting || c.login == Leaving {
      assert InChat(m) || m == Eyb;
      Clients.FramesAgree(c, m);
    } else {
      LoginFramesAgree(c, m);
    }
  }
}
