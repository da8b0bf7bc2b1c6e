/**
 The composed system on bytes and the protocol do the same: every run on bytes is a run of the protocol,
 and every run of the protocol is one on bytes, as long as names are names and texts are texts.
 */
module ByteRefinement {
  import opened Basics
  import opened Text
  import opened Framing
  import opened Messages
  import opened Registry
  import opened ChatSystem
  import opened Flows
  import opened Invariant
  import opened History
  import opened Wire
  import opened Refinement
  import opened Server
  import opened Clients
  import opened ByteRuns
  import opened ByteSystem

  // ----- what agrees

  /** The buffer, then the data of the channel, is this. */
  ghost predicate Holds(buffer: string, inbox: seq<string>, data: seq<string>) {
    if buffer == "" then inbox == data
    else inbox != [] && inbox[0] != "" && data == [buffer + inbox[0]] + inbox[1..]
  }

  ghost predicate PeerAgrees(n: Peer, c: Client) {
    && n.name == c.name && n.login == c.login && n.partners == c.partners && n.thread == c.thread
    && n.outbox == Encoded(c.outbox)
    && Holds(n.buffer, n.inbox, Encoded(c.inbox))
  }

  ghost predicate Agrees(b: Net, s: System) {
    && |b.peers| == |s.clients| && b.users == s.users
    && forall k :: 0 <= k < |s.clients| ==> PeerAgrees(b.peers[k], s.clients[k])
  }

  /** A line that is /chat with a name and a text, or another command, or none; cut short or not. */
  ghost predicate IsLine(line: string) {
    || ParseCommand(line) in {Ignored, Help, ListCommand, LogoutCommand}
    || exists b, text :: IsChat(line, b, text)
  }

  ghost predicate IsChat(line: string, b: string, text: string) {
    line == "/chat" + " " + (b + " " + text) && IsName(b) && IsText(text, true)
  }

  ghost predicate ProperMoves(moves: seq<Move>) {
    forall mv :: mv in moves && mv.Types? ==> IsLine(mv.line)
  }

  // ----- one client

  lemma EncodedFirst(q: seq<Msg>)
    requires q != []
    ensures Encoded(q) == [Terminated(Show(q[0]))] + Encoded(q[1..])
  {
    assert q == [q[0]] + q[1..];
    EncodedJoins([q[0]], q[1..]);
    EncodedOne(q[0]);
  }

  lemma HoldsMore(buffer: string, inbox: seq<string>, data: seq<string>, more: seq<string>)
    requires Holds(buffer, inbox, data)
    ensures Holds(buffer, inbox + more, data + more)
  {
    if buffer != "" {
      assert (inbox + more)[1..] == inbox[1..] + more;
    }
  }

  lemma AffectedAgrees(n: Peer, c: Client, st: Step, said: seq<Msg>)
    requires PeerAgrees(n, c) && !st.Serve? && !st.Receive?
    requires Moved(c, st).outbox == c.outbox + said
    ensures PeerAgrees(Affected(n, StepEffect(c, st, said)), Moved(c, st))
  {
    EncodedJoins(c.outbox, said);
  }

  /** The first message of the channel, and what is read of it. */
  lemma ReadOfFirst(n: Peer, c: Client, size: nat)
    requires PeerAgrees(n, c) && CanRead(n, size)
    ensures c.inbox != [] && Terminated(Show(c.inbox[0])) == n.buffer + n.inbox[0]
    ensures Encoded(c.inbox[1..]) == n.inbox[1..]
  {
    EncodedFirst(c.inbox);
    assert Encoded(c.inbox)[1..] == Encoded(c.inbox[1..]);
  }

  /** A read that leaves some of the message changes nothing in the protocol. */
  lemma PartIsNoStep(n: Peer, c: Client, size: nat)
    requires PeerAgrees(n, c) && CanRead(n, size) && size < |n.inbox[0]|
    requires c.inbox != [] && Framable(Show(c.inbox[0]))
    ensures PeerAgrees(ReadSome(n, size), c)
  {
    ReadOfFirst(n, c, size);
    var body, first := Show(c.inbox[0]), n.inbox[0];
    var s := n.buffer + first[..size];
    assert Terminated(body) == s + first[size..];
    assert s == Terminated(body)[..|s|];
    NoEarlyFrame(body, s);
    assert Feed(n.buffer, first[..size]) == Fed(s, None);
    EncodedFirst(c.inbox);
  }

  /** A read of the rest of the message is the step that receives it. */
  lemma RestIsStep(n: Peer, c: Client, p: Membership, i: nat)
    requires PeerAgrees(n, c) && n.inbox != [] && CanRead(n, |n.inbox[0]|)
    requires Phase(c, p) && c.inbox != [] && WellNamed(c.inbox[0])
    ensures PeerAgrees(ReadSome(n, |n.inbox[0]|), Moved(c, Receive(i)))
  {
    var body := Show(c.inbox[0]);
    ReadOfFirst(n, c, |n.inbox[0]|);
    assert n.inbox[0][..|n.inbox[0]|] == n.inbox[0];
    WholeFrame(body);
    assert Feed(n.buffer, n.inbox[0]) == Fed("", Some(body));
    FrameIsStep(c, p, i);
    EncodedJoins(c.outbox, React(c, c.inbox[0]).replies);
  }

  // ----- the server

  lemma WrittenAgrees(n: Peer, c: Client, sends: seq<Send>, k: nat)
    requires PeerAgrees(n, c)
    ensures PeerAgrees(n.(inbox := n.inbox + DataOf(Packets(sends), k)),
                       c.(inbox := c.inbox + Addressed(sends, k)))
  {
    SendsAreData(sends, k);
    EncodedJoins(c.inbox, Addressed(sends, k));
    HoldsMore(n.buffer, n.inbox, Encoded(c.inbox), Encoded(Addressed(sends, k)));
  }

  lemma ServedAgrees(n: Peer, c: Client, thread: Thread)
    requires PeerAgrees(n, c) && c.outbox != []
    ensures n.outbox != [] && n.outbox[0] == Terminated(Show(c.outbox[0]))
    ensures PeerAgrees(n.(outbox := n.outbox[1..], thread := thread), c.(outbox := c.outbox[1..], thread := thread))
  {
    EncodedFirst(c.outbox);
    assert Encoded(c.outbox)[1..] == Encoded(c.outbox[1..]);
  }

  // ----- one step

  ghost predicate Good(s: System) {
    Inv(s) && ProperState(s, true)
  }

  lemma OnlyOneMoves(b: Net, s: System, mv: Move, st: Step)
    requires Agrees(b, s) && CanMove(b, mv) && Enabled(s, st) && mv.i == st.i && !mv.Serves? && !st.Serve?
    requires PeerAgrees(Moving(b.peers[mv.i], mv), Moved(s.clients[mv.i], st))
    ensures Agrees(Go(b, mv), Next(s, st))
  {
    forall k | 0 <= k < |s.clients| ensures PeerAgrees(Go(b, mv).peers[k], Next(s, st).clients[k]) {
      NextClient(s, st, k);
      assert PeerAgrees(b.peers[k], s.clients[k]);
    }
  }

  lemma ServeAgrees(b: Net, s: System, i: nat)
    requires Agrees(b, s) && Good(s) && Enabled(s, Serve(i))
    ensures CanMove(b, Serves(i)) && Agrees(Go(b, Serves(i)), Next(s, Serve(i)))
  {
    var c, n := s.clients[i], b.peers[i];
    var m := c.outbox[0];
    var r := Handle(s.users, i, m);
    assert PeerAgrees(n, c) && m in c.outbox;
    HeadIsServable(s, i);
    RequestIsProper(s.users, i, c.name, m);
    ServedAgrees(n, c, r.thread);
    forall k | 0 <= k < |s.clients| ensures PeerAgrees(Go(b, Serves(i)).peers[k], Next(s, Serve(i)).clients[k]) {
      NextClient(s, Serve(i), k);
      assert PeerAgrees(b.peers[k], s.clients[k]);
      if k == i {
        WrittenAgrees(n.(outbox := n.outbox[1..], thread := r.thread), c.(outbox := c.outbox[1..], thread := r.thread),
                      r.sends, k);
      } else {
        WrittenAgrees(b.peers[k], s.clients[k], r.sends, k);
      }
    }
  }

  lemma NothingMoves(b: Net, s: System, mv: Move)
    requires Agrees(b, s) && CanMove(b, mv) && !mv.Serves?
    requires PeerAgrees(Moving(b.peers[mv.i], mv), s.clients[mv.i])
    ensures Agrees(Go(b, mv), s)
  {
    forall k | 0 <= k < |s.clients| ensures PeerAgrees(Go(b, mv).peers[k], s.clients[k]) {
      assert PeerAgrees(b.peers[k], s.clients[k]);
    }
  }

  lemma HeadIsFramable(s: System, i: nat)
    requires Good(s) && i < |s.clients| && s.clients[i].inbox != []
    ensures Phase(s.clients[i], Member(s.log, i))
    ensures WellNamed(s.clients[i].inbox[0]) && Framable(Show(s.clients[i].inbox[0]))
  {
    var m := s.clients[i].inbox[0];
    assert m in s.clients[i].inbox;
    ProperText(m);
    FramableIff(Show(m));
  }

  /** What a read does: nothing, or the step that receives the message. */
  lemma ReadAgrees(b: Net, s: System, i: nat, size: nat)
    requires Agrees(b, s) && Good(s) && CanMove(b, Reads(i, size))
    ensures Enabled(s, Receive(i))
    ensures Agrees(Go(b, Reads(i, size)), if size < |b.peers[i].inbox[0]| then s else Next(s, Receive(i)))
  {
    var n, c := b.peers[i], s.clients[i];
    assert PeerAgrees(n, c);
    ReadOfFirst(n, c, size);
    HeadIsFramable(s, i);
    if size < |n.inbox[0]| {
      PartIsNoStep(n, c, size);
      NothingMoves(b, s, Reads(i, size));
    } else {
      RestIsStep(n, c, Member(s.log, i), i);
      OnlyOneMoves(b, s, Reads(i, size), Receive(i));
    }
  }

  lemma DialAgrees(b: Net, s: System, i: nat)
    requires Agrees(b, s) && i < |s.clients| && s.clients[i].login == Start
    ensures CanMove(b, Dials(i)) && Agrees(Go(b, Dials(i)), Next(s, Connect(i)))
  {
    assert PeerAgrees(b.peers[i], s.clients[i]);
    EncodedOne(Me2u);
    AffectedAgrees(b.peers[i], s.clients[i], Connect(i), [Me2u]);
    OnlyOneMoves(b, s, Dials(i), Connect(i));
  }

  lemma ChatAgrees(b: Net, s: System, i: nat, to: string, text: string)
    requires Agrees(b, s) && i < |s.clients| && s.clients[i].login == Chatting && IsName(to)
    ensures var mv := Types(i, "/chat" + " " + (to + " " + text));
            CanMove(b, mv) && Agrees(Go(b, mv), Next(s, Chat(i, to, text)))
  {
    var c := s.clients[i];
    assert PeerAgrees(b.peers[i], c);
    ChatLineIsStep(c, i, to, text);
    AffectedAgrees(b.peers[i], c, Chat(i, to, text), [To(to, text)]);
    OnlyOneMoves(b, s, Types(i, "/chat" + " " + (to + " " + text)), Chat(i, to, text));
  }

  lemma CommandAgrees(b: Net, s: System, i: nat, line: string)
    requires Agrees(b, s) && i < |s.clients| && s.clients[i].login == Chatting
    requires ParseCommand(line) in {Ignored, Help, ListCommand, LogoutCommand}
    ensures CanMove(b, Types(i, line))
    ensures Agrees(Go(b, Types(i, line)),
                   if ParseCommand(line) == ListCommand then Next(s, List(i))
                   else if ParseCommand(line) == LogoutCommand then Next(s, Logout(i))
                   else s)
  {
    var n, c := b.peers[i], s.clients[i];
    assert PeerAgrees(n, c);
    if ParseCommand(line) == ListCommand {
      ListLineIsStep(c, i, line);
      AffectedAgrees(n, c, List(i), [Listu]);
      OnlyOneMoves(b, s, Types(i, line), List(i));
    } else if ParseCommand(line) == LogoutCommand {
      LogoutLineIsStep(c, i, line);
      AffectedAgrees(n, c, Logout(i), [Bye]);
      OnlyOneMoves(b, s, Types(i, line), Logout(i));
    } else {
      assert n.outbox + [] == n.outbox;
      NothingMoves(b, s, Types(i, line));
    }
  }

  // ----- every run on bytes is a run of the protocol

  ghost predicate AreNames(names: seq<string>) {
    forall n :: n in names ==> IsName(n)
  }

  /** The steps that one move stands for: one, or none. */
  lemma MoveIsSteps(b: Net, s: System, mv: Move) returns (more: seq<Step>)
    requires Agrees(b, s) && Good(s) && (mv.Types? ==> IsLine(mv.line))
    ensures |more| <= 1 && ProperInput(more, true)
    ensures Agrees(Go(b, mv), if more == [] then s else Next(s, more[0]))
  {
    more := [];
    if CanMove(b, mv) {
      var c := s.clients[mv.i];
      assert PeerAgrees(b.peers[mv.i], c);
      match mv {
        case Dials(i) =>
          DialAgrees(b, s, i);
          more := [Connect(i)];
        case Reads(i, size) =>
          ReadAgrees(b, s, i, size);
          more := if size < |b.peers[i].inbox[0]| then [] else [Receive(i)];
        case Types(i, line) =>
          if to, text :| IsChat(line, to, text) {
            ChatAgrees(b, s, i, to, text);
            more := [Chat(i, to, text)];
          } else {
            CommandAgrees(b, s, i, line);
            more := if ParseCommand(line) == ListCommand then [List(i)]
                    else if ParseCommand(line) == LogoutCommand then [Logout(i)] else [];
          }
        case Serves(i) =>
          ServeAgrees(b, s, i);
          more := [Serve(i)];
      }
    }
  }

  lemma GoodRun(names: seq<string>, steps: seq<Step>) returns (s: System)
    requires AreNames(names) && ProperInput(steps, true)
    ensures s == Exec(Init(names), steps) && |s.clients| == |names| && Good(s)
  {
    s := Reached(names, steps);
    ProperRun(names, steps, true);
  }

  lemma {:induction false} BytesFollow(names: seq<string>, moves: seq<Move>) returns (steps: seq<Step>)
    requires AreNames(names) && ProperMoves(moves)
    ensures ProperInput(steps, true) && Agrees(Run(Begin(names), moves), Exec(Init(names), steps))
  {
    if moves == [] {
      steps := [];
    } else {
      assert Last(moves) in moves;
      steps := BytesFollow(names, Front(moves));
      var s := GoodRun(names, steps);
      var more := MoveIsSteps(Run(Begin(names), Front(moves)), s, Last(moves));
      if more != [] {
        assert more == [more[0]] && more[0] in more;
        Snoc(steps, more[0]);
        steps := steps + more;
      }
    }
  }

  // ----- and every run of the protocol is one on bytes

  lemma MoveOn(names: seq<string>, moves: seq<Move>, mv: Move) returns (more: seq<Move>)
    requires ProperMoves(moves) && (mv.Types? ==> IsLine(mv.line))
    ensures ProperMoves(more) && Run(Begin(names), more) == Go(Run(Begin(names), moves), mv)
  {
    more := moves + [mv];
    Snoc(moves, mv);
  }

  /** A message is read in as many chunks as it takes. */
  lemma ReceiveIsReads(names: seq<string>, moves: seq<Move>, s: System, i: nat) returns (more: seq<Move>)
    requires ProperMoves(moves) && Agrees(Run(Begin(names), moves), s) && Good(s) && Enabled(s, Receive(i))
    ensures ProperMoves(more) && Agrees(Run(Begin(names), more), Next(s, Receive(i)))
    decreases |Run(Begin(names), moves).peers[i].inbox[0]|
  {
    var b := Run(Begin(names), moves);
    SomethingToRead(b.peers[i], s.clients[i]);
    var left := |b.peers[i].inbox[0]|;
    var size := if left < MAXLINE then left else MAXLINE;
    ReadAgrees(b, s, i, size);
    more := MoveOn(names, moves, Reads(i, size));
    if size < left {
      more := ReceiveIsReads(names, more, s, i);
    }
  }

  lemma SomethingToRead(n: Peer, c: Client)
    requires PeerAgrees(n, c) && c.inbox != []
    ensures n.inbox != [] && n.inbox[0] != ""
  {
    EncodedFirst(c.inbox);
  }

  lemma StepIsMoves(names: seq<string>, moves: seq<Move>, s: System, st: Step) returns (more: seq<Move>)
    requires ProperMoves(moves) && Agrees(Run(Begin(names), moves), s) && Good(s)
    requires st.Chat? ==> IsName(st.b) && IsText(st.text, true)
    ensures ProperMoves(more) && Agrees(Run(Begin(names), more), Next(s, st))
  {
    more := moves;
    if Enabled(s, st) {
      var b := Run(Begin(names), moves);
      match st {
        case Connect(i) =>
          DialAgrees(b, s, i);
          more := MoveOn(names, moves, Dials(i));
        case Receive(i) =>
          more := ReceiveIsReads(names, moves, s, i);
        case Chat(i, to, text) =>
          ChatAgrees(b, s, i, to, text);
          assert IsChat("/chat" + " " + (to + " " + text), to, text);
          more := MoveOn(names, moves, Types(i, "/chat" + " " + (to + " " + text)));
        case List(i) =>
          BareCommandIsRead(ListCommand);
          CommandAgrees(b, s, i, CommandText(ListCommand) + "\n");
          more := MoveOn(names, moves, Types(i, CommandText(ListCommand) + "\n"));
        case Logout(i) =>
          BareCommandIsRead(LogoutCommand);
          CommandAgrees(b, s, i, CommandText(LogoutCommand) + "\n");
          more := MoveOn(names, moves, Types(i, CommandText(LogoutCommand) + "\n"));
        case Serve(i) =>
          ServeAgrees(b, s, i);
          more := MoveOn(names, moves, Serves(i));
      }
    }
  }

  lemma {:induction false} ProtocolIsFollowed(names: seq<string>, steps: seq<Step>) returns (moves: seq<Move>)
    requires AreNames(names) && ProperInput(steps, true)
    ensures ProperMoves(moves) && Agrees(Run(Begin(names), moves), Exec(Init(names), steps))
  {
    if steps == [] {
      moves := [];
    } else {
      var st := Last(steps);
      assert st in steps;
      moves := ProtocolIsFollowed(names, Front(steps));
      var s := GoodRun(names, Front(steps));
      moves := StepIsMoves(names, moves, s, st);
    }
  }
}
