/**
 Whole runs on bytes. The server is folded over the bytes that reach it, and each client over the
 chunks that reach it and the lines typed into it; both end where the protocol's run ends.
 */
module ByteRuns {
  import opened Basics
  import opened Text
  import opened Framing
  import opened Messages
  import opened Registry
  import opened ChatSystem
  import opened Flows
  import opened Invariant
  import opened History
  import opened Wire
  import opened Handshake
  import opened EndToEnd
  import opened Refinement
  import opened Server
  import opened Clients

  // ----- the server on bytes

  datatype TextServer = TextServer(users: seq<User>, sent: seq<Packet>)

  /** The server after it has received these packets. */
  function ServerRun(received: seq<Packet>): TextServer {
    if received == [] then TextServer([], [])
    else
      var t, last := ServerRun(Front(received)), Last(received);
      var r := HandleText(t.users, last.conn, Strip(last.data));
      TextServer(r.users, t.sent + Packets(r.sends))
  }

  /** The data of the packets to or from connection `k`. */
  function DataOf(packets: seq<Packet>, k: nat): seq<string> {
    if packets == [] then []
    else DataOf(Front(packets), k) + (if Last(packets).conn == k then [Last(packets).data] else [])
  }

  lemma {:induction false} DataJoins(p: seq<Packet>, q: seq<Packet>, k: nat)
    ensures DataOf(p + q, k) == DataOf(p, k) + DataOf(q, k)
  {
    if q == [] {
      assert p + q == p;
    } else {
      assert Front(p + q) == p + Front(q) && Last(p + q) == Last(q);
      DataJoins(p, Front(q), k);
    }
  }

  lemma DataOfOne(p: Packet, k: nat)
    ensures DataOf([p], k) == if p.conn == k then [p.data] else []
  {
    assert Front([p]) == [];
  }

  lemma FirstOfPackets(x: Send, rest: seq<Send>, k: nat)
    requires DataOf(Packets(rest), k) == Encoded(Addressed(rest, k))
    ensures DataOf(Packets([x] + rest), k) == Encoded(Addressed([x] + rest, k))
  {
    var p := Packet(x.conn, Terminated(Show(x.msg)));
    PacketsShort(x, rest);
    DataJoins([p], Packets(rest), k);
    DataOfOne(p, k);
    assert ([x] + rest)[1..] == rest && [] + Addressed(rest, k) == Addressed(rest, k);
    if x.conn == k {
      EncodedJoins([x.msg], Addressed(rest, k));
      EncodedOne(x.msg);
    } else {
      assert [] + DataOf(Packets(rest), k) == DataOf(Packets(rest), k);
    }
  }

  /** What is sent to `k` is written to `k`. */
  lemma {:induction false} SendsAreData(sends: seq<Send>, k: nat)
    ensures DataOf(Packets(sends), k) == Encoded(Addressed(sends, k))
  {
    if sends == [] {
    } else {
      SendsAreData(sends[1..], k);
      FirstOfPackets(sends[0], sends[1..], k);
      assert sends == [sends[0]] + sends[1..];
    }
  }

  // ----- a client on bytes

  datatype TextClient = TextClient(login: Login, partners: seq<string>, written: seq<string>, read: nat)

  /** What a client does next: it dials, reads a frame, or is typed a line into. */
  datatype Act = Dial | ReadNext | Type(line: string)

  /** The login state for what the login has come to. */
  function LoginOf(o: Outcome): Login {
    match o
    case Waiting(n) => if n == 1 then Hello else if n == 3 then Naming else if n == 4 then Approved else Chatting
    case Taken => Rejected
    case BadFrame => Failed
  }

  function LoginAfter(status: Status, login: Login): Login {
    match status
    case Going => login
    case Over => Gone
    case Error => Failed
  }

  /** What a frame or a line does to a client: its state, its partners, and what it writes. */
  datatype Effect = Effect(login: Login, partners: seq<string>, writes: seq<string>)

  /** A client reads a whole frame. */
  function ReadFrame(login: Login, partners: seq<string>, name: string, frame: string): Effect {
    if login in {Hello, Naming, Approved} then
      var o := StateOf(login);
      Effect(LoginOf(Advance(o, frame)), partners, NameWrite(name, o, frame))
    else
      var r := ChatReaction(partners, login == Leaving, frame);
      Effect(LoginAfter(r.status, login), r.partners, r.replies)
  }

  function TypeLine(login: Login, partners: seq<string>, line: string): Effect {
    var m := ObeyLine(partners, ParseCommand(line), line);
    Effect(LoginAfter(m.status, if m.leaving then Leaving else login), m.partners, m.writes)
  }

  function Take(t: TextClient, e: Effect, count: nat): TextClient {
    TextClient(e.login, e.partners, t.written + e.writes, t.read + count)
  }

  function TakeAct(t: TextClient, name: string, frames: seq<string>, act: Act): TextClient {
    match act
    case Dial => Take(t, Effect(Hello, t.partners, [Terminated("ME2U")]), 0)
    case ReadNext => if t.read < |frames| then Take(t, ReadFrame(t.login, t.partners, name, frames[t.read]), 1) else t
    case Type(line) => Take(t, TypeLine(t.login, t.partners, line), 0)
  }

  /** A client after these acts, when its receive buffer returns these frames. */
  function ClientRun(name: string, frames: seq<string>, acts: seq<Act>): TextClient {
    if acts == [] then TextClient(Start, [], [], 0)
    else TakeAct(ClientRun(name, frames, Front(acts)), name, frames, Last(acts))
  }

  // ----- one act is one step

  /** What the user types, or the client does, in a step. */
  function ActOf(st: Step): Act
    requires !st.Serve?
  {
    match st
    case Connect(_) => Dial
    case Receive(_) => ReadNext
    case Chat(_, b, text) => Type("/chat" + " " + (b + " " + text))
    case List(_) => Type(CommandText(ListCommand) + "\n")
    case Logout(_) => Type(CommandText(LogoutCommand) + "\n")
  }

  /** The client on bytes that is where `c` is. */
  function Image(c: Client, said: seq<Msg>, read: nat): TextClient {
    TextClient(c.login, c.partners, Encoded(said), read)
  }

  lemma WordThenNewline(word: string)
    requires forall k :: 0 <= k < |word| ==> !IsBreak(word[k])
    ensures Word(word + "\n") == word
  {
    WordLengthIs(word + "\n", |word|);
    assert (word + "\n")[..|word|] == word;
  }

  /** What step `st` does to client `c`, when it sends `said`. */
  function StepEffect(c: Client, st: Step, said: seq<Msg>): Effect
    requires st.Receive? ==> c.inbox != []
    requires !st.Serve?
  {
    Effect(Moved(c, st).login, Moved(c, st).partners, Encoded(said))
  }

  lemma ChatLineIsStep(c: Client, i: nat, b: string, text: string)
    requires c.login == Chatting && IsName(b)
    ensures TypeLine(c.login, c.partners, "/chat" + " " + (b + " " + text))
            == StepEffect(c, Chat(i, b, text), [To(b, text)])
  {
    ChatLineIsRequest(c.partners, b, text);
    EncodedOne(To(b, text));
  }

  lemma BareCommandIsRead(c: Command)
    requires c == ListCommand || c == LogoutCommand
    ensures ParseCommand(CommandText(c) + "\n") == c
  {
    WordThenNewline(CommandText(c));
    CommandsAreObeyed(CommandText(c) + "\n", c);
  }

  lemma ListLineIsStep(c: Client, i: nat, line: string)
    requires c.login == Chatting && ParseCommand(line) == ListCommand
    ensures TypeLine(c.login, c.partners, line) == StepEffect(c, List(i), [Listu])
  {
    EncodedOne(Listu);
  }

  lemma LogoutLineIsStep(c: Client, i: nat, line: string)
    requires c.login == Chatting && ParseCommand(line) == LogoutCommand
    ensures TypeLine(c.login, c.partners, line) == StepEffect(c, Logout(i), [Bye])
  {
    EncodedOne(Bye);
  }

  lemma LoginFrameIsStep(c: Client, p: Membership, i: nat)
    requires Phase(c, p) && c.inbox != [] && c.login in {Hello, Naming, Approved}
    ensures ReadFrame(c.login, c.partners, c.name, Show(c.inbox[0]))
            == StepEffect(c, Receive(i), React(c, c.inbox[0]).replies)
  {
    LoginFramesAgree(c, c.inbox[0]);
    EncodedOne(Iam(c.name));
  }

  lemma ChatFrameIsStep(c: Client, i: nat)
    requires c.inbox != [] && (c.login == Chatting || c.login == Leaving)
    requires VerbOf(c.inbox[0]).Some? && WellNamed(c.inbox[0])
    ensures ReadFrame(c.login, c.partners, c.name, Show(c.inbox[0]))
            == StepEffect(c, Receive(i), React(c, c.inbox[0]).replies)
  {
    FramesAgree(c, c.inbox[0]);
  }

  lemma FrameIsStep(c: Client, p: Membership, i: nat)
    requires Phase(c, p) && c.inbox != [] && WellNamed(c.inbox[0])
    requires c.login in {Hello, Naming, Approved, Chatting, Leaving}
    ensures ReadFrame(c.login, c.partners, c.name, Show(c.inbox[0]))
            == StepEffect(c, Receive(i), React(c, c.inbox[0]).replies)
  {
    if c.login == Chatting || c.login == Leaving {
      assert InChat(c.inbox[0]) || c.inbox[0] == Eyb;
      ChatFrameIsStep(c, i);
    } else {
      LoginFrameIsStep(c, p, i);
    }
  }

  // ----- the login

  /** A client dials, and then reads so many frames. */
  function DialAndRead(n: nat): seq<Act> {
    if n == 0 then [Dial] else DialAndRead(n - 1) + [ReadNext]
  }

  /**
   What the login writes, and where it ends, is what a client does that dials and reads the frames: ME2U
   before anything else, and the name after U2EM.
   */
  lemma {:induction false} LoginIsRun(name: string, frames: seq<string>, more: seq<string>)
    requires Awaited(frames)
    ensures var t := ClientRun(name, frames + more, DialAndRead(|frames|));
            && t.written == LoginWrites(name, frames) && t.login == LoginOf(Progress(frames))
            && t.partners == [] && t.read == |frames|
    ensures LoginWrites(name, frames)
            == Encoded(if frames != [] && frames[0] == "U2EM" then [Me2u, Iam(name)] else [Me2u])
  {
    WritesAreEncoded(name);
    if frames == [] {
      assert Front([Dial]) == [];
    } else {
      var front, last := Front(frames), Last(frames);
      assert frames + more == front + ([last] + more) && frames == front + [last];
      LoginIsRun(name, front, [last] + more);
      var t := ClientRun(name, frames + more, DialAndRead(|front|));
      Snoc(DialAndRead(|front|), ReadNext);
      assert (frames + more)[|front|] == last;
      LoginReads(t, name, Progress(front), frames + more);
      NextFrame(front, last, name);
    }
  }

  lemma LoginReads(t: TextClient, name: string, o: Outcome, frames: seq<string>)
    requires o in {Waiting(1), Waiting(3), Waiting(4)} && t.login == LoginOf(o) && t.read < |frames|
    ensures TakeAct(t, name, frames, ReadNext)
            == TextClient(LoginOf(Advance(o, frames[t.read])), t.partners,
                          t.written + NameWrite(name, o, frames[t.read]), t.read + 1)
  {
  }

  lemma WritesAreEncoded(name: string)
    ensures Encoded([Me2u]) == [Terminated("ME2U")]
    ensures Encoded([Me2u, Iam(name)]) == [Terminated("ME2U")] + [Terminated(Show(Iam(name)))]
  {
    EncodedOne(Me2u);
    EncodedOne(Iam(name));
    assert [Me2u, Iam(name)] == [Me2u] + [Iam(name)];
    EncodedJoins([Me2u], [Iam(name)]);
  }

  // ----- what has gone through the channels of client `k`

  /** All frames that the server has sent to `k`. */
  function Arrived(names: seq<string>, steps: seq<Step>, k: nat): seq<Msg>
    requires k < |names|
  {
    if steps == [] then []
    else
      var s, st := Exec(Init(names), Front(steps)), Last(steps);
      Arrived(names, Front(steps), k) + (if Enabled(s, st) then Pushed(s, st, k, true) else [])
  }

  /** All frames that `k` has sent. */
  function Uttered(names: seq<string>, steps: seq<Step>, k: nat): seq<Msg>
    requires k < |names|
  {
    if steps == [] then []
    else
      var s, st := Exec(Init(names), Front(steps)), Last(steps);
      Uttered(names, Front(steps), k) + (if Enabled(s, st) then Pushed(s, st, k, false) else [])
  }

  /** The frames that have left the channel to `k`, or from `k`. */
  function Drained(names: seq<string>, steps: seq<Step>, k: nat, inward: bool): seq<Msg>
    requires k < |names|
  {
    if steps == [] then []
    else
      var s, st := Exec(Init(names), Front(steps)), Last(steps);
      Drained(names, Front(steps), k, inward) + (if Enabled(s, st) then Popped(s, st, k, inward) else [])
  }

  /** The channels are queues. */
  lemma {:induction false} QueuesHold(names: seq<string>, steps: seq<Step>, k: nat)
    requires k < |names|
    ensures var c := Exec(Init(names), steps).clients[k];
            && Arrived(names, steps, k) == Drained(names, steps, k, true) + c.inbox
            && Uttered(names, steps, k) == Drained(names, steps, k, false) + c.outbox
  {
    if steps == [] {
    } else {
      var front, s, st := Front(steps), Exec(Init(names), Front(steps)), Last(steps);
      QueuesHold(names, front, k);
      if Enabled(s, st) {
        var c, d := s.clients[k], Next(s, st).clients[k];
        Channels(s, st, k);
        Splice(Arrived(names, front, k), Drained(names, front, k, true), c.inbox, d.inbox,
               Pushed(s, st, k, true), Popped(s, st, k, true));
        Splice(Uttered(names, front, k), Drained(names, front, k, false), c.outbox, d.outbox,
               Pushed(s, st, k, false), Popped(s, st, k, false));
      }
    }
  }

  // ----- the server's run

  /** The packets that the server has received. */
  function Requests(names: seq<string>, steps: seq<Step>): seq<Packet> {
    if steps == [] then []
    else
      var s, st := Exec(Init(names), Front(steps)), Last(steps);
      Requests(names, Front(steps))
      + (if st.Serve? && Enabled(s, st) then [Packet(st.i, Terminated(Show(s.clients[st.i].outbox[0])))] else [])
  }

  ghost predicate ProperRunInput(names: seq<string>, steps: seq<Step>) {
    (forall n :: n in names ==> IsName(n)) && ProperInput(steps, false)
  }

  lemma ProperFront(names: seq<string>, steps: seq<Step>)
    requires steps != [] && ProperRunInput(names, steps)
    ensures ProperRunInput(names, Front(steps))
    ensures Last(steps).Chat? ==> IsName(Last(steps).b)
  {
    assert Last(steps) in steps;
  }

  /** The text of a served frame is handled as the step handles the frame. */
  lemma ServedText(names: seq<string>, steps: seq<Step>, i: nat)
    requires ProperRunInput(names, steps) && Enabled(Exec(Init(names), steps), Serve(i))
    ensures var s := Exec(Init(names), steps);
            HandleText(s.users, i, Strip(Terminated(Show(s.clients[i].outbox[0]))))
            == Handle(s.users, i, s.clients[i].outbox[0])
  {
    StepsAreByteSteps(names, steps, i);
  }

  /** The server receives one more packet. */
  lemma ServerMoves(received: seq<Packet>, i: nat, m: Msg)
    requires var users := ServerRun(received).users;
             HandleText(users, i, Strip(Terminated(Show(m)))) == Handle(users, i, m)
    ensures var t, r := ServerRun(received), Handle(ServerRun(received).users, i, m);
            ServerRun(received + [Packet(i, Terminated(Show(m)))]) == TextServer(r.users, t.sent + Packets(r.sends))
  {
    Snoc(received, Packet(i, Terminated(Show(m))));
  }

  lemma NextUsers(s: System, st: Step)
    ensures Next(s, st).users
            == if st.Serve? && Enabled(s, st) then Handle(s.users, st.i, s.clients[st.i].outbox[0]).users else s.users
  {
  }

  lemma {:induction false} ServerFollows(names: seq<string>, steps: seq<Step>)
    requires ProperRunInput(names, steps)
    ensures ServerRun(Requests(names, steps)).users == Exec(Init(names), steps).users
  {
    if steps == [] {
    } else {
      var s, st := Exec(Init(names), Front(steps)), Last(steps);
      ProperFront(names, steps);
      ServerFollows(names, Front(steps));
      NextUsers(s, st);
      if st.Serve? && Enabled(s, st) {
        ServedText(names, Front(steps), st.i);
        ServerMoves(Requests(names, Front(steps)), st.i, s.clients[st.i].outbox[0]);
      } else {
        assert Requests(names, steps) == Requests(names, Front(steps));
      }
    }
  }

  /** What one packet makes the server write to `k`. */
  lemma ServerAnswers(received: seq<Packet>, i: nat, m: Msg, k: nat, before: seq<Msg>)
    requires var users := ServerRun(received).users;
             HandleText(users, i, Strip(Terminated(Show(m)))) == Handle(users, i, m)
    requires DataOf(ServerRun(received).sent, k) == Encoded(before)
    ensures var sends := Handle(ServerRun(received).users, i, m).sends;
            DataOf(ServerRun(received + [Packet(i, Terminated(Show(m)))]).sent, k)
            == Encoded(before + Addressed(sends, k))
  {
    ServerMoves(received, i, m);
    var sends := Handle(ServerRun(received).users, i, m).sends;
    DataJoins(ServerRun(received).sent, Packets(sends), k);
    SendsAreData(sends, k);
    EncodedJoins(before, Addressed(sends, k));
  }

  lemma {:induction false} ServerWrites(names: seq<string>, steps: seq<Step>, k: nat)
    requires ProperRunInput(names, steps) && k < |names|
    ensures DataOf(ServerRun(Requests(names, steps)).sent, k) == Encoded(Arrived(names, steps, k))
  {
    if steps == [] {
    } else {
      var front, s, st := Front(steps), Exec(Init(names), Front(steps)), Last(steps);
      ProperFront(names, steps);
      ServerWrites(names, front, k);
      if st.Serve? && Enabled(s, st) {
        ServerFollows(names, front);
        ServedText(names, front, st.i);
        ServerAnswers(Requests(names, front), st.i, s.clients[st.i].outbox[0], k, Arrived(names, front, k));
      } else {
        assert Requests(names, steps) == Requests(names, front);
        assert Arrived(names, steps, k) == Arrived(names, front, k);
      }
    }
  }

  lemma OnePacketMore(received: seq<Packet>, i: nat, m: Msg, k: nat, before: seq<Msg>)
    requires DataOf(received, k) == Encoded(before)
    ensures DataOf(received + [Packet(i, Terminated(Show(m)))], k)
            == Encoded(before + if i == k then [m] else [])
  {
    var p := Packet(i, Terminated(Show(m)));
    DataJoins(received, [p], k);
    DataOfOne(p, k);
    EncodedJoins(before, if i == k then [m] else []);
    EncodedOne(m);
  }

  lemma {:induction false} ServerReceives(names: seq<string>, steps: seq<Step>, k: nat)
    requires k < |names|
    ensures DataOf(Requests(names, steps), k) == Encoded(Drained(names, steps, k, false))
  {
    if steps == [] {
    } else {
      var front, s, st := Front(steps), Exec(Init(names), Front(steps)), Last(steps);
      ServerReceives(names, front, k);
      if st.Serve? && Enabled(s, st) {
        OnePacketMore(Requests(names, front), st.i, s.clients[st.i].outbox[0], k, Drained(names, front, k, false));
      } else {
        assert Requests(names, steps) == Requests(names, front);
        assert Drained(names, steps, k, false) == Drained(names, front, k, false);
      }
    }
  }

  // ----- a client's run

  /** What client `k` does in the run. */
  function Acts(names: seq<string>, steps: seq<Step>, k: nat): seq<Act> {
    if steps == [] then []
    else
      var s, st := Exec(Init(names), Front(steps)), Last(steps);
      Acts(names, Front(steps), k) + (if st.i == k && !st.Serve? && Enabled(s, st) then [ActOf(st)] else [])
  }

  function Shows(ms: seq<Msg>): (r: seq<string>)
    ensures |r| == |ms|
    ensures forall n :: 0 <= n < |r| ==> r[n] == Show(ms[n])
  {
    seq(|ms|, n requires 0 <= n < |ms| => Show(ms[n]))
  }

  lemma EffectIsTaken(c: Client, st: Step, said: seq<Msg>, more: seq<Msg>, read: nat, count: nat)
    requires !st.Serve? && (st.Receive? ==> c.inbox != [])
    ensures Take(Image(c, said, read), StepEffect(c, st, more), count) == Image(Moved(c, st), said + more, read + count)
  {
    EncodedJoins(said, more);
  }

  lemma ActIsStep(s: System, st: Step, k: nat, frames: seq<string>, said: seq<Msg>, read: nat)
    requires Inv(s) && ProperState(s, false) && Enabled(s, st) && st.i == k && !st.Serve?
    requires st.Chat? ==> IsName(st.b)
    requires st.Receive? ==> read < |frames| && frames[read] == Show(s.clients[k].inbox[0])
    ensures TakeAct(Image(s.clients[k], said, read), s.clients[k].name, frames, ActOf(st))
            == Image(Next(s, st).clients[k], said + Pushed(s, st, k, false), read + |Popped(s, st, k, true)|)
  {
    var c := s.clients[k];
    NextClient(s, st, k);
    EffectIsTaken(c, st, said, Pushed(s, st, k, false), read, |Popped(s, st, k, true)|);
    match st {
      case Connect(_) => EncodedOne(Me2u);
      case Receive(_) =>
        assert Phase(c, Member(s.log, k)) && c.inbox[0] in c.inbox;
        FrameIsStep(c, Member(s.log, k), k);
      case Chat(_, b, text) => ChatLineIsStep(c, k, b, text);
      case List(_) =>
        BareCommandIsRead(ListCommand);
        ListLineIsStep(c, k, ActOf(st).line);
      case Logout(_) =>
        BareCommandIsRead(LogoutCommand);
        LogoutLineIsStep(c, k, ActOf(st).line);
    }
  }

  /** A step of another client, or of the server, leaves the image as it is. */
  lemma OthersChangeNothing(s: System, st: Step, k: nat, said: seq<Msg>, read: nat)
    requires Enabled(s, st) && k < |s.clients| && (st.i != k || st.Serve?)
    ensures Image(Next(s, st).clients[k], said + Pushed(s, st, k, false), read + |Popped(s, st, k, true)|)
            == Image(s.clients[k], said, read)
  {
    NextClient(s, st, k);
    assert said + [] == said;
  }

  lemma RunIsGood(names: seq<string>, steps: seq<Step>, k: nat)
    requires ProperRunInput(names, steps) && k < |names|
    ensures var s := Exec(Init(names), steps); Inv(s) && ProperState(s, false) && s.clients[k].name == names[k]
  {
    var s := Reached(names, steps);
    ProperRun(names, steps, false);
  }

  lemma NextFrameIsHead(arrived: seq<Msg>, drained: seq<Msg>, inbox: seq<Msg>, frames: seq<string>)
    requires arrived == drained + inbox && inbox != [] && Shows(arrived) <= frames
    ensures |drained| < |frames| && frames[|drained|] == Show(inbox[0])
  {
    assert Shows(arrived)[|drained|] == Show(inbox[0]);
  }

  /** The act of `k` in the last step, if the step is its own. */
  lemma OwnActFollows(names: seq<string>, steps: seq<Step>, k: nat, frames: seq<string>)
    requires steps != [] && ProperRunInput(names, steps) && k < |names|
    requires Shows(Arrived(names, Front(steps), k)) <= frames
    requires var s, st := Exec(Init(names), Front(steps)), Last(steps);
             && Enabled(s, st) && st.i == k && !st.Serve?
             && ClientRun(names[k], frames, Acts(names, Front(steps), k))
                == Image(s.clients[k], Uttered(names, Front(steps), k), |Drained(names, Front(steps), k, true)|)
    ensures ClientRun(names[k], frames, Acts(names, steps, k))
            == Image(Exec(Init(names), steps).clients[k], Uttered(names, steps, k), |Drained(names, steps, k, true)|)
  {
    var front, st := Front(steps), Last(steps);
    ProperFront(names, steps);
    RunIsGood(names, front, k);
    var s := Exec(Init(names), front);
    if st.Receive? {
      QueuesHold(names, front, k);
      NextFrameIsHead(Arrived(names, front, k), Drained(names, front, k, true), s.clients[k].inbox, frames);
    }
    ActIsStep(s, st, k, frames, Uttered(names, front, k), |Drained(names, front, k, true)|);
    Snoc(Acts(names, front, k), ActOf(st));
  }

  lemma {:induction false} ClientFollows(names: seq<string>, steps: seq<Step>, k: nat, frames: seq<string>)
    requires ProperRunInput(names, steps) && k < |names|
    requires Shows(Arrived(names, steps, k)) <= frames
    ensures ClientRun(names[k], frames, Acts(names, steps, k))
            == Image(Exec(Init(names), steps).clients[k], Uttered(names, steps, k), |Drained(names, steps, k, true)|)
  {
    if steps == [] {
    } else {
      var front, st := Front(steps), Last(steps);
      var s := Exec(Init(names), front);
      ProperFront(names, steps);
      ShowsGrow(names, steps, k);
      ClientFollows(names, front, k, frames);
      if !Enabled(s, st) {
        NothingHappens(names, steps, k);
      } else if st.i == k && !st.Serve? {
        OwnActFollows(names, steps, k, frames);
      } else {
        OthersChangeNothing(s, st, k, Uttered(names, front, k), |Drained(names, front, k, true)|);
        assert Acts(names, steps, k) == Acts(names, front, k);
      }
    }
  }

  lemma NothingHappens(names: seq<string>, steps: seq<Step>, k: nat)
    requires steps != [] && k < |names| && !Enabled(Exec(Init(names), Front(steps)), Last(steps))
    ensures Acts(names, steps, k) == Acts(names, Front(steps), k)
    ensures Uttered(names, steps, k) == Uttered(names, Front(steps), k)
    ensures Drained(names, steps, k, true) == Drained(names, Front(steps), k, true)
  {
  }

  lemma ShowsGrow(names: seq<string>, steps: seq<Step>, k: nat)
    requires steps != [] && k < |names|
    ensures Shows(Arrived(names, Front(steps), k)) <= Shows(Arrived(names, steps, k))
  {
  }

  // ----- both together

  lemma ShowsSnoc(ms: seq<Msg>, m: Msg)
    ensures Shows(ms + [m]) == Shows(ms) + [Show(m)]
    ensures Stream(Shows(ms + [m])) == Stream(Shows(ms)) + Terminated(Show(m))
  {
    assert Shows(ms + [m]) == Shows(ms) + [Show(m)];
    Snoc(Shows(ms), Show(m));
  }

  lemma {:induction false} EncodedIsStream(ms: seq<Msg>)
    ensures Concat(Encoded(ms)) == Stream(Shows(ms))
  {
    if ms == [] {
    } else {
      var front, last := Front(ms), Last(ms);
      assert ms == front + [last];
      EncodedIsStream(front);
      ConcatSnoc(Encoded(front), Terminated(Show(last)));
      ShowsSnoc(front, last);
      assert Encoded(ms) == Encoded(front) + [Terminated(Show(last))];
    }
  }

  lemma {:induction false} ArrivedIsProper(names: seq<string>, steps: seq<Step>, k: nat, whole: bool)
    requires (forall n :: n in names ==> IsName(n)) && ProperInput(steps, whole) && k < |names|
    ensures AllProper(Arrived(names, steps, k), whole)
  {
    if steps == [] {
    } else {
      var s, st := Exec(Init(names), Front(steps)), Last(steps);
      assert st in steps;
      ArrivedIsProper(names, Front(steps), k, whole);
      if Enabled(s, st) {
        var r := Reached(names, Front(steps));
        ProperRun(names, Front(steps), whole);
        ProperPushed(s, st, k, whole);
      }
    }
  }

  /** The frames that the server has sent are cut out whole exactly when no text ends in half a terminator. */
  lemma ArrivedReassembles(ms: seq<Msg>)
    requires AllProper(ms, false)
    ensures Reassembles(Shows(ms)) <==> forall m :: m in ms ==> !IsHalved(m)
  {
    var bodies := Shows(ms);
    ReassemblesIff(bodies);
    forall n | 0 <= n < |ms| ensures !HasEnding(bodies[n]) && (EndsInHalf(bodies[n]) <==> IsHalved(ms[n])) {
      assert ms[n] in ms;
      ProperText(ms[n]);
    }
    if m :| m in ms && IsHalved(m) {
      var n :| 0 <= n < |ms| && ms[n] == m;
      assert bodies[n] in bodies;
    }
  }

  /**
   Both programs on bytes do what the protocol does, over every run with proper names and input. Folded
   over the packets it receives, the server has the list of users of the run, and what it has written to
   client `k` carries the frames of the run. If the receive buffer of `k` returns these frames, which it
   does from every division at the ends of messages exactly when no text ends in half a terminator, then
   the client, folded over what it reads and is typed, is where the run has it; and what it has written
   is what the server has received from it, and what is still in its channel.
   */
  lemma RunsAreByteRuns(names: seq<string>, steps: seq<Step>, k: nat, chunks: seq<string>)
    requires ProperRunInput(names, steps) && k < |names|
    ensures var s, server := Exec(Init(names), steps), ServerRun(Requests(names, steps));
            var bodies := Shows(Arrived(names, steps, k));
            && server.users == s.users
            && Concat(DataOf(server.sent, k)) == Stream(bodies)
            && (Reassembles(bodies) <==> forall m :: m in Arrived(names, steps, k) ==> !IsHalved(m))
            && (Frames(chunks) == bodies ==>
                  var c := ClientRun(names[k], Frames(chunks), Acts(names, steps, k));
                  && c.login == s.clients[k].login && c.partners == s.clients[k].partners
                  && c.read + |s.clients[k].inbox| == |bodies|
                  && c.written == DataOf(Requests(names, steps), k) + Encoded(s.clients[k].outbox))
  {
    var s := Exec(Init(names), steps);
    var arrived := Arrived(names, steps, k);
    ServerFollows(names, steps);
    ServerWrites(names, steps, k);
    EncodedIsStream(arrived);
    ArrivedIsProper(names, steps, k, false);
    ArrivedReassembles(arrived);
    if Frames(chunks) == Shows(arrived) {
      ClientFollows(names, steps, k, Frames(chunks));
      QueuesHold(names, steps, k);
      ServerReceives(names, steps, k);
      EncodedJoins(Drained(names, steps, k, false), s.clients[k].outbox);
    }
  }
}
