/** The client of `hw1_cli/client.c`: its login, and what it does with frames and typed lines. */
module Clients {
  import opened Basics
  import opened Text
  import opened Framing
  import opened FrameBuffers
  import opened Messages
  import opened ChatSystem
  import opened Wire
  import opened Handshake
  import opened Partners

  datatype Status = Going | Over | Error

  datatype ChatMove = ChatMove(partners: seq<string>, replies: seq<string>, status: Status)

  /** What a chatting client does with a frame, given its verb and the rest of its text. */
  function ReactToVerb(partners: seq<string>, leaving: bool, verb: Option<Verb>, rest: string): ChatMove {
    match verb
    case Some(OT) => ChatMove(partners, [], if rest in partners then Going else Error)
    case Some(FROM) =>
      ChatMove(Meet(partners, Word(rest)), if leaving then [] else [Terminated(Show(Morf(Word(rest))))], Going)
    case Some(EYB) => ChatMove(partners, [], Over)
    case _ => ChatMove(partners, [], Going)
  }

  /** What a chatting client does with the text of one frame. */
  function ChatReaction(partners: seq<string>, leaving: bool, frame: string): ChatMove {
    ReactToVerb(partners, leaving, Dispatch(frame), Payload(frame))
  }

  lemma ReactionIs(partners: seq<string>, leaving: bool, frame: string, verb: Option<Verb>, rest: string)
    requires verb == Dispatch(frame) && rest == Payload(frame)
    ensures ChatReaction(partners, leaving, frame) == ReactToVerb(partners, leaving, verb, rest)
  {
  }

  function StatusOf(l: Login): Status {
    if l == Gone then Over else if l == Failed then Error else Going
  }

  /** The frames as they are written. */
  function Encoded(ms: seq<Msg>): seq<string> {
    if ms == [] then [] else Encoded(Front(ms)) + [Terminated(Show(Last(ms)))]
  }

  lemma {:induction false} EncodedJoins(p: seq<Msg>, q: seq<Msg>)
    ensures Encoded(p + q) == Encoded(p) + Encoded(q)
  {
    if q == [] {
      assert p + q == p;
    } else {
      assert Front(p + q) == p + Front(q) && Last(p + q) == Last(q);
      EncodedJoins(p, Front(q));
    }
  }

  lemma EncodedOne(m: Msg)
    ensures Encoded([m]) == [Terminated(Show(m))]
  {
    assert Front([m]) == [];
  }

  /** The reaction of the protocol step, in text. */
  function Shown(r: Reaction): ChatMove {
    ChatMove(r.partners, Encoded(r.replies), StatusOf(r.login))
  }

  /** On the frames that the server writes, the client does what the protocol step does. */
  lemma FramesAgree(c: Client, m: Msg)
    requires c.login == Chatting || c.login == Leaving
    requires VerbOf(m).Some? && WellNamed(m)
    ensures ChatReaction(c.partners, c.login == Leaving, Show(m)) == Shown(React(c, m))
  {
    FrameIsRead(m);
    VerbsAgree(c, m, Dispatch(Show(m)), Payload(Show(m)));
  }

  lemma VerbsAgree(c: Client, m: Msg, verb: Option<Verb>, rest: string)
    requires c.login == Chatting || c.login == Leaving
    requires ParseRest(verb, rest) == Some(m)
    ensures ReactToVerb(c.partners, c.login == Leaving, verb, rest) == Shown(React(c, m))
  {
    if m.From? {
      EncodedOne(Morf(m.name));
    }
  }

  datatype Command = Ignored | Help | ListCommand | ChatCommand | LogoutCommand | Unreadable

  /** The branches for a typed line, in their order: the first word may be cut short. */
  function ParseCommand(line: string): Command {
    var n := WordLength(line);
    if line == "" || line[0] != '/' then Ignored
    else if SameUpTo(line, "/help", n) then Help
    else if SameUpTo(line, "/listu", n) then ListCommand
    else if SameUpTo(line, "/chat", n) then ChatCommand
    else if SameUpTo(line, "/logout", n) then LogoutCommand
    else Unreadable
  }

  function CommandText(c: Command): string
    requires c in {Help, ListCommand, ChatCommand, LogoutCommand}
  {
    match c
    case Help => "/help"
    case ListCommand => "/listu"
    case ChatCommand => "/chat"
    case LogoutCommand => "/logout"
  }

  /** The command that a line stands for: it may be cut short, and then it is the first that it can be. */
  function CommandMeant(line: string): Command {
    if line == "" || line[0] != '/' then Ignored
    else if Word(line) <= "/help" then Help
    else if Word(line) <= "/listu" then ListCommand
    else if Word(line) <= "/chat" then ChatCommand
    else if Word(line) <= "/logout" then LogoutCommand
    else Unreadable
  }

  /** The comparisons over the length of the first word find the command that is meant. */
  lemma CommandsByPrefix(line: string)
    ensures ParseCommand(line) == CommandMeant(line)
  {
    SameUpToIsPrefix(line, "/help", WordLength(line));
    SameUpToIsPrefix(line, "/listu", WordLength(line));
    SameUpToIsPrefix(line, "/chat", WordLength(line));
    SameUpToIsPrefix(line, "/logout", WordLength(line));
  }

  lemma NoCommandBeginsAnother(c: Command, d: Command)
    requires c in {Help, ListCommand, ChatCommand, LogoutCommand}
    requires d in {Help, ListCommand, ChatCommand, LogoutCommand}
    ensures CommandText(c) <= CommandText(d) <==> c == d
  {
    if c != d {
      assert CommandText(c)[1] != CommandText(d)[1] || CommandText(c)[2] != CommandText(d)[2];
    }
  }

  /** A line whose first word is a command takes the branch of that command, whatever follows. */
  lemma CommandsAreObeyed(line: string, c: Command)
    requires c in {Help, ListCommand, ChatCommand, LogoutCommand} && Word(line) == CommandText(c)
    ensures ParseCommand(line) == c
  {
    assert line[0] == CommandText(c)[0];
    CommandsByPrefix(line);
    NoCommandBeginsAnother(c, Help);
    NoCommandBeginsAnother(c, ListCommand);
    NoCommandBeginsAnother(c, ChatCommand);
    NoCommandBeginsAnother(c, LogoutCommand);
  }

  /** The command that is the whole first word. */
  function ExactCommand(line: string): Command {
    if line == "" || line[0] != '/' then Ignored
    else if Word(line) == "/help" then Help
    else if Word(line) == "/listu" then ListCommand
    else if Word(line) == "/chat" then ChatCommand
    else if Word(line) == "/logout" then LogoutCommand
    else Unreadable
  }

  /** The branch is that of the exact command, except for a command that is cut short, the bare slash included. */
  lemma CommandIsExactIff(line: string)
    ensures ParseCommand(line) == ExactCommand(line)
            <==> (line != "" && line[0] == '/' ==>
                    forall c | c in {Help, ListCommand, ChatCommand, LogoutCommand} ::
                      !(Word(line) <= CommandText(c) && Word(line) != CommandText(c)))
  {
    CommandsByPrefix(line);
    if c :| c in {Help, ListCommand, ChatCommand, LogoutCommand} && Word(line) == CommandText(c) {
      CommandsAreObeyed(line, c);
      forall d | d in {Help, ListCommand, ChatCommand, LogoutCommand}
        ensures CommandText(c) <= CommandText(d) <==> c == d
      {
        NoCommandBeginsAnother(c, d);
      }
    } else {
      assert Word(line) != CommandText(Help) && Word(line) != CommandText(ListCommand);
      assert Word(line) != CommandText(ChatCommand) && Word(line) != CommandText(LogoutCommand);
    }
  }

  datatype LineMove = LineMove(partners: seq<string>, writes: seq<string>, leaving: bool, status: Status)

  /** What a typed line makes the client do. The command /chat makes its partner known before it writes. */
  function ObeyLine(partners: seq<string>, command: Command, line: string): LineMove {
    match command
    case Ignored | Help => LineMove(partners, [], false, Going)
    case ListCommand => LineMove(partners, [Terminated("LISTU")], false, Going)
    case ChatCommand =>
      LineMove(Meet(partners, Word(Drop(line, 6))), [Terminated("TO" + Drop(line, 5))], false, Going)
    case LogoutCommand => LineMove(partners, [Terminated("BYE")], true, Going)
    case Unreadable => LineMove(partners, [], true, Error)
  }

  // ----- what the user sees, and what the client keeps of its partners

  /** Text in the window of a partner, or on the terminal. */
  datatype Output = Window(partner: string, text: string) | Printed(text: string)

  /** The partners, the confirmations of each, and all that has been shown. */
  datatype Desk = Desk(names: seq<string>, counts: seq<nat>, shown: seq<Output>)

  function Lines(names: seq<string>): (r: seq<Output>)
    ensures |r| == |names| && forall k :: 0 <= k < |r| ==> r[k] == Printed(names[k] + "\n")
  {
    seq(|names|, k requires 0 <= k < |names| => Printed(names[k] + "\n"))
  }

  /** A message from or to `name`: its window is opened if it is new, and gets the text. */
  function Noted(d: Desk, name: string, text: string): Desk {
    Desk(Meet(d.names, name), if name in d.names then d.counts else d.counts + [0], d.shown + [Window(name, text)])
  }

  /** What a frame does to the desk. */
  function DeskAfter(d: Desk, m: Option<Msg>): Desk
    requires |d.names| == |d.counts|
  {
    match m
    case Some(Ot(b)) => d.(counts := CountedFor(d.names, d.counts, b))
    case Some(From(a, text)) => Noted(d, a, text)
    case Some(Utsil(names)) => d.(shown := d.shown + Lines(names))
    case Some(Edne(b)) => d.(shown := d.shown + [Printed("No, user = " + b + " exists.\n")])
    case Some(Uoff(n)) => d.(shown := d.shown + [Printed("Client closed with the name of = " + n)])
    case _ => d
  }

  /** The two verbs that concern a partner. */
  lemma OnPartners(d: Desk, leaving: bool, rest: string)
    requires |d.names| == |d.counts|
    ensures DeskAfter(d, ParseRest(Some(OT), rest)) == d.(counts := CountedFor(d.names, d.counts, rest))
    ensures ReactToVerb(d.names, leaving, Some(OT), rest)
            == ChatMove(d.names, [], if rest in d.names then Going else Error)
    ensures DeskAfter(d, ParseRest(Some(FROM), rest)) == Noted(d, Word(rest), Payload(rest))
    ensures ReactToVerb(d.names, leaving, Some(FROM), rest)
            == ChatMove(Meet(d.names, Word(rest)), if leaving then [] else [Terminated(Show(Morf(Word(rest))))], Going)
  {
  }

  /** What a typed line does to it. */
  function DeskTyped(d: Desk, command: Command, line: string): Desk {
    if command == ChatCommand then Noted(d, Word(Drop(line, 6)), Payload(Drop(line, 6))) else d
  }

  // ----- a whole chat

  datatype Input = FromSocket(chunk: string) | FromStdin(line: string)

  datatype Session = Session(buffer: string, desk: Desk, written: seq<string>, leaving: bool, status: Status)

  ghost predicate IsSession(s: Session) {
    |s.desk.names| == |s.desk.counts|
  }

  function TakeFrame(s: Session, frame: string): Session
    requires IsSession(s)
  {
    var r := ChatReaction(s.desk.names, s.leaving, frame);
    Session(s.buffer, DeskAfter(s.desk, ParseFrame(frame)), s.written + r.replies, s.leaving, r.status)
  }

  function TakeLine(s: Session, line: string): Session {
    var m := ObeyLine(s.desk.names, ParseCommand(line), line);
    Session(s.buffer, DeskTyped(s.desk, ParseCommand(line), line), s.written + m.writes, m.leaving, m.status)
  }

  /** One round of the chat. Lines are not read any more once the writing half is closed. */
  function TakeInput(s: Session, input: Input): (r: Session)
    requires IsSession(s)
    ensures IsSession(r)
  {
    match input
    case FromSocket(chunk) =>
      var f := Feed(s.buffer, chunk);
      if f.frame.None? then s.(buffer := f.rest) else TakeFrame(s.(buffer := f.rest), f.frame.value)
    case FromStdin(line) => if s.leaving then s else TakeLine(s, line)
  }

  /** The chat, up to its end or its error. */
  function ChatFold(s: Session, inputs: seq<Input>): (r: Session)
    requires IsSession(s)
    ensures IsSession(r)
  {
    if inputs == [] then s
    else
      var t := ChatFold(s, Front(inputs));
      if t.status == Going then TakeInput(t, Last(inputs)) else t
  }

  lemma FoldSnoc(s: Session, inputs: seq<Input>, input: Input)
    requires IsSession(s)
    ensures var t := ChatFold(s, inputs);
            ChatFold(s, inputs + [input]) == if t.status == Going then TakeInput(t, input) else t
  {
    Snoc(inputs, input);
  }

  lemma FoldGoesOn(s: Session, inputs: seq<Input>, n: nat)
    requires IsSession(s) && n < |inputs|
    ensures var t := ChatFold(s, inputs[..n]);
            ChatFold(s, inputs[..n + 1]) == if t.status == Going then TakeInput(t, inputs[n]) else t
  {
    assert inputs[..n + 1] == inputs[..n] + [inputs[n]];
    FoldSnoc(s, inputs[..n], inputs[n]);
  }

  lemma {:induction false} FoldIsOver(s: Session, inputs: seq<Input>, n: nat)
    requires IsSession(s) && n <= |inputs|
    requires n == |inputs| || ChatFold(s, inputs[..n]).status != Going
    ensures ChatFold(s, inputs[..n]) == ChatFold(s, inputs)
    decreases |inputs| - n
  {
    if n == |inputs| {
      assert inputs[..n] == inputs;
    } else {
      FoldGoesOn(s, inputs, n);
      FoldIsOver(s, inputs, n + 1);
    }
  }

  predicate IsInput(input: Input) {
    input.FromSocket? ==> NulFree(input.chunk) && |input.chunk| <= MAXLINE
  }

  class ChatClient {
    const name: string
    const buffer: FrameBuffer
    const partners: PartnerList
    var written: seq<string>   // what has been written to the socket
    var stdinEof: bool         // set by /logout, which closes the writing half
    var shown: seq<Output>     // what has been shown to the user

    ghost function TheDesk(): (d: Desk)
      reads this`shown, partners, partners.nodes
      ensures |d.names| == |d.counts|
    {
      Desk(partners.Names(), partners.Counts(), shown)
    }

    /** The partners are those there were, and new ones. */
    twostate predicate OnlyAdded()
      reads partners, partners.nodes
    {
      && old(partners.nodes) <= partners.nodes
      && forall i :: |old(partners.nodes)| <= i < |partners.nodes| ==> fresh(partners.nodes[i])
    }

    ghost predicate Valid()
      reads this, buffer, buffer.fullBuf, partners, partners.nodes
    {
      buffer.Valid() && partners.Valid()
    }

    constructor (name: string)
      ensures Valid() && fresh(buffer) && fresh(buffer.fullBuf) && fresh(partners) && partners.nodes == []
      ensures this.name == name && written == [] && !stdinEof && buffer.Contents() == ""
      ensures TheDesk() == Desk([], [], [])
    {
      this.name := name;
      buffer := new FrameBuffer();
      partners := new PartnerList();
      written := [];
      stdinEof := false;
      shown := [];
    }

    method Write(text: string)
      modifies this`written
      ensures written == old(written) + [Terminated(text)]
    {
      written := written + [Terminated(text)];
    }

    /** What the login does with a whole frame. */
    method OnLoginFrame(loginState: nat, frame: string) returns (next: Outcome)
      requires loginState in {1, 3, 4}
      modifies this`written
      ensures next == Advance(Waiting(loginState), frame)
      ensures written == old(written) + NameWrite(name, Waiting(loginState), frame)
    {
      if loginState == 1 {
        if frame != "U2EM" {
          return BadFrame;
        }
        Write(Show(Iam(name)));
        return Waiting(3);
      }
      if loginState == 3 {
        return if frame == "ETAKEN" then Taken else if frame == "MAI" then Waiting(4) else BadFrame;
      }
      return if Begins(frame, "MOTD") then Waiting(10) else BadFrame;
    }

    /** One chunk of the login. */
    method ReadLogin(chunk: string, o: Outcome) returns (next: Outcome)
      requires buffer.Valid() && NulFree(chunk) && |chunk| <= MAXLINE
      requires o in {Waiting(1), Waiting(3), Waiting(4)}
      modifies this`written, buffer, buffer.fullBuf
      ensures buffer.Valid() && (buffer.fullBuf == old(buffer.fullBuf) || fresh(buffer.fullBuf))
      ensures var f := Feed(old(buffer.Contents()), chunk);
              && buffer.Contents() == f.rest
              && next == (if f.frame.None? then o else Advance(o, f.frame.value))
              && written == old(written) + (if f.frame.None? then [] else NameWrite(name, o, f.frame.value))
    {
      next := o;
      var frame := buffer.ProcessString(chunk);
      if frame.Some? {
        next := OnLoginFrame(o.state, frame.value);
      }
    }

    /**
     The login, for the chunks that the socket delivers before it is closed. Frames that are still
     awaited when no chunk is left are the case of a server that exits prematurely.
     */
    method LoginProc(chunks: seq<string>) returns (outcome: Outcome, used: nat)
      requires buffer.Valid() && buffer.Contents() == ""
      requires forall k :: 0 <= k < |chunks| ==> NulFree(chunks[k]) && |chunks[k]| <= MAXLINE
      modifies this`written, buffer, buffer.fullBuf
      ensures buffer.Valid() && used <= |chunks|
      ensures LoginSoFar(name, chunks[..used], buffer.Contents(), outcome, old(written), written)
      ensures outcome.Waiting? ==> outcome.state == 10 || used == |chunks|
      ensures Counted(Frames(chunks[..used]), outcome) && Awaited(Frames(chunks[..used]))
    {
      Write("ME2U");
      outcome := Waiting(1);
      used := 0;
      while used < |chunks| && outcome.Waiting? && outcome.state != 10
        invariant buffer.Valid() && used <= |chunks|
        invariant buffer.fullBuf == old(buffer.fullBuf) || fresh(buffer.fullBuf)
        invariant LoginSoFar(name, chunks[..used], buffer.Contents(), outcome, old(written), written)
        invariant Counted(Frames(chunks[..used]), outcome) && Awaited(Frames(chunks[..used]))
      {
        LoginGoesOn(name, chunks, used, outcome, old(written), written);
        CountGoesOn(chunks, used, outcome);
        outcome := ReadLogin(chunks[used], outcome);
        used := used + 1;
      }
    }

    /** One chunk from the socket after the login. */
    method OnSocket(chunk: string) returns (status: Status)
      requires Valid() && NulFree(chunk) && |chunk| <= MAXLINE
      modifies this`written, this`shown, buffer, buffer.fullBuf, partners, partners.nodes
      ensures Valid() && OnlyAdded() && (buffer.fullBuf == old(buffer.fullBuf) || fresh(buffer.fullBuf))
      ensures var f := Feed(old(buffer.Contents()), chunk);
              && buffer.Contents() == f.rest
              && (match f.frame
                  case None => TheDesk() == old(TheDesk()) && written == old(written) && status == Going
                  case Some(frame) =>
                    var r := ChatReaction(old(TheDesk()).names, stdinEof, frame);
                    && TheDesk() == DeskAfter(old(TheDesk()), ParseFrame(frame))
                    && written == old(written) + r.replies && status == r.status)
    {
      var frame := buffer.ProcessString(chunk);
      if frame.None? {
        return Going;
      }
      status := OnFrame(frame.value);
    }

    /** The dispatch of `regular_chat`: the branches in their order, on the length of the first word. */
    method ChooseBranch(frame: string, firstWdL: nat) returns (verb: Option<Verb>)
      requires firstWdL == WordLength(frame)
      ensures verb == Dispatch(frame)
    {
      if SameUpTo(frame, "UTSIL", firstWdL) {
        return Some(UTSIL);
      } else if SameUpTo(frame, "OT", firstWdL) {
        return Some(OT);
      } else if SameUpTo(frame, "EDNE", firstWdL) {
        return Some(EDNE);
      } else if SameUpTo(frame, "FROM", firstWdL) {
        return Some(FROM);
      } else if SameUpTo(frame, "UOFF", firstWdL) {
        return Some(UOFF);
      } else if SameUpTo(frame, "EYB", firstWdL) {
        return Some(EYB);
      }
      return None;
    }

    /** Puts the text of a message into the window of its partner, who is made known if new. */
    method Contact(msg: string) returns (username: string)
      requires partners.Valid()
      modifies this`shown, partners, partners.nodes
      ensures partners.Valid() && OnlyAdded()
      ensures username == Word(msg) && TheDesk() == Noted(old(TheDesk()), Word(msg), Payload(msg))
    {
      var user, text, added := partners.ProcessMsg(msg);
      username := user.username;
      shown := shown + [Window(username, text)];
    }

    /** Shows the users in the list. */
    method ShowUsers(userList: string)
      modifies this`shown
      ensures shown == old(shown) + Lines(Tokens(userList))
    {
      var lines := ListUsers(userList);
      shown := shown + Lines(lines);
    }

    method Print(text: string)
      modifies this`shown
      ensures shown == old(shown) + [Printed(text)]
    {
      shown := shown + [Printed(text)];
    }

    /** The branch of OT. */
    method OnConfirmation(name: string) returns (status: Status)
      requires partners.Valid()
      modifies partners.nodes
      ensures partners.Valid() && OnlyAdded()
      ensures TheDesk() == old(TheDesk()).(counts := CountedFor(old(TheDesk()).names, old(TheDesk()).counts, name))
      ensures status == if name in old(TheDesk()).names then Going else Error
    {
      ghost var names, counts := partners.Names(), partners.Counts();
      var known := partners.MsgConfirmed(name);
      forall i | 0 <= i < |counts| ensures partners.Counts()[i] == CountedFor(names, counts, name)[i] {
        assert partners.nodes[i] in partners.nodes && partners.nodes[i].username == names[i];
      }
      return if known then Going else Error;
    }

    /** The branch of FROM. */
    method OnMessage(msg: string)
      requires partners.Valid()
      modifies this`written, this`shown, partners, partners.nodes
      ensures partners.Valid() && OnlyAdded()
      ensures TheDesk() == Noted(old(TheDesk()), Word(msg), Payload(msg))
      ensures written == old(written) + if stdinEof then [] else [Terminated(Show(Morf(Word(msg))))]
    {
      var username := Contact(msg);
      if !stdinEof {
        Write(Show(Morf(username)));
      }
    }

    /** The branches that leave the partners alone. */
    method OnNotice(verb: Option<Verb>, rest: string) returns (status: Status)
      requires verb != Some(OT) && verb != Some(FROM)
      modifies this`shown
      ensures TheDesk() == DeskAfter(old(TheDesk()), ParseRest(verb, rest))
      ensures ReactToVerb(old(TheDesk()).names, stdinEof, verb, rest) == ChatMove(old(TheDesk()).names, [], status)
    {
      status := Going;
      match verb {
        case Some(UTSIL) =>
          ShowUsers(rest);
        case Some(EDNE) =>
          Print("No, user = " + rest + " exists.\n");
        case Some(UOFF) =>
          Print("Client closed with the name of = " + rest);
        case Some(EYB) =>
          status := Over;
        case None =>
      }
    }

    /** The branches that concern a partner. */
    method OnPartnerVerb(verb: Option<Verb>, rest: string) returns (status: Status)
      requires partners.Valid() && (verb == Some(OT) || verb == Some(FROM))
      modifies this`written, this`shown, partners, partners.nodes
      ensures partners.Valid() && OnlyAdded()
      ensures TheDesk() == DeskAfter(old(TheDesk()), ParseRest(verb, rest))
      ensures var r := ReactToVerb(old(TheDesk()).names, stdinEof, verb, rest);
              written == old(written) + r.replies && status == r.status
    {
      OnPartners(TheDesk(), stdinEof, rest);
      if verb == Some(OT) {
        status := OnConfirmation(rest);
      } else {
        OnMessage(rest);
        status := Going;
      }
    }

    /** The branch of one verb. */
    method OnVerb(verb: Option<Verb>, rest: string) returns (status: Status)
      requires partners.Valid()
      modifies this`written, this`shown, partners, partners.nodes
      ensures partners.Valid() && OnlyAdded()
      ensures TheDesk() == DeskAfter(old(TheDesk()), ParseRest(verb, rest))
      ensures var r := ReactToVerb(old(TheDesk()).names, stdinEof, verb, rest);
              written == old(written) + r.replies && status == r.status
    {
      if verb == Some(OT) || verb == Some(FROM) {
        status := OnPartnerVerb(verb, rest);
      } else {
        status := OnNotice(verb, rest);
      }
    }

    /** What a chatting client does with a whole frame. */
    method OnFrame(frame: string) returns (status: Status)
      requires partners.Valid()
      modifies this`written, this`shown, partners, partners.nodes
      ensures partners.Valid() && OnlyAdded()
      ensures TheDesk() == DeskAfter(old(TheDesk()), ParseFrame(frame))
      ensures var r := ChatReaction(old(TheDesk()).names, stdinEof, frame);
              written == old(written) + r.replies && status == r.status
    {
      var firstWdL := MeasureWord(frame);
      var verb := ChooseBranch(frame, firstWdL);
      var rest := Drop(frame, firstWdL + 1);
      ReactionIs(TheDesk().names, stdinEof, frame, verb, rest);
      assert ParseFrame(frame) == ParseRest(verb, rest);
      status := OnVerb(verb, rest);
    }

    /** One typed line. */
    method OnStdin(line: string) returns (status: Status)
      requires partners.Valid() && !stdinEof
      modifies this, partners, partners.nodes
      ensures partners.Valid() && OnlyAdded()
      ensures TheDesk() == DeskTyped(old(TheDesk()), ParseCommand(line), line)
      ensures var r := ObeyLine(old(TheDesk()).names, ParseCommand(line), line);
              written == old(written) + r.writes && stdinEof == r.leaving && status == r.status
    {
      var command := ChooseCommand(line);
      status := OnCommand(command, line);
    }

    /** The branch of /chat: the partner is made known before the message is written. */
    method StartChat(line: string)
      requires partners.Valid()
      modifies this`written, this`shown, partners, partners.nodes
      ensures partners.Valid() && OnlyAdded()
      ensures TheDesk() == Noted(old(TheDesk()), Word(Drop(line, 6)), Payload(Drop(line, 6)))
      ensures written == old(written) + [Terminated("TO" + Drop(line, 5))]
    {
      var username := Contact(Drop(line, 6));
      Write("TO" + Drop(line, 5));
    }

    /** The branches that leave the partners alone. */
    method OnPlainCommand(command: Command) returns (status: Status)
      requires command != ChatCommand && !stdinEof
      modifies this`written, this`stdinEof
      ensures var r := ObeyLine([], command, "");
              written == old(written) + r.writes && stdinEof == r.leaving && status == r.status
    {
      status := Going;
      match command {
        case Ignored =>
        case Help =>
        case ListCommand =>
          Write("LISTU");
        case LogoutCommand =>
          Write("BYE");
          stdinEof := true;
        case Unreadable =>
          stdinEof := true;
          status := Error;
      }
    }

    method OnCommand(command: Command, line: string) returns (status: Status)
      requires partners.Valid() && !stdinEof
      modifies this, partners, partners.nodes
      ensures partners.Valid() && OnlyAdded()
      ensures TheDesk() == DeskTyped(old(TheDesk()), command, line)
      ensures var r := ObeyLine(old(TheDesk()).names, command, line);
              written == old(written) + r.writes && stdinEof == r.leaving && status == r.status
    {
      if command == ChatCommand {
        StartChat(line);
        return Going;
      }
      status := OnPlainCommand(command);
    }

    ghost function Now(status: Status): (s: Session)
      requires buffer.Valid()
      reads this`shown, this`written, this`stdinEof, buffer, buffer.fullBuf, partners, partners.nodes
      ensures IsSession(s)
    {
      Session(buffer.Contents(), TheDesk(), written, stdinEof, status)
    }

    /** One round of the loop of `regular_chat`. */
    method OnInput(input: Input) returns (status: Status)
      requires Valid() && IsInput(input)
      modifies this, buffer, buffer.fullBuf, partners, partners.nodes
      ensures Valid() && OnlyAdded() && (buffer.fullBuf == old(buffer.fullBuf) || fresh(buffer.fullBuf))
      ensures Now(status) == TakeInput(old(Now(Going)), input)
    {
      match input {
        case FromSocket(chunk) =>
          status := OnSocket(chunk);
        case FromStdin(line) =>
          status := Going;
          if !stdinEof {
            status := OnStdin(line);
          }
      }
    }

    /** The chat, for what comes from the socket and from the terminal in whatever order. */
    method RegularChat(inputs: seq<Input>) returns (status: Status)
      requires Valid() && forall k :: 0 <= k < |inputs| ==> IsInput(inputs[k])
      modifies this, buffer, buffer.fullBuf, partners, partners.nodes
      ensures Valid() && Now(status) == ChatFold(old(Now(Going)), inputs)
    {
      status := Going;
      var n := 0;
      while n < |inputs| && status == Going
        invariant n <= |inputs| && Valid() && OnlyAdded()
        invariant buffer.fullBuf == old(buffer.fullBuf) || fresh(buffer.fullBuf)
        invariant Now(status) == ChatFold(old(Now(Going)), inputs[..n])
      {
        FoldGoesOn(old(Now(Going)), inputs, n);
        status := OnInput(inputs[n]);
        n := n + 1;
      }
      FoldIsOver(old(Now(Going)), inputs, n);
    }

    /** The branches for a typed line, in their order. */
    method ChooseCommand(line: string) returns (command: Command)
      ensures command == ParseCommand(line) == CommandMeant(line)
    {
      CommandsByPrefix(line);
      if line == "" || line[0] != '/' {
        return Ignored;
      }
      var firstWdL := MeasureWord(line);
      if SameUpTo(line, "/help", firstWdL) {
        return Help;
      }
      if SameUpTo(line, "/listu", firstWdL) {
        return ListCommand;
      }
      if SameUpTo(line, "/chat", firstWdL) {
        return ChatCommand;
      }
      if SameUpTo(line, "/logout", firstWdL) {
        return LogoutCommand;
      }
      return Unreadable;
    }
  }

  /** What a login writes: ME2U once, and the name once U2EM has come. */
  function LoginWrites(name: string, frames: seq<string>): seq<string> {
    [Terminated("ME2U")] + (if frames != [] && frames[0] == "U2EM" then [Terminated(Show(Iam(name)))] else [])
  }

  /** What one frame of the login makes the client write. */
  function NameWrite(name: string, o: Outcome, frame: string): seq<string> {
    if o == Waiting(1) && frame == "U2EM" then [Terminated(Show(Iam(name)))] else []
  }

  lemma Regroup<T>(a: seq<T>, b: seq<T>, c: seq<T>)
    ensures (a + b) + c == a + (b + c)
  {
  }

  /** How far the login has come after some chunks. */
  ghost predicate LoginSoFar(name: string, chunks: seq<string>, rest: string, o: Outcome,
                             before: seq<string>, written: seq<string>)
  {
    rest == Rest(chunks) && o == Progress(Frames(chunks)) && written == before + LoginWrites(name, Frames(chunks))
  }

  /** A login has taken three frames when it is completed, and not more when it has failed. */
  ghost predicate Counted(frames: seq<string>, o: Outcome) {
    |frames| + Remaining(o) <= 3 && (o.Waiting? ==> |frames| + Remaining(o) == 3)
  }

  lemma CountGoesOn(chunks: seq<string>, used: nat, o: Outcome)
    requires used < |chunks| && Counted(Frames(chunks[..used]), o) && o in {Waiting(1), Waiting(3), Waiting(4)}
    requires Awaited(Frames(chunks[..used])) && o == Progress(Frames(chunks[..used]))
    ensures Awaited(Frames(chunks[..used + 1]))
    ensures var f := Feed(Rest(chunks[..used]), chunks[used]);
            Counted(Frames(chunks[..used + 1]), if f.frame.None? then o else Advance(o, f.frame.value))
  {
    assert chunks[..used + 1] == chunks[..used] + [chunks[used]];
    Snoc(chunks[..used], chunks[used]);
  }

  lemma LoginGoesOn(name: string, chunks: seq<string>, used: nat, o: Outcome,
                    before: seq<string>, written: seq<string>)
    requires used < |chunks| && LoginSoFar(name, chunks[..used], Rest(chunks[..used]), o, before, written)
    ensures var f := Feed(Rest(chunks[..used]), chunks[used]);
            LoginSoFar(name, chunks[..used + 1], f.rest,
                       if f.frame.None? then o else Advance(o, f.frame.value), before,
                       written + (if f.frame.None? then [] else NameWrite(name, o, f.frame.value)))
  {
    assert chunks[..used + 1] == chunks[..used] + [chunks[used]];
    Snoc(chunks[..used], chunks[used]);
    var f := Feed(Rest(chunks[..used]), chunks[used]);
    if f.frame.Some? {
      NextFrame(Frames(chunks[..used]), f.frame.value, name);
      Regroup(before, LoginWrites(name, Frames(chunks[..used])), NameWrite(name, o, f.frame.value));
    }
  }

  /** One more frame of the login: the name is written when the first frame is U2EM, and never again. */
  lemma NextFrame(frames: seq<string>, frame: string, name: string)
    ensures Progress(frames + [frame]) == Advance(Progress(frames), frame)
    ensures LoginWrites(name, frames + [frame]) == LoginWrites(name, frames) + NameWrite(name, Progress(frames), frame)
  {
    Snoc(frames, frame);
    ProgressIs(frames);
    if frames == [] {
      assert (frames + [frame])[0] == frame;
    } else {
      assert (frames + [frame])[0] == frames[0];
    }
  }
}
