/** What a chat comes to: the confirmations counted, the texts shown, and the lines and frames that are not understood. */
module Sessions {
  import opened Basics
  import opened Text
  import opened Framing
  import opened Messages
  import opened ChatSystem
  import opened Wire
  import opened EndToEnd
  import opened Clients
  import opened ByteRuns

  // ----- confirmations

  /** How many of the frames are the confirmation of `b`. */
  function Ots(frames: seq<string>, b: string): nat {
    if frames == [] then 0 else Ots(Front(frames), b) + (if ParseFrame(Last(frames)) == Some(Ot(b)) then 1 else 0)
  }

  /** Each partner has as many confirmations as there were frames with its name, and nobody else had one. */
  ghost predicate Tallied(d: Desk, frames: seq<string>) {
    && |d.names| == |d.counts|
    && (forall i :: 0 <= i < |d.names| ==> d.counts[i] == Ots(frames, d.names[i]))
    && (forall b :: b !in d.names ==> Ots(frames, b) == 0)
  }

  lemma NotedIsTallied(d: Desk, frames: seq<string>, name: string, text: string)
    requires Tallied(d, frames)
    ensures Tallied(Noted(d, name, text), frames)
  {
    var e := Noted(d, name, text);
    forall b | b in d.names ensures b in e.names {
      var i :| 0 <= i < |d.names| && d.names[i] == b;
      assert e.names[i] == b;
    }
  }

  lemma FrameIsTallied(d: Desk, frames: seq<string>, frame: string, leaving: bool)
    requires Tallied(d, frames) && ChatReaction(d.names, leaving, frame).status != Error
    ensures Tallied(DeskAfter(d, ParseFrame(frame)), frames + [frame])
  {
    Snoc(frames, frame);
    var m := ParseFrame(frame);
    if m.Some? && m.value.From? {
      NotedIsTallied(d, frames, m.value.name, m.value.text);
    }
  }

  function ChunksIn(inputs: seq<Input>): seq<string> {
    if inputs == [] then []
    else ChunksIn(Front(inputs)) + (if Last(inputs).FromSocket? then [Last(inputs).chunk] else [])
  }

  /** The chat has not ended before the last of the inputs. */
  ghost predicate InFull(s: Session, inputs: seq<Input>)
    requires IsSession(s)
  {
    inputs == [] || ChatFold(s, Front(inputs)).status == Going
  }

  lemma InputIsTallied(s: Session, t: Session, chunks: seq<string>, input: Input)
    requires IsSession(s) && s.status == Going && s.buffer == Rest(chunks) && Tallied(s.desk, Frames(chunks))
    requires t == TakeInput(s, input) && t.status != Error
    ensures var all := chunks + if input.FromSocket? then [input.chunk] else [];
            t.buffer == Rest(all) && Tallied(t.desk, Frames(all))
  {
    match input {
      case FromSocket(chunk) =>
        Snoc(chunks, chunk);
        var f := Feed(Rest(chunks), chunk);
        if f.frame.Some? {
          FrameIsTallied(s.desk, Frames(chunks), f.frame.value, s.leaving);
        }
      case FromStdin(line) =>
        assert chunks + [] == chunks;
        if !s.leaving {
          NotedIsTallied(s.desk, Frames(chunks), Word(Drop(line, 6)), Payload(Drop(line, 6)));
        }
    }
  }

  /**
   In every chat that starts without partners, and has not come to an error, the count of each partner is
   the number of confirmations from it among the frames read, whatever the chunks and lines.
   */
  lemma {:induction false} ConfirmationsAreCounted(s: Session, inputs: seq<Input>)
    requires s.buffer == "" && s.desk.names == [] && s.desk.counts == [] && s.status == Going
    requires InFull(s, inputs) && ChatFold(s, inputs).status != Error
    ensures var t := ChatFold(s, inputs);
            t.buffer == Rest(ChunksIn(inputs)) && Tallied(t.desk, Frames(ChunksIn(inputs)))
  {
    if inputs == [] {
    } else {
      var front := Front(inputs);
      BeforeTheEnd(s, front);
      ConfirmationsAreCounted(s, front);
      InputIsTallied(ChatFold(s, front), ChatFold(s, inputs), ChunksIn(front), Last(inputs));
    }
  }

  lemma BeforeTheEnd(s: Session, inputs: seq<Input>)
    requires IsSession(s) && ChatFold(s, inputs).status == Going
    ensures InFull(s, inputs)
  {
  }

  // ----- what is shown

  function Chunks(chunks: seq<string>): seq<Input> {
    if chunks == [] then [] else Chunks(Front(chunks)) + [FromSocket(Last(chunks))]
  }

  lemma NoFrameYet(chunks: seq<string>, body: string, n: nat)
    requires Framable(body) && Divides(chunks, [body]) && n < |chunks|
    ensures Frames(chunks[..n]) == []
  {
    var k := AlignedProgress(chunks, [body], n);
    SomeMessageIsDue(chunks, [body], n, k);
    assert k == 0 && [body][..0] == [];
  }

  /** A chunk that ends no message is held in the buffer. */
  lemma PartIsHeld(s: Session, before: seq<string>, chunk: string)
    requires IsSession(s) && s.status == Going && Frames(before + [chunk]) == []
    requires ChatFold(s, Chunks(before)) == s.(buffer := Rest(before))
    ensures ChatFold(s, Chunks(before + [chunk])) == s.(buffer := Rest(before + [chunk]))
  {
    Snoc(before, chunk);
    FoldSnoc(s, Chunks(before), FromSocket(chunk));
    assert Feed(Rest(before), chunk).frame == None;
  }

  lemma {:induction false} PartsAreHeld(s: Session, chunks: seq<string>, body: string, n: nat)
    requires IsSession(s) && s.status == Going && s.buffer == "" && Framable(body)
    requires Divides(chunks, [body]) && n < |chunks|
    ensures ChatFold(s, Chunks(chunks[..n])) == s.(buffer := Rest(chunks[..n]))
  {
    if n == 0 {
      assert chunks[..0] == [];
    } else {
      PartsAreHeld(s, chunks, body, n - 1);
      assert chunks[..n] == chunks[..n - 1] + [chunks[n - 1]];
      NoFrameYet(chunks, body, n);
      PartIsHeld(s, chunks[..n - 1], chunks[n - 1]);
    }
  }

  /** A message that is read in any division is taken as one frame. */
  lemma DivisionIsTaken(s: Session, chunks: seq<string>, body: string)
    requires IsSession(s) && s.status == Going && s.buffer == "" && Framable(body) && Divides(chunks, [body])
    ensures ChatFold(s, Chunks(chunks)) == TakeFrame(s, body)
  {
    ReassemblyIffAligned(chunks, [body]);
    assert chunks != [];
    var n := |chunks| - 1;
    PartsAreHeld(s, chunks, body, n);
    NoFrameYet(chunks, body, n);
    assert chunks[..n] == Front(chunks);
    FoldSnoc(s, Chunks(Front(chunks)), FromSocket(Last(chunks)));
    BytesAreConserved(chunks);
    assert Frames(chunks) == [body];
    LastFrame(chunks, body);
  }

  lemma LastFrame(chunks: seq<string>, body: string)
    requires chunks != [] && Frames(Front(chunks)) == [] && Frames(chunks) == [body]
    ensures Feed(Rest(Front(chunks)), Last(chunks)) == Fed("", Some(body))
  {
    assert Frames(chunks)[0] == body;
  }

  /**
   A message from `sender`: from every division of the server's bytes, the client shows exactly its text
   in the window of the sender, who is a partner from then on, and answers with the sender's name.
   */
  lemma MessageIsShown(s: Session, sender: string, text: string, chunks: seq<string>)
    requires IsSession(s) && s.status == Going && s.buffer == ""
    requires IsName(sender) && Framable(text) && Divides(chunks, [Show(From(sender, text))])
    ensures var t := ChatFold(s, Chunks(chunks));
            && t.desk.shown == s.desk.shown + [Window(sender, text)] && sender in t.desk.names
            && t.written == s.written + (if s.leaving then [] else [Terminated(Show(Morf(sender)))])
            && t.status == Going && t.buffer == ""
  {
    ReceivedWhole(sender, text);
    DivisionIsTaken(s, chunks, Show(From(sender, text)));
    FrameIsRead(From(sender, text));
    MessageIsAnswered(s.desk.names, s.leaving, sender, text);
    assert sender !in s.desk.names ==> Meet(s.desk.names, sender)[|s.desk.names|] == sender;
  }

  lemma MessageIsAnswered(partners: seq<string>, leaving: bool, sender: string, text: string)
    requires IsName(sender)
    ensures ChatReaction(partners, leaving, Show(From(sender, text)))
            == ChatMove(Meet(partners, sender), if leaving then [] else [Terminated(Show(Morf(sender)))], Going)
  {
    VerbAndRest(FROM, sender + " " + text);
    WordThenSpace(sender, text);
    ReactionIs(partners, leaving, Show(From(sender, text)), Some(FROM), sender + " " + text);
  }

  /** A list of users is shown as it is in the registry, a name on each line. */
  lemma ListingIsShown(d: Desk, names: seq<string>)
    requires |d.names| == |d.counts| && forall n :: n in names ==> IsName(n)
    ensures var e := DeskAfter(d, ParseFrame(Show(Utsil(names))));
            && e.names == d.names && e.counts == d.counts && |e.shown| == |d.shown| + |names|
            && (forall k :: 0 <= k < |d.shown| ==> e.shown[k] == d.shown[k])
            && (forall k :: 0 <= k < |names| ==> e.shown[|d.shown| + k] == Printed(names[k] + "\n"))
  {
    FrameIsRead(Utsil(names));
  }

  /** A name that is not there, and a user who has left, are reported by name. */
  lemma NoticesAreShown(d: Desk, name: string)
    requires |d.names| == |d.counts| && IsName(name)
    ensures DeskAfter(d, ParseFrame(Show(Edne(name))))
            == d.(shown := d.shown + [Printed("No, user = " + name + " exists.\n")])
    ensures DeskAfter(d, ParseFrame(Show(Uoff(name))))
            == d.(shown := d.shown + [Printed("Client closed with the name of = " + name)])
  {
    FrameIsRead(Edne(name));
    FrameIsRead(Uoff(name));
  }

  // ----- frames and lines that are not understood

  /** A frame whose first word begins no verb changes nothing. */
  lemma StrangeFramesAreIgnored(s: Session, frame: string)
    requires IsSession(s) && s.status == Going && forall v: Verb :: !(Word(frame) <= VerbText(v))
    ensures TakeFrame(s, frame) == s
  {
    forall v: Verb ensures !Matches(frame, v) {
      MatchesIsPrefix(frame, v);
    }
    assert Dispatch(frame) == None;
    ReactionIs(s.desk.names, s.leaving, frame, None, Payload(frame));
    assert s.written + [] == s.written;
  }

  /** A line that does not begin with a slash, or asks for help, changes nothing. */
  lemma PlainLinesAreIgnored(s: Session, line: string)
    requires IsSession(s) && s.status == Going && !s.leaving
    requires line == "" || line[0] != '/' || Word(line) <= "/help"
    ensures TakeLine(s, line) == s
  {
    CommandsByPrefix(line);
    assert s.written + [] == s.written;
  }

  /** Any other line that begins with a slash closes the writing half and ends the client with an error. */
  lemma StrangeCommandsEnd(s: Session, line: string)
    requires IsSession(s) && line != "" && line[0] == '/'
    requires !(Word(line) <= "/help") && !(Word(line) <= "/listu")
    requires !(Word(line) <= "/chat") && !(Word(line) <= "/logout")
    ensures TakeLine(s, line) == s.(leaving := true, status := Error)
    ensures TypeLine(Chatting, s.desk.names, line) == Effect(Failed, s.desk.names, [])
  {
    CommandsByPrefix(line);
    assert s.written + [] == s.written;
  }

  /** What is typed is cut at fixed places, however short the command is: a short one moves the message. */
  lemma ChatIsCutAtFive(s: Session, line: string)
    requires IsSession(s) && |line| >= 6 && line[0] == '/'
    requires Word(line) <= "/chat" && !(Word(line) <= "/help")
    ensures var t := TakeLine(s, line);
            && t.written == s.written + ["TO" + line[5..] + ENDING]
            && t.desk.names == Meet(s.desk.names, Word(line[6..]))
            && t.desk.shown == s.desk.shown + [Window(Word(line[6..]), Payload(line[6..]))]
            && t.leaving == false && t.status == Going
  {
    CommandsByPrefix(line);
    assert line != "" && !(Word(line) <= "/listu") by {
      ShortChat(line);
    }
  }

  lemma ShortChat(line: string)
    requires line != "" && line[0] == '/' && Word(line) <= "/chat" && !(Word(line) <= "/help")
    ensures !(Word(line) <= "/listu")
  {
    var w := Word(line);
    assert |w| >= 2 by {
      assert "/help"[..0] == "/chat"[..0] && "/help"[..1] == "/chat"[..1];
      assert w == "/chat"[..|w|];
    }
    assert w[1] == "/chat"[1] && "/chat"[1] != "/listu"[1];
  }

  // ----- the end of a chat

  /** Once the writing half is closed, nothing more is written, whatever comes. */
  lemma {:induction false} NothingIsWrittenAfterLogout(s: Session, inputs: seq<Input>)
    requires IsSession(s) && s.leaving
    ensures ChatFold(s, inputs).leaving && ChatFold(s, inputs).written == s.written
  {
    if inputs == [] {
    } else {
      NothingIsWrittenAfterLogout(s, Front(inputs));
      InputOfLeaving(ChatFold(s, Front(inputs)), Last(inputs));
    }
  }

  lemma InputOfLeaving(s: Session, input: Input)
    requires IsSession(s) && s.leaving
    ensures TakeInput(s, input).leaving && TakeInput(s, input).written == s.written
  {
    if input.FromSocket? {
      var f := Feed(s.buffer, input.chunk);
      if f.frame.Some? {
        RepliesOfLeaving(s.desk.names, Dispatch(f.frame.value), Payload(f.frame.value));
        assert s.written + [] == s.written;
      }
    }
  }

  lemma RepliesOfLeaving(partners: seq<string>, verb: Option<Verb>, rest: string)
    ensures ReactToVerb(partners, true, verb, rest).replies == []
  {
  }

  /** A chat that has ended, or failed, takes no more input. */
  lemma {:induction false} ChatEnds(s: Session, inputs: seq<Input>, more: seq<Input>)
    requires IsSession(s) && ChatFold(s, inputs).status != Going
    ensures ChatFold(s, inputs + more) == ChatFold(s, inputs)
  {
    if more == [] {
      assert inputs + more == inputs;
    } else {
      ChatEnds(s, inputs, Front(more));
      assert inputs + more == (inputs + Front(more)) + [Last(more)];
      FoldSnoc(s, inputs + Front(more), Last(more));
    }
  }

  // ----- the same on bytes

  /** What a frame does in a chat is what it does to the client in the system on bytes. */
  lemma FramesFollow(s: Session, name: string, frame: string)
    requires IsSession(s)
    ensures var login := if s.leaving then Leaving else Chatting;
            var t, e := TakeFrame(s, frame), ReadFrame(login, s.desk.names, name, frame);
            t.desk.names == e.partners && t.written == s.written + e.writes && LoginAfter(t.status, login) == e.login
  {
    DeskFollows(s.desk, s.leaving, Dispatch(frame), Payload(frame));
  }

  lemma DeskFollows(d: Desk, leaving: bool, verb: Option<Verb>, rest: string)
    requires |d.names| == |d.counts|
    ensures DeskAfter(d, ParseRest(verb, rest)).names == ReactToVerb(d.names, leaving, verb, rest).partners
  {
  }

  /** And so for a typed line. */
  lemma LinesFollow(s: Session, line: string)
    requires IsSession(s)
    ensures var t, e := TakeLine(s, line), TypeLine(Chatting, s.desk.names, line);
            t.desk.names == e.partners && t.written == s.written + e.writes
            && LoginAfter(t.status, if t.leaving then Leaving else Chatting) == e.login
  {
    TypedFollows(s.desk, ParseCommand(line), line);
  }

  lemma TypedFollows(d: Desk, command: Command, line: string)
    ensures DeskTyped(d, command, line).names == ObeyLine(d.names, command, line).partners
  {
  }
}
