/** From a typed line, through both programs and any division into chunks, to the other user's window. */
module EndToEnd {
  import opened Basics
  import opened Text
  import opened Framing
  import opened Messages
  import opened Registry
  import opened ChatSystem
  import opened Wire
  import opened Handshake
  import Server
  import Clients

  // ----- terminators next to names

  predicate NoNewline(s: string) {
    forall k :: 0 <= k < |s| ==> s[k] != '\n'
  }

  /** A terminator does not begin in a text without newlines that ends in a space. */
  lemma EndingsAfter(head: string, s: string, i: nat)
    requires NoNewline(head) && head != "" && Last(head) == ' '
    ensures EndingAt(head + s, i) <==> i >= |head| && EndingAt(s, i - |head|)
  {
    if i < |head| {
      EndingChars(head + s, i);
      assert (head + s)[i] == head[i];
      assert i + 1 < |head| ==> (head + s)[i + 1] == head[i + 1];
    } else if i + 4 <= |head + s| {
      assert (head + s)[i..i + 4] == s[i - |head|..i - |head| + 4];
    }
  }

  lemma SameEndings(head: string, s: string)
    requires NoNewline(head) && head != "" && Last(head) == ' '
    ensures HasEnding(head + s) <==> HasEnding(s)
    ensures Framable(head + s) <==> Framable(s)
  {
    forall i: nat ensures EndingAt(head + s, i) <==> i >= |head| && EndingAt(s, i - |head|) {
      EndingsAfter(head, s, i);
    }
    forall i: nat
      ensures EndingAt(Terminated(head + s), i) <==> i >= |head| && EndingAt(Terminated(s), i - |head|)
    {
      assert Terminated(head + s) == head + Terminated(s);
      EndingsAfter(head, Terminated(s), i);
    }
    if i: nat :| EndingAt(s, i) {
      assert EndingAt(head + s, i + |head|);
    }
    if i: nat :| i < |s| && EndingAt(Terminated(s), i) {
      assert EndingAt(Terminated(head + s), i + |head|);
    }
  }

  /** A text without newlines is framable. */
  lemma PlainIsFramable(body: string)
    requires NoNewline(body)
    ensures Framable(body)
  {
    forall i: nat | i < |body| ensures !EndingAt(Terminated(body), i) {
      EndingChars(Terminated(body), i);
      assert i + 1 < |body| ==> Terminated(body)[i + 1] == body[i + 1];
      assert i + 1 == |body| ==> Terminated(body)[i + 1] == ENDING[0];
    }
  }

  lemma NamedHead(verb: string, name: string)
    requires NoNewline(verb) && IsName(name)
    ensures var head := verb + " " + (name + " ");
            NoNewline(head) && head != "" && Last(head) == ' '
  {
  }

  lemma HeadAndText(verb: string, name: string, text: string)
    ensures verb + " " + (name + " " + text) == verb + " " + (name + " ") + text
  {
  }

  // ----- the request

  /** Taking terminators out of a text leaves what is before it, if no terminator begins there. */
  lemma {:induction false} StripAfter(head: string, s: string)
    requires NoNewline(head) && head != "" && Last(head) == ' '
    ensures Strip(head + s) == head + Strip(s)
  {
    EndingsAfter(head, s, 0);
    var t := head + s;
    assert |t| >= 4 ==> t[..4] == t[0..0 + 4];
    if |head| == 1 {
      assert t[1..] == s && head == [t[0]];
    } else {
      assert t[1..] == head[1..] + s;
      StripAfter(head[1..], s);
      assert head == [t[0]] + head[1..];
    }
  }

  /** The server reads the name as it was typed, and the text as one pass of `replace` leaves it. */
  lemma RequestIsStripped(name: string, text: string)
    requires IsName(name)
    ensures ParseRequest(Strip(Terminated(Show(To(name, text))))) == Known(To(name, Strip(Terminated(text))))
  {
    var head := "TO" + " " + (name + " ");
    NamedHead("TO", name);
    HeadAndText("TO", name, text);
    HeadAndText("TO", name, Strip(Terminated(text)));
    assert Terminated(head + text) == head + Terminated(text);
    StripAfter(head, Terminated(text));
    SpaceFree(name);
    RequestIsRead(To(name, Strip(Terminated(text))));
  }

  /** A message reaches the server as it was typed exactly when it has no terminator of its own. */
  lemma RequestArrivesIff(name: string, text: string)
    requires IsName(name)
    ensures ParseRequest(Strip(Terminated(Show(To(name, text))))) == Known(To(name, text)) <==> !HasEnding(text)
  {
    RequestIsStripped(name, text);
    StripUndoesTerminated(text);
  }

  // ----- the whole way

  lemma ChatIsRead(rest: string)
    ensures Clients.ParseCommand("/chat" + " " + rest) == Clients.ChatCommand
  {
    WordThenSpace("/chat", rest);
    Clients.CommandsAreObeyed("/chat" + " " + rest, Clients.ChatCommand);
  }

  /** What is typed after /chat is what is written after TO. */
  lemma ChatLineIsRequest(partners: seq<string>, name: string, text: string)
    requires IsName(name)
    ensures var line := "/chat" + " " + (name + " " + text);
            && Clients.ParseCommand(line) == Clients.ChatCommand
            && Clients.ObeyLine(partners, Clients.ChatCommand, line)
               == Clients.LineMove(Meet(partners, name), [Terminated(Show(To(name, text)))], false, Clients.Going)
  {
    var rest := name + " " + text;
    var line := "/chat" + " " + rest;
    ChatIsRead(rest);
    WordThenSpace(name, text);
    assert line[5..] == " " + rest && line[6..] == rest;
    assert "TO" + (" " + rest) == "TO" + " " + rest;
  }

  lemma RequestIsForwarded(users: seq<User>, i: nat, sender: string, j: nat, name: string, text: string)
    requires IsName(name)
    requires HolderOf(users, name) == Some(j) && NameOf(users, i) == Some(sender)
    ensures Server.HandleText(users, i, Strip(Terminated(Show(To(name, text)))))
            == Reply(users, [Send(j, From(sender, Strip(Terminated(text))))], Serving)
  {
    RequestIsStripped(name, text);
  }

  /** From every division into chunks, the text of a frame is read as this message, and no other frame is. */
  ghost predicate IsReceived(body: string, m: Msg) {
    forall chunks :: Divides(chunks, [body]) ==> |Frames(chunks)| == 1 && ParseFrame(Frames(chunks)[0]) == Some(m)
  }

  lemma CutAfterHead(head: string, t: string) returns (n: nat, chunks: seq<string>)
    requires NoNewline(head) && head != "" && Last(head) == ' ' && !Framable(head + t)
    ensures n < |t| && Divides(chunks, [head + t])
    ensures Frames(chunks) != [] && Frames(chunks)[0] == head + t[..n]
  {
    var body := head + t;
    var i: nat :| i < |body| && EndingAt(Terminated(body), i);
    i := FirstEnding(body, i);
    assert Terminated(body) == head + Terminated(t);
    EndingsAfter(head, Terminated(t), i);
    n, chunks := i - |head|, CutAt(body, i);
    CutDivides(body, i);
    CutComesOut([], body, i, []);
    assert PiecesOf([]) + CutAt(body, i) + [] == CutAt(body, i) && [] + [body[..i]] == [body[..i]];
    assert body[..i] == head + t[..n];
  }

  lemma ShownEndings(sender: string, t: string)
    requires IsName(sender)
    ensures Framable(Show(From(sender, t))) <==> Framable(t)
  {
    NamedHead("FROM", sender);
    SameEndings("FROM" + " " + (sender + " "), t);
    HeadAndText("FROM", sender, t);
  }

  /** If a message can be cut, its beginning can be taken for all of it. */
  lemma ReceivedPart(sender: string, t: string) returns (n: nat, chunks: seq<string>)
    requires IsName(sender) && !Framable(t)
    ensures n < |t| && Divides(chunks, [Show(From(sender, t))])
    ensures Frames(chunks) != [] && Frames(chunks)[0] == Show(From(sender, t[..n]))
  {
    ShownEndings(sender, t);
    NamedHead("FROM", sender);
    HeadAndText("FROM", sender, t);
    n, chunks := CutAfterHead("FROM" + " " + (sender + " "), t);
    HeadAndText("FROM", sender, t[..n]);
  }

  lemma ShownReassembles(sender: string, t: string)
    requires IsName(sender)
    ensures Reassembles([Show(From(sender, t))]) <==> Framable(t)
  {
    var body := Show(From(sender, t));
    ShownEndings(sender, t);
    FramableIff(body);
    ReassemblesIff([body]);
    assert body in [body];
  }

  lemma ReceivedWhole(sender: string, t: string)
    requires IsName(sender) && Framable(t)
    ensures Framable(Show(From(sender, t))) && IsReceived(Show(From(sender, t)), From(sender, t))
  {
    ShownEndings(sender, t);
    ShownReassembles(sender, t);
    FrameIsRead(From(sender, t));
  }

  /** A frame is received for a text that is not shorter exactly when it is that text, and is not cut short. */
  lemma ReceivedAs(sender: string, t: string, text: string)
    requires IsName(sender) && |t| <= |text|
    ensures IsReceived(Show(From(sender, t)), From(sender, text)) <==> t == text && Framable(text)
  {
    if Framable(t) {
      ReceivedWhole(sender, t);
      PiecesAreExact([Show(From(sender, t))]);
      assert Divides(PiecesOf([Show(From(sender, t))]), [Show(From(sender, t))]);
    } else {
      var n, chunks := ReceivedPart(sender, t);
      FrameIsRead(From(sender, t[..n]));
      assert From(sender, t[..n]).text != text;
    }
  }

  /** A message is received for what it is exactly when no division cuts it short. */
  lemma ReceivedIff(sender: string, text: string)
    requires IsName(sender)
    ensures IsReceived(Show(From(sender, text)), From(sender, text)) <==> !HasEnding(text) && !EndsInHalf(text)
  {
    ReceivedAs(sender, text, text);
    FramableIff(text);
  }

  /** What the server forwards is one frame in every division exactly when it has no terminator left, nor half of one. */
  lemma ForwardedIsWholeIff(users: seq<User>, i: nat, sender: string, j: nat, name: string, text: string)
    requires IsName(name) && IsName(sender)
    requires HolderOf(users, name) == Some(j) && NameOf(users, i) == Some(sender)
    ensures var t := Strip(Terminated(text));
            var r := Server.HandleText(users, i, Strip(Terminated(Show(To(name, text)))));
            && r == Reply(users, [Send(j, From(sender, t))], Serving)
            && (Reassembles([Show(From(sender, t))]) <==> !HasEnding(t) && !EndsInHalf(t))
  {
    RequestIsForwarded(users, i, sender, j, name, text);
    ShownReassembles(sender, Strip(Terminated(text)));
    FramableIff(Strip(Terminated(text)));
  }

  /** The text reaches the user on connection `j` from every division of the server's bytes, and nobody else. */
  ghost predicate Arrives(users: seq<User>, i: nat, sender: string, j: nat, name: string, text: string) {
    var line := "/chat" + " " + (name + " " + text);
    var written := Clients.ObeyLine([], Clients.ParseCommand(line), line).writes;
    |written| == 1 &&
    var r := Server.HandleText(users, i, Strip(written[0]));
    |r.sends| == 1 && r.sends[0].conn == j && r.users == users
    && IsReceived(Show(r.sends[0].msg), From(sender, text))
  }

  /**
   The message that the user `sender` on connection `i` types for `name`, who is on connection `j`: the
   client there reads exactly the sender and the text, from whatever division of the server's bytes into
   chunks, exactly when the text has no terminator of its own and does not end in half of one.
   */
  lemma TypedTextArrivesIff(users: seq<User>, i: nat, sender: string, j: nat, name: string, text: string)
    requires IsName(name) && IsName(sender)
    requires HolderOf(users, name) == Some(j) && NameOf(users, i) == Some(sender)
    ensures Arrives(users, i, sender, j, name, text) <==> !HasEnding(text) && !EndsInHalf(text)
  {
    ChatLineIsRequest([], name, text);
    RequestIsForwarded(users, i, sender, j, name, text);
    StripUndoesTerminated(text);
    StripShrinks(text);
    ReceivedAs(sender, Strip(Terminated(text)), text);
    FramableIff(text);
  }

  /**
   What goes wrong with a text that ends in half a terminator, though no chunk crosses the end of a
   message: if a chunk ends two bytes early, the half is lost, and so is the whole next message.
   */
  lemma HalfLosesTheNext(a: string, b: string)
    requires Framable(a) && Framable("\r\n" + b)
    ensures var chunks := Pieces(Terminated(a)) + (["\r\n"] + Pieces(Terminated(b)));
            && Divides(chunks, [a + "\r\n", b])
            && Frames(chunks) == [a, "\r\n" + b]
            && Dispatch("\r\n" + b) == None
  {
    var half := "\r\n";
    HalfBefore(a, b);
    HalfAfter(a, b);
    assert [a] + [half + b] == [a, half + b] && [a + half] + [b] == [a + half, b];
    ReassemblyIffAligned(Pieces(Terminated(a)) + ([half] + Pieces(Terminated(b))), [a, half + b]);
    NoVerbStartsWithReturn(half + b);
  }

  lemma HalfBefore(a: string, b: string)
    ensures Divides(Pieces(Terminated(a)) + (["\r\n"] + Pieces(Terminated(b))), [a + "\r\n"] + [b])
  {
    var half, first, second := "\r\n", Pieces(Terminated(a)), Pieces(Terminated(b));
    PiecesAreWhole(Terminated(a));
    PiecesAreWhole(Terminated(b));
    ConcatSnoc(first, half);
    OneDivides(first + [half], a + half);
    OneDivides(second, b);
    DivisionsJoin(first + [half], [a + half], second, [b]);
    assert (first + [half]) + second == first + ([half] + second);
  }

  lemma HalfAfter(a: string, b: string)
    ensures Divides(Pieces(Terminated(a)) + (["\r\n"] + Pieces(Terminated(b))), [a] + ["\r\n" + b])
  {
    var half, first, second := "\r\n", Pieces(Terminated(a)), Pieces(Terminated(b));
    PiecesAreWhole(Terminated(a));
    PiecesAreWhole(Terminated(b));
    ConcatSnoc([], half);
    assert [] + [half] == [half];
    ConcatJoins([half], second);
    OneDivides(first, a);
    OneDivides([half] + second, half + b);
    DivisionsJoin(first, [a], [half] + second, [half + b]);
  }

  lemma NoVerbStartsWithReturn(frame: string)
    requires frame != "" && frame[0] == '\r'
    ensures Dispatch(frame) == None
  {
    forall v: Verb ensures !Matches(frame, v) {
      MatchesIsPrefix(frame, v);
      assert Word(frame)[0] == '\r' && VerbText(v)[0] != '\r';
    }
  }

  // ----- a text that is more than one frame

  predicate NoReturn(s: string) {
    forall k :: 0 <= k < |s| ==> s[k] != '\r'
  }

  lemma StripOne(c: char, s: string)
    requires c != '\r'
    ensures Strip([c] + s) == [c] + Strip(s)
  {
    var t := [c] + s;
    assert |t| >= 4 ==> t[..4][0] != ENDING[0];
    assert t[1..] == s;
  }

  lemma {:induction false} StripPlain(head: string, s: string)
    requires NoReturn(head)
    ensures Strip(head + s) == head + Strip(s)
  {
    if head == "" {
      assert head + s == s;
    } else {
      var c, rest := head[0], head[1..];
      StripPlain(rest, s);
      StripOne(c, rest + s);
      assert head == [c] + rest;
      Associates([c], rest, s);
      Associates([c], rest, Strip(s));
    }
  }

  /** A terminator that the removal of another one puts together. */
  const NESTED := "\r\n\r" + ENDING + "\n"

  lemma StripNested(y: string)
    requires NoReturn(y)
    ensures Strip(NESTED + Terminated(y)) == ENDING + y
  {
    var tail := "\n" + Terminated(y);
    assert Strip(tail) == "\n" + y by {
      StripPlain("\n" + y, ENDING);
      assert ("\n" + y) + ENDING == tail;
      assert ENDING[..4] == ENDING && ENDING[4..] == "";
    }
    StripCore(tail);
    assert NESTED + Terminated(y) == "\r\n\r" + (ENDING + tail);
    assert "\r\n\r" + ("\n" + y) == ENDING + y;
  }

  lemma StripCore(tail: string)
    ensures Strip("\r\n\r" + (ENDING + tail)) == "\r\n\r" + Strip(tail)
  {
    var s3 := ENDING + tail;
    assert s3[..4] == ENDING && s3[4..] == tail;
    assert Strip(s3) == Strip(tail);
    var s2 := "\r" + s3;
    assert s2[..4][1] != ENDING[1] && s2[1..] == s3;
    assert Strip(s2) == ['\r'] + Strip(tail);
    var s1 := "\n" + s2;
    assert s1[..4][0] != ENDING[0] && s1[1..] == s2;
    assert Strip(s1) == ['\n'] + (['\r'] + Strip(tail));
    var s0 := "\r" + s1;
    assert s0[..4][3] != ENDING[3] && s0[1..] == s1;
    assert Strip(s0) == ['\r'] + (['\n'] + (['\r'] + Strip(tail)));
    assert "\r\n\r" + s3 == s0;
  }

  /** The terminators are taken out in one pass, and what is left can hold one. */
  lemma OnePassLeavesOne(x: string, y: string)
    requires NoReturn(x) && NoReturn(y)
    ensures Strip(Terminated(x + NESTED + y)) == x + ENDING + y
  {
    StripPlain(x, NESTED + Terminated(y));
    StripNested(y);
    assert Terminated(x + NESTED + y) == x + (NESTED + Terminated(y));
    assert x + (ENDING + y) == x + ENDING + y;
  }

  lemma PlainText(s: string)
    requires NoReturn(s)
    ensures Framable(s)
  {
    forall i: nat | i < |s| ensures !EndingAt(Terminated(s), i) {
      EndingChars(Terminated(s), i);
    }
  }

  /**
   Then one typed message becomes two frames at the recipient, though no chunk crosses the end of a
   message that the server has written; the second one can be any frame.
   */
  lemma TextBecomesTwoFrames(users: seq<User>, i: nat, sender: string, j: nat, name: string, x: string, y: string)
    requires IsName(name) && IsName(sender) && NoReturn(x) && NoReturn(y)
    requires HolderOf(users, name) == Some(j) && NameOf(users, i) == Some(sender)
    ensures var r := Server.HandleText(users, i, Strip(Terminated(Show(To(name, x + NESTED + y)))));
            var chunks := Pieces(Terminated(Show(From(sender, x)))) + Pieces(Terminated(y));
            && r == Reply(users, [Send(j, From(sender, x + ENDING + y))], Serving)
            && Divides(chunks, [Show(r.sends[0].msg)])
            && Frames(chunks) == [Show(From(sender, x)), y]
  {
    RequestIsForwarded(users, i, sender, j, name, x + NESTED + y);
    OnePassLeavesOne(x, y);
    PlainText(x);
    PlainText(y);
    ReceivedWhole(sender, x);
    TwoFromOne(Show(From(sender, x)), y);
    ShownTwice(sender, x, y);
  }

  lemma ShownTwice(sender: string, x: string, y: string)
    ensures Show(From(sender, x + ENDING + y)) == Terminated(Show(From(sender, x))) + y
  {
    HeadAndText("FROM", sender, x);
    HeadAndText("FROM", sender, x + ENDING + y);
    var head := "FROM" + " " + (sender + " ");
    assert head + (x + ENDING + y) == head + x + ENDING + y;
  }

  lemma TwoFromOne(a: string, y: string)
    requires Framable(a) && Framable(y)
    ensures var chunks := Pieces(Terminated(a)) + Pieces(Terminated(y));
            Divides(chunks, [Terminated(a) + y]) && Frames(chunks) == [a, y]
  {
    var first, second := Pieces(Terminated(a)), Pieces(Terminated(y));
    PiecesAreWhole(Terminated(a));
    PiecesAreWhole(Terminated(y));
    ConcatJoins(first, second);
    Associates(Terminated(a), y, ENDING);
    OneDivides(first + second, Terminated(a) + y);
    OneDivides(first, a);
    OneDivides(second, y);
    DivisionsJoin(first, [a], second, [y]);
    assert [a] + [y] == [a, y];
    ReassemblyIffAligned(first + second, [a, y]);
  }

  // ----- a name that is cut short

  /** What makes the recipient of a /chat line a partner: its name must have no break, or be known already. */
  lemma ChatMeetsIff(partners: seq<string>, b: string, text: string)
    ensures var line := "/chat" + " " + (b + " " + text);
            b in Clients.ObeyLine(partners, Clients.ParseCommand(line), line).partners
            <==> b in partners || Word(b) == b
  {
    var line := "/chat" + " " + (b + " " + text);
    ChatIsRead(b + " " + text);
    assert line[6..] == b + " " + text;
    WordOfFirst(b, text);
    var met := Meet(partners, Word(b));
    assert Word(b) !in partners ==> met[|partners|] == Word(b);
  }

  lemma WordOfFirst(b: string, text: string)
    ensures Word(b + " " + text) == Word(b)
  {
    var s := b + " " + text;
    WordLengthIs(s, WordLength(b));
    assert s[..WordLength(b)] == b[..WordLength(b)];
  }

  /**
   A message to a name with a break other than a space, one that README.md:131 does not rule out: it is
   forwarded and answered, and its confirmation takes the error branch at the sender.
   */
  lemma BrokenNameFails(users: seq<User>, i: nat, a: string, j: nat, b: string, partners: seq<string>, text: string)
    requires IsName(a) && SpaceAt(b) == |b| && Word(b) != b && b !in partners
    requires HolderOf(users, b) == Some(j) && NameOf(users, i) == Some(a)
    requires HolderOf(users, a) == Some(i) && NameOf(users, j) == Some(b) && NamesDistinct(users)
    requires !HasEnding(Show(To(b, text)))
    ensures var line := "/chat" + " " + (b + " " + text);
            var m := Clients.ObeyLine(partners, Clients.ParseCommand(line), line);
            && m.writes == [Terminated(Show(To(b, text)))]
            && Server.HandleText(users, i, Strip(m.writes[0])).sends == [Send(j, From(a, text))]
            && (forall met :: Clients.ChatReaction(met, false, Show(From(a, text))).replies
                              == [Terminated(Show(Morf(a)))])
            && Server.HandleText(users, j, Strip(Terminated(Show(Morf(a))))).sends == [Send(i, Ot(b))]
            && Clients.ChatReaction(m.partners, false, Show(Ot(b))).status == Clients.Error
  {
    BrokenNameIsUnknown(b, partners, text);
    Server.TextIsHandled(users, i, To(b, text));
    forall met ensures Clients.ChatReaction(met, false, Show(From(a, text))).replies == [Terminated(Show(Morf(a)))] {
      FromIsAnswered(met, a, text);
    }
    ReplyIsConfirmed(users, i, a, j, b);
  }

  lemma BrokenNameIsUnknown(b: string, partners: seq<string>, text: string)
    requires Word(b) != b && b !in partners
    ensures var line := "/chat" + " " + (b + " " + text);
            var m := Clients.ObeyLine(partners, Clients.ParseCommand(line), line);
            && m.writes == [Terminated(Show(To(b, text)))]
            && Clients.ChatReaction(m.partners, false, Show(Ot(b))).status == Clients.Error
  {
    var line := "/chat" + " " + (b + " " + text);
    ChatMeetsIff(partners, b, text);
    ChatIsRead(b + " " + text);
    ChatIsWritten(b, text);
    StrangersAreErrors(Clients.ObeyLine(partners, Clients.ParseCommand(line), line).partners, false, b);
  }

  /** A confirmation takes the error branch exactly when its sender is not a partner. */
  lemma StrangersAreErrors(partners: seq<string>, leaving: bool, b: string)
    ensures Clients.ChatReaction(partners, leaving, Show(Ot(b))).status == Clients.Error <==> b !in partners
  {
    VerbAndRest(OT, b);
  }

  lemma FromIsAnswered(met: seq<string>, a: string, text: string)
    requires IsName(a)
    ensures Clients.ChatReaction(met, false, Show(From(a, text))).replies == [Terminated(Show(Morf(a)))]
  {
    var rest := a + " " + text;
    VerbAndRest(FROM, rest);
    WordThenSpace(a, text);
    Clients.ReactionIs(met, false, Show(From(a, text)), Some(FROM), rest);
  }

  lemma ReplyIsConfirmed(users: seq<User>, i: nat, a: string, j: nat, b: string)
    requires IsName(a) && HolderOf(users, a) == Some(i) && NameOf(users, j) == Some(b) && NamesDistinct(users)
    ensures Server.HandleText(users, j, Strip(Terminated(Show(Morf(a))))) == Reply(users, [Send(i, Ot(b))], Serving)
  {
    PlainIsFramable(Show(Morf(a)));
    FramableIff(Show(Morf(a)));
    Server.TextIsHandled(users, j, Morf(a));
    SendToAllNamedIsOne(users, a, Ot(b));
  }

  lemma ChatIsWritten(b: string, text: string)
    ensures var line := "/chat" + " " + (b + " " + text);
            Terminated("TO" + Drop(line, 5)) == Terminated(Show(To(b, text)))
  {
    var line := "/chat" + " " + (b + " " + text);
    assert line[5..] == " " + (b + " " + text);
    assert "TO" + (" " + (b + " " + text)) == "TO" + " " + (b + " " + text);
  }

  // ----- the reply

  /** The reply of the older client: the first token after FROM. */
  function MorfReply(buf: string): Option<string> {
    var ts := Tokens(Drop(buf, 5));
    if ts == [] then None else Some(Terminated("MORF" + " " + ts[0]))
  }

  /** It names the sender only, as the protocol asks. */
  lemma ReplyNamesSender(name: string, text: string)
    requires IsName(name)
    ensures MorfReply(Terminated(Show(From(name, text)))) == Some(Terminated(Show(Morf(name))))
  {
    var rest := " " + text + ENDING;
    var buf := Terminated(Show(From(name, text)));
    assert buf[5..] == name + rest;
    SpaceFree(name);
    FirstToken(name, rest);
  }

  /** The newer client echoes the text as well; then no user with a proper name is told. */
  lemma EchoedReplyReachesNobody(users: seq<User>, c: nat, name: string, text: string)
    requires forall u :: u in users ==> IsName(u.name)
    requires !HasEnding("MORF" + " " + (name + " " + text))
    ensures Server.HandleText(users, c, Strip(Terminated("MORF" + " " + (name + " " + text)))).sends == []
  {
    var echoed := name + " " + text;
    StripUndoesTerminated("MORF" + " " + echoed);
    MorfIsRead(echoed);
    assert echoed[|name|] == ' ';
    assert forall u :: u in users ==> u.name != echoed;
    NobodyNamed(users, echoed, NameOf(users, c));
  }

  lemma {:induction false} NobodyNamed(users: seq<User>, name: string, own: Option<string>)
    requires forall u :: u in users ==> u.name != name
    ensures HolderOf(users, name) == None
    ensures own.Some? ==> SendToAllNamed(users, name, Ot(own.value)) == []
  {
    if users == [] {
    } else {
      assert users[0] in users;
      NobodyNamed(users[1..], name, own);
    }
  }

  // ----- the login

  function LoginBodies(): seq<string> {
    ["U2EM", "MAI", Show(Motd(GREETING))]
  }

  lemma LoginIsFramable()
    ensures forall b :: b in LoginBodies() ==> Framable(b)
    ensures Welcomed(LoginBodies())
  {
    PlainIsFramable("U2EM");
    PlainIsFramable("MAI");
    PlainIsFramable(Show(Motd(GREETING)));
    assert Show(Motd(GREETING))[..4] == "MOTD";
  }

  /** The server's three login frames complete the login exactly when no chunk crosses the end of one. */
  lemma LoginIffAligned(chunks: seq<string>)
    requires Concat(chunks) == Stream(LoginBodies()) && forall c :: c in chunks ==> c != ""
    ensures Progress(Frames(chunks)) == Waiting(10) <==> Aligned(chunks, LoginBodies())
  {
    LoginIsFramable();
    ReassemblyIffAligned(chunks, LoginBodies());
    LoggedInIffWelcomed(Frames(chunks));
    if Welcomed(Frames(chunks)) {
      BytesAreConserved(chunks);
      WelcomeIsWhole(Frames(chunks), Rest(chunks));
    }
  }

  lemma ThreeFrames(a: string, b: string, c: string)
    ensures Stream([a, b, c]) == Terminated(a) + Terminated(b) + Terminated(c)
  {
    assert Front([a, b, c]) == [a, b] && Front([a, b]) == [a] && Front([a]) == [];
    assert Stream([a]) == Terminated(a);
  }

  lemma WelcomeIsWhole(frames: seq<string>, rest: string)
    requires Welcomed(frames) && Stream(frames) + rest == Stream(LoginBodies())
    ensures frames == LoginBodies()
  {
    var greeting := Show(Motd(GREETING));
    var head := Terminated("U2EM") + Terminated("MAI");
    assert frames[..3] == ["U2EM", "MAI", frames[2]];
    ThreeFrames("U2EM", "MAI", frames[2]);
    ThreeFrames("U2EM", "MAI", greeting);
    StreamPrefix(frames, 3);
    assert Stream(frames[..3]) <= Stream(LoginBodies());
    SharedHead(head, Terminated(frames[2]), Terminated(greeting));
    LoginIsFramable();
    NoEarlyFrame(greeting, Terminated(frames[2]));
    assert Terminated(frames[2]) == Terminated(greeting);
    SameBody(frames[2], greeting);
    if |frames| > 3 {
      StreamPrefix(frames, 4);
      StreamNext(frames, 3);
      assert false;
    }
    assert frames[..3] == frames;
  }

  lemma SharedHead(head: string, s: string, t: string)
    requires head + s <= head + t
    ensures s <= t
  {
    assert s == (head + s)[|head|..] && t == (head + t)[|head|..];
  }

  lemma SameBody(a: string, b: string)
    requires Terminated(a) == Terminated(b)
    ensures a == b
  {
    assert a == Terminated(a)[..|Terminated(a)| - 4] && b == Terminated(b)[..|Terminated(b)| - 4];
  }

  /** One read that returns MAI and MOTD together makes the login fail. */
  lemma CoalescedLoginFails()
    ensures var chunks := [Terminated("U2EM"), Terminated("MAI") + Terminated(Show(Motd(GREETING)))];
            Concat(chunks) == Stream(LoginBodies()) && Progress(Frames(chunks)) == BadFrame
  {
    var a, b, c := "U2EM", "MAI", Show(Motd(GREETING));
    var body := Terminated(b) + c;
    Coalesced(a, b, c);
    assert body[0] == 'M' && |body| > 3;
    ProgressIs([a, body]);
  }

  lemma Coalesced(a: string, b: string, c: string)
    ensures Concat([Terminated(a), Terminated(b) + Terminated(c)]) == Stream([a, b, c])
    ensures Frames([Terminated(a), Terminated(b) + Terminated(c)]) == [a, Terminated(b) + c]
  {
    ConcatTwo(Terminated(a), Terminated(b) + Terminated(c));
    ThreeFrames(a, b, c);
    Associates(Terminated(a), Terminated(b), Terminated(c));
    Associates(Terminated(b), c, ENDING);
    TwoWholeFrames(a, Terminated(b) + c);
  }

  lemma ConcatTwo(s: string, t: string)
    ensures Concat([s, t]) == s + t
  {
    assert Front([s, t]) == [s] && Front([s]) == [];
    assert Concat([s]) == s;
  }

  lemma Associates(s: string, t: string, u: string)
    ensures s + (t + u) == s + t + u
  {
  }

  lemma TwoWholeFrames(a: string, b: string)
    ensures Frames([Terminated(a), Terminated(b)]) == [a, b]
  {
    var s, t := Terminated(a), Terminated(b);
    assert Front([s, t]) == [s] && Front([s]) == [];
    WholeFrame(a);
    WholeFrame(b);
    assert Rest([s]) == "" && Frames([s]) == [a];
  }
}
