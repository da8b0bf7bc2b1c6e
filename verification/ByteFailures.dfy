/**
 When the error for a confirmation from "a user that never existed" can be reached on bytes: with proper
 names and texts exactly when the names clash; with a name that is cut short, or with a text that is more
 than one frame, without any clash.
 */
module ByteFailures {
  import opened Basics
  import opened Text
  import opened Framing
  import opened Messages
  import opened Registry
  import opened ChatSystem
  import opened Wire
  import opened History
  import opened Confirmations
  import opened EndToEnd
  import opened Refinement
  import opened Server
  import opened Clients
  import opened ByteRuns
  import opened ByteSystem
  import opened ByteRefinement

  // ----- proper names and texts

  /** Some run on bytes, with proper lines, takes the error branch at some client. */
  ghost predicate CanFailOnBytes(names: seq<string>) {
    exists moves, k :: ProperMoves(moves) && FailsAt(Run(Begin(names), moves), k)
  }

  ghost predicate FailsAt(b: Net, k: nat) {
    k < |b.peers| && b.peers[k].login == Failed
  }

  lemma PlainIsProper(names: seq<string>, steps: seq<Step>)
    requires AreNames(names) && PlainChats(names, steps)
    ensures ProperInput(steps, true)
  {
    assert IsText("", true);
  }

  /** It does exactly when two clients are configured with one name and a third client with another. */
  lemma FailureOnBytesIff(names: seq<string>)
    requires AreNames(names)
    ensures CanFailOnBytes(names) <==> exists i, k, j :: Clash(names, i, k, j)
  {
    if moves, k: nat :| ProperMoves(moves) && FailsAt(Run(Begin(names), moves), k) {
      var steps := BytesFollow(names, moves);
      assert PeerAgrees(Run(Begin(names), moves).peers[k], Exec(Init(names), steps).clients[k]);
      assert CanFail(names);
      FailureIffClash(names);
    }
    if i: nat, k: nat, j: nat :| Clash(names, i, k, j) {
      var steps := ClashReachesFailure(names, i, k, j);
      PlainIsProper(names, steps);
      var moves := ProtocolIsFollowed(names, steps);
      assert PeerAgrees(Run(Begin(names), moves).peers[k], Exec(Init(names), steps).clients[k]);
      assert FailsAt(Run(Begin(names), moves), k);
    }
  }

  /** No two clients are configured with one name. */
  ghost predicate AllDiffer(names: seq<string>) {
    forall i, k :: 0 <= i < k < |names| ==> names[i] != names[k]
  }

  lemma DifferentNamesUsedOnce(names: seq<string>, steps: seq<Step>)
    requires AllDiffer(names)
    ensures NamesUsedOnce(Exec(Init(names), steps).log)
  {
    var log := Exec(Init(names), steps).log;
    forall i, k, n | Registered(i, n) in log && Registered(k, n) in log ensures i == k {
      var p :| 0 <= p < |log| && log[p] == Registered(i, n);
      var q :| 0 <= q < |log| && log[q] == Registered(k, n);
      EventHolds(names, steps, p);
      EventHolds(names, steps, q);
    }
  }

  /**
   If all names differ, then in every run on bytes the confirmations in a client's buffer and channel come
   from its partners: the two hold the frames of `q`.
   */
  lemma ConfirmersAreKnownOnBytes(names: seq<string>, moves: seq<Move>, i: nat) returns (q: seq<Msg>)
    requires AreNames(names) && AllDiffer(names) && ProperMoves(moves) && i < |names|
    ensures var n := Run(Begin(names), moves).peers[i];
            && Holds(n.buffer, n.inbox, Encoded(q)) && n.login != Failed
            && forall m :: m in q && m.Ot? ==> m.name in n.partners
  {
    var steps := BytesFollow(names, moves);
    var c := Exec(Init(names), steps).clients[i];
    assert PeerAgrees(Run(Begin(names), moves).peers[i], c);
    q := c.inbox;
    DifferentNamesUsedOnce(names, steps);
    NobodyFails(names, steps, i);
    forall m | m in q && m.Ot? ensures m.name in c.partners {
      var k :| 0 <= k < |q| && q[k] == m;
      ConfirmersAreKnown(names, steps, i, k);
    }
  }

  /**
   The client `k`, folded over the frames of some division of what the server wrote to it, fails. The
   texts may end in half a terminator here, if the division does not cut there.
   */
  ghost predicate FailsOnFrames(names: seq<string>, steps: seq<Step>, k: nat, chunks: seq<string>) {
    && ProperRunInput(names, steps) && k < |names|
    && Divides(chunks, Shows(Arrived(names, steps, k))) && Frames(chunks) == Shows(Arrived(names, steps, k))
    && ClientRun(names[k], Frames(chunks), Acts(names, steps, k)).login == Failed
  }

  lemma FailureOnFramesIff(names: seq<string>)
    requires AreNames(names)
    ensures (exists steps, k, chunks :: FailsOnFrames(names, steps, k, chunks)) <==> exists i, k, j :: Clash(names, i, k, j)
  {
    if steps, k: nat, chunks :| FailsOnFrames(names, steps, k, chunks) {
      RunsAreByteRuns(names, steps, k, chunks);
      assert Exec(Init(names), steps).clients[k].login == Failed;
      assert CanFail(names);
      FailureIffClash(names);
    }
    if i: nat, k: nat, j: nat :| Clash(names, i, k, j) {
      var steps := ClashReachesFailure(names, i, k, j);
      PlainIsProper(names, steps);
      WholeFrames(names, steps, k);
      var chunks := PiecesOf(Shows(Arrived(names, steps, k)));
      RunsAreByteRuns(names, steps, k, chunks);
      assert FailsOnFrames(names, steps, k, chunks);
    }
  }

  lemma WholeFrames(names: seq<string>, steps: seq<Step>, k: nat)
    requires AreNames(names) && ProperInput(steps, true) && k < |names|
    ensures ProperRunInput(names, steps)
    ensures var bodies := Shows(Arrived(names, steps, k));
            Divides(PiecesOf(bodies), bodies) && Frames(PiecesOf(bodies)) == bodies
  {
    var arrived := Arrived(names, steps, k);
    ArrivedIsProper(names, steps, k, true);
    forall body | body in Shows(arrived) ensures Framable(body) {
      var n :| 0 <= n < |arrived| && Shows(arrived)[n] == body;
      assert arrived[n] in arrived;
      ProperText(arrived[n]);
      FramableIff(body);
    }
    PiecesAreExact(Shows(arrived));
  }

  // ----- moves on bytes, one after the other

  lemma Then(b: Net, moves: seq<Move>, mv: Move) returns (more: seq<Move>)
    ensures Run(b, more) == Go(Run(b, moves), mv)
  {
    more := moves + [mv];
    Snoc(moves, mv);
  }

  /** What a client is after a whole frame, when `left` is what remains of its channel. */
  function AfterFrame(n: Peer, body: string, left: seq<string>): Peer {
    Affected(n.(buffer := "", inbox := left), ReadFrame(n.login, n.partners, n.name, body))
  }

  ghost predicate HasFrame(n: Peer, body: string, rest: string) {
    && n.login in {Hello, Naming, Approved, Chatting, Leaving}
    && n.inbox != [] && n.buffer + n.inbox[0] == Terminated(body) + rest
    && |n.buffer| < |Terminated(body)| && Framable(body)
  }

  /** A frame at the head of a channel is read in as many chunks as it takes, whatever comes after it. */
  lemma ReadsFrame(b: Net, moves: seq<Move>, i: nat, body: string, rest: string) returns (more: seq<Move>)
    requires i < |b.peers| && HasFrame(Run(b, moves).peers[i], body, rest)
    ensures var c := Run(b, moves);
            var n := c.peers[i];
            var left := (if rest == "" then [] else [rest]) + n.inbox[1..];
            Run(b, more) == c.(peers := c.peers[i := AfterFrame(n, body, left)])
    decreases |Run(b, moves).peers[i].inbox[0]|
  {
    var c := Run(b, moves);
    var n := c.peers[i];
    var due := |Terminated(body)| - |n.buffer|;
    var size := if due < MAXLINE then due else MAXLINE;
    more := Then(b, moves, Reads(i, size));
    if size == due {
      LastRead(n, body, rest);
    } else {
      PartRead(n, body, rest, size);
      var m := Run(b, more).peers[i];
      more := ReadsFrame(b, more, i, body, rest);
      assert m.inbox[1..] == n.inbox[1..];
    }
  }

  lemma LastRead(n: Peer, body: string, rest: string)
    requires HasFrame(n, body, rest)
    requires CanRead(n, |Terminated(body)| - |n.buffer|)
    ensures ReadSome(n, |Terminated(body)| - |n.buffer|)
            == AfterFrame(n, body, (if rest == "" then [] else [rest]) + n.inbox[1..])
  {
    var size := |Terminated(body)| - |n.buffer|;
    var whole := n.buffer + n.inbox[0];
    assert n.buffer + n.inbox[0][..size] == whole[..|Terminated(body)|] == Terminated(body);
    assert n.inbox[0][size..] == whole[|Terminated(body)|..] == rest;
    WholeFrame(body);
    assert Feed(n.buffer, n.inbox[0][..size]) == Fed("", Some(body));
    assert [] + n.inbox[1..] == n.inbox[1..];
  }

  lemma PartRead(n: Peer, body: string, rest: string, size: nat)
    requires HasFrame(n, body, rest) && CanRead(n, size) && |n.buffer| + size < |Terminated(body)|
    ensures var m := ReadSome(n, size);
            HasFrame(m, body, rest) && m.inbox[1..] == n.inbox[1..] && |m.inbox[0]| < |n.inbox[0]|
            && m == n.(buffer := m.buffer, inbox := m.inbox)
  {
    var s := n.buffer + n.inbox[0][..size];
    assert s == (n.buffer + n.inbox[0])[..|s|] == Terminated(body)[..|s|];
    NoEarlyFrame(body, s);
    assert Feed(n.buffer, n.inbox[0][..size]) == Fed(s, None);
    assert s + n.inbox[0][size..] == n.buffer + n.inbox[0];
  }

  /** A client that is chatting, with nothing on its way to or from it. */
  ghost predicate IsIdle(n: Peer, name: string, partners: seq<string>) {
    n == Peer(name, Chatting, partners, "", [], [], Serving)
  }

  lemma DataToOne(j: nat, m: Msg, k: nat)
    ensures DataOf(Packets([Send(j, m)]), k) == if j == k then [Terminated(Show(m))] else []
  {
    PacketsShort(Send(j, m), []);
    DataOfOne(Packet(j, Terminated(Show(m))), k);
  }

  /** The server reads a message of `i` and writes one to `j`. */
  lemma ServesOne(b: Net, moves: seq<Move>, i: nat, j: nat, m: Msg) returns (more: seq<Move>)
    requires i < |b.peers| && j < |b.peers|
    requires var c := Run(b, moves);
             CanMove(c, Serves(i))
             && HandleText(c.users, i, Strip(c.peers[i].outbox[0])) == Reply(c.users, [Send(j, m)], Serving)
    ensures var c := Run(b, moves);
            var served := c.peers[i := c.peers[i].(outbox := c.peers[i].outbox[1..])];
            Run(b, more) == Net(served[j := served[j].(inbox := served[j].inbox + [Terminated(Show(m))])], c.users)
  {
    var c := Run(b, moves);
    more := Then(b, moves, Serves(i));
    var served := c.peers[i := c.peers[i].(outbox := c.peers[i].outbox[1..])];
    var d := Run(b, more);
    forall k | 0 <= k < |d.peers|
      ensures d.peers[k] == served[j := served[j].(inbox := served[j].inbox + [Terminated(Show(m))])][k]
    {
      DataToOne(j, m, k);
      assert served[k].inbox + [] == served[k].inbox;
    }
  }

  /** The same for another client, and the only message that waits. */
  lemma ServesAnother(b: Net, moves: seq<Move>, i: nat, j: nat, request: string, m: Msg) returns (more: seq<Move>)
    requires i < |b.peers| && j < |b.peers| && i != j
    requires var c := Run(b, moves);
             && CanMove(c, Serves(i)) && c.peers[i].outbox == [request] && c.peers[j].inbox == []
             && HandleText(c.users, i, Strip(request)) == Reply(c.users, [Send(j, m)], Serving)
    ensures var c, d := Run(b, moves), Run(b, more);
            && d.users == c.users && d.peers[i] == c.peers[i].(outbox := [])
            && d.peers[j] == c.peers[j].(inbox := [Terminated(Show(m))])
  {
    more := ServesOne(b, moves, i, j, m);
    assert [request][1..] == [] && [] + [Terminated(Show(m))] == [Terminated(Show(m))];
  }

  /** The same for the client itself. */
  lemma ServesBack(b: Net, moves: seq<Move>, i: nat, request: string, m: Msg) returns (more: seq<Move>)
    requires i < |b.peers|
    requires var c := Run(b, moves);
             && CanMove(c, Serves(i)) && c.peers[i].outbox == [request] && c.peers[i].inbox == []
             && HandleText(c.users, i, Strip(request)) == Reply(c.users, [Send(i, m)], Serving)
    ensures var c := Run(b, moves);
            Run(b, more) == c.(peers := c.peers[i := c.peers[i].(outbox := [], inbox := [Terminated(Show(m))])])
  {
    more := ServesOne(b, moves, i, i, m);
    assert [request][1..] == [] && [] + [Terminated(Show(m))] == [Terminated(Show(m))];
  }

  // ----- a text that is more than one frame

  lemma ConfirmationFails(partners: seq<string>, name: string, z: string)
    requires z !in partners
    ensures ReadFrame(Chatting, partners, name, Show(Ot(z))).login == Failed
  {
    StrangersAreErrors(partners, false, z);
  }

  lemma MessageIsMet(partners: seq<string>, name: string, a: string, text: string)
    requires IsName(a)
    ensures ReadFrame(Chatting, partners, name, Show(From(a, text)))
            == Effect(Chatting, Meet(partners, a), [Terminated(Show(Morf(a)))])
  {
    VerbAndRest(FROM, a + " " + text);
    WordThenSpace(a, text);
    ReactionIs(partners, false, Show(From(a, text)), Some(FROM), a + " " + text);
  }

  /** The text that carries a confirmation from `z` inside a message. */
  function Forged(z: string): string {
    "" + NESTED + Show(Ot(z))
  }

  lemma ForgedIsForwarded(users: seq<User>, i: nat, a: string, z: string)
    requires IsName(a) && NoReturn(z) && HolderOf(users, a) == Some(i) && NameOf(users, i) == Some(a)
    ensures var m := From(a, "" + ENDING + Show(Ot(z)));
            && HandleText(users, i, Strip(Terminated(Show(To(a, Forged(z)))))) == Reply(users, [Send(i, m)], Serving)
            && Terminated(Show(m)) == Terminated(Show(From(a, ""))) + Terminated(Show(Ot(z)))
  {
    TextBecomesTwoFrames(users, i, a, i, a, "", Show(Ot(z)));
    ShownTwice(a, "", Show(Ot(z)));
    Associates(Terminated(Show(From(a, ""))), Show(Ot(z)), ENDING);
  }

  /** Client `i` types a line. */
  lemma TypesOne(b: Net, moves: seq<Move>, i: nat, line: string) returns (more: seq<Move>)
    requires i < |b.peers| && Run(b, moves).peers[i].login == Chatting
    ensures var c := Run(b, moves);
            var n := c.peers[i];
            Run(b, more) == c.(peers := c.peers[i := Affected(n, TypeLine(n.login, n.partners, line))])
  {
    more := Then(b, moves, Types(i, line));
  }

  /** The client has written the forgery, and the server has returned it. */
  lemma ForgeryComesBack(b: Net, moves: seq<Move>, i: nat, a: string, z: string) returns (more: seq<Move>)
    requires i < |b.peers| && IsName(a) && NoReturn(z)
    requires var c := Run(b, moves);
             IsIdle(c.peers[i], a, []) && HolderOf(c.users, a) == Some(i) && NameOf(c.users, i) == Some(a)
    ensures Run(b, more).peers[i]
            == Peer(a, Chatting, [a], "", [Terminated(Show(From(a, ""))) + Terminated(Show(Ot(z)))], [], Serving)
  {
    var line := "/chat" + " " + (a + " " + Forged(z));
    var request := Terminated(Show(To(a, Forged(z))));
    var users := Run(b, moves).users;
    var m := From(a, "" + ENDING + Show(Ot(z)));
    ChatLineIsRequest([], a, Forged(z));
    assert TypeLine(Chatting, [], line) == Effect(Chatting, [a], [request]);
    more := TypesOne(b, moves, i, line);
    assert Run(b, more).peers[i] == Peer(a, Chatting, [a], "", [], [request], Serving);
    ForgedIsForwarded(users, i, a, z);
    more := ServesBack(b, more, i, request, m);
  }

  /** A client reads the only frame that waits for it. */
  lemma ReadsOnly(b: Net, moves: seq<Move>, i: nat, body: string) returns (more: seq<Move>)
    requires i < |b.peers| && Framable(body)
    requires var n := Run(b, moves).peers[i];
             n.login in {Hello, Naming, Approved, Chatting, Leaving} && n.buffer == "" && n.inbox == [Terminated(body)]
    ensures var c := Run(b, moves);
            var n := c.peers[i];
            Run(b, more) == c.(peers := c.peers[i := Affected(n.(inbox := []), ReadFrame(n.login, n.partners, n.name, body))])
  {
    assert "" + Terminated(body) == Terminated(body) + "";
    more := ReadsFrame(b, moves, i, body, "");
    assert [] + [Terminated(body)][1..] == [];
  }

  /** A client reads and answers a message. */
  lemma AnswersMessage(b: Net, moves: seq<Move>, j: nat, name: string, a: string) returns (more: seq<Move>)
    requires j < |b.peers| && IsName(a)
    requires Run(b, moves).peers[j] == Peer(name, Chatting, [], "", [Terminated(Show(From(a, "")))], [], Serving)
    ensures var c := Run(b, moves);
            Run(b, more)
            == c.(peers := c.peers[j := Peer(name, Chatting, [a], "", [], [Terminated(Show(Morf(a)))], Serving)])
  {
    PlainText("");
    ReceivedWhole(a, "");
    more := ReadsOnly(b, moves, j, Show(From(a, "")));
    MessageIsMet([], name, a, "");
    assert Meet([], a) == [a] && [] + [Terminated(Show(Morf(a)))] == [Terminated(Show(Morf(a)))];
  }

  /** A client fails on the confirmation of a stranger. */
  lemma FailsOn(b: Net, moves: seq<Move>, i: nat, z: string) returns (more: seq<Move>)
    requires i < |b.peers| && NoReturn(z)
    requires var n := Run(b, moves).peers[i];
             n.login == Chatting && n.buffer == "" && n.inbox == [Terminated(Show(Ot(z)))] && z !in n.partners
    ensures FailsAt(Run(b, more), i)
  {
    var n := Run(b, moves).peers[i];
    PlainText(Show(Ot(z)));
    more := ReadsOnly(b, moves, i, Show(Ot(z)));
    ConfirmationFails(n.partners, n.name, z);
  }

  lemma ForgeryIsCut(b: Net, moves: seq<Move>, i: nat, a: string, z: string) returns (more: seq<Move>)
    requires i < |b.peers| && IsName(a)
    requires Run(b, moves).peers[i]
             == Peer(a, Chatting, [a], "", [Terminated(Show(From(a, ""))) + Terminated(Show(Ot(z)))], [], Serving)
    ensures Run(b, more).peers[i]
            == Peer(a, Chatting, [a], "", [Terminated(Show(Ot(z)))], [Terminated(Show(Morf(a)))], Serving)
  {
    var first, second := Show(From(a, "")), Terminated(Show(Ot(z)));
    PlainText("");
    ReceivedWhole(a, "");
    assert "" + (Terminated(first) + second) == Terminated(first) + second;
    more := ReadsFrame(b, moves, i, first, second);
    MessageIsMet([a], a, a, "");
    assert [Terminated(first) + second][1..] == [] && [second] + [] == [second];
  }

  /** A client that is logged in can be made to fail by one line that its user types. */
  lemma ForgeryFails(b: Net, moves: seq<Move>, i: nat, a: string, z: string) returns (more: seq<Move>)
    requires i < |b.peers| && IsName(a) && NoReturn(z) && z != a
    requires var c := Run(b, moves);
             IsIdle(c.peers[i], a, []) && HolderOf(c.users, a) == Some(i) && NameOf(c.users, i) == Some(a)
    ensures FailsAt(Run(b, more), i)
  {
    more := ForgeryComesBack(b, moves, i, a, z);
    more := ForgeryIsCut(b, more, i, a, z);
    more := FailsOn(b, more, i, z);
  }

  /** So without a condition on the texts, the error can be reached with any names. */
  lemma AnyNamesFail(names: seq<string>, i: nat, z: string) returns (moves: seq<Move>)
    requires AreNames(names) && i < |names| && NoReturn(z) && z != names[i]
    ensures FailsAt(Run(Begin(names), moves), i)
  {
    var steps, t := LogIn(names, [], i);
    PlainIsProper(names, steps);
    moves := ProtocolIsFollowed(names, steps);
    var b := Run(Begin(names), moves);
    assert PeerAgrees(b.peers[i], t.clients[i]);
    assert b.users == [User(names[i], i)];
    moves := ForgeryFails(Begin(names), moves, i, names[i], z);
  }

  // ----- a name that is cut short

  lemma BrokenFrames(a: string, b: string)
    requires IsName(a) && NoReturn(b)
    ensures Framable(Show(From(a, ""))) && Framable(Show(Ot(b))) && !HasEnding(Show(To(b, "")))
  {
    PlainText("");
    ReceivedWhole(a, "");
    PlainText(Show(Ot(b)));
    PlainText(Show(To(b, "")));
    FramableIff(Show(To(b, "")));
  }

  /** The names of two idle clients, and the registry that has both. */
  ghost predicate TwoIdle(b: Net, i: nat, a: string, j: nat, to: string) {
    && i < |b.peers| && j < |b.peers| && i != j && IsName(a) && NoReturn(to) && SpaceAt(to) == |to|
    && IsIdle(b.peers[i], a, []) && IsIdle(b.peers[j], to, []) && NamesDistinct(b.users)
    && HolderOf(b.users, to) == Some(j) && NameOf(b.users, i) == Some(a)
    && HolderOf(b.users, a) == Some(i) && NameOf(b.users, j) == Some(to)
  }

  lemma BrokenIsWritten(b: Net, i: nat, a: string, to: string) returns (moves: seq<Move>)
    requires i < |b.peers| && IsIdle(b.peers[i], a, []) && Word(to) != to
    ensures Run(b, moves)
            == b.(peers := b.peers[i := Peer(a, Chatting, [Word(to)], "", [], [Terminated(Show(To(to, "")))], Serving)])
  {
    BrokenIsTyped(to);
    assert [] + [Terminated(Show(To(to, "")))] == [Terminated(Show(To(to, "")))];
    moves := TypesOne(b, [], i, "/chat" + " " + (to + " " + ""));
  }

  /** The message has been written, and forwarded. */
  lemma BrokenIsForwarded(b: Net, i: nat, a: string, j: nat, to: string) returns (moves: seq<Move>)
    requires TwoIdle(b, i, a, j, to) && Word(to) != to
    ensures var c := Run(b, moves);
            && c.users == b.users && c.peers[i] == Peer(a, Chatting, [Word(to)], "", [], [], Serving)
            && c.peers[j] == Peer(to, Chatting, [], "", [Terminated(Show(From(a, "")))], [], Serving)
  {
    BrokenFrames(a, to);
    BrokenIsServed(b.users, i, a, j, to);
    moves := BrokenIsWritten(b, i, a, to);
    moves := ServesAnother(b, moves, i, j, Terminated(Show(To(to, ""))), From(a, ""));
  }

  /** It has been read, and answered. */
  lemma BrokenIsAnswered(b: Net, i: nat, a: string, j: nat, to: string) returns (moves: seq<Move>)
    requires TwoIdle(b, i, a, j, to) && Word(to) != to
    ensures var c := Run(b, moves);
            && c.users == b.users && c.peers[i] == Peer(a, Chatting, [Word(to)], "", [], [], Serving)
            && c.peers[j] == Peer(to, Chatting, [a], "", [], [Terminated(Show(Morf(a)))], Serving)
  {
    moves := BrokenIsForwarded(b, i, a, j, to);
    moves := AnswersMessage(b, moves, j, to, a);
  }

  /** And the reply has been passed on. */
  lemma BrokenIsConfirmed(b: Net, i: nat, a: string, j: nat, to: string) returns (moves: seq<Move>)
    requires TwoIdle(b, i, a, j, to) && Word(to) != to
    ensures Run(b, moves).peers[i] == Peer(a, Chatting, [Word(to)], "", [Terminated(Show(Ot(to)))], [], Serving)
  {
    moves := BrokenIsAnswered(b, i, a, j, to);
    ReplyIsConfirmed(b.users, i, a, j, to);
    moves := ServesAnother(b, moves, j, i, Terminated(Show(Morf(a))), Ot(to));
  }

  /**
   A message to a name with a break in it, a tab for example, makes its sender fail, though all names
   differ: the sender knows the name up to the break only.
   */
  lemma BrokenNameReachesFailure(b: Net, i: nat, a: string, j: nat, to: string) returns (moves: seq<Move>)
    requires TwoIdle(b, i, a, j, to) && Word(to) != to
    ensures FailsAt(Run(b, moves), i)
  {
    moves := BrokenIsConfirmed(b, i, a, j, to);
    moves := FailsOn(b, moves, i, to);
  }

  lemma BrokenIsTyped(b: string)
    requires Word(b) != b
    ensures TypeLine(Chatting, [], "/chat" + " " + (b + " " + ""))
            == Effect(Chatting, [Word(b)], [Terminated(Show(To(b, "")))])
  {
    var line := "/chat" + " " + (b + " " + "");
    ChatIsRead(b + " " + "");
    ChatIsWritten(b, "");
    WordOfFirst(b, "");
    assert line[6..] == b + " " + "";
  }

  lemma BrokenIsServed(users: seq<User>, i: nat, a: string, j: nat, b: string)
    requires IsName(a) && SpaceAt(b) == |b| && !HasEnding(Show(To(b, ""))) && NamesDistinct(users)
    requires HolderOf(users, b) == Some(j) && NameOf(users, i) == Some(a)
    requires HolderOf(users, a) == Some(i) && NameOf(users, j) == Some(b)
    ensures HandleText(users, i, Strip(Terminated(Show(To(b, ""))))) == Reply(users, [Send(j, From(a, ""))], Serving)
    ensures HandleText(users, j, Strip(Terminated(Show(Morf(a))))) == Reply(users, [Send(i, Ot(b))], Serving)
  {
    TextIsHandled(users, i, To(b, ""));
    ReplyIsConfirmed(users, i, a, j, b);
  }

  // ----- logging in on bytes, whatever the name is

  lemma FixedTexts()
    ensures Framable("ME2U") && Framable("U2EM") && Framable("MAI") && Framable(Show(Motd(GREETING)))
  {
    PlainText("ME2U");
    PlainText("U2EM");
    PlainText("MAI");
    PlainText(Show(Motd(GREETING)));
  }

  lemma DialIsAnswered(users: seq<User>, i: nat)
    ensures HandleText(users, i, Strip(Terminated("ME2U"))) == Reply(users, [Send(i, U2em)], Serving)
  {
    FixedTexts();
    FramableIff("ME2U");
    TextIsHandled(users, i, Me2u);
  }

  lemma NameIsAccepted(users: seq<User>, i: nat, name: string)
    requires NoReturn(name) && HolderOf(users, name) == None
    ensures HandleText(users, i, Strip(Terminated(Show(Iam(name)))))
            == Reply(users + [User(name, i)], [Send(i, Mai), Send(i, Motd(GREETING))], Serving)
  {
    PlainText(Show(Iam(name)));
    FramableIff(Show(Iam(name)));
    TextIsHandled(users, i, Iam(name));
  }

  lemma LoginFrames(name: string)
    ensures ReadFrame(Hello, [], name, "U2EM") == Effect(Naming, [], [Terminated(Show(Iam(name)))])
    ensures ReadFrame(Naming, [], name, "MAI") == Effect(Approved, [], [])
    ensures ReadFrame(Approved, [], name, Show(Motd(GREETING))) == Effect(Chatting, [], [])
  {
    assert "MAI"[0] != "ETAKEN"[0];
    assert Show(Motd(GREETING))[..4] == "MOTD";
  }

  /** Client `i` as it is in state `login`. */
  function Logging(name: string, login: Login, inbox: seq<string>, outbox: seq<string>): Peer {
    Peer(name, login, [], "", inbox, outbox, Serving)
  }

  lemma Hails(b: Net, moves: seq<Move>, i: nat, name: string) returns (more: seq<Move>)
    requires i < |b.peers| && Run(b, moves).peers[i] == Logging(name, Start, [], [])
    ensures var c := Run(b, moves);
            Run(b, more) == c.(peers := c.peers[i := Logging(name, Hello, [Terminated("U2EM")], [])])
  {
    more := Then(b, moves, Dials(i));
    assert [] + [Terminated("ME2U")] == [Terminated("ME2U")];
    assert Run(b, more).peers[i] == Logging(name, Hello, [], [Terminated("ME2U")]);
    DialIsAnswered(Run(b, more).users, i);
    more := ServesBack(b, more, i, Terminated("ME2U"), U2em);
  }

  lemma GivesName(b: Net, moves: seq<Move>, i: nat, name: string) returns (more: seq<Move>)
    requires i < |b.peers| && Run(b, moves).peers[i] == Logging(name, Hello, [Terminated("U2EM")], [])
    ensures var c := Run(b, moves);
            Run(b, more) == c.(peers := c.peers[i := Logging(name, Naming, [], [Terminated(Show(Iam(name)))])])
  {
    FixedTexts();
    LoginFrames(name);
    more := ReadsOnly(b, moves, i, "U2EM");
    assert [] + [Terminated(Show(Iam(name)))] == [Terminated(Show(Iam(name)))];
  }

  lemma Joins(b: Net, moves: seq<Move>, i: nat, name: string) returns (more: seq<Move>)
    requires i < |b.peers| && NoReturn(name) && HolderOf(Run(b, moves).users, name) == None
    requires Run(b, moves).peers[i] == Logging(name, Naming, [], [Terminated(Show(Iam(name)))])
    ensures var c := Run(b, moves);
            var inbox := [Terminated("MAI"), Terminated(Show(Motd(GREETING)))];
            Run(b, more) == Net(c.peers[i := Logging(name, Naming, inbox, [])], c.users + [User(name, i)])
  {
    var c := Run(b, moves);
    var inbox := [Terminated("MAI"), Terminated(Show(Motd(GREETING)))];
    more := Then(b, moves, Serves(i));
    var d := Run(b, more);
    NameIsAccepted(c.users, i, name);
    assert [Terminated(Show(Iam(name)))][1..] == [];
    forall k | 0 <= k < |d.peers| ensures d.peers[k] == c.peers[i := Logging(name, Naming, inbox, [])][k] {
      DataToBoth(i, k);
      assert c.peers[k].inbox + [] == c.peers[k].inbox && [] + inbox == inbox;
    }
  }

  lemma DataToBoth(i: nat, k: nat)
    ensures DataOf(Packets([Send(i, Mai), Send(i, Motd(GREETING))]), k)
            == if i == k then [Terminated("MAI"), Terminated(Show(Motd(GREETING)))] else []
  {
    var x, y := Send(i, Mai), Send(i, Motd(GREETING));
    assert [x] + [y] == [x, y];
    PacketsShort(x, [y]);
    PacketsShort(y, []);
    DataJoins([Packet(i, Terminated(Show(Mai)))], Packets([y]), k);
    DataOfOne(Packet(i, Terminated(Show(Mai))), k);
    DataOfOne(Packet(i, Terminated(Show(y.msg))), k);
  }

  lemma Settles(b: Net, moves: seq<Move>, i: nat, name: string) returns (more: seq<Move>)
    requires i < |b.peers|
    requires Run(b, moves).peers[i]
             == Logging(name, Naming, [Terminated("MAI"), Terminated(Show(Motd(GREETING)))], [])
    ensures var c := Run(b, moves); Run(b, more) == c.(peers := c.peers[i := Logging(name, Chatting, [], [])])
  {
    var mai, motd := Terminated("MAI"), Terminated(Show(Motd(GREETING)));
    FixedTexts();
    LoginFrames(name);
    assert "" + mai == mai + "" && [mai, motd][1..] == [motd] && [] + [motd] == [motd];
    more := ReadsFrame(b, moves, i, "MAI", "");
    assert Run(b, more).peers[i] == Logging(name, Approved, [motd], []);
    more := ReadsOnly(b, more, i, Show(Motd(GREETING)));
  }

  /** A client logs in on bytes, if its name is free. */
  lemma LogsIn(b: Net, moves: seq<Move>, i: nat, name: string) returns (more: seq<Move>)
    requires i < |b.peers| && NoReturn(name) && HolderOf(Run(b, moves).users, name) == None
    requires Run(b, moves).peers[i] == Logging(name, Start, [], [])
    ensures var c := Run(b, moves);
            Run(b, more) == Net(c.peers[i := Logging(name, Chatting, [], [])], c.users + [User(name, i)])
  {
    more := Hails(b, moves, i, name);
    more := GivesName(b, more, i, name);
    more := Joins(b, more, i, name);
    more := Settles(b, more, i, name);
  }

  /** So a name with a break lets the error be reached from the start, next to any name without one. */
  lemma BrokenNamesFail(names: seq<string>, i: nat, j: nat) returns (moves: seq<Move>)
    requires i < |names| && j < |names| && IsName(names[i]) && NoReturn(names[i])
    requires NoReturn(names[j]) && SpaceAt(names[j]) == |names[j]| && Word(names[j]) != names[j]
    ensures FailsAt(Run(Begin(names), moves), i)
  {
    WordThenSpace(names[i], "");
    var b := Begin(names);
    moves := LogsIn(b, [], i, names[i]);
    moves := LogsIn(b, moves, j, names[j]);
    var c := Run(b, moves);
    assert c.users == [User(names[i], i), User(names[j], j)];
    NameOfSecond(c.users);
    var more := BrokenNameReachesFailure(c, i, names[i], j, names[j]);
    moves := RunsJoin(b, moves, more);
  }

  lemma {:induction false} RunsJoin(b: Net, moves: seq<Move>, more: seq<Move>) returns (all: seq<Move>)
    ensures Run(b, all) == Run(Run(b, moves), more)
  {
    if more == [] {
      all := moves;
    } else {
      all := RunsJoin(b, moves, Front(more));
      all := Then(b, all, Last(more));
    }
  }

  /** Such a name, and one that it does not clash with. */
  lemma TabIsEnough()
    ensures var names := ["a", "b\tc"];
            && IsName(names[0]) && NoReturn(names[0])
            && NoReturn(names[1]) && SpaceAt(names[1]) == |names[1]| && Word(names[1]) == "b"
            && forall i, k, j :: !Clash(names, i, k, j)
  {
    var b := "b\tc";
    SpaceAtIs(b, 3);
    WordLengthIs(b, 1);
    assert b[..1] == "b";
  }
}
