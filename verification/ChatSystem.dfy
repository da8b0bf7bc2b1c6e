/**
 The composed protocol: any number of clients, one server, and for each client a FIFO channel in
 each direction. One step is one iteration of a client's loop or one iteration of a server thread;
 any interleaving of steps is a run. The log is history: no step reads it.
 */
module ChatSystem {
  import opened Basics
  import opened Messages
  import opened Registry

  /** The client's `login_state`, continued through chatting and logging out. */
  datatype Login =
    | Start      // 0
    | Hello      // 1: ME2U sent
    | Naming     // 3: IAM sent (2 is left in the iteration that enters it)
    | Approved   // 4: MAI received
    | Chatting   // 10
    | Leaving    // BYE sent, the writing half of the socket closed
    | Gone       // EYB received
    | Rejected   // ETAKEN received
    | Failed     // an error branch was taken

  datatype Client = Client(
    name: string,
    login: Login,
    partners: seq<string>,
    inbox: seq<Msg>,    // from the server, oldest first
    outbox: seq<Msg>,   // to the server, oldest first
    thread: Thread)     // the server thread of this connection

  datatype Event =
      // at a client
    | Sent(i: nat, b: string, text: string)
    | Delivered(j: nat, b: string, a: string, text: string, answered: bool)
    | OtRead(i: nat, b: string)
    | EdneRead(i: nat, b: string)
    | UoffRead(i: nat, n: string)
      // at the server
    | Registered(i: nat, n: string)
    | Routed(i: nat, a: string, j: nat, b: string, text: string)
    | Refused(i: nat, a: string, b: string, text: string)
    | Confirmed(j: nat, b: string, a: string, heard: Option<nat>)
    | LoggedOut(i: nat, n: string)

  datatype System = System(clients: seq<Client>, users: seq<User>, log: seq<Event>)

  datatype Step =
    | Connect(i: nat)
    | Receive(i: nat)                            // the client reads one frame
    | Chat(i: nat, b: string, text: string)      // the user types /chat b text
    | List(i: nat)                               // the user types /listu
    | Logout(i: nat)                             // the user types /logout
    | Serve(i: nat)                              // the server thread handles one frame

  function Init(names: seq<string>): System {
    System(seq(|names|, k requires 0 <= k < |names| => Client(names[k], Start, [], [], [], Serving)), [], [])
  }

  /** The partner list after a message from or to `name`: a new partner goes to the end. */
  function Meet(partners: seq<string>, name: string): seq<string> {
    if name in partners then partners else partners + [name]
  }

  datatype Reaction = Reaction(login: Login, partners: seq<string>, replies: seq<Msg>)

  /** What a client does with one frame, while logging in and afterwards. */
  function React(c: Client, m: Msg): Reaction {
    match c.login
    case Hello =>
      if m == U2em then Reaction(Naming, c.partners, [Iam(c.name)])
      else Reaction(Failed, c.partners, [])
    case Naming =>
      Reaction(if m == Etaken then Rejected else if m == Mai then Approved else Failed, c.partners, [])
    case Approved =>
      Reaction(if m.Motd? then Chatting else Failed, c.partners, [])
    case _ =>
      match m
      case Ot(b) => Reaction(if b in c.partners then c.login else Failed, c.partners, [])
      case From(a, text) =>
        Reaction(c.login, Meet(c.partners, a), if c.login == Chatting then [Morf(a)] else [])
      case Eyb => Reaction(Gone, c.partners, [])
      case _ => Reaction(c.login, c.partners, [])
  }

  predicate Enabled(s: System, st: Step) {
    st.i < |s.clients| &&
    var c := s.clients[st.i];
    match st
    case Connect(_) => c.login == Start
    case Receive(_) => c.inbox != [] && c.login in {Hello, Naming, Approved, Chatting, Leaving}
    case Chat(_, _, _) => c.login == Chatting
    case List(_) => c.login == Chatting
    case Logout(_) => c.login == Chatting
    case Serve(_) => c.outbox != [] && c.thread == Serving
  }

  function Moved(c: Client, st: Step): Client
    requires st.Receive? ==> c.inbox != []
    requires st.Serve? ==> c.outbox != []
  {
    match st
    case Connect(_) => c.(login := Hello, outbox := c.outbox + [Me2u])
    case Receive(_) =>
      var r := React(c, c.inbox[0]);
      c.(login := r.login, partners := r.partners, inbox := c.inbox[1..], outbox := c.outbox + r.replies)
    case Chat(_, b, text) => c.(partners := Meet(c.partners, b), outbox := c.outbox + [To(b, text)])
    case List(_) => c.(outbox := c.outbox + [Listu])
    case Logout(_) => c.(login := Leaving, outbox := c.outbox + [Bye])
    case Serve(_) => c.(outbox := c.outbox[1..])
  }

  /** A step that is not enabled changes nothing. */
  function Next(s: System, st: Step): System {
    if !Enabled(s, st) then s
    else
      var log := s.log + Events(s, st);
      var clients := s.clients[st.i := Moved(s.clients[st.i], st)];
      if !st.Serve? then System(clients, s.users, log)
      else
        var r := Handle(s.users, st.i, s.clients[st.i].outbox[0]);
        var served := clients[st.i := clients[st.i].(thread := r.thread)];
        System(Deliver(served, r.sends), r.users, log)
  }

  function Deliver(clients: seq<Client>, sends: seq<Send>): (r: seq<Client>)
    ensures |r| == |clients|
  {
    seq(|clients|, k requires 0 <= k < |clients| =>
      clients[k].(inbox := clients[k].inbox + Addressed(sends, k)))
  }

  /** What reading frame `m` adds to the history of client `i`. */
  function ReadEvent(c: Client, i: nat, m: Msg): (es: seq<Event>)
    ensures |es| <= 1
  {
    if c.login != Chatting && c.login != Leaving then []
    else
      match m
      case From(a, text) => [Delivered(i, c.name, a, text, c.login == Chatting)]
      case Ot(b) => [OtRead(i, b)]
      case Edne(b) => [EdneRead(i, b)]
      case Uoff(n) => [UoffRead(i, n)]
      case _ => []
  }

  /** What serving frame `m` from connection `i` adds to the history of the server. */
  function ServeEvent(users: seq<User>, i: nat, m: Msg): (es: seq<Event>)
    ensures |es| <= 1
  {
    if m.Iam? then
      if HolderOf(users, m.name).None? then [Registered(i, m.name)] else []
    else
      match NameOf(users, i)
      case None => []
      case Some(own) =>
        match m
        case To(b, text) =>
          (match HolderOf(users, b)
           case None => [Refused(i, own, b, text)]
           case Some(j) => [Routed(i, own, j, b, text)])
        case Morf(a) => [Confirmed(i, own, a, HolderOf(users, a))]
        case Bye => [LoggedOut(i, own)]
        case _ => []
  }

  /** What a step adds to the history: at most one event. */
  function Events(s: System, st: Step): (es: seq<Event>)
    requires Enabled(s, st)
    ensures |es| <= 1
  {
    var c := s.clients[st.i];
    match st
    case Chat(i, b, text) => [Sent(i, b, text)]
    case Receive(i) => ReadEvent(c, i, c.inbox[0])
    case Serve(i) => ServeEvent(s.users, i, c.outbox[0])
    case _ => []
  }

  /** The state after a run. */
  function Exec(s: System, steps: seq<Step>): (r: System)
    ensures |r.clients| == |s.clients|
  {
    if steps == [] then s else Next(Exec(s, Front(steps)), Last(steps))
  }
}
