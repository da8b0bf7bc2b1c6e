/**
 The composed system on bytes: clients that read chunks into their buffers and are typed lines into, and
 a server that reads messages from their sockets. Any interleaving of these moves is a run.
 */
module ByteSystem {
  import opened Basics
  import opened Text
  import opened Framing
  import opened Registry
  import opened ChatSystem
  import opened Server
  import opened ByteRuns

  /**
   A client and its connection. What the server has written and the client has not read is kept message
   by message, as no read crosses the end of one; the first may have been read in part.
   */
  datatype Peer = Peer(
    name: string,
    login: Login,
    partners: seq<string>,
    buffer: string,
    inbox: seq<string>,
    outbox: seq<string>,
    thread: Thread)

  datatype Net = Net(peers: seq<Peer>, users: seq<User>)

  datatype Move =
    | Dials(i: nat)
    | Reads(i: nat, size: nat)      // the client reads so many bytes
    | Types(i: nat, line: string)
    | Serves(i: nat)                // the server thread reads one message

  function Begin(names: seq<string>): Net {
    Net(seq(|names|, k requires 0 <= k < |names| => Peer(names[k], Start, [], "", [], [], Serving)), [])
  }

  predicate CanRead(n: Peer, size: nat) {
    && n.login in {Hello, Naming, Approved, Chatting, Leaving}
    && n.inbox != [] && 0 < size <= |n.inbox[0]| && size <= MAXLINE
  }

  predicate CanMove(b: Net, mv: Move) {
    mv.i < |b.peers| &&
    var n := b.peers[mv.i];
    match mv
    case Dials(_) => n.login == Start
    case Reads(_, size) => CanRead(n, size)
    case Types(_, _) => n.login == Chatting
    case Serves(_) => n.outbox != [] && n.thread == Serving
  }

  function Affected(n: Peer, e: Effect): Peer {
    n.(login := e.login, partners := e.partners, outbox := n.outbox + e.writes)
  }

  /** One read of the client. */
  function ReadSome(n: Peer, size: nat): Peer
    requires CanRead(n, size)
  {
    var f := Feed(n.buffer, n.inbox[0][..size]);
    var left := if size == |n.inbox[0]| then n.inbox[1..] else [n.inbox[0][size..]] + n.inbox[1..];
    var fed := n.(buffer := f.rest, inbox := left);
    if f.frame.None? then fed else Affected(fed, ReadFrame(n.login, n.partners, n.name, f.frame.value))
  }

  function Moving(n: Peer, mv: Move): Peer
    requires mv.Reads? ==> CanRead(n, mv.size)
    requires mv.Serves? ==> n.outbox != []
  {
    match mv
    case Dials(_) => Affected(n, Effect(Hello, n.partners, [Terminated("ME2U")]))
    case Reads(_, size) => ReadSome(n, size)
    case Types(_, line) => Affected(n, TypeLine(n.login, n.partners, line))
    case Serves(_) => n.(outbox := n.outbox[1..])
  }

  function Written(peers: seq<Peer>, sends: seq<Send>): (r: seq<Peer>)
    ensures |r| == |peers|
  {
    seq(|peers|, k requires 0 <= k < |peers| =>
      peers[k].(inbox := peers[k].inbox + DataOf(Packets(sends), k)))
  }

  /** A move that is not possible changes nothing. */
  function Go(b: Net, mv: Move): (r: Net)
    ensures |r.peers| == |b.peers|
  {
    if !CanMove(b, mv) then b
    else
      var peers := b.peers[mv.i := Moving(b.peers[mv.i], mv)];
      if !mv.Serves? then Net(peers, b.users)
      else
        var r := HandleText(b.users, mv.i, Strip(b.peers[mv.i].outbox[0]));
        Net(Written(peers[mv.i := peers[mv.i].(thread := r.thread)], r.sends), r.users)
  }

  /** The state after a run on bytes. */
  function Run(b: Net, moves: seq<Move>): (r: Net)
    ensures |r.peers| == |b.peers|
  {
    if moves == [] then b else Go(Run(b, Front(moves)), Last(moves))
  }
}
