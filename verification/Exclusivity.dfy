/** Names belong to one client at a time, and no handler or login branch fails on the way. */
module Exclusivity {
  import opened Messages
  import opened Registry
  import opened ChatSystem
  import opened Flows
  import opened Invariant
  import opened History

  /** The client has been approved, and its BYE has not been processed. */
  predicate Active(c: Client) {
    c.login in {Approved, Chatting, Leaving, Failed} && c.thread == Serving
  }

  /** An active client is in the registry under its name, and no other active client has that name. */
  lemma NamesAreExclusive(names: seq<string>, steps: seq<Step>, i: nat, j: nat)
    requires i < |names| && j < |names| && i != j
    ensures var s := Exec(Init(names), steps);
            Active(s.clients[i]) ==>
              && User(names[i], i) in s.users
              && (Active(s.clients[j]) ==> names[i] != names[j])
  {
    var s := Reached(names, steps);
    assert names[i] == s.clients[i].name && names[j] == s.clients[j].name;
    assert Phase(s.clients[i], Member(s.log, i)) && Phase(s.clients[j], Member(s.log, j));
    if Active(s.clients[i]) {
      NameIsKnown(s, i);
      if Active(s.clients[j]) {
        NameIsKnown(s, j);
      }
    }
  }

  /** Everyone in the registry is approved, or has the approval waiting in its channel. */
  lemma RegisteredAreApproved(names: seq<string>, steps: seq<Step>, u: User)
    requires u in Exec(Init(names), steps).users
    ensures u.conn < |names| && u.name == names[u.conn]
    ensures var c := Exec(Init(names), steps).clients[u.conn];
            c.thread == Serving && (Active(c) || (c.login == Naming && c.inbox != [] && c.inbox[0] == Mai))
  {
    var s := Reached(names, steps);
    assert s.clients[u.conn].name == names[u.conn];
    assert HasConn(s.users, u.conn);
    assert Phase(s.clients[u.conn], Member(s.log, u.conn));
  }

  /** No handler of the server ever raises: senders of TO, MORF and BYE are always registered. */
  lemma HandlersNeverRaise(names: seq<string>, steps: seq<Step>, k: nat)
    requires k < |names|
    ensures Exec(Init(names), steps).clients[k].thread != Raised
  {
    var s := Reached(names, steps);
    assert Phase(s.clients[k], Member(s.log, k));
  }

  /** The only error branch a client can take is the confirmation from someone it has never met. */
  lemma OnlyStrangersFail(names: seq<string>, steps: seq<Step>, st: Step, k: nat)
    requires k < |names| && Exec(Init(names), steps).clients[k].login != Failed
    ensures var s := Exec(Init(names), steps);
            Next(s, st).clients[k].login == Failed <==>
              && st == Receive(k) && Enabled(s, st)
              && s.clients[k].inbox[0].Ot? && s.clients[k].inbox[0].name !in s.clients[k].partners
  {
    var s := Reached(names, steps);
    if Enabled(s, st) {
      NextClient(s, st, k);
      if st == Receive(k) {
        ReaderFails(s.clients[k], Member(s.log, k));
      }
    }
  }

  lemma ReaderFails(c: Client, m: Membership)
    requires Phase(c, m) && c.inbox != [] && c.login in {Hello, Naming, Approved, Chatting, Leaving}
    ensures React(c, c.inbox[0]).login == Failed <==> c.inbox[0].Ot? && c.inbox[0].name !in c.partners
  {
  }
}
