/** The server's list of users and the effect of one received message on it. */
module Registry {
  import opened Basics
  import opened Messages

  /** A registered user. The socket and the address that identify a connection are one number here. */
  datatype User = User(name: string, conn: nat)

  datatype Send = Send(conn: nat, msg: Msg)

  /** What becomes of the thread that serves a connection. */
  datatype Thread = Serving | Ended | Raised

  datatype Reply = Reply(users: seq<User>, sends: seq<Send>, thread: Thread)

  ghost predicate NamesDistinct(users: seq<User>) {
    forall i, j :: 0 <= i < j < |users| ==> users[i].name != users[j].name
  }

  ghost predicate ConnsDistinct(users: seq<User>) {
    forall i, j :: 0 <= i < j < |users| ==> users[i].conn != users[j].conn
  }

  ghost predicate HasName(users: seq<User>, name: string) {
    exists i :: 0 <= i < |users| && users[i].name == name
  }

  ghost predicate HasConn(users: seq<User>, conn: nat) {
    exists i :: 0 <= i < |users| && users[i].conn == conn
  }

  /** The connection of the first user called `name`. */
  function HolderOf(users: seq<User>, name: string): (r: Option<nat>)
    ensures r.Some? ==> User(name, r.value) in users
    ensures r.Some? <==> HasName(users, name)
  {
    if users == [] then None
    else if users[0].name == name then Some(users[0].conn)
    else
      var r := HolderOf(users[1..], name);
      assert HasName(users, name) ==> HasName(users[1..], name) by {
        if i :| 0 <= i < |users| && users[i].name == name {
          assert users[1..][i - 1] == users[i];
        }
      }
      r
  }

  /** The name of the first user on connection `conn`. */
  function NameOf(users: seq<User>, conn: nat): (r: Option<string>)
    ensures r.Some? ==> User(r.value, conn) in users
    ensures r.Some? <==> HasConn(users, conn)
  {
    if users == [] then None
    else if users[0].conn == conn then Some(users[0].name)
    else
      var r := NameOf(users[1..], conn);
      assert HasConn(users, conn) ==> HasConn(users[1..], conn) by {
        if i :| 0 <= i < |users| && users[i].conn == conn {
          assert users[1..][i - 1] == users[i];
        }
      }
      r
  }

  /** The users without the first one on connection `conn`. */
  function Without(users: seq<User>, conn: nat): (r: seq<User>)
    ensures forall u :: u in r ==> u in users
    ensures forall u :: u in users && u.conn != conn ==> u in r
  {
    if users == [] then []
    else if users[0].conn == conn then users[1..]
    else [users[0]] + Without(users[1..], conn)
  }

  /** One copy of `m` for every user, in registration order. */
  function Broadcast(users: seq<User>, m: Msg): (r: seq<Send>)
    ensures |r| == |users|
    ensures forall k :: 0 <= k < |r| ==> r[k] == Send(users[k].conn, m)
  {
    if users == [] then [] else [Send(users[0].conn, m)] + Broadcast(users[1..], m)
  }

  /** One copy of `m` for every user called `name`: the scan does not stop at the first. */
  function SendToAllNamed(users: seq<User>, name: string, m: Msg): seq<Send> {
    if users == [] then []
    else (if users[0].name == name then [Send(users[0].conn, m)] else [])
         + SendToAllNamed(users[1..], name, m)
  }

  function Names(users: seq<User>): (r: seq<string>)
    ensures |r| == |users|
    ensures forall k :: 0 <= k < |r| ==> r[k] == users[k].name
  {
    if users == [] then [] else [users[0].name] + Names(users[1..])
  }

  /** One iteration of the loop in `handle_user`: connection `c` has sent `m`. */
  function Handle(users: seq<User>, c: nat, m: Msg): Reply {
    match m
    case Me2u => Reply(users, [Send(c, U2em)], Serving)
    case Iam(name) =>
      if HolderOf(users, name).Some? then Reply(users, [Send(c, Etaken)], Ended)
      else Reply(users + [User(name, c)], [Send(c, Mai), Send(c, Motd(GREETING))], Serving)
    case Listu => Reply(users, [Send(c, Utsil(Names(users)))], Serving)
    case To(name, text) =>
      (match HolderOf(users, name)
       case None => Reply(users, [Send(c, Edne(name))], Serving)
       case Some(j) =>
         match NameOf(users, c)
         case None => Reply(users, [], Raised)
         case Some(from) => Reply(users, [Send(j, From(from, text))], Serving))
    case Morf(name) =>
      (match NameOf(users, c)
       case None => Reply(users, [], if HolderOf(users, name).Some? then Raised else Serving)
       case Some(from) => Reply(users, SendToAllNamed(users, name, Ot(from)), Serving))
    case Bye =>
      (match NameOf(users, c)
       case None => Reply(users, [], Raised)
       case Some(name) =>
         var rest := Without(users, c);
         Reply(rest, [Send(c, Eyb)] + Broadcast(rest, Uoff(name)), Ended))
    case _ => Reply(users, [], Raised)
  }

  /** What `sends` puts on the channel to connection `k`. */
  function Addressed(sends: seq<Send>, k: nat): seq<Msg> {
    if sends == [] then []
    else (if sends[0].conn == k then [sends[0].msg] else []) + Addressed(sends[1..], k)
  }

  // ----- the scans agree with a map

  lemma ScansAgree(users: seq<User>, u: User)
    requires NamesDistinct(users) && ConnsDistinct(users) && u in users
    ensures HolderOf(users, u.name) == Some(u.conn)
    ensures NameOf(users, u.conn) == Some(u.name)
  {
    var i :| 0 <= i < |users| && users[i] == u;
    assert HasName(users, u.name) && HasConn(users, u.conn);
  }

  lemma {:induction false} SendToAllNamedIsOne(users: seq<User>, name: string, m: Msg)
    requires NamesDistinct(users)
    ensures SendToAllNamed(users, name, m)
            == match HolderOf(users, name) case None => [] case Some(c) => [Send(c, m)]
  {
    if users == [] {
    } else {
      SendToAllNamedIsOne(users[1..], name, m);
      if users[0].name == name {
        assert !HasName(users[1..], name);
      }
    }
  }

  lemma {:induction false} AddressedBroadcast(users: seq<User>, m: Msg, k: nat)
    requires ConnsDistinct(users)
    ensures Addressed(Broadcast(users, m), k) == if HasConn(users, k) then [m] else []
  {
    if users == [] {
    } else {
      AddressedBroadcast(users[1..], m, k);
      var b := Broadcast(users, m);
      assert b[1..] == Broadcast(users[1..], m);
      if users[0].conn == k {
        assert !HasConn(users[1..], k);
      } else if HasConn(users, k) {
        var i :| 0 <= i < |users| && users[i].conn == k;
        assert users[1..][i - 1].conn == k;
      }
    }
  }

  lemma {:induction false} WithoutGone(users: seq<User>, c: nat)
    requires ConnsDistinct(users)
    ensures !HasConn(Without(users, c), c)
  {
    if users == [] || users[0].conn == c {
    } else {
      WithoutGone(users[1..], c);
    }
  }

  lemma {:induction false} WithoutKeepsDistinct(users: seq<User>, c: nat)
    requires NamesDistinct(users) && ConnsDistinct(users)
    ensures NamesDistinct(Without(users, c)) && ConnsDistinct(Without(users, c))
  {
    if users == [] || users[0].conn == c {
    } else {
      var rest := users[1..];
      WithoutKeepsDistinct(rest, c);
      var r := Without(rest, c);
      assert Without(users, c) == [users[0]] + r;
      forall i | 0 <= i < |r| ensures r[i].name != users[0].name && r[i].conn != users[0].conn {
        assert r[i] in rest;
      }
    }
  }

  lemma {:induction false} WithoutConn(users: seq<User>, c: nat, k: nat)
    requires ConnsDistinct(users)
    ensures HasConn(Without(users, c), k) <==> HasConn(users, k) && k != c
  {
    var r := Without(users, c);
    if k == c {
      WithoutGone(users, c);
    } else if HasConn(r, k) {
      var i :| 0 <= i < |r| && r[i].conn == k;
      assert r[i] in users;
    }
    if HasConn(users, k) && k != c {
      var i :| 0 <= i < |users| && users[i].conn == k;
      assert users[i] in r;
    }
  }

  lemma Appended(users: seq<User>, u: User)
    requires NamesDistinct(users) && ConnsDistinct(users) && !HasName(users, u.name) && !HasConn(users, u.conn)
    ensures NamesDistinct(users + [u]) && ConnsDistinct(users + [u])
    ensures forall k :: HasConn(users + [u], k) <==> HasConn(users, k) || k == u.conn
  {
    var r := users + [u];
    assert r[|users|] == u;
    forall k ensures HasConn(r, k) <==> HasConn(users, k) || k == u.conn {
      if HasConn(users, k) {
        var j :| 0 <= j < |users| && users[j].conn == k;
        assert r[j].conn == k;
      }
    }
  }

  // ----- the scans find the first

  /** `i` is the first position on connection `conn`. */
  ghost predicate IsFirstOn(users: seq<User>, conn: nat, i: nat) {
    i < |users| && users[i].conn == conn && forall k :: 0 <= k < i ==> users[k].conn != conn
  }

  lemma FirstIsLater(users: seq<User>, c: nat, j: nat)
    requires users != [] && users[0].conn != c && IsFirstOn(users[1..], c, j)
    ensures IsFirstOn(users, c, j + 1)
    ensures [users[0]] + (users[1..][..j] + users[1..][j + 1..]) == users[..j + 1] + users[j + 2..]
  {
    assert [users[0]] + users[1..][..j] == users[..j + 1] && users[1..][j + 1..] == users[j + 2..];
    forall k | 0 <= k < j + 1 ensures users[k].conn != c {
      assert k > 0 ==> users[k] == users[1..][k - 1];
    }
  }

  /** The lookup by connection returns the first name on it, and a logout cuts that entry out: all others stay in place. */
  lemma {:induction false} FirstIsCutOut(users: seq<User>, c: nat) returns (i: nat)
    requires HasConn(users, c)
    ensures IsFirstOn(users, c, i) && NameOf(users, c) == Some(users[i].name)
    ensures Without(users, c) == users[..i] + users[i + 1..]
  {
    if users[0].conn == c {
      i := 0;
    } else {
      assert HasConn(users[1..], c) by {
        var k :| 0 <= k < |users| && users[k].conn == c;
        assert users[1..][k - 1].conn == c;
      }
      i := FirstIsCutOut(users[1..], c);
      FirstIsLater(users, c, i);
      i := i + 1;
    }
  }

  lemma {:induction false} NobodyIsCutOut(users: seq<User>, c: nat)
    requires !HasConn(users, c)
    ensures Without(users, c) == users
  {
    if users == [] {
    } else {
      NobodyIsCutOut(users[1..], c);
    }
  }

  /** The lookup by name returns the connection of the first user of that name. */
  lemma {:induction false} FirstOfName(users: seq<User>, name: string) returns (i: nat)
    requires HasName(users, name)
    ensures i < |users| && users[i].name == name && HolderOf(users, name) == Some(users[i].conn)
    ensures forall k :: 0 <= k < i ==> users[k].name != name
  {
    if users[0].name == name {
      i := 0;
    } else {
      var k :| 0 <= k < |users| && users[k].name == name;
      assert users[1..][k - 1].name == name;
      i := FirstOfName(users[1..], name);
      i := i + 1;
    }
  }

  /** What BYE sends: EYB to the sender, then UOFF to everybody else in the order of the list. */
  lemma LeaverIsToldFirst(users: seq<User>, c: nat)
    requires HasConn(users, c)
    ensures var r := Handle(users, c, Bye);
            var own := NameOf(users, c).value;
            && |r.sends| == |users| && r.sends[0] == Send(c, Eyb) && r.thread == Ended
            && forall k :: 1 <= k < |users| ==> r.sends[k] == Send(r.users[k - 1].conn, Uoff(own))
  {
    var i := FirstIsCutOut(users, c);
  }

  /** What a connection that is not registered is answered: its messages are refused or raise, and it cannot leave. */
  lemma StrangersAreTurnedAway(users: seq<User>, c: nat, name: string, text: string)
    requires !HasConn(users, c)
    ensures Handle(users, c, To(name, text))
            == if HasName(users, name) then Reply(users, [], Raised) else Reply(users, [Send(c, Edne(name))], Serving)
    ensures Handle(users, c, Morf(name)) == Reply(users, [], if HasName(users, name) then Raised else Serving)
    ensures Handle(users, c, Bye) == Reply(users, [], Raised)
    ensures Handle(users, c, Listu) == Reply(users, [Send(c, Utsil(Names(users)))], Serving)
  {
  }

  // ----- the list as a map, for any requests from any connections

  /** The registry as a map from names to connections. */
  function AsMap(users: seq<User>): map<string, nat> {
    if users == [] then map[] else AsMap(users[1..])[users[0].name := users[0].conn]
  }

  lemma {:induction false} MapIsScan(users: seq<User>, name: string)
    ensures name in AsMap(users) <==> HolderOf(users, name).Some?
    ensures name in AsMap(users) ==> HolderOf(users, name) == Some(AsMap(users)[name])
  {
    if users == [] {
    } else {
      MapIsScan(users[1..], name);
    }
  }

  /** A request changes the map in one place: IAM adds a free name, BYE takes out the sender's, nothing else does. */
  lemma RequestOnMap(users: seq<User>, c: nat, m: Msg)
    requires NamesDistinct(users)
    ensures AsMap(Handle(users, c, m).users)
            == if m.Iam? && m.name !in AsMap(users) then AsMap(users)[m.name := c]
               else if m == Bye && NameOf(users, c).Some? then AsMap(users) - {NameOf(users, c).value}
               else AsMap(users)
  {
    if m.Iam? {
      MapIsScan(users, m.name);
      if m.name !in AsMap(users) {
        MapAppended(users, User(m.name, c));
      }
    } else if m == Bye && NameOf(users, c).Some? {
      MapWithout(users, c);
    }
  }

  lemma {:induction false} MapAppended(users: seq<User>, u: User)
    requires u.name !in AsMap(users)
    ensures AsMap(users + [u]) == AsMap(users)[u.name := u.conn]
  {
    if users == [] {
      assert (users + [u])[1..] == [];
    } else {
      MapAppended(users[1..], u);
      assert (users + [u])[1..] == users[1..] + [u];
    }
  }

  lemma {:induction false} MapWithout(users: seq<User>, c: nat)
    requires NamesDistinct(users) && NameOf(users, c).Some?
    ensures AsMap(Without(users, c)) == AsMap(users) - {NameOf(users, c).value}
  {
    var first, rest := users[0], users[1..];
    MapIsScan(rest, first.name);
    if first.conn == c {
    } else {
      MapWithout(rest, c);
      var own := NameOf(rest, c).value;
      assert User(own, c) in rest;
      MapOfCons(first, Without(rest, c));
      MapUpdateLess(AsMap(rest), first.name, first.conn, own);
    }
  }

  lemma MapOfCons(u: User, rest: seq<User>)
    ensures AsMap([u] + rest) == AsMap(rest)[u.name := u.conn]
  {
    assert ([u] + rest)[1..] == rest;
  }

  lemma MapUpdateLess(m: map<string, nat>, k: string, v: nat, own: string)
    requires k != own
    ensures (m - {own})[k := v] == m[k := v] - {own}
  {
  }

  datatype Call = Call(conn: nat, msg: Msg)

  /** The registry after requests from any connections, in any order. */
  function AfterAll(requests: seq<Call>): seq<User> {
    if requests == [] then []
    else Handle(AfterAll(Front(requests)), Last(requests).conn, Last(requests).msg).users
  }

  lemma {:induction false} WithoutKeepsNames(users: seq<User>, c: nat)
    requires NamesDistinct(users)
    ensures NamesDistinct(Without(users, c))
  {
    if users == [] || users[0].conn == c {
    } else {
      var rest := users[1..];
      WithoutKeepsNames(rest, c);
      var r := Without(rest, c);
      forall i | 0 <= i < |r| ensures r[i].name != users[0].name {
        assert r[i] in rest;
      }
    }
  }

  /** Under any interleaving no name is ever in the registry twice, so an OT goes to one connection at most. */
  lemma {:induction false} NamesStayDistinct(requests: seq<Call>)
    ensures NamesDistinct(AfterAll(requests))
    ensures forall name, m :: |SendToAllNamed(AfterAll(requests), name, m)| <= 1
  {
    if requests == [] {
    } else {
      var users, last := AfterAll(Front(requests)), Last(requests);
      NamesStayDistinct(Front(requests));
      if last.msg == Bye {
        WithoutKeepsNames(users, last.conn);
      } else if last.msg.Iam? && HolderOf(users, last.msg.name).None? {
        assert !HasName(users, last.msg.name);
      }
    }
    forall name, m ensures |SendToAllNamed(AfterAll(requests), name, m)| <= 1 {
      SendToAllNamedIsOne(AfterAll(requests), name, m);
    }
  }

  /** No connection sends IAM more than once. */
  ghost predicate OneIamEach(requests: seq<Call>) {
    forall p, q :: 0 <= p < q < |requests| && requests[p].msg.Iam? && requests[q].msg.Iam?
                   ==> requests[p].conn != requests[q].conn
  }

  lemma {:induction false} UsersHaveSentIam(requests: seq<Call>, u: User)
    requires u in AfterAll(requests)
    ensures exists p :: 0 <= p < |requests| && requests[p] == Call(u.conn, Iam(u.name))
  {
    if requests == [] {
    } else {
      var users, last := AfterAll(Front(requests)), Last(requests);
      if u in users {
        UsersHaveSentIam(Front(requests), u);
        var p :| 0 <= p < |Front(requests)| && Front(requests)[p] == Call(u.conn, Iam(u.name));
        assert requests[p] == Call(u.conn, Iam(u.name));
      } else {
        assert requests[|requests| - 1] == last;
      }
    }
  }

  /** A request puts a connection into the list twice exactly when it is accepted as IAM of one that is there. */
  lemma OnlyAnotherIamDoubles(users: seq<User>, c: nat, m: Msg)
    requires NamesDistinct(users) && ConnsDistinct(users)
    ensures ConnsDistinct(Handle(users, c, m).users)
            <==> !(m.Iam? && HolderOf(users, m.name).None? && HasConn(users, c))
  {
    if m == Bye {
      WithoutKeepsDistinct(users, c);
    } else if m.Iam? && HolderOf(users, m.name).None? {
      if HasConn(users, c) {
        var k :| 0 <= k < |users| && users[k].conn == c;
        var after := users + [User(m.name, c)];
        assert after[k].conn == after[|users|].conn;
      } else {
        Appended(users, User(m.name, c));
      }
    }
  }

  /** With one IAM per connection, no connection is in the registry twice either. */
  lemma {:induction false} ConnsStayDistinct(requests: seq<Call>)
    requires OneIamEach(requests)
    ensures ConnsDistinct(AfterAll(requests))
  {
    if requests == [] {
    } else {
      var users, last := AfterAll(Front(requests)), Last(requests);
      ConnsStayDistinct(Front(requests));
      NamesStayDistinct(Front(requests));
      OnlyAnotherIamDoubles(users, last.conn, last.msg);
      if last.msg.Iam? && HasConn(users, last.conn) {
        var k :| 0 <= k < |users| && users[k].conn == last.conn;
        UsersHaveSentIam(Front(requests), users[k]);
      }
    }
  }

  /** Without that, one connection can hold two names: the handler does not look for it. */
  lemma TwoNamesOnOneConnection(a: string, b: string)
    requires a != b
    ensures !ConnsDistinct(AfterAll([Call(0, Iam(a)), Call(0, Iam(b))]))
  {
    var r := [Call(0, Iam(a)), Call(0, Iam(b))];
    assert Front(r) == [Call(0, Iam(a))] && Front(Front(r)) == [];
    assert AfterAll(Front(r)) == [User(a, 0)];
    assert HolderOf([User(a, 0)], b) == None;
    assert AfterAll(r)[0].conn == AfterAll(r)[1].conn;
  }
}
