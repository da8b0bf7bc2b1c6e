/** The list of users over a run: the registered clients, in the order in which they registered. */
module Listing {
  import opened Basics
  import opened Messages
  import opened Registry
  import opened ChatSystem
  import opened Flows
  import opened Invariant
  import opened History

  /** What one event adds to the list of those who are registered after `log`. */
  function Entry(log: seq<Event>, e: Event): seq<User> {
    if e.Registered? && Member(log, e.i) == Now then [User(e.n, e.i)] else []
  }

  /** Of those who registered in `part`, the ones that are registered after `log`, in the order of their IAMs. */
  function StillIn(log: seq<Event>, part: seq<Event>): seq<User> {
    if part == [] then [] else StillIn(log, Front(part)) + Entry(log, Last(part))
  }

  /** The users that are not on connection `c`. */
  function Others(users: seq<User>, c: nat): seq<User> {
    if users == [] then [] else Others(Front(users), c) + (if Last(users).conn == c then [] else [Last(users)])
  }

  ghost predicate NoneOn(users: seq<User>, c: nat) {
    forall k :: 0 <= k < |users| ==> users[k].conn != c
  }

  lemma {:induction false} OthersJoin(p: seq<User>, q: seq<User>, c: nat)
    ensures Others(p + q, c) == Others(p, c) + Others(q, c)
  {
    if q == [] {
      assert p + q == p;
    } else {
      assert Front(p + q) == p + Front(q) && Last(p + q) == Last(q);
      OthersJoin(p, Front(q), c);
    }
  }

  lemma {:induction false} AllAreOthers(users: seq<User>, c: nat)
    requires NoneOn(users, c)
    ensures Others(users, c) == users
  {
    if users == [] {
    } else {
      var front, last := Front(users), users[|users| - 1];
      assert forall k :: 0 <= k < |front| ==> front[k] == users[k];
      AllAreOthers(front, c);
      assert users == front + [last] && last.conn != c;
    }
  }

  lemma OthersOne(u: User, c: nat)
    ensures Others([u], c) == if u.conn == c then [] else [u]
  {
    assert Front([u]) == [];
  }

  lemma OthersAround(before: seq<User>, u: User, after: seq<User>, c: nat)
    requires u.conn == c && NoneOn(before, c) && NoneOn(after, c)
    ensures Others(before + ([u] + after), c) == before + after
  {
    AllAreOthers(before, c);
    AllAreOthers(after, c);
    OthersOne(u, c);
    OthersJoin([u], after, c);
    OthersJoin(before, [u] + after, c);
    assert [] + after == after;
  }

  /** Taking a connection out of a list that has it once leaves all the others, in their order. */
  lemma WithoutIsOthers(users: seq<User>, c: nat)
    requires ConnsDistinct(users)
    ensures Without(users, c) == Others(users, c)
  {
    if HasConn(users, c) {
      var i := FirstIsCutOut(users, c);
      AroundFirst(users, c, i);
      OthersAround(users[..i], users[i], users[i + 1..], c);
    } else {
      NobodyIsCutOut(users, c);
      AllAreOthers(users, c);
    }
  }

  lemma AroundFirst(users: seq<User>, c: nat, i: nat)
    requires ConnsDistinct(users) && IsFirstOn(users, c, i)
    ensures users == users[..i] + ([users[i]] + users[i + 1..])
    ensures NoneOn(users[..i], c) && NoneOn(users[i + 1..], c)
  {
    var after := users[i + 1..];
    forall k | 0 <= k < |after| ensures after[k].conn != c {
      assert after[k] == users[i + 1 + k];
    }
  }

  /** Nobody has registered twice, and nobody before being a member. */
  lemma {:induction false} NeverIn(log: seq<Event>, part: seq<Event>, k: nat)
    requires part <= log && Member(log, k) == Never
    ensures forall n :: Registered(k, n) !in part
  {
    if log == [] {
    } else if part == log {
      NeverIn(Front(log), Front(log), k);
      forall n ensures Registered(k, n) !in part {
        assert part == Front(log) + [Last(log)];
      }
    } else {
      NeverIn(Front(log), part, k);
    }
  }

  lemma {:induction false} SameMembers(log: seq<Event>, e: Event, part: seq<Event>)
    requires forall i, n :: Registered(i, n) in part ==> (Member(log + [e], i) == Now <==> Member(log, i) == Now)
    ensures StillIn(log + [e], part) == StillIn(log, part)
  {
    if part == [] {
    } else {
      assert Last(part) in part && forall x :: x in Front(part) ==> x in part;
      SameMembers(log, e, Front(part));
    }
  }

  lemma OneLessEntry(log: seq<Event>, e: Event, x: Event)
    requires e.LoggedOut?
    ensures Entry(log + [e], x) == Others(Entry(log, x), e.i)
  {
    Snoc(log, e);
    if x.Registered? {
      OthersOne(User(x.n, x.i), e.i);
    }
  }

  lemma {:induction false} OneLess(log: seq<Event>, e: Event, part: seq<Event>)
    requires e.LoggedOut?
    ensures StillIn(log + [e], part) == Others(StillIn(log, part), e.i)
  {
    if part == [] {
    } else {
      OneLess(log, e, Front(part));
      OneLessEntry(log, e, Last(part));
      OthersJoin(StillIn(log, Front(part)), Entry(log, Last(part)), e.i);
    }
  }

  /** One more event. */
  lemma ListGrows(names: seq<string>, log: seq<Event>, e: Event)
    requires Justified(names, log, e) && ConnsDistinct(Live(log)) && Live(log) == StillIn(log, log)
    ensures Live(log + [e]) == StillIn(log + [e], log + [e])
  {
    Snoc(log, e);
    match e {
      case LoggedOut(i, _) =>
        OneLess(log, e, log);
        WithoutIsOthers(Live(log), i);
      case Registered(i, _) =>
        NeverIn(log, log, i);
        SameMembers(log, e, log);
      case _ =>
        SameMembers(log, e, log);
    }
  }

  lemma {:induction false} LiveIsInOrder(names: seq<string>, log: seq<Event>)
    requires LogOk(names, log)
    ensures Live(log) == StillIn(log, log)
  {
    if log == [] {
    } else {
      LiveIsInOrder(names, Front(log));
      ListGrows(names, Front(log), Last(log));
      assert log == Front(log) + [Last(log)];
    }
  }

  /** In every state of every run the list is the registered clients, in the order of their IAMs. */
  lemma UsersAreInOrder(names: seq<string>, steps: seq<Step>)
    ensures var s := Exec(Init(names), steps); s.users == StillIn(s.log, s.log)
  {
    var s := Reached(names, steps);
    LiveIsInOrder(names, s.log);
  }

  /** And whoever asks for it is sent just these names. */
  lemma ListingIsInOrder(names: seq<string>, steps: seq<Step>, i: nat)
    requires Enabled(Exec(Init(names), steps), Serve(i))
    requires Exec(Init(names), steps).clients[i].outbox[0] == Listu
    ensures var s := Exec(Init(names), steps);
            Pushed(s, Serve(i), i, true) == [Utsil(Names(StillIn(s.log, s.log)))]
  {
    var s := Exec(Init(names), steps);
    UsersAreInOrder(names, steps);
    AddressedOne(Send(i, Utsil(Names(s.users))), i);
  }
}
