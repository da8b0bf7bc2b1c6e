/**
 Draining the channels: every frame that is handled makes what remains to be handled less, so handling
 frames comes to an end; and then every message has been refused or confirmed.
 */
module Progress {
  import opened Basics
  import opened Messages
  import opened Registry
  import opened ChatSystem
  import opened Flows
  import opened Invariant
  import opened Confirmations
  import opened Accounting

  // ----- what a frame has still to cause

  /** A frame outweighs all that handling it can put into the channels of `n` clients. */
  function Weight(m: Msg, n: nat): nat {
    match m
    case Me2u => 5
    case U2em => 4
    case Iam(_) => 3
    case To(_, _) => 4
    case From(_, _) => 3
    case Morf(_) => 2
    case Listu => 2
    case Bye => n + 1
    case _ => 1
  }

  function Load(q: seq<Msg>, n: nat): nat {
    if q == [] then 0 else Load(Front(q), n) + Weight(Last(q), n)
  }

  lemma {:induction false} LoadJoins(p: seq<Msg>, q: seq<Msg>, n: nat)
    ensures Load(p + q, n) == Load(p, n) + Load(q, n)
  {
    if q == [] {
      assert p + q == p;
    } else {
      assert Front(p + q) == p + Front(q) && Last(p + q) == Last(q);
      LoadJoins(p, Front(q), n);
    }
  }

  lemma LoadOne(m: Msg, n: nat)
    ensures Load([m], n) == Weight(m, n)
  {
    assert Front([m]) == [];
  }

  lemma LoadFirst(q: seq<Msg>, n: nat)
    requires q != []
    ensures Load(q, n) == Weight(q[0], n) + Load(q[1..], n)
  {
    assert q == [q[0]] + q[1..];
    LoadJoins([q[0]], q[1..], n);
    LoadOne(q[0], n);
  }

  /** What is in the channels of the first `n` clients of `all`. */
  function InChannels(clients: seq<Client>, all: nat, n: nat): nat
    requires n <= |clients|
  {
    if n == 0 then 0
    else
      InChannels(clients, all, n - 1) + Load(clients[n - 1].inbox, all) + Load(clients[n - 1].outbox, all)
  }

  function Outstanding(s: System): nat {
    InChannels(s.clients, |s.clients|, |s.clients|)
  }

  /** What the answer to `m` puts into the channels of the first `n` clients. */
  ghost function Answers(users: seq<User>, i: nat, own: string, m: Msg, all: nat, n: nat): nat {
    if n == 0 then 0
    else Answers(users, i, own, m, all, n - 1) + Load(Answer(users, i, own, m, n - 1), all)
  }

  /** Only one client is answered, except by BYE. */
  ghost function AnswerBound(users: seq<User>, i: nat, m: Msg, n: nat): nat {
    match m
    case Me2u => if i < n then 4 else 0
    case Iam(_) => if i < n then 2 else 0
    case Listu => if i < n then 1 else 0
    case To(b, _) =>
      (match HolderOf(users, b)
       case None => if i < n then 1 else 0
       case Some(j) => if j < n then 3 else 0)
    case Morf(a) =>
      (match HolderOf(users, a)
       case None => 0
       case Some(j) => if j < n then 1 else 0)
    case Bye => n
    case _ => 0
  }

  lemma AnswerLoad(users: seq<User>, i: nat, own: string, m: Msg, all: nat, k: nat)
    ensures Load(Answer(users, i, own, m, k), all)
            <= AnswerBound(users, i, m, k + 1) - AnswerBound(users, i, m, k)
  {
    var q := Answer(users, i, own, m, k);
    if |q| == 1 {
      assert q == [q[0]];
      LoadOne(q[0], all);
    } else if |q| == 2 {
      LoadFirst(q, all);
      assert q[1..] == [q[1]];
      LoadOne(q[1], all);
    }
  }

  lemma {:induction false} AnswersAreBound(users: seq<User>, i: nat, own: string, m: Msg, all: nat, n: nat)
    ensures Answers(users, i, own, m, all, n) <= AnswerBound(users, i, m, n)
  {
    if n == 0 {
    } else {
      AnswersAreBound(users, i, own, m, all, n - 1);
      AnswerLoad(users, i, own, m, all, n - 1);
    }
  }

  lemma AnswersAreLess(users: seq<User>, i: nat, own: string, m: Msg, n: nat)
    requires m == Me2u || m.Iam? || NeedsLogin(m)
    ensures Answers(users, i, own, m, n, n) < Weight(m, n)
  {
    AnswersAreBound(users, i, own, m, n, n);
  }

  // ----- every frame handled makes it less

  /** Client `c` becomes `d`: its channels lose the weight `out`, and take on the weight `more`. */
  predicate Shifts(c: Client, d: Client, all: nat, out: nat, more: nat) {
    Load(d.inbox, all) + Load(d.outbox, all) + out == Load(c.inbox, all) + Load(c.outbox, all) + more
  }

  lemma ServedShifts(s: System, i: nat, k: nat)
    requires RegistryOk(s) && PhasesOk(s) && Enabled(s, Serve(i)) && k < |s.clients|
    ensures var m := s.clients[i].outbox[0];
            Shifts(s.clients[k], Next(s, Serve(i)).clients[k], |s.clients|, if i == k then Weight(m, |s.clients|) else 0,
                   Load(Answer(s.users, i, s.clients[i].name, m, k), |s.clients|))
  {
    var c, all, m := s.clients[k], |s.clients|, s.clients[i].outbox[0];
    NextClient(s, Serve(i), k);
    PushedIsAnswer(s, i, k);
    LoadJoins(c.inbox, Answer(s.users, i, s.clients[i].name, m, k), all);
    if k == i {
      LoadFirst(c.outbox, all);
    }
  }

  lemma {:induction false} ShiftsAddUp(cs: seq<Client>, ds: seq<Client>, users: seq<User>, i: nat, own: string, m: Msg,
                                       all: nat, n: nat)
    requires n <= |cs| == |ds|
    requires forall k :: 0 <= k < n ==>
               Shifts(cs[k], ds[k], all, if i == k then Weight(m, all) else 0, Load(Answer(users, i, own, m, k), all))
    ensures InChannels(ds, all, n) + (if i < n then Weight(m, all) else 0)
            == InChannels(cs, all, n) + Answers(users, i, own, m, all, n)
  {
    if n == 0 {
    } else {
      ShiftsAddUp(cs, ds, users, i, own, m, all, n - 1);
    }
  }

  lemma ServedRemains(s: System, i: nat)
    requires RegistryOk(s) && PhasesOk(s) && Enabled(s, Serve(i))
    ensures var m := s.clients[i].outbox[0];
            Outstanding(Next(s, Serve(i))) + Weight(m, |s.clients|)
            == Outstanding(s) + Answers(s.users, i, s.clients[i].name, m, |s.clients|, |s.clients|)
  {
    var m, all, t := s.clients[i].outbox[0], |s.clients|, Next(s, Serve(i));
    forall k | 0 <= k < all
      ensures Shifts(s.clients[k], t.clients[k], all, if i == k then Weight(m, all) else 0,
                     Load(Answer(s.users, i, s.clients[i].name, m, k), all))
    {
      ServedShifts(s, i, k);
    }
    ShiftsAddUp(s.clients, t.clients, s.users, i, s.clients[i].name, m, all, all);
  }

  lemma {:induction false} OthersRemain(clients: seq<Client>, i: nat, c: Client, all: nat, n: nat)
    requires i < |clients| && n <= |clients|
    ensures InChannels(clients[i := c], all, n)
            + (if i < n then Load(clients[i].inbox, all) + Load(clients[i].outbox, all) else 0)
            == InChannels(clients, all, n) + (if i < n then Load(c.inbox, all) + Load(c.outbox, all) else 0)
  {
    if n == 0 {
    } else {
      OthersRemain(clients, i, c, all, n - 1);
    }
  }

  lemma ReplyIsLess(c: Client, n: nat)
    requires c.inbox != []
    ensures Load(React(c, c.inbox[0]).replies, n) < Weight(c.inbox[0], n)
  {
    var q := React(c, c.inbox[0]).replies;
    if q != [] {
      assert q == [q[0]];
      LoadOne(q[0], n);
    }
  }

  /** A step that handles a frame: a client reads one, or the server does. */
  predicate Handles(st: Step) {
    st.Serve? || st.Receive?
  }

  lemma HandlingLowers(s: System, st: Step)
    requires RegistryOk(s) && PhasesOk(s) && Enabled(s, st) && Handles(st)
    ensures Outstanding(Next(s, st)) < Outstanding(s)
  {
    var n, c := |s.clients|, s.clients[st.i];
    if st.Serve? {
      HeadIsServable(s, st.i);
      ServedRemains(s, st.i);
      AnswersAreLess(s.users, st.i, c.name, c.outbox[0], n);
    } else {
      var d := Moved(c, st);
      OthersRemain(s.clients, st.i, d, n, n);
      LoadFirst(c.inbox, n);
      LoadJoins(c.outbox, React(c, c.inbox[0]).replies, n);
      ReplyIsLess(c, n);
    }
  }

  // ----- so handling frames comes to an end

  ghost predicate OnlyHandles(steps: seq<Step>) {
    forall st :: st in steps ==> Handles(st)
  }

  /** Each of these steps is possible when its turn comes. */
  ghost predicate AllEnabled(s: System, steps: seq<Step>) {
    forall p :: 0 <= p < |steps| ==> Enabled(Exec(s, steps[..p]), steps[p])
  }

  lemma {:induction false} ExecJoins(s: System, steps: seq<Step>, more: seq<Step>)
    ensures Exec(s, steps + more) == Exec(Exec(s, steps), more)
  {
    if more == [] {
      assert steps + more == steps;
    } else {
      assert Front(steps + more) == steps + Front(more) && Last(steps + more) == Last(more);
      ExecJoins(s, steps, Front(more));
    }
  }

  lemma {:induction false} InvGoesOn(s: System, steps: seq<Step>)
    requires Inv(s)
    ensures Inv(Exec(s, steps))
  {
    if steps == [] {
    } else {
      InvGoesOn(s, Front(steps));
      InvStep(Exec(s, Front(steps)), Last(steps));
    }
  }

  /** However the frames are handled, it ends after so many steps. */
  lemma {:induction false} HandlingEnds(s: System, more: seq<Step>)
    requires Inv(s) && OnlyHandles(more) && AllEnabled(s, more)
    ensures |more| + Outstanding(Exec(s, more)) <= Outstanding(s)
  {
    if more == [] {
    } else {
      var front := Front(more);
      assert Last(more) in more && forall st :: st in front ==> st in more;
      assert forall p :: 0 <= p < |front| ==> front[..p] == more[..p];
      assert more[..|more| - 1] == front && Enabled(Exec(s, more[..|more| - 1]), more[|more| - 1]);
      HandlingEnds(s, front);
      InvGoesOn(s, front);
      HandlingLowers(Exec(s, front), Last(more));
    }
  }

  /** No frame can be handled any more. */
  ghost predicate IsDrained(s: System) {
    forall st: Step :: Handles(st) ==> !Enabled(s, st)
  }

  /** And from every state it is possible to go on to the end. */
  lemma CanBeDrained(s: System) returns (more: seq<Step>)
    requires Inv(s)
    ensures OnlyHandles(more) && AllEnabled(s, more) && IsDrained(Exec(s, more))
    decreases Outstanding(s)
  {
    if st: Step :| Handles(st) && Enabled(s, st) {
      HandlingLowers(s, st);
      InvStep(s, st);
      var rest := CanBeDrained(Next(s, st));
      more := [st] + rest;
      FirstThenRest(s, st, rest);
    } else {
      more := [];
    }
  }

  lemma FirstThenRest(s: System, st: Step, rest: seq<Step>)
    requires Enabled(s, st) && AllEnabled(Next(s, st), rest)
    ensures AllEnabled(s, [st] + rest) && Exec(s, [st] + rest) == Exec(Next(s, st), rest)
  {
    OneStep(s, st);
    ExecJoins(s, [st], rest);
    var more := [st] + rest;
    forall p | 0 <= p < |more| ensures Enabled(Exec(s, more[..p]), more[p]) {
      if p == 0 {
        assert more[..p] == [];
      } else {
        assert more[..p] == [st] + rest[..p - 1];
        ExecJoins(s, [st], rest[..p - 1]);
      }
    }
  }

  lemma OneStep(s: System, st: Step)
    ensures Exec(s, [st]) == Next(s, st)
  {
    assert Front([st]) == [];
  }

  // ----- and nothing is left

  lemma DrainedClient(c: Client, m: Membership)
    requires Phase(c, m) && c.login != Failed
    requires c.inbox != [] ==> c.login !in {Hello, Naming, Approved, Chatting, Leaving}
    requires c.outbox != [] ==> c.thread != Serving
    ensures c.inbox == [] && c.outbox == []
  {
  }

  /** When no frame can be handled, no channel of a client that has not failed holds one. */
  lemma DrainedIsEmpty(s: System, k: nat)
    requires Inv(s) && IsDrained(s) && k < |s.clients| && s.clients[k].login != Failed
    ensures s.clients[k].inbox == [] && s.clients[k].outbox == []
  {
    assert !Enabled(s, Receive(k)) && !Enabled(s, Serve(k));
    DrainedClient(s.clients[k], Member(s.log, k));
  }

  /** Handling frames adds no message. */
  lemma {:induction false} NothingIsTyped(names: seq<string>, steps: seq<Step>, more: seq<Step>, a: string, b: string)
    requires OnlyHandles(more)
    ensures Times(Typing, names, steps + more, a, b) == Times(Typing, names, steps, a, b)
  {
    if more == [] {
      assert steps + more == steps;
    } else {
      var front, st := Front(more), Last(more);
      assert st in more && forall x :: x in front ==> x in more;
      NothingIsTyped(names, steps, front, a, b);
      assert Front(steps + more) == steps + front && Last(steps + more) == st;
      HandlingTypesNothing(names, Exec(Init(names), steps + front), st, a, b);
    }
  }

  lemma HandlingTypesNothing(names: seq<string>, s: System, st: Step, a: string, b: string)
    requires Handles(st)
    ensures Tally(Typing, names, a, b, Next(s, st).log) == Tally(Typing, names, a, b, s.log)
  {
    if Enabled(s, st) && Events(s, st) != [] {
      var e := Events(s, st)[0];
      assert Events(s, st) == [e] && !e.Sent?;
      Snoc(s.log, e);
    } else {
      assert s.log + [] == s.log;
    }
  }

  /**
   If nobody logs out and the names do not clash, every way of handling the frames after a run ends, and
   then each message that was typed in the run has been refused, or its confirmation has been read.
   */
  lemma EveryMessageIsSettled(names: seq<string>, steps: seq<Step>, more: seq<Step>, a: string, b: string)
    requires forall st :: st in steps ==> !st.Logout?
    requires forall i, k, j :: !Clash(names, i, k, j)
    requires OnlyHandles(more) && IsDrained(Exec(Init(names), steps + more))
    ensures Times(Typing, names, steps, a, b)
            == Times(Refusal, names, steps + more, a, b) + Times(Reading, names, steps + more, a, b)
  {
    var all := steps + more;
    forall st | st in all ensures !st.Logout? {
      assert st in steps || st in more;
    }
    NobodyHasFailed(names, all);
    EmptyAfter(names, all);
    QuietIsSettled(names, all, a, b);
    NothingIsTyped(names, steps, more, a, b);
  }

  lemma NobodyHasFailed(names: seq<string>, steps: seq<Step>)
    requires forall i, k, j :: !Clash(names, i, k, j)
    ensures forall c :: c in Exec(Init(names), steps).clients ==> c.login != Failed
  {
    forall c | c in Exec(Init(names), steps).clients ensures c.login != Failed {
      var k :| 0 <= k < |names| && Exec(Init(names), steps).clients[k] == c;
      if c.login == Failed {
        assert CanFail(names);
        FailureIffClash(names);
        assert false;
      }
    }
  }

  lemma EmptyAfter(names: seq<string>, steps: seq<Step>)
    requires IsDrained(Exec(Init(names), steps))
    requires forall c :: c in Exec(Init(names), steps).clients ==> c.login != Failed
    ensures forall c :: c in Exec(Init(names), steps).clients ==> c.inbox == [] && c.outbox == []
  {
    var s := Exec(Init(names), steps);
    InvRun(names, steps);
    forall c | c in s.clients ensures c.inbox == [] && c.outbox == [] {
      var k :| 0 <= k < |s.clients| && s.clients[k] == c;
      DrainedIsEmpty(s, k);
    }
  }
}
