/** The client's doubly linked list of chat partners. */
module Partners {
  import opened Basics
  import opened Wire
  import opened ChatSystem

  /** The names met, in the order of first contact. */
  function MeetAll(met: seq<string>, names: seq<string>): seq<string> {
    if names == [] then met else Meet(MeetAll(met, Front(names)), Last(names))
  }

  predicate Distinct(names: seq<string>) {
    forall i, j :: 0 <= i < j < |names| ==> names[i] != names[j]
  }

  /** The position of the first occurrence of `name`. */
  function FirstAt(names: seq<string>, name: string): (i: nat)
    requires name in names
    ensures i < |names| && names[i] == name && name !in names[..i]
  {
    if names[0] == name then 0
    else
      var i := 1 + FirstAt(names[1..], name);
      assert names[..i] == [names[0]] + names[1..][..i - 1];
      i
  }

  lemma {:induction false} FirstAtIs(names: seq<string>, name: string, i: nat)
    requires i < |names| && names[i] == name && name !in names[..i]
    ensures name in names && FirstAt(names, name) == i
  {
    if i == 0 {
    } else {
      assert names[..i] == [names[0]] + names[1..][..i - 1];
      FirstAtIs(names[1..], name, i - 1);
    }
  }

  lemma FirstAtFront(front: seq<string>, last: string, name: string)
    requires name in front || name == last
    ensures name in front + [last]
    ensures FirstAt(front + [last], name) == if name in front then FirstAt(front, name) else |front|
  {
    var names := front + [last];
    var i := if name in front then FirstAt(front, name) else |front|;
    assert names[..i] == front[..i];
    assert front[..|front|] == front;
    FirstAtIs(names, name, i);
  }

  /** `met` lists the names of `names`, each once, in the order of their first occurrences. */
  ghost predicate InFirstContactOrder(met: seq<string>, names: seq<string>) {
    && Distinct(met)
    && (forall n :: n in met <==> n in names)
    && (forall i, j :: 0 <= i < j < |met| ==>
          met[i] in names && met[j] in names && FirstAt(names, met[i]) < FirstAt(names, met[j]))
  }

  lemma OneMore(met: seq<string>, front: seq<string>, last: string)
    requires InFirstContactOrder(met, front)
    ensures InFirstContactOrder(Meet(met, last), front + [last])
  {
    var r, names := Meet(met, last), front + [last];
    forall i, j | 0 <= i < j < |r|
      ensures r[i] in names && r[j] in names && FirstAt(names, r[i]) < FirstAt(names, r[j])
    {
      assert r[i] in met && (r[j] in met || r[j] == last);
      FirstAtFront(front, last, r[i]);
      FirstAtFront(front, last, r[j]);
    }
    forall n ensures n in r <==> n in names {
      if n == last {
        assert names[|front|] == last;
      }
    }
  }

  /** Each name met is listed once, and the list is in the order of first contact. */
  lemma {:induction false} FirstContactOrder(names: seq<string>)
    ensures InFirstContactOrder(MeetAll([], names), names)
  {
    if names == [] {
    } else {
      FirstContactOrder(Front(names));
      OneMore(MeetAll([], Front(names)), Front(names), Last(names));
      assert names == Front(names) + [Last(names)];
    }
  }

  /** One more for the partner `name`. */
  function CountedFor(names: seq<string>, counts: seq<nat>, name: string): (r: seq<nat>)
    requires |names| == |counts|
    ensures |r| == |counts|
    ensures forall i :: 0 <= i < |r| ==> r[i] == counts[i] + if names[i] == name then 1 else 0
  {
    seq(|counts|, i requires 0 <= i < |counts| => counts[i] + if names[i] == name then 1 else 0)
  }

  class Node {
    var username: string
    var otCnt: nat
    var next: Node?
    var prev: Node?

    constructor (name: string)
      ensures username == name && otCnt == 0 && next == null && prev == null
    {
      username := name;
      otCnt := 0;
      next := null;
      prev := null;
    }
  }

  ghost function After(nodes: seq<Node>, i: nat): Node?
    requires i < |nodes|
  {
    if i + 1 < |nodes| then nodes[i + 1] else null
  }

  ghost function Before(nodes: seq<Node>, i: nat): Node?
    requires i < |nodes|
  {
    if i > 0 then nodes[i - 1] else null
  }

  class PartnerList {
    var head: Node?
    var tail: Node?
    ghost var nodes: seq<Node>

    /** Head and tail are the ends of the chain of distinct nodes, and `next` and `prev` undo each other. */
    ghost predicate Linked()
      reads this, nodes
    {
      && (forall i, j :: 0 <= i < j < |nodes| ==> nodes[i] != nodes[j])
      && head == (if nodes == [] then null else nodes[0])
      && tail == (if nodes == [] then null else nodes[|nodes| - 1])
      && (forall i {:trigger nodes[i].next} :: 0 <= i < |nodes| ==> nodes[i].next == After(nodes, i))
      && (forall i {:trigger nodes[i].prev} :: 0 <= i < |nodes| ==> nodes[i].prev == Before(nodes, i))
    }

    ghost function Names(): (r: seq<string>)
      reads this, nodes
      ensures |r| == |nodes| && forall i :: 0 <= i < |r| ==> r[i] == nodes[i].username
    {
      seq(|nodes|, i reads this, nodes requires 0 <= i < |nodes| => nodes[i].username)
    }

    /** How many confirmations each partner has sent. */
    ghost function Counts(): (r: seq<nat>)
      reads this, nodes
      ensures |r| == |nodes| && forall i :: 0 <= i < |r| ==> r[i] == nodes[i].otCnt
    {
      seq(|nodes|, i reads this, nodes requires 0 <= i < |nodes| => nodes[i].otCnt)
    }

    ghost predicate Valid()
      reads this, nodes
    {
      Linked() && Distinct(Names())
    }

    constructor ()
      ensures Valid() && Names() == [] && nodes == []
    {
      head := null;
      tail := null;
      nodes := [];
    }

    method FindUser(name: string) returns (user: Node?)
      requires Valid()
      ensures user == null <==> name !in Names()
      ensures user != null ==> user in nodes && user.username == name
    {
      var temp := head;
      ghost var i := 0;
      while temp != null
        invariant i <= |nodes| && temp == (if i < |nodes| then nodes[i] else null)
        invariant forall k :: 0 <= k < i ==> nodes[k].username != name
        decreases |nodes| - i
      {
        if temp.username == name {
          assert Names()[i] == name;
          return temp;
        }
        temp := temp.next;
        i := i + 1;
      }
      return null;
    }

    /** Links a node at the end of the chain. */
    method Append(user: Node)
      requires Linked() && user !in nodes && user.next == null && user.prev == null
      modifies this, user, nodes
      ensures Linked() && nodes == old(nodes) + [user]
      ensures forall n: Node :: n in nodes ==> n.username == old(n.username) && n.otCnt == old(n.otCnt)
    {
      ghost var n := |nodes|;
      assert forall i :: 0 <= i < n ==> nodes[i] != user;
      if head == null {
        head := user;
        tail := head;
        nodes := [user];
      } else {
        assert tail == nodes[n - 1];
        assert forall i :: 0 <= i < n - 1 ==> nodes[i] != tail;
        tail.next := user;
        user.prev := tail;
        tail := user;
        nodes := nodes + [user];
        assert nodes[n] == user && nodes[n - 1].next == user && user.next == null;
        assert forall i :: 0 <= i < n ==> nodes[i] == old(nodes[i]);
        assert forall i {:trigger nodes[i].next} :: 0 <= i < n - 1 ==> nodes[i].next == old(nodes[i].next);
        assert forall i {:trigger nodes[i].prev} :: 0 <= i < n ==> nodes[i].prev == old(nodes[i].prev);
      }
    }

    /** Puts a new partner at the end of the list. */
    method CreateNewUser(name: string) returns (user: Node)
      requires Valid() && name !in Names()
      modifies this, nodes
      ensures Valid() && fresh(user) && nodes == old(nodes) + [user] && user.otCnt == 0
      ensures Names() == old(Names()) + [name]
      ensures forall n :: n in old(nodes) ==> n.username == old(n.username) && n.otCnt == old(n.otCnt)
    {
      user := new Node(name);
      Append(user);
      assert Names() == old(Names()) + [name];
    }

    /** The partner that a message is from or to, made known if it is new, and the text for its window. */
    method ProcessMsg(msg: string) returns (user: Node, text: string, ghost added: seq<Node>)
      requires Valid()
      modifies this, nodes
      ensures Valid() && Names() == Meet(old(Names()), Word(msg))
      ensures nodes == old(nodes) + added && fresh(added) && forall n :: n in added ==> n.otCnt == 0
      ensures user in nodes && user.username == Word(msg) && text == Payload(msg)
      ensures forall n :: n in old(nodes) ==> n.otCnt == old(n.otCnt)
      ensures Counts() == old(Counts()) + if Word(msg) in old(Names()) then [] else [0]
    {
      var nameLen := MeasureWord(msg);
      var name := msg[..nameLen];
      var found := FindUser(name);
      if found == null {
        user := CreateNewUser(name);
        added := [user];
      } else {
        user := found;
        added := [];
      }
      text := Drop(msg, nameLen + 1);
    }

    /** Counts a confirmation; the error branch is the result `false`. */
    method MsgConfirmed(name: string) returns (known: bool)
      requires Valid()
      modifies nodes
      ensures Valid() && nodes == old(nodes) && Names() == old(Names())
      ensures known <==> name in Names()
      ensures forall n :: n in nodes ==> n.otCnt == old(n.otCnt) + if n.username == name then 1 else 0
    {
      var tempUser := FindUser(name);
      if tempUser == null {
        assert forall i :: 0 <= i < |nodes| ==> Names()[i] == nodes[i].username;
        return false;
      }
      ghost var i :| 0 <= i < |nodes| && nodes[i] == tempUser;
      assert forall k :: 0 <= k < |nodes| && k != i ==> Names()[k] != Names()[i];
      tempUser.otCnt := tempUser.otCnt + 1;
      assert Names() == old(Names());
      return true;
    }
  }

  function Words(msgs: seq<string>): (r: seq<string>)
    ensures |r| == |msgs| && forall i :: 0 <= i < |r| ==> r[i] == Word(msgs[i])
  {
    if msgs == [] then [] else Words(Front(msgs)) + [Word(Last(msgs))]
  }

  lemma WordsSnoc(msgs: seq<string>, n: nat)
    requires n < |msgs|
    ensures MeetAll([], Words(msgs[..n + 1])) == Meet(MeetAll([], Words(msgs[..n])), Word(msgs[n]))
  {
    assert msgs[..n + 1] == msgs[..n] + [msgs[n]];
    Snoc(msgs[..n], msgs[n]);
    Snoc(Words(msgs[..n]), Word(msgs[n]));
  }

  /** After any messages, the list holds the names in them, in the order of first contact. */
  method ProcessAll(msgs: seq<string>) returns (list: PartnerList)
    ensures list.Valid() && list.Names() == MeetAll([], Words(msgs))
  {
    list := new PartnerList();
    for n := 0 to |msgs|
      invariant list.Valid() && fresh(list) && fresh(list.nodes)
      invariant list.Names() == MeetAll([], Words(msgs[..n]))
    {
      var user, text, added := list.ProcessMsg(msgs[n]);
      WordsSnoc(msgs, n);
    }
    assert msgs[..|msgs|] == msgs;
  }
}
