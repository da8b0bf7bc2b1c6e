/** The server of `server.py`: the shared list of users, its scans, and one iteration of a connection's thread. */
module Server {
  import opened Basics
  import opened Text
  import opened Messages
  import opened Registry
  import opened Wire

  /** Bytes written to a connection. */
  datatype Packet = Packet(conn: nat, data: string)

  function Packets(sends: seq<Send>): seq<Packet> {
    if sends == [] then []
    else [Packet(sends[0].conn, Terminated(Show(sends[0].msg)))] + Packets(sends[1..])
  }

  lemma PacketsShort(x: Send, rest: seq<Send>)
    ensures Packets([x] + rest) == [Packet(x.conn, Terminated(Show(x.msg)))] + Packets(rest)
    ensures Packets([]) == [] && Packets([x]) == [Packet(x.conn, Terminated(Show(x.msg)))]
  {
    assert ([x] + rest)[1..] == rest && [x][1..] == [];
  }

  lemma BroadcastFrom(users: seq<User>, k: nat, m: Msg)
    requires k < |users|
    ensures Packets(Broadcast(users[k..], m))
            == [Packet(users[k].conn, Terminated(Show(m)))] + Packets(Broadcast(users[k + 1..], m))
  {
    assert users[k..][1..] == users[k + 1..];
    PacketsShort(Send(users[k].conn, m), Broadcast(users[k + 1..], m));
  }

  /** The packets of the break-less loop over the users from `k` on. */
  function NamedPackets(users: seq<User>, k: nat, name: string, data: string): seq<Packet>
    requires k <= |users|
    decreases |users| - k
  {
    if k == |users| then []
    else
      (if users[k].name == name then [Packet(users[k].conn, data)] else [])
      + NamedPackets(users, k + 1, name, data)
  }

  lemma {:induction false} NamedPacketsAreSends(users: seq<User>, k: nat, name: string, m: Msg)
    requires k <= |users|
    ensures NamedPackets(users, k, name, Terminated(Show(m))) == Packets(SendToAllNamed(users[k..], name, m))
    decreases |users| - k
  {
    if k == |users| {
    } else {
      NamedPacketsAreSends(users, k + 1, name, m);
      assert users[k..][1..] == users[k + 1..];
      var tail := SendToAllNamed(users[k + 1..], name, m);
      PacketsShort(Send(users[k].conn, m), tail);
      assert [] + tail == tail && [] + Packets(tail) == Packets(tail);
    }
  }

  lemma ByePackets(users: seq<User>, conn: nat)
    requires NameOf(users, conn).Some?
    ensures Packets(Handle(users, conn, Bye).sends)
            == [Packet(conn, Terminated(Show(Eyb)))]
               + Packets(Broadcast(Without(users, conn), Uoff(NameOf(users, conn).value)))
  {
    PacketsShort(Send(conn, Eyb), Broadcast(Without(users, conn), Uoff(NameOf(users, conn).value)));
  }

  lemma Moves<T>(a: seq<T>, x: T, b: seq<T>)
    ensures (a + [x]) + b == a + ([x] + b)
  {
  }

  /** One iteration of a thread, on the text of the frame. */
  function HandleText(users: seq<User>, c: nat, text: string): Reply {
    match ParseRequest(text)
    case Known(m) => Handle(users, c, m)
    case NoMessagePart => Reply(users, [], Raised)
    case Unknown => Reply(users, [], Ended)
  }

  /** On the frames that clients write, the thread does what the protocol step does. */
  lemma TextIsHandled(users: seq<User>, c: nat, m: Msg)
    requires FromClient(m) && (m.To? ==> SpaceAt(m.name) == |m.name|) && !HasEnding(Show(m))
    ensures HandleText(users, c, Strip(Terminated(Show(m)))) == Handle(users, c, m)
  {
    StripUndoesTerminated(Show(m));
    RequestIsRead(m);
  }

  /** TO without a text: the unpacking raises. */
  lemma NoTextRaises(users: seq<User>, c: nat, name: string)
    requires SpaceAt(name) == |name|
    ensures HandleText(users, c, "TO" + " " + name) == Reply(users, [], Raised)
    ensures HandleText(users, c, "TO") == Reply(users, [], Raised)
  {
    ToIsRead(name);
    assert "TO"[..2] == "TO" && "TO" != "ME2U" && !Begins("TO", "IAM") && "TO" != "LISTU";
  }

  /** A request that the server does not know ends the thread. */
  lemma StrangeRequestsEnd(users: seq<User>, c: nat, text: string)
    requires text != "ME2U" && text != "LISTU" && text != "BYE"
    requires !Begins(text, "IAM") && !Begins(text, "TO") && !Begins(text, "MORF")
    ensures HandleText(users, c, text) == Reply(users, [], Ended)
  {
  }

  /** The requests of a login, as text. */
  lemma LoginTexts(users: seq<User>, c: nat, name: string)
    ensures HandleText(users, c, "ME2U") == Reply(users, [Send(c, U2em)], Serving)
    ensures HandleText(users, c, "IAM " + name)
            == if HasName(users, name) then Reply(users, [Send(c, Etaken)], Ended)
               else Reply(users + [User(name, c)], [Send(c, Mai), Send(c, Motd("Hello Human "))], Serving)
  {
    BareRequests();
    IamIsRead(name);
    assert "IAM" + " " + name == "IAM " + name;
  }

  /** The requests of a chat, as text. */
  lemma MessageTexts(users: seq<User>, c: nat, own: string, name: string, text: string)
    requires NameOf(users, c) == Some(own) && SpaceAt(name) == |name|
    ensures HandleText(users, c, "TO " + name + " " + text)
            == Reply(users, [if HasName(users, name) then Send(HolderOf(users, name).value, From(own, text))
                             else Send(c, Edne(name))], Serving)
  {
    RequestIsRead(To(name, text));
    assert Show(To(name, text)) == "TO " + name + " " + text;
  }

  lemma ReplyTexts(users: seq<User>, c: nat, own: string, name: string)
    requires NamesDistinct(users) && NameOf(users, c) == Some(own)
    ensures HandleText(users, c, "MORF " + name)
            == Reply(users, if HasName(users, name) then [Send(HolderOf(users, name).value, Ot(own))] else [], Serving)
  {
    MorfIsRead(name);
    assert "MORF" + " " + name == "MORF " + name;
    SendToAllNamedIsOne(users, name, Ot(own));
  }

  lemma BareTexts(users: seq<User>, c: nat, own: string)
    requires NameOf(users, c) == Some(own)
    ensures HandleText(users, c, "LISTU") == Reply(users, [Send(c, Utsil(Names(users)))], Serving)
    ensures var r := HandleText(users, c, "BYE");
            && r.thread == Ended && |r.sends| == |users| && r.sends[0] == Send(c, Eyb)
            && forall k :: 1 <= k < |users| ==> r.sends[k] == Send(r.users[k - 1].conn, Uoff(own))
  {
    BareRequests();
    LeaverIsToldFirst(users, c);
  }

  /** The answers of the server, as text. */
  lemma AnswerTexts(own: string, name: string, text: string, names: seq<string>)
    ensures Show(U2em) == "U2EM" && Show(Etaken) == "ETAKEN" && Show(Mai) == "MAI" && Show(Eyb) == "EYB"
    ensures Show(Motd("Hello Human ")) == "MOTD Hello Human " && Show(Utsil(names)) == "UTSIL " + Listed(names)
    ensures Show(From(own, text)) == "FROM " + own + " " + text
    ensures Show(Edne(name)) == "EDNE " + name && Show(Ot(own)) == "OT " + own && Show(Uoff(own)) == "UOFF " + own
  {
  }

  class ChatServer {
    var users: seq<User>
    var sent: seq<Packet>

    constructor ()
      ensures users == [] && sent == []
    {
      users := [];
      sent := [];
    }

    method Write(conn: nat, text: string)
      modifies this`sent
      ensures sent == old(sent) + [Packet(conn, Terminated(text))]
    {
      sent := sent + [Packet(conn, Terminated(text))];
    }

    method GetNameFromAddr(addr: nat) returns (name: Option<string>)
      ensures name == NameOf(users, addr)
    {
      for i := 0 to |users|
        invariant NameOf(users, addr) == NameOf(users[i..], addr)
      {
        assert users[i..][1..] == users[i + 1..];
        if users[i].conn == addr {
          return Some(users[i].name);
        }
      }
      return None;
    }

    /** Forwards a message to the first user of that name; formatting it raises if the sender has no name. */
    method FindUserToSendMsgTo(name: string, msg: string, fromName: Option<string>)
      returns (found: bool, raised: bool)
      modifies this`sent
      ensures found <==> HolderOf(users, name).Some?
      ensures raised <==> found && fromName.None?
      ensures sent == old(sent) + if found && !raised
                then [Packet(HolderOf(users, name).value, Terminated(Show(From(fromName.value, msg))))] else []
    {
      for i := 0 to |users|
        invariant HolderOf(users, name) == HolderOf(users[i..], name)
        invariant sent == old(sent)
      {
        assert users[i..][1..] == users[i + 1..];
        if users[i].name == name {
          if fromName.None? {
            return true, true;
          }
          Write(users[i].conn, Show(From(fromName.value, msg)));
          return true, false;
        }
      }
      return false, false;
    }

    /** Sends OT to every user of that name: the loop does not stop at the first. */
    method SendOtToUsr(name: string, fromName: Option<string>) returns (raised: bool)
      modifies this`sent
      ensures raised <==> fromName.None? && HolderOf(users, name).Some?
      ensures sent == old(sent) + if fromName.None? then []
                else Packets(SendToAllNamed(users, name, Ot(fromName.value)))
    {
      if fromName.None? {
        // formatting the first OT raises
        return HolderOf(users, name).Some?;
      }
      var data := Terminated(Show(Ot(fromName.value)));
      for i := 0 to |users|
        invariant sent + NamedPackets(users, i, name, data) == old(sent) + NamedPackets(users, 0, name, data)
      {
        if users[i].name == name {
          Moves(sent, Packet(users[i].conn, data), NamedPackets(users, i + 1, name, data));
          Write(users[i].conn, Show(Ot(fromName.value)));
        }
      }
      NamedPacketsAreSends(users, 0, name, Ot(fromName.value));
      assert users[0..] == users;
      return false;
    }

    /** Acknowledges the first user on that address, takes it off the list, and tells all others. */
    method RemoveUsrByAddr(addr: nat) returns (raised: bool)
      modifies this
      ensures raised <==> NameOf(old(users), addr).None?
      ensures raised ==> users == old(users) && sent == old(sent)
      ensures !raised ==>
        && users == Without(old(users), addr)
        && sent == old(sent) + Packets(Handle(old(users), addr, Bye).sends)
      ensures !raised ==>
        exists i: nat :: IsFirstOn(old(users), addr, i) && users == old(users)[..i] + old(users)[i + 1..]
    {
      var toRem := None;
      for i := 0 to |users|
        invariant sent == old(sent) && users == old(users)
        invariant NameOf(users, addr) == NameOf(users[i..], addr) && toRem.None?
      {
        assert users[i..][1..] == users[i + 1..];
        if users[i].conn == addr {
          Write(users[i].conn, Show(Eyb));
          toRem := Some(users[i]);
          break;
        }
      }
      if toRem.None? {
        return true;
      }
      var name := toRem.value.name;
      ByePackets(users, addr);
      ghost var cut := FirstIsCutOut(users, addr);
      users := Without(users, addr);
      Moves(old(sent), Packet(addr, Terminated(Show(Eyb))), Packets(Broadcast(users, Uoff(name))));
      TellAll(name);
      return false;
    }

    /** The second loop of `remove_usr_by_addr`. */
    method TellAll(name: string)
      modifies this`sent
      ensures sent == old(sent) + Packets(Broadcast(users, Uoff(name)))
    {
      for k := 0 to |users|
        invariant sent + Packets(Broadcast(users[k..], Uoff(name)))
                  == old(sent) + Packets(Broadcast(users, Uoff(name)))
      {
        BroadcastFrom(users, k, Uoff(name));
        Moves(sent, Packet(users[k].conn, Terminated(Show(Uoff(name)))),
              Packets(Broadcast(users[k + 1..], Uoff(name))));
        Write(users[k].conn, Show(Uoff(name)));
      }
    }

    method GetUsers() returns (toRet: string)
      ensures toRet == Listed(Names(users))
    {
      toRet := "";
      for i := 0 to |users|
        invariant toRet == Listed(Names(users[..i]))
      {
        var before, now := Names(users[..i]), Names(users[..i + 1]);
        assert now == before + [users[i].name];
        Snoc(before, users[i].name);
        toRet := toRet + " " + users[i].name;
      }
      assert users[..|users|] == users;
    }

    /** The branch of `handle_user` for IAM. */
    method HandleIam(conn: nat, name: string) returns (thread: Thread)
      modifies this
      ensures var r := Handle(old(users), conn, Iam(name));
              users == r.users && sent == old(sent) + Packets(r.sends) && thread == r.thread
    {
      if HolderOf(users, name).Some? {
        PacketsShort(Send(conn, Etaken), []);
        Write(conn, Show(Etaken));
        thread := Ended;
      } else {
        PacketsShort(Send(conn, Mai), [Send(conn, Motd(GREETING))]);
        PacketsShort(Send(conn, Motd(GREETING)), []);
        assert [Send(conn, Mai)] + [Send(conn, Motd(GREETING))] == [Send(conn, Mai), Send(conn, Motd(GREETING))];
        Write(conn, Show(Mai));
        Write(conn, Show(Motd(GREETING)));
        users := users + [User(name, conn)];
        thread := Serving;
      }
    }

    /** The branch for TO. */
    method HandleTo(conn: nat, rest: string) returns (thread: Thread)
      modifies this`sent
      ensures var r := match ParseTo(rest)
                       case Known(m) => Handle(users, conn, m)
                       case _ => Reply(users, [], Raised);
              users == r.users && sent == old(sent) + Packets(r.sends) && thread == r.thread
    {
      var n := SpaceAt(rest);
      if n == |rest| {
        return Raised;
      }
      var name, msg := rest[..n], rest[n + 1..];
      var fromName := GetNameFromAddr(conn);
      var found, raised := FindUserToSendMsgTo(name, msg, fromName);
      if raised {
        return Raised;
      }
      PacketsShort(Send(conn, Edne(name)), []);
      if found {
        PacketsShort(Send(HolderOf(users, name).value, From(fromName.value, msg)), []);
      } else {
        Write(conn, Show(Edne(name)));
      }
      return Serving;
    }

    /** The branch for MORF. */
    method HandleMorf(conn: nat, name: string) returns (thread: Thread)
      modifies this`sent
      ensures var r := Handle(users, conn, Morf(name));
              users == r.users && sent == old(sent) + Packets(r.sends) && thread == r.thread
    {
      var fromName := GetNameFromAddr(conn);
      var raised := SendOtToUsr(name, fromName);
      return if raised then Raised else Serving;
    }

    /** The branch for BYE; the thread does not survive the socket that it closes. */
    method HandleBye(conn: nat) returns (thread: Thread)
      modifies this
      ensures var r := Handle(old(users), conn, Bye);
              users == r.users && sent == old(sent) + Packets(r.sends) && thread == r.thread
    {
      var raised := RemoveUsrByAddr(conn);
      return if raised then Raised else Ended;
    }

    /** One iteration of the loop of `handle_user`, for the bytes of one message. */
    method HandleUser(conn: nat, data: string) returns (thread: Thread)
      modifies this
      ensures var r := HandleText(old(users), conn, Strip(data));
              users == r.users && sent == old(sent) + Packets(r.sends) && thread == r.thread
    {
      var newStr := Strip(data);
      thread := Serving;
      if newStr == "ME2U" {
        PacketsShort(Send(conn, U2em), []);
        Write(conn, Show(U2em));
      } else if Begins(newStr, "IAM") {
        thread := HandleIam(conn, Drop(newStr, 4));
      } else if newStr == "LISTU" {
        var temp := GetUsers();
        PacketsShort(Send(conn, Utsil(Names(users))), []);
        Write(conn, "UTSIL" + " " + temp);
      } else if Begins(newStr, "TO") {
        thread := HandleTo(conn, Drop(newStr, 3));
      } else if Begins(newStr, "MORF") {
        thread := HandleMorf(conn, Drop(newStr, 5));
      } else if newStr == "BYE" {
        thread := HandleBye(conn);
      } else {
        thread := Ended;
      }
    }
  }
}
