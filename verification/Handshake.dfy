/** The login dialogue, as the frames that the client receives drive it. */
module Handshake {
  import opened Basics
  import opened Messages
  import opened ChatSystem
  import opened Wire

  /** `Waiting(n)` is `login_state` n while frames are awaited; 10 is the completed login. */
  datatype Outcome = Waiting(state: nat) | Taken | BadFrame

  function Advance(o: Outcome, frame: string): Outcome {
    if o == Waiting(1) then if frame == "U2EM" then Waiting(3) else BadFrame
    else if o == Waiting(3) then if frame == "ETAKEN" then Taken else if frame == "MAI" then Waiting(4) else BadFrame
    else if o == Waiting(4) then if Begins(frame, "MOTD") then Waiting(10) else BadFrame
    else o
  }

  function Progress(frames: seq<string>): (o: Outcome)
    ensures o in {Waiting(1), Waiting(3), Waiting(4), Waiting(10), Taken, BadFrame}
  {
    if frames == [] then Waiting(1) else Advance(Progress(Front(frames)), Last(frames))
  }

  /** The login state never decreases. */
  lemma {:induction false} LoginNeverGoesBack(frames: seq<string>, n: nat)
    requires n <= |frames| && Progress(frames).Waiting?
    ensures Progress(frames[..n]).Waiting? && Progress(frames[..n]).state <= Progress(frames).state
  {
    if n < |frames| {
      LoginNeverGoesBack(Front(frames), n);
      assert Front(frames)[..n] == frames[..n];
    } else {
      assert frames[..n] == frames;
    }
  }

  /** The first three frames take a client in. */
  ghost predicate Welcomed(frames: seq<string>) {
    |frames| >= 3 && frames[0] == "U2EM" && frames[1] == "MAI" && Begins(frames[2], "MOTD")
  }

  /** The frames that are still awaited. */
  function Remaining(o: Outcome): nat {
    if o == Waiting(1) then 3 else if o == Waiting(3) then 2 else if o == Waiting(4) then 1 else 0
  }

  /** Each frame that is awaited brings the end nearer by one at least, and three are awaited at first. */
  lemma {:induction false} FramesAreCounted(frames: seq<string>, frame: string)
    requires Remaining(Progress(frames)) > 0
    ensures |frames| + Remaining(Progress(frames)) == 3
    ensures Remaining(Progress(frames + [frame])) < Remaining(Progress(frames))
  {
    Snoc(frames, frame);
    if frames == [] {
    } else {
      FramesAreCounted(Front(frames), frame);
    }
  }

  /** The login awaited each of the frames when it came. */
  ghost predicate Awaited(frames: seq<string>) {
    frames == [] || (Awaited(Front(frames)) && Remaining(Progress(Front(frames))) > 0)
  }

  lemma {:induction false} ProgressIs(frames: seq<string>)
    ensures frames != [] && frames[0] != "U2EM" ==> Progress(frames) == BadFrame
    ensures |frames| == 1 && frames[0] == "U2EM" ==> Progress(frames) == Waiting(3)
    ensures |frames| >= 2 && frames[0] == "U2EM" && frames[1] != "MAI" ==>
              Progress(frames) == if frames[1] == "ETAKEN" then Taken else BadFrame
    ensures |frames| == 2 && frames[0] == "U2EM" && frames[1] == "MAI" ==> Progress(frames) == Waiting(4)
    ensures |frames| >= 3 && frames[0] == "U2EM" && frames[1] == "MAI" ==>
              Progress(frames) == if Begins(frames[2], "MOTD") then Waiting(10) else BadFrame
  {
    if frames == [] {
    } else {
      ProgressIs(Front(frames));
    }
  }

  /**
   The login is completed exactly when the first three frames are U2EM, MAI, and one that starts with
   MOTD, and it is the third that completes it.
   */
  lemma LoggedInIffWelcomed(frames: seq<string>)
    ensures Progress(frames) == Waiting(10) <==> Welcomed(frames)
    ensures Welcomed(frames) ==> Progress(frames[..2]) == Waiting(4) && Progress(frames[..3]) == Waiting(10)
  {
    ProgressIs(frames);
    if Welcomed(frames) {
      ProgressIs(frames[..2]);
      ProgressIs(frames[..3]);
    }
  }

  /** The frames of the protocol step drive the text of the login in the same way. */
  function StateOf(l: Login): Outcome
    requires l in {Hello, Naming, Approved, Chatting, Rejected, Failed}
  {
    match l
    case Hello => Waiting(1)
    case Naming => Waiting(3)
    case Approved => Waiting(4)
    case Chatting => Waiting(10)
    case Rejected => Taken
    case Failed => BadFrame
  }

  lemma LoginFramesAgree(c: Client, m: Msg)
    requires c.login in {Hello, Naming, Approved}
    requires m == U2em || m == Mai || m == Etaken || m.Motd?
    ensures StateOf(React(c, m).login) == Advance(StateOf(c.login), Show(m))
  {
    assert Show(m)[0] == if m == U2em then 'U' else if m == Etaken then 'E' else 'M';
    if m.Motd? {
      assert Show(m)[..4] == "MOTD" && Show(m)[1] == 'O';
    }
  }
}
