/** The text of the frames: how each side writes them, and how the other side takes them apart. */
module Wire {
  import opened Basics
  import opened Messages

  // ----- words

  predicate IsBreak(ch: char) {
    ch == '\0' || ch == '\t' || ch == ' ' || ch == '\n'
  }

  /** The number of characters before the first break. */
  function WordLength(s: string): (n: nat)
    ensures n <= |s| && (n < |s| ==> IsBreak(s[n]))
    ensures forall k :: 0 <= k < n ==> !IsBreak(s[k])
  {
    if s == "" || IsBreak(s[0]) then 0 else 1 + WordLength(s[1..])
  }

  /** The scan of `word_length`. */
  method MeasureWord(s: string) returns (i: nat)
    ensures i == WordLength(s)
  {
    i := 0;
    while i < |s| && !IsBreak(s[i])
      invariant i <= |s|
      invariant forall k :: 0 <= k < i ==> !IsBreak(s[k])
    {
      i := i + 1;
    }
    WordLengthIs(s, i);
  }

  lemma {:induction false} WordLengthIs(s: string, n: nat)
    requires n <= |s| && (n < |s| ==> IsBreak(s[n]))
    requires forall k :: 0 <= k < n ==> !IsBreak(s[k])
    ensures WordLength(s) == n
  {
    if n == 0 {
    } else {
      WordLengthIs(s[1..], n - 1);
    }
  }

  function Word(s: string): string {
    s[..WordLength(s)]
  }

  /** Python's `s[n:]`, and C's `s + n` where the string goes that far. */
  function Drop(s: string, n: nat): string {
    if n <= |s| then s[n..] else ""
  }

  /** What follows the first word and one break. */
  function Payload(s: string): string {
    Drop(s, WordLength(s) + 1)
  }

  /** A user name: not empty, and without breaks. */
  ghost predicate IsName(s: string) {
    s != "" && forall k :: 0 <= k < |s| ==> !IsBreak(s[k])
  }

  lemma WordThenSpace(word: string, rest: string)
    requires forall k :: 0 <= k < |word| ==> !IsBreak(word[k])
    ensures Word(word + " " + rest) == word && Payload(word + " " + rest) == rest
    ensures Word(word) == word && Payload(word) == ""
  {
    var s := word + " " + rest;
    WordLengthIs(s, |word|);
    WordLengthIs(word, |word|);
    assert s[..|word|] == word && s[|word| + 1..] == rest;
    assert word[..|word|] == word;
  }

  /** Any break ends a word, and exactly one is left out of the rest. */
  lemma WordThenBreak(word: string, c: char, rest: string)
    requires (forall k :: 0 <= k < |word| ==> !IsBreak(word[k])) && IsBreak(c)
    ensures Word(word + [c] + rest) == word && Payload(word + [c] + rest) == rest
  {
    var s := word + [c] + rest;
    WordLengthIs(s, |word|);
    assert s[..|word|] == word && s[|word| + 1..] == rest;
  }

  // ----- tokens

  /** `s` without the spaces at its front. */
  function SkipSpaces(s: string): (r: string)
    ensures |r| <= |s| && (r != "" ==> r[0] != ' ')
  {
    if s != "" && s[0] == ' ' then SkipSpaces(s[1..]) else s
  }

  /** The number of characters before the first space. */
  function SpaceAt(s: string): (n: nat)
    ensures n <= |s| && (n < |s| ==> s[n] == ' ')
    ensures forall k :: 0 <= k < n ==> s[k] != ' '
  {
    if s == "" || s[0] == ' ' then 0 else 1 + SpaceAt(s[1..])
  }

  /** The pieces that repeated `strtok(s, " ")` returns. */
  function Tokens(s: string): (ts: seq<string>)
    ensures forall t :: t in ts ==> t != "" && SpaceAt(t) == |t|
    decreases |s|
  {
    var r := SkipSpaces(s);
    if r == "" then []
    else
      SpaceFree(r[..SpaceAt(r)]);
      [r[..SpaceAt(r)]] + Tokens(r[SpaceAt(r)..])
  }

  lemma {:induction false} SpaceFree(t: string)
    ensures SpaceAt(t) == |t| <==> forall k :: 0 <= k < |t| ==> t[k] != ' '
  {
    if t == "" || t[0] == ' ' {
    } else {
      SpaceFree(t[1..]);
      assert (forall k :: 0 <= k < |t| ==> t[k] != ' ') ==> forall k :: 0 <= k < |t[1..]| ==> t[1..][k] != ' ';
    }
  }

  /** The loop of `list_users`: one line for each token. */
  method ListUsers(userList: string) returns (lines: seq<string>)
    ensures lines == Tokens(userList)
  {
    lines := [];
    var rest := SkipSpaces(userList);
    while rest != ""
      invariant rest == SkipSpaces(rest)
      invariant lines + Tokens(rest) == Tokens(userList)
      decreases |rest|
    {
      var n := SpaceAt(rest);
      lines := lines + [rest[..n]];
      SkipTwice(rest[n..]);
      rest := SkipSpaces(rest[n..]);
    }
  }

  lemma SkipTwice(s: string)
    ensures SkipSpaces(SkipSpaces(s)) == SkipSpaces(s) && Tokens(SkipSpaces(s)) == Tokens(s)
  {
  }

  /** The text that `get_users` builds: a space before every name. */
  function Listed(names: seq<string>): string {
    if names == [] then "" else Listed(Front(names)) + " " + Last(names)
  }

  lemma {:induction false} ListedFromFront(names: seq<string>)
    requires names != []
    ensures Listed(names) == " " + (names[0] + Listed(names[1..]))
  {
    var front, last := Front(names), Last(names);
    if |names| == 1 {
    } else {
      ListedFromFront(front);
      assert front[1..] == Front(names[1..]) && Last(names[1..]) == last;
      var tail := Listed(front[1..]);
      assert " " + (names[0] + tail) + " " + last == " " + (names[0] + (tail + " " + last));
    }
  }

  lemma ListedIsSpaced(names: seq<string>)
    ensures Listed(names) == "" || Listed(names)[0] == ' '
  {
    if names != [] {
      ListedFromFront(names);
    }
  }

  lemma FirstToken(t: string, rest: string)
    requires t != "" && SpaceAt(t) == |t| && (rest == "" || rest[0] == ' ')
    ensures Tokens(t + rest) == [t] + Tokens(rest)
  {
    var s := t + rest;
    SpaceFree(t);
    assert s[0] == t[0];
    SpaceAtIs(s, |t|);
    assert s[..|t|] == t && s[|t|..] == rest;
  }

  lemma SpaceBefore(s: string)
    ensures Tokens(" " + s) == Tokens(s)
  {
    assert (" " + s)[1..] == s;
  }

  lemma {:induction false} SpaceAtIs(s: string, n: nat)
    requires n <= |s| && (n < |s| ==> s[n] == ' ') && forall k :: 0 <= k < n ==> s[k] != ' '
    ensures SpaceAt(s) == n
  {
    if n == 0 {
    } else {
      SpaceAtIs(s[1..], n - 1);
    }
  }

  /** The names survive the listing and the reading of the list exactly when none is empty or has a space. */
  lemma ListedNamesReturn(names: seq<string>)
    ensures Tokens(Listed(names)) == names <==> forall n :: n in names ==> n != "" && SpaceAt(n) == |n|
  {
    if forall n :: n in names ==> n != "" && SpaceAt(n) == |n| {
      ListedReturn(names);
    }
  }

  lemma {:induction false} ListedReturn(names: seq<string>)
    requires forall n :: n in names ==> n != "" && SpaceAt(n) == |n|
    ensures Tokens(Listed(names)) == names
  {
    if names == [] {
    } else {
      assert names[0] in names;
      ListedReturn(names[1..]);
      ListedTokens(names);
      assert names == [names[0]] + names[1..];
    }
  }

  lemma ListedTokens(names: seq<string>)
    requires names != [] && names[0] != "" && SpaceAt(names[0]) == |names[0]|
    ensures Tokens(Listed(names)) == [names[0]] + Tokens(Listed(names[1..]))
  {
    var rest := Listed(names[1..]);
    ListedFromFront(names);
    ListedIsSpaced(names[1..]);
    SpaceBefore(names[0] + rest);
    FirstToken(names[0], rest);
  }

  lemma Reassociate<T>(p: seq<T>, q: seq<T>, r: seq<T>)
    ensures (p + q) + r == p + (q + r)
  {
  }

  lemma TokensAfterToken(t: string, a: string, b: string)
    requires t != "" && SpaceAt(t) == |t| && (a == "" || a[0] == ' ') && (b == "" || b[0] == ' ')
    requires Tokens(a + b) == Tokens(a) + Tokens(b)
    ensures Tokens((t + a) + b) == Tokens(t + a) + Tokens(b)
  {
    Reassociate(t, a, b);
    FirstToken(t, a);
    FirstToken(t, a + b);
    Reassociate([t], Tokens(a), Tokens(b));
  }

  lemma TokensAfterSpace(a: string, b: string)
    requires Tokens(a + b) == Tokens(a) + Tokens(b)
    ensures Tokens((" " + a) + b) == Tokens(" " + a) + Tokens(b)
  {
    Reassociate(" ", a, b);
    SpaceBefore(a);
    SpaceBefore(a + b);
  }

  lemma TakeToken(a: string) returns (t: string, rest: string)
    requires a != "" && a[0] != ' '
    ensures a == t + rest && t != "" && SpaceAt(t) == |t| && (rest == "" || rest[0] == ' ')
  {
    var n := SpaceAt(a);
    t, rest := a[..n], a[n..];
    SpaceAtIs(t, n);
  }

  lemma TakeSpace(a: string) returns (rest: string)
    requires a != "" && a[0] == ' '
    ensures a == " " + rest
  {
    rest := a[1..];
  }

  lemma {:induction false} TokensJoin(a: string, b: string)
    requires b == "" || b[0] == ' '
    ensures Tokens(a + b) == Tokens(a) + Tokens(b)
    decreases |a|
  {
    if a == "" {
      assert a + b == b && Tokens(a) == [];
    } else if a[0] == ' ' {
      var rest := TakeSpace(a);
      TokensJoin(rest, b);
      TokensAfterSpace(rest, b);
    } else {
      var t, rest := TakeToken(a);
      TokensJoin(rest, b);
      TokensAfterToken(t, rest, b);
    }
  }

  /** A space, wherever it is, separates tokens, and does nothing else. */
  lemma TokensSplit(a: string, b: string)
    ensures Tokens(a + " " + b) == Tokens(a) + Tokens(b)
  {
    TokensJoin(a, " " + b);
    Reassociate(a, " ", b);
    SpaceBefore(b);
  }

  // ----- writing

  /** The text of a frame, without its terminator. */
  function Show(m: Msg): string {
    match m
    case Me2u => "ME2U"
    case Iam(name) => "IAM" + " " + name
    case Listu => "LISTU"
    case To(name, text) => "TO" + " " + (name + " " + text)
    case Morf(name) => "MORF" + " " + name
    case Bye => "BYE"
    case U2em => "U2EM"
    case Etaken => "ETAKEN"
    case Mai => "MAI"
    case Motd(text) => "MOTD" + " " + text
    case Utsil(names) => "UTSIL" + " " + Listed(names)
    case From(name, text) => "FROM" + " " + (name + " " + text)
    case Edne(name) => "EDNE" + " " + name
    case Ot(name) => "OT" + " " + name
    case Eyb => "EYB"
    case Uoff(name) => "UOFF" + " " + name
  }

  /** The names in a frame are names. */
  ghost predicate WellNamed(m: Msg) {
    match m
    case Utsil(names) => forall n :: n in names ==> IsName(n)
    case Me2u | Listu | Bye | U2em | Etaken | Mai | Eyb => true
    case Motd(_) => true
    case _ => IsName(m.name)
  }

  // ----- reading at the server

  datatype Request = Known(m: Msg) | NoMessagePart | Unknown

  predicate Begins(s: string, verb: string) {
    |verb| <= |s| && s[..|verb|] == verb
  }

  /** A name and a message, split at the first space; without a space the unpacking raises. */
  function ParseTo(rest: string): Request {
    var n := SpaceAt(rest);
    if n == |rest| then NoMessagePart else Known(To(rest[..n], rest[n + 1..]))
  }

  /** The branches of `handle_user`, in their order. */
  function ParseRequest(text: string): Request {
    if text == "ME2U" then Known(Me2u)
    else if Begins(text, "IAM") then Known(Iam(Drop(text, 4)))
    else if text == "LISTU" then Known(Listu)
    else if Begins(text, "TO") then ParseTo(Drop(text, 3))
    else if Begins(text, "MORF") then Known(Morf(Drop(text, 5)))
    else if text == "BYE" then Known(Bye)
    else Unknown
  }

  predicate FromClient(m: Msg) {
    m.Me2u? || m.Iam? || m.Listu? || m.To? || m.Morf? || m.Bye?
  }

  lemma BareRequests()
    ensures ParseRequest("ME2U") == Known(Me2u) && ParseRequest("LISTU") == Known(Listu) && ParseRequest("BYE") == Known(Bye)
  {
    assert "LISTU"[0] == 'L' && "BYE"[0] == 'B';
  }

  lemma IamIsRead(name: string)
    ensures ParseRequest("IAM" + " " + name) == Known(Iam(name))
  {
    var s := "IAM" + " " + name;
    assert s[..3] == "IAM" && s[4..] == name && s[0] == 'I';
  }

  /** The server cuts its requests at fixed places: whatever comes after the verb is left out. */
  lemma SeparatorIsNotRead(c: char, rest: string)
    ensures ParseRequest("IAM" + [c] + rest) == Known(Iam(rest)) && ParseRequest("IAM") == Known(Iam(""))
    ensures ParseRequest("TO" + [c] + rest) == ParseTo(rest)
    ensures ParseRequest("MORF" + [c] + rest) == Known(Morf(rest)) && ParseRequest("MORF") == Known(Morf(""))
  {
    var a, b, d := "IAM" + [c] + rest, "TO" + [c] + rest, "MORF" + [c] + rest;
    assert a[..3] == "IAM" && a[4..] == rest && a[0] == 'I';
    assert b[..2] == "TO" && b[3..] == rest && b[0] == 'T';
    assert d[..4] == "MORF" && d[5..] == rest && d[0] == 'M' && d[1] == 'O';
    assert "IAM"[..3] == "IAM" && "MORF"[..4] == "MORF";
    assert "IAM"[0] == 'I' && "MORF"[0] == 'M' && "MORF"[1] == 'O';
  }

  lemma MorfIsRead(name: string)
    ensures ParseRequest("MORF" + " " + name) == Known(Morf(name))
  {
    var s := "MORF" + " " + name;
    assert s[..4] == "MORF" && s[5..] == name && s[0] == 'M' && s[1] == 'O';
  }

  lemma NameAndText(name: string, text: string)
    requires SpaceAt(name) == |name|
    ensures ParseTo(name + " " + text) == Known(To(name, text))
  {
    var rest := name + " " + text;
    SpaceFree(name);
    SpaceAtIs(rest, |name|);
    assert rest[..|name|] == name && rest[|name| + 1..] == text;
  }

  lemma ToIsRead(rest: string)
    ensures ParseRequest("TO" + " " + rest) == ParseTo(rest)
  {
    var s := "TO" + " " + rest;
    assert s[..2] == "TO" && s[3..] == rest && s[0] == 'T';
  }

  /** What a client writes, the server reads. */
  lemma RequestIsRead(m: Msg)
    requires FromClient(m) && (m.To? ==> SpaceAt(m.name) == |m.name|)
    ensures ParseRequest(Show(m)) == Known(m)
  {
    BareRequests();
    match m {
      case Iam(name) => IamIsRead(name);
      case Morf(name) => MorfIsRead(name);
      case To(name, text) => ToIsRead(name + " " + text); NameAndText(name, text);
      case Me2u =>
      case Listu =>
      case Bye =>
    }
  }

  // ----- reading at the client

  datatype Verb = UTSIL | OT | EDNE | FROM | UOFF | EYB

  function VerbText(v: Verb): string {
    match v
    case UTSIL => "UTSIL"
    case OT => "OT"
    case EDNE => "EDNE"
    case FROM => "FROM"
    case UOFF => "UOFF"
    case EYB => "EYB"
  }

  /** C's `strncmp(s, t, n) == 0`: the strings end with a zero, and nothing after a zero is compared. */
  predicate SameUpTo(s: string, t: string, n: nat) {
    n == 0
    || (var a, b := if s == "" then '\0' else s[0], if t == "" then '\0' else t[0];
        a == b && (a == '\0' || SameUpTo(s[1..], t[1..], n - 1)))
  }

  /** The test of a branch: the first word of the frame against the verb, over the length of the word. */
  predicate Matches(frame: string, v: Verb) {
    SameUpTo(frame, VerbText(v), WordLength(frame))
  }

  /** The branches of `regular_chat`, in their order. */
  function Dispatch(frame: string): Option<Verb> {
    if Matches(frame, UTSIL) then Some(UTSIL)
    else if Matches(frame, OT) then Some(OT)
    else if Matches(frame, EDNE) then Some(EDNE)
    else if Matches(frame, FROM) then Some(FROM)
    else if Matches(frame, UOFF) then Some(UOFF)
    else if Matches(frame, EYB) then Some(EYB)
    else None
  }

  lemma {:induction false} SameUpToIsPrefix(s: string, t: string, n: nat)
    requires n <= |s| && (forall k :: 0 <= k < n ==> s[k] != '\0') && (forall k :: 0 <= k < |t| ==> t[k] != '\0')
    ensures SameUpTo(s, t, n) <==> s[..n] <= t
  {
    if n == 0 {
    } else {
      if t != "" {
        SameUpToIsPrefix(s[1..], t[1..], n - 1);
        assert s[..n] == [s[0]] + s[1..][..n - 1];
        assert t == [t[0]] + t[1..];
      }
    }
  }

  lemma VerbsHaveNoBreaks(v: Verb)
    ensures forall k :: 0 <= k < |VerbText(v)| ==> !IsBreak(VerbText(v)[k])
  {
  }

  /** A branch is taken when the first word is a prefix of its verb. */
  lemma MatchesIsPrefix(frame: string, v: Verb)
    ensures Matches(frame, v) <==> Word(frame) <= VerbText(v)
  {
    VerbsHaveNoBreaks(v);
    SameUpToIsPrefix(frame, VerbText(v), WordLength(frame));
  }

  /** The verb that a frame stands for: it may be cut short, and then it is the first that it can be. */
  function VerbMeant(word: string): Option<Verb> {
    if word <= "UTSIL" then Some(UTSIL)
    else if word <= "OT" then Some(OT)
    else if word <= "EDNE" then Some(EDNE)
    else if word <= "FROM" then Some(FROM)
    else if word <= "UOFF" then Some(UOFF)
    else if word <= "EYB" then Some(EYB)
    else None
  }

  /** The comparisons over the length of the first word find the verb that is meant. */
  lemma DispatchByPrefix(frame: string)
    ensures Dispatch(frame) == VerbMeant(Word(frame))
  {
    MatchesIsPrefix(frame, UTSIL);
    MatchesIsPrefix(frame, OT);
    MatchesIsPrefix(frame, EDNE);
    MatchesIsPrefix(frame, FROM);
    MatchesIsPrefix(frame, UOFF);
    MatchesIsPrefix(frame, EYB);
  }

  lemma NoVerbBeginsAnother(v: Verb, w: Verb)
    ensures VerbText(v) <= VerbText(w) <==> v == w
  {
    if v != w {
      assert VerbText(v)[0] != VerbText(w)[0] || VerbText(v)[1] != VerbText(w)[1];
    }
  }

  /** A frame whose first word is a verb takes the branch of that verb, whatever follows. */
  lemma VerbsAreDispatched(frame: string, v: Verb)
    requires Word(frame) == VerbText(v)
    ensures Dispatch(frame) == Some(v)
  {
    forall w: Verb ensures Matches(frame, w) <==> w == v {
      MatchesIsPrefix(frame, w);
      NoVerbBeginsAnother(v, w);
    }
  }

  /** The branch for the whole first word, if it is a verb. */
  function ExactVerb(frame: string): Option<Verb> {
    var w := Word(frame);
    if w == "UTSIL" then Some(UTSIL)
    else if w == "OT" then Some(OT)
    else if w == "EDNE" then Some(EDNE)
    else if w == "FROM" then Some(FROM)
    else if w == "UOFF" then Some(UOFF)
    else if w == "EYB" then Some(EYB)
    else None
  }

  lemma NotAVerb(frame: string)
    requires forall v: Verb :: Word(frame) != VerbText(v)
    ensures ExactVerb(frame) == None
  {
    assert Word(frame) != VerbText(UTSIL) && Word(frame) != VerbText(OT) && Word(frame) != VerbText(EDNE);
    assert Word(frame) != VerbText(FROM) && Word(frame) != VerbText(UOFF) && Word(frame) != VerbText(EYB);
  }

  /** The dispatch goes wrong exactly on the first words that are a verb cut short, the empty one included. */
  lemma DispatchIsExactIff(frame: string)
    ensures Dispatch(frame) == ExactVerb(frame)
            <==> forall v: Verb :: !(Word(frame) <= VerbText(v) && Word(frame) != VerbText(v))
  {
    forall v: Verb ensures Matches(frame, v) <==> Word(frame) <= VerbText(v) {
      MatchesIsPrefix(frame, v);
    }
    if v: Verb :| Word(frame) == VerbText(v) {
      VerbsAreDispatched(frame, v);
      forall w: Verb ensures VerbText(v) <= VerbText(w) <==> v == w {
        NoVerbBeginsAnother(v, w);
      }
    } else {
      assert forall v: Verb :: Word(frame) != VerbText(v);
      NotAVerb(frame);
    }
  }

  /** The dispatch of the older client: the frame starts with the verb. */
  function DispatchByStart(frame: string): Option<Verb> {
    if Begins(frame, "UTSIL") then Some(UTSIL)
    else if Begins(frame, "OT") then Some(OT)
    else if Begins(frame, "FROM") then Some(FROM)
    else if Begins(frame, "EDNE") then Some(EDNE)
    else if Begins(frame, "EYB") then Some(EYB)
    else if Begins(frame, "UOFF") then Some(UOFF)
    else None
  }

  lemma OneStart(frame: string, v: Verb, w: Verb)
    requires Begins(frame, VerbText(v)) && Begins(frame, VerbText(w))
    ensures v == w
  {
    var x, y := VerbText(v), VerbText(w);
    assert frame[0] == x[0] == y[0] && frame[1] == x[1] == y[1];
  }

  /** A branch of the older client is taken exactly by the frames that start with its verb, in whatever order they are tried. */
  lemma StartDecides(frame: string, v: Verb)
    ensures DispatchByStart(frame) == Some(v) <==> Begins(frame, VerbText(v))
  {
    var r := DispatchByStart(frame);
    if r.Some? {
      assert Begins(frame, VerbText(r.value));
    }
    if Begins(frame, VerbText(v)) {
      assert r.Some?;
      OneStart(frame, v, r.value);
    }
  }

  /** Both clients agree on every frame whose first word is a verb. */
  lemma DispatchesAgree(frame: string, v: Verb)
    requires Word(frame) == VerbText(v)
    ensures DispatchByStart(frame) == Some(v) == Dispatch(frame)
  {
    VerbsAreDispatched(frame, v);
    forall w: Verb ensures Begins(frame, VerbText(w)) <==> w == v {
      if Begins(frame, VerbText(w)) {
        var x, y := VerbText(v), VerbText(w);
        assert frame[0] == x[0] == y[0] && frame[1] == x[1] == y[1];
      }
    }
    assert Begins(frame, VerbText(UTSIL)) <==> v == UTSIL;
    assert Begins(frame, VerbText(OT)) <==> v == OT;
    assert Begins(frame, VerbText(EDNE)) <==> v == EDNE;
    assert Begins(frame, VerbText(FROM)) <==> v == FROM;
    assert Begins(frame, VerbText(UOFF)) <==> v == UOFF;
    assert Begins(frame, VerbText(EYB)) <==> v == EYB;
  }

  /** What a chatting client understands of a frame. */
  function ParseFrame(frame: string): Option<Msg> {
    ParseRest(Dispatch(frame), Payload(frame))
  }

  function ParseRest(verb: Option<Verb>, rest: string): Option<Msg> {
    match verb
    case None => None
    case Some(UTSIL) => Some(Utsil(Tokens(rest)))
    case Some(OT) => Some(Ot(rest))
    case Some(EDNE) => Some(Edne(rest))
    case Some(FROM) => Some(From(Word(rest), Payload(rest)))
    case Some(UOFF) => Some(Uoff(rest))
    case Some(EYB) => Some(Eyb)
  }

  function VerbOf(m: Msg): Option<Verb> {
    match m
    case Utsil(_) => Some(UTSIL)
    case Ot(_) => Some(OT)
    case Edne(_) => Some(EDNE)
    case From(_, _) => Some(FROM)
    case Uoff(_) => Some(UOFF)
    case Eyb => Some(EYB)
    case _ => None
  }

  lemma VerbAndRest(v: Verb, rest: string)
    ensures Dispatch(VerbText(v) + " " + rest) == Some(v) && Payload(VerbText(v) + " " + rest) == rest
    ensures Dispatch(VerbText(v)) == Some(v)
  {
    VerbsHaveNoBreaks(v);
    WordThenSpace(VerbText(v), rest);
    VerbsAreDispatched(VerbText(v) + " " + rest, v);
    VerbsAreDispatched(VerbText(v), v);
  }

  lemma ListIsRead(names: seq<string>)
    requires forall n :: n in names ==> IsName(n)
    ensures ParseFrame("UTSIL" + " " + Listed(names)) == Some(Utsil(names))
  {
    VerbAndRest(UTSIL, Listed(names));
    forall n | n in names ensures n != "" && SpaceAt(n) == |n| {
      SpaceFree(n);
    }
    ListedReturn(names);
  }

  lemma MessageIsRead(name: string, text: string)
    requires IsName(name)
    ensures ParseFrame("FROM" + " " + (name + " " + text)) == Some(From(name, text))
  {
    VerbAndRest(FROM, name + " " + text);
    WordThenSpace(name, text);
  }

  lemma NoticeIsRead(v: Verb, name: string)
    requires v == OT || v == EDNE || v == UOFF
    ensures ParseFrame(VerbText(v) + " " + name)
            == Some(if v == OT then Ot(name) else if v == EDNE then Edne(name) else Uoff(name))
  {
    VerbAndRest(v, name);
  }

  /** What the server writes to a chatting client, the client reads. */
  lemma FrameIsRead(m: Msg)
    requires VerbOf(m).Some? && WellNamed(m)
    ensures ParseFrame(Show(m)) == Some(m)
  {
    match m {
      case Utsil(names) => ListIsRead(names);
      case From(name, text) => MessageIsRead(name, text);
      case Ot(name) => NoticeIsRead(OT, name);
      case Edne(name) => NoticeIsRead(EDNE, name);
      case Uoff(name) => NoticeIsRead(UOFF, name);
      case Eyb => VerbAndRest(EYB, "");
    }
  }
}
