/** Terminated text: appending the terminator, finding it, and taking it out again. */
module Text {
  import opened Basics

  const ENDING := "\r\n\r\n"

  function Terminated(body: string): string {
    body + ENDING
  }

  predicate EndingAt(s: string, i: nat) {
    i + 4 <= |s| && s[i..i + 4] == ENDING
  }

  ghost predicate HasEnding(s: string) {
    exists i: nat :: EndingAt(s, i)
  }

  /** The text ends in the first half of a terminator. */
  predicate EndsInHalf(s: string) {
    |s| >= 2 && s[|s| - 2..] == "\r\n"
  }

  lemma EndingChars(s: string, i: nat)
    ensures EndingAt(s, i)
            <==> i + 4 <= |s| && s[i] == '\r' && s[i + 1] == '\n' && s[i + 2] == '\r' && s[i + 3] == '\n'
  {
    if i + 4 <= |s| {
      var w := s[i..i + 4];
      assert w == [w[0], w[1], w[2], w[3]] && ENDING == ['\r', '\n', '\r', '\n'];
    }
  }

  /** Python's `s.replace(ENDING, "")`: occurrences are taken out from the left and do not overlap. */
  function Strip(s: string): string {
    if |s| < 4 then s
    else if s[..4] == ENDING then Strip(s[4..])
    else [s[0]] + Strip(s[1..])
  }

  lemma HasEndingLater(s: string, i: nat, n: nat)
    requires EndingAt(s, i) && n <= i
    ensures HasEnding(s[n..])
  {
    assert s[n..][i - n..i - n + 4] == s[i..i + 4];
    assert EndingAt(s[n..], i - n);
  }

  lemma {:induction false} StripShrinks(body: string)
    ensures |Strip(Terminated(body))| <= |body|
    ensures HasEnding(body) ==> |Strip(Terminated(body))| < |body|
  {
    var s := Terminated(body);
    if |body| >= 4 && body[..4] == ENDING {
      assert s[4..] == Terminated(body[4..]) && s[..4] == body[..4];
      StripShrinks(body[4..]);
    } else if body != [] {
      assert s[1..] == Terminated(body[1..]);
      StripShrinks(body[1..]);
      if |body| < 4 {
        ShortBody(body);
      } else {
        assert s[..4] == body[..4];
        if i: nat :| EndingAt(body, i) {
          HasEndingLater(body, i, 1);
        }
      }
    } else {
      assert s[..4] == ENDING && s[4..] == "";
    }
  }

  /** The terminator overlaps itself by two characters, and by no other number. */
  lemma ShortBody(body: string)
    requires 0 < |body| < 4
    ensures Terminated(body)[..4] == ENDING <==> body == "\r\n"
    ensures Strip(Terminated("\r\n")) == "\r\n"
    ensures !HasEnding(body)
  {
    var s := Terminated(body);
    assert s[..4] == [s[0], s[1], s[2], s[3]];
    assert ENDING == ['\r', '\n', '\r', '\n'];
    assert |body| == 2 ==> body == [s[0], s[1]];
    assert Terminated("\r\n")[..4] == ENDING && Terminated("\r\n")[4..] == "\r\n";
  }

  lemma EndingInTail(s: string)
    requires s != ""
    ensures HasEnding(s[1..]) ==> HasEnding(s)
  {
    if i: nat :| EndingAt(s[1..], i) {
      assert s[1..][i..i + 4] == s[i + 1..i + 5];
      assert EndingAt(s, i + 1);
    }
  }

  lemma StripFirst(body: string)
    requires body != "" && body != "\r\n" && !HasEnding(body)
    ensures Strip(Terminated(body)) == [body[0]] + Strip(Terminated(body[1..]))
  {
    var s := Terminated(body);
    assert s[1..] == Terminated(body[1..]);
    if |body| < 4 {
      ShortBody(body);
    } else {
      assert s[..4] == body[..4];
      assert !EndingAt(body, 0);
    }
  }

  lemma {:induction false} StripKeeps(body: string)
    requires !HasEnding(body)
    ensures Strip(Terminated(body)) == body
  {
    if body == "" {
      assert Terminated(body)[4..] == "";
    } else if body == "\r\n" {
      ShortBody(body);
    } else {
      EndingInTail(body);
      StripKeeps(body[1..]);
      StripFirst(body);
    }
  }

  /** Stripping undoes appending exactly when the text has no terminator of its own. */
  lemma StripUndoesTerminated(body: string)
    ensures Strip(Terminated(body)) == body <==> !HasEnding(body)
  {
    StripShrinks(body);
    if !HasEnding(body) {
      StripKeeps(body);
    }
  }

  function Concat(parts: seq<string>): string {
    if parts == [] then "" else Concat(Front(parts)) + Last(parts)
  }

  lemma ConcatSnoc(parts: seq<string>, part: string)
    ensures Concat(parts + [part]) == Concat(parts) + part
  {
    Snoc(parts, part);
  }

  lemma ConcatStep(parts: seq<string>, n: nat)
    requires n < |parts|
    ensures Concat(parts[..n + 1]) == Concat(parts[..n]) + parts[n]
  {
    assert parts[..n + 1] == parts[..n] + [parts[n]];
    ConcatSnoc(parts[..n], parts[n]);
  }

  lemma {:induction false} ConcatPrefix(parts: seq<string>, m: nat)
    requires m <= |parts|
    ensures Concat(parts[..m]) <= Concat(parts)
  {
    if m < |parts| {
      ConcatPrefix(Front(parts), m);
      assert Front(parts)[..m] == parts[..m];
    } else {
      assert parts[..m] == parts;
    }
  }

  lemma ConcatGrows(parts: seq<string>, m: nat, n: nat)
    requires m <= n <= |parts|
    ensures Concat(parts[..m]) <= Concat(parts[..n])
  {
    ConcatPrefix(parts[..n], m);
    assert parts[..n][..m] == parts[..m];
  }
}
