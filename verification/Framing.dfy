/** What the clients' receive buffer computes: chunks go in, and a frame comes out when the text ends in a terminator. */
module Framing {
  import opened Basics
  import opened Text

  /** The most that one read returns. */
  const MAXLINE := 5120

  datatype Fed = Fed(rest: string, frame: Option<string>)

  /** One call of `process_string`. */
  function Feed(buf: string, chunk: string): Fed {
    var s := buf + chunk;
    if |s| >= 4 && s[|s| - 4..] == ENDING then Fed("", Some(s[..|s| - 4]))
    else Fed(s, None)
  }

  /** What is in the buffer after a list of chunks. */
  function Rest(chunks: seq<string>): string {
    if chunks == [] then "" else Feed(Rest(Front(chunks)), Last(chunks)).rest
  }

  /** The frames returned for a list of chunks. */
  function Frames(chunks: seq<string>): seq<string> {
    if chunks == [] then []
    else
      match Feed(Rest(Front(chunks)), Last(chunks)).frame
      case None => Frames(Front(chunks))
      case Some(body) => Frames(Front(chunks)) + [body]
  }

  /** The bytes that carry a list of messages. */
  function Stream(bodies: seq<string>): string {
    if bodies == [] then "" else Stream(Front(bodies)) + Terminated(Last(bodies))
  }

  /** One call moves the text from the buffer and the chunk to a frame, or to the buffer. */
  lemma FeedConserves(before: string, buf: string, chunk: string)
    ensures var f := Feed(buf, chunk);
            (before + buf) + chunk
            == if f.frame.None? then before + f.rest else before + Terminated(f.frame.value) + f.rest
  {
    var s := buf + chunk;
    assert (before + buf) + chunk == before + s;
    if Feed(buf, chunk).frame.Some? {
      assert Terminated(s[..|s| - 4]) == s;
    }
  }

  /** Frames returned, with their terminators, and the buffer: nothing is lost, whatever the chunks are. */
  lemma {:induction false} BytesAreConserved(chunks: seq<string>)
    ensures Stream(Frames(chunks)) + Rest(chunks) == Concat(chunks)
  {
    if chunks == [] {
    } else {
      var front := Front(chunks);
      BytesAreConserved(front);
      FeedConserves(Stream(Frames(front)), Rest(front), Last(chunks));
      match Feed(Rest(front), Last(chunks)).frame {
        case None =>
        case Some(body) => Snoc(Frames(front), body);
      }
    }
  }

  /** The first terminator in the terminated body is the one at its end. */
  ghost predicate Framable(body: string) {
    forall i: nat :: i < |body| ==> !EndingAt(Terminated(body), i)
  }

  /** The end of message `k` is also the end of a chunk. */
  ghost predicate AlignedAt(chunks: seq<string>, bodies: seq<string>, k: nat)
    requires k <= |bodies|
  {
    exists m :: 0 <= m <= |chunks| && Concat(chunks[..m]) == Stream(bodies[..k])
  }

  /** Every message end is also the end of a chunk. */
  ghost predicate Aligned(chunks: seq<string>, bodies: seq<string>) {
    forall k :: 0 <= k <= |bodies| ==> AlignedAt(chunks, bodies, k)
  }

  lemma {:induction false} StreamPrefix(bodies: seq<string>, k: nat)
    requires k <= |bodies|
    ensures Stream(bodies[..k]) <= Stream(bodies)
  {
    if k < |bodies| {
      StreamPrefix(Front(bodies), k);
      assert Front(bodies)[..k] == bodies[..k];
    } else {
      assert bodies[..k] == bodies;
    }
  }

  lemma StreamNext(bodies: seq<string>, k: nat)
    requires k < |bodies|
    ensures Stream(bodies[..k + 1]) == Stream(bodies[..k]) + Terminated(bodies[k])
  {
    Snoc(bodies[..k], bodies[k]);
    assert bodies[..k + 1] == bodies[..k] + [bodies[k]];
  }

  /** Where the buffer stands after some chunks: `k` messages are out, and part of the next is held. */
  ghost predicate Between(chunks: seq<string>, bodies: seq<string>, k: nat) {
    && k <= |bodies| && Frames(chunks) == bodies[..k]
    && (k == |bodies| ==> Rest(chunks) == "")
    && (k < |bodies| ==> |Rest(chunks)| < |Terminated(bodies[k])| && Rest(chunks) <= Terminated(bodies[k]))
  }

  lemma NoEarlyFrame(body: string, s: string)
    requires Framable(body) && s <= Terminated(body)
    ensures |s| >= 4 && s[|s| - 4..] == ENDING <==> s == Terminated(body)
  {
    var t := Terminated(body);
    if s == t {
      assert t[|t| - 4..] == ENDING;
    } else if |s| >= 4 {
      assert s[|s| - 4..] == t[|s| - 4..|s|];
      assert !EndingAt(t, |s| - 4);
    }
  }

  /** One more chunk, if it does not cross the end of the next message. */
  lemma OneChunk(chunks: seq<string>, bodies: seq<string>, k: nat, chunk: string) returns (k': nat)
    requires Between(chunks, bodies, k) && k < |bodies| && Framable(bodies[k])
    requires Rest(chunks) + chunk <= Terminated(bodies[k])
    ensures Between(chunks + [chunk], bodies, k')
  {
    Snoc(chunks, chunk);
    NoEarlyFrame(bodies[k], Rest(chunks) + chunk);
    if Rest(chunks) + chunk == Terminated(bodies[k]) {
      k' := k + 1;
      assert bodies[..k + 1] == bodies[..k] + [bodies[k]];
    } else {
      k' := k;
    }
  }

  /** The chunks carry framable messages, and none is empty, as `read` returns nothing only at the end. */
  ghost predicate Admissible(chunks: seq<string>, bodies: seq<string>) {
    && Concat(chunks) == Stream(bodies)
    && (forall body :: body in bodies ==> Framable(body))
    && (forall c :: c in chunks ==> c != "")
  }

  lemma ConcatThrough(chunks: seq<string>, n: nat)
    requires n < |chunks|
    ensures Concat(chunks[..n + 1]) == Concat(chunks[..n]) + chunks[n]
    ensures Concat(chunks[..n + 1]) <= Concat(chunks)
  {
    ConcatStep(chunks, n);
    ConcatPrefix(chunks, n + 1);
  }

  lemma SomeMessageIsDue(chunks: seq<string>, bodies: seq<string>, n: nat, k: nat)
    requires Admissible(chunks, bodies) && n < |chunks| && Between(chunks[..n], bodies, k)
    ensures k < |bodies|
  {
    BytesAreConserved(chunks[..n]);
    ConcatThrough(chunks, n);
    assert chunks[n] in chunks;
    assert bodies[..|bodies|] == bodies;
  }

  /** The text up to the end of the message that is being read has been divided later than at chunk `n`. */
  lemma EndIsAhead(chunks: seq<string>, bodies: seq<string>, n: nat, k: nat)
    requires n < |chunks| && Between(chunks[..n], bodies, k) && k < |bodies| && AlignedAt(chunks, bodies, k + 1)
    ensures Concat(chunks[..n + 1]) <= Stream(bodies[..k + 1])
  {
    var m :| 0 <= m <= |chunks| && Concat(chunks[..m]) == Stream(bodies[..k + 1]);
    BytesAreConserved(chunks[..n]);
    StreamNext(bodies, k);
    if m <= n {
      ConcatGrows(chunks, m, n);
    } else {
      ConcatGrows(chunks, n + 1, m);
    }
  }

  /** A chunk of an aligned division does not cross the end of the message that is being read. */
  lemma ChunkFits(chunks: seq<string>, bodies: seq<string>, n: nat, k: nat)
    requires Admissible(chunks, bodies) && Aligned(chunks, bodies)
    requires n < |chunks| && Between(chunks[..n], bodies, k)
    ensures k < |bodies| && Rest(chunks[..n]) + chunks[n] <= Terminated(bodies[k])
  {
    SomeMessageIsDue(chunks, bodies, n, k);
    EndIsAhead(chunks, bodies, n, k);
    BytesAreConserved(chunks[..n]);
    ConcatThrough(chunks, n);
    StreamNext(bodies, k);
    DropPrefix(Stream(bodies[..k]), Rest(chunks[..n]), chunks[n], Terminated(bodies[k]));
  }

  lemma DropPrefix(p: string, r: string, c: string, t: string)
    requires (p + r) + c <= p + t
    ensures r + c <= t
  {
    assert (p + r) + c == p + (r + c);
    assert r + c == (p + (r + c))[|p|..] && t == (p + t)[|p|..];
  }

  lemma {:induction false} AlignedProgress(chunks: seq<string>, bodies: seq<string>, n: nat) returns (k: nat)
    requires Admissible(chunks, bodies) && Aligned(chunks, bodies) && n <= |chunks|
    ensures Between(chunks[..n], bodies, k)
  {
    if n == 0 {
      k := 0;
    } else {
      k := AlignedProgress(chunks, bodies, n - 1);
      ChunkFits(chunks, bodies, n - 1, k);
      assert chunks[..n] == chunks[..n - 1] + [chunks[n - 1]];
      k := OneChunk(chunks[..n - 1], bodies, k, chunks[n - 1]);
    }
  }

  /** At the `k`-th frame, the chunks so far are the first `k` messages. */
  lemma {:induction false} FrameEnds(chunks: seq<string>, k: nat) returns (m: nat)
    requires k <= |Frames(chunks)|
    ensures m <= |chunks| && Concat(chunks[..m]) == Stream(Frames(chunks)[..k])
  {
    if k == 0 {
      m := 0;
    } else if k <= |Frames(Front(chunks))| {
      m := FrameEnds(Front(chunks), k);
      assert Front(chunks)[..m] == chunks[..m];
      assert Frames(chunks)[..k] == Frames(Front(chunks))[..k];
    } else {
      m := |chunks|;
      BytesAreConserved(chunks);
      assert chunks[..m] == chunks && Frames(chunks)[..k] == Frames(chunks);
    }
  }

  /**
   Reassembly does not depend on the fragmentation: the frames are the messages, in order, exactly
   when no chunk crosses the end of a message.
   */
  lemma ReassemblyIffAligned(chunks: seq<string>, bodies: seq<string>)
    requires Admissible(chunks, bodies)
    ensures Frames(chunks) == bodies <==> Aligned(chunks, bodies)
  {
    if Aligned(chunks, bodies) {
      var k := AlignedProgress(chunks, bodies, |chunks|);
      assert chunks[..|chunks|] == chunks;
      BytesAreConserved(chunks);
      if k < |bodies| {
        StreamNext(bodies, k);
        StreamPrefix(bodies, k + 1);
        assert false;
      }
      assert bodies[..k] == bodies;
    }
    if Frames(chunks) == bodies {
      forall k | 0 <= k <= |bodies|
        ensures AlignedAt(chunks, bodies, k)
      {
        var m := FrameEnds(chunks, k);
        assert Concat(chunks[..m]) == Stream(bodies[..k]);
      }
    }
  }

  /** In an aligned division a chunk returns a frame exactly when it ends a message. */
  lemma FramesAtMessageEnds(chunks: seq<string>, bodies: seq<string>, n: nat) returns (k: nat)
    requires Admissible(chunks, bodies) && Aligned(chunks, bodies) && n < |chunks|
    ensures k < |bodies| && Frames(chunks[..n]) == bodies[..k]
    ensures Feed(Rest(chunks[..n]), chunks[n]).frame
            == if Concat(chunks[..n + 1]) == Stream(bodies[..k + 1]) then Some(bodies[k]) else None
  {
    k := AlignedProgress(chunks, bodies, n);
    ChunkFits(chunks, bodies, n, k);
    BytesAreConserved(chunks[..n]);
    ConcatThrough(chunks, n);
    StreamNext(bodies, k);
    NoEarlyFrame(bodies[k], Rest(chunks[..n]) + chunks[n]);
    var p, r, c, t := Stream(bodies[..k]), Rest(chunks[..n]), chunks[n], Terminated(bodies[k]);
    SamePrefix(p, r, c, t);
  }

  lemma SamePrefix(p: string, r: string, c: string, t: string)
    ensures (p + r) + c == p + t <==> r + c == t
  {
    assert (p + r) + c == p + (r + c);
    assert r + c == (p + (r + c))[|p|..] && t == (p + t)[|p|..];
  }

  // ----- which texts can be framed

  /** A text can be framed exactly when it has no terminator and does not end in half of one. */
  lemma FramableIff(body: string)
    ensures Framable(body) <==> !HasEnding(body) && !EndsInHalf(body)
  {
    var t := Terminated(body);
    forall i: nat | i < |body|
      ensures EndingAt(t, i) <==> EndingAt(body, i) || (i == |body| - 2 && EndsInHalf(body))
    {
      EndingChars(t, i);
      EndingChars(body, i);
      if |body| >= 2 {
        var w := body[|body| - 2..];
        assert w == [w[0], w[1]];
      }
    }
    if i: nat :| EndingAt(body, i) {
      assert EndingAt(t, i);
    }
    if EndsInHalf(body) {
      assert EndingAt(t, |body| - 2);
    }
  }

  /** What a read can return. */
  predicate IsChunk(c: string) {
    0 < |c| <= MAXLINE
  }

  /** The reads carry these messages, and none crosses the end of a message. */
  ghost predicate Divides(chunks: seq<string>, bodies: seq<string>) {
    Concat(chunks) == Stream(bodies) && (forall c :: c in chunks ==> IsChunk(c)) && Aligned(chunks, bodies)
  }

  lemma WholeFrame(body: string)
    ensures Feed("", Terminated(body)) == Fed("", Some(body))
  {
    assert "" + Terminated(body) == Terminated(body);
    assert Terminated(body)[|body|..] == ENDING && Terminated(body)[..|body|] == body;
  }

  /** A text in as few reads as it takes. */
  function Pieces(s: string): (r: seq<string>)
    ensures forall c :: c in r ==> IsChunk(c)
    decreases |s|
  {
    if s == "" then []
    else if |s| <= MAXLINE then [s]
    else Pieces(s[..|s| - MAXLINE]) + [s[|s| - MAXLINE..]]
  }

  lemma {:induction false} PiecesAreWhole(s: string)
    ensures Concat(Pieces(s)) == s
    decreases |s|
  {
    if s == "" {
    } else if |s| <= MAXLINE {
      assert Front([s]) == [];
    } else {
      PiecesAreWhole(s[..|s| - MAXLINE]);
      ConcatSnoc(Pieces(s[..|s| - MAXLINE]), s[|s| - MAXLINE..]);
    }
  }

  /** Messages in reads that end where they end. */
  function PiecesOf(bodies: seq<string>): seq<string> {
    if bodies == [] then [] else PiecesOf(Front(bodies)) + Pieces(Terminated(Last(bodies)))
  }

  lemma {:induction false} ConcatJoins(p: seq<string>, q: seq<string>)
    ensures Concat(p + q) == Concat(p) + Concat(q)
  {
    if q == [] {
      assert p + q == p;
    } else {
      assert p + q == (p + Front(q)) + [Last(q)];
      ConcatSnoc(p + Front(q), Last(q));
      ConcatJoins(p, Front(q));
      assert (Concat(p) + Concat(Front(q))) + Last(q) == Concat(p) + (Concat(Front(q)) + Last(q));
    }
  }

  lemma {:induction false} FramesStay(chunks: seq<string>, more: seq<string>)
    ensures Frames(chunks) <= Frames(chunks + more)
  {
    if more == [] {
      assert chunks + more == chunks;
    } else {
      assert Front(chunks + more) == chunks + Front(more);
      FramesStay(chunks, Front(more));
    }
  }

  lemma {:induction false} StreamJoins(a: seq<string>, b: seq<string>)
    ensures Stream(a + b) == Stream(a) + Stream(b)
  {
    if b == [] {
      assert a + b == a;
    } else {
      assert Front(a + b) == a + Front(b) && Last(a + b) == Last(b);
      StreamJoins(a, Front(b));
    }
  }

  lemma AlignedJoins(p: seq<string>, a: seq<string>, q: seq<string>, b: seq<string>, k: nat)
    requires Divides(p, a) && Divides(q, b) && k <= |a + b|
    ensures AlignedAt(p + q, a + b, k)
  {
    if k <= |a| {
      assert AlignedAt(p, a, k);
      var m :| 0 <= m <= |p| && Concat(p[..m]) == Stream(a[..k]);
      assert (p + q)[..m] == p[..m] && (a + b)[..k] == a[..k];
    } else {
      assert AlignedAt(q, b, k - |a|);
      var m :| 0 <= m <= |q| && Concat(q[..m]) == Stream(b[..k - |a|]);
      assert (p + q)[..|p| + m] == p + q[..m] && (a + b)[..k] == a + b[..k - |a|];
      ConcatJoins(p, q[..m]);
      StreamJoins(a, b[..k - |a|]);
    }
  }

  lemma DivisionsJoin(p: seq<string>, a: seq<string>, q: seq<string>, b: seq<string>)
    requires Divides(p, a) && Divides(q, b)
    ensures Divides(p + q, a + b)
  {
    ConcatJoins(p, q);
    StreamJoins(a, b);
    forall k | 0 <= k <= |a + b| ensures AlignedAt(p + q, a + b, k) {
      AlignedJoins(p, a, q, b, k);
    }
  }

  /** Any division of one message keeps to the ends of messages. */
  lemma OneDivides(chunks: seq<string>, body: string)
    requires Concat(chunks) == Terminated(body) && forall c :: c in chunks ==> IsChunk(c)
    ensures Divides(chunks, [body])
  {
    var bodies := [body];
    assert bodies[..0] == [] && bodies[..1] == bodies && Front(bodies) == [];
    assert chunks[..0] == [] && chunks[..|chunks|] == chunks;
    assert AlignedAt(chunks, bodies, 0) && AlignedAt(chunks, bodies, 1);
  }

  lemma {:induction false} PiecesDivide(bodies: seq<string>)
    ensures Divides(PiecesOf(bodies), bodies)
  {
    if bodies == [] {
      assert bodies[..0] == [] && PiecesOf(bodies)[..0] == [] && AlignedAt(PiecesOf(bodies), bodies, 0);
    } else {
      PiecesDivide(Front(bodies));
      PiecesAreWhole(Terminated(Last(bodies)));
      OneDivides(Pieces(Terminated(Last(bodies))), Last(bodies));
      DivisionsJoin(PiecesOf(Front(bodies)), Front(bodies), Pieces(Terminated(Last(bodies))), [Last(bodies)]);
      assert bodies == Front(bodies) + [Last(bodies)];
    }
  }

  lemma PiecesAreExact(bodies: seq<string>)
    requires forall body :: body in bodies ==> Framable(body)
    ensures Divides(PiecesOf(bodies), bodies) && Frames(PiecesOf(bodies)) == bodies
  {
    PiecesDivide(bodies);
    ReassemblyIffAligned(PiecesOf(bodies), bodies);
  }

  /** The first place where a terminator begins that is not the message's own. */
  lemma {:induction false} FirstEnding(body: string, i: nat) returns (n: nat)
    requires i < |body| && EndingAt(Terminated(body), i)
    ensures n <= i && EndingAt(Terminated(body), n) && Terminated(body)[..n + 4] == Terminated(body[..n])
    ensures Framable(body[..n])
  {
    var t := Terminated(body);
    if m: nat :| m < i && EndingAt(t, m) {
      n := FirstEnding(body, m);
    } else {
      n := i;
      assert t[..n + 4] == Terminated(body[..n]);
      forall m: nat | m < n ensures !EndingAt(Terminated(body[..n]), m) {
        assert !EndingAt(t, m);
        assert Terminated(body[..n])[m..m + 4] == t[..n + 4][m..m + 4] == t[m..m + 4];
      }
    }
  }

  /** A message that is cut at such a place. */
  function CutAt(body: string, n: nat): seq<string>
    requires n <= |body|
  {
    Pieces(Terminated(body)[..n + 4]) + Pieces(Terminated(body)[n + 4..])
  }

  lemma CutDivides(body: string, n: nat)
    requires n <= |body|
    ensures Divides(CutAt(body, n), [body])
  {
    var t := Terminated(body);
    PiecesAreWhole(t[..n + 4]);
    PiecesAreWhole(t[n + 4..]);
    ConcatJoins(Pieces(t[..n + 4]), Pieces(t[n + 4..]));
    assert t == t[..n + 4] + t[n + 4..];
    OneDivides(CutAt(body, n), body);
  }

  /** Messages that can be framed, and one that is cut: what is before the cut comes out as a frame. */
  lemma CutComesOut(before: seq<string>, body: string, n: nat, more: seq<string>)
    requires (forall b :: b in before ==> Framable(b)) && n < |body|
    requires Framable(body[..n]) && Terminated(body)[..n + 4] == Terminated(body[..n])
    ensures before + [body[..n]] <= Frames(PiecesOf(before) + CutAt(body, n) + more)
  {
    var head, tail := Pieces(Terminated(body)[..n + 4]), Pieces(Terminated(body)[n + 4..]);
    var bodies := before + [body[..n]];
    Snoc(before, body[..n]);
    PiecesAreExact(bodies);
    assert PiecesOf(before) + CutAt(body, n) + more == PiecesOf(bodies) + (tail + more);
    FramesStay(PiecesOf(bodies), tail + more);
  }

  /** A division of the messages for which the receive buffer returns something else. */
  lemma BadDivision(bodies: seq<string>, n: nat) returns (chunks: seq<string>)
    requires n < |bodies| && !Framable(bodies[n]) && forall body :: body in bodies[..n] ==> Framable(body)
    ensures Divides(chunks, bodies) && Frames(chunks) != bodies
  {
    var body, before, after := bodies[n], bodies[..n], bodies[n + 1..];
    var i: nat :| i < |body| && EndingAt(Terminated(body), i);
    i := FirstEnding(body, i);
    chunks := PiecesOf(before) + CutAt(body, i) + PiecesOf(after);
    assert bodies == before + [body] + after;
    PiecesDivide(before);
    CutDivides(body, i);
    PiecesDivide(after);
    DivisionsJoin(PiecesOf(before), before, CutAt(body, i), [body]);
    DivisionsJoin(PiecesOf(before) + CutAt(body, i), before + [body], PiecesOf(after), after);
    CutComesOut(before, body, i, PiecesOf(after));
    assert (before + [body[..i]])[n] == body[..i] != body;
  }

  lemma {:induction false} FirstBad(bodies: seq<string>) returns (n: nat)
    requires exists body :: body in bodies && !Framable(body)
    ensures n < |bodies| && !Framable(bodies[n]) && forall body :: body in bodies[..n] ==> Framable(body)
  {
    if body :| body in Front(bodies) && !Framable(body) {
      n := FirstBad(Front(bodies));
      assert bodies[..n] == Front(bodies)[..n];
    } else {
      n := |bodies| - 1;
    }
  }

  /** The messages come out of the buffer for every division of them at their ends. */
  ghost predicate Reassembles(bodies: seq<string>) {
    forall chunks :: Divides(chunks, bodies) ==> Frames(chunks) == bodies
  }

  /** They do exactly when none has a terminator of its own, or ends in half of one. */
  lemma ReassemblesIff(bodies: seq<string>)
    ensures Reassembles(bodies) <==> forall body :: body in bodies ==> !HasEnding(body) && !EndsInHalf(body)
  {
    forall body | body in bodies ensures Framable(body) <==> !HasEnding(body) && !EndsInHalf(body) {
      FramableIff(body);
    }
    if exists body :: body in bodies && !Framable(body) {
      var n := FirstBad(bodies);
      var chunks := BadDivision(bodies, n);
      assert Divides(chunks, bodies);
    } else {
      forall chunks | Divides(chunks, bodies) ensures Frames(chunks) == bodies {
        ReassemblyIffAligned(chunks, bodies);
      }
    }
  }
}
