/** The growing receive buffer of the clients, as an array of bytes. */
module FrameBuffers {
  import opened Basics
  import opened Text
  import opened Framing

  const NUL := '\0'

  predicate NulFree(s: seq<char>) {
    forall k :: 0 <= k < |s| ==> s[k] != NUL
  }

  predicate AllNul(s: seq<char>) {
    forall k :: 0 <= k < |s| ==> s[k] == NUL
  }

  /** C's `strlen`, on the bytes of a buffer. */
  function StrLen(s: seq<char>): (n: nat)
    ensures n <= |s| && NulFree(s[..n]) && (n < |s| ==> s[n] == NUL)
  {
    if s == [] || s[0] == NUL then 0
    else
      var n := 1 + StrLen(s[1..]);
      assert s[..n] == [s[0]] + s[1..][..n - 1];
      n
  }

  /** The length of a string is fixed by where its bytes stop and the zeros begin. */
  lemma {:induction false} StrLenIs(s: seq<char>, n: nat)
    requires n < |s| && NulFree(s[..n]) && s[n] == NUL
    ensures StrLen(s) == n
  {
    if n == 0 {
    } else {
      assert s[..n][0] == s[0];
      assert s[1..][..n - 1] == s[..n][1..];
      StrLenIs(s[1..], n - 1);
    }
  }

  /** The capacity that goes with a string of length `n`. */
  function Capacity(n: nat): nat {
    (n / MAXLINE + 1) * MAXLINE
  }

  /** One growth step makes room for one more chunk, and none is needed while the chunk fits. */
  lemma CapacityGrows(n: nat, size: nat)
    requires size <= MAXLINE
    ensures n < Capacity(n)
    ensures Capacity(n + size)
            == if n + size > Capacity(n) - 1 then Capacity(n) + MAXLINE else Capacity(n)
  {
  }

  class FrameBuffer {
    var fullBuf: array?<char>
    var maxSize: nat

    /** The text held, as C reads it: the bytes up to the first zero. */
    ghost function Contents(): string
      reads this, fullBuf
      requires fullBuf != null
    {
      fullBuf[..StrLen(fullBuf[..])]
    }

    /** The capacity is the closed form of the length, and all bytes past the text are zero. */
    ghost predicate Valid()
      reads this, fullBuf
    {
      && fullBuf != null && fullBuf.Length == maxSize
      && maxSize == Capacity(|Contents()|)
      && AllNul(fullBuf[|Contents()|..])
    }

    constructor ()
      ensures Valid() && fresh(fullBuf) && Contents() == ""
    {
      fullBuf := null;
      maxSize := 0;
      new;
      IncreaseFullBuf();
      StrLenIs(fullBuf[..], 0);
    }

    /** Grows the buffer by `MAXLINE` zero bytes, and keeps what it holds. */
    method IncreaseFullBuf()
      requires if fullBuf == null then maxSize == 0 else fullBuf.Length == maxSize
      modifies this
      ensures fullBuf != null && fresh(fullBuf) && fullBuf.Length == maxSize == old(maxSize) + MAXLINE
      ensures old(fullBuf) != null ==> fullBuf[..old(maxSize)] == old(if fullBuf == null then [] else fullBuf[..])
      ensures AllNul(fullBuf[old(maxSize)..])
    {
      var temp := maxSize;
      maxSize := maxSize + MAXLINE;
      var grown := new char[maxSize];
      if fullBuf != null {
        forall k | 0 <= k < temp {
          grown[k] := fullBuf[k];
        }
      }
      fullBuf := grown;
      forall k | temp <= k < temp + MAXLINE {
        fullBuf[k] := NUL;
      }
    }

    /** Starts again with an empty buffer of one line. */
    method ResetFullBuf()
      modifies this
      ensures Valid() && fresh(fullBuf) && Contents() == ""
    {
      fullBuf := null;
      maxSize := 0;
      IncreaseFullBuf();
      StrLenIs(fullBuf[..], 0);
    }

    /** Appends `buf` to the text; there is room for it and for a final zero. */
    method StrCat(buf: string)
      requires fullBuf != null && NulFree(buf)
      requires |Contents()| + |buf| < fullBuf.Length && AllNul(fullBuf[|Contents()|..])
      modifies fullBuf
      ensures Contents() == old(Contents()) + buf && AllNul(fullBuf[|Contents()|..])
    {
      ghost var held := Contents();
      var n := StrLen(fullBuf[..]);
      forall k | 0 <= k < |buf| {
        fullBuf[n + k] := buf[k];
      }
      assert fullBuf[..n + |buf|] == held + buf;
      StrLenIs(fullBuf[..], n + |buf|);
    }

    /** Takes in one chunk, and returns the frame if the text now ends in a terminator. */
    method ProcessString(buf: string) returns (toRet: Option<string>)
      requires Valid() && NulFree(buf) && |buf| <= MAXLINE
      modifies this, fullBuf
      ensures Valid() && (fullBuf == old(fullBuf) || fresh(fullBuf))
      ensures Fed(Contents(), toRet) == Feed(old(Contents()), buf)
    {
      ghost var held := Contents();
      CapacityGrows(|held|, |buf|);
      toRet := None;
      var size := |buf|;
      if StrLen(fullBuf[..]) + size > maxSize - 1 {
        IncreaseFullBuf();
        KeepsContents(fullBuf[..], held);
      }
      StrCat(buf);
      var length := StrLen(fullBuf[..]);
      assert fullBuf[..length] == held + buf;
      assert length >= 4 ==> fullBuf[length - 4..length] == (held + buf)[length - 4..];
      assert length >= 4 ==> fullBuf[..length - 4] == (held + buf)[..length - 4];
      if length >= 4 && fullBuf[length - 4..length] == ENDING {
        toRet := Some(fullBuf[..length - 4]);
        ResetFullBuf();
      }
    }
  }

  lemma KeepsContents(s: seq<char>, held: string)
    requires |held| < |s| && s[..|held|] == held && NulFree(held) && AllNul(s[|held|..])
    ensures s[..StrLen(s)] == held
  {
    assert s[|held|..][0] == s[|held|];
    StrLenIs(s, |held|);
  }

  /** A buffer fed with a list of chunks returns the frames of the list, and holds what is left. */
  method ReadAll(chunks: seq<string>) returns (frames: seq<string>, rest: string)
    requires forall c :: c in chunks ==> NulFree(c) && |c| <= MAXLINE
    ensures frames == Frames(chunks) && rest == Rest(chunks)
  {
    var buffer := new FrameBuffer();
    frames := [];
    for n := 0 to |chunks|
      invariant buffer.Valid() && fresh(buffer) && fresh(buffer.fullBuf)
      invariant buffer.Contents() == Rest(chunks[..n]) && frames == Frames(chunks[..n])
    {
      var frame := buffer.ProcessString(chunks[n]);
      Snoc(chunks[..n], chunks[n]);
      assert chunks[..n + 1] == chunks[..n] + [chunks[n]];
      if frame.Some? {
        frames := frames + [frame.value];
      }
    }
    assert chunks[..|chunks|] == chunks;
    rest := buffer.fullBuf[..StrLen(buffer.fullBuf[..])];
  }
}
