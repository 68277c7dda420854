/**
 * The event stream reader (main in plugin/bin/subscribe.py): chunks read from a socket
 * are joined, cut at newlines, and written out one frame a line.
 */
module Framing {
  import opened Prelude

  type Byte = b: int | 0 <= b < 256

  const NEWLINE: Byte := 10
  const MAX_BUFFER: nat := 16 * 1024 * 1024
  const MAX_CHUNK: nat := 65536

  // ------------------------------------------------------ frames of a stream

  ghost predicate NoNewline(s: seq<Byte>) {
    forall i :: 0 <= i < |s| ==> s[i] != NEWLINE
  }

  /** The index of the first newline, or the length. */
  function Cut(s: seq<Byte>): (k: nat)
    ensures k <= |s| && NoNewline(s[..k])
    ensures k < |s| ==> s[k] == NEWLINE
  {
    if s == [] || s[0] == NEWLINE then 0 else 1 + Cut(s[1..])
  }

  /** The non-empty newline-terminated frames of a stream, in order. */
  function Frames(s: seq<Byte>): seq<seq<Byte>> {
    var k := Cut(s);
    if k == |s| then []
    else (if k == 0 then [] else [s[..k]]) + Frames(s[k + 1..])
  }

  /** What follows the last newline. */
  function Tail(s: seq<Byte>): seq<Byte> {
    var k := Cut(s);
    if k == |s| then s else Tail(s[k + 1..])
  }

  lemma {:induction false} CutAt(s: seq<Byte>, k: nat)
    requires k <= |s| && NoNewline(s[..k])
    requires k < |s| ==> s[k] == NEWLINE
    ensures Cut(s) == k
  {
    var c := Cut(s);
    assert forall i :: 0 <= i < k ==> s[..k][i] == s[i];
    assert forall i :: 0 <= i < c ==> s[..c][i] == s[i];
  }

  lemma {:induction false} CutOfConcat(a: seq<Byte>, b: seq<Byte>)
    requires Cut(a) < |a|
    ensures var k := Cut(a); Cut(a + b) == k && (a + b)[..k] == a[..k] && (a + b)[k + 1..] == a[k + 1..] + b
  {
    var k := Cut(a);
    assert (a + b)[..k] == a[..k];
    CutAt(a + b, k);
  }

  /** The frame that a newline at k ends, if it is not empty. */
  function FrameAt(s: seq<Byte>, k: nat): seq<seq<Byte>>
    requires k <= |s|
  {
    if k == 0 then [] else [s[..k]]
  }

  lemma {:induction false} FramesStep(s: seq<Byte>, k: nat, rest: seq<Byte>)
    requires k == Cut(s) < |s| && rest == s[k + 1..]
    ensures Frames(s) == FrameAt(s, k) + Frames(rest) && Tail(s) == Tail(rest)
  {
  }

  lemma {:induction false} Associative<T>(x: seq<T>, y: seq<T>, z: seq<T>)
    ensures x + (y + z) == (x + y) + z
  {
  }

  /** Frames may be cut off before the stream is complete: only the tail has to be kept. */
  lemma {:induction false} FramesOfConcat(a: seq<Byte>, b: seq<Byte>)
    ensures Frames(a + b) == Frames(a) + Frames(Tail(a) + b)
    ensures Tail(a + b) == Tail(Tail(a) + b)
    decreases |a|
  {
    var k := Cut(a);
    if k < |a| {
      var rest := a[k + 1..];
      CutOfConcat(a, b);
      FramesOfConcat(rest, b);
      FramesStep(a, k, rest);
      FramesStep(a + b, k, rest + b);
      Associative(FrameAt(a, k), Frames(rest), Frames(Tail(rest) + b));
    } else {
      Associative([], [], Frames(a + b));
    }
  }

  lemma {:induction false} SuffixOfSuffix<T>(s: seq<T>, k: nat, n: nat)
    requires k <= |s| && n <= |s| - k
    ensures s[k..][|s| - k - n..] == s[|s| - n..]
    ensures n < |s| - k ==> s[k..][|s| - k - n - 1] == s[|s| - n - 1]
  {
  }

  /** The tail is a suffix without newlines, and it starts the stream or follows a newline. */
  lemma {:induction false} TailIsSuffix(s: seq<Byte>)
    ensures |Tail(s)| <= |s| && Tail(s) == s[|s| - |Tail(s)|..] && NoNewline(Tail(s))
    ensures |Tail(s)| < |s| ==> s[|s| - |Tail(s)| - 1] == NEWLINE
  {
    hide Frames;
    var k := Cut(s);
    if k < |s| {
      FramesStep(s, k, s[k + 1..]);
      hide Tail, Cut, NoNewline;
      TailIsSuffix(s[k + 1..]);
      SuffixOfSuffix(s, k + 1, |Tail(s)|);
    } else {
      assert s[..k] == s;
    }
  }

  // ------------------------------------------------------ lines and streams

  /** Lines as they are sent, each with its newline. */
  function Joined(lines: seq<seq<Byte>>): seq<Byte> {
    if lines == [] then [] else lines[0] + [NEWLINE] + Joined(lines[1..])
  }

  function NonEmpty(lines: seq<seq<Byte>>): seq<seq<Byte>> {
    if lines == [] then [] else (if lines[0] == [] then [] else [lines[0]]) + NonEmpty(lines[1..])
  }

  ghost predicate Lines(lines: seq<seq<Byte>>) {
    forall i :: 0 <= i < |lines| ==> NoNewline(lines[i])
  }

  /** Reading undoes sending: the frames of lines and an unfinished one are the lines that are not empty, in order. */
  lemma {:induction false} FramesOfLines(lines: seq<seq<Byte>>, rest: seq<Byte>)
    requires Lines(lines) && NoNewline(rest)
    ensures Frames(Joined(lines) + rest) == NonEmpty(lines) && Tail(Joined(lines) + rest) == rest
  {
    var s := Joined(lines) + rest;
    if lines == [] {
      assert s == rest && rest[..|rest|] == rest;
      CutAt(s, |s|);
    } else {
      var more := Joined(lines[1..]) + rest;
      assert s == lines[0] + [NEWLINE] + more;
      assert s[..|lines[0]|] == lines[0] && s[|lines[0]| + 1..] == more;
      CutAt(s, |lines[0]|);
      FramesOfLines(lines[1..], rest);
    }
  }

  lemma {:induction false} JoinedCons(line: seq<Byte>, lines: seq<seq<Byte>>)
    requires NoNewline(line) && Lines(lines)
    ensures Joined([line] + lines) == line + [NEWLINE] + Joined(lines) && Lines([line] + lines)
    ensures NonEmpty([line] + lines) == FrameAt(line, |line|) + NonEmpty(lines)
  {
    var all := [line] + lines;
    assert all[1..] == lines && all[0] == line && line[..|line|] == line;
  }

  lemma {:induction false} CutInTwo(s: seq<Byte>, k: nat, before: seq<Byte>, rest: seq<Byte>)
    requires k < |s| && s[k] == NEWLINE && before == s[..k] && rest == s[k + 1..]
    ensures s == before + [NEWLINE] + rest && FrameAt(before, |before|) == FrameAt(s, k)
  {
    assert before[..|before|] == before;
  }

  /** And every stream is such lines and an unfinished one. */
  lemma {:induction false} StreamIsLines(s: seq<Byte>) returns (lines: seq<seq<Byte>>)
    ensures Lines(lines) && s == Joined(lines) + Tail(s) && Frames(s) == NonEmpty(lines)
  {
    var k := Cut(s);
    if k == |s| {
      lines := [];
      assert s[..k] == s;
    } else {
      var before, rest := s[..k], s[k + 1..];
      FramesStep(s, k, rest);
      hide Frames, Tail, Joined, NonEmpty, Cut, Lines, NoNewline, FrameAt;
      CutInTwo(s, k, before, rest);
      lines := StreamIsLines(rest);
      JoinedCons(before, lines);
      Associative(before + [NEWLINE], Joined(lines), Tail(rest));
      lines := [before] + lines;
    }
  }

  // --------------------------------------------------------------- the reader

  /** failed: the size error was raised and the reader is gone. */
  datatype Reader = Reader(buf: seq<Byte>, lines: seq<seq<Byte>>, failed: bool)

  function Feed(r: Reader, chunk: seq<Byte>): Reader {
    var all := r.buf + chunk;
    if r.failed then r
    else if |all| > MAX_BUFFER then Reader(all, r.lines, true)
    else Reader(Tail(all), r.lines + Frames(all), false)
  }

  function Run(chunks: seq<seq<Byte>>): Reader {
    if chunks == [] then Reader([], [], false)
    else Feed(Run(chunks[..|chunks| - 1]), chunks[|chunks| - 1])
  }

  /** A reader that failed is gone: it writes nothing more. */
  lemma {:induction false} FailureIsFinal(chunks: seq<seq<Byte>>, more: seq<seq<Byte>>)
    requires Run(chunks).failed
    ensures Run(chunks + more) == Run(chunks)
  {
    if more == [] {
      assert chunks + more == chunks;
    } else {
      FailureIsFinal(chunks, more[..|more| - 1]);
      assert (chunks + more)[..|chunks + more| - 1] == chunks + more[..|more| - 1];
    }
  }

  function Concat(chunks: seq<seq<Byte>>): seq<Byte> {
    if chunks == [] then [] else Concat(chunks[..|chunks| - 1]) + chunks[|chunks| - 1]
  }

  /** recv returns between 1 and 65536 bytes; no bytes mean the end of the run. */
  ghost predicate Chunking(chunks: seq<seq<Byte>>, s: seq<Byte>) {
    Concat(chunks) == s && forall i :: 0 <= i < |chunks| ==> 1 <= |chunks[i]| <= MAX_CHUNK
  }

  /** Whatever the chunking: the lines written are exactly the frames of the stream so far. */
  lemma {:induction false} LinesAreFrames(chunks: seq<seq<Byte>>)
    requires !Run(chunks).failed
    ensures Run(chunks).lines == Frames(Concat(chunks)) && Run(chunks).buf == Tail(Concat(chunks))
  {
    if chunks != [] {
      var front, last := chunks[..|chunks| - 1], chunks[|chunks| - 1];
      LinesAreFrames(front);
      FramesOfConcat(Concat(front), last);
    }
  }

  /** A chunk is too long for what the stream before it left unterminated. */
  ghost predicate TooLongAt(chunks: seq<seq<Byte>>, k: nat)
    requires k < |chunks|
  {
    |Tail(Concat(chunks[..k]))| + |chunks[k]| > MAX_BUFFER
  }

  lemma {:induction false} FailsAtLast(front: seq<seq<Byte>>, last: seq<Byte>)
    requires !Run(front).failed
    ensures Run(front + [last]).failed <==> TooLongAt(front + [last], |front|)
  {
    LinesAreFrames(front);
    assert (front + [last])[..|front|] == front;
  }

  /** The size error, exactly: it is raised at the first chunk that is too long. */
  lemma {:induction false} FailsExactly(chunks: seq<seq<Byte>>)
    ensures Run(chunks).failed <==> exists k :: 0 <= k < |chunks| && TooLongAt(chunks, k)
  {
    if chunks != [] {
      var n := |chunks| - 1;
      var front := chunks[..n];
      FailsExactly(front);
      assert chunks == front + [chunks[n]];
      forall k | 0 <= k < n ensures TooLongAt(front, k) <==> TooLongAt(chunks, k) {
        assert front[..k] == chunks[..k];
      }
      if !Run(front).failed {
        FailsAtLast(front, chunks[n]);
      }
    }
  }

  /** Some newline-free stretch of the stream, cut short by the next chunk, can overflow the buffer. */
  ghost predicate CanOverflow(s: seq<Byte>) {
    exists i :: 0 <= i < |s| && OverflowsAt(s, i)
  }

  ghost predicate OverflowsAt(s: seq<Byte>, i: nat)
    requires i < |s|
  {
    |Tail(s[..i])| + Min(MAX_CHUNK, |s| - i) > MAX_BUFFER
  }

  lemma {:induction false} ConcatPrefix(chunks: seq<seq<Byte>>, k: nat)
    requires k < |chunks|
    ensures Concat(chunks[..k]) + chunks[k] <= Concat(chunks)
    decreases |chunks|
  {
    if k == |chunks| - 1 {
      assert chunks[..k + 1] == chunks;
    } else {
      var front := chunks[..|chunks| - 1];
      ConcatPrefix(front, k);
      assert front[..k] == chunks[..k];
    }
  }

  function Bytewise(s: seq<Byte>): seq<seq<Byte>> {
    if s == [] then [] else Bytewise(s[..|s| - 1]) + [[s[|s| - 1]]]
  }

  lemma {:induction false} BytewiseIsChunking(s: seq<Byte>)
    ensures Chunking(Bytewise(s), s)
  {
    if s != [] {
      BytewiseIsChunking(s[..|s| - 1]);
      assert Bytewise(s)[..|Bytewise(s)| - 1] == Bytewise(s[..|s| - 1]);
    }
  }

  /** These chunks are a start of the stream and raise the size error. */
  ghost predicate FailsOn(chunks: seq<seq<Byte>>, s: seq<Byte>) {
    |Concat(chunks)| <= |s| && Chunking(chunks, s[..|Concat(chunks)|]) && Run(chunks).failed
  }

  lemma {:induction false} OverflowChunking(s: seq<Byte>, i: nat)
    requires i < |s| && OverflowsAt(s, i)
    ensures exists chunks :: FailsOn(chunks, s)
  {
    var front, last := Bytewise(s[..i]), s[i..i + Min(MAX_CHUNK, |s| - i)];
    var chunks := front + [last];
    BytewiseIsChunking(s[..i]);
    assert chunks[..|front|] == front;
    assert Concat(chunks) == s[..i] + last == s[..i + |last|];
    FailsExactly(chunks);
    assert TooLongAt(chunks, |front|);
    assert FailsOn(chunks, s);
  }

  lemma {:induction false} FailureOverflows(chunks: seq<seq<Byte>>, s: seq<Byte>)
    requires FailsOn(chunks, s)
    ensures CanOverflow(s)
  {
    FailsExactly(chunks);
    var k :| 0 <= k < |chunks| && TooLongAt(chunks, k);
    ConcatPrefix(chunks, k);
    var i := |Concat(chunks[..k])|;
    assert s[..i] == Concat(chunks[..k]);
    assert OverflowsAt(s, i);
  }

  /** A stream can raise the size error under some chunking exactly when it can overflow. */
  lemma {:induction false} SizeErrorPossible(s: seq<Byte>)
    ensures CanOverflow(s) <==> exists chunks :: FailsOn(chunks, s)
  {
    if CanOverflow(s) {
      var i :| 0 <= i < |s| && OverflowsAt(s, i);
      OverflowChunking(s, i);
    }
    if exists chunks :: FailsOn(chunks, s) {
      var chunks :| FailsOn(chunks, s);
      FailureOverflows(chunks, s);
    }
  }

  /** Every frame, and what follows the last newline, is at most n bytes long without its newline. */
  ghost predicate FramesUpTo(s: seq<Byte>, n: nat) {
    forall i, j :: 0 <= i <= j <= |s| && NoNewline(s[i..j]) ==> j - i <= n
  }

  lemma {:induction false} ShortFramesFit(s: seq<Byte>)
    requires FramesUpTo(s, MAX_BUFFER - MAX_CHUNK)
    ensures !CanOverflow(s)
  {
    forall i | 0 <= i < |s| ensures !OverflowsAt(s, i) {
      TailIsSuffix(s[..i]);
      var from := i - |Tail(s[..i])|;
      assert s[from..i] == Tail(s[..i]);
    }
  }

  /** With frames of at most 16 MiB - 65535 bytes, newline included, no chunking raises the size error. */
  lemma {:induction false} ShortFramesPass(chunks: seq<seq<Byte>>, s: seq<Byte>)
    requires Chunking(chunks, s) && FramesUpTo(s, MAX_BUFFER - MAX_CHUNK)
    ensures !Run(chunks).failed && Run(chunks).lines == Frames(s)
  {
    ShortFramesFit(s);
    SizeErrorPossible(s);
    assert s[..|Concat(chunks)|] == s;
    assert !FailsOn(chunks, s);
    LinesAreFrames(chunks);
  }

  /** The bound is sharp: one byte more in a frame, and some chunking fails. */
  lemma {:induction false} BoundIsSharp()
    ensures exists s :: FramesUpTo(s, MAX_BUFFER - MAX_CHUNK + 1) && CanOverflow(s)
  {
    var n := MAX_BUFFER - MAX_CHUNK + 1;
    var long: seq<Byte> := seq(n, _ => 0);
    var rest: seq<Byte> := seq(MAX_CHUNK, _ => NEWLINE);
    var s := long + rest;
    assert s[..n] == long;
    CutAt(long, n);
    assert OverflowsAt(s, n);
    forall i, j | 0 <= i <= j <= |s| && NoNewline(s[i..j]) ensures j - i <= n {
      assert forall x :: i <= x < j ==> s[x] == s[i..j][x - i];
      assert j > n ==> s[if i < n then n else j - 1] == NEWLINE;
    }
    assert FramesUpTo(s, MAX_BUFFER - MAX_CHUNK + 1);
    assert CanOverflow(s);
  }

  // ----------------------------------------------------------- the Python loop

  class Subscriber {
    var buf: seq<Byte>
    var lines: seq<seq<Byte>>
    var failed: bool

    ghost function View(): Reader
      reads this
    {
      Reader(buf, lines, failed)
    }

    constructor ()
      ensures View() == Run([])
    {
      buf, lines, failed := [], [], false;
    }

    /** One round of the outer loop, for a chunk that recv returned. */
    method OnChunk(chunk: seq<Byte>)
      requires !failed && chunk != []
      modifies this
      ensures View() == Feed(old(View()), chunk)
    {
      buf := buf + chunk;
      ghost var all, before := buf, lines;
      if |buf| > MAX_BUFFER {
        failed := true;
        return;
      }
      var at := Cut(buf);
      while at < |buf|
        invariant !failed && at == Cut(buf)
        invariant Tail(buf) == Tail(all) && lines + Frames(buf) == before + Frames(all)
        decreases |buf|
      {
        var line := buf[..at];
        ghost var rest := Frames(buf[at + 1..]);
        assert lines + ([line] + rest) == lines + [line] + rest;
        buf := buf[at + 1..];
        at := Cut(buf);
        if line == [] {
          continue;
        }
        lines := lines + [line];
      }
    }
  }
}
