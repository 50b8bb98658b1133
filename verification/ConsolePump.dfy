/** The line pump: a byte stream cut at newlines and at the reader's buffer size. */
module ConsolePump {
  import opened Text
  import opened ConsoleRing

  const MAX_LINE_BYTES: nat := 8192

  predicate IsLineEnd(c: char) {
    c == '\r' || c == '\n'
  }

  /** strings.TrimRight(s, "\r\n"). */
  function TrimRight(s: Bytes): (r: Bytes)
    ensures |r| <= |s| && r == s[..|r|]
    ensures forall i :: |r| <= i < |s| ==> IsLineEnd(s[i])
  {
    if s != [] && IsLineEnd(s[|s| - 1]) then TrimRight(s[..|s| - 1]) else s
  }

  /** The bytes that are not line ends. */
  function Payload(s: Bytes): Bytes {
    if s == [] then [] else (if IsLineEnd(s[0]) then [] else [s[0]]) + Payload(s[1..])
  }

  /** bufio.Reader.ReadSlice('\n') on a buffer of 8192 bytes: up to the newline, a full buffer, or the rest. */
  function SliceLength(s: Bytes, limit: nat): (n: nat)
    ensures n <= |s| && n <= limit
    ensures s != [] && limit > 0 ==> n > 0
    ensures forall i :: 0 <= i < n - 1 ==> s[i] != '\n'
    ensures n == |s| || n == limit || (n > 0 && s[n - 1] == '\n')
  {
    if s == [] || limit == 0 then 0
    else if s[0] == '\n' then 1
    else 1 + SliceLength(s[1..], limit - 1)
  }

  /** One chunk: not empty, not over the buffer, a newline only at its end. */
  predicate IsChunk(c: Bytes) {
    0 < |c| <= MAX_LINE_BYTES && forall i :: 0 <= i < |c| - 1 ==> c[i] != '\n'
  }

  /** A chunk that can be followed by another one. */
  predicate IsFull(c: Bytes) {
    |c| > 0 && (|c| == MAX_LINE_BYTES || c[|c| - 1] == '\n')
  }

  /** The stream cut into chunks, each as long as it can be. */
  ghost predicate Chunks(s: Bytes, chunks: seq<Bytes>) {
    && Concat(chunks) == s
    && (forall i :: 0 <= i < |chunks| ==> IsChunk(chunks[i]))
    && (forall i :: 0 <= i < |chunks| - 1 ==> IsFull(chunks[i]))
  }

  function Trimmed(chunks: seq<Bytes>): seq<Bytes> {
    seq(|chunks|, i requires 0 <= i < |chunks| => TrimRight(chunks[i]))
  }

  /** What has been cut so far, with `rest` still to read. */
  ghost predicate CutSoFar(s: Bytes, chunks: seq<Bytes>, rest: Bytes) {
    && Concat(chunks) + rest == s
    && (forall i :: 0 <= i < |chunks| ==> IsChunk(chunks[i]))
    && (forall i :: 0 <= i < |chunks| && (i < |chunks| - 1 || rest != []) ==> IsFull(chunks[i]))
  }

  lemma {:induction false} CutOne(s: Bytes, chunks: seq<Bytes>, rest: Bytes)
    requires CutSoFar(s, chunks, rest) && rest != []
    ensures var n := SliceLength(rest, MAX_LINE_BYTES);
      CutSoFar(s, chunks + [rest[..n]], rest[n..])
      && Trimmed(chunks + [rest[..n]]) == Trimmed(chunks) + [TrimRight(rest[..n])]
  {
    var n := SliceLength(rest, MAX_LINE_BYTES);
    SliceIsChunk(rest);
    ConcatPush(chunks, rest[..n], rest[n..]);
    PushTrimmed(chunks, rest[..n]);
    assert rest == rest[..n] + rest[n..];
  }

  lemma {:induction false} SliceIsChunk(rest: Bytes)
    requires rest != []
    ensures var n := SliceLength(rest, MAX_LINE_BYTES);
      IsChunk(rest[..n]) && (rest[n..] != [] ==> IsFull(rest[..n]))
  {
  }

  lemma {:induction false} ConcatPush(chunks: seq<Bytes>, line: Bytes, after: Bytes)
    ensures Concat(chunks + [line]) + after == Concat(chunks) + (line + after)
  {
    ConcatAppend(chunks, [line]);
    assert Concat([line]) == line + Concat([]) == line;
  }

  lemma {:induction false} PushTrimmed(chunks: seq<Bytes>, line: Bytes)
    ensures Trimmed(chunks + [line]) == Trimmed(chunks) + [TrimRight(line)]
  {
  }

  /** pumpLines: read slices until the stream ends and publish each without its line end. */
  method PumpLines(s: Bytes) returns (published: seq<Bytes>)
    ensures exists chunks :: Chunks(s, chunks) && published == Trimmed(chunks)
  {
    var rest := s;
    ghost var chunks: seq<Bytes> := [];
    published := [];
    while rest != []
      invariant CutSoFar(s, chunks, rest)
      invariant published == Trimmed(chunks)
      decreases |rest|
    {
      var n := SliceLength(rest, MAX_LINE_BYTES);
      CutOne(s, chunks, rest);
      published, rest, chunks := published + [TrimRight(rest[..n])], rest[n..], chunks + [rest[..n]];
    }
    assert Concat(chunks) + [] == Concat(chunks);
    assert Chunks(s, chunks);
  }

  // ----- the cut is unique -----

  lemma {:induction false} ChunksUnique(s: Bytes, a: seq<Bytes>, b: seq<Bytes>)
    requires Chunks(s, a) && Chunks(s, b)
    ensures a == b
    decreases |a|
  {
    assert a != [] ==> |a[0]| > 0;
    assert b != [] ==> |b[0]| > 0;
    if a != [] {
      FirstChunk(a, b);
      assert a == [a[0]] + a[1..] && b == [b[0]] + b[1..];
      var rest := s[|a[0]|..];
      assert Concat(a[1..]) == rest && Concat(b[1..]) == rest;
      ChunksUnique(rest, a[1..], b[1..]);
    }
  }

  lemma {:induction false} FirstChunk(a: seq<Bytes>, b: seq<Bytes>)
    requires a != [] && b != [] && Concat(a) == Concat(b)
    requires Chunks(Concat(a), a) && Chunks(Concat(b), b)
    ensures a[0] == b[0]
  {
    var s := Concat(a);
    assert a[0] == s[..|a[0]|] && b[0] == s[..|b[0]|];
    NotShorter(s, a, b);
    NotShorter(s, b, a);
  }

  /** The first chunk of one cut is never shorter than that of another. */
  lemma {:induction false} NotShorter(s: Bytes, a: seq<Bytes>, b: seq<Bytes>)
    requires a != [] && b != [] && Chunks(s, a) && Chunks(s, b)
    ensures |a[0]| >= |b[0]|
  {
    var n := |a[0]|;
    assert a[0] == s[..n] && b[0] == s[..|b[0]|];
    if |a| == 1 {
      assert Concat(a[1..]) == [];
    } else {
      assert IsFull(a[0]);
      assert forall k :: 0 <= k < n ==> a[0][k] == s[k];
      assert forall k :: 0 <= k < |b[0]| ==> b[0][k] == s[k];
      assert forall k :: 0 <= k < |b[0]| - 1 ==> s[k] != '\n';
    }
  }

  // ----- what the cut keeps -----

  lemma {:induction false} PayloadAppend(a: Bytes, b: Bytes)
    ensures Payload(a + b) == Payload(a) + Payload(b)
  {
    if a == [] {
      assert a + b == b;
    } else {
      PayloadAppend(a[1..], b);
      assert (a + b)[1..] == a[1..] + b;
    }
  }

  lemma {:induction false} PayloadTrim(s: Bytes)
    ensures Payload(TrimRight(s)) == Payload(s)
  {
    if s != [] && IsLineEnd(s[|s| - 1]) {
      PayloadTrim(s[..|s| - 1]);
      PayloadAppend(s[..|s| - 1], [s[|s| - 1]]);
      assert s == s[..|s| - 1] + [s[|s| - 1]];
    }
  }

  /** Every byte that is not a line end is published once, in order, in pieces within the line limit. */
  lemma {:induction false} NothingLost(s: Bytes, chunks: seq<Bytes>)
    requires Chunks(s, chunks)
    ensures Payload(Concat(Trimmed(chunks))) == Payload(s)
    ensures forall i :: 0 <= i < |chunks| ==> |Trimmed(chunks)[i]| <= MAX_LINE_BYTES && '\n' !in Trimmed(chunks)[i]
  {
    PayloadOfTrimmed(chunks);
  }

  lemma {:induction false} PayloadOfTrimmed(chunks: seq<Bytes>)
    ensures Payload(Concat(Trimmed(chunks))) == Payload(Concat(chunks))
  {
    if chunks != [] {
      PayloadOfTrimmed(chunks[1..]);
      assert Trimmed(chunks)[1..] == Trimmed(chunks[1..]);
      PayloadTrim(chunks[0]);
      PayloadAppend(TrimRight(chunks[0]), Concat(Trimmed(chunks[1..])));
      PayloadAppend(chunks[0], Concat(chunks[1..]));
    }
  }

  /** Text written as newline-terminated lines that fit the buffer is published line by line. */
  lemma {:induction false} LinesComeBack(lines: seq<Bytes>, s: Bytes, chunks: seq<Bytes>)
    requires forall i :: 0 <= i < |lines| ==> '\n' !in lines[i] && |lines[i]| < MAX_LINE_BYTES
    requires s == Concat(Terminated(lines)) && Chunks(s, chunks)
    ensures chunks == Terminated(lines)
    ensures forall i :: 0 <= i < |lines| && '\r' !in lines[i] ==> Trimmed(chunks)[i] == lines[i]
  {
    assert Chunks(s, Terminated(lines));
    ChunksUnique(s, chunks, Terminated(lines));
    forall i | 0 <= i < |lines| && '\r' !in lines[i] ensures TrimRight(lines[i] + ['\n']) == lines[i] {
      assert (lines[i] + ['\n'])[..|lines[i]|] == lines[i];
      assert lines[i] != [] ==> lines[i][|lines[i]| - 1] in lines[i];
    }
  }

  function Terminated(lines: seq<Bytes>): seq<Bytes> {
    seq(|lines|, i requires 0 <= i < |lines| => lines[i] + ['\n'])
  }
}
