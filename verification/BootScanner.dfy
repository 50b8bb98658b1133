/** The boot scanner: polling the bounded ring must decide like reading the whole console output. */
module BootScanner {
  import opened ConsoleRing
  import opened Text
  import ConsolePump

  datatype BootOutcome = Pending | Ready | Failed

  const READY_MARKER: string := "Done ("
  const FATAL_MARKER: string := "Failed to start the minecraft server"

  predicate Contains(s: Bytes, sub: Bytes) {
    exists k :: 0 <= k <= |s| - |sub| && OccursAt(s, sub, k)
  }

  predicate OccursAt(s: Bytes, sub: Bytes, k: nat)
    requires k + |sub| <= |s|
  {
    s[k..k + |sub|] == sub
  }

  function Verdict(data: Bytes): BootOutcome {
    if Contains(data, READY_MARKER) then Ready
    else if Contains(data, FATAL_MARKER) then Failed
    else Pending
  }

  /** The verdict of the first deciding line. */
  function FirstVerdict(lines: seq<Line>): BootOutcome {
    if lines == [] then Pending
    else if Verdict(lines[0].data) != Pending then Verdict(lines[0].data)
    else FirstVerdict(lines[1..])
  }

  /** Where the scanner stands after these lines: at the deciding line, or past the last one. */
  function LastSeen(lines: seq<Line>, last: nat): nat {
    if lines == [] then last
    else if Verdict(lines[0].data) != Pending then lines[0].num
    else LastSeen(lines[1..], lines[0].num)
  }

  // ----- what a verdict means -----

  /** The text stands somewhere in the data. */
  ghost predicate Holds(data: Bytes, text: Bytes) {
    exists a: Bytes, b: Bytes :: data == a + text + b
  }

  lemma {:induction false} ContainsIsHolds(data: Bytes, text: Bytes)
    ensures Contains(data, text) <==> Holds(data, text)
  {
    if Contains(data, text) {
      var k :| 0 <= k <= |data| - |text| && OccursAt(data, text, k);
      assert data == data[..k] + text + data[k + |text|..];
    }
    if Holds(data, text) {
      var a: Bytes, b: Bytes :| data == a + text + b;
      assert data[|a|..|a| + |text|] == text;
      assert OccursAt(data, text, |a|);
    }
  }

  ghost predicate SaysReady(l: Line) {
    Holds(l.data, "Done (")
  }

  ghost predicate SaysFatal(l: Line) {
    Holds(l.data, "Failed to start the minecraft server")
  }

  /** No line before the `i`-th says anything. */
  ghost predicate SilentBefore(lines: seq<Line>, i: nat)
    requires i <= |lines|
  {
    forall j :: 0 <= j < i ==> !SaysReady(lines[j]) && !SaysFatal(lines[j])
  }

  /** The outcome told by the first line that says something; a line that says both is ready. */
  ghost predicate Tells(lines: seq<Line>, o: BootOutcome) {
    && (o == Ready <==> exists i :: 0 <= i < |lines| && SilentBefore(lines, i) && SaysReady(lines[i]))
    && (o == Failed <==> exists i :: 0 <= i < |lines| && SilentBefore(lines, i) && SaysFatal(lines[i]) && !SaysReady(lines[i]))
    && (o == Pending <==> SilentBefore(lines, |lines|))
  }

  lemma {:induction false} LineMeans(l: Line)
    ensures Verdict(l.data) == Ready <==> SaysReady(l)
    ensures Verdict(l.data) == Failed <==> SaysFatal(l) && !SaysReady(l)
    ensures Verdict(l.data) == Pending <==> !SaysFatal(l) && !SaysReady(l)
  {
    ContainsIsHolds(l.data, "Done (");
    ContainsIsHolds(l.data, "Failed to start the minecraft server");
  }

  lemma {:induction false} VerdictMeans(lines: seq<Line>)
    ensures Tells(lines, FirstVerdict(lines))
  {
    if lines != [] {
      var rest := lines[1..];
      LineMeans(lines[0]);
      if Verdict(lines[0].data) == Pending {
        VerdictMeans(rest);
        TellsTail(lines, FirstVerdict(rest));
      } else {
        assert SilentBefore(lines, 0);
      }
    }
  }

  lemma {:induction false} TellsTail(lines: seq<Line>, o: BootOutcome)
    requires lines != [] && !SaysReady(lines[0]) && !SaysFatal(lines[0]) && Tells(lines[1..], o)
    ensures Tells(lines, o)
  {
    forall i | 0 <= i <= |lines[1..]| ensures SilentBefore(lines, i + 1) <==> SilentBefore(lines[1..], i) {
      SilentTail(lines, i);
    }
    Shift(lines, o);
  }

  lemma {:induction false} SilentTail(lines: seq<Line>, i: nat)
    requires lines != [] && !SaysReady(lines[0]) && !SaysFatal(lines[0]) && i < |lines|
    ensures SilentBefore(lines, i + 1) <==> SilentBefore(lines[1..], i)
  {
    var rest := lines[1..];
    assert forall j :: 0 <= j < i ==> rest[j] == lines[j + 1];
    if SilentBefore(rest, i) {
      forall j | 0 <= j < i + 1 ensures !SaysReady(lines[j]) && !SaysFatal(lines[j]) {
        assert j > 0 ==> lines[j] == rest[j - 1];
      }
    }
  }

  lemma {:induction false} Shift(lines: seq<Line>, o: BootOutcome)
    requires lines != [] && !SaysReady(lines[0]) && !SaysFatal(lines[0])
    requires forall i :: 0 <= i <= |lines[1..]| ==> (SilentBefore(lines, i + 1) <==> SilentBefore(lines[1..], i))
    requires Tells(lines[1..], o)
    ensures Tells(lines, o)
  {
    var rest := lines[1..];
    if o == Ready {
      var i :| 0 <= i < |rest| && SilentBefore(rest, i) && SaysReady(rest[i]);
      assert lines[i + 1] == rest[i] && SilentBefore(lines, i + 1);
    } else if o == Failed {
      var i :| 0 <= i < |rest| && SilentBefore(rest, i) && SaysFatal(rest[i]) && !SaysReady(rest[i]);
      assert lines[i + 1] == rest[i] && SilentBefore(lines, i + 1);
    } else {
      assert SilentBefore(lines, |rest| + 1);
    }
    forall i | 0 <= i < |lines| && SilentBefore(lines, i) && (SaysReady(lines[i]) || SaysFatal(lines[i]))
      ensures i > 0 && SilentBefore(rest, i - 1) && rest[i - 1] == lines[i]
    {
      assert SilentBefore(lines, (i - 1) + 1);
    }
  }

  class Scanner {
    const ring: Ring
    var lastSeq: nat

    constructor (ring: Ring, fromSeq: nat)
      ensures this.ring == ring && lastSeq == fromSeq
    {
      this.ring := ring;
      lastSeq := fromSeq;
    }

    /** next: walk the retained lines above `lastSeq` up to the first deciding one. */
    method Next() returns (o: BootOutcome)
      requires ring.Valid()
      modifies this
      ensures var seen := Visible(ring.history, old(lastSeq));
        o == FirstVerdict(seen) && lastSeq == LastSeen(seen, old(lastSeq)) && Tells(seen, o)
    {
      VerdictMeans(Visible(ring.history, lastSeq));
      var lines, gap := ring.Since(lastSeq);
      for i := 0 to |lines|
        invariant ring.history == old(ring.history) && lines == Visible(ring.history, old(lastSeq))
        invariant FirstVerdict(lines) == FirstVerdict(lines[i..])
        invariant LastSeen(lines, old(lastSeq)) == LastSeen(lines[i..], lastSeq)
      {
        lastSeq := lines[i].num;
        if Contains(lines[i].data, READY_MARKER) {
          return Ready;
        }
        if Contains(lines[i].data, FATAL_MARKER) {
          return Failed;
        }
      }
      return Pending;
    }
  }

  // ----- whole runs: batches of output, a poll after each -----

  /** Polling after every batch until the first verdict, starting with everything before `last` seen. */
  function Scan(history: seq<Line>, last: nat, batches: seq<seq<Line>>): BootOutcome
    decreases |batches|
  {
    if batches == [] then Pending
    else
      var now := history + batches[0];
      var seen := Visible(now, last);
      if FirstVerdict(seen) != Pending then FirstVerdict(seen)
      else Scan(now, LastSeen(seen, last), batches[1..])
  }

  lemma {:induction false} FirstVerdictAppend(a: seq<Line>, b: seq<Line>)
    ensures FirstVerdict(a + b) == if FirstVerdict(a) != Pending then FirstVerdict(a) else FirstVerdict(b)
  {
    if a == [] {
      assert a + b == b;
    } else {
      FirstVerdictAppend(a[1..], b);
      assert (a + b)[1..] == a[1..] + b;
    }
  }

  lemma {:induction false} LastSeenPending(lines: seq<Line>, last: nat)
    requires FirstVerdict(lines) == Pending && lines != []
    ensures LastSeen(lines, last) == lines[|lines| - 1].num
  {
    if |lines| > 1 {
      LastSeenPending(lines[1..], lines[0].num);
    }
  }

  /** A poll sees the whole new batch exactly when the batch itself fits the ring. */
  lemma {:induction false} BatchVisible(history: seq<Line>, batch: seq<Line>)
    ensures Visible(history + batch, |history|) == batch <==> Fits(batch)
  {
    var now := history + batch;
    assert now[|history|..] == batch;
    RetainedIsSuffix(now);
    if Fits(batch) {
      RetainedIsLongest(now, |history|);
    } else if Evicted(now) <= |history| {
      assert now[Evicted(now)..] == now[Evicted(now)..|history|] + batch;
      FitsSuffix(now[Evicted(now)..|history|], batch);
    } else {
      assert |Visible(now, |history|)| < |batch|;
    }
  }

  /** With batches that fit, the first verdict is the one of the full output. */
  lemma {:induction false} ScanIsComplete(history: seq<Line>, batches: seq<seq<Line>>)
    requires Numbered(history + Concat(batches))
    requires forall i :: 0 <= i < |batches| ==> Fits(batches[i])
    ensures Scan(history, |history|, batches) == FirstVerdict(Concat(batches))
    decreases |batches|
  {
    if batches != [] {
      var batch, rest := batches[0], batches[1..];
      var now := history + batch;
      BatchVisible(history, batch);
      FirstVerdictAppend(batch, Concat(rest));
      assert history + Concat(batches) == now + Concat(rest);
      if FirstVerdict(batch) == Pending {
        if batch != [] {
          LastSeenPending(batch, |history|);
          assert batch[|batch| - 1] == (now + Concat(rest))[|now| - 1];
        }
        assert LastSeen(batch, |history|) == |now|;
        ScanIsComplete(now, rest);
      }
    }
  }

  /** With batches that fit, polling tells what the first telling line of the full output tells. */
  lemma {:induction false} ScanTells(history: seq<Line>, batches: seq<seq<Line>>)
    requires Numbered(history + Concat(batches))
    requires forall i :: 0 <= i < |batches| ==> Fits(batches[i])
    ensures Tells(Concat(batches), Scan(history, |history|, batches))
  {
    ScanIsComplete(history, batches);
    VerdictMeans(Concat(batches));
  }

  lemma {:induction false} SizeBound(lines: seq<Line>)
    requires forall i :: 0 <= i < |lines| ==> |lines[i].data| <= ConsolePump.MAX_LINE_BYTES
    ensures Size(lines) <= |lines| * ConsolePump.MAX_LINE_BYTES
  {
    if lines != [] {
      SizeBound(lines[1..]);
    }
  }

  /** The console's own line limit: 32 lines between polls always fit, since 32 * 8192 is the byte cap. */
  lemma {:induction false} ThirtyTwoLinesNeverMissed(history: seq<Line>, batches: seq<seq<Line>>)
    requires Numbered(history + Concat(batches))
    requires forall i :: 0 <= i < |batches| ==> |batches[i]| <= 32
    requires forall i, j :: 0 <= i < |batches| && 0 <= j < |batches[i]| ==> |batches[i][j].data| <= ConsolePump.MAX_LINE_BYTES
    ensures Scan(history, |history|, batches) == FirstVerdict(Concat(batches))
  {
    forall i | 0 <= i < |batches| ensures Fits(batches[i]) {
      SizeBound(batches[i]);
    }
    ScanIsComplete(history, batches);
  }

  /** The bound is tight: one more full line and the oldest line of the batch is never seen. */
  lemma {:induction false} OverfullBatchLosesItsFirstLine(history: seq<Line>, batch: seq<Line>)
    requires batch != [] && !Fits(batch)
    ensures |Visible(history + batch, |history|)| < |batch|
    ensures Scan(history, |history|, [batch]) == FirstVerdict(Retained(batch))
  {
    var now := history + batch;
    BatchVisible(history, batch);
    RetainedIsSuffix(now);
    var cut := |history|;
    SameSuffix(now, cut);
    assert now[cut..] == batch;
  }
}
