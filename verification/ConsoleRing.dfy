/**
 The console ring: a line- and byte-bounded buffer of recent output.

 Go strings are byte sequences, so console data is a `string` whose runes are bytes and whose length is its
 size. The reference is the full history: the ring holds its longest suffix within both caps.
 */
module ConsoleRing {

  type Bytes = string

  datatype Line = Line(num: nat, stream: string, data: Bytes)

  const MAX_LINES: nat := 500
  const MAX_BYTES: nat := 256 * 1024

  function Size(lines: seq<Line>): nat {
    if lines == [] then 0 else |lines[0].data| + Size(lines[1..])
  }

  predicate Fits(lines: seq<Line>) {
    |lines| <= MAX_LINES && Size(lines) <= MAX_BYTES
  }

  /** The longest suffix of the history that fits. */
  function Retained(history: seq<Line>): (r: seq<Line>)
    ensures |r| <= |history|
  {
    if Fits(history) then history else Retained(history[1..])
  }

  lemma {:induction false} RetainedIsSuffix(history: seq<Line>)
    ensures Fits(Retained(history)) && Retained(history) == history[Evicted(history)..]
    ensures |Retained(history)| <= 500 && Size(Retained(history)) <= 262144
  {
    if !Fits(history) {
      RetainedIsSuffix(history[1..]);
      assert history[1..][Evicted(history) - 1..] == history[Evicted(history)..];
    }
  }

  /** How many of the oldest lines are gone. */
  function Evicted(history: seq<Line>): nat {
    |history| - |Retained(history)|
  }

  lemma {:induction false} SizeAppend(a: seq<Line>, b: seq<Line>)
    ensures Size(a + b) == Size(a) + Size(b)
  {
    if a == [] {
      assert a + b == b;
    } else {
      SizeAppend(a[1..], b);
      assert (a + b)[1..] == a[1..] + b;
    }
  }

  /** Every longer suffix breaks a cap. */
  lemma {:induction false} RetainedIsLongest(history: seq<Line>, k: nat)
    requires k <= |history| && |history[k..]| <= 500 && Size(history[k..]) <= 262144
    ensures |history| - k <= |Retained(history)|
  {
    if !Fits(history) {
      assert k > 0 by { assert history[0..] == history; }
      assert history[1..][k - 1..] == history[k..];
      RetainedIsLongest(history[1..], k - 1);
    }
  }

  /** Suffixes of a fitting sequence fit. */
  lemma {:induction false} FitsSuffix(a: seq<Line>, b: seq<Line>)
    requires Fits(a + b)
    ensures Fits(b)
  {
    SizeAppend(a, b);
  }

  /** Evicting after every append keeps what evicting once from the full history would keep. */
  lemma {:induction false} RetainedStep(history: seq<Line>, l: Line)
    ensures Retained(history + [l]) == Retained(Retained(history) + [l])
  {
    var all, cut := history + [l], Evicted(history);
    RetainedIsSuffix(history);
    assert Retained(history) + [l] == all[cut..];
    LongerFitsNot(history, l);
    SameSuffix(all, cut);
  }

  /** Appending never brings an evicted line back. */
  lemma {:induction false} LongerFitsNot(history: seq<Line>, l: Line)
    ensures Evicted(history + [l]) >= Evicted(history)
  {
    var all := history + [l];
    var k := Evicted(all);
    if k <= |history| {
      RetainedIsSuffix(all);
      assert history[k..] + [l] == all[k..];
      FitsPrefix(history[k..], [l]);
      RetainedIsLongest(history, k);
    }
  }

  lemma {:induction false} FitsPrefix(a: seq<Line>, b: seq<Line>)
    requires Fits(a + b)
    ensures Fits(a)
  {
    SizeAppend(a, b);
  }

  /** The retained lines of a suffix that covers what the whole retains. */
  lemma {:induction false} SameSuffix(all: seq<Line>, cut: nat)
    requires cut <= |all| && |Retained(all)| <= |all| - cut
    ensures Retained(all[cut..]) == Retained(all)
  {
    if cut > 0 {
      SameSuffix(all[1..], cut - 1);
      assert all[1..][cut - 1..] == all[cut..];
    } else {
      assert all[0..] == all;
    }
  }

  /** History is numbered from 1 without gaps. */
  ghost predicate Numbered(history: seq<Line>) {
    forall i :: 0 <= i < |history| ==> history[i].num == i + 1
  }

  function Max(a: int, b: int): int {
    if a < b then b else a
  }

  function Min(a: int, b: int): int {
    if a < b then a else b
  }

  /** The lines numbered above `since` that are still retained. */
  function Visible(history: seq<Line>, since: nat): seq<Line> {
    if since >= |history| then [] else history[Max(since, Evicted(history))..]
  }

  lemma {:induction false} RetainedNumbers(history: seq<Line>)
    requires Numbered(history)
    ensures forall i :: 0 <= i < |Retained(history)| ==> Retained(history)[i].num == Evicted(history) + i + 1
  {
    RetainedIsSuffix(history);
  }

  lemma {:induction false} VisibleSlice(history: seq<Line>, since: nat)
    ensures Visible(history, since) ==
            Retained(history)[Min(Max(0, since - Evicted(history)), |Retained(history)|)..]
  {
    RetainedIsSuffix(history);
    SuffixOfSuffix(history, Evicted(history), since);
  }

  lemma {:induction false} SuffixOfSuffix(s: seq<Line>, a: nat, b: nat)
    requires a <= |s|
    ensures (if b >= |s| then [] else s[Max(b, a)..]) == s[a..][Min(Max(0, b - a), |s| - a)..]
  {
  }

  /** Dropping the oldest line while a cap is exceeded. */
  method Evict(all: seq<Line>, total: int) returns (lines: seq<Line>, byteTotal: int)
    requires total == Size(all)
    ensures lines == Retained(all) && byteTotal == Size(lines)
  {
    lines, byteTotal := all, total;
    while (|lines| > MAX_LINES || byteTotal > MAX_BYTES) && |lines| > 0
      invariant byteTotal == Size(lines) && Retained(lines) == Retained(all)
      decreases |lines|
    {
      byteTotal := byteTotal - |lines[0].data|;
      lines := lines[1..];
    }
  }

  /** The lines numbered above `since`, when the lines are numbered from `base + 1`. */
  method Above(lines: seq<Line>, since: nat, ghost base: nat) returns (out: seq<Line>)
    requires forall i :: 0 <= i < |lines| ==> lines[i].num == base + i + 1
    ensures out == lines[Min(Max(0, since - base), |lines|)..]
  {
    out := [];
    for i := 0 to |lines|
      invariant out == lines[Min(Max(0, since - base), i)..i]
    {
      if lines[i].num > since {
        out := out + [lines[i]];
      }
    }
  }

  class Ring {
    var lines: seq<Line>
    var byteTotal: int
    var nextSeq: nat
    ghost var history: seq<Line>

    ghost predicate Valid()
      reads this
    {
      && lines == Retained(history)
      && byteTotal == Size(lines)
      && nextSeq == |history|
      && Numbered(history)
    }

    constructor ()
      ensures Valid() && history == []
    {
      lines, byteTotal, nextSeq := [], 0, 0;
      history := [];
    }

    /** Append: number the line, store it, and evict from the front until both caps hold. */
    method Append(stream: string, data: Bytes) returns (l: Line)
      requires Valid()
      modifies this
      ensures Valid()
      ensures l == Line(old(nextSeq) + 1, stream, data) && history == old(history) + [l]
    {
      nextSeq := nextSeq + 1;
      l := Line(nextSeq, stream, data);
      RetainedStep(history, l);
      SizeAppend(lines, [l]);
      lines, byteTotal := Evict(lines + [l], byteTotal + |data|);
      history := history + [l];
    }

    /** Since: exactly the retained lines above `since`, and whether a line above it is already gone. */
    method Since(since: nat) returns (out: seq<Line>, gap: bool)
      requires Valid()
      ensures out == Visible(history, since)
      ensures gap <==> 0 < since < Evicted(history)
    {
      RetainedNumbers(history);
      if |lines| == 0 {
        return [], since > 0 && since < nextSeq;
      }
      var oldest := lines[0].num;
      gap := since > 0 && since < oldest - 1;
      out := Above(lines, since, Evicted(history));
      VisibleSlice(history, since);
    }

    method LastSeq() returns (n: nat)
      requires Valid()
      ensures n == |history|
    {
      return nextSeq;
    }
  }
}
