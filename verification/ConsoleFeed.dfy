/**
 Concurrent publishers: a line gets its number under the ring's lock and reaches a subscriber under the hub's.

 The state is one subscriber's view; sends to different subscribers do not affect each other. A publisher is a
 goroutine that publishes one line after the other: the stdout pump, the stderr pump, or the start of a server.
 */
module ConsoleFeed {
  import opened Text
  import opened ConsoleRing

  /** `owner[i]` published `history[i]`; `pending` holds each publisher's line that is numbered but not yet offered. */
  datatype Feed = Feed(history: seq<Line>, owner: seq<nat>, pending: map<nat, Line>, offered: seq<Line>)

  datatype Step = Append(publisher: nat, stream: string, data: Bytes) | Send(publisher: nat)

  /** A publisher offers its line before it numbers the next one. */
  predicate Enabled(f: Feed, step: Step) {
    if step.Append? then step.publisher !in f.pending else step.publisher in f.pending
  }

  function Apply(f: Feed, step: Step): Feed
    requires Enabled(f, step)
  {
    match step
    case Append(p, stream, data) =>
      var l := Line(|f.history| + 1, stream, data);
      f.(history := f.history + [l], owner := f.owner + [p], pending := f.pending[p := l])
    case Send(p) =>
      f.(offered := f.offered + [f.pending[p]], pending := f.pending - {p})
  }

  ghost predicate CanRun(f: Feed, steps: seq<Step>)
    decreases |steps|
  {
    steps == [] || (Enabled(f, steps[0]) && CanRun(Apply(f, steps[0]), steps[1..]))
  }

  function Run(f: Feed, steps: seq<Step>): Feed
    requires CanRun(f, steps)
    decreases |steps|
  {
    if steps == [] then f else Run(Apply(f, steps[0]), steps[1..])
  }

  // ----- what every interleaving keeps -----

  /** The line is the one of its number in the history. */
  predicate Recorded(f: Feed, l: Line) {
    1 <= l.num <= |f.history| && f.history[l.num - 1] == l
  }

  predicate OwnedBy(f: Feed, l: Line, p: nat) {
    1 <= l.num <= |f.owner| && f.owner[l.num - 1] == p
  }

  /** Everything offered or pending is in the history, and a pending line belongs to its publisher. */
  ghost predicate Genuine(f: Feed) {
    && Numbered(f.history) && |f.owner| == |f.history|
    && (forall i :: 0 <= i < |f.offered| ==> Recorded(f, f.offered[i]))
    && (forall p :: p in f.pending ==> Recorded(f, f.pending[p]) && OwnedBy(f, f.pending[p], p))
  }

  /** No line is offered twice, and none is offered and pending. */
  ghost predicate Once(f: Feed) {
    && (forall i, j :: 0 <= i < j < |f.offered| ==> f.offered[i].num != f.offered[j].num)
    && (forall i, p :: 0 <= i < |f.offered| && p in f.pending ==> f.offered[i].num != f.pending[p].num)
  }

  /** The lines of one publisher are offered in the order of their numbers, its pending line last. */
  ghost predicate OwnOrder(f: Feed) {
    && (forall i, j, p :: 0 <= i < j < |f.offered| && OwnedBy(f, f.offered[i], p) && OwnedBy(f, f.offered[j], p) ==>
          f.offered[i].num < f.offered[j].num)
    && (forall i, p :: 0 <= i < |f.offered| && p in f.pending && OwnedBy(f, f.offered[i], p) ==>
          f.offered[i].num < f.pending[p].num)
  }

  predicate Reached(f: Feed, l: Line) {
    l in f.offered || exists p :: p in f.pending && f.pending[p] == l
  }

  /** Every line numbered after the subscription has been offered, or its publisher is about to offer it. */
  ghost predicate Complete(f: Feed, base: nat) {
    forall k :: base <= k < |f.history| ==> Reached(f, f.history[k])
  }

  ghost predicate Inv(f: Feed, base: nat) {
    Genuine(f) && Once(f) && OwnOrder(f) && Complete(f, base)
  }

  /** A new subscriber: nothing offered yet, and publishers may be between their two sections. */
  lemma {:induction false} Subscribed(f: Feed)
    requires f.offered == [] && Genuine(f)
    ensures Inv(f, |f.history|)
  {
  }

  lemma {:induction false} AppendKeeps(f: Feed, step: Step, base: nat)
    requires Inv(f, base) && step.Append? && Enabled(f, step)
    ensures Inv(Apply(f, step), base)
  {
    var t := Apply(f, step);
    forall l | Recorded(f, l) ensures Recorded(t, l) {
      assert t.history[l.num - 1] == f.history[l.num - 1];
    }
    forall l, p | Recorded(f, l) ensures OwnedBy(t, l, p) <==> OwnedBy(f, l, p) {
      assert t.owner[l.num - 1] == f.owner[l.num - 1];
    }
    assert Genuine(t);
    assert Once(t);
    assert OwnOrder(t);
    AppendComplete(f, step, base);
  }

  lemma {:induction false} AppendComplete(f: Feed, step: Step, base: nat)
    requires Complete(f, base) && step.Append? && Enabled(f, step)
    ensures Complete(Apply(f, step), base)
  {
    var t := Apply(f, step);
    forall k | base <= k < |t.history| ensures Reached(t, t.history[k]) {
      if k < |f.history| {
        var l := f.history[k];
        assert Reached(f, l) && t.history[k] == l;
        if l !in f.offered {
          var p :| p in f.pending && f.pending[p] == l;
          assert p in t.pending && t.pending[p] == l;
        }
      } else {
        assert step.publisher in t.pending && t.pending[step.publisher] == t.history[k];
      }
    }
  }

  lemma {:induction false} SendKeeps(f: Feed, step: Step, base: nat)
    requires Inv(f, base) && step.Send? && Enabled(f, step)
    ensures Inv(Apply(f, step), base)
  {
    var t := Apply(f, step);
    assert Genuine(t);
    SendOnce(f, step);
    SendOrder(f, step);
    SendComplete(f, step, base);
  }

  lemma {:induction false} SendOnce(f: Feed, step: Step)
    requires Genuine(f) && Once(f) && step.Send? && Enabled(f, step)
    ensures Once(Apply(f, step))
  {
    var t, l := Apply(f, step), f.pending[step.publisher];
    forall p | p in t.pending ensures t.pending[p].num != l.num {
      assert OwnedBy(f, f.pending[p], p) && OwnedBy(f, l, step.publisher);
    }
  }

  lemma {:induction false} SendOrder(f: Feed, step: Step)
    requires Genuine(f) && OwnOrder(f) && step.Send? && Enabled(f, step)
    ensures OwnOrder(Apply(f, step))
  {
    var t, l := Apply(f, step), f.pending[step.publisher];
    assert OwnedBy(f, l, step.publisher);
    assert forall x, p :: OwnedBy(t, x, p) <==> OwnedBy(f, x, p);
  }

  lemma {:induction false} SendComplete(f: Feed, step: Step, base: nat)
    requires Complete(f, base) && step.Send? && Enabled(f, step)
    ensures Complete(Apply(f, step), base)
  {
    var t := Apply(f, step);
    forall k | base <= k < |t.history| ensures Reached(t, t.history[k]) {
      var l := f.history[k];
      assert Reached(f, l);
      if l in f.offered {
        assert l in t.offered;
      } else {
        var p :| p in f.pending && f.pending[p] == l;
        if p == step.publisher {
          assert t.offered[|f.offered|] == l;
        } else {
          assert p in t.pending && t.pending[p] == l;
        }
      }
    }
  }

  /** Over every interleaving: nothing is lost, invented or doubled, and each publisher's lines keep their order. */
  lemma {:induction false} InvRun(f: Feed, steps: seq<Step>, base: nat)
    requires Inv(f, base) && CanRun(f, steps)
    ensures Inv(Run(f, steps), base)
    decreases |steps|
  {
    if steps != [] {
      if steps[0].Append? {
        AppendKeeps(f, steps[0], base);
      } else {
        SendKeeps(f, steps[0], base);
      }
      InvRun(Apply(f, steps[0]), steps[1..], base);
    }
  }

  // ----- the order across publishers -----

  /** The line sent next overtakes only lines that other publishers are about to send, at most one each. */
  lemma {:induction false} OvertakesPending(f: Feed, base: nat, p: nat, k: nat)
    requires Inv(f, base) && p in f.pending && base <= k < |f.history|
    requires f.history[k].num < f.pending[p].num && f.history[k] !in f.offered
    ensures exists q :: q in f.pending && q != p && f.pending[q] == f.history[k]
  {
    assert Reached(f, f.history[k]);
  }

  /** Two lines are offered out of order only if different publishers published them. */
  lemma {:induction false} OutOfOrderAcross(f: Feed, base: nat, i: nat, j: nat, p: nat)
    requires Inv(f, base) && i < j < |f.offered| && f.offered[i].num > f.offered[j].num
    ensures !(OwnedBy(f, f.offered[i], p) && OwnedBy(f, f.offered[j], p))
  {
  }

  /** With no publisher between its two sections, exactly the lines since the subscription are there, once each. */
  lemma {:induction false} Quiescent(f: Feed, base: nat, l: Line)
    requires Inv(f, base) && f.pending == map[] && l.num > base
    ensures l in f.offered <==> Recorded(f, l)
  {
    if Recorded(f, l) {
      assert Reached(f, f.history[l.num - 1]);
    }
  }

  /** No line is numbered while another one is still to be offered. */
  ghost predicate Apart(f: Feed, steps: seq<Step>)
    requires CanRun(f, steps)
    decreases |steps|
  {
    steps == [] || ((steps[0].Append? ==> f.pending == map[]) && Apart(Apply(f, steps[0]), steps[1..]))
  }

  /** In number order, the pending line last. */
  ghost predicate Ordered(f: Feed) {
    && (forall i, j :: 0 <= i < j < |f.offered| ==> f.offered[i].num < f.offered[j].num)
    && (forall i, p :: 0 <= i < |f.offered| && p in f.pending ==> f.offered[i].num < f.pending[p].num)
    && (forall p, q :: p in f.pending && q in f.pending ==> p == q)
  }

  /** When no two publishes overlap, the lines arrive in the order of their numbers. */
  lemma {:induction false} ApartInOrder(f: Feed, steps: seq<Step>, base: nat)
    requires Inv(f, base) && CanRun(f, steps) && Apart(f, steps) && Ordered(f)
    ensures Ordered(Run(f, steps))
    decreases |steps|
  {
    if steps != [] {
      if steps[0].Append? {
        AppendKeeps(f, steps[0], base);
      } else {
        SendKeeps(f, steps[0], base);
      }
      ApartInOrder(Apply(f, steps[0]), steps[1..], base);
    }
  }

  /** Two publishers can be overtaken: the second line arrives first. */
  lemma {:induction false} Overtaken(a: Bytes, b: Bytes)
    ensures var start := Feed([], [], map[], []);
      var steps := [Append(0, "stdout", a), Append(1, "stderr", b), Send(1), Send(0)];
      CanRun(start, steps) && Run(start, steps).offered == [Line(2, "stderr", b), Line(1, "stdout", a)]
  {
    var f0 := Feed([], [], map[], []);
    var steps := [Append(0, "stdout", a), Append(1, "stderr", b), Send(1), Send(0)];
    var f1 := Apply(f0, steps[0]);
    var f2 := Apply(f1, steps[1]);
    var f3 := Apply(f2, steps[2]);
    var f4 := Apply(f3, steps[3]);
    Unroll(f3, steps[3], []);
    Unroll(f2, steps[2], [steps[3]]);
    Unroll(f1, steps[1], [steps[2], steps[3]]);
    Unroll(f0, steps[0], [steps[1], steps[2], steps[3]]);
    assert steps == [steps[0]] + [steps[1], steps[2], steps[3]];
    assert f4.offered == [Line(2, "stderr", b), Line(1, "stdout", a)];
  }

  lemma {:induction false} Unroll(f: Feed, step: Step, rest: seq<Step>)
    requires Enabled(f, step) && CanRun(Apply(f, step), rest)
    ensures CanRun(f, [step] + rest) && Run(f, [step] + rest) == Run(Apply(f, step), rest)
  {
    assert ([step] + rest)[1..] == rest;
  }
}
