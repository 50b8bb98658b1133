/** The token bucket on console input, over exact real time. */
module InputLimiter {

  const BURST: real := 10.0
  const RATE: real := 5.0

  datatype Bucket = Bucket(tokens: real, last: real)

  function Refill(b: Bucket, now: real): real {
    var t := if now > b.last then b.tokens + (now - b.last) * RATE else b.tokens;
    if t > BURST then BURST else t
  }

  function Next(b: Bucket, now: real): Bucket {
    var t := Refill(b, now);
    Bucket(if t < 1.0 then t else t - 1.0, now)
  }

  predicate Allowed(b: Bucket, now: real) {
    Refill(b, now) >= 1.0
  }

  class RateLimiter {
    var tokens: real
    var last: real

    function View(): Bucket
      reads this
    {
      Bucket(tokens, last)
    }

    constructor (now: real)
      ensures View() == Bucket(BURST, now)
    {
      tokens, last := BURST, now;
    }

    /** Allow: add what the elapsed time earned, never drain on a backward clock, take one token. */
    method Allow(now: real) returns (ok: bool)
      modifies this
      ensures View() == Next(old(View()), now) && ok == Allowed(old(View()), now)
    {
      var elapsed := now - last;
      last := now;
      if elapsed > 0.0 {
        tokens := tokens + elapsed * RATE;
      }
      if tokens > BURST {
        tokens := BURST;
      }
      if tokens < 1.0 {
        return false;
      }
      tokens := tokens - 1.0;
      return true;
    }
  }

  // ----- whole runs -----

  function After(b: Bucket, clock: seq<real>): Bucket
    decreases |clock|
  {
    if clock == [] then b else Next(After(b, clock[..|clock| - 1]), clock[|clock| - 1])
  }

  function AllowedCount(b: Bucket, clock: seq<real>): nat
    decreases |clock|
  {
    if clock == [] then 0
    else
      AllowedCount(b, clock[..|clock| - 1])
      + if Allowed(After(b, clock[..|clock| - 1]), clock[|clock| - 1]) then 1 else 0
  }

  /** The time the clock moved forward, backward jumps not counted. */
  function Forward(last: real, clock: seq<real>): real
    decreases |clock|
  {
    if clock == [] then 0.0
    else
      var n := |clock| - 1;
      var before := if n == 0 then last else clock[n - 1];
      Forward(last, clock[..n]) + if clock[n] > before then clock[n] - before else 0.0
  }

  lemma {:induction false} LastReading(b: Bucket, clock: seq<real>)
    ensures After(b, clock).last == if clock == [] then b.last else clock[|clock| - 1]
  {
  }

  /** Over any clock the bucket stays within bounds, and what it lets through is what it held plus what time earned. */
  lemma {:induction false} Bounded(b: Bucket, clock: seq<real>)
    requires 0.0 <= b.tokens <= BURST
    ensures 0.0 <= After(b, clock).tokens <= BURST
    ensures AllowedCount(b, clock) as real + After(b, clock).tokens <= b.tokens + RATE * Forward(b.last, clock)
    decreases |clock|
  {
    if clock != [] {
      var n := |clock| - 1;
      Bounded(b, clock[..n]);
      LastReading(b, clock[..n]);
    }
  }

  predicate Monotone(clock: seq<real>) {
    forall i :: 0 <= i < |clock| - 1 ==> clock[i] <= clock[i + 1]
  }

  /** The bucket at the moment of the first reading: earlier idle time has become tokens, capped by the burst. */
  function At(b: Bucket, now: real): Bucket {
    Bucket(Refill(b, now), now)
  }

  /** Starting a window from its own first reading changes neither its answers nor the bucket it ends with. */
  lemma {:induction false} SameFromFirst(b: Bucket, clock: seq<real>)
    requires clock != []
    ensures After(b, clock) == After(At(b, clock[0]), clock)
    ensures AllowedCount(b, clock) == AllowedCount(At(b, clock[0]), clock)
    decreases |clock|
  {
    if |clock| == 1 {
      assert clock[..0] == [];
    } else {
      SameFromFirst(b, clock[..|clock| - 1]);
    }
  }

  /**
   From any reachable bucket, a window whose clock never goes back lets through at most 10 lines plus 5 for each
   second between its own first and last call, however long the connection was idle before it.
   */
  lemma {:induction false} WindowBound(b: Bucket, before: seq<real>, window: seq<real>)
    requires 0.0 <= b.tokens <= BURST && window != [] && Monotone(window)
    ensures AllowedCount(After(b, before), window) as real <= BURST + RATE * (window[|window| - 1] - window[0])
  {
    var c := After(b, before);
    Bounded(b, before);
    SameFromFirst(c, window);
    Bounded(At(c, window[0]), window);
    ForwardOfMonotone(window[0], window);
  }

  lemma {:induction false} ForwardOfMonotone(last: real, clock: seq<real>)
    requires clock != [] && last <= clock[0] && Monotone(clock)
    ensures Forward(last, clock) == clock[|clock| - 1] - last
    decreases |clock|
  {
    if |clock| > 1 {
      ForwardOfMonotone(last, clock[..|clock| - 1]);
    } else {
      assert clock[..0] == [];
    }
  }

  // ----- what is let through -----

  /** A fifth of a second after the last call, whatever came before, a line is let through. */
  lemma {:induction false} PauseAllows(b: Bucket, clock: seq<real>, now: real)
    requires 0.0 <= b.tokens <= 10.0
    requires now >= (if clock == [] then b.last else clock[|clock| - 1]) + 0.2
    ensures Allowed(After(b, clock), now)
  {
    Bounded(b, clock);
    LastReading(b, clock);
  }

  function Instants(n: nat, now: real): seq<real> {
    if n == 0 then [] else Instants(n - 1, now) + [now]
  }

  /** A full bucket lets exactly ten lines through at one instant. */
  lemma {:induction false} BurstIsTen(now: real, n: nat)
    ensures AllowedCount(Bucket(10.0, now), Instants(n, now)) == if n <= 10 then n else 10
    ensures After(Bucket(10.0, now), Instants(n, now)) == Bucket(if n <= 10 then 10.0 - n as real else 0.0, now)
  {
    if n > 0 {
      BurstIsTen(now, n - 1);
      var clock := Instants(n, now);
      assert clock[..|clock| - 1] == Instants(n - 1, now);
    }
  }

  /** The `i`-th reading is a fifth of a second or more after the one before it. */
  predicate PausedAt(b: Bucket, clock: seq<real>, i: nat)
    requires i < |clock|
  {
    clock[i] >= (if i == 0 then b.last else clock[i - 1]) + 0.2
  }

  /** Calls a fifth of a second apart are never refused. */
  lemma {:induction false} SteadyPace(b: Bucket, clock: seq<real>)
    requires 0.0 <= b.tokens <= 10.0
    requires forall i :: 0 <= i < |clock| ==> PausedAt(b, clock, i)
    ensures AllowedCount(b, clock) == |clock|
    decreases |clock|
  {
    if clock != [] {
      var n := |clock| - 1;
      var init := clock[..n];
      forall i | 0 <= i < n ensures PausedAt(b, init, i) {
        assert PausedAt(b, clock, i);
      }
      SteadyPace(b, init);
      assert PausedAt(b, clock, n);
      PauseAllows(b, init, clock[|clock| - 1]);
    }
  }
}
