/** The console hub: fan-out that drops for a slow subscriber and never blocks, with every line accounted for. */
module ConsoleHub {
  import opened Text
  import opened ConsoleRing

  const BUFFER_SIZE: nat := 256

  /** `a` is `b` with some elements left out. */
  ghost predicate Subsequence<T(!new)>(a: seq<T>, b: seq<T>)
    decreases |b|
  {
    || a == []
    || (b != [] &&
        (|| (a[|a| - 1] == b[|b| - 1] && Subsequence(a[..|a| - 1], b[..|b| - 1]))
         || Subsequence(a, b[..|b| - 1])))
  }

  lemma {:induction false} SubsequencePush<T(!new)>(a: seq<T>, b: seq<T>, x: T)
    requires Subsequence(a, b)
    ensures Subsequence(a + [x], b + [x]) && Subsequence(a, b + [x])
  {
    assert (a + [x])[..|a|] == a && (b + [x])[..|b|] == b;
  }

  /** What a non-blocking send does to a buffer and a drop counter. */
  predicate Sent(buffer: seq<Line>, dropped: nat, l: Line, buffer': seq<Line>, dropped': nat) {
    if |buffer| < 256 then buffer' == buffer + [l] && dropped' == dropped
    else buffer' == buffer && dropped' == dropped + 1
  }

  class Subscriber {
    var buffer: seq<Line>
    var dropped: nat
    ghost var offered: seq<Line>   // every line fanned out while subscribed
    ghost var received: seq<Line>  // what the reader took from the channel
    ghost var reported: nat        // drops already handed to the caller

    /** Offered lines are received, buffered, or counted as dropped; what arrives keeps its order. */
    ghost predicate Valid()
      reads this
    {
      && |buffer| <= BUFFER_SIZE
      && |offered| == |received| + |buffer| + reported + dropped
      && Subsequence(received + buffer, offered)
    }

    constructor ()
      ensures Valid() && buffer == [] && dropped == 0 && offered == [] && received == [] && reported == 0
    {
      buffer, dropped := [], 0;
      offered, received, reported := [], [], 0;
    }

    /** The reader's side of the channel. */
    method Receive() returns (l: Option<Line>)
      requires Valid()
      modifies this
      ensures Valid() && offered == old(offered) && reported == old(reported) && dropped == old(dropped)
      ensures if old(buffer) == [] then l == None && buffer == [] && received == old(received)
              else l == Some(old(buffer)[0]) && received == old(received) + [old(buffer)[0]] && buffer == old(buffer)[1..]
    {
      if buffer == [] {
        return None;
      }
      l := Some(buffer[0]);
      assert received + [buffer[0]] + buffer[1..] == received + buffer;
      received := received + [buffer[0]];
      buffer := buffer[1..];
    }

    /** TakeDropped: hand over the drops counted since the last call. */
    method TakeDropped() returns (n: nat)
      requires Valid()
      modifies this
      ensures Valid() && n == old(dropped) && dropped == 0 && reported == old(reported) + n
      ensures buffer == old(buffer) && offered == old(offered) && received == old(received)
    {
      n := dropped;
      reported, dropped := reported + dropped, 0;
    }

    /** The send half of Publish for one subscriber. */
    method Offer(l: Line)
      requires Valid()
      modifies this
      ensures Valid() && offered == old(offered) + [l] && received == old(received) && reported == old(reported)
      ensures Sent(old(buffer), old(dropped), l, buffer, dropped)
    {
      SubsequencePush(received + buffer, offered, l);
      assert received + (buffer + [l]) == received + buffer + [l];
      offered := offered + [l];
      if |buffer| < BUFFER_SIZE {
        buffer := buffer + [l];
      } else {
        dropped := dropped + 1;
      }
    }
  }

  class Hub {
    var subs: set<Subscriber>
    const ring: Ring

    ghost predicate Valid()
      reads this, subs, ring
    {
      ring.Valid() && forall s | s in subs :: s.Valid()
    }

    constructor (ring: Ring)
      requires ring.Valid()
      ensures Valid() && subs == {} && this.ring == ring
    {
      subs := {};
      this.ring := ring;
    }

    method Subscribe() returns (s: Subscriber)
      requires Valid()
      modifies this
      ensures Valid() && fresh(s) && subs == old(subs) + {s} && s.offered == []
    {
      s := new Subscriber();
      subs := subs + {s};
    }

    method Unsubscribe(s: Subscriber)
      requires Valid()
      modifies this
      ensures Valid() && subs == old(subs) - {s}
    {
      subs := subs - {s};
    }

    /** The fan-out section of Publish: one non-blocking send to every current subscriber, by its own buffer alone. */
    method FanOut(l: Line)
      requires Valid()
      modifies subs
      ensures Valid() && subs == old(subs)
      ensures forall s | s in subs ::
        && s.offered == old(s.offered) + [l] && s.received == old(s.received) && s.reported == old(s.reported)
        && Sent(old(s.buffer), old(s.dropped), l, s.buffer, s.dropped)
    {
      var todo := subs;
      while todo != {}
        invariant todo <= subs && Valid()
        invariant forall s | s in todo ::
          s.offered == old(s.offered) && s.received == old(s.received) && s.reported == old(s.reported)
          && s.buffer == old(s.buffer) && s.dropped == old(s.dropped)
        invariant forall s | s in subs - todo ::
          s.offered == old(s.offered) + [l] && s.received == old(s.received) && s.reported == old(s.reported)
          && Sent(old(s.buffer), old(s.dropped), l, s.buffer, s.dropped)
        decreases |todo|
      {
        var s :| s in todo;
        todo := todo - {s};
        s.Offer(l);
      }
    }

    /** Publish: number and store the line under the ring's lock, then fan it out under the hub's. */
    method Publish(stream: string, data: Bytes) returns (l: Line)
      requires Valid()
      modifies subs, ring
      ensures Valid() && subs == old(subs) && ring.history == old(ring.history) + [l]
      ensures l == Line(|old(ring.history)| + 1, stream, data)
      ensures forall s | s in subs ::
        && s.offered == old(s.offered) + [l] && s.received == old(s.received) && s.reported == old(s.reported)
        && Sent(old(s.buffer), old(s.dropped), l, s.buffer, s.dropped)
    {
      l := ring.Append(stream, data);
      FanOut(l);
    }
  }
}
