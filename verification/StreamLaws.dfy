/** What a loss report does to a stream, chunk by chunk. */
module StreamLaws {
  import opened Words
  import opened StreamSpec

  /** The chunk lies in one of the closed packet-number ranges. */
  ghost predicate Named(base: nat, ranges: seq<(u64, u64)>, c: nat) {
    exists k :: 0 <= k < |ranges| && ranges[k].0 <= base + c <= ranges[k].1
  }

  lemma {:induction false} OrderIs(base: nat, count: nat, ranges: seq<(u64, u64)>, c: nat)
    ensures c in NackOrder(base, count, ranges) <==> c < count && Named(base, ranges, c)
    decreases |ranges|
  {
    if ranges != [] {
      var rest := ranges[1..];
      OrderIs(base, count, rest, c);
      assert Named(base, ranges, c) <==> ranges[0].0 <= base + c <= ranges[0].1 || Named(base, rest, c) by {
        forall k | 1 <= k < |ranges| ensures ranges[k] == rest[k - 1] {}
        if Named(base, rest, c) {
          var k :| 0 <= k < |rest| && rest[k].0 <= base + c <= rest[k].1;
          assert ranges[k + 1].0 <= base + c <= ranges[k + 1].1;
        }
      }
      InRange(Max(ranges[0].0, base) - base, Min(ranges[0].1 as int + 1, base + count) - base, c);
    }
  }

  lemma InRange(lo: nat, hi: int, c: nat)
    ensures c in Range(lo, hi) <==> lo <= c < hi
  {
    if lo <= c < hi { assert Range(lo, hi)[c - lo] == c; }
  }

  /** Not acked, not waiting to be resent, and sent at least 50 ms ago as the 32-bit clock reads it. */
  ghost predicate Believed(s: Stream, c: nat, now: nat)
    requires s.Valid() && c < s.Count()
  {
    !s.acked[c] && c !in s.queue && (now - s.sentAt[c]) % U32 >= 50_000
  }

  ghost function Reversed(xs: seq<nat>): seq<nat> { if xs == [] then [] else Reversed(xs[1..]) + [xs[0]] }

  /** Queueing one chunk makes the others no less believed, and it no more. */
  lemma BelievedAfter(s: Stream, x: nat, now: nat, c: nat)
    requires s.Valid() && s.StampedBy(now) && c < s.Count()
    ensures Believed(NackOne(s, x, now, Wrapping), c, now) <==>
            Believed(s, c, now) && !(c == x && NackTakes(s, x, now, Wrapping))
  {}

  lemma {:induction false} NackAllIs(s: Stream, order: seq<nat>, now: nat, c: nat)
    requires s.Valid() && s.StampedBy(now)
    ensures c in NackAll(s, order, now, Wrapping).1 <==> c in order && c < s.Count() && Believed(s, c, now)
    decreases |order|
  {
    hide Stream.Valid, Believed, NackTakes, NackOne;
    if order != [] {
      var x, rest := order[0], order[1..];
      NackAllIs(NackOne(s, x, now, Wrapping), rest, now, c);
      TakesIs(s, x, now);
      if c < s.Count() { BelievedAfter(s, x, now, c); }
      assert c in order <==> c == x || c in rest;
    }
  }

  lemma {:induction false} NackQueues(s: Stream, order: seq<nat>, now: nat)
    requires s.Valid() && s.StampedBy(now)
    ensures var (t, lost) := NackAll(s, order, now, Wrapping); t.queue == Reversed(lost) + s.queue
    decreases |order|
  {
    hide Stream.Valid, NackTakes, NackOne, Reversed;
    if order == [] {
      assert Reversed([]) + s.queue == s.queue by { ReversedNone(); }
    } else {
      var x := order[0];
      var s' := NackOne(s, x, now, Wrapping);
      NackQueues(s', order[1..], now);
      OneQueues(s, x, now);
      ReversedMore(x, NackAll(s', order[1..], now, Wrapping).1, s.queue);
    }
  }

  lemma OneQueues(s: Stream, x: nat, now: nat)
    requires s.Valid() && s.StampedBy(now)
    ensures NackOne(s, x, now, Wrapping).queue == if NackTakes(s, x, now, Wrapping) then [x] + s.queue else s.queue
  {}

  lemma ReversedNone()
    ensures Reversed([]) == []
  {}

  lemma ReversedMore(x: nat, more: seq<nat>, queue: seq<nat>)
    ensures Reversed(more) + ([x] + queue) == Reversed([x] + more) + queue && [] + more == more
  {
    assert ([x] + more)[1..] == more;
  }

  lemma TakesIs(s: Stream, c: nat, now: nat)
    requires s.Valid() && s.StampedBy(now)
    ensures NackTakes(s, c, now, Wrapping) <==> c < s.Count() && Believed(s, c, now)
  {}

  lemma {:induction false} ReversedFirst(xs: seq<nat>)
    requires xs != []
    ensures Reversed(xs) != [] && Reversed(xs)[0] == xs[|xs| - 1]
    decreases |xs|
  {
    if |xs| > 1 { ReversedFirst(xs[1..]); }
  }

  /** A loss report queues exactly the believed chunks it names, all ahead of what was queued, and changes neither
      marks nor stamps. */
  lemma NackIs(s: Stream, ranges: seq<(u64, u64)>, now: nat, c: nat)
    requires s.Valid() && s.StampedBy(now)
    ensures var (t, lost) := ApplyNack(s, ranges, now, Wrapping);
      && (c in lost <==> c < s.Count() && Named(s.base, ranges, c) && Believed(s, c, now))
      && t.queue == Reversed(lost) + s.queue && t.acked == s.acked && t.sentAt == s.sentAt && t.next == s.next
  {
    hide NackAll, NackOrder, Stream.Valid, Named, Believed, Reversed;
    NackAllIs(s, NackOrder(s.base, s.Count(), ranges), now, c);
    NackQueues(s, NackOrder(s.base, s.Count(), ranges), now);
    OrderIs(s.base, s.Count(), ranges, c);
  }

  /** The last chunk a report queues is the next one picked. */
  lemma NackedGoesNext(s: Stream, ranges: seq<(u64, u64)>, now: nat)
    requires s.Valid() && s.StampedBy(now) && ApplyNack(s, ranges, now, Wrapping).1 != []
    ensures var (t, lost) := ApplyNack(s, ranges, now, Wrapping); Pick(t).1 == Some(lost[|lost| - 1])
  {
    var (t, lost) := ApplyNack(s, ranges, now, Wrapping);
    var last := lost[|lost| - 1];
    NackIs(s, ranges, now, last);
    ReversedFirst(lost);
    assert t.queue[0] == last && !t.acked[last];
  }
}
