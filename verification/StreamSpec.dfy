/** One sender stream without its speed-ups: no acked counter, no scan cursor, no
    contiguous-prefix cursor, and unbounded send times. Every operation sweeps the whole
    chunk space. `StreamState` is the code's cursor-based form and is proved equal to this. */
module StreamSpec {
  import opened Words

  /** The two per-chunk flag bits. */
  datatype Flags = Flags(inRetx: bool, retransmitted: bool)

  const CLEAR := Flags(false, false)
  const QUEUED := Flags(true, true)

  /** An ACK as decoded from the wire. */
  datatype Ack = Ack(base: u64, hc: u64, bitmap: Bitmap)

  /** How ages are read: the code's wrapping 32-bit stamps, or an ideal clock. */
  datatype Clock = Wrapping | Unbounded {
    function Age(now: nat, sent: nat): nat { if Wrapping? then Age32(now, sent) else SatSub(now, sent) }
  }

  /** A loss report is ignored for a chunk stamped less than this many microseconds ago. */
  const RECENTLY_SENT_US: nat := 50_000

  datatype Stream = Stream(
    base: nat, next: nat, acked: seq<bool>, sentAt: seq<nat>, flags: seq<Flags>, queue: seq<nat>)
  {
    function Count(): nat { |acked| }

    /** What every operation keeps. */
    ghost predicate Valid() {
      && |sentAt| == |flags| == |acked|
      && next <= |acked|
      && base + |acked| < U64
      && (forall i :: 0 <= i < |queue| ==> queue[i] < |acked|)
      && (forall i, j :: 0 <= i < j < |queue| ==> queue[i] != queue[j])
      && (forall c :: 0 <= c < |flags| ==> (flags[c].inRetx <==> c in queue))
      && (forall c :: 0 <= c < |flags| ==> flags[c].inRetx ==> flags[c].retransmitted)
    }

    ghost predicate StampedBy(now: nat) {
      forall c :: 0 <= c < |sentAt| ==> sentAt[c] <= now
    }
  }

  function NewStream(base: nat, count: nat): Stream {
    Stream(base, 0, seq(count, _ => false), seq(count, _ => 0), seq(count, _ => CLEAR), [])
  }

  // ---------- ACKs ----------

  /** The bit of an ACK's bitmap that speaks of local chunk c: bit 0 is the packet just past
      the contiguous prefix, and packet numbers wrap. */
  function BitIndex(base: nat, ack: Ack, c: nat): u64
    requires base + c < U64
  {
    WrappingSub64(base + c, WrappingAdd64(ack.hc, 1))
  }

  /** The local chunk that bit i speaks of, computed as the code does. */
  function BitTarget(base: u64, ack: Ack, i: u64): u64 {
    WrappingSub64(WrappingAdd64(WrappingAdd64(ack.hc, 1), i), base)
  }

  lemma BitTargetIsInverse(base: u64, ack: Ack, i: u64, c: nat)
    requires base + c < U64
    ensures BitTarget(base, ack, i) == c <==> BitIndex(base, ack, c) == i
  {}

  /** The bit that speaks of local chunk c is set. */
  predicate BitSet(base: nat, ack: Ack, c: nat)
    requires base + c < U64
  {
    BitIndex(base, ack, c) < 8 * |ack.bitmap| && BitAt(ack.bitmap, BitIndex(base, ack, c))
  }

  /** Whether an ACK reports local chunk c of the stream at `base`: it lies in the contiguous
      prefix (ignored unless it ends inside the stream) or its bit is set. */
  predicate Reported(base: nat, count: nat, ack: Ack, c: nat)
    requires base + c < U64
  {
    || (ack.base <= ack.hc < base + count && ack.base <= base + c <= ack.hc)
    || BitSet(base, ack, c)
  }

  /** Apply an ACK to every chunk it reports. */
  function ApplyAck(s: Stream, ack: Ack): (r: Stream)
    requires s.Valid()
    ensures r.Valid()
  {
    s.(acked := seq(s.Count(), c requires 0 <= c < s.Count() =>
      s.acked[c] || Reported(s.base, s.Count(), ack, c)))
  }

  /** The bytes in flight after n chunks are taken off, stopping at zero. */
  ghost function Release(inFlight: nat, wire: nat, n: nat): nat { SatSub(inFlight, wire * n) }

  lemma ReleaseOneMore(inFlight: nat, wire: nat, n: nat)
    ensures Release(inFlight, wire, n + 1) == SatSub(Release(inFlight, wire, n), wire)
  {
    assert wire * (n + 1) == wire * n + wire;
  }

  /** A chunk's RTT sample when it is acked: none once it may have been sent twice. */
  function RttSample(flags: Flags, sent: nat, now: nat, clock: Clock): Option<nat> {
    if flags.retransmitted then None else Some(Max(clock.Age(now, sent), 1))
  }

  /** The sample each chunk would give if acked now. */
  function Samples(flags: seq<Flags>, sentAt: seq<nat>, now: nat, clock: Clock): (r: seq<Option<nat>>)
    ensures |r| == Min(|flags|, |sentAt|)
  {
    seq(Min(|flags|, |sentAt|), c requires 0 <= c < Min(|flags|, |sentAt|) => RttSample(flags[c], sentAt[c], now, clock))
  }

  datatype Report = Report(pn: nat, rtt: Option<nat>)

  /** `newly` reports each chunk acked since `was` exactly once, with its sample. */
  ghost predicate ReportsExactly(newly: seq<Report>, base: nat, was: seq<bool>, acked: seq<bool>, samples: seq<Option<nat>>) {
    && |was| == |acked| == |samples|
    && (forall i, j :: 0 <= i < j < |newly| ==> newly[i].pn != newly[j].pn)
    && (forall i :: 0 <= i < |newly| ==> ReportFits(newly[i], base, was, acked, samples))
    && (forall c :: 0 <= c < |acked| && !was[c] && acked[c] ==> Report(base + c, samples[c]) in newly)
  }

  ghost predicate ReportFits(r: Report, base: nat, was: seq<bool>, acked: seq<bool>, samples: seq<Option<nat>>)
    requires |was| == |acked| == |samples|
  {
    && base <= r.pn < base + |acked|
    && !was[r.pn - base] && acked[r.pn - base] && r.rtt == samples[r.pn - base]
  }

  lemma ReportOneMore(newly: seq<Report>, base: nat, was: seq<bool>, acked: seq<bool>, samples: seq<Option<nat>>, c: nat)
    requires |was| == |acked| == |samples|
    requires ReportsExactly(newly, base, was, acked, samples)
    requires c < |acked| && !acked[c] && !was[c]
    ensures ReportsExactly(newly + [Report(base + c, samples[c])], base, was, acked[c := true], samples)
  {
    var last := Report(base + c, samples[c]);
    var all := newly + [last];
    forall i | 0 <= i < |all| ensures ReportFits(all[i], base, was, acked[c := true], samples) {
      if i < |newly| { assert ReportFits(newly[i], base, was, acked, samples); }
    }
    forall x | 0 <= x < |acked| && !was[x] && acked[c := true][x]
      ensures Report(base + x, samples[x]) in all
    {
      if x == c { assert all[|newly|] == last; }
    }
  }

  /** Local chunks by their global index. */
  function Globals(base: nat, cs: seq<nat>): seq<nat> { seq(|cs|, i requires 0 <= i < |cs| => base + cs[i]) }

  // ---------- timeouts ----------

  predicate TimedOut(s: Stream, c: nat, now: nat, timeout: nat, clock: Clock)
    requires |s.sentAt| == |s.flags| == |s.acked|
    requires c < s.Count() && s.sentAt[c] <= now
  {
    !s.acked[c] && !s.flags[c].inRetx && clock.Age(now, s.sentAt[c]) > timeout
  }

  /** The sent chunks at or above `from` that have timed out, in order. */
  function Expired(s: Stream, from: nat, now: nat, timeout: nat, clock: Clock): (r: seq<nat>)
    requires s.Valid() && s.StampedBy(now)
    ensures forall c :: c in r <==> from <= c < s.next && TimedOut(s, c, now, timeout, clock)
    ensures forall i :: 0 <= i < |r| ==> from <= r[i] < s.next
    ensures forall i, j :: 0 <= i < j < |r| ==> r[i] < r[j]
    decreases s.next - from
  {
    if from >= s.next then []
    else if TimedOut(s, from, now, timeout, clock)
    then [from] + Expired(s, from + 1, now, timeout, clock)
    else Expired(s, from + 1, now, timeout, clock)
  }

  /** Append `lost` to the retransmit queue and flag it. */
  function Requeue(s: Stream, lost: seq<nat>): Stream {
    s.(queue := s.queue + lost,
       flags := seq(|s.flags|, c requires 0 <= c < |s.flags| => if c in lost then QUEUED else s.flags[c]))
  }

  lemma RequeueMore(s: Stream, lost: seq<nat>, c: nat)
    requires c < |s.flags| && c !in lost
    ensures Requeue(s, lost).flags[c] == s.flags[c]
    ensures Requeue(s, lost + [c]) ==
            Requeue(s, lost).(queue := Requeue(s, lost).queue + [c], flags := Requeue(s, lost).flags[c := QUEUED])
  {
    assert s.queue + (lost + [c]) == (s.queue + lost) + [c];
    assert Requeue(s, lost + [c]).flags == Requeue(s, lost).flags[c := QUEUED];
  }

  lemma RequeueNone(s: Stream)
    ensures Requeue(s, []) == s
  {
    assert s.queue + [] == s.queue;
    assert Requeue(s, []).flags == s.flags;
  }

  lemma ExpiredStep(s: Stream, done: seq<nat>, c: nat, now: nat, timeout: nat, clock: Clock)
    requires s.Valid() && s.StampedBy(now) && c < s.next
    ensures done + Expired(s, c, now, timeout, clock) ==
            (if TimedOut(s, c, now, timeout, clock) then done + [c] else done) + Expired(s, c + 1, now, timeout, clock)
  {
    var rest := Expired(s, c + 1, now, timeout, clock);
    assert done + ([c] + rest) == (done + [c]) + rest;
  }

  lemma RequeueValid(s: Stream, lost: seq<nat>)
    requires s.Valid()
    requires forall i :: 0 <= i < |lost| ==> lost[i] < s.Count() && lost[i] !in s.queue
    requires forall i, j :: 0 <= i < j < |lost| ==> lost[i] != lost[j]
    ensures Requeue(s, lost).Valid()
  {
    var r := Requeue(s, lost);
    forall i, j | 0 <= i < j < |r.queue| ensures r.queue[i] != r.queue[j] {
      if i < |s.queue| <= j { assert r.queue[j] == lost[j - |s.queue|]; }
    }
    forall c | 0 <= c < |r.flags| ensures r.flags[c].inRetx <==> c in r.queue {
      assert c in r.queue <==> c in s.queue || c in lost;
    }
  }

  /** The timeout scan over the whole sent range. */
  function Scan(s: Stream, now: nat, timeout: nat, clock: Clock): (r: (Stream, seq<nat>))
    requires s.Valid() && s.StampedBy(now)
    ensures r.0.Valid() && r.0 == s.(queue := r.0.queue, flags := r.0.flags)
  {
    var lost := Expired(s, 0, now, timeout, clock);
    assert forall i :: 0 <= i < |lost| ==> TimedOut(s, lost[i], now, timeout, clock) by {
      assert forall i :: 0 <= i < |lost| ==> lost[i] in lost;
    }
    RequeueValid(s, lost);
    (Requeue(s, lost), lost)
  }

  // ---------- NACKs ----------

  /** One NACKed chunk: queued at the front unless acked, queued, out of range or just sent. */
  predicate NackTakes(s: Stream, c: nat, now: nat, clock: Clock)
    requires s.Valid() && s.StampedBy(now)
  {
    c < s.Count() && !s.acked[c] && !s.flags[c].inRetx && clock.Age(now, s.sentAt[c]) >= RECENTLY_SENT_US
  }

  function NackOne(s: Stream, c: nat, now: nat, clock: Clock): (r: Stream)
    requires s.Valid() && s.StampedBy(now)
    ensures r.Valid() && r.StampedBy(now)
    ensures r == s.(queue := r.queue, flags := r.flags)
  {
    if NackTakes(s, c, now, clock)
    then
      var r := s.(queue := [c] + s.queue, flags := s.flags[c := QUEUED]);
      assert forall x :: x in r.queue <==> x == c || x in s.queue;
      r
    else s
  }

  function NackAll(s: Stream, order: seq<nat>, now: nat, clock: Clock): (r: (Stream, seq<nat>))
    requires s.Valid() && s.StampedBy(now)
    ensures r.0.Valid() && r.0.StampedBy(now)
    ensures r.0 == s.(queue := r.0.queue, flags := r.0.flags)
    decreases |order|
  {
    if order == [] then (s, [])
    else
      var s' := NackOne(s, order[0], now, clock);
      var (t, lost) := NackAll(s', order[1..], now, clock);
      (t, (if NackTakes(s, order[0], now, clock) then [order[0]] else []) + lost)
  }

  lemma {:induction false} NackConcat(s: Stream, a: seq<nat>, b: seq<nat>, now: nat, clock: Clock)
    requires s.Valid() && s.StampedBy(now)
    ensures var (t, l) := NackAll(s, a, now, clock); var (u, m) := NackAll(t, b, now, clock);
            NackAll(s, a + b, now, clock) == (u, l + m)
    decreases |a|
  {
    hide NackOne, NackTakes, Stream.Valid;
    if a == [] {
      assert a + b == b;
      assert [] + NackAll(s, b, now, clock).1 == NackAll(s, b, now, clock).1;
    } else {
      assert (a + b)[1..] == a[1..] + b;
      var s' := NackOne(s, a[0], now, clock);
      NackConcat(s', a[1..], b, now, clock);
      var first := if NackTakes(s, a[0], now, clock) then [a[0]] else [];
      var (t, l) := NackAll(s', a[1..], now, clock);
      var (u, m) := NackAll(t, b, now, clock);
      assert first + (l + m) == (first + l) + m;
    }
  }

  lemma NackSingle(s: Stream, c: nat, now: nat, clock: Clock)
    requires s.Valid() && s.StampedBy(now)
    ensures NackAll(s, [c], now, clock) ==
            (NackOne(s, c, now, clock), if NackTakes(s, c, now, clock) then [c] else [])
  {
    var rest := NackAll(NackOne(s, c, now, clock), [c][1..], now, clock);
    assert rest == (NackOne(s, c, now, clock), []);
    assert [c] + rest.1 == [c] && [] + rest.1 == [];
  }

  /** The chunks of this stream inside the closed packet-number ranges, range by range. */
  function NackOrder(base: nat, count: nat, ranges: seq<(u64, u64)>): seq<nat> {
    if ranges == [] then []
    else Range(Max(ranges[0].0, base) - base, Min(ranges[0].1 as int + 1, base + count) - base)
         + NackOrder(base, count, ranges[1..])
  }

  function ApplyNack(s: Stream, ranges: seq<(u64, u64)>, now: nat, clock: Clock): (r: (Stream, seq<nat>))
    requires s.Valid() && s.StampedBy(now)
    ensures r.0.Valid() && r.0.StampedBy(now)
    ensures r.0 == s.(queue := r.0.queue, flags := r.0.flags)
  {
    NackAll(s, NackOrder(s.base, s.Count(), ranges), now, clock)
  }

  // ---------- the chunk picker ----------

  /** Drop the head of the queue and clear its queued flag. */
  function PopQueue(s: Stream): (r: Stream)
    requires s.Valid() && s.queue != []
    ensures r.Valid() && r == s.(queue := s.queue[1..], flags := r.flags)
    ensures r.flags[s.queue[0]].retransmitted
    ensures forall c :: 0 <= c < |s.flags| && c != s.queue[0] ==> r.flags[c] == s.flags[c]
  {
    var c := s.queue[0];
    var r := s.(queue := s.queue[1..], flags := s.flags[c := s.flags[c].(inRetx := false)]);
    assert forall x :: x in s.queue <==> x == c || x in r.queue;
    assert c in s.queue;
    r
  }

  function Pick(s: Stream): (r: (Stream, Option<nat>))
    requires s.Valid()
    ensures r.0.Valid()
    ensures r.0 == s.(next := r.0.next, flags := r.0.flags, queue := r.0.queue)
    ensures r.1.Some? ==> r.1.value < s.Count() && !s.acked[r.1.value]
    decreases |s.queue| + (s.Count() - s.next)
  {
    if s.queue != [] then
      var s' := PopQueue(s);
      if s.acked[s.queue[0]] then Pick(s') else (s', Some(s.queue[0]))
    else if s.next < s.Count() then
      var s' := s.(next := s.next + 1);
      if s.acked[s.next] then Pick(s') else (s', Some(s.next))
    else (s, None)
  }

  /** Pick a chunk and stamp it with the send time. */
  function Send(s: Stream, now: nat): (r: (Stream, Option<nat>))
    requires s.Valid() && s.StampedBy(now)
    ensures r.0.Valid() && r.0.StampedBy(now)
    ensures r.0.base == s.base && r.0.acked == s.acked
    ensures r.1.Some? ==> r.1.value < s.Count() && !s.acked[r.1.value]
  {
    var (s', c) := Pick(s);
    match c
    case None => (s', None)
    case Some(c) => (s'.(sentAt := s'.sentAt[c := now]), Some(c))
  }
}
