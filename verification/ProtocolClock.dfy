/** The wrapping 32-bit send stamps decide every sample, timeout and NACK exactly as an
    unbounded clock would, in every run whose consulted ages stay below 2^32 microseconds. */
module ProtocolClock {
  import opened Words
  import opened StreamSpec
  import opened Receiver
  import opened Protocol

  /** The ages an event consults fit the 32-bit clock: those of the chunks it samples, of the
      outstanding chunks it scans, or of the outstanding chunks a NACK names. */
  ghost predicate AgesFit(s: Sys, e: Event)
    requires Shaped(s)
  {
    match e
    case DeliverAck(sid, ack, dt) =>
      sid < |s.streams| ==> (
        assert ShapedStream(s, sid);
        var st := s.streams[sid];
        forall c ::
          0 <= c < st.Count() && !st.acked[c] && !st.flags[c].retransmitted && Reported(st.base, st.Count(), ack, c)
          ==> s.clock + dt - st.sentAt[c] < U32)
    case DeliverNack(sid, ranges, dt) =>
      sid < |s.streams| ==>
        NackAgesFit(s.streams[sid], NackOrder(s.streams[sid].base, s.streams[sid].Count(), ranges), s.clock + dt)
    case TimeoutScan(_, dt) =>
      forall sid :: 0 <= sid < |s.streams| ==> ScanAgesFit(s.streams[sid], 0, s.clock + dt)
    case _ => true
  }

  ghost predicate NackAgesFit(st: Stream, order: seq<nat>, now: nat) {
    forall i :: 0 <= i < |order| ==> ChunkFits(st, order[i], now)
  }

  ghost predicate ScanAgesFit(st: Stream, from: nat, now: nat) {
    forall c :: from <= c < st.next ==> ChunkFits(st, c, now)
  }

  ghost predicate ChunkFits(st: Stream, c: nat, now: nat) {
    c < |st.acked| && |st.flags| == |st.sentAt| == |st.acked| && !st.acked[c] && !st.flags[c].inRetx ==>
      now - st.sentAt[c] < U32
  }

  ghost predicate AgesFitRun(s: Sys, es: seq<Event>)
    requires Shaped(s)
    decreases |es|
  {
    es == [] ||
    (AgesFit(s, es[0]) && (StepShaped(s, es[0], Wrapping); AgesFitRun(Step(s, es[0], Wrapping), es[1..])))
  }

  lemma {:induction false} ExpiredSame(st: Stream, from: nat, now: nat, timeout: nat)
    requires st.Valid() && st.StampedBy(now) && ScanAgesFit(st, from, now)
    ensures Expired(st, from, now, timeout, Wrapping) == Expired(st, from, now, timeout, Unbounded)
    decreases st.next - from
  {
    if from < st.next {
      assert ChunkFits(st, from, now);
      ExpiredSame(st, from + 1, now, timeout);
    }
  }

  lemma {:induction false} NackSame(st: Stream, order: seq<nat>, now: nat)
    requires st.Valid() && st.StampedBy(now) && NackAgesFit(st, order, now)
    ensures NackAll(st, order, now, Wrapping) == NackAll(st, order, now, Unbounded)
    decreases |order|
  {
    if order != [] {
      assert ChunkFits(st, order[0], now);
      var next := NackOne(st, order[0], now, Wrapping);
      assert next == NackOne(st, order[0], now, Unbounded);
      forall i | 0 <= i < |order[1..]| ensures ChunkFits(next, order[1..][i], now) {
        assert ChunkFits(st, order[i + 1], now);
      }
      NackSame(next, order[1..], now);
    }
  }

  lemma AckSame(s: Sys, sid: nat, ack: Ack, dt: nat)
    requires Shaped(s) && sid < |s.streams| && AgesFit(s, DeliverAck(sid, ack, dt))
    ensures StepAck(s, sid, ack, dt, Wrapping) == StepAck(s, sid, ack, dt, Unbounded)
    ensures forall x :: x in StepAck(s, sid, ack, dt, Wrapping).samples - s.samples ==> x.rtt == Max(x.age, 1)
  {
    assert ShapedStream(s, sid);
    var st := s.streams[sid];
    assert |st.flags| == |st.sentAt| == st.Count();
    hide Stream.Valid, Reported;
    var now := s.clock + dt;
    var st' := ApplyAck(st, ack);
    forall c: nat | c < st.Count() && !st.acked[c] && st'.acked[c] && !st.flags[c].retransmitted
      ensures SampleOf(s, sid, c, now, Wrapping) == SampleOf(s, sid, c, now, Unbounded)
      ensures SampleOf(s, sid, c, now, Wrapping).rtt == Max(SampleOf(s, sid, c, now, Wrapping).age, 1)
    {}
  }

  lemma ScanSame(s: Sys, timeout: u32, dt: nat)
    requires Shaped(s) && AgesFit(s, TimeoutScan(timeout, dt))
    ensures StepScan(s, timeout, dt, Wrapping) == StepScan(s, timeout, dt, Unbounded)
  {
    var a, b := StepScan(s, timeout, dt, Wrapping), StepScan(s, timeout, dt, Unbounded);
    forall sid | 0 <= sid < |s.streams| ensures a.streams[sid] == b.streams[sid] {
      assert ShapedStream(s, sid);
      ExpiredSame(s.streams[sid], 0, s.clock + dt, timeout);
    }
  }

  lemma StepSame(s: Sys, e: Event)
    requires Shaped(s) && AgesFit(s, e)
    ensures Step(s, e, Wrapping) == Step(s, e, Unbounded)
    ensures forall x :: x in Step(s, e, Wrapping).samples - s.samples ==> x.rtt == Max(x.age, 1)
  {
    hide StepAck, StepScan, Stream.Valid, NackAll, NackOrder, ScanAgesFit, Send;
    match e
    case DeliverAck(sid, ack, dt) => if sid < |s.streams| { AckSame(s, sid, ack, dt); }
    case DeliverNack(sid, ranges, dt) =>
      if sid < |s.streams| {
        assert ShapedStream(s, sid);
        NackSame(s.streams[sid], NackOrder(s.streams[sid].base, s.streams[sid].Count(), ranges), s.clock + dt);
      }
    case TimeoutScan(timeout, dt) =>
      ScanSame(s, timeout, dt);
      ScanKeepsSamples(s, timeout, dt);
    case _ =>
  }

  lemma ScanKeepsSamples(s: Sys, timeout: nat, dt: nat)
    requires Shaped(s)
    ensures StepScan(s, timeout, dt, Wrapping).samples == s.samples
  {}

  /** Over a whole run: same states, hence the same acks, queues, flags, losses and samples;
      and each sample is the chunk's true age, at least one microsecond. */
  lemma {:induction false} StampsActUnbounded(s: Sys, es: seq<Event>)
    requires Shaped(s) && AgesFitRun(s, es)
    ensures Run(s, es, Wrapping) == Run(s, es, Unbounded)
    ensures forall x :: x in Run(s, es, Wrapping).samples - s.samples ==> x.rtt == Max(x.age, 1)
    decreases |es|
  {
    hide Step, AgesFit, Stream.Valid;
    if es != [] {
      StepSame(s, es[0]);
      StepShaped(s, es[0], Wrapping);
      StampsActUnbounded(Step(s, es[0], Wrapping), es[1..]);
    }
  }
}
