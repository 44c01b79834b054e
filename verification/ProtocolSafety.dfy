/** Safety over all runs: nothing is counted as delivered that was not, every RTT sample obeys
    Karn's rule, and a finished transfer has reproduced the file. */
module ProtocolSafety {
  import opened Words
  import opened StreamSpec
  import opened Receiver
  import opened Protocol

  // ---------- what holds of one stream in every reachable state ----------

  ghost predicate AckedIsHeld(st: Stream, received: seq<bool>) {
    |received| == st.Count() && forall c :: 0 <= c < |received| && st.acked[c] ==> received[c]
  }

  ghost predicate HeldIsWritten(s: Sys, base: nat, received: seq<bool>) {
    forall c :: 0 <= c < |received| && received[c] ==> Agrees(s.file, s.out, s.payload, base + c)
  }

  /** Every ACK still in the network reports only chunks that are held. */
  ghost predicate AcksAreHonest(acks: set<(nat, Ack)>, sid: nat, base: nat, received: seq<bool>)
    requires base + |received| < U64
  {
    forall ack, c :: (sid, ack) in acks && 0 <= c < |received| && Reported(base, |received|, ack, c) ==> received[c]
  }

  /** A chunk held but not acked was sent, unless the daemon held it from the start. */
  ghost predicate HeldWasSent(sends: seq<nat>, st: Stream, received: seq<bool>, extra: set<(nat, nat)>, sid: nat) {
    && |received| == |sends| == st.Count()
    && forall c :: 0 <= c < |received| && received[c] && !st.acked[c] ==> sends[c] >= 1 || (sid, c) in extra
  }

  ghost predicate DataWasSent(data: set<(nat, nat)>, sid: nat, sends: seq<nat>) {
    forall c :: (sid, c) in data ==> c < |sends| && sends[c] >= 1
  }

  /** A chunk not flagged as retransmitted has left at most once, and not before its turn. */
  ghost predicate UnflaggedSentOnce(st: Stream, sends: seq<nat>) {
    && |sends| == |st.flags|
    && forall c :: 0 <= c < |sends| && !st.flags[c].retransmitted ==> sends[c] <= if c < st.next then 1 else 0
  }

  ghost predicate Safe(s: Sys, sid: nat)
    requires Shaped(s) && sid < |s.streams|
  {
    assert ShapedStream(s, sid);
    && AckedIsHeld(s.streams[sid], s.received[sid])
    && HeldIsWritten(s, s.streams[sid].base, s.received[sid])
    && AcksAreHonest(s.acks, sid, s.streams[sid].base, s.received[sid])
    && HeldWasSent(s.sends[sid], s.streams[sid], s.received[sid], s.extra, sid)
    && DataWasSent(s.data, sid, s.sends[sid])
    && UnflaggedSentOnce(s.streams[sid], s.sends[sid])
  }

  /** Section 3 of RFC 6298: a sample comes from a chunk sent exactly once, and it is the
      chunk's age, floored at one microsecond, as read by the 32-bit clock. Of a chunk the daemon held from
      the start only that it was not sent twice. */
  ghost predicate KarnHolds(samples: set<Sample>, extra: set<(nat, nat)>) {
    forall x :: x in samples ==>
      x.sends <= 1 && (x.sends == 1 || (x.sid, x.c) in extra) && x.rtt == Max(x.age % U32, 1)
  }

  ghost predicate Inv(s: Sys) {
    && Shaped(s) && KarnHolds(s.samples, s.extra)
    && forall sid :: 0 <= sid < |s.streams| ==> Safe(s, sid)
  }

  // ---------- the picker's effect on flags and cursor ----------

  lemma {:induction false} PickFacts(s: Stream)
    requires s.Valid()
    ensures var (t, picked) := Pick(s);
      && s.next <= t.next
      && (forall c :: 0 <= c < s.Count() ==> t.flags[c].retransmitted == s.flags[c].retransmitted)
      && (picked.Some? ==> s.flags[picked.value].retransmitted || s.next <= picked.value < t.next)
    decreases |s.queue| + (s.Count() - s.next)
  {
    if s.queue != [] {
      assert s.queue[0] in s.queue;
      if s.acked[s.queue[0]] { PickFacts(PopQueue(s)); }
    } else if s.next < s.Count() && s.acked[s.next] {
      PickFacts(s.(next := s.next + 1));
    }
  }

  lemma SendFacts(s: Stream, now: nat)
    requires s.Valid() && s.StampedBy(now)
    ensures var (t, picked) := Send(s, now);
      && s.next <= t.next && |t.flags| == |s.flags| == s.Count()
      && (forall c :: 0 <= c < s.Count() ==> t.flags[c].retransmitted == s.flags[c].retransmitted)
      && (picked.Some? ==> s.flags[picked.value].retransmitted || s.next <= picked.value < t.next)
  {
    PickFacts(s);
  }

  lemma {:induction false} NackKeepsFlags(s: Stream, order: seq<nat>, now: nat, clock: Clock)
    requires s.Valid() && s.StampedBy(now)
    ensures var t := NackAll(s, order, now, clock).0;
      forall c :: 0 <= c < s.Count() && s.flags[c].retransmitted ==> t.flags[c].retransmitted
    decreases |order|
  {
    if order != [] { NackKeepsFlags(NackOne(s, order[0], now, clock), order[1..], now, clock); }
  }

  /** Writing one chunk of the file makes the output agree there and spoils no other chunk. */
  lemma WriteAgrees(file: seq<u8>, out: seq<u8>, payload: nat, g: nat, h: nat)
    requires |out| == |file| && payload > 0 && g < TotalChunks(|file|, payload)
    requires ChunkStart(payload, g) <= ChunkEnd(|file|, payload, g) <= |file|
    requires h == g || Agrees(file, out, payload, h)
    ensures var from, end := ChunkStart(payload, g), ChunkEnd(|file|, payload, g);
            Agrees(file, Write(out, from, file[from..end]), payload, h)
  {}

  // ---------- preservation, event by event ----------

  /** A stream that an event does not touch stays safe while the network fills up. */
  lemma UntouchedKeeps(s: Sys, r: Sys, i: nat)
    requires Shaped(s) && Shaped(r) && i < |s.streams| && Safe(s, i)
    requires |r.streams| == |s.streams| && r.file == s.file && r.payload == s.payload && r.out == s.out
    requires r.streams[i] == s.streams[i] && r.received[i] == s.received[i] && r.sends[i] == s.sends[i]
    requires r.extra == s.extra && r.acks == s.acks
    requires s.data <= r.data && forall c :: (i, c) in r.data ==> (i, c) in s.data
    ensures Safe(r, i)
  {
    hide Stream.Valid, Agrees, Reported;
    assert ShapedStream(s, i);
  }

  lemma SendKeepsOne(s: Sys, sid: nat, dt: nat)
    requires Inv(s) && sid < |s.streams|
    requires Shaped(StepSend(s, sid, dt))
    ensures Safe(StepSend(s, sid, dt), sid)
  {
    hide UnflaggedSentOnce, DataWasSent, HeldWasSent, Agrees, AcksAreHonest, Stream.Valid, Send;
    assert ShapedStream(s, sid) && Safe(s, sid);
    var st := s.streams[sid];
    SendFacts(st, s.clock + dt);
    var (t, picked) := Send(st, s.clock + dt);
    SendKeepsSends(st, t, picked, s.sends[sid], s.received[sid], s.extra, s.data, sid);
  }

  lemma SendKeepsSends(st: Stream, t: Stream, picked: Option<nat>, sends: seq<nat>, received: seq<bool>,
                       extra: set<(nat, nat)>, data: set<(nat, nat)>, sid: nat)
    requires t.acked == st.acked && |t.flags| == |st.flags| && st.next <= t.next
    requires forall c :: 0 <= c < |st.flags| ==> t.flags[c].retransmitted == st.flags[c].retransmitted
    requires HeldWasSent(sends, st, received, extra, sid)
    requires DataWasSent(data, sid, sends) && UnflaggedSentOnce(st, sends)
    requires picked.Some? ==>
      picked.value < |sends| && (st.flags[picked.value].retransmitted || st.next <= picked.value < t.next)
    ensures var more := if picked.Some? then Increment(sends, picked.value) else sends;
            var sent := if picked.Some? then data + {(sid, picked.value)} else data;
      HeldWasSent(more, t, received, extra, sid) && DataWasSent(sent, sid, more) && UnflaggedSentOnce(t, more)
  {}

  lemma SendKeeps(s: Sys, sid: nat, dt: nat)
    requires Inv(s) && sid < |s.streams|
    requires Shaped(StepSend(s, sid, dt))
    ensures Inv(StepSend(s, sid, dt))
  {
    hide Safe;
    SendKeepsOne(s, sid, dt);
    var r := StepSend(s, sid, dt);
    forall i | 0 <= i < |s.streams| && i != sid ensures Safe(r, i) {
      UntouchedKeeps(s, r, i);
    }
  }

  lemma DeliverKeeps(s: Sys, sid: nat, c: nat)
    requires Inv(s) && (sid, c) in s.data
    requires Shaped(StepDeliver(s, sid, c))
    ensures Inv(StepDeliver(s, sid, c))
  {
    hide Stream.Valid, Agrees, Reported, Write, TotalChunks;
    var r := StepDeliver(s, sid, c);
    if sid < |s.streams| && c < |s.received[sid]| && !s.received[sid][c] {
      assert ShapedStream(s, sid);
      var g := s.streams[sid].base + c;
      ChunkInFile(|s.file|, s.payload, g);
      WriteAgrees(s.file, s.out, s.payload, g, g);
      forall i | 0 <= i < |s.streams| ensures Safe(r, i) {
        assert Safe(s, i);
        forall x | 0 <= x < |s.received[i]| && s.received[i][x]
          ensures Agrees(r.file, r.out, r.payload, s.streams[i].base + x)
        {
          WriteAgrees(s.file, s.out, s.payload, g, s.streams[i].base + x);
        }
      }
    }
  }

  lemma EmitKeeps(s: Sys, sid: nat)
    requires Inv(s) && sid < |s.streams|
    requires Shaped(StepEmit(s, sid))
    ensures Inv(StepEmit(s, sid))
  {
    var r := StepEmit(s, sid);
    forall i | 0 <= i < |s.streams| ensures s.streams[i].base + |s.received[i]| < U64 { assert ShapedStream(s, i); }
    hide Stream.Valid, Agrees, Reported, AckFor;
    forall i | 0 <= i < |s.streams| ensures Safe(r, i) {
      assert Safe(s, i);
      forall ack, c | (i, ack) in r.acks && 0 <= c < |r.received[i]| && Reported(r.streams[i].base, |r.received[i]|, ack, c)
        ensures r.received[i][c]
      {
        if (i, ack) !in s.acks { AckReportsReceived(s.streams[sid].base, s.received[sid], c); }
      }
    }
  }

  lemma AckKeeps(s: Sys, sid: nat, ack: Ack, dt: nat)
    requires Inv(s) && sid < |s.streams| && (sid, ack) in s.acks
    requires Shaped(StepAck(s, sid, ack, dt, Wrapping))
    ensures Inv(StepAck(s, sid, ack, dt, Wrapping))
  {
    hide Stream.Valid, Agrees, Reported;
    var r := StepAck(s, sid, ack, dt, Wrapping);
    assert ShapedStream(s, sid) && Safe(s, sid);
    forall i | 0 <= i < |s.streams| ensures Safe(r, i) {
      assert Safe(s, i);
    }
    forall x | x in r.samples
      ensures x.sends <= 1 && (x.sends == 1 || (x.sid, x.c) in s.extra) && x.rtt == Max(x.age % U32, 1)
    {
      if x !in s.samples {
        assert s.received[sid][x.c];
      }
    }
  }

  lemma NackKeeps(s: Sys, sid: nat, ranges: seq<(u64, u64)>, dt: nat, clock: Clock)
    requires Inv(s) && sid < |s.streams|
    requires Shaped(StepNack(s, sid, ranges, dt, clock))
    ensures Inv(StepNack(s, sid, ranges, dt, clock))
  {
    var r := StepNack(s, sid, ranges, dt, clock);
    hide Safe;
    NackKeepsOne(s, sid, ranges, dt, clock);
    forall i | 0 <= i < |s.streams| && i != sid ensures Safe(r, i) {
      UntouchedKeeps(s, r, i);
    }
  }

  lemma NackKeepsOne(s: Sys, sid: nat, ranges: seq<(u64, u64)>, dt: nat, clock: Clock)
    requires Inv(s) && sid < |s.streams|
    requires Shaped(StepNack(s, sid, ranges, dt, clock))
    ensures Safe(StepNack(s, sid, ranges, dt, clock), sid)
  {
    var r := StepNack(s, sid, ranges, dt, clock);
    assert ShapedStream(s, sid) && ShapedStream(r, sid) && Safe(s, sid);
    assert |s.streams[sid].flags| == |r.streams[sid].flags| == s.streams[sid].Count();
    hide Stream.Valid, Agrees, Reported, NackAll, NackOrder;
    NackKeepsFlags(s.streams[sid], NackOrder(s.streams[sid].base, s.streams[sid].Count(), ranges), s.clock + dt, clock);
  }

  lemma ScanKeeps(s: Sys, timeout: nat, dt: nat, clock: Clock)
    requires Inv(s)
    requires Shaped(StepScan(s, timeout, dt, clock))
    ensures Inv(StepScan(s, timeout, dt, clock))
  {
    hide Stream.Valid, Agrees, Reported, Expired;
    var r := StepScan(s, timeout, dt, clock);
    forall i | 0 <= i < |s.streams| ensures Safe(r, i) {
      assert ShapedStream(s, i) && Safe(s, i);
    }
  }

  lemma LoseKeeps(s: Sys)
    requires Inv(s) && Shaped(s.(data := {}, acks := {}))
    ensures Inv(s.(data := {}, acks := {}))
  {
    hide Stream.Valid, Agrees, Reported;
    forall i | 0 <= i < |s.streams| ensures Safe(s.(data := {}, acks := {}), i) {
      assert ShapedStream(s, i) && Safe(s, i);
    }
  }

  lemma StepKeeps(s: Sys, e: Event)
    requires Inv(s)
    ensures Inv(Step(s, e, Wrapping))
  {
    hide Safe, StepSend, StepDeliver, StepEmit, StepAck, StepNack, StepScan;
    StepShaped(s, e, Wrapping);
    match e
    case SendChunk(sid, dt) => if sid < |s.streams| { SendKeeps(s, sid, dt); }
    case DeliverData(sid, c) => if (sid, c) in s.data { DeliverKeeps(s, sid, c); }
    case EmitAck(sid) => if sid < |s.streams| { EmitKeeps(s, sid); }
    case DeliverAck(sid, ack, dt) => if sid < |s.streams| && (sid, ack) in s.acks { AckKeeps(s, sid, ack, dt); }
    case DeliverNack(sid, ranges, dt) => if sid < |s.streams| { NackKeeps(s, sid, ranges, dt, Wrapping); }
    case TimeoutScan(timeout, dt) => ScanKeeps(s, timeout, dt, Wrapping);
    case LoseAll => LoseKeeps(s);
  }

  /** Every reachable state is safe. */
  lemma {:induction false} RunKeeps(s: Sys, es: seq<Event>)
    requires Inv(s)
    ensures Inv(Run(s, es, Wrapping))
    decreases |es|
  {
    if es != [] {
      StepKeeps(s, es[0]);
      RunKeeps(Step(s, es[0], Wrapping), es[1..]);
    }
  }

  // ---------- the division into streams ----------

  /** The streams own consecutive ranges that cover chunks 0 to total - 1. */
  ghost predicate Tiled(streams: seq<Stream>, total: nat)
    decreases |streams|
  {
    if streams == [] then total == 0
    else
      var last := streams[|streams| - 1];
      last.base + last.Count() == total && Tiled(streams[..|streams| - 1], last.base)
  }

  lemma {:induction false} OwnerOf(streams: seq<Stream>, total: nat, g: nat) returns (sid: nat)
    requires Tiled(streams, total) && g < total
    ensures sid < |streams| && streams[sid].base <= g < streams[sid].base + streams[sid].Count()
    decreases |streams|
  {
    var last := |streams| - 1;
    if streams[last].base <= g { return last; }
    assert forall i :: 0 <= i < last ==> streams[..last][i] == streams[i];
    sid := OwnerOf(streams[..last], streams[last].base, g);
  }

  function SumAcked(streams: seq<Stream>): nat {
    if streams == [] then 0 else SumAcked(streams[..|streams| - 1]) + CountTrue(streams[|streams| - 1].acked)
  }

  /** The acked counters add up to the chunk count only when every chunk is acked. */
  lemma {:induction false} SumAckedFull(streams: seq<Stream>, total: nat)
    requires Tiled(streams, total)
    ensures SumAcked(streams) <= total
    ensures SumAcked(streams) == total <==>
            forall i, c :: 0 <= i < |streams| && 0 <= c < streams[i].Count() ==> streams[i].acked[c]
    decreases |streams|
  {
    if streams != [] {
      var last := |streams| - 1;
      SumAckedFull(streams[..last], streams[last].base);
      CountTrueFull(streams[last].acked);
      assert forall i :: 0 <= i < last ==> streams[..last][i] == streams[i];
    }
  }

  // ---------- the main results ----------

  /** The start of a transfer: the daemon holds what the sender has marked (a resumed file's chunks, or runs
      of zeros) and maybe more, the output already holds all that, and nothing has been sent. */
  ghost predicate Init(s: Sys) {
    && Shaped(s) && Tiled(s.streams, TotalChunks(|s.file|, s.payload))
    && s.data == {} && s.acks == {} && s.samples == {}
    && forall sid :: 0 <= sid < |s.streams| ==> Unsent(s, sid)
  }

  ghost predicate Unsent(s: Sys, sid: nat)
    requires Shaped(s) && sid < |s.streams|
  {
    && AckedIsHeld(s.streams[sid], s.received[sid])
    && (forall c :: 0 <= c < |s.received[sid]| && s.received[sid][c] && !s.streams[sid].acked[c] ==>
          (sid, c) in s.extra)
    && HeldIsWritten(s, s.streams[sid].base, s.received[sid])
    && (forall c :: 0 <= c < |s.sends[sid]| ==> s.sends[sid][c] == 0)
  }

  lemma InitSafe(s: Sys)
    requires Init(s)
    ensures Inv(s)
  {
    hide Agrees, Reported;
    forall sid | 0 <= sid < |s.streams| ensures Safe(s, sid) {
      assert ShapedStream(s, sid) && Unsent(s, sid);
    }
  }

  lemma {:induction false} RunKeepsFile(s: Sys, es: seq<Event>, clock: Clock)
    requires Shaped(s)
    ensures SameFile(s, Run(s, es, clock))
    decreases |es|
  {
    hide Stream.Valid, Step;
    if es != [] {
      StepShaped(s, es[0], clock);
      RunKeepsFile(Step(s, es[0], clock), es[1..], clock);
    }
  }

  lemma {:induction false} RunConcat(s: Sys, a: seq<Event>, b: seq<Event>)
    requires Shaped(s)
    ensures Run(s, a + b, Wrapping) == Run(Run(s, a, Wrapping), b, Wrapping)
    decreases |a|
  {
    hide Step, Shaped;
    if a == [] {
      assert a + b == b;
    } else {
      StepShaped(s, a[0], Wrapping);
      assert (a + b)[1..] == a[1..] + b;
      RunConcat(Step(s, a[0], Wrapping), a[1..], b);
    }
  }

  /** The transfer loop's exit test. */
  ghost predicate Finished(s: Sys)
    requires s.payload > 0
  {
    SumAcked(s.streams) >= TotalChunks(|s.file|, s.payload)
  }

  /** In every run from the start, a chunk counts as acked only if the daemon holds it and has
      written its bytes, and no RTT sample is of a chunk sent twice. */
  lemma RunIsSafe(s: Sys, es: seq<Event>)
    requires Init(s)
    ensures Inv(Run(s, es, Wrapping))
  {
    InitSafe(s);
    RunKeeps(s, es);
  }

  lemma {:induction false} RunKeepsExtra(s: Sys, es: seq<Event>, clock: Clock)
    requires Shaped(s)
    ensures Run(s, es, clock).extra == s.extra
    decreases |es|
  {
    hide Stream.Valid;
    if es != [] {
      StepShaped(s, es[0], clock);
      RunKeepsExtra(Step(s, es[0], clock), es[1..], clock);
    }
  }

  /** When both ends start with the same chunks marked, every RTT sample of every run is of a chunk sent
      exactly once. */
  lemma SamplesAreUnambiguous(s: Sys, es: seq<Event>, x: Sample)
    requires Init(s) && s.extra == {} && x in Run(s, es, Wrapping).samples
    ensures x.sends == 1 && x.rtt == Max(x.age % U32, 1)
  {
    hide Step, Safe;
    RunIsSafe(s, es);
    RunKeepsExtra(s, es, Wrapping);
  }

  /** It takes the same marks: one ACK of a chunk that only the daemon had marked gives a sample of a chunk
      never sent. */
  lemma ExtraChunkIsSampled(s: Sys, sid: nat, c: nat)
    requires Init(s) && sid < |s.streams| && c < s.streams[sid].Count() && ShapedStream(s, sid)
    requires s.received[sid][c] && !s.streams[sid].acked[c] && !s.streams[sid].flags[c].retransmitted
    requires c < Contig(s.received[sid]) + 8 * MAX_ACK_BITMAP_BYTES
    ensures var ack := AckFor(s.streams[sid].base, s.received[sid]);
      exists x :: x in Run(s, [EmitAck(sid), DeliverAck(sid, ack, 0)], Wrapping).samples && x.sends == 0
  {
    assert s.streams[sid].base + |s.received[sid]| < U64;
    hide AckFor, Reported, ContigFrom, HeldIsWritten, Tiled, Step, Stream.Valid, StepAck, StepEmit;
    assert Unsent(s, sid);
    var ack := AckFor(s.streams[sid].base, s.received[sid]);
    RunTwo(s, EmitAck(sid), DeliverAck(sid, ack, 0));
    EmitThenAck(s, sid, ack);
    EmittedAckSamples(s, sid, ack, c);
  }

  lemma RunTwo(s: Sys, e: Event, f: Event)
    requires Shaped(s)
    ensures Shaped(Step(s, e, Wrapping)) && Run(s, [e, f], Wrapping) == Step(Step(s, e, Wrapping), f, Wrapping)
  {
    hide Step, Shaped;
    StepShaped(s, e, Wrapping);
    StepShaped(Step(s, e, Wrapping), f, Wrapping);
    var t := Step(s, e, Wrapping);
    assert [e, f][1..] == [f] && [f][1..] == [];
    assert Run(t, [f], Wrapping) == Run(Step(t, f, Wrapping), [], Wrapping);
  }

  lemma EmitThenAck(s: Sys, sid: nat, ack: Ack)
    requires Shaped(s) && sid < |s.streams| && ShapedStream(s, sid)
    requires ack == AckFor(s.streams[sid].base, s.received[sid])
    requires Shaped(Step(s, EmitAck(sid), Wrapping))
    ensures Step(s, EmitAck(sid), Wrapping) == StepEmit(s, sid)
    ensures var t := StepEmit(s, sid);
      Step(t, DeliverAck(sid, ack, 0), Wrapping) == StepAck(t, sid, ack, 0, Wrapping)
  {}

  lemma EmittedAckSamples(s: Sys, sid: nat, ack: Ack, c: nat)
    requires Shaped(s) && sid < |s.streams| && c < s.streams[sid].Count() && ShapedStream(s, sid)
    requires ack == AckFor(s.streams[sid].base, s.received[sid])
    requires s.received[sid][c] && !s.streams[sid].acked[c] && !s.streams[sid].flags[c].retransmitted
    requires c < Contig(s.received[sid]) + 8 * MAX_ACK_BITMAP_BYTES && Shaped(StepEmit(s, sid))
    ensures (sid, ack) in StepEmit(s, sid).acks
    ensures exists x :: x in StepAck(StepEmit(s, sid), sid, ack, 0, Wrapping).samples && x.sends == s.sends[sid][c]
  {
    AckReportsReceived(s.streams[sid].base, s.received[sid], c);
    hide AckFor, Reported, ContigFrom, TotalChunks, Stream.Valid;
    var t := StepEmit(s, sid);
    assert ShapedStream(t, sid);
    assert SampleOf(t, sid, c, t.clock, Wrapping) in StepAck(t, sid, ack, 0, Wrapping).samples;
  }

  /** When the transfer loop exits, the daemon's output is the file, byte for byte. */
  lemma FinishedMeansDelivered(s: Sys, es: seq<Event>)
    requires Init(s) && Finished(Run(s, es, Wrapping))
    ensures Run(s, es, Wrapping).out == s.file
  {
    hide Step, TotalChunks, CountTrue, SumAcked, ChunkStart, ChunkEnd;
    var r := Run(s, es, Wrapping);
    RunIsSafe(s, es);
    RunKeepsFile(s, es, Wrapping);
    var total := TotalChunks(|r.file|, r.payload);
    TiledSame(s.streams, r.streams, total);
    SumAckedFull(r.streams, total);
    forall p | 0 <= p < |r.file| ensures r.out[p] == r.file[p] {
      ByteInChunk(|r.file|, r.payload, p);
      var g := p / r.payload;
      var sid := OwnerOf(r.streams, total, g);
      assert Safe(r, sid);
      assert r.received[sid][g - r.streams[sid].base];
      assert Agrees(r.file, r.out, r.payload, g);
    }
  }

  lemma {:induction false} TiledSame(a: seq<Stream>, b: seq<Stream>, total: nat)
    requires |a| == |b| && Tiled(a, total)
    requires forall i :: 0 <= i < |a| ==> a[i].base == b[i].base && a[i].Count() == b[i].Count()
    ensures Tiled(b, total)
    decreases |a|
  {
    if a != [] { TiledSame(a[..|a| - 1], b[..|b| - 1], a[|a| - 1].base); }
  }
}
