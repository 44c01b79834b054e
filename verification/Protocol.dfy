/** The whole transfer as a step system: the sender's streams, the daemon's received marks and
    output file, and a network. A packet in the network may be delivered any number of times in
    any order, or never; everything in it may be lost at once; and any NACK at all may arrive.
    A run is any sequence of events. */
module Protocol {
  import opened Words
  import opened StreamSpec
  import opened Receiver

  /** An RTT sample as produced, with the chunk's true age and number of sends at that time. */
  datatype Sample = Sample(sid: nat, c: nat, rtt: nat, age: nat, sends: nat)

  /** The two ends and the network; `extra` are the chunks the daemon held at the start beyond the sender's marks. */
  datatype Sys = Sys(
    file: seq<u8>, payload: nat, streams: seq<Stream>, sends: seq<seq<nat>>, clock: nat, samples: set<Sample>,
    received: seq<seq<bool>>, out: seq<u8>, data: set<(nat, nat)>, acks: set<(nat, Ack)>, extra: set<(nat, nat)>)

  /** `dt` is how far the sender's microsecond clock has moved since the previous event. */
  datatype Event =
    | SendChunk(sid: nat, dt: nat)
    | DeliverData(sid: nat, c: nat)
    | EmitAck(sid: nat)
    | DeliverAck(sid: nat, ack: Ack, dt: nat)
    | DeliverNack(sid: nat, ranges: seq<(u64, u64)>, dt: nat)
    | TimeoutScan(timeout: u32, dt: nat)
    | LoseAll

  // ---------- chunks of the file ----------

  function TotalChunks(len: nat, payload: nat): nat
    requires payload > 0
  {
    (len + payload - 1) / payload
  }

  function ChunkStart(payload: nat, g: nat): nat { g * payload }

  function ChunkEnd(len: nat, payload: nat, g: nat): nat { Min(g * payload + payload, len) }

  lemma ChunkInFile(len: nat, payload: nat, g: nat)
    requires payload > 0 && g < TotalChunks(len, payload)
    ensures ChunkStart(payload, g) < ChunkEnd(len, payload, g) <= len
  {
    var t := TotalChunks(len, payload);
    assert t * payload <= len + payload - 1;
    MulMono(g + 1, t, payload);
    assert (g + 1) * payload == g * payload + payload;
  }

  /** The byte p lies in chunk p / payload and in no other. */
  lemma ByteInChunk(len: nat, payload: nat, p: nat)
    requires payload > 0 && p < len
    ensures p / payload < TotalChunks(len, payload)
    ensures ChunkStart(payload, p / payload) <= p < ChunkEnd(len, payload, p / payload)
  {
    var g, t := p / payload, TotalChunks(len, payload);
    assert p == g * payload + p % payload;
    assert len + payload - 1 < t * payload + payload;
    if g >= t {
      MulMono(t, g, payload);
      assert false;
    }
  }

  /** The output agrees with the file on chunk g. */
  predicate Agrees(file: seq<u8>, out: seq<u8>, payload: nat, g: nat) {
    |out| == |file| && forall p :: ChunkStart(payload, g) <= p < ChunkEnd(|file|, payload, g) ==> out[p] == file[p]
  }

  /** `write_chunk`: copy `bytes` into the output at `at`. */
  function Write(out: seq<u8>, at: nat, bytes: seq<u8>): (r: seq<u8>)
    requires at + |bytes| <= |out|
    ensures |r| == |out|
    ensures forall p :: 0 <= p < |out| ==> r[p] == if at <= p < at + |bytes| then bytes[p - at] else out[p]
  {
    out[..at] + bytes + out[at + |bytes|..]
  }

  // ---------- steps ----------

  /** Shapes: what the step function needs to be defined. */
  ghost predicate Shaped(s: Sys) {
    && s.payload > 0 && |s.out| == |s.file|
    && |s.received| == |s.sends| == |s.streams|
    && forall sid :: 0 <= sid < |s.streams| ==> ShapedStream(s, sid)
  }

  ghost predicate ShapedStream(s: Sys, sid: nat)
    requires sid < |s.streams| && |s.received| == |s.sends| == |s.streams| && s.payload > 0
  {
    && s.streams[sid].Valid() && s.streams[sid].StampedBy(s.clock)
    && |s.received[sid]| == |s.sends[sid]| == s.streams[sid].Count()
    && s.streams[sid].base + s.streams[sid].Count() <= TotalChunks(|s.file|, s.payload)
  }

  ghost function Step(s: Sys, e: Event, clock: Clock): (r: Sys)
    requires Shaped(s)
  {
    match e
    case SendChunk(sid, dt) => if sid < |s.streams| then StepSend(s, sid, dt) else s
    case DeliverData(sid, c) => if (sid, c) in s.data then StepDeliver(s, sid, c) else s
    case EmitAck(sid) => if sid < |s.streams| then StepEmit(s, sid) else s
    case DeliverAck(sid, ack, dt) => if sid < |s.streams| && (sid, ack) in s.acks then StepAck(s, sid, ack, dt, clock) else s
    case DeliverNack(sid, ranges, dt) => if sid < |s.streams| then StepNack(s, sid, ranges, dt, clock) else s
    case TimeoutScan(timeout, dt) => StepScan(s, timeout, dt, clock)
    case LoseAll => s.(data := {}, acks := {})
  }

  function Increment(xs: seq<nat>, i: nat): seq<nat>
    requires i < |xs|
  {
    xs[i := xs[i] + 1]
  }

  ghost function StepSend(s: Sys, sid: nat, dt: nat): Sys
    requires Shaped(s) && sid < |s.streams|
  {
    assert ShapedStream(s, sid);
    var now := s.clock + dt;
    var (st, picked) := Send(s.streams[sid], now);
    var s' := s.(streams := s.streams[sid := st], clock := now);
    match picked
    case None => s'
    case Some(c) => s'.(data := s.data + {(sid, c)}, sends := s.sends[sid := Increment(s.sends[sid], c)])
  }

  ghost function StepDeliver(s: Sys, sid: nat, c: nat): Sys
    requires Shaped(s)
  {
    if sid < |s.streams| && c < |s.received[sid]| && !s.received[sid][c] then
      assert ShapedStream(s, sid);
      var g := s.streams[sid].base + c;
      ChunkInFile(|s.file|, s.payload, g);
      var from, end := ChunkStart(s.payload, g), ChunkEnd(|s.file|, s.payload, g);
      s.(received := s.received[sid := s.received[sid][c := true]], out := Write(s.out, from, s.file[from..end]))
    else s
  }

  ghost function StepEmit(s: Sys, sid: nat): Sys
    requires Shaped(s) && sid < |s.streams|
  {
    assert ShapedStream(s, sid);
    s.(acks := s.acks + {(sid, AckFor(s.streams[sid].base, s.received[sid]))})
  }

  /** Chunk c of stream sid would give this sample if acked now. */
  ghost function SampleOf(s: Sys, sid: nat, c: nat, now: nat, clock: Clock): Sample
    requires Shaped(s) && sid < |s.streams| && c < s.streams[sid].Count() && s.clock <= now
  {
    assert ShapedStream(s, sid);
    var st := s.streams[sid];
    Sample(sid, c, Max(clock.Age(now, st.sentAt[c]), 1), now - st.sentAt[c], s.sends[sid][c])
  }

  /** The samples an ACK gives: of the newly acked chunks never queued for retransmission. */
  ghost function Taken(s: Sys, sid: nat, ack: Ack, now: nat, clock: Clock): set<Sample>
    requires Shaped(s) && sid < |s.streams| && s.clock <= now
  {
    assert ShapedStream(s, sid);
    var st, st' := s.streams[sid], ApplyAck(s.streams[sid], ack);
    set c: nat | c < st.Count() && !st.acked[c] && st'.acked[c] && !st.flags[c].retransmitted
      :: SampleOf(s, sid, c, now, clock)
  }

  ghost function StepAck(s: Sys, sid: nat, ack: Ack, dt: nat, clock: Clock): Sys
    requires Shaped(s) && sid < |s.streams|
  {
    assert ShapedStream(s, sid);
    var now := s.clock + dt;
    s.(streams := s.streams[sid := ApplyAck(s.streams[sid], ack)], clock := now,
       samples := s.samples + Taken(s, sid, ack, now, clock))
  }

  ghost function StepNack(s: Sys, sid: nat, ranges: seq<(u64, u64)>, dt: nat, clock: Clock): Sys
    requires Shaped(s) && sid < |s.streams|
  {
    assert ShapedStream(s, sid);
    s.(streams := s.streams[sid := ApplyNack(s.streams[sid], ranges, s.clock + dt, clock).0], clock := s.clock + dt)
  }

  ghost function StepScan(s: Sys, timeout: nat, dt: nat, clock: Clock): Sys
    requires Shaped(s)
  {
    s.(streams := seq(|s.streams|, sid requires 0 <= sid < |s.streams| =>
                    assert ShapedStream(s, sid); Scan(s.streams[sid], s.clock + dt, timeout, clock).0),
       clock := s.clock + dt)
  }

  ghost function Run(s: Sys, es: seq<Event>, clock: Clock): (r: Sys)
    requires Shaped(s)
    ensures Shaped(r)
    decreases |es|
  {
    if es == [] then s
    else
      StepShaped(s, es[0], clock);
      Run(Step(s, es[0], clock), es[1..], clock)
  }

  lemma StepShaped(s: Sys, e: Event, clock: Clock)
    requires Shaped(s)
    ensures Shaped(Step(s, e, clock))
    ensures SameFile(s, Step(s, e, clock))
  {
    hide Stream.Valid, TotalChunks;
    if e.DeliverData? || e.EmitAck? || e.LoseAll? {
      NetworkShaped(s, e, clock);
    } else if e.TimeoutScan? {
      ScanShaped(s, e.timeout, e.dt, clock);
    } else if e.sid < |s.streams| {
      StreamShaped(s, e, clock);
    }
  }

  lemma NetworkShaped(s: Sys, e: Event, clock: Clock)
    requires Shaped(s) && (e.DeliverData? || e.EmitAck? || e.LoseAll?)
    ensures Shaped(Step(s, e, clock)) && SameFile(s, Step(s, e, clock))
  {
    hide Stream.Valid, TotalChunks;
    var r := Step(s, e, clock);
    forall sid | 0 <= sid < |s.streams| ensures ShapedStream(r, sid) { assert ShapedStream(s, sid); }
  }

  lemma ScanShaped(s: Sys, timeout: nat, dt: nat, clock: Clock)
    requires Shaped(s)
    ensures Shaped(StepScan(s, timeout, dt, clock)) && SameFile(s, StepScan(s, timeout, dt, clock))
  {
    hide Stream.Valid, TotalChunks;
    var r := StepScan(s, timeout, dt, clock);
    forall sid | 0 <= sid < |s.streams| ensures ShapedStream(r, sid) { assert ShapedStream(s, sid); }
  }

  /** A send, an ACK or a NACK changes one stream. */
  lemma StreamShaped(s: Sys, e: Event, clock: Clock)
    requires Shaped(s) && (e.SendChunk? || e.DeliverAck? || e.DeliverNack?) && e.sid < |s.streams|
    ensures Shaped(Step(s, e, clock)) && SameFile(s, Step(s, e, clock))
  {
    hide Stream.Valid, TotalChunks, Pick;
    var r := Step(s, e, clock);
    assert ShapedStream(s, e.sid);
    forall sid | 0 <= sid < |s.streams| ensures ShapedStream(r, sid) { assert ShapedStream(s, sid); }
  }

  /** No step touches the source file or the division into streams. */
  ghost predicate SameFile(s: Sys, r: Sys) {
    && r.file == s.file && r.payload == s.payload && |r.streams| == |s.streams|
    && forall sid :: 0 <= sid < |s.streams| ==>
         r.streams[sid].base == s.streams[sid].base && r.streams[sid].Count() == s.streams[sid].Count()
  }
}
