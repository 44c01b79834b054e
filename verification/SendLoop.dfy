/** The send loop's own limits on a run: it sends only below its window and from the stream whose turn
    it is, waits only when it cannot send, scans on time, and gives up when no chunk has been newly
    acked for too long. */
module SendLoop {
  import opened Words
  import opened StreamSpec
  import opened Receiver
  import opened Protocol
  import opened ProtocolSafety
  import opened InFlight

  /** What the sender decides from everything that has happened so far: the retransmit timeout, the
      window, and where the search for a stream with work begins. */
  datatype Regime = Regime(timeout: seq<Event> -> u32, window: seq<Event> -> nat, turn: seq<Event> -> nat, wire: nat)

  /** Any timer up to the sender's cap, and any window that lets a first packet out. */
  ghost predicate Workable(g: Regime) {
    forall past: seq<Event> :: g.timeout(past) <= RETX_TIMEOUT_MAX && g.window(past) > 0
  }

  // In microseconds.
  const RETX_SCAN_INTERVAL: nat := 20_000
  const RETX_TIMEOUT_MAX: nat := 5_000_000
  const STALL_TIMEOUT: nat := 30_000_000

  /** The system with the sender's count of bytes in flight, the times of its last scan and of the last
      newly acked chunk, and the events so far. */
  datatype Conf = Conf(sys: Sys, inFlight: nat, lastScan: nat, lastProgress: nat, past: seq<Event>)

  predicate HasWork(st: Stream) { st.queue != [] || st.next < st.Count() }

  /** The first stream with work among the next `left` ones from `at` on, cyclically. */
  function FindWork(streams: seq<Stream>, at: nat, left: nat): Option<nat>
    requires at < |streams|
    decreases left
  {
    if left == 0 then None
    else if HasWork(streams[at]) then Some(at)
    else FindWork(streams, if at + 1 == |streams| then 0 else at + 1, left - 1)
  }

  /** The stream the rotation sends from next, if any has work. */
  ghost function Turn(k: Conf, g: Regime): Option<nat> {
    var n := |k.sys.streams|;
    if n == 0 then None else FindWork(k.sys.streams, g.turn(k.past) % n, n)
  }

  ghost predicate CanSend(k: Conf, g: Regime) { Turn(k, g).Some? && k.inFlight < g.window(k.past) }

  /** The loop has not given up yet after `dt` more. */
  ghost predicate Alive(k: Conf, dt: nat) { k.sys.clock + dt <= k.lastProgress + STALL_TIMEOUT }

  ghost predicate ScanDue(k: Conf) { k.sys.clock >= k.lastScan + RETX_SCAN_INTERVAL }

  /** Time passes only while nothing can be sent and no scan is due, and no more than a scan interval at once. */
  ghost predicate MayWait(k: Conf, dt: nat, g: Regime) {
    dt == 0 || (dt <= RETX_SCAN_INTERVAL && !ScanDue(k) && !CanSend(k, g))
  }

  ghost predicate Allowed(k: Conf, e: Event, g: Regime) {
    match e
    case SendChunk(sid, dt) =>
      dt == 0 && Alive(k, 0) && !ScanDue(k) && CanSend(k, g) && Turn(k, g) == Some(sid)
    case DeliverAck(_, _, dt) => Alive(k, dt) && MayWait(k, dt, g)
    case DeliverNack(_, _, dt) => Alive(k, dt) && MayWait(k, dt, g)
    case TimeoutScan(timeout, dt) =>
      && Alive(k, dt) && MayWait(k, dt, g)
      && timeout == g.timeout(k.past) && k.sys.clock + dt >= k.lastScan + RETX_SCAN_INTERVAL
    case _ => true
  }

  lemma StreamsReady(s: Sys, now: nat)
    requires Shaped(s) && s.clock <= now
    ensures forall i :: 0 <= i < |s.streams| ==> s.streams[i].Valid() && s.streams[i].StampedBy(now)
  {
    forall i | 0 <= i < |s.streams| ensures s.streams[i].Valid() && s.streams[i].StampedBy(now) {
      assert ShapedStream(s, i);
    }
  }

  /** The bytes in flight after an event: up with a send, down with each newly acked chunk, recounted by a scan. */
  ghost function NextFlight(s: Sys, inFlight: nat, e: Event, wire: nat): nat
    requires Shaped(s)
  {
    match e
    case SendChunk(sid, dt) => if sid < |s.streams| && Sends(s, sid, dt) then inFlight + wire else inFlight
    case DeliverAck(sid, ack, _) =>
      if sid < |s.streams| && (sid, ack) in s.acks then Release(inFlight, wire, Newly(s, sid, ack)) else inFlight
    case TimeoutScan(timeout, dt) =>
      StreamsReady(s, s.clock + dt);
      Recount(s.streams, wire, s.clock + dt, timeout, Wrapping)
    case _ => inFlight
  }

  ghost predicate Sends(s: Sys, sid: nat, dt: nat)
    requires Shaped(s) && sid < |s.streams|
  {
    StreamsReady(s, s.clock + dt);
    Send(s.streams[sid], s.clock + dt).1.Some?
  }

  /** How many chunks an ACK newly marks. */
  ghost function Newly(s: Sys, sid: nat, ack: Ack): nat
    requires Shaped(s) && sid < |s.streams|
  {
    StreamsReady(s, s.clock);
    SatSub(CountTrue(ApplyAck(s.streams[sid], ack).acked), CountTrue(s.streams[sid].acked))
  }

  ghost predicate Progresses(s: Sys, e: Event)
    requires Shaped(s)
  {
    e.DeliverAck? && e.sid < |s.streams| && (e.sid, e.ack) in s.acks && Newly(s, e.sid, e.ack) > 0
  }

  ghost function Next(k: Conf, e: Event, g: Regime): (r: Conf)
    requires Shaped(k.sys)
    ensures Shaped(r.sys)
  {
    StepShaped(k.sys, e, Wrapping);
    Conf(Step(k.sys, e, Wrapping), NextFlight(k.sys, k.inFlight, e, g.wire),
         if e.TimeoutScan? then k.sys.clock + e.dt else k.lastScan,
         if Progresses(k.sys, e) then k.sys.clock + e.dt else k.lastProgress, k.past + [e])
  }

  ghost function Follow(k: Conf, es: seq<Event>, g: Regime): (r: Conf)
    requires Shaped(k.sys)
    ensures Shaped(r.sys)
    decreases |es|
  {
    if es == [] then k else Follow(Next(k, es[0], g), es[1..], g)
  }

  /** Every event of the run is one the send loop allows. */
  ghost predicate Obeys(k: Conf, es: seq<Event>, g: Regime)
    requires Shaped(k.sys)
    decreases |es|
  {
    es == [] || (Allowed(k, es[0], g) && Obeys(Next(k, es[0], g), es[1..], g))
  }

  lemma {:induction false} FollowConcat(k: Conf, a: seq<Event>, b: seq<Event>, g: Regime)
    requires Shaped(k.sys)
    ensures Follow(k, a + b, g) == Follow(Follow(k, a, g), b, g)
    ensures Obeys(k, a, g) && Obeys(Follow(k, a, g), b, g) ==> Obeys(k, a + b, g)
    decreases |a|
  {
    hide Next, Allowed, Shaped;
    if a == [] {
      assert a + b == b;
    } else {
      assert (a + b)[0] == a[0] && (a + b)[1..] == a[1..] + b;
      FollowConcat(Next(k, a[0], g), a[1..], b, g);
    }
  }

  lemma {:induction false} FollowIsRun(k: Conf, es: seq<Event>, g: Regime)
    requires Shaped(k.sys)
    ensures Follow(k, es, g).sys == Run(k.sys, es, Wrapping)
    decreases |es|
  {
    hide Step, Shaped, NextFlight;
    if es != [] {
      StepShaped(k.sys, es[0], Wrapping);
      FollowIsRun(Next(k, es[0], g), es[1..], g);
    }
  }

  lemma FollowOne(k: Conf, e: Event, g: Regime)
    requires Shaped(k.sys)
    ensures Follow(k, [e], g) == Next(k, e, g)
    ensures Allowed(k, e, g) ==> Obeys(k, [e], g)
  {
    hide Next, Allowed;
    assert [e][1..] == [];
  }

  // ---------- finding a stream ----------

  lemma {:induction false} FindWorkFails(streams: seq<Stream>, at: nat, left: nat)
    requires at < |streams| && left <= |streams| && FindWork(streams, at, left).None?
    ensures forall i :: at <= i < at + left && i < |streams| ==> !HasWork(streams[i])
    ensures forall i :: 0 <= i < at + left - |streams| ==> !HasWork(streams[i])
    decreases left
  {
    if left > 0 { FindWorkFails(streams, if at + 1 == |streams| then 0 else at + 1, left - 1); }
  }

  lemma {:induction false} FindWorkFinds(streams: seq<Stream>, at: nat, left: nat)
    requires at < |streams|
    ensures var r := FindWork(streams, at, left); r.Some? ==> r.value < |streams| && HasWork(streams[r.value])
    decreases left
  {
    if left > 0 { FindWorkFinds(streams, if at + 1 == |streams| then 0 else at + 1, left - 1); }
  }

  // ---------- giving up ----------

  /** Once more than the stall limit has passed since the last newly acked chunk, the sender does nothing any
      more: whatever still happens, no stream changes, so an unfinished transfer stays unfinished. */
  lemma {:induction false} StalledIsOver(k: Conf, es: seq<Event>, g: Regime)
    requires Shaped(k.sys) && k.sys.clock > k.lastProgress + STALL_TIMEOUT && Obeys(k, es, g)
    ensures Follow(k, es, g).sys.streams == k.sys.streams
    ensures Finished(Follow(k, es, g).sys) <==> Finished(k.sys)
    decreases |es|
  {
    hide Send, ApplyAck, ApplyNack, Scan, CanSend, Stream.Valid, Write, AckFor, SumAcked, TotalChunks;
    if es != [] { StalledIsOver(Next(k, es[0], g), es[1..], g); }
  }

  lemma {:induction false} SameMarksSameSum(a: seq<Stream>, b: seq<Stream>)
    requires |a| == |b| && forall i :: 0 <= i < |a| ==> a[i].acked == b[i].acked
    ensures SumAcked(a) == SumAcked(b)
    decreases |a|
  {
    if a != [] { SameMarksSameSum(a[..|a| - 1], b[..|b| - 1]); }
  }

  /** A run with such a gap: nothing is acked for one microsecond more than the limit. */
  lemma GapStalls(s: Sys, timeout: u32, inFlight: nat, es: seq<Event>, g: Regime)
    requires Shaped(s) && !Finished(s)
    requires var gap := TimeoutScan(timeout, STALL_TIMEOUT + 1); var r := Run(s, [gap], Wrapping);
             Obeys(Conf(r, inFlight, r.clock, s.clock, [gap]), es, g)
    ensures var r := Run(s, [TimeoutScan(timeout, STALL_TIMEOUT + 1)] + es, Wrapping); r.payload > 0 && !Finished(r)
  {
    hide Stream.Valid, Obeys, Follow, SumAcked, TotalChunks;
    var gap := TimeoutScan(timeout, STALL_TIMEOUT + 1);
    var r := Run(s, [gap], Wrapping);
    StepShaped(s, gap, Wrapping);
    assert r == Step(s, gap, Wrapping) by { assert [gap][1..] == []; }
    SameMarksSameSum(s.streams, r.streams) by {
      forall i | 0 <= i < |s.streams| ensures s.streams[i].acked == r.streams[i].acked { assert ShapedStream(s, i); }
    }
    var k := Conf(r, inFlight, r.clock, s.clock, [gap]);
    StalledIsOver(k, es, g);
    FollowIsRun(k, es, g);
    RunConcat(s, [gap], es);
  }
}
