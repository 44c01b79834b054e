/** A blackout is survived: whatever has happened, and even if everything in the network is then
    lost, a transfer that the send loop has not given up on can still be completed, and the output is
    then the file. The completing run is one the send loop can take, and it waits for a bounded
    time in all: twice the largest retransmit timeout and one scan interval, or once when every
    unacked chunk is within an ACK's reach. */
module ProtocolProgress {
  import opened Words
  import opened StreamSpec
  import opened Receiver
  import opened Protocol
  import opened ProtocolSafety
  import opened ProtocolClock
  import opened InFlight
  import opened Recovery
  import opened SendLoop

  // ---------- what the recovery keeps ----------

  /** The limits of the streams, the time of the blackout, and the latest time at which a packet may leave
      without being acked at once. */
  datatype Plan = Plan(limits: seq<nat>, start: nat, late: nat)

  function End(p: Plan): nat { p.late + RETX_TIMEOUT_MAX + RETX_SCAN_INTERVAL }

  /** Outstanding chunks are recent, or at least their ages fit the 32-bit clock at the first scan. */
  ghost predicate OnTime(st: Stream, clock: nat, p: Plan)
    requires st.Valid()
  {
    forall c :: c in Outstanding(st) ==>
      && st.sentAt[c] <= p.late
      && if clock == p.start then clock + RETX_SCAN_INTERVAL - st.sentAt[c] < U32
         else clock - st.sentAt[c] <= RETX_TIMEOUT_MAX
  }

  ghost predicate AllNear(st: Stream, limit: nat) { forall c :: limit <= c < st.Count() ==> st.acked[c] }

  ghost predicate Recovers(st: Stream, held: seq<bool>, clock: nat, limit: nat, p: Plan)
    requires st.Valid()
  {
    && Recovering(st, held, limit, p.start) && OnTime(st, clock, p)
    && (p.late == p.start + RETX_TIMEOUT_MAX || AllNear(st, limit))
  }

  ghost predicate StreamSound(s: Sys, i: nat, p: Plan)
    requires Shaped(s) && i < |s.streams| == |p.limits|
  {
    assert ShapedStream(s, i);
    Recovers(s.streams[i], s.received[i], s.clock, p.limits[i], p)
  }

  ghost predicate InTime(k: Conf, p: Plan) {
    && p.start <= p.late <= p.start + RETX_TIMEOUT_MAX
    && p.start <= k.sys.clock <= End(p) <= k.lastProgress + STALL_TIMEOUT && k.lastScan <= k.sys.clock
  }

  ghost predicate Sound(k: Conf, p: Plan) {
    && Inv(k.sys) && |p.limits| == |k.sys.streams| && InTime(k, p)
    && (k.sys.clock > p.late + RETX_TIMEOUT_MAX ==> k.inFlight == 0)
    && forall i :: 0 <= i < |k.sys.streams| ==> StreamSound(k.sys, i, p)
  }

  /** By then every outstanding chunk has been queued. */
  lemma NoneLate(st: Stream, clock: nat, p: Plan)
    requires st.Valid() && OnTime(st, clock, p) && p.start <= p.late && clock > p.late + RETX_TIMEOUT_MAX
    ensures Outstanding(st) == {}
  {}

  // ---------- scans ----------

  lemma ScanStream(st: Stream, held: seq<bool>, clock: nat, dt: nat, limit: nat, p: Plan, timeout: nat)
    requires st.Valid() && st.StampedBy(clock) && Recovers(st, held, clock, limit, p)
    requires p.start <= clock && dt <= RETX_SCAN_INTERVAL && timeout <= RETX_TIMEOUT_MAX
    ensures Recovers(Scan(st, clock + dt, timeout, Wrapping).0, held, clock + dt, limit, p)
  {
    hide Recovering, Outstanding, Scan, Stream.Valid;
    ScanRecovers(st, held, limit, p.start, clock + dt, timeout);
    ScanOutstanding(st, clock + dt, timeout);
  }

  /** A scan keeps every stream recovering; a late one counts nothing in flight. */
  lemma ScanSound(k: Conf, p: Plan, dt: nat, g: Regime)
    requires Sound(k, p) && Workable(g) && dt <= RETX_SCAN_INTERVAL && k.sys.clock + dt <= End(p)
    ensures var r := Next(k, TimeoutScan(g.timeout(k.past), dt), g);
      Sound(r, p) && r.sys.clock == r.lastScan == k.sys.clock + dt
  {
    hide Recovers, Scan, Stream.Valid, Safe, Recount;
    var timeout := g.timeout(k.past);
    var e := TimeoutScan(timeout, dt);
    StepKeeps(k.sys, e);
    var r := Next(k, e, g);
    forall i | 0 <= i < |r.sys.streams| ensures StreamSound(r.sys, i, p) {
      assert ShapedStream(k.sys, i) && ShapedStream(r.sys, i) && StreamSound(k.sys, i, p);
      ScanStream(k.sys.streams[i], k.sys.received[i], k.sys.clock, dt, p.limits[i], p, timeout);
    }
    if r.sys.clock > p.late + RETX_TIMEOUT_MAX { LateCountsZero(k, r, p, dt, g); }
  }

  lemma LateCountsZero(k: Conf, r: Conf, p: Plan, dt: nat, g: Regime)
    requires Inv(k.sys) && r == Next(k, TimeoutScan(g.timeout(k.past), dt), g) && |p.limits| == |r.sys.streams|
    requires p.start <= p.late && r.sys.clock > p.late + RETX_TIMEOUT_MAX
    requires forall i :: 0 <= i < |r.sys.streams| ==> StreamSound(r.sys, i, p)
    ensures r.inFlight == 0
  {
    hide Recovering, Scan, Stream.Valid, Safe, Recount, Outstanding;
    var timeout, now := g.timeout(k.past), k.sys.clock + dt;
    StreamsReady(k.sys, now);
    var after := ScanAll(k.sys.streams, now, timeout, Wrapping);
    forall i | 0 <= i < |k.sys.streams| ensures Outstanding(after[i]) == {} {
      assert ShapedStream(r.sys, i) && StreamSound(r.sys, i, p) && after[i] == r.sys.streams[i];
      NoneLate(after[i], r.sys.clock, p);
    }
    RecountZero(k.sys.streams, g.wire, now, timeout, Wrapping);
  }

  // ---------- there is something to send ----------

  lemma FirstIsPending(st: Stream)
    requires st.Valid() && Outstanding(st) == {} && Contig(st.acked) < st.Count()
    ensures HasWork(st)
  {
    assert Contig(st.acked) !in Outstanding(st);
  }

  /** Late in the recovery, while a chunk is unacked, the sender can send. */
  lemma LateCanSend(k: Conf, p: Plan, g: Regime, i: nat)
    requires Sound(k, p) && Workable(g) && k.sys.clock > p.late + RETX_TIMEOUT_MAX
    requires i < |k.sys.streams| && Contig(k.sys.streams[i].acked) < k.sys.streams[i].Count()
    ensures CanSend(k, g)
  {
    hide Safe, Stream.Valid, Outstanding, Recovering, FindWork;
    assert ShapedStream(k.sys, i) && StreamSound(k.sys, i, p);
    NoneLate(k.sys.streams[i], k.sys.clock, p);
    FirstIsPending(k.sys.streams[i]);
    var n := |k.sys.streams|;
    var at := g.turn(k.past) % n;
    if FindWork(k.sys.streams, at, n).None? {
      FindWorkFails(k.sys.streams, at, n);
      assert false;
    }
  }

  /** While a chunk is unacked and nothing can be sent, the loop may wait one scan interval and scan. */
  lemma Wait(k: Conf, p: Plan, g: Regime, i: nat) returns (e: Event)
    requires Sound(k, p) && Workable(g) && !ScanDue(k) && !CanSend(k, g)
    requires i < |k.sys.streams| && Contig(k.sys.streams[i].acked) < k.sys.streams[i].Count()
    ensures Allowed(k, e, g)
    ensures var r := Next(k, e, g); Sound(r, p) && !ScanDue(r) && r.sys.clock == k.sys.clock + RETX_SCAN_INTERVAL
  {
    hide Inv, StreamSound, CanSend, NextFlight, Step, ContigFrom;
    if k.sys.clock > p.late + RETX_TIMEOUT_MAX {
      LateCanSend(k, p, g, i);
      assert false;
    }
    e := TimeoutScan(g.timeout(k.past), RETX_SCAN_INTERVAL);
    ScanSound(k, p, RETX_SCAN_INTERVAL, g);
  }

  // ---------- a send, its arrival and the ACK ----------

  lemma AckFromHeld(t: Stream, held: seq<bool>)
    requires t.Valid() && |held| == t.Count()
    ensures t.base + |held| < U64
    ensures Acknowledged(t.acked, held, ApplyAck(t, AckFor(t.base, held)).acked)
  {
    hide AckFor, Reported, ContigFrom;
    forall c | 0 <= c < |held|
      ensures ApplyAck(t, AckFor(t.base, held)).acked[c] <==> t.acked[c] || (held[c] && c < Contig(held) + REACH)
    {
      AckReportsReceived(t.base, held, c);
    }
  }

  lemma MoreMarks(a: seq<bool>, b: seq<bool>, c: nat)
    requires |a| == |b| && c < |a| && !a[c] && b[c] && forall x :: 0 <= x < |a| && a[x] ==> b[x]
    ensures CountTrue(a) < CountTrue(b)
  {
    CountTrueIsCard(a);
    CountTrueIsCard(b);
    assert c in AckedSet(b) - AckedSet(a);
    assert AckedSet(a) <= AckedSet(b) - {c};
    MinusCard(AckedSet(b) - {c}, AckedSet(a));
  }

  /** From t, stream sid changes to u with `held` at the daemon, and nothing else that matters does. */
  ghost predicate Touches(t: Sys, r: Sys, sid: nat, u: Stream, held: seq<bool>)
    requires sid < |t.streams| == |t.received|
  {
    r.streams == t.streams[sid := u] && r.received == t.received[sid := held] && r.clock == t.clock
  }

  /** A packet arrives and the daemon answers at once. */
  lemma DeliverAndAck(k: Conf, sid: nat, c: nat, g: Regime) returns (es: seq<Event>)
    requires Inv(k.sys) && sid < |k.sys.streams| && (sid, c) in k.sys.data && Alive(k, 0)
    requires k.sys.streams[sid].Valid() && c < |k.sys.received[sid]| == k.sys.streams[sid].Count()
    ensures Obeys(k, es, g)
    ensures var held := k.sys.received[sid][c := true];
            var u := ApplyAck(k.sys.streams[sid], AckFor(k.sys.streams[sid].base, held));
            var r := Follow(k, es, g);
      && Inv(r.sys) && Touches(k.sys, r.sys, sid, u, held) && r.lastScan == k.lastScan
      && r.inFlight == Release(k.inFlight, g.wire, SatSub(CountTrue(u.acked), CountTrue(k.sys.streams[sid].acked)))
      && (r.lastProgress == k.lastProgress || r.lastProgress == k.sys.clock)
  {
    var held := k.sys.received[sid][c := true];
    assert k.sys.streams[sid].base + |held| < U64;
    assert k.sys.received[sid][c] ==> held == k.sys.received[sid] && k.sys.received[sid := held] == k.sys.received;
    hide Stream.Valid, Safe, AckFor, CountTrue, Write, Release;
    var e1 := DeliverData(sid, c);
    StepKeeps(k.sys, e1);
    FollowOne(k, e1, g);
    var k1 := Next(k, e1, g);
    assert k1.sys.received == k.sys.received[sid := held];
    var e2 := EmitAck(sid);
    StepKeeps(k1.sys, e2);
    FollowOne(k1, e2, g);
    var k2 := Next(k1, e2, g);
    var e3 := DeliverAck(sid, AckFor(k.sys.streams[sid].base, held), 0);
    StepKeeps(k2.sys, e3);
    FollowOne(k2, e3, g);
    FollowConcat(k, [e1], [e2], g);
    FollowConcat(k, [e1] + [e2], [e3], g);
    es := [e1] + [e2] + [e3];
  }

  // ---------- one stream's round ----------

  /** The stream still recovers, and a chunk left unacked was a new one, sent early. */
  lemma RoundStream(st: Stream, held: seq<bool>, clock: nat, limit: nat, p: Plan, u: Stream, heldAfter: seq<bool>)
    requires st.Valid() && st.StampedBy(clock) && Recovers(st, held, clock, limit, p) && AllHeld(st.acked, held)
    requires RoundOf(st, held, clock, u, heldAfter) && p.start <= clock && p.start <= p.late
    ensures Recovers(u, heldAfter, clock, limit, p)
    ensures !u.acked[Send(st, clock).1.value] ==> st.next < u.next && clock <= p.late
  {
    RoundRecovers(st, held, limit, p.start, clock, u, heldAfter);
    NearIsAcked(st, held, limit, clock, u, heldAfter);
    SendOutstanding(st, clock);
    AckOutstanding(Send(st, clock).0, u);
    var c := Send(st, clock).1.value;
    if !u.acked[c] { UnansweredWaits(st, held, limit, p.start, clock, u, heldAfter); }
    hide Recovering, Outstanding, Pick, Stream.Valid, ContigFrom;
  }

  lemma DrainStream(st: Stream, held: seq<bool>, clock: nat, limit: nat, p: Plan)
    requires st.Valid() && st.StampedBy(clock) && Recovers(st, held, clock, limit, p) && Send(st, clock).1.None?
    ensures Recovers(Send(st, clock).0, held, clock, limit, p)
  {
    hide Recovering, Outstanding, Stream.Valid;
    DrainRecovers(st, held, limit, p.start, clock);
  }

  // ---------- progress ----------

  ghost function Unacked(streams: seq<Stream>): set<(nat, nat)> {
    set i: nat, c: nat | i < |streams| && c < |streams[i].acked| && !streams[i].acked[c] :: (i, c)
  }

  ghost function Unsent(streams: seq<Stream>): set<(nat, nat)> {
    set i: nat, c: nat | i < |streams| && streams[i].next <= c < |streams[i].acked| :: (i, c)
  }

  ghost function Queued(streams: seq<Stream>): set<(nat, nat)> {
    set i: nat, c: nat | i < |streams| && c in streams[i].queue :: (i, c)
  }

  /** Fewer chunks unacked, or as many and fewer unsent, or as many of both and fewer queued. */
  ghost predicate Closer(a: seq<Stream>, b: seq<Stream>) {
    || Unacked(b) < Unacked(a)
    || (Unacked(b) == Unacked(a) && Unsent(b) < Unsent(a))
    || (Unacked(b) == Unacked(a) && Unsent(b) == Unsent(a) && Queued(b) < Queued(a))
  }

  lemma AckedIsCloser(a: seq<Stream>, sid: nat, u: Stream, c: nat)
    requires sid < |a| && u.Count() == a[sid].Count()
    requires forall x :: 0 <= x < u.Count() && a[sid].acked[x] ==> u.acked[x]
    requires c < u.Count() && !a[sid].acked[c] && (u.acked[c] || a[sid].next < u.next <= u.Count())
    ensures Closer(a, a[sid := u])
  {
    var b := a[sid := u];
    assert Unacked(b) <= Unacked(a);
    if u.acked[c] {
      assert (sid, c) in Unacked(a) && (sid, c) !in Unacked(b);
    } else {
      assert Unsent(b) <= Unsent(a);
      assert (sid, a[sid].next) in Unsent(a) && (sid, a[sid].next) !in Unsent(b);
    }
  }

  lemma DrainIsCloser(a: seq<Stream>, sid: nat, u: Stream)
    requires sid < |a| && HasWork(a[sid]) && u.acked == a[sid].acked && u.next == a[sid].Count() && u.queue == []
    ensures Closer(a, a[sid := u])
  {
    var b := a[sid := u];
    assert Unacked(b) == Unacked(a);
    assert Unsent(b) <= Unsent(a);
    if a[sid].next < a[sid].Count() {
      assert (sid, a[sid].next) in Unsent(a) && (sid, a[sid].next) !in Unsent(b);
    } else {
      assert Queued(b) <= Queued(a);
      assert (sid, a[sid].queue[0]) in Queued(a) && (sid, a[sid].queue[0]) !in Queued(b);
    }
  }

  // ---------- rounds ----------

  /** What a round leaves: the recovery goes on, no time has passed, and the end is nearer. */
  ghost predicate RoundDone(k: Conf, r: Conf, p: Plan) {
    Sound(r, p) && !ScanDue(r) && r.sys.clock == k.sys.clock && Closer(k.sys.streams, r.sys.streams)
  }

  /** Replacing one recovering stream by another keeps the whole sound. */
  lemma SoundAfter(k: Conf, r: Conf, p: Plan, sid: nat, u: Stream, held: seq<bool>)
    requires Sound(k, p) && sid < |k.sys.streams| && Inv(r.sys) && Touches(k.sys, r.sys, sid, u, held)
    requires r.lastScan == k.lastScan && (r.lastProgress == k.lastProgress || r.lastProgress == k.sys.clock)
    requires u.Valid() && Recovers(u, held, k.sys.clock, p.limits[sid], p)
    requires k.sys.clock > p.late + RETX_TIMEOUT_MAX ==> r.inFlight == 0
    ensures Sound(r, p)
  {
    hide Recovers, Safe, Stream.Valid;
    forall i | 0 <= i < |r.sys.streams| ensures StreamSound(r.sys, i, p) {
      assert ShapedStream(r.sys, i) && ShapedStream(k.sys, i) && StreamSound(k.sys, i, p);
    }
  }

  /** Nothing was left to send in this stream after all. */
  lemma RoundDrains(k: Conf, p: Plan, sid: nat, g: Regime)
    requires Sound(k, p) && !ScanDue(k) && sid < |k.sys.streams| && HasWork(k.sys.streams[sid])
    requires !Sends(k.sys, sid, 0)
    ensures RoundDone(k, Next(k, SendChunk(sid, 0), g), p)
  {
    hide Recovers, Safe, Stream.Valid, Pick, Closer, HasWork;
    var e := SendChunk(sid, 0);
    StepKeeps(k.sys, e);
    var st := k.sys.streams[sid];
    assert ShapedStream(k.sys, sid) && StreamSound(k.sys, sid, p);
    DrainStream(st, k.sys.received[sid], k.sys.clock, p.limits[sid], p);
    PickSplits(st);
    var r := Next(k, e, g);
    var u := Send(st, k.sys.clock).0;
    assert k.sys.received[sid := k.sys.received[sid]] == k.sys.received;
    SoundAfter(k, r, p, sid, u, k.sys.received[sid]);
    DrainIsCloser(k.sys.streams, sid, u);
  }

  lemma PacketLeaves(k: Conf, sid: nat, c: nat, g: Regime)
    requires Inv(k.sys) && sid < |k.sys.streams|
    requires k.sys.streams[sid].Valid() && k.sys.streams[sid].StampedBy(k.sys.clock)
    requires Send(k.sys.streams[sid], k.sys.clock).1 == Some(c)
    ensures var r := Next(k, SendChunk(sid, 0), g);
      && Inv(r.sys) && (sid, c) in r.sys.data && r.inFlight == k.inFlight + g.wire
      && r.lastScan == k.lastScan && r.lastProgress == k.lastProgress
      && Touches(k.sys, r.sys, sid, Send(k.sys.streams[sid], k.sys.clock).0, k.sys.received[sid])
  {
    hide Safe, Stream.Valid, Pick;
    StepKeeps(k.sys, SendChunk(sid, 0));
    assert k.sys.received[sid := k.sys.received[sid]] == k.sys.received;
  }

  /** One stream's round seen from the stream: its packet, the daemon's marks and the ACK built from them. */
  lemma AnswerOf(st: Stream, held: seq<bool>, clock: nat, limit: nat, p: Plan, c: nat)
    returns (u: Stream, heldAfter: seq<bool>)
    requires st.Valid() && st.StampedBy(clock) && Recovers(st, held, clock, limit, p) && AllHeld(st.acked, held)
    requires Send(st, clock).1 == Some(c) && p.start <= clock && p.start <= p.late
    ensures |held| == st.Count() && heldAfter == held[c := true] && st.base + |heldAfter| < U64
    ensures u == ApplyAck(Send(st, clock).0, AckFor(st.base, heldAfter)) && u.Valid()
    ensures Recovers(u, heldAfter, clock, limit, p)
    ensures u.Count() == st.Count() && forall x :: 0 <= x < u.Count() && st.acked[x] ==> u.acked[x]
    ensures u.acked[c] || (st.next < u.next <= u.Count() && clock <= p.late)
  {
    var t := Send(st, clock).0;
    heldAfter := held[c := true];
    AckFromHeld(t, heldAfter);
    u := ApplyAck(t, AckFor(t.base, heldAfter));
    hide Recovers, Pick, AckFor, Reported;
    RoundStream(st, held, clock, limit, p, u, heldAfter);
  }

  lemma OneFreed(wire: nat, n: nat)
    requires n >= 1
    ensures Release(wire, wire, n) == 0
  {
    MulMono(1, n, wire);
  }

  /** A packet goes out, arrives and is answered. */
  lemma PacketAnswered(k: Conf, sid: nat, c: nat, t: Stream, held: seq<bool>, g: Regime) returns (es: seq<Event>)
    requires Inv(k.sys) && sid < |k.sys.streams| && Alive(k, 0)
    requires k.sys.streams[sid].Valid() && k.sys.streams[sid].StampedBy(k.sys.clock)
    requires Send(k.sys.streams[sid], k.sys.clock) == (t, Some(c))
    requires |k.sys.received[sid]| == t.Count() && held == k.sys.received[sid][c := true] && t.base + |held| < U64
    ensures Obeys(Next(k, SendChunk(sid, 0), g), es, g)
    ensures var u, r := ApplyAck(t, AckFor(t.base, held)), Follow(Next(k, SendChunk(sid, 0), g), es, g);
      && Inv(r.sys) && Touches(k.sys, r.sys, sid, u, held) && r.lastScan == k.lastScan
      && r.inFlight == Release(k.inFlight + g.wire, g.wire, SatSub(CountTrue(u.acked), CountTrue(t.acked)))
      && (r.lastProgress == k.lastProgress || r.lastProgress == k.sys.clock)
  {
    hide Safe, Stream.Valid, Follow, Obeys, Next, AckFor, CountTrue, Release, Send, ApplyAck;
    PacketLeaves(k, sid, c, g);
    es := DeliverAndAck(Next(k, SendChunk(sid, 0), g), sid, c, g);
  }

  lemma StreamFacts(k: Conf, p: Plan, sid: nat)
    requires Sound(k, p) && sid < |k.sys.streams|
    ensures Shaped(k.sys) && |k.sys.received| == |k.sys.streams|
    ensures ShapedStream(k.sys, sid) && AllHeld(k.sys.streams[sid].acked, k.sys.received[sid])
    ensures Recovers(k.sys.streams[sid], k.sys.received[sid], k.sys.clock, p.limits[sid], p) && Alive(k, 0)
  {
    assert ShapedStream(k.sys, sid) && Safe(k.sys, sid) && StreamSound(k.sys, sid, p);
  }

  /** A packet went out: let it arrive and be answered. */
  lemma RoundDelivers(k: Conf, p: Plan, sid: nat, g: Regime) returns (es: seq<Event>)
    requires Sound(k, p) && !ScanDue(k) && sid < |k.sys.streams| && Sends(k.sys, sid, 0)
    ensures Obeys(Next(k, SendChunk(sid, 0), g), es, g)
    ensures RoundDone(k, Follow(Next(k, SendChunk(sid, 0), g), es, g), p)
  {
    hide Inv, Shaped, StreamSound, Recovers, Stream.Valid, Closer, Follow, Obeys, Next, AckFor, CountTrue, Release,
      Send, ApplyAck, Unacked, Unsent, Queued;
    StreamFacts(k, p, sid);
    var st, clock := k.sys.streams[sid], k.sys.clock;
    var (t, picked) := Send(st, clock);
    var c := picked.value;
    var u, held := AnswerOf(st, k.sys.received[sid], clock, p.limits[sid], p, c);
    es := PacketAnswered(k, sid, c, t, held, g);
    var r := Follow(Next(k, SendChunk(sid, 0), g), es, g);
    AckedIsCloser(k.sys.streams, sid, u, c);
    if clock > p.late + RETX_TIMEOUT_MAX {
      MoreMarks(st.acked, u.acked, c);
      OneFreed(g.wire, CountTrue(u.acked) - CountTrue(st.acked));
    }
    SoundAfter(k, r, p, sid, u, held);
  }

  /** While the sender can send, one more round of whatever stream the rotation names. */
  lemma Round(k: Conf, p: Plan, g: Regime) returns (es: seq<Event>)
    requires Sound(k, p) && !ScanDue(k) && CanSend(k, g)
    ensures Obeys(k, es, g) && RoundDone(k, Follow(k, es, g), p)
  {
    hide StreamSound, Next, RoundDone, FindWork, Sends, HasWork, Safe;
    var sid := Turn(k, g).value;
    FindWorkFinds(k.sys.streams, g.turn(k.past) % |k.sys.streams|, |k.sys.streams|);
    var e := SendChunk(sid, 0);
    FollowOne(k, e, g);
    if Sends(k.sys, sid, 0) {
      var rest := RoundDelivers(k, p, sid, g);
      FollowConcat(k, [e], rest, g);
      es := [e] + rest;
    } else {
      RoundDrains(k, p, sid, g);
      es := [e];
    }
  }

  // ---------- the whole recovery ----------

  lemma {:induction false} CanFinish(k: Conf, p: Plan, g: Regime) returns (es: seq<Event>)
    requires Sound(k, p) && !ScanDue(k) && Workable(g) && Tiled(k.sys.streams, TotalChunks(|k.sys.file|, k.sys.payload))
    ensures Obeys(k, es, g)
    ensures var r := Follow(k, es, g).sys; r.payload > 0 && Finished(r) && r.clock <= End(p)
    decreases End(p) - k.sys.clock, Unacked(k.sys.streams), Unsent(k.sys.streams), Queued(k.sys.streams)
  {
    hide Step, StreamSound, TotalChunks, SumAcked, NextFlight, Unacked, Unsent, Queued, Safe, CanSend, Progresses;
    var total := TotalChunks(|k.sys.file|, k.sys.payload);
    SumAckedFull(k.sys.streams, total);
    if SumAcked(k.sys.streams) >= total {
      es := [];
    } else {
      var a;
      if CanSend(k, g) {
        a := Round(k, p, g);
      } else {
        var i, x :| 0 <= i < |k.sys.streams| && 0 <= x < k.sys.streams[i].Count() && !k.sys.streams[i].acked[x];
        assert Contig(k.sys.streams[i].acked) <= x;
        var e := Wait(k, p, g, i);
        FollowOne(k, e, g);
        a := [e];
      }
      var r := Follow(k, a, g);
      FollowIsRun(k, a, g);
      RunKeepsFile(k.sys, a, Wrapping);
      TiledSame(k.sys.streams, r.sys.streams, total);
      var b := CanFinish(r, p, g);
      FollowConcat(k, a, b, g);
      es := a + b;
    }
  }

  /** Every unacked chunk, sent or not, is within an ACK's reach of its stream's first unacked one. */
  ghost predicate WholeInReach(s: Sys) {
    forall i :: 0 <= i < |s.streams| ==> AllNear(s.streams[i], Contig(s.streams[i].acked) + REACH)
  }

  /** The time the recovery may take. */
  ghost function Grace(s: Sys): nat {
    if WholeInReach(s) then RETX_TIMEOUT_MAX + RETX_SCAN_INTERVAL else 2 * RETX_TIMEOUT_MAX + RETX_SCAN_INTERVAL
  }

  /** The loop has time enough before it gives up, and the unacked chunks sent or queued are within reach. */
  ghost predicate InGrace(k: Conf) {
    && k.sys.clock + Grace(k.sys) <= k.lastProgress + STALL_TIMEOUT
    && forall i :: 0 <= i < |k.sys.streams| ==> InReach(k.sys.streams[i])
  }

  /** And the ages the next scan reads fit the 32-bit clock. */
  ghost predicate Recoverable(k: Conf) {
    && InGrace(k) && k.lastScan <= k.sys.clock
    && forall i :: 0 <= i < |k.sys.streams| ==> ScanAgesFit(k.sys.streams[i], 0, k.sys.clock + RETX_SCAN_INTERVAL)
  }

  lemma StreamStarts(st: Stream, held: seq<bool>, clock: nat, p: Plan)
    requires st.Valid() && st.StampedBy(clock) && |held| == st.Count() && InReach(st)
    requires ScanAgesFit(st, 0, clock + RETX_SCAN_INTERVAL) && clock == p.start <= p.late
    requires p.late == p.start + RETX_TIMEOUT_MAX || AllNear(st, Contig(st.acked) + REACH)
    ensures Recovers(st, held, clock, Contig(st.acked) + REACH, p)
  {
    RecoveringStarts(st, held, clock);
    forall c | c in Outstanding(st) ensures clock + RETX_SCAN_INTERVAL - st.sentAt[c] < U32 {
      assert ChunkFits(st, c, clock + RETX_SCAN_INTERVAL);
    }
  }

  lemma RecoveryStarts(k: Conf) returns (p: Plan)
    requires Inv(k.sys) && Recoverable(k)
    ensures Sound(k, p) && p.start == k.sys.clock && End(p) == k.sys.clock + Grace(k.sys)
  {
    hide Safe, Stream.Valid, InReach, AllNear, ScanAgesFit, ContigFrom, Recovers;
    var s := k.sys;
    p := Plan(seq(|s.streams|, i requires 0 <= i < |s.streams| => Contig(s.streams[i].acked) + REACH), s.clock,
              if WholeInReach(s) then s.clock else s.clock + RETX_TIMEOUT_MAX);
    forall i | 0 <= i < |s.streams| ensures StreamSound(s, i, p) {
      assert ShapedStream(s, i);
      StreamStarts(s.streams[i], s.received[i], s.clock, p);
    }
  }

  /** From any recoverable state some run that the send loop can take finishes the transfer in time. */
  lemma RecoversFrom(k: Conf, g: Regime) returns (es: seq<Event>)
    requires Inv(k.sys) && Recoverable(k) && Workable(g)
    requires Tiled(k.sys.streams, TotalChunks(|k.sys.file|, k.sys.payload))
    ensures Obeys(k, es, g)
    ensures var r := Follow(k, es, g).sys; r.payload > 0 && Finished(r) && r.clock <= k.sys.clock + Grace(k.sys)
  {
    hide Step, StreamSound, TotalChunks, SumAcked, NextFlight, Safe, CanSend, Progresses, Recoverable, WholeInReach,
      Tiled;
    var p := RecoveryStarts(k);
    if ScanDue(k) {
      var e := TimeoutScan(g.timeout(k.past), 0);
      ScanSound(k, p, 0, g);
      FollowOne(k, e, g);
      var r := Next(k, e, g);
      StepShaped(k.sys, e, Wrapping);
      TiledSame(k.sys.streams, r.sys.streams, TotalChunks(|k.sys.file|, k.sys.payload));
      var b := CanFinish(r, p, g);
      FollowConcat(k, [e], b, g);
      es := [e] + b;
    } else {
      es := CanFinish(k, p, g);
    }
  }

  /** Whatever run has happened and even if the network then loses every packet in it, whatever the sender
      counts as in flight, and for any timer, window and rotation computed from the history: if the state
      is recoverable, some continuation the send loop can take finishes the transfer in time with the output
      equal to the file. */
  lemma LossIsRecoverable(s: Sys, es: seq<Event>, inFlight: nat, lastScan: nat, lastProgress: nat, g: Regime)
    requires Init(s) && Workable(g)
    requires Recoverable(Conf(Run(s, es + [LoseAll], Wrapping), inFlight, lastScan, lastProgress, es + [LoseAll]))
    ensures exists more ::
      && Obeys(Conf(Run(s, es + [LoseAll], Wrapping), inFlight, lastScan, lastProgress, es + [LoseAll]), more, g)
      && Run(s, es + [LoseAll] + more, Wrapping).payload > 0
      && Finished(Run(s, es + [LoseAll] + more, Wrapping))
      && Run(s, es + [LoseAll] + more, Wrapping).out == s.file
      && Run(s, es + [LoseAll] + more, Wrapping).clock
         <= Run(s, es + [LoseAll], Wrapping).clock + Grace(Run(s, es + [LoseAll], Wrapping))
  {
    hide Step, Safe, TotalChunks, SumAcked, Stream.Valid, NextFlight, Recoverable, WholeInReach;
    var t := Run(s, es + [LoseAll], Wrapping);
    var k := Conf(t, inFlight, lastScan, lastProgress, es + [LoseAll]);
    RunIsSafe(s, es + [LoseAll]);
    RunKeepsFile(s, es + [LoseAll], Wrapping);
    TiledSame(s.streams, t.streams, TotalChunks(|s.file|, s.payload));
    var more := RecoversFrom(k, g);
    FollowIsRun(k, more, g);
    RunConcat(s, es + [LoseAll], more);
    FinishedMeansDelivered(s, es + [LoseAll] + more);
  }

  // ---------- runs of the send loop ----------

  /** At the last scan no outstanding chunk was older than the largest timeout. */
  ghost predicate Recent(st: Stream, lastScan: nat)
    requires st.Valid()
  {
    forall c :: c in Outstanding(st) ==> lastScan <= st.sentAt[c] + RETX_TIMEOUT_MAX
  }

  ghost predicate StreamRecent(s: Sys, i: nat, lastScan: nat)
    requires Shaped(s) && i < |s.streams|
  {
    assert ShapedStream(s, i);
    Recent(s.streams[i], lastScan)
  }

  /** Scans are never late, so ages stay small. */
  ghost predicate Punctual(k: Conf) {
    && Shaped(k.sys) && k.lastScan <= k.sys.clock < k.lastScan + 2 * RETX_SCAN_INTERVAL
    && forall i :: 0 <= i < |k.sys.streams| ==> StreamRecent(k.sys, i, k.lastScan)
  }

  lemma {:induction false} NackOutstanding(st: Stream, order: seq<nat>, now: nat)
    requires st.Valid() && st.StampedBy(now)
    ensures Outstanding(NackAll(st, order, now, Wrapping).0) <= Outstanding(st)
    decreases |order|
  {
    if order != [] {
      var t := NackOne(st, order[0], now, Wrapping);
      assert forall c :: c in st.queue ==> c in t.queue;
      NackOutstanding(t, order[1..], now);
    }
  }

  lemma ScanRecent(st: Stream, lastScan: nat, now: nat, timeout: nat)
    requires st.Valid() && st.StampedBy(now) && Recent(st, lastScan) && now <= lastScan + 3 * RETX_SCAN_INTERVAL
    requires timeout <= RETX_TIMEOUT_MAX
    ensures Recent(Scan(st, now, timeout, Wrapping).0, now)
  {
    hide Scan, Outstanding, Stream.Valid;
    ScanOutstanding(st, now, timeout);
  }

  lemma SendRecent(st: Stream, lastScan: nat, now: nat)
    requires st.Valid() && st.StampedBy(now) && Recent(st, lastScan) && lastScan <= now
    ensures Recent(Send(st, now).0, lastScan)
  {
    SendOutstanding(st, now);
    hide Pick, Outstanding, Stream.Valid;
  }

  lemma AckRecent(st: Stream, lastScan: nat, ack: Ack)
    requires st.Valid() && Recent(st, lastScan)
    ensures Recent(ApplyAck(st, ack), lastScan)
  {
    hide Reported;
    AckOutstanding(st, ApplyAck(st, ack));
  }

  lemma NackRecent(st: Stream, lastScan: nat, ranges: seq<(u64, u64)>, now: nat)
    requires st.Valid() && st.StampedBy(now) && Recent(st, lastScan)
    ensures Recent(ApplyNack(st, ranges, now, Wrapping).0, lastScan)
  {
    NackOutstanding(st, NackOrder(st.base, st.Count(), ranges), now);
  }

  lemma StepIsPunctual(k: Conf, e: Event, g: Regime)
    requires Punctual(k) && Allowed(k, e, g) && Workable(g)
    ensures Punctual(Next(k, e, g))
  {
    hide Recent, Stream.Valid, Send, Scan, ApplyAck, ApplyNack, NextFlight, Progresses, CanSend, Write, AckFor;
    var r := Next(k, e, g);
    forall i | 0 <= i < |r.sys.streams| ensures StreamRecent(r.sys, i, r.lastScan) {
      assert ShapedStream(k.sys, i) && ShapedStream(r.sys, i) && StreamRecent(k.sys, i, k.lastScan);
      var st, now := k.sys.streams[i], r.sys.clock;
      if e.SendChunk? { SendRecent(st, k.lastScan, now); }
      if e.DeliverAck? { AckRecent(st, k.lastScan, e.ack); }
      if e.DeliverNack? { NackRecent(st, k.lastScan, e.ranges, now); }
      if e.TimeoutScan? { ScanRecent(st, k.lastScan, now, e.timeout); }
    }
  }

  lemma {:induction false} LoopIsPunctual(k: Conf, es: seq<Event>, g: Regime)
    requires Punctual(k) && Workable(g) && Obeys(k, es, g)
    ensures Punctual(Follow(k, es, g))
    decreases |es|
  {
    hide Next, Allowed, StreamRecent;
    if es != [] {
      StepIsPunctual(k, es[0], g);
      LoopIsPunctual(Next(k, es[0], g), es[1..], g);
    }
  }

  /** In a run of the send loop the ages always fit. */
  lemma PunctualAgesFit(k: Conf)
    requires Punctual(k)
    ensures forall i :: 0 <= i < |k.sys.streams| ==> ScanAgesFit(k.sys.streams[i], 0, k.sys.clock + RETX_SCAN_INTERVAL)
  {
    var now := k.sys.clock + RETX_SCAN_INTERVAL;
    forall i | 0 <= i < |k.sys.streams| ensures ScanAgesFit(k.sys.streams[i], 0, now) {
      assert ShapedStream(k.sys, i) && StreamRecent(k.sys, i, k.lastScan);
      var st := k.sys.streams[i];
      forall c | 0 <= c < st.next ensures ChunkFits(st, c, now) {
        assert c < |st.acked| && !st.acked[c] && !st.flags[c].inRetx ==> c in Outstanding(st);
      }
    }
  }

  /** A whole run of the send loop: after any run it can take, even if everything in the network is then lost,
      it can go on to finish with the output equal to the file, provided it has time enough before it gives
      up and the unacked chunks sent or queued are within reach. */
  lemma LoopRecovers(k: Conf, es: seq<Event>, g: Regime)
    requires Init(k.sys) && Punctual(k) && Workable(g) && Obeys(k, es, g) && InGrace(Follow(k, es + [LoseAll], g))
    ensures exists more ::
      && Obeys(k, es + [LoseAll] + more, g)
      && Follow(k, es + [LoseAll] + more, g).sys.payload > 0
      && Finished(Follow(k, es + [LoseAll] + more, g).sys)
      && Follow(k, es + [LoseAll] + more, g).sys.out == k.sys.file
      && Follow(k, es + [LoseAll] + more, g).sys.clock
         <= Follow(k, es + [LoseAll], g).sys.clock + Grace(Follow(k, es + [LoseAll], g).sys)
  {
    hide Next, Safe, TotalChunks, SumAcked, Stream.Valid, InGrace, WholeInReach, Step, StreamRecent;
    var all := es + [LoseAll];
    FollowOne(Follow(k, es, g), LoseAll, g);
    FollowConcat(k, es, [LoseAll], g);
    LoopIsPunctual(k, all, g);
    var r := Follow(k, all, g);
    PunctualAgesFit(r);
    FollowIsRun(k, all, g);
    RunIsSafe(k.sys, all);
    RunKeepsFile(k.sys, all, Wrapping);
    TiledSame(k.sys.streams, r.sys.streams, TotalChunks(|k.sys.file|, k.sys.payload));
    var more := RecoversFrom(r, g);
    FollowConcat(k, all, more, g);
    FollowIsRun(k, all + more, g);
    FinishedMeansDelivered(k.sys, all + more);
  }
}
