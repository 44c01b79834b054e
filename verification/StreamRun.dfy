/** Whole runs of the cursor-based stream object. Over any sequence of sends, ACKs, NACKs and scans
    on an advancing clock it goes through the states of the sweeping specification and gives the same
    answers; so every run of the transfer protocol is also a run of the objects. */
module StreamRun {
  import opened Words
  import opened StreamSpec
  import opened SenderStream
  import opened Receiver
  import opened Protocol
  import opened ProtocolSafety

  /** What can happen to one stream; dt is how far the clock has moved since the last. */
  datatype Op =
    | Wait(dt: nat)
    | SendNext(dt: nat)
    | TakeAck(ack: Ack, dt: nat)
    | TakeNack(ranges: seq<(u64, u64)>, dt: nat)
    | ScanAt(timeout: u32, dt: nat)

  /** What the operation tells its caller. */
  datatype Answer = Nothing | Sent(c: Option<nat>) | Newly(reports: set<Report>) | Lost(pns: seq<nat>)

  /** The reports of the chunks acked between two states. */
  ghost function ReportsOf(s: Stream, t: Stream, now: nat): set<Report>
    requires s.Valid() && |t.acked| == |s.acked|
  {
    set c | 0 <= c < |s.acked| && !s.acked[c] && t.acked[c] ::
      Report(s.base + c, RttSample(s.flags[c], s.sentAt[c], now, Wrapping))
  }

  ghost function StepStream(s: Stream, clock: nat, op: Op): (r: (Stream, Answer))
    requires s.Valid() && s.StampedBy(clock)
    ensures r.0.Valid() && r.0.StampedBy(clock + op.dt) && r.0.base == s.base && r.0.Count() == s.Count()
  {
    var now := clock + op.dt;
    match op
    case Wait(_) => (s, Nothing)
    case SendNext(_) => var r := Send(s, now); (r.0, Sent(r.1))
    case TakeAck(ack, _) => var t := ApplyAck(s, ack); (t, Newly(ReportsOf(s, t, now)))
    case TakeNack(ranges, _) => var r := ApplyNack(s, ranges, now, Wrapping); (r.0, Lost(Globals(s.base, r.1)))
    case ScanAt(timeout, _) => var r := Scan(s, now, timeout, Wrapping); (r.0, Lost(Globals(s.base, r.1)))
  }

  ghost function RunStream(s: Stream, clock: nat, ops: seq<Op>): (r: (Stream, seq<Answer>))
    requires s.Valid() && s.StampedBy(clock)
    decreases |ops|
  {
    if ops == [] then (s, [])
    else
      var (t, a) := StepStream(s, clock, ops[0]);
      var (u, rest) := RunStream(t, clock + ops[0].dt, ops[1..]);
      (u, [a] + rest)
  }

  /** Every ACK starts at the stream's own base, as the daemon's do. */
  predicate BasedAt(ops: seq<Op>, base: nat) {
    forall i :: 0 <= i < |ops| && ops[i].TakeAck? ==> ops[i].ack.base == base
  }

  lemma ReportsAreExact(newly: seq<Report>, s: Stream, acked: seq<bool>, now: nat)
    requires s.Valid() && ReportsExactly(newly, s.base, s.acked, acked, Samples(s.flags, s.sentAt, now, Wrapping))
    ensures (set r | r in newly) == ReportsOf(s, s.(acked := acked), now)
  {
    var samples := Samples(s.flags, s.sentAt, now, Wrapping);
    var want := ReportsOf(s, s.(acked := acked), now);
    forall r | r in newly ensures r in want {
      var i :| 0 <= i < |newly| && newly[i] == r;
      assert ReportFits(newly[i], s.base, s.acked, acked, samples);
      var c := r.pn - s.base;
      assert samples[c] == RttSample(s.flags[c], s.sentAt[c], now, Wrapping);
    }
    forall r | r in want ensures r in newly {
      var c :| 0 <= c < |s.acked| && !s.acked[c] && acked[c] &&
        r == Report(s.base + c, RttSample(s.flags[c], s.sentAt[c], now, Wrapping));
      assert samples[c] == RttSample(s.flags[c], s.sentAt[c], now, Wrapping);
    }
  }

  /** One operation on the object. */
  method DriveOne(st: StreamState, op: Op, nowUs: u32, ghost clock: nat) returns (a: Answer)
    requires st.Valid() && st.PrefixApplied() && st.View().StampedBy(clock)
    requires nowUs == (clock + op.dt) % U32 && (op.TakeAck? ==> op.ack.base == st.chunkBase)
    modifies st
    ensures st.Valid() && st.PrefixApplied()
    ensures (st.View(), a) == StepStream(old(st.View()), clock, op)
  {
    hide Send, ApplyAck, ApplyNack, Scan, Stream.Valid, CountTrue, Truncates, ReportsOf;
    ghost var now := clock + op.dt;
    ghost var before := st.View();
    a := Nothing;
    match op {
      case Wait(_) =>
      case SendNext(_) =>
        var c := SendOne(st, nowUs, now);
        a := Sent(c);
      case TakeAck(ack, _) =>
        var reports := AckAll(st, ack, nowUs, now);
        a := Newly(reports);
      case TakeNack(ranges, _) =>
        var lost := st.ProcessNack(ranges, nowUs, now);
        assert lost == Globals(before.base, ApplyNack(before, ranges, now, Wrapping).1);
        a := Lost(lost);
      case ScanAt(timeout, _) =>
        var lost := st.QueueTimedOut(nowUs, timeout, now);
        assert lost == Globals(before.base, Scan(before, now, timeout, Wrapping).1);
        a := Lost(lost);
    }
  }

  /** Apply an ACK and collect its reports. */
  method AckAll(st: StreamState, ack: Ack, nowUs: u32, ghost now: nat) returns (reports: set<Report>)
    requires st.Valid() && st.PrefixApplied() && st.View().StampedBy(now) && nowUs == now % U32
    requires ack.base == st.chunkBase
    modifies st
    ensures st.Valid() && st.PrefixApplied() && st.View() == ApplyAck(old(st.View()), ack)
    ensures reports == ReportsOf(old(st.View()), st.View(), now)
  {
    hide ApplyAck, Stream.Valid, CountTrue, Truncates, ReportsOf, ReportsExactly, Samples;
    var newly, _ := st.ProcessAck(ack, nowUs, now, 0, 0);
    reports := set r | r in newly;
    ReportsAreExact(newly, old(st.View()), st.acked, now);
  }

  /** Pick a chunk and stamp it. */
  method SendOne(st: StreamState, nowUs: u32, ghost now: nat) returns (c: Option<nat>)
    requires st.Valid() && st.PrefixApplied() && st.View().StampedBy(now) && nowUs == now % U32
    modifies st
    ensures st.Valid() && st.PrefixApplied()
    ensures (st.View(), c) == Send(old(st.View()), now)
  {
    hide Pick, Stream.Valid, CountTrue, Truncates;
    c := st.PickChunk();
    if c.Some? { st.StampSent(c.value, nowUs, now); }
  }

  /** Any sequence of operations: the object's states and answers are the specification's, and both
      cursors stay sound. */
  method Drive(st: StreamState, ops: seq<Op>, startUs: u32, ghost clock: nat) returns (answers: seq<Answer>)
    requires st.Valid() && st.PrefixApplied() && st.View().StampedBy(clock)
    requires startUs == clock % U32 && BasedAt(ops, st.chunkBase)
    modifies st
    ensures st.Valid() && st.PrefixApplied()
    ensures (st.View(), answers) == RunStream(old(st.View()), clock, ops)
  {
    hide StepStream, StreamState.Valid, Stream.Valid, StreamState.PrefixApplied;
    answers := [];
    var nowUs := startUs;
    ghost var now: nat := clock;
    ViewIsValid(st);
    ghost var all := RunStream(st.View(), clock, ops);
    assert ops[0..] == ops && [] + all.1 == all.1;
    for i := 0 to |ops|
      invariant st.Valid() && st.PrefixApplied() && st.View().Valid() && st.View().StampedBy(now) && nowUs == now % U32
      invariant var rest := RunStream(st.View(), now, ops[i..]); all == (rest.0, answers + rest.1)
    {
      nowUs := Advance(nowUs, ops[i].dt, now);
      assert ops[i..][0] == ops[i] && ops[i..][1..] == ops[i + 1..];
      var a := DriveOne(st, ops[i], nowUs, now);
      now := now + ops[i].dt;
      ghost var rest := RunStream(st.View(), now, ops[i + 1..]);
      assert answers + ([a] + rest.1) == answers + [a] + rest.1;
      answers := answers + [a];
    }
    assert ops[|ops|..] == [] && answers + [] == answers;
  }

  method Advance(nowUs: u32, dt: nat, ghost now: nat) returns (next: u32)
    requires nowUs == now % U32
    ensures next == (now + dt) % U32
  {
    next := (nowUs + dt) % U32;
    assert now + dt == nowUs + dt + U32 * (now / U32);
  }

  lemma ViewIsValid(st: StreamState)
    requires st.Valid()
    ensures st.View().Valid()
  {}

  // ---------- protocol runs, seen from one stream ----------

  /** What an event of the whole transfer does to stream sid. */
  ghost function OpOf(s: Sys, e: Event, sid: nat): Op {
    match e
    case SendChunk(i, dt) => if i >= |s.streams| then Wait(0) else if i == sid then SendNext(dt) else Wait(dt)
    case DeliverAck(i, ack, dt) =>
      if i >= |s.streams| || (i, ack) !in s.acks then Wait(0) else if i == sid then TakeAck(ack, dt) else Wait(dt)
    case DeliverNack(i, ranges, dt) =>
      if i >= |s.streams| then Wait(0) else if i == sid then TakeNack(ranges, dt) else Wait(dt)
    case TimeoutScan(timeout, dt) => ScanAt(timeout, dt)
    case _ => Wait(0)
  }

  ghost function OpsOf(s: Sys, es: seq<Event>, sid: nat): seq<Op>
    requires Shaped(s)
    decreases |es|
  {
    if es == [] then []
    else
      StepShaped(s, es[0], Wrapping);
      [OpOf(s, es[0], sid)] + OpsOf(Step(s, es[0], Wrapping), es[1..], sid)
  }

  /** Every ACK in the network starts at its stream's base. */
  ghost predicate AcksBased(s: Sys) {
    forall i, ack :: (i, ack) in s.acks && i < |s.streams| ==> ack.base == s.streams[i].base
  }

  lemma OpFollowsStep(s: Sys, e: Event, sid: nat)
    requires Shaped(s) && sid < |s.streams| && AcksBased(s)
    ensures var r := Step(s, e, Wrapping);
      && s.streams[sid].Valid() && s.streams[sid].StampedBy(s.clock)
      && |r.streams| == |s.streams| && r.streams[sid] == StepStream(s.streams[sid], s.clock, OpOf(s, e, sid)).0
      && r.clock == s.clock + OpOf(s, e, sid).dt && r.streams[sid].base == s.streams[sid].base
      && (OpOf(s, e, sid).TakeAck? ==> OpOf(s, e, sid).ack.base == s.streams[sid].base)
      && AcksBased(r)
  {
    hide Stream.Valid, Send, ApplyAck, ApplyNack, Scan, ReportsOf;
    assert ShapedStream(s, sid);
    StepShaped(s, e, Wrapping);
  }

  /** Seen from one stream, a run of the protocol is a run of operations whose ACKs start at its base. */
  lemma {:induction false} RunProjects(s: Sys, es: seq<Event>, sid: nat)
    requires Shaped(s) && sid < |s.streams| && AcksBased(s)
    ensures s.streams[sid].Valid() && s.streams[sid].StampedBy(s.clock)
    ensures sid < |Run(s, es, Wrapping).streams|
    ensures RunStream(s.streams[sid], s.clock, OpsOf(s, es, sid)).0 == Run(s, es, Wrapping).streams[sid]
    ensures BasedAt(OpsOf(s, es, sid), s.streams[sid].base)
    decreases |es|
  {
    hide Step, Shaped, Stream.Valid, Stream.StampedBy, OpOf, StepStream, AcksBased;
    assert s.streams[sid].Valid() && s.streams[sid].StampedBy(s.clock) by { OpFollowsStep(s, LoseAll, sid); }
    if es != [] {
      OpFollowsStep(s, es[0], sid);
      StepShaped(s, es[0], Wrapping);
      var t := Step(s, es[0], Wrapping);
      RunProjects(t, es[1..], sid);
      var rest := OpsOf(t, es[1..], sid);
      assert ([OpOf(s, es[0], sid)] + rest)[1..] == rest;
    }
  }

  // ---------- what the answers of a run say ----------

  /** What event i of a run answers on stream sid. */
  ghost function AnswerOf(s: Sys, es: seq<Event>, sid: nat, i: nat): Answer
    requires Shaped(s) && sid < |s.streams| && i < |es|
  {
    var r := Run(s, es[..i], Wrapping);
    RunKeepsFile(s, es[..i], Wrapping);
    assert ShapedStream(r, sid);
    StepStream(r.streams[sid], r.clock, OpOf(r, es[i], sid)).1
  }

  lemma RunSnoc(s: Sys, es: seq<Event>, i: nat)
    requires Shaped(s) && i < |es|
    ensures Run(s, es[..i + 1], Wrapping) == Step(Run(s, es[..i], Wrapping), es[i], Wrapping)
  {
    hide Step, Shaped;
    assert es[..i + 1] == es[..i] + [es[i]];
    RunConcat(s, es[..i], [es[i]]);
    var r := Run(s, es[..i], Wrapping);
    StepShaped(r, es[i], Wrapping);
    assert [es[i]][1..] == [];
    assert Run(r, [es[i]], Wrapping) == Run(Step(r, es[i], Wrapping), [], Wrapping);
  }

  lemma {:induction false} AnswersAre(s: Sys, es: seq<Event>, sid: nat, i: nat)
    requires Shaped(s) && sid < |s.streams| && AcksBased(s) && i < |es|
    ensures s.streams[sid].Valid() && s.streams[sid].StampedBy(s.clock)
    ensures var answers := RunStream(s.streams[sid], s.clock, OpsOf(s, es, sid)).1;
      |answers| == |es| && answers[i] == AnswerOf(s, es, sid, i)
    decreases |es|
  {
    hide Step, Shaped, Stream.Valid, Stream.StampedBy, OpOf, StepStream, AcksBased;
    OpFollowsStep(s, es[0], sid);
    StepShaped(s, es[0], Wrapping);
    var t, rest := Step(s, es[0], Wrapping), es[1..];
    var op, ops := OpOf(s, es[0], sid), OpsOf(t, rest, sid);
    assert ([op] + ops)[1..] == ops;
    AnswerCount(t, rest, sid);
    if i == 0 {
      assert es[..0] == [];
    } else {
      AnswersAre(t, rest, sid, i - 1);
      assert es[..i][1..] == rest[..i - 1];
    }
  }

  lemma {:induction false} AnswerCount(s: Sys, es: seq<Event>, sid: nat)
    requires Shaped(s) && sid < |s.streams| && AcksBased(s)
    ensures s.streams[sid].Valid() && s.streams[sid].StampedBy(s.clock)
    ensures |RunStream(s.streams[sid], s.clock, OpsOf(s, es, sid)).1| == |es|
    decreases |es|
  {
    hide Step, Shaped, Stream.Valid, Stream.StampedBy, OpOf, StepStream, AcksBased;
    assert s.streams[sid].Valid() && s.streams[sid].StampedBy(s.clock) by { OpFollowsStep(s, LoseAll, sid); }
    if es != [] {
      OpFollowsStep(s, es[0], sid);
      StepShaped(s, es[0], Wrapping);
      var t := Step(s, es[0], Wrapping);
      AnswerCount(t, es[1..], sid);
      assert ([OpOf(s, es[0], sid)] + OpsOf(t, es[1..], sid))[1..] == OpsOf(t, es[1..], sid);
    }
  }

  // ---------- flags remember who was queued ----------

  lemma {:induction false} NackMarks(s: Stream, order: seq<nat>, now: nat, c: nat)
    requires s.Valid() && s.StampedBy(now) && c < s.Count()
    ensures var (t, lost) := NackAll(s, order, now, Wrapping);
      |t.flags| == s.Count() && (t.flags[c].retransmitted <==> s.flags[c].retransmitted || c in lost)
    decreases |order|
  {
    if order != [] { NackMarks(NackOne(s, order[0], now, Wrapping), order[1..], now, c); }
  }

  lemma InGlobals(base: nat, cs: seq<nat>, c: nat)
    ensures base + c in Globals(base, cs) <==> c in cs
  {
    if base + c in Globals(base, cs) {
      var i :| 0 <= i < |cs| && Globals(base, cs)[i] == base + c;
      assert cs[i] == c;
    }
    if c in cs {
      var i :| 0 <= i < |cs| && cs[i] == c;
      assert Globals(base, cs)[i] == base + c;
    }
  }

  /** An operation flags exactly the chunks it reports as lost. */
  lemma StepFlags(s: Stream, clock: nat, op: Op, c: nat)
    requires s.Valid() && s.StampedBy(clock) && c < s.Count()
    ensures var (t, a) := StepStream(s, clock, op);
      |t.flags| == |s.flags| == s.Count()
      && (t.flags[c].retransmitted <==> s.flags[c].retransmitted || (a.Lost? && s.base + c in a.pns))
  {
    var now := clock + op.dt;
    match op
    case SendNext(_) => SendFacts(s, now);
    case TakeNack(ranges, _) =>
      NackMarks(s, NackOrder(s.base, s.Count(), ranges), now, c);
      InGlobals(s.base, ApplyNack(s, ranges, now, Wrapping).1, c);
    case ScanAt(timeout, _) => InGlobals(s.base, Scan(s, now, timeout, Wrapping).1, c);
    case _ =>
  }

  ghost predicate EverQueued(s: Sys, es: seq<Event>, sid: nat, i: nat, pn: nat)
    requires Shaped(s) && sid < |s.streams| && i <= |es|
  {
    exists j :: 0 <= j < i && AnswerOf(s, es, sid, j).Lost? && pn in AnswerOf(s, es, sid, j).pns
  }

  lemma {:induction false} FlagHistory(s: Sys, es: seq<Event>, sid: nat, i: nat, c: nat)
    requires Shaped(s) && sid < |s.streams| && AcksBased(s) && i <= |es| && c < s.streams[sid].Count()
    ensures var r := Run(s, es[..i], Wrapping);
      && |r.streams| == |s.streams| && AcksBased(r) && r.streams[sid].base == s.streams[sid].base
      && |r.streams[sid].flags| == |s.streams[sid].flags| == r.streams[sid].Count() == s.streams[sid].Count()
      && (r.streams[sid].flags[c].retransmitted <==>
            s.streams[sid].flags[c].retransmitted || EverQueued(s, es, sid, i, s.streams[sid].base + c))
    decreases i
  {
    hide Step, OpOf, StepStream, AcksBased, Stream.Valid;
    if i == 0 {
      assert es[..0] == [];
      OpFollowsStep(s, LoseAll, sid);
      FlagCount(s, sid);
    } else {
      FlagHistory(s, es, sid, i - 1, c);
      var r := Run(s, es[..i - 1], Wrapping);
      RunSnoc(s, es, i - 1);
      OpFollowsStep(r, es[i - 1], sid);
      StepFlags(r.streams[sid], r.clock, OpOf(r, es[i - 1], sid), c);
      var a, pn := AnswerOf(s, es, sid, i - 1), s.streams[sid].base + c;
      assert EverQueued(s, es, sid, i, pn) <==> EverQueued(s, es, sid, i - 1, pn) || (a.Lost? && pn in a.pns);
    }
  }

  lemma FlagCount(s: Sys, sid: nat)
    requires Shaped(s) && sid < |s.streams|
    ensures |s.streams[sid].flags| == |s.streams[sid].sentAt| == |s.sends[sid]| == s.streams[sid].Count()
  {
    assert ShapedStream(s, sid);
  }

  // ---------- stamps remember when ----------

  /** Event e sends chunk c of stream sid exactly when the answer says so, and then the stamp is its time. */
  lemma StepSends(r: Sys, e: Event, sid: nat, c: nat)
    requires Shaped(r) && sid < |r.streams| && c < r.streams[sid].Count() && AcksBased(r)
    ensures r.streams[sid].Valid() && r.streams[sid].StampedBy(r.clock)
    ensures var t := Step(r, e, Wrapping); var a := StepStream(r.streams[sid], r.clock, OpOf(r, e, sid)).1;
      && |t.streams| == |t.sends| == |r.sends| == |r.streams| && |t.sends[sid]| == |r.sends[sid]| == r.streams[sid].Count()
      && |t.streams[sid].sentAt| == |r.streams[sid].sentAt| == r.streams[sid].Count()
      && t.sends[sid][c] == r.sends[sid][c] + (if a == Sent(Some(c)) then 1 else 0)
      && t.streams[sid].sentAt[c] == if a == Sent(Some(c)) then t.clock else r.streams[sid].sentAt[c]
  {
    hide Pick, Reported, ApplyNack, Scan, ReportsOf, Stream.Valid;
    assert ShapedStream(r, sid);
    FlagCount(r, sid);
    StepShaped(r, e, Wrapping);
    FlagCount(Step(r, e, Wrapping), sid);
  }

  ghost predicate SentBy(s: Sys, es: seq<Event>, sid: nat, j: nat, c: nat)
    requires Shaped(s) && sid < |s.streams|
  {
    j < |es| && AnswerOf(s, es, sid, j) == Sent(Some(c))
  }

  /** Event j alone sends the chunk, among the first i. */
  ghost predicate OnlySend(s: Sys, es: seq<Event>, sid: nat, i: nat, j: nat, c: nat)
    requires Shaped(s) && sid < |s.streams|
  {
    j < i && SentBy(s, es, sid, j, c) && forall k :: 0 <= k < i && SentBy(s, es, sid, k, c) ==> k == j
  }

  ghost predicate SentUpTo(s: Sys, es: seq<Event>, sid: nat, i: nat, c: nat)
    requires Shaped(s) && sid < |s.streams| && i <= |es| && c < s.streams[sid].Count()
  {
    var r := Run(s, es[..i], Wrapping);
    && |r.streams| == |r.sends| == |s.streams|
    && |r.sends[sid]| == |r.streams[sid].sentAt| == r.streams[sid].Count() == s.streams[sid].Count()
    && (r.sends[sid][c] == 0 ==> forall k :: 0 <= k < i ==> !SentBy(s, es, sid, k, c))
    && (r.sends[sid][c] == 1 ==>
          exists j :: OnlySend(s, es, sid, i, j, c) && r.streams[sid].sentAt[c] == Run(s, es[..j + 1], Wrapping).clock)
  }

  /** The counted sends are the answered ones, and the stamp of a chunk sent once is the time of that send. */
  lemma {:induction false} SendHistory(s: Sys, es: seq<Event>, sid: nat, i: nat, c: nat)
    requires Shaped(s) && sid < |s.streams| && AcksBased(s) && i <= |es| && c < s.streams[sid].Count()
    requires |s.sends[sid]| == s.streams[sid].Count() && s.sends[sid][c] == 0
    ensures SentUpTo(s, es, sid, i, c)
    decreases i
  {
    hide Step, OpOf, StepStream, AcksBased, Stream.Valid;
    FlagHistory(s, es, sid, i, c);
    if i == 0 {
      assert es[..0] == [];
      FlagCount(s, sid);
    } else {
      SendHistory(s, es, sid, i - 1, c);
      FlagHistory(s, es, sid, i - 1, c);
      var r := Run(s, es[..i - 1], Wrapping);
      RunSnoc(s, es, i - 1);
      StepSends(r, es[i - 1], sid, c);
      StepShaped(r, es[i - 1], Wrapping);
      SendOneMore(s, es, sid, i, c);
    }
  }

  lemma SendOneMore(s: Sys, es: seq<Event>, sid: nat, i: nat, c: nat)
    requires Shaped(s) && sid < |s.streams| && 0 < i <= |es| && c < s.streams[sid].Count()
    requires SentUpTo(s, es, sid, i - 1, c)
    requires var r, t := Run(s, es[..i - 1], Wrapping), Run(s, es[..i], Wrapping);
      && |t.streams| == |t.sends| == |s.streams|
      && |t.sends[sid]| == |t.streams[sid].sentAt| == t.streams[sid].Count() == s.streams[sid].Count()
      && t.sends[sid][c] == r.sends[sid][c] + (if SentBy(s, es, sid, i - 1, c) then 1 else 0)
      && t.streams[sid].sentAt[c] == if SentBy(s, es, sid, i - 1, c) then t.clock else r.streams[sid].sentAt[c]
    ensures SentUpTo(s, es, sid, i, c)
  {
    hide Run, Shaped, AnswerOf;
    var r, t := Run(s, es[..i - 1], Wrapping), Run(s, es[..i], Wrapping);
    if t.sends[sid][c] == 1 {
      if SentBy(s, es, sid, i - 1, c) {
        assert OnlySend(s, es, sid, i, i - 1, c);
      } else {
        var j :| OnlySend(s, es, sid, i - 1, j, c) && r.streams[sid].sentAt[c] == Run(s, es[..j + 1], Wrapping).clock;
        assert OnlySend(s, es, sid, i, j, c);
      }
    }
  }

  // ---------- Karn's rule in the answers ----------

  /** A report of event i: of a chunk acked by it; with a sample if and only if no scan or NACK before has queued the
      chunk (and the start had not); and the sample is the time since the chunk's one and only send, floored at
      one microsecond and read on the 32-bit clock. */
  ghost predicate ReportIsKarn(s: Sys, es: seq<Event>, sid: nat, i: nat, rep: Report)
    requires Shaped(s) && sid < |s.streams| && i < |es| && |s.streams[sid].flags| == s.streams[sid].Count()
  {
    var c := rep.pn - s.streams[sid].base;
    && 0 <= c < s.streams[sid].Count()
    && (rep.rtt.Some? <==> !s.streams[sid].flags[c].retransmitted && !EverQueued(s, es, sid, i, rep.pn))
    && (rep.rtt.Some? ==> exists j ::
          && OnlySend(s, es, sid, i, j, c)
          && rep.rtt.value == Max((Run(s, es[..i + 1], Wrapping).clock - Run(s, es[..j + 1], Wrapping).clock) % U32, 1))
  }

  /** A newly acked chunk that is not flagged has been sent exactly once. */
  lemma AckedOnceSent(r: Sys, sid: nat, ack: Ack, c: nat)
    requires Inv(r) && r.extra == {} && sid < |r.streams| && (sid, ack) in r.acks && c < r.streams[sid].Count()
    requires r.streams[sid].Valid() && !r.streams[sid].acked[c] && ApplyAck(r.streams[sid], ack).acked[c]
    requires |r.sends[sid]| == |r.streams[sid].flags| == r.streams[sid].Count() && !r.streams[sid].flags[c].retransmitted
    ensures r.sends[sid][c] == 1
  {
    hide Reported, Agrees, Stream.Valid;
    assert ShapedStream(r, sid) && Safe(r, sid);
    assert r.received[sid][c];
  }

  /** The answers to ACKs obey Karn's rule in every run whose two ends start with the same marks. */
  lemma ReportsObeyKarn(s: Sys, es: seq<Event>, sid: nat, i: nat, rep: Report)
    requires Init(s) && s.extra == {} && sid < |s.streams| && i < |es| && |s.streams[sid].flags| == s.streams[sid].Count()
    requires AnswerOf(s, es, sid, i).Newly? && rep in AnswerOf(s, es, sid, i).reports
    ensures ReportIsKarn(s, es, sid, i, rep)
  {
    hide Step, Run, Inv, Shaped, ShapedStream, Stream.Valid, ApplyAck, StepStream, OpOf, Init, ReportIsKarn, SentUpTo,
      EverQueued, AcksBased;
    RunFacts(s, es, sid, i);
    var r := Run(s, es[..i], Wrapping);
    RunSnoc(s, es, i);
    AckIsReported(r, es[i], sid, rep);
    var c := rep.pn - r.streams[sid].base;
    FlagHistory(s, es, sid, i, c);
    SendHistory(s, es, sid, i, c);
    KarnConcludes(s, es, sid, i, rep, c);
  }

  lemma RunFacts(s: Sys, es: seq<Event>, sid: nat, i: nat)
    requires Init(s) && s.extra == {} && sid < |s.streams| && i <= |es|
    ensures Shaped(s) && AcksBased(s) && |s.sends| == |s.streams| && |s.sends[sid]| == s.streams[sid].Count()
    ensures forall c :: 0 <= c < s.streams[sid].Count() ==> s.sends[sid][c] == 0
    ensures var r := Run(s, es[..i], Wrapping);
      && Inv(r) && Shaped(r) && r.extra == {}
      && |r.streams| == |r.received| == |r.sends| == |s.streams| && ShapedStream(r, sid)
      && r.streams[sid].base == s.streams[sid].base && r.streams[sid].Count() == s.streams[sid].Count()
      && r.streams[sid].Valid() && r.streams[sid].StampedBy(r.clock)
      && |r.streams[sid].flags| == |r.streams[sid].sentAt| == |r.sends[sid]| == r.streams[sid].Count()
  {
    assert Unsent(s, sid) && ShapedStream(s, sid);
    hide Step, Safe, Stream.Valid;
    RunIsSafe(s, es[..i]);
    RunKeepsExtra(s, es[..i], Wrapping);
    RunKeepsFile(s, es[..i], Wrapping);
    var r := Run(s, es[..i], Wrapping);
    FlagCount(r, sid);
    assert ShapedStream(r, sid);
  }

  /** An answer that reports belongs to an applied ACK, and its reports to chunks acked by it. */
  lemma AckIsReported(r: Sys, e: Event, sid: nat, rep: Report)
    requires Shaped(r) && sid < |r.streams| && r.streams[sid].Valid() && r.streams[sid].StampedBy(r.clock)
    requires |r.streams[sid].flags| == |r.streams[sid].sentAt| == r.streams[sid].Count()
    requires var a := StepStream(r.streams[sid], r.clock, OpOf(r, e, sid)).1; a.Newly? && rep in a.reports
    ensures e.DeliverAck? && e.sid == sid && (sid, e.ack) in r.acks
    ensures var st := r.streams[sid]; var c := rep.pn - st.base;
      && 0 <= c < st.Count() && !st.acked[c] && ApplyAck(st, e.ack).acked[c]
      && rep.rtt == if st.flags[c].retransmitted then None else Some(Max((r.clock + e.dt - st.sentAt[c]) % U32, 1))
    ensures Step(r, e, Wrapping).clock == r.clock + e.dt
  {
    hide Send, ApplyNack, Scan, Reported;
  }

  lemma KarnConcludes(s: Sys, es: seq<Event>, sid: nat, i: nat, rep: Report, c: nat)
    requires Shaped(s) && sid < |s.streams| && i < |es| && |s.streams[sid].flags| == s.streams[sid].Count()
    requires c < s.streams[sid].Count() && rep.pn == s.streams[sid].base + c && SentUpTo(s, es, sid, i, c)
    requires var r := Run(s, es[..i], Wrapping);
      && Inv(r) && r.extra == {} && ShapedStream(r, sid)
      && |r.streams[sid].flags| == |r.sends[sid]| == r.streams[sid].Count()
      && es[i].DeliverAck? && es[i].sid == sid && (sid, es[i].ack) in r.acks
      && (r.streams[sid].flags[c].retransmitted <==>
            s.streams[sid].flags[c].retransmitted || EverQueued(s, es, sid, i, rep.pn))
      && !r.streams[sid].acked[c] && ApplyAck(r.streams[sid], es[i].ack).acked[c]
      && rep.rtt == (if r.streams[sid].flags[c].retransmitted then None
                     else Some(Max((r.clock + es[i].dt - r.streams[sid].sentAt[c]) % U32, 1)))
      && Run(s, es[..i + 1], Wrapping).clock == r.clock + es[i].dt
    ensures ReportIsKarn(s, es, sid, i, rep)
  {
    hide Run, Shaped, AnswerOf, Stream.Valid, ApplyAck, OnlySend, EverQueued, Inv;
    var r := Run(s, es[..i], Wrapping);
    if rep.rtt.Some? { AckedOnceSent(r, sid, es[i].ack, c); }
  }

  /** The reports that carry a sample are exactly the samples the same ACK adds to the transfer's. */
  lemma ReportsAreSamples(r: Sys, sid: nat, ack: Ack, dt: nat, pn: nat, rtt: nat)
    requires Shaped(r) && sid < |r.streams| && (sid, ack) in r.acks && ShapedStream(r, sid)
    ensures StepStream(r.streams[sid], r.clock, TakeAck(ack, dt)).1.Newly?
    ensures Report(pn, Some(rtt)) in StepStream(r.streams[sid], r.clock, TakeAck(ack, dt)).1.reports <==>
      exists x :: x in Taken(r, sid, ack, r.clock + dt, Wrapping) && pn == r.streams[sid].base + x.c && rtt == x.rtt
  {
    hide Reported, TotalChunks;
    var st := r.streams[sid];
    if Report(pn, Some(rtt)) in StepStream(st, r.clock, TakeAck(ack, dt)).1.reports {
      var c := pn - st.base;
      assert SampleOf(r, sid, c, r.clock + dt, Wrapping) in Taken(r, sid, ack, r.clock + dt, Wrapping);
    }
  }

  /** Every chunk an ACK newly marks is reported. */
  lemma NewlyAckedIsReported(r: Sys, sid: nat, ack: Ack, dt: nat, c: nat)
    requires Shaped(r) && sid < |r.streams| && ShapedStream(r, sid) && c < r.streams[sid].Count()
    requires !r.streams[sid].acked[c] && ApplyAck(r.streams[sid], ack).acked[c]
    ensures StepStream(r.streams[sid], r.clock, TakeAck(ack, dt)).1.Newly?
    ensures exists rep :: rep in StepStream(r.streams[sid], r.clock, TakeAck(ack, dt)).1.reports
                          && rep.pn == r.streams[sid].base + c
  {
    hide Reported, TotalChunks;
    var st := r.streams[sid];
    assert Report(st.base + c, RttSample(st.flags[c], st.sentAt[c], r.clock + dt, Wrapping))
           in ReportsOf(st, ApplyAck(st, ack), r.clock + dt);
  }

  /** The object of stream sid, driven through any run of the protocol, ends in that run's stream and gives the
      run's answers: what is proved of every run holds of the cursor-based objects, Karn's rule included. */
  method FollowRun(st: StreamState, ops: seq<Op>, startUs: u32, ghost s: Sys, ghost es: seq<Event>, ghost sid: nat)
    returns (answers: seq<Answer>)
    requires Init(s) && sid < |s.streams| && st.Valid() && st.PrefixApplied() && st.View() == s.streams[sid]
    requires startUs == s.clock % U32 && ops == OpsOf(s, es, sid)
    modifies st
    ensures st.Valid() && st.PrefixApplied() && Inv(Run(s, es, Wrapping))
    ensures sid < |Run(s, es, Wrapping).streams| && st.View() == Run(s, es, Wrapping).streams[sid]
    ensures |answers| == |es| && |s.streams[sid].flags| == s.streams[sid].Count()
    ensures forall i :: 0 <= i < |es| ==> answers[i] == AnswerOf(s, es, sid, i)
    ensures s.extra == {} ==> forall i, rep :: 0 <= i < |es| && answers[i].Newly? && rep in answers[i].reports ==>
      ReportIsKarn(s, es, sid, i, rep)
  {
    FlagCount(s, sid);
    hide Step, StreamState.Valid, StreamState.PrefixApplied, Stream.Valid, Safe, AnswerOf, ReportIsKarn, RunStream, OpsOf;
    RunProjects(s, es, sid);
    RunIsSafe(s, es);
    answers := Drive(st, ops, startUs, s.clock);
    AnswerCount(s, es, sid);
    forall i | 0 <= i < |es| ensures answers[i] == AnswerOf(s, es, sid, i) { AnswersAre(s, es, sid, i); }
    if s.extra == {} {
      forall i, rep | 0 <= i < |es| && answers[i].Newly? && rep in answers[i].reports
        ensures ReportIsKarn(s, es, sid, i, rep)
      {
        ReportsObeyKarn(s, es, sid, i, rep);
      }
    }
  }
}
