/** What holds of the Classic controller over every run of its callbacks. */
module ClassicSafety {
  import opened Words
  import opened RoundTrip
  import opened ClassicSpec

  // ---------- strikes, slow start and the floor ----------

  /** Strikes never reach the number that would admit a loss, and lag the closed rounds by one; a
      controller that has cut remembers both when and at what mark. */
  ghost predicate Inv(c: Classic) {
    && c.externalMinCwnd == MIN_CWND <= c.cwnd
    && c.rounds.plateau < STARTUP_PLATEAU_ROUNDS
    && (c.rounds.count == 0 ==> c.rounds.plateau == 0 && c.rounds.fullBytes == 0)
    && c.rounds.plateau <= SatSub(c.rounds.count, 1)
    && (c.epoch.mark.Some? <==> c.epoch.time.Some?)
  }

  lemma LossKeeps(c: Classic, firstLoss: nat, now: nat)
    requires Inv(c)
    ensures Inv(ApplyLoss(c, firstLoss, now))
  {
    hide LossTarget;
    TargetBounds(c);
  }

  /** A cut lands between the floor and the larger of the floor and seven eighths. */
  lemma TargetBounds(c: Classic)
    ensures c.externalMinCwnd <= LossTarget(c) <= Max(c.externalMinCwnd, c.cwnd * 7 / 8)
  {
    hide WindowExceedsBdp, Bdp;
    assert WindowExceedsBdp(c) ==> c.rtt.min.Some? by { NeedsMin(c); }
  }

  lemma NeedsMin(c: Classic)
    ensures WindowExceedsBdp(c) ==> c.rtt.min.Some?
  {}

  /** The third strike can only come in the fourth or a later round, so the exit takes it at once. */
  lemma RoundKeeps(c: Classic, delivered: nat, pn: nat)
    requires Inv(c)
    ensures var d := TrackRound(c, delivered, pn);
      && Inv(d) && (d.slowStart ==> c.slowStart && d.cwnd == c.cwnd) && d.cwnd <= c.cwnd && d.rtt == c.rtt
      && d.bwEstimate == c.bwEstimate && SameCut(c, d)
  {
    var r := c.rounds.(delivered := c.rounds.delivered + delivered);
    var closed := CloseRound(r, c.slowStart, c.cwnd, c.sndCurrSeq);
    assert closed.plateau <= c.rounds.plateau + 1 && closed.count == c.rounds.count + 1;
    assert closed.plateau >= STARTUP_PLATEAU_ROUNDS ==> c.slowStart;
  }

  /** The record of the last cut is unchanged. */
  ghost predicate SameCut(c: Classic, d: Classic) { d.epoch == c.epoch }

  lemma DelayKeeps(c: Classic)
    ensures var d := CheckDelaySignal(c);
      && d.cwnd == c.cwnd && SameCut(c, d) && (d.slowStart ==> c.slowStart) && (Inv(c) ==> Inv(d))
      && d.rtt == c.rtt && d.bwEstimate == c.bwEstimate
  {}

  lemma GrowthKeeps(c: Classic, delivered: nat)
    requires Inv(c)
    ensures var d := AvoidanceAck(c, delivered); Inv(d) && SameCut(c, d) && (d.slowStart ==> c.slowStart) && d.rtt == c.rtt
    ensures var d := SlowStartAck(c, delivered); Inv(d) && SameCut(c, d) && (d.slowStart ==> c.slowStart) && d.rtt == c.rtt
  {
    hide Ramped, Increase, CheckDelaySignal;
    RampedBounds(c, delivered);
    DelayKeeps(c.(cwnd := Ramped(c, delivered)));
  }

  lemma AckKeeps(c: Classic, pn: nat, delivered: nat, rate: nat, now: nat)
    requires Inv(c)
    ensures var d := OnAckReceived(c, pn, delivered, rate, now);
      Inv(d) && (d.slowStart ==> c.slowStart) && SameCut(c, d) && d.rtt == c.rtt
  {
    hide TrackRound, SlowStartAck, AvoidanceAck;
    var b := c.(cadence := TrackBatch(c.cadence, now));
    RoundKeeps(b, delivered, pn);
    GrowthKeeps(SmoothBandwidth(TrackRound(b, delivered, pn), rate), delivered);
  }

  lemma RampedBounds(c: Classic, delivered: nat)
    ensures c.cwnd <= Ramped(c, delivered) <= c.cwnd + delivered
    ensures c.rtt.smoothed.Some? && c.rtt.smoothed.value > 0 && c.bwEstimate > 0 ==>
      Ramped(c, delivered) <= Max(Max(Bdp(3 * c.bwEstimate, c.rtt.smoothed.value), c.externalMinCwnd), c.cwnd)
  {
    hide Bdp;
  }

  lemma StepKeeps(c: Classic, e: Event)
    requires Inv(c)
    ensures Inv(Step(c, e)) && (Step(c, e).slowStart ==> c.slowStart)
    ensures !e.Lost? ==> SameCut(c, Step(c, e))
  {
    hide OnAckReceived, ApplyLoss, CongestionEvidence, Update, UpdateBatch;
    match e
    case Acked(pn, delivered, rate, now) => AckKeeps(c, pn, delivered, rate, now);
    case Lost(lost, now) =>
      if |lost| >= 3 {
        LossKeeps(c, lost[0], now);
        LossLeavesSlowStart(c, lost[0], now);
      }
    case _ =>
  }

  lemma LossLeavesSlowStart(c: Classic, firstLoss: nat, now: nat)
    ensures ApplyLoss(c, firstLoss, now).slowStart ==> c.slowStart
  {}

  lemma {:induction false} RunKeeps(c: Classic, es: seq<Event>)
    requires Inv(c)
    ensures Inv(Run(c, es)) && (Run(c, es).slowStart ==> c.slowStart)
    decreases |es|
  {
    hide Step, Inv;
    if es != [] {
      StepKeeps(c, es[0]);
      RunKeeps(Step(c, es[0]), es[1..]);
    }
  }

  /** In every reachable state: at most two strikes, so a plateau never by itself admits a loss; the
      window never below four packets; and once slow start has ended it has ended for good. */
  lemma ClassicIsSafe(es: seq<Event>, later: seq<Event>)
    ensures var c := Run(New(), es);
      && c.rounds.plateau <= 2 && c.rounds.plateau <= SatSub(c.rounds.count, 1)
      && c.cwnd >= 4 * MTU
      && CongestionEvidence(c) != Plateau
      && (!c.slowStart ==> !Run(c, later).slowStart)
  {
    hide Run, WindowExceedsBdp, QueueBuilt;
    RunKeeps(New(), es);
    RunKeeps(Run(New(), es), later);
  }

  // ---------- when a report cuts ----------

  /** A loss report cuts exactly when it names three packets, there is evidence, and it opens a new
      epoch by its first index or by the deadline; otherwise it changes nothing at all. */
  lemma CutsIff(c: Classic, lost: seq<nat>, now: nat)
    ensures var d := OnPacketLost(c, lost, now);
      var opens := |lost| >= 3 && !CongestionEvidence(c).NoEvidence? && (!SameEpoch(c, lost[0]) || EpochExpired(c, now));
      && (opens <==> d.epoch.cuts == c.epoch.cuts + 1) && (!opens <==> d == c)
      && (opens ==> d.epoch.mark == Some(c.sndCurrSeq) && d.epoch.time == Some(now) && !d.slowStart
                    && c.externalMinCwnd <= d.cwnd <= Max(c.externalMinCwnd, c.cwnd * 7 / 8))
  {
    hide CongestionEvidence, SameEpoch, EpochExpired, LossTarget;
    TargetBounds(c);
  }

  lemma StepCuts(c: Classic, e: Event)
    requires Inv(c)
    ensures Step(c, e).epoch.cuts == c.epoch.cuts || Step(c, e).epoch.cuts == c.epoch.cuts + 1
    ensures Step(c, e).epoch.cuts == c.epoch.cuts ==> SameCut(c, Step(c, e))
  {
    hide OnPacketLost, OnAckReceived, CongestionEvidence, SameEpoch, EpochExpired, Inv, Update, UpdateBatch;
    match e
    case Lost(lost, now) => CutsIff(c, lost, now);
    case _ => StepKeeps(c, e);
  }

  lemma {:induction false} RunCuts(c: Classic, es: seq<Event>)
    requires Inv(c)
    ensures Run(c, es).epoch.cuts >= c.epoch.cuts
    ensures Run(c, es).epoch.cuts == c.epoch.cuts ==> SameCut(c, Run(c, es))
    decreases |es|
  {
    hide Step, Inv;
    if es != [] {
      StepKeeps(c, es[0]);
      StepCuts(c, es[0]);
      RunCuts(Step(c, es[0]), es[1..]);
    }
  }

  /** Two successive cuts, whatever happens between them: the second report starts above everything
      sent by the first cut, or comes at least sixteen smoothed RTTs after it. */
  lemma CutsAreSpaced(c: Classic, lost1: seq<nat>, t1: nat, between: seq<Event>, lost2: seq<nat>, t2: nat)
    requires Inv(c)
    requires var d := OnPacketLost(c, lost1, t1);
      var e := Run(d, between);
      d.epoch.cuts > c.epoch.cuts && e.epoch.cuts == d.epoch.cuts && OnPacketLost(e, lost2, t2).epoch.cuts > e.epoch.cuts
    ensures var e := Run(OnPacketLost(c, lost1, t1), between);
      |lost2| >= 3 && (lost2[0] > c.sndCurrSeq || t2 - t1 >= 16 * EpochRtt(e))
  {
    hide Run, OnPacketLost, CongestionEvidence, Inv, EpochRtt;
    CutsIff(c, lost1, t1);
    var d := OnPacketLost(c, lost1, t1);
    assert Inv(d) by { LostKeeps(c, lost1, t1); }
    RunCuts(d, between);
    CutsIff(Run(d, between), lost2, t2);
  }

  lemma LostKeeps(c: Classic, lost: seq<nat>, now: nat)
    requires Inv(c)
    ensures Inv(OnPacketLost(c, lost, now))
  {
    StepKeeps(c, Lost(lost, now));
  }

  // ---------- the brake ----------

  ghost predicate NoAcks(es: seq<Event>) { forall i :: 0 <= i < |es| ==> !es[i].Acked? }

  /** The window after k cuts from a start: at the floor, or at most (7/8)^k of the start. */
  ghost predicate Decayed(cwnd: nat, start: nat, k: nat) { cwnd == MIN_CWND || Pow(8, k) * cwnd <= Pow(7, k) * start }

  lemma DecayStep(cwnd: nat, next: nat, start: nat, k: nat)
    requires MIN_CWND <= next <= Max(MIN_CWND, cwnd * 7 / 8) && Decayed(cwnd, start, k) && MIN_CWND <= cwnd
    ensures Decayed(next, start, k + 1)
  {
    if next != MIN_CWND {
      assert 8 * next <= 7 * cwnd;
      var p, q := Pow(8, k), Pow(7, k);
      MulMono(8 * next, 7 * cwnd, p);
      assert 8 * p * next == (8 * next) * p && (7 * cwnd) * p == 7 * (p * cwnd) && 7 * q * start == 7 * (q * start);
    }
  }

  /** Without ACKs the window falls by at least an eighth at every cut, down to the floor. */
  lemma {:induction false} NoAckRunDecays(c: Classic, es: seq<Event>, start: nat, k: nat)
    requires Inv(c) && NoAcks(es) && Decayed(c.cwnd, start, k)
    ensures var d := Run(c, es); d.epoch.cuts >= c.epoch.cuts && Decayed(d.cwnd, start, k + (d.epoch.cuts - c.epoch.cuts))
    decreases |es|
  {
    hide Step, Inv, Decayed;
    if es != [] {
      var d := Step(c, es[0]);
      assert !es[0].Acked?;
      StepKeeps(c, es[0]);
      StepDecays(c, es[0], start, k);
      forall i | 1 <= i < |es| ensures es[1..][i - 1] == es[i] {}
      NoAckRunDecays(d, es[1..], start, k + (d.epoch.cuts - c.epoch.cuts));
    }
  }

  lemma StepDecays(c: Classic, e: Event, start: nat, k: nat)
    requires Inv(c) && !e.Acked? && Decayed(c.cwnd, start, k)
    ensures var d := Step(c, e); d.epoch.cuts >= c.epoch.cuts && Decayed(d.cwnd, start, k + (d.epoch.cuts - c.epoch.cuts))
  {
    hide OnPacketLost, CongestionEvidence, SameEpoch, EpochExpired, Decayed, Update, UpdateBatch;
    if e.Lost? {
      CutsIff(c, e.lost, e.now);
      var d := OnPacketLost(c, e.lost, e.now);
      if d != c { DecayStep(c.cwnd, d.cwnd, start, k); }
    }
  }

  /** At least k reports of the run name three packets, find evidence, and come past the deadline. */
  ghost predicate DeadlineReports(c: Classic, es: seq<Event>, k: nat)
    decreases |es|
  {
    if es == [] then k == 0
    else
      var due := es[0].Lost? && |es[0].lost| >= 3 && !CongestionEvidence(c).NoEvidence?
                 && (c.epoch.time.None? || EpochExpired(c, es[0].now));
      DeadlineReports(Step(c, es[0]), es[1..], if due && k > 0 then k - 1 else k)
  }

  lemma {:induction false} DeadlineReportsCut(c: Classic, es: seq<Event>, k: nat)
    requires Inv(c) && DeadlineReports(c, es, k)
    ensures Run(c, es).epoch.cuts >= c.epoch.cuts + k
    decreases |es|
  {
    if es == [] {
    } else {
      var d := Step(c, es[0]);
      StepKeeps(c, es[0]);
      StepCuts(c, es[0]);
      if es[0].Lost? { CutsIff(c, es[0].lost, es[0].now); }
      hide Step, Inv, CongestionEvidence, EpochExpired;
      var due := es[0].Lost? && |es[0].lost| >= 3 && !CongestionEvidence(c).NoEvidence?
                 && (c.epoch.time.None? || EpochExpired(c, es[0].now));
      DeadlineReportsCut(d, es[1..], if due && k > 0 then k - 1 else k);
    }
  }

  /** k reports with evidence, each past the deadline, and no ACK between: the window is at the floor
      or at most (7/8)^k of where it began, however stale the reported indices. */
  lemma BrakeCannotBeBlocked(c: Classic, es: seq<Event>, k: nat)
    requires Inv(c) && NoAcks(es) && DeadlineReports(c, es, k)
    ensures var d := Run(c, es); d.cwnd == MIN_CWND || Pow(8, k) * d.cwnd <= Pow(7, k) * c.cwnd
  {
    hide Run, Inv, DeadlineReports;
    DeadlineReportsCut(c, es, k);
    NoAckRunDecays(c, es, c.cwnd, 0);
    var d := Run(c, es);
    if d.cwnd != MIN_CWND { MoreCutsLower(d.cwnd, c.cwnd, k, d.epoch.cuts - c.epoch.cuts); }
  }

  lemma PowTimes(base: nat, n: nat, x: nat)
    requires n > 0
    ensures Pow(base, n) * x == base * (Pow(base, n - 1) * x)
  {}

  lemma {:induction false} MoreCutsLower(cwnd: nat, start: nat, k: nat, n: nat)
    requires k <= n && Pow(8, n) * cwnd <= Pow(7, n) * start
    ensures Pow(8, k) * cwnd <= Pow(7, k) * start
    decreases n
  {
    if k < n {
      PowTimes(8, n, cwnd);
      PowTimes(7, n, start);
      hide Pow;
      MoreCutsLower(cwnd, start, k, n - 1);
    }
  }

  // ---------- the ramp ----------

  /** What the ramp is promised of its inputs: positive RTTs up to s, one of them before any ACK, and
      nonzero delivery rates up to r. */
  ghost predicate RampInput(c: Classic, e: Event, r: nat, s: nat) {
    match e
    case Acked(_, _, rate, _) => 0 < rate <= r && c.rtt.smoothed.Some?
    case RttSample(rtt) => 0 < rtt <= s
    case RttBatch(mean, min) => 0 < mean <= s && 0 < min
    case _ => true
  }

  ghost predicate RampInputs(c: Classic, es: seq<Event>, r: nat, s: nat)
    decreases |es|
  {
    es != [] ==> RampInput(c, es[0], r, s) && RampInputs(Step(c, es[0]), es[1..], r, s)
  }

  ghost predicate RampInv(c: Classic, r: nat, s: nat) {
    && Inv(c) && Within(c.rtt, 1, s) && c.bwEstimate <= r
    && (c.slowStart ==> c.cwnd <= Max(INITIAL_CWND, Bdp(3 * r, s)))
  }

  lemma BdpMonotone(a: nat, b: nat, c: nat, d: nat)
    requires a <= b && c <= d
    ensures Bdp(a, c) <= Bdp(b, d)
  {
    MulMono(a, b, c);
    MulMono(c, d, b);
    assert a * c <= b * d;
  }

  lemma RampAck(c: Classic, e: Event, r: nat, s: nat)
    requires e.Acked? && RampInv(c, r, s) && RampInput(c, e, r, s)
    ensures RampInv(Step(c, e), r, s)
  {
    hide TrackRound, Ramped, Increase, Bdp, Within, Inv;
    var b := c.(cadence := TrackBatch(c.cadence, e.now));
    assert Inv(b) by { BatchKeeps(c, b.cadence); }
    RoundKeeps(b, e.delivered, e.pn);
    var d := SmoothBandwidth(TrackRound(b, e.delivered, e.pn), e.rate);
    assert 0 < d.bwEstimate <= r;
    StepKeeps(c, e);
    RampedBounds(d, e.delivered);
    assert 0 < d.rtt.smoothed.value <= s by { WithinBounds(c.rtt, s); }
    assert d.externalMinCwnd <= INITIAL_CWND by { FloorIs(TrackRound(b, e.delivered, e.pn)); }
    BdpMonotone(3 * d.bwEstimate, 3 * r, d.rtt.smoothed.value, s);
  }

  lemma BatchKeeps(c: Classic, k: Cadence)
    requires Inv(c)
    ensures Inv(c.(cadence := k))
  {}

  lemma FloorIs(c: Classic)
    requires Inv(c)
    ensures c.externalMinCwnd == MIN_CWND
  {}

  lemma WithinBounds(r: Rtt, s: nat)
    requires Within(r, 1, s) && r.smoothed.Some?
    ensures 0 < r.smoothed.value <= s
  {}

  lemma RampStep(c: Classic, e: Event, r: nat, s: nat)
    requires RampInv(c, r, s) && RampInput(c, e, r, s)
    ensures RampInv(Step(c, e), r, s)
  {
    if e.Acked? {
      RampAck(c, e, r, s);
    } else {
      hide OnAckReceived, OnPacketLost, CongestionEvidence, Within, Bdp, Inv;
      StepKeeps(c, e);
      match e
      case RttSample(rtt) => UpdateKeepsWithin(c.rtt, rtt, rtt, 1, s);
      case RttBatch(mean, min) => UpdateKeepsWithin(c.rtt, mean, min, 1, s);
      case Lost(lost, now) => LostKeepsReadings(c, lost, now);
      case Sent(_) =>
    }
  }

  lemma LostKeepsReadings(c: Classic, lost: seq<nat>, now: nat)
    ensures var d := OnPacketLost(c, lost, now); d.rtt == c.rtt && d.bwEstimate == c.bwEstimate && (d.slowStart ==> d == c)
  {
    hide CongestionEvidence, SameEpoch, EpochExpired, LossTarget;
  }

  lemma {:induction false} RampRun(c: Classic, es: seq<Event>, r: nat, s: nat)
    requires RampInv(c, r, s) && RampInputs(c, es, r, s)
    ensures RampInv(Run(c, es), r, s)
    decreases |es|
  {
    hide Step, RampInv, RampInput;
    if es != [] {
      RampStep(c, es[0], r, s);
      RampRun(Step(c, es[0]), es[1..], r, s);
    }
  }

  /** Throughout slow start the window is at most the initial window or three bandwidth-delay products
      of the largest rate and the largest RTT ever reported; the averages stay within what fed them. */
  lemma SlowStartIsBounded(es: seq<Event>, r: nat, s: nat)
    requires RampInputs(New(), es, r, s)
    ensures var c := Run(New(), es);
      && (c.slowStart ==> c.cwnd <= Max(128 * MTU, 3 * r * s / NS))
      && c.bwEstimate <= r && (c.rtt.smoothed.Some? ==> c.rtt.min.Some? && c.rtt.min.value <= c.rtt.smoothed.value <= s)
  {
    hide Run;
    RampRun(New(), es, r, s);
  }

  // ---------- the divisor of the current rate ----------

  /** No RTT sample below a microsecond, as the sender floors them. */
  ghost predicate InMicroseconds(e: Event) {
    match e
    case RttSample(rtt) => rtt >= 1000
    case RttBatch(mean, _) => mean >= 1000
    case _ => true
  }

  ghost predicate HasMicros(c: Classic) { c.rtt.smoothed.Some? ==> c.rtt.smoothed.value >= 1000 }

  lemma StepKeepsMicros(c: Classic, e: Event)
    requires Inv(c) && HasMicros(c) && InMicroseconds(e)
    ensures HasMicros(Step(c, e))
  {
    hide OnAckReceived, OnPacketLost, Inv;
    match e
    case Acked(pn, delivered, rate, now) => AckKeeps(c, pn, delivered, rate, now);
    case Lost(lost, now) => LostKeepsReadings(c, lost, now);
    case _ =>
  }

  /** With samples floored at a microsecond the smoothed RTT never reads zero microseconds, so the window is
      never divided by zero. */
  lemma {:induction false} DivisorIsPositive(c: Classic, es: seq<Event>)
    requires Inv(c) && HasMicros(c) && forall i :: 0 <= i < |es| ==> InMicroseconds(es[i])
    ensures var d := Run(c, es); d.rtt.smoothed.Some? ==> d.rtt.smoothed.value / 1000 > 0
    decreases |es|
  {
    if es == [] {
    } else {
      StepKeepsMicros(c, es[0]);
      StepKeeps(c, es[0]);
      hide Step, Inv, InMicroseconds;
      forall i | 1 <= i < |es| ensures es[1..][i - 1] == es[i] {}
      DivisorIsPositive(Step(c, es[0]), es[1..]);
    }
  }
}
