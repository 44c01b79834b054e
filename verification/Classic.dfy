/** The Classic controller as it updates its fields, one method per callback, each shown to take
    exactly the transition of ClassicSpec and so to keep what ClassicSafety proves. */
module ClassicControl {
  import opened Words
  import opened RoundTrip
  import Spec = ClassicSpec
  import opened ClassicSafety
  import opened Seconds

  class ClassicController {
    var slowStart: bool
    var cwnd: nat
    var ssthresh: nat
    const rtt: RttEstimator
    var lossFlag: bool
    var lastDecSeq: Option<nat>
    var lastDecTime: Option<nat>
    var sndCurrSeq: nat
    var deliveredSinceIncrease: nat
    var externalMinCwnd: nat
    var bwEstimate: nat
    var ackGapEwma: nat
    var lastAckBatchAt: Option<nat>
    var ackBatchCount: nat
    var delayInflatedBatch: Option<nat>
    var roundEndPn: Option<nat>
    var roundStartCwnd: nat
    var roundDelivered: nat
    var roundLastBytes: nat
    var roundFullBytes: nat
    var roundCount: nat
    var plateauRounds: nat
    var cuts: nat

    function EpochView(): Spec.Epoch
      reads this`lastDecSeq, this`lastDecTime, this`cuts
    {
      Spec.Epoch(lastDecSeq, lastDecTime, cuts)
    }

    function CadenceView(): Spec.Cadence
      reads this`ackGapEwma, this`lastAckBatchAt, this`ackBatchCount, this`delayInflatedBatch
    {
      Spec.Cadence(ackGapEwma, lastAckBatchAt, ackBatchCount, delayInflatedBatch)
    }

    function RoundsView(): Spec.Rounds
      reads this`roundEndPn, this`roundStartCwnd, this`roundDelivered, this`roundLastBytes, this`roundFullBytes
      reads this`roundCount, this`plateauRounds
    {
      Spec.Rounds(roundEndPn, roundStartCwnd, roundDelivered, roundLastBytes, roundFullBytes, roundCount, plateauRounds)
    }

    function State(): Spec.Classic
      reads this, rtt
    {
      Spec.Classic(slowStart, cwnd, ssthresh, rtt.View(), lossFlag, EpochView(), sndCurrSeq, deliveredSinceIncrease,
                   externalMinCwnd, bwEstimate, CadenceView(), RoundsView())
    }

    ghost predicate Valid()
      reads this, rtt
    {
      Inv(State())
    }

    constructor ()
      ensures Valid() && State() == Spec.New() && fresh(rtt)
    {
      slowStart, cwnd, ssthresh := true, Spec.INITIAL_CWND, Spec.USIZE_MAX;
      rtt := new RttEstimator();
      lossFlag, lastDecSeq, lastDecTime, sndCurrSeq := false, None, None, 0;
      deliveredSinceIncrease, externalMinCwnd, bwEstimate := 0, Spec.MIN_CWND, 0;
      ackGapEwma, lastAckBatchAt, ackBatchCount, delayInflatedBatch := 0, None, 0, None;
      roundEndPn, roundStartCwnd, roundDelivered := None, Spec.INITIAL_CWND, 0;
      roundLastBytes, roundFullBytes, roundCount, plateauRounds, cuts := 0, 0, 0, 0, 0;
    }

    method ResetStartupEvidence()
      modifies this`plateauRounds, this`roundFullBytes, this`roundDelivered, this`roundEndPn, this`roundStartCwnd
      ensures RoundsView() == Spec.ResetRounds(old(RoundsView()), cwnd, sndCurrSeq)
    {
      plateauRounds, roundFullBytes, roundDelivered := 0, 0, 0;
      roundEndPn := Some(sndCurrSeq);
      roundStartCwnd := cwnd;
    }

    // ---------- readings, in seconds ----------

    method WindowExceedsBdp() returns (r: bool)
      ensures r <==> Spec.WindowExceedsBdp(State())
    {
      if rtt.minRtt.None? { return false; }
      var minRtt := rtt.minRtt.value;
      if bwEstimate == 0 || minRtt == 0 { return false; }
      var baseline := Max(minRtt, ackGapEwma);
      OverTwice(cwnd, bwEstimate, baseline);
      var bdp := bwEstimate as real * Secs(baseline);
      r := bdp > 0.0 && cwnd as real > 2.0 * bdp;
    }

    method QueueIsEmpty() returns (r: bool)
      ensures r <==> Spec.QueueIsEmpty(State())
    {
      if rtt.minRtt.None? || rtt.smoothedRtt.None? { return false; }
      var baseline := Max(rtt.minRtt.value, ackGapEwma);
      QueueEmptyInSeconds(rtt.smoothedRtt.value, baseline);
      if Secs(baseline) <= 0.0 { return false; }
      var budget := 0.010 + 0.10 * Secs(baseline);
      r := Secs(rtt.smoothedRtt.value) - Secs(baseline) < budget;
    }

    method CongestionEvidence() returns (e: Spec.Evidence)
      ensures e == Spec.CongestionEvidence(State())
    {
      hide Spec.WindowExceedsBdp, Spec.QueueBuilt;
      if plateauRounds >= Spec.STARTUP_PLATEAU_ROUNDS { return Spec.Plateau; }
      var over := WindowExceedsBdp();
      if over { return Spec.OverBdp; }
      if rtt.minRtt.Some? && rtt.smoothedRtt.Some? {
        var baseline := Max(rtt.minRtt.value, ackGapEwma);
        QueueBuiltInSeconds(rtt.smoothedRtt.value, baseline);
        var budget := 0.008 + 0.25 * Secs(baseline);
        if Secs(rtt.smoothedRtt.value) - Secs(baseline) > budget { return Spec.Queueing; }
      }
      e := Spec.NoEvidence;
    }

    method EpochExpired(now: nat) returns (r: bool)
      ensures r <==> Spec.EpochExpired(State(), now)
    {
      var srtt := Spec.DEFAULT_SRTT;
      if rtt.smoothedRtt.Some? && rtt.smoothedRtt.value != 0 { srtt := rtt.smoothedRtt.value; }
      r := lastDecTime.Some? && now - lastDecTime.value >= srtt * 16;
    }

    // ---------- losses ----------

    /** The window a cut would leave, computed cap by cap. */
    method SettleTarget() returns (target: nat)
      ensures target == Spec.LossTarget(State())
    {
      hide Spec.WindowExceedsBdp, Spec.Bdp;
      NeedsMin(State());
      var over := WindowExceedsBdp();
      var overshotRamp := slowStart && over;
      target := LessAnEighth(cwnd);
      if roundFullBytes > 0 && (plateauRounds > 0 || overshotRamp) { target := Min(target, roundFullBytes); }
      if overshotRamp && roundCount >= Spec.STARTUP_MIN_ROUNDS {
        var baseline := Max(rtt.minRtt.value, ackGapEwma);
        var bdp := BytesOver(bwEstimate, baseline);
        if bdp > 0 { target := Min(target, bdp); }
      }
      target := Max(target, externalMinCwnd);
    }

    method RecordCut(now: nat)
      modifies this`lastDecSeq, this`lastDecTime, this`cuts, this`lossFlag
      ensures EpochView() == Spec.Epoch(Some(sndCurrSeq), Some(now), old(cuts) + 1) && lossFlag
    {
      cuts := cuts + 1;
      lossFlag := true;
      lastDecSeq, lastDecTime := Some(sndCurrSeq), Some(now);
    }

    /** End slow start if it lasts, and put the window and its threshold at the target. */
    method Settle(target: nat)
      modifies this`slowStart, this`ssthresh, this`cwnd
      modifies this`plateauRounds, this`roundFullBytes, this`roundDelivered, this`roundEndPn, this`roundStartCwnd
      ensures State() == old(State()).(slowStart := false, ssthresh := target, cwnd := target,
                                       rounds := Spec.ResetRounds(old(RoundsView()), target, sndCurrSeq))
    {
      hide Spec.ResetRounds;
      SetWindow(target);
      ResetStartupEvidence();
    }

    method SetWindow(target: nat)
      modifies this`slowStart, this`ssthresh, this`cwnd
      ensures State() == old(State()).(slowStart := false, ssthresh := target, cwnd := target)
    {
      slowStart := false;
      ssthresh := target;
      cwnd := target;
    }

    method ApplyLoss(firstLoss: nat, now: nat)
      modifies this
      ensures State() == Spec.ApplyLoss(old(State()), firstLoss, now)
    {
      hide Spec.LossTarget, Spec.EpochExpired, Spec.ResetRounds;
      var epochExpired := EpochExpired(now);
      var sameEpoch := lastDecSeq.Some? && firstLoss <= lastDecSeq.value;
      if sameEpoch && !epochExpired { return; }
      var target := SettleTarget();
      RecordCut(now);
      Settle(target);
    }

    method OnPacketLost(lost: seq<nat>, now: nat)
      requires Valid()
      modifies this
      ensures Valid() && State() == Spec.OnPacketLost(old(State()), lost, now)
    {
      hide Spec.ApplyLoss, Spec.CongestionEvidence, Inv;
      LostKeeps(State(), lost, now);
      if |lost| < 3 { return; }
      var evidence := CongestionEvidence();
      if evidence.NoEvidence? { return; }
      ApplyLoss(lost[0], now);
    }

    method OnPacketSent(pn: nat)
      requires Valid()
      modifies this
      ensures Valid() && State() == Spec.OnPacketSent(old(State()), pn)
    {
      sndCurrSeq := Max(sndCurrSeq, pn);
      if roundEndPn.None? {
        roundEndPn := Some(pn);
        roundStartCwnd := cwnd;
      }
    }

    method OnRttUpdate(sample: nat)
      requires Valid()
      modifies rtt
      ensures Valid() && State() == Spec.Step(old(State()), Spec.RttSample(sample))
    {
      StepKeeps(State(), Spec.RttSample(sample));
      rtt.UpdateSample(sample);
    }

    method OnRttBatch(mean: nat, min: nat)
      requires Valid()
      modifies rtt
      ensures Valid() && State() == Spec.Step(old(State()), Spec.RttBatch(mean, min))
    {
      StepKeeps(State(), Spec.RttBatch(mean, min));
      rtt.UpdateFromBatch(mean, min);
    }

    method CheckDelaySignal()
      modifies this
      ensures State() == Spec.CheckDelaySignal(old(State()))
    {
      if !slowStart { return; }
      if rtt.minRtt.Some? && rtt.smoothedRtt.Some? {
        var baseline := Max(rtt.minRtt.value, ackGapEwma);
        FiveTimes(rtt.smoothedRtt.value, baseline);
        if Secs(rtt.smoothedRtt.value) <= Secs(baseline) * 5.0 {
          delayInflatedBatch := None;
          return;
        }
        if delayInflatedBatch.None? {
          delayInflatedBatch := Some(ackBatchCount);
        } else if delayInflatedBatch.value < ackBatchCount {
          ssthresh := cwnd;
          slowStart := false;
          delayInflatedBatch := None;
        }
      }
    }

    method TrackBatch(now: nat)
      modifies this`ackGapEwma, this`lastAckBatchAt, this`ackBatchCount
      ensures CadenceView() == Spec.TrackBatch(old(CadenceView()), now)
    {
      if lastAckBatchAt.None? {
        lastAckBatchAt := Some(now);
        ackBatchCount := 1;
        return;
      }
      var gap := SatSub(now, lastAckBatchAt.value);
      if gap >= Spec.ACK_BATCH_GAP_FLOOR {
        ackGapEwma := if ackGapEwma == 0 then gap else (ackGapEwma * 7 + gap) / 8;
        lastAckBatchAt := Some(now);
        ackBatchCount := ackBatchCount + 1;
      }
    }

    method TrackRound(delivered: nat, ackedPn: nat)
      modifies this
      ensures State() == Spec.TrackRound(old(State()), delivered, ackedPn)
    {
      hide Spec.CloseRound, Spec.ResetRounds;
      roundDelivered := roundDelivered + delivered;
      if roundEndPn.None? || ackedPn < roundEndPn.value { return; }
      CloseRound();
      if slowStart && roundCount >= Spec.STARTUP_MIN_ROUNDS && plateauRounds >= Spec.STARTUP_PLATEAU_ROUNDS {
        Settle(Max(Min(roundFullBytes, cwnd), externalMinCwnd));
      }
    }

    method CloseRound()
      modifies this`roundDelivered, this`roundEndPn, this`roundStartCwnd, this`roundLastBytes, this`roundCount
      modifies this`plateauRounds, this`roundFullBytes
      ensures RoundsView() == Spec.CloseRound(old(RoundsView()), slowStart, cwnd, sndCurrSeq)
    {
      var roundBytes, startCwnd := roundDelivered, roundStartCwnd;
      roundDelivered := 0;
      roundEndPn := Some(sndCurrSeq);
      roundStartCwnd := cwnd;
      roundLastBytes := roundBytes;
      roundCount := roundCount + 1;
      if roundBytes > 0 {
        if slowStart && cwnd > startCwnd {
          QuarterMore(roundBytes, roundFullBytes);
          if (roundBytes as real) < 1.25 * roundFullBytes as real {
            plateauRounds := Min(255, plateauRounds + 1);
          } else {
            plateauRounds := 0;
          }
        }
        roundFullBytes := Max(roundFullBytes, roundBytes);
      }
    }

    /** What every ACK measures, before any growth: cadence, rounds and bandwidth. */
    method Measure(pn: nat, delivered: nat, rate: nat, now: nat)
      modifies this
      ensures var c := old(State()).(cadence := Spec.TrackBatch(old(CadenceView()), now));
        State() == Spec.SmoothBandwidth(Spec.TrackRound(c, delivered, pn), rate)
    {
      hide Spec.TrackBatch, Spec.TrackRound;
      TrackBatch(now);
      TrackRound(delivered, pn);
      if rate > 0 {
        bwEstimate := if bwEstimate == 0 then rate else (bwEstimate * 7 + rate) / 8;
      }
    }

    /** The window grown by what was delivered, up to three bandwidth-delay products. */
    method Ramped(delivered: nat) returns (w: nat)
      ensures w == Spec.Ramped(State(), delivered)
    {
      hide Spec.Bdp;
      var grown := cwnd + delivered;
      if rtt.smoothedRtt.None? || rtt.smoothedRtt.value == 0 || bwEstimate == 0 { return grown; }
      var cap := BytesOver(3 * bwEstimate, rtt.smoothedRtt.value);
      cap := Max(Max(cap, externalMinCwnd), cwnd);
      w := Min(grown, cap);
    }

    /** How much a full window of deliveries adds in congestion avoidance. */
    method Increase() returns (increase: nat)
      ensures increase == Spec.Increase(State())
    {
      hide Spec.WindowExceedsBdp, Spec.QueueIsEmpty, Spec.Bdp;
      var currentRate := 0;
      if rtt.smoothedRtt.Some? && rtt.smoothedRtt.value >= 1000 {
        var micros := rtt.smoothedRtt.value / 1000;
        currentRate := cwnd * 1_000_000 / micros;
      }
      var overBdp := WindowExceedsBdp();
      var empty := QueueIsEmpty();
      if !overBdp && bwEstimate > 0 && currentRate > 0 && bwEstimate > currentRate {
        var headroom := BytesOver(bwEstimate - currentRate, rtt.smoothedRtt.value);
        increase := Max(headroom / 4, Spec.MTU);
      } else if !overBdp && empty {
        increase := Max(cwnd / 16, Spec.MTU);
      } else {
        increase := Spec.MTU;
      }
    }

    method SlowStartAck(delivered: nat)
      modifies this
      ensures State() == Spec.SlowStartAck(old(State()), delivered)
    {
      hide Spec.CheckDelaySignal, Spec.Ramped;
      cwnd := Ramped(delivered);
      CheckDelaySignal();
      if cwnd >= ssthresh { slowStart := false; }
    }

    method AvoidanceAck(delivered: nat)
      modifies this`deliveredSinceIncrease, this`cwnd
      ensures State() == Spec.AvoidanceAck(old(State()), delivered)
    {
      hide Spec.Increase;
      var increase := Increase();
      deliveredSinceIncrease := deliveredSinceIncrease + delivered;
      if deliveredSinceIncrease >= cwnd {
        deliveredSinceIncrease := deliveredSinceIncrease - cwnd;
        cwnd := cwnd + increase;
      }
    }

    method OnAckReceived(pn: nat, delivered: nat, rate: nat, now: nat)
      requires Valid()
      modifies this
      ensures Valid() && State() == Spec.OnAckReceived(old(State()), pn, delivered, rate, now)
    {
      hide Spec.TrackBatch, Spec.TrackRound, Spec.SmoothBandwidth, Spec.SlowStartAck, Spec.AvoidanceAck, Inv;
      AckKeeps(State(), pn, delivered, rate, now);
      Measure(pn, delivered, rate, now);
      if lossFlag {
        lossFlag := false;
      } else if slowStart {
        SlowStartAck(delivered);
      } else {
        AvoidanceAck(delivered);
      }
    }
  }
}
