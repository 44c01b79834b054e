/** The Classic congestion controller as a transition system: one value per controller state and
    one function per callback. Times are nanoseconds, rates bytes per second, and products that
    the controller forms in floating point are exact. */
module ClassicSpec {
  import opened Words
  import opened RoundTrip

  const NS: nat := 1_000_000_000
  const MTU: nat := 1200
  const INITIAL_CWND: nat := 128 * MTU
  const MIN_CWND: nat := 4 * MTU
  const USIZE_MAX: nat := U64 - 1
  const STARTUP_PLATEAU_ROUNDS: nat := 3
  const STARTUP_MIN_ROUNDS: nat := 4
  const ACK_BATCH_GAP_FLOOR: nat := 2 * MS
  const EPOCH_MAX_RTTS: nat := 16
  const DEFAULT_SRTT: nat := 50 * MS

  /** The last cut: the send high-water mark and the time it was made at, and the number of cuts. */
  datatype Epoch = Epoch(mark: Option<nat>, time: Option<nat>, cuts: nat)

  /** Feedback cadence: the smoothed gap between ACK batches, the last batch and its number, and the
      batch in which the delay signal was first seen. */
  datatype Cadence = Cadence(gap: nat, lastBatchAt: Option<nat>, batches: nat, inflated: Option<nat>)

  /** Feedback rounds: the open one, the last and the best closed ones, and the plateau strikes. */
  datatype Rounds = Rounds(endPn: Option<nat>, startCwnd: nat, delivered: nat, lastBytes: nat, fullBytes: nat,
                           count: nat, plateau: nat)

  datatype Classic = Classic(
    slowStart: bool,
    cwnd: nat,
    ssthresh: nat,
    rtt: Rtt,
    lossFlag: bool,
    epoch: Epoch,
    sndCurrSeq: nat,
    deliveredSinceIncrease: nat,
    externalMinCwnd: nat,
    bwEstimate: nat,
    cadence: Cadence,
    rounds: Rounds)

  function New(): Classic {
    Classic(true, INITIAL_CWND, USIZE_MAX, NO_SAMPLES, false, Epoch(None, None, 0), 0, 0, MIN_CWND, 0,
            Cadence(0, None, 0, None), Rounds(None, INITIAL_CWND, 0, 0, 0, 0, 0))
  }

  // ---------- readings ----------

  datatype Evidence = NoEvidence | Plateau | OverBdp | Queueing

  /** The unloaded delay: the larger of the minimum RTT and the feedback cadence. */
  function Baseline(c: Classic): nat
    requires c.rtt.min.Some?
  {
    Max(c.rtt.min.value, c.cadence.gap)
  }

  /** Bandwidth times delay, in whole bytes. */
  function Bdp(rate: nat, delay: nat): nat { rate * delay / NS }

  /** The window is more than twice the bandwidth-delay product. */
  predicate WindowExceedsBdp(c: Classic) {
    && c.rtt.min.Some? && c.bwEstimate > 0 && c.rtt.min.value > 0
    && c.cwnd * NS > 2 * (c.bwEstimate * Baseline(c))
  }

  /** Smoothed RTT above the baseline by more than 8 ms plus a quarter of it. */
  predicate QueueBuilt(srtt: nat, baseline: nat) { 4 * (srtt - baseline) > 32 * MS + baseline }

  /** Smoothed RTT above the baseline by less than 10 ms plus a tenth of it. */
  predicate QueueIsEmpty(c: Classic) {
    && c.rtt.min.Some? && c.rtt.smoothed.Some? && Baseline(c) > 0
    && 10 * (c.rtt.smoothed.value - Baseline(c)) < 100 * MS + Baseline(c)
  }

  function CongestionEvidence(c: Classic): Evidence {
    if c.rounds.plateau >= STARTUP_PLATEAU_ROUNDS then Plateau
    else if WindowExceedsBdp(c) then OverBdp
    else if c.rtt.min.Some? && c.rtt.smoothed.Some? && QueueBuilt(c.rtt.smoothed.value, Baseline(c)) then Queueing
    else NoEvidence
  }

  /** The smoothed RTT, or 50 ms while there is none. */
  function EpochRtt(c: Classic): nat {
    if c.rtt.smoothed.Some? && c.rtt.smoothed.value > 0 then c.rtt.smoothed.value else DEFAULT_SRTT
  }

  predicate SameEpoch(c: Classic, firstLoss: nat) { c.epoch.mark.Some? && firstLoss <= c.epoch.mark.value }

  predicate EpochExpired(c: Classic, now: nat) {
    c.epoch.time.Some? && now - c.epoch.time.value >= EPOCH_MAX_RTTS * EpochRtt(c)
  }

  // ---------- losses ----------

  function ResetRounds(r: Rounds, cwnd: nat, sndCurrSeq: nat): Rounds {
    r.(plateau := 0, fullBytes := 0, delivered := 0, endPn := Some(sndCurrSeq), startCwnd := cwnd)
  }

  /** Where a cut leaves the window: seven eighths, capped by what the ramp demonstrated. */
  function LossTarget(c: Classic): nat {
    var overshotRamp := c.slowStart && WindowExceedsBdp(c);
    var target := c.cwnd * 7 / 8;
    var delivered :=
      if c.rounds.fullBytes > 0 && (c.rounds.plateau > 0 || overshotRamp) then Min(target, c.rounds.fullBytes) else target;
    var settled :=
      if overshotRamp && c.rounds.count >= STARTUP_MIN_ROUNDS && Bdp(c.bwEstimate, Baseline(c)) > 0
      then Min(delivered, Bdp(c.bwEstimate, Baseline(c))) else delivered;
    Max(settled, c.externalMinCwnd)
  }

  function ApplyLoss(c: Classic, firstLoss: nat, now: nat): Classic {
    if SameEpoch(c, firstLoss) && !EpochExpired(c, now) then c
    else
      var target := LossTarget(c);
      c.(slowStart := false, ssthresh := target, cwnd := target, lossFlag := true,
         epoch := Epoch(Some(c.sndCurrSeq), Some(now), c.epoch.cuts + 1),
         rounds := ResetRounds(c.rounds, target, c.sndCurrSeq))
  }

  function OnPacketLost(c: Classic, lost: seq<nat>, now: nat): Classic {
    if |lost| < 3 || CongestionEvidence(c).NoEvidence? then c else ApplyLoss(c, lost[0], now)
  }

  // ---------- sends and RTT samples ----------

  function OnPacketSent(c: Classic, pn: nat): Classic {
    var d := c.(sndCurrSeq := Max(c.sndCurrSeq, pn));
    if c.rounds.endPn.None? then d.(rounds := c.rounds.(endPn := Some(pn), startCwnd := c.cwnd)) else d
  }

  // ---------- acknowledgements ----------

  function TrackBatch(k: Cadence, now: nat): Cadence {
    match k.lastBatchAt
    case None => k.(lastBatchAt := Some(now), batches := 1)
    case Some(prev) =>
      var gap := SatSub(now, prev);
      if gap < ACK_BATCH_GAP_FLOOR then k
      else k.(gap := if k.gap == 0 then gap else (k.gap * 7 + gap) / 8,
              lastBatchAt := Some(now), batches := k.batches + 1)
  }

  /** Close the open round. A round that delivered something adds a plateau strike while slow start
      opened the window and delivery grew by less than a quarter over the best round. */
  function CloseRound(r: Rounds, slowStart: bool, cwnd: nat, sndCurrSeq: nat): Rounds {
    var d := r.(delivered := 0, endPn := Some(sndCurrSeq), startCwnd := cwnd, lastBytes := r.delivered, count := r.count + 1);
    if r.delivered == 0 then d
    else
      var strikes :=
        if !(slowStart && cwnd > r.startCwnd) then r.plateau
        else if 4 * r.delivered < 5 * r.fullBytes then Min(255, r.plateau + 1)
        else 0;
      d.(plateau := strikes, fullBytes := Max(r.fullBytes, r.delivered))
  }

  predicate PlateauExit(c: Classic) {
    c.slowStart && c.rounds.count >= STARTUP_MIN_ROUNDS && c.rounds.plateau >= STARTUP_PLATEAU_ROUNDS
  }

  function SettleOnPlateau(c: Classic): Classic {
    var target := Max(Min(c.rounds.fullBytes, c.cwnd), c.externalMinCwnd);
    c.(ssthresh := target, cwnd := target, slowStart := false, rounds := ResetRounds(c.rounds, target, c.sndCurrSeq))
  }

  function TrackRound(c: Classic, delivered: nat, ackedPn: nat): Classic {
    var r := c.rounds.(delivered := c.rounds.delivered + delivered);
    if r.endPn.None? || ackedPn < r.endPn.value then c.(rounds := r)
    else
      var closed := c.(rounds := CloseRound(r, c.slowStart, c.cwnd, c.sndCurrSeq));
      if PlateauExit(closed) then SettleOnPlateau(closed) else closed
  }

  function SmoothBandwidth(c: Classic, rate: nat): Classic {
    if rate == 0 then c
    else c.(bwEstimate := if c.bwEstimate == 0 then rate else (c.bwEstimate * 7 + rate) / 8)
  }

  function CheckDelaySignal(c: Classic): Classic {
    if !c.slowStart || c.rtt.min.None? || c.rtt.smoothed.None? then c
    else if c.rtt.smoothed.value <= 5 * Baseline(c) then c.(cadence := c.cadence.(inflated := None))
    else match c.cadence.inflated
      case None => c.(cadence := c.cadence.(inflated := Some(c.cadence.batches)))
      case Some(armed) =>
        if armed < c.cadence.batches
        then c.(ssthresh := c.cwnd, slowStart := false, cadence := c.cadence.(inflated := None))
        else c
  }

  /** The ramp: grow by what was delivered, up to three bandwidth-delay products. */
  function Ramped(c: Classic, delivered: nat): nat {
    var grown := c.cwnd + delivered;
    if c.rtt.smoothed.Some? && c.rtt.smoothed.value > 0 && c.bwEstimate > 0 then
      Min(grown, Max(Max(Bdp(3 * c.bwEstimate, c.rtt.smoothed.value), c.externalMinCwnd), c.cwnd))
    else grown
  }

  function SlowStartAck(c: Classic, delivered: nat): Classic {
    var d := CheckDelaySignal(c.(cwnd := Ramped(c, delivered)));
    if d.cwnd >= d.ssthresh then d.(slowStart := false) else d
  }

  /** Window over smoothed RTT; zero while there is no RTT of at least a microsecond. */
  function CurrentRate(c: Classic): nat {
    if c.rtt.smoothed.Some? && c.rtt.smoothed.value >= 1000 then c.cwnd * 1_000_000 / (c.rtt.smoothed.value / 1000) else 0
  }

  function Increase(c: Classic): nat {
    var current := CurrentRate(c);
    var overBdp := WindowExceedsBdp(c);
    if !overBdp && c.bwEstimate > 0 && current > 0 && c.bwEstimate > current then
      Max(Bdp(c.bwEstimate - current, c.rtt.smoothed.value) / 4, MTU)
    else if !overBdp && QueueIsEmpty(c) then Max(c.cwnd / 16, MTU)
    else MTU
  }

  function AvoidanceAck(c: Classic, delivered: nat): Classic {
    var sum := c.deliveredSinceIncrease + delivered;
    if sum >= c.cwnd then c.(deliveredSinceIncrease := sum - c.cwnd, cwnd := c.cwnd + Increase(c))
    else c.(deliveredSinceIncrease := sum)
  }

  function OnAckReceived(c: Classic, pn: nat, delivered: nat, rate: nat, now: nat): Classic {
    var d := SmoothBandwidth(TrackRound(c.(cadence := TrackBatch(c.cadence, now)), delivered, pn), rate);
    if d.lossFlag then d.(lossFlag := false)
    else if d.slowStart then SlowStartAck(d, delivered)
    else AvoidanceAck(d, delivered)
  }

  // ---------- runs ----------

  datatype Event =
    | Acked(pn: nat, delivered: nat, rate: nat, now: nat)
    | Sent(pn: nat)
    | Lost(lost: seq<nat>, now: nat)
    | RttSample(rtt: nat)
    | RttBatch(mean: nat, min: nat)

  function Step(c: Classic, e: Event): Classic {
    match e
    case Acked(pn, delivered, rate, now) => OnAckReceived(c, pn, delivered, rate, now)
    case Sent(pn) => OnPacketSent(c, pn)
    case Lost(lost, now) => OnPacketLost(c, lost, now)
    case RttSample(rtt) => c.(rtt := Update(c.rtt, rtt))
    case RttBatch(mean, min) => c.(rtt := UpdateBatch(c.rtt, mean, min))
  }

  function Run(c: Classic, es: seq<Event>): Classic
    decreases |es|
  {
    if es == [] then c else Run(Step(c, es[0]), es[1..])
  }
}
