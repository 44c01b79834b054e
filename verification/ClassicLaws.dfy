/** What each callback of the Classic controller does to the window, said in bytes, rates and delays
    and without the controller's own functions: where a cut lands, how the ramp grows, and how the
    window grows in congestion avoidance, over single callbacks and over whole runs. */
module ClassicLaws {
  import opened Words
  import opened RoundTrip
  import opened ClassicSpec
  import opened ClassicSafety

  /** q is a / b rounded down. */
  ghost predicate Quotient(q: nat, a: nat, b: nat) { q * b <= a < (q + 1) * b }

  lemma QuotientIs(q: nat, a: nat, b: nat)
    requires b > 0
    ensures Quotient(q, a, b) <==> q == a / b
  {
    var d := a / b;
    assert a == d * b + a % b;
    assert (d + 1) * b == d * b + b;
    if q < d { MulMono(q + 1, d, b); }
    if q > d { MulMono(d + 1, q, b); }
  }

  /** The path's delay without a queue: the minimum RTT, or the gap between ACK batches if that is longer. */
  ghost function Unloaded(rtt: Rtt, gap: nat): nat
    requires rtt.min.Some?
  {
    if gap > rtt.min.value then gap else rtt.min.value
  }

  /** At the measured rate a window takes more than two unloaded delays to deliver. */
  ghost predicate PastTwiceBdp(window: nat, rate: nat, rtt: Rtt, gap: nat) {
    rtt.min.Some? && rtt.min.value > 0 && rate > 0 && window * 1_000_000_000 > 2 * (rate * Unloaded(rtt, gap))
  }

  /** The queue adds more than 8 ms and a quarter of the unloaded delay. */
  ghost predicate QueueStands(rtt: Rtt, gap: nat) {
    && rtt.min.Some? && rtt.smoothed.Some?
    && 4 * (rtt.smoothed.value - Unloaded(rtt, gap)) > 32_000_000 + Unloaded(rtt, gap)
  }

  /** The queue adds less than 10 ms and a tenth of the unloaded delay. */
  ghost predicate QueueSlack(rtt: Rtt, gap: nat) {
    && rtt.min.Some? && rtt.smoothed.Some? && Unloaded(rtt, gap) > 0
    && 10 * (rtt.smoothed.value - Unloaded(rtt, gap)) < 100_000_000 + Unloaded(rtt, gap)
  }

  // ---------- losses ----------

  ghost predicate RampPastBdp(c: Classic) { c.slowStart && PastTwiceBdp(c.cwnd, c.bwEstimate, c.rtt, c.cadence.gap) }

  /** Not above seven eighths of the window, nor above the best round's delivery while rounds are striking or
      the ramp is past the BDP, nor above the BDP once the ramp is past it after four rounds. */
  ghost predicate UnderCaps(c: Classic, x: nat) {
    && 8 * x <= 7 * c.cwnd
    && (c.rounds.fullBytes > 0 && (c.rounds.plateau > 0 || RampPastBdp(c)) ==> x <= c.rounds.fullBytes)
    && (RampPastBdp(c) && c.rounds.count >= 4 && c.bwEstimate * Unloaded(c.rtt, c.cadence.gap) >= 1_000_000_000 ==>
          x * 1_000_000_000 <= c.bwEstimate * Unloaded(c.rtt, c.cadence.gap))
  }

  /** A report cuts if and only if it names three packets, shows congestion, and is of a new epoch or late. */
  lemma CutsWhen(c: Classic, lost: seq<nat>, now: nat)
    ensures OnPacketLost(c, lost, now).epoch.cuts == c.epoch.cuts + 1 <==>
      && |lost| >= 3
      && (|| c.rounds.plateau >= 3 || PastTwiceBdp(c.cwnd, c.bwEstimate, c.rtt, c.cadence.gap)
          || QueueStands(c.rtt, c.cadence.gap))
      && (|| c.epoch.mark.None? || lost[0] > c.epoch.mark.value
          || (c.epoch.time.Some? && c.rtt.smoothed.Some? && c.rtt.smoothed.value > 0
              && now - c.epoch.time.value >= 16 * c.rtt.smoothed.value)
          || (c.epoch.time.Some? && (c.rtt.smoothed.None? || c.rtt.smoothed.value == 0)
              && now - c.epoch.time.value >= 800_000_000))
  {
    CutsIff(c, lost, now);
    hide OnPacketLost;
  }

  lemma CapByBdp(x: nat, rate: nat, delay: nat)
    ensures Bdp(rate, delay) > 0 <==> rate * delay >= 1_000_000_000
    ensures x <= Bdp(rate, delay) <==> x * 1_000_000_000 <= rate * delay
  {
    var q := Bdp(rate, delay);
    QuotientIs(q, rate * delay, NS);
    if x <= q { MulMono(x, q, NS); } else { MulMono(q + 1, x, NS); }
  }

  /** A cut leaves the floor, or the greatest window under all caps that apply. */
  lemma CutLands(c: Classic, lost: seq<nat>, now: nat, x: nat)
    requires OnPacketLost(c, lost, now).epoch.cuts == c.epoch.cuts + 1
    ensures var d := OnPacketLost(c, lost, now);
      && d.cwnd >= c.externalMinCwnd && (d.cwnd == c.externalMinCwnd || UnderCaps(c, d.cwnd))
      && (UnderCaps(c, x) ==> x <= d.cwnd)
      && d.ssthresh == d.cwnd && !d.slowStart && d.lossFlag
      && d.epoch.mark == Some(c.sndCurrSeq) && d.epoch.time == Some(now)
      && d.rounds == c.rounds.(plateau := 0, fullBytes := 0, delivered := 0, endPn := Some(c.sndCurrSeq),
                               startCwnd := d.cwnd)
  {
    CutsIff(c, lost, now);
    var d := OnPacketLost(c, lost, now);
    if RampPastBdp(c) {
      CapByBdp(x, c.bwEstimate, Baseline(c));
      CapByBdp(d.cwnd, c.bwEstimate, Baseline(c));
    }
    hide Bdp;
  }

  /** Outside slow start and without strikes a cut takes exactly an eighth, rounded up, down to the floor. */
  lemma PlainCut(c: Classic, lost: seq<nat>, now: nat)
    requires OnPacketLost(c, lost, now).epoch.cuts == c.epoch.cuts + 1 && !c.slowStart && c.rounds.plateau == 0
    ensures OnPacketLost(c, lost, now).cwnd == Max(c.externalMinCwnd, c.cwnd * 7 / 8)
  {
    CutLands(c, lost, now, c.cwnd * 7 / 8);
    hide OnPacketLost;
  }

  // ---------- congestion avoidance, ACK by ACK ----------

  ghost predicate Avoiding(c: Classic) { !c.slowStart && !c.lossFlag }

  /** Enough has been delivered for a raise. */
  ghost predicate Raises(c: Classic, delivered: nat) { c.deliveredSinceIncrease + delivered >= c.cwnd }

  /** The window over the smoothed RTT, in whole microseconds, is below the measured rate. */
  ghost predicate Headroom(window: nat, rate: nat, rtt: Rtt) {
    rtt.smoothed.Some? && rtt.smoothed.value >= 1000
    && rtt.smoothed.value / 1000 <= window * 1_000_000 < rate * (rtt.smoothed.value / 1000)
  }

  lemma HeadroomIs(c: Classic)
    ensures Headroom(c.cwnd, c.bwEstimate, c.rtt) <==> c.bwEstimate > CurrentRate(c) > 0
    ensures Headroom(c.cwnd, c.bwEstimate, c.rtt) ==>
      Quotient(CurrentRate(c), c.cwnd * 1_000_000, c.rtt.smoothed.value / 1000)
  {
    if c.rtt.smoothed.Some? && c.rtt.smoothed.value >= 1000 {
      var micros, q := c.rtt.smoothed.value / 1000, CurrentRate(c);
      QuotientIs(q, c.cwnd * 1_000_000, micros);
      if q < c.bwEstimate { MulMono(q + 1, c.bwEstimate, micros); } else { MulMono(c.bwEstimate, q, micros); }
      if q > 0 { MulMono(1, q, micros); }
    }
  }

  lemma QuarterOf(a: nat)
    ensures Quotient(a / NS / 4, a, 4 * NS)
  {
    QuotientIs(a / NS, a, NS);
    QuotientIs(a / NS / 4, a / NS, 4);
  }

  /** A quarter of the bytes to the measured rate, given the window over the RTT, and at least one packet;
      all rounded down. */
  ghost predicate QuarterOfGap(x: nat, rate: nat, srtt: nat, current: nat) {
    && current <= rate
    && exists quarter: nat :: Quotient(quarter, (rate - current) * srtt, 4_000_000_000) && x == Max(quarter, MTU)
  }

  /** What a raise adds, by the state of the path after the ACK's own measurements. */
  ghost predicate RaiseIs(x: nat, window: nat, rate: nat, rtt: Rtt, gap: nat) {
    if PastTwiceBdp(window, rate, rtt, gap) then x == MTU
    else if Headroom(window, rate, rtt) then
      exists current: nat :: Quotient(current, window * 1_000_000, rtt.smoothed.value / 1000)
                        && QuarterOfGap(x, rate, rtt.smoothed.value, current)
    else if QueueSlack(rtt, gap) then x == Max(window / 16, MTU)
    else x == MTU
  }

  lemma IncreaseIs(c: Classic)
    ensures RaiseIs(Increase(c), c.cwnd, c.bwEstimate, c.rtt, c.cadence.gap)
  {
    HeadroomIs(c);
    if !PastTwiceBdp(c.cwnd, c.bwEstimate, c.rtt, c.cadence.gap) && Headroom(c.cwnd, c.bwEstimate, c.rtt) {
      QuarterOf((c.bwEstimate - CurrentRate(c)) * c.rtt.smoothed.value);
      assert QuarterOfGap(Increase(c), c.bwEstimate, c.rtt.smoothed.value, CurrentRate(c));
    }
    hide Quotient, CurrentRate, QuarterOfGap;
  }

  /** An ACK in avoidance raises the window exactly when a window's worth has been delivered since the last
      raise, takes that much off the account, and adds what the path allows. */
  lemma AvoidanceAckIs(c: Classic, pn: nat, delivered: nat, rate: nat, now: nat)
    requires Avoiding(c)
    ensures var d := OnAckReceived(c, pn, delivered, rate, now);
      && Avoiding(d) && d.rtt == c.rtt && d.cwnd >= c.cwnd
      && (!Raises(c, delivered) ==>
            d.cwnd == c.cwnd && d.deliveredSinceIncrease == c.deliveredSinceIncrease + delivered)
      && (Raises(c, delivered) ==>
            && d.deliveredSinceIncrease == c.deliveredSinceIncrease + delivered - c.cwnd
            && RaiseIs(d.cwnd - c.cwnd, c.cwnd, d.bwEstimate, d.rtt, d.cadence.gap))
  {
    var m := SmoothBandwidth(TrackRound(c.(cadence := TrackBatch(c.cadence, now)), delivered, pn), rate);
    MeasureKeeps(c, pn, delivered, rate, now);
    IncreaseIs(m);
    hide RaiseIs, Increase, SmoothBandwidth, TrackRound, TrackBatch;
  }

  /** Outside slow start the measurements leave the window, the account and the RTT alone. */
  lemma MeasureKeeps(c: Classic, pn: nat, delivered: nat, rate: nat, now: nat)
    requires !c.slowStart
    ensures var m := SmoothBandwidth(TrackRound(c.(cadence := TrackBatch(c.cadence, now)), delivered, pn), rate);
      && !m.slowStart && m.lossFlag == c.lossFlag && m.cwnd == c.cwnd && m.rtt == c.rtt
      && m.deliveredSinceIncrease == c.deliveredSinceIncrease && m.externalMinCwnd == c.externalMinCwnd
  {
    hide CloseRound, TrackBatch;
  }

  /** Every raise adds at least one packet. */
  lemma RaiseAtLeastMtu(x: nat, window: nat, rate: nat, rtt: Rtt, gap: nat)
    requires RaiseIs(x, window, rate, rtt, gap)
    ensures x >= MTU
  {}

  /** The first ACK after a cut only measures. */
  lemma AckAfterCutRests(c: Classic, pn: nat, delivered: nat, rate: nat, now: nat)
    requires c.lossFlag && !c.slowStart
    ensures var d := OnAckReceived(c, pn, delivered, rate, now);
      Avoiding(d) && d.cwnd == c.cwnd && d.deliveredSinceIncrease == c.deliveredSinceIncrease && d.rtt == c.rtt
  {
    MeasureKeeps(c, pn, delivered, rate, now);
    hide TrackRound, TrackBatch, SmoothBandwidth;
  }

  // ---------- congestion avoidance, over runs without losses ----------

  ghost predicate NoLosses(es: seq<Event>) { forall i :: 0 <= i < |es| ==> !es[i].Lost? }

  ghost function Delivered(es: seq<Event>): nat {
    if es == [] then 0 else (if es[0].Acked? then es[0].delivered else 0) + Delivered(es[1..])
  }

  ghost function Acks(es: seq<Event>): nat {
    if es == [] then 0 else (if es[0].Acked? then 1 else 0) + Acks(es[1..])
  }

  /** The number of raises in a run. */
  ghost function RaiseCount(c: Classic, es: seq<Event>): nat
    decreases |es|
  {
    if es == [] then 0
    else (if es[0].Acked? && Raises(c, es[0].delivered) then 1 else 0) + RaiseCount(Step(c, es[0]), es[1..])
  }

  /** No ACK delivers more than the window it finds. */
  ghost predicate AckedByWindows(c: Classic, es: seq<Event>)
    decreases |es|
  {
    es == [] || ((es[0].Acked? ==> es[0].delivered <= c.cwnd) && AckedByWindows(Step(c, es[0]), es[1..]))
  }

  lemma AvoidanceStep(c: Classic, e: Event)
    requires Avoiding(c) && !e.Lost?
    ensures var d := Step(c, e); var raised := e.Acked? && Raises(c, e.delivered);
      && Avoiding(d) && (if raised then d.cwnd >= c.cwnd + MTU else d.cwnd == c.cwnd)
      && d.deliveredSinceIncrease + (if raised then c.cwnd else 0)
         == c.deliveredSinceIncrease + if e.Acked? then e.delivered else 0
  {
    if e.Acked? {
      var d := OnAckReceived(c, e.pn, e.delivered, e.rate, e.now);
      hide OnAckReceived, RaiseIs;
      AvoidanceAckIs(c, e.pn, e.delivered, e.rate, e.now);
      if Raises(c, e.delivered) {
        RaiseAtLeastMtu(d.cwnd - c.cwnd, c.cwnd, d.bwEstimate, d.rtt, d.cadence.gap);
      }
    }
  }

  /** n raises add at least n packets, and the window never shrinks. */
  lemma {:induction false} RaisesAdd(c: Classic, es: seq<Event>)
    requires Avoiding(c) && NoLosses(es)
    ensures var d := Run(c, es); var n := RaiseCount(c, es);
      Avoiding(d) && n <= Acks(es) && d.cwnd >= c.cwnd && d.cwnd >= c.cwnd + n * MTU
    decreases |es|
  {
    hide Step, Raises, MTU;
    if es != [] {
      var c1, rest := Step(c, es[0]), es[1..];
      AvoidanceStep(c, es[0]);
      forall i | 1 <= i < |es| ensures rest[i - 1] == es[i] {}
      RaisesAdd(c1, rest);
      var m := RaiseCount(c1, rest);
      assert (m + 1) * MTU == m * MTU + MTU;
    }
  }

  /** Every delivered byte buys a raise, at a window each, or is still on account. */
  ghost predicate Balanced(n: nat, first: nat, last: nat, before: nat, delivered: nat, after: nat) {
    n * first + after <= before + delivered <= n * last + after
  }

  lemma {:induction false} GrowthAccount(c: Classic, es: seq<Event>)
    requires Avoiding(c) && NoLosses(es)
    ensures var d := Run(c, es);
      Balanced(RaiseCount(c, es), c.cwnd, d.cwnd, c.deliveredSinceIncrease, Delivered(es), d.deliveredSinceIncrease)
    decreases |es|
  {
    hide Step, Raises, MTU, Balanced, NoLosses;
    if es == [] {
      BalanceStarts(c.cwnd, c.deliveredSinceIncrease);
    } else {
      var c1, rest := Step(c, es[0]), es[1..];
      assert !es[0].Lost? && NoLosses(rest) by { LossFreeRest(es); }
      AvoidanceStep(c, es[0]);
      GrowthAccount(c1, rest);
      RaisesAdd(c1, rest);
      var d := Run(c1, rest);
      BalanceStep(RaiseCount(c1, rest), c.cwnd, c1.cwnd, d.cwnd, es[0].Acked? && Raises(c, es[0].delivered),
                  c.deliveredSinceIncrease, if es[0].Acked? then es[0].delivered else 0, c1.deliveredSinceIncrease,
                  Delivered(rest), d.deliveredSinceIncrease);
    }
  }

  lemma LossFreeRest(es: seq<Event>)
    requires es != [] && NoLosses(es)
    ensures !es[0].Lost? && NoLosses(es[1..])
  {
    forall i | 1 <= i < |es| ensures es[1..][i - 1] == es[i] {}
  }

  lemma BalanceStarts(window: nat, account: nat)
    ensures Balanced(0, window, window, account, 0, account)
  {}

  lemma BalanceStep(m: nat, before: nat, after: nat, end: nat, raised: bool, account: nat, got: nat, next: nat, more: nat,
                    last: nat)
    requires before <= after <= end && next + (if raised then before else 0) == account + got
    requires Balanced(m, after, end, next, more, last)
    ensures Balanced(if raised then 1 + m else 0 + m, before, end, account, got + more, last)
  {
    MulMono(before, after, m);
    assert (m + 1) * before == m * before + before && (m + 1) * end == m * end + end;
  }

  /** Once some ACK has not raised the window, less than a window is on account. */
  lemma {:induction false} AccountIsSmall(c: Classic, es: seq<Event>)
    requires Avoiding(c) && NoLosses(es) && AckedByWindows(c, es)
    ensures RaiseCount(c, es) == Acks(es) || Run(c, es).deliveredSinceIncrease < Run(c, es).cwnd
    ensures c.deliveredSinceIncrease < c.cwnd ==> Run(c, es).deliveredSinceIncrease < Run(c, es).cwnd
    decreases |es|
  {
    hide Step, MTU;
    if es != [] {
      AvoidanceStep(c, es[0]);
      forall i | 1 <= i < |es| ensures es[1..][i - 1] == es[i] {}
      AccountIsSmall(Step(c, es[0]), es[1..]);
    }
  }

  lemma {:induction false} DeliveredByAcks(c: Classic, es: seq<Event>)
    requires Avoiding(c) && NoLosses(es) && AckedByWindows(c, es)
    ensures Delivered(es) <= Acks(es) * Run(c, es).cwnd
    decreases |es|
  {
    hide Step, MTU;
    if es != [] {
      var c1, rest := Step(c, es[0]), es[1..];
      AvoidanceStep(c, es[0]);
      forall i | 1 <= i < |es| ensures rest[i - 1] == es[i] {}
      RaisesAdd(c1, rest);
      DeliveredByAcks(c1, rest);
      assert (Acks(rest) + 1) * Run(c1, rest).cwnd == Acks(rest) * Run(c1, rest).cwnd + Run(c1, rest).cwnd;
    }
  }

  /** Without losses, k windows' worth of delivered bytes raise the window at least k times, by at least one
      packet each: the window is never stuck. */
  lemma WindowsRaise(c: Classic, es: seq<Event>, k: nat)
    requires Avoiding(c) && NoLosses(es) && AckedByWindows(c, es) && Delivered(es) >= k * Run(c, es).cwnd && c.cwnd > 0
    ensures RaiseCount(c, es) >= k && Run(c, es).cwnd >= c.cwnd + k * MTU
  {
    hide Run, RaiseCount, Delivered, Acks, AckedByWindows, MTU;
    var d, n := Run(c, es), RaiseCount(c, es);
    GrowthAccount(c, es);
    RaisesAdd(c, es);
    AccountIsSmall(c, es);
    DeliveredByAcks(c, es);
    EnoughRaises(n, k, Acks(es), d.cwnd, Delivered(es), d.deliveredSinceIncrease);
    MulMono(k, n, MTU);
  }

  lemma EnoughRaises(n: nat, k: nat, acks: nat, window: nat, delivered: nat, left: nat)
    requires window > 0 && k * window <= delivered <= n * window + left
    requires delivered <= acks * window && (n == acks || left < window)
    ensures n >= k
  {
    if n < k { MulMono(n + 1, k, window); }
  }

  /** A single ACK raises the window once, however much it delivers; the rest stays on account. */
  lemma OneRaisePerAck(c: Classic, pn: nat, k: nat, rate: nat, now: nat)
    requires Avoiding(c) && k >= 1
    ensures var d := OnAckReceived(c, pn, k * c.cwnd, rate, now);
      && d.deliveredSinceIncrease == c.deliveredSinceIncrease + (k - 1) * c.cwnd
      && RaiseIs(d.cwnd - c.cwnd, c.cwnd, d.bwEstimate, d.rtt, d.cadence.gap)
  {
    hide OnAckReceived, RaiseIs;
    MulMono(1, k, c.cwnd);
    assert k * c.cwnd - c.cwnd == (k - 1) * c.cwnd;
    AvoidanceAckIs(c, pn, k * c.cwnd, rate, now);
  }

  // ---------- how fast ----------

  /** At every raise of the run the window is past twice the BDP, as measured by then. */
  ghost predicate OverAtRaises(c: Classic, es: seq<Event>)
    decreases |es|
  {
    es == [] ||
    (var d := Step(c, es[0]);
     && (es[0].Acked? && Raises(c, es[0].delivered) ==> PastTwiceBdp(c.cwnd, d.bwEstimate, d.rtt, d.cadence.gap))
     && OverAtRaises(d, es[1..]))
  }

  /** At every raise of the run the queue is slack, with no headroom left and the window within twice the BDP. */
  ghost predicate SlackAtRaises(c: Classic, es: seq<Event>)
    decreases |es|
  {
    es == [] ||
    (var d := Step(c, es[0]);
     && (es[0].Acked? && Raises(c, es[0].delivered) ==>
           && !PastTwiceBdp(c.cwnd, d.bwEstimate, d.rtt, d.cadence.gap) && !Headroom(c.cwnd, d.bwEstimate, d.rtt)
           && QueueSlack(d.rtt, d.cadence.gap))
     && SlackAtRaises(d, es[1..]))
  }

  /** Past twice the BDP the window still grows, by exactly one packet a raise. */
  lemma {:induction false} PastBdpIsAdditive(c: Classic, es: seq<Event>)
    requires Avoiding(c) && NoLosses(es) && OverAtRaises(c, es)
    ensures Run(c, es).cwnd == c.cwnd + RaiseCount(c, es) * MTU
    decreases |es|
  {
    if es != [] {
      var e, rest := es[0], es[1..];
      AvoidanceStep(c, e);
      if e.Acked? { AvoidanceAckIs(c, e.pn, e.delivered, e.rate, e.now); }
      forall i | 1 <= i < |es| ensures rest[i - 1] == es[i] {}
      hide OnAckReceived, Raises, PastTwiceBdp, Update, UpdateBatch, OnPacketSent, OnPacketLost;
      PastBdpIsAdditive(Step(c, e), rest);
    }
  }

  lemma SixteenthGrows(window: nat, next: nat)
    requires next == window + Max(window / 16, MTU)
    ensures 17 * next >= 18 * window
  {}

  /** While the queue stays slack the window grows geometrically: by a seventeenth or more at every raise. */
  lemma {:induction false} SlackGrowthIsGeometric(c: Classic, es: seq<Event>)
    requires Avoiding(c) && NoLosses(es) && SlackAtRaises(c, es)
    ensures Pow(17, RaiseCount(c, es)) * Run(c, es).cwnd >= Pow(18, RaiseCount(c, es)) * c.cwnd
    decreases |es|
  {
    if es != [] {
      var e, rest := es[0], es[1..];
      var d := Step(c, e);
      AvoidanceStep(c, e);
      if e.Acked? {
        AvoidanceAckIs(c, e.pn, e.delivered, e.rate, e.now);
        if Raises(c, e.delivered) { SixteenthGrows(c.cwnd, d.cwnd); }
      }
      forall i | 1 <= i < |es| ensures rest[i - 1] == es[i] {}
      hide Step, Raises;
      SlackGrowthIsGeometric(d, rest);
      if e.Acked? && Raises(c, e.delivered) {
        PowStep(RaiseCount(d, rest), c.cwnd, d.cwnd, Run(d, rest).cwnd);
      }
    }
  }

  lemma PowStep(n: nat, before: nat, after: nat, end: nat)
    requires Pow(17, n) * end >= Pow(18, n) * after && 17 * after >= 18 * before
    ensures Pow(17, n + 1) * end >= Pow(18, n + 1) * before
  {
    var p, q := Pow(17, n), Pow(18, n);
    MulMono(q * after, p * end, 17);
    MulMono(18 * before, 17 * after, q);
    assert Pow(17, n + 1) * end == 17 * (p * end) && Pow(18, n + 1) * before == q * (18 * before);
    assert 17 * (q * after) == q * (17 * after);
  }

  // ---------- the high-water mark ----------

  lemma StepMarks(c: Classic, e: Event)
    ensures Step(c, e).sndCurrSeq == if e.Sent? && e.pn > c.sndCurrSeq then e.pn else c.sndCurrSeq
  {
    hide CongestionEvidence, SameEpoch, EpochExpired, LossTarget, Ramped, Increase, CloseRound, TrackBatch;
  }

  /** The mark that opens an epoch is the highest index sent so far. */
  lemma {:induction false} MarkIsHighest(c: Classic, es: seq<Event>)
    ensures var m := Run(c, es).sndCurrSeq;
      && m >= c.sndCurrSeq && (forall i :: 0 <= i < |es| && es[i].Sent? ==> es[i].pn <= m)
      && (m == c.sndCurrSeq || exists i :: 0 <= i < |es| && es[i].Sent? && es[i].pn == m)
    decreases |es|
  {
    hide Step;
    if es != [] {
      var d, rest := Step(c, es[0]), es[1..];
      StepMarks(c, es[0]);
      MarkIsHighest(d, rest);
      var m := Run(d, rest).sndCurrSeq;
      forall i | 0 <= i < |es| && es[i].Sent? ensures es[i].pn <= m { if i > 0 { assert rest[i - 1] == es[i]; } }
      if m != d.sndCurrSeq {
        var i :| 0 <= i < |rest| && rest[i].Sent? && rest[i].pn == m;
        assert es[i + 1].pn == m;
      }
    }
  }

  // ---------- what an ACK measures ----------

  /** The bandwidth and the cadence are averages with weight one eighth on the newest reading; ACKs less than
      2 ms after the last batch belong to it. */
  lemma AckMeasures(c: Classic, pn: nat, delivered: nat, rate: nat, now: nat)
    ensures var d := OnAckReceived(c, pn, delivered, rate, now); var k := c.cadence;
      && (rate == 0 ==> d.bwEstimate == c.bwEstimate)
      && (rate > 0 ==>
            if c.bwEstimate == 0 then d.bwEstimate == rate else Quotient(d.bwEstimate, 7 * c.bwEstimate + rate, 8))
      && (k.lastBatchAt.None? ==>
            d.cadence.gap == k.gap && d.cadence.batches == 1 && d.cadence.lastBatchAt == Some(now))
      && (k.lastBatchAt.Some? && now < k.lastBatchAt.value + 2_000_000 ==>
            d.cadence.gap == k.gap && d.cadence.batches == k.batches && d.cadence.lastBatchAt == k.lastBatchAt)
      && (k.lastBatchAt.Some? && now >= k.lastBatchAt.value + 2_000_000 ==>
            && d.cadence.batches == k.batches + 1 && d.cadence.lastBatchAt == Some(now)
            && if k.gap == 0 then d.cadence.gap == now - k.lastBatchAt.value
               else Quotient(d.cadence.gap, 7 * k.gap + (now - k.lastBatchAt.value), 8))
  {
    var b := c.(cadence := TrackBatch(c.cadence, now));
    var m := SmoothBandwidth(TrackRound(b, delivered, pn), rate);
    assert m.cadence == b.cadence && m.bwEstimate == SmoothBandwidth(c, rate).bwEstimate by {
      hide CloseRound, TrackBatch;
    }
    GrowthKeepsReadings(m, delivered);
    hide TrackRound, SlowStartAck, AvoidanceAck;
  }

  lemma GrowthKeepsReadings(m: Classic, delivered: nat)
    ensures var d := SlowStartAck(m, delivered);
      d.bwEstimate == m.bwEstimate && d.cadence.(inflated := None) == m.cadence.(inflated := None)
    ensures var d := AvoidanceAck(m, delivered); d.bwEstimate == m.bwEstimate && d.cadence == m.cadence
  {
    hide Ramped, Increase;
  }

  // ---------- the ramp ----------

  /** The open round closes with this ACK and is a third strike: slow start opened the window and yet less than a
      quarter more came through than in the best round. */
  ghost predicate ThirdStrike(c: Classic, pn: nat, delivered: nat) {
    && c.rounds.endPn.Some? && pn >= c.rounds.endPn.value && c.rounds.plateau >= 2
    && c.cwnd > c.rounds.startCwnd && 0 < 4 * (c.rounds.delivered + delivered) < 5 * c.rounds.fullBytes
  }

  /** Within three bandwidth-delay products, where those are known; they never shrink the window or hold it below
      the floor. */
  ghost predicate UnderRampCap(c: Classic, rate: nat, x: nat) {
    c.rtt.smoothed.Some? && c.rtt.smoothed.value > 0 && rate > 0 ==>
      x <= c.cwnd || x <= c.externalMinCwnd || x * 1_000_000_000 <= 3 * rate * c.rtt.smoothed.value
  }

  /** In slow start an ACK takes the window to the greatest value that delivery and the ramp's cap allow. */
  lemma RampGrows(c: Classic, pn: nat, delivered: nat, rate: nat, now: nat, x: nat)
    requires Inv(c) && c.slowStart && !c.lossFlag && !ThirdStrike(c, pn, delivered)
    ensures var d := OnAckReceived(c, pn, delivered, rate, now);
      && d.cwnd <= c.cwnd + delivered && UnderRampCap(c, d.bwEstimate, d.cwnd)
      && (x <= c.cwnd + delivered && UnderRampCap(c, d.bwEstimate, x) ==> x <= d.cwnd)
  {
    RampMeasures(c, pn, delivered, rate, now);
    var m := SmoothBandwidth(TrackRound(c.(cadence := TrackBatch(c.cadence, now)), delivered, pn), rate);
    var d := OnAckReceived(c, pn, delivered, rate, now);
    hide TrackRound, TrackBatch, SmoothBandwidth, Inv, ThirdStrike;
    assert d.bwEstimate == m.bwEstimate && d.cwnd == Ramped(m, delivered);
    if c.rtt.smoothed.Some? {
      CapByBdp(x, 3 * m.bwEstimate, c.rtt.smoothed.value);
      CapByBdp(d.cwnd, 3 * m.bwEstimate, c.rtt.smoothed.value);
    }
    hide Bdp, OnAckReceived;
  }

  /** Unless it is a third strike, the measurements of an ACK leave slow start and the window alone. */
  lemma RampMeasures(c: Classic, pn: nat, delivered: nat, rate: nat, now: nat)
    requires Inv(c) && c.slowStart && !ThirdStrike(c, pn, delivered)
    ensures var m := SmoothBandwidth(TrackRound(c.(cadence := TrackBatch(c.cadence, now)), delivered, pn), rate);
      && m.slowStart && m.lossFlag == c.lossFlag && m.cwnd == c.cwnd && m.rtt == c.rtt && m.ssthresh == c.ssthresh
      && m.externalMinCwnd == c.externalMinCwnd && m.cadence == TrackBatch(c.cadence, now)
  {
    hide TrackBatch;
  }

  /** Slow start then ends exactly when the window has reached the threshold, or when the smoothed RTT is above five
      unloaded delays and was already so in an earlier batch. */
  lemma RampEnds(c: Classic, pn: nat, delivered: nat, rate: nat, now: nat)
    requires Inv(c) && c.slowStart && !c.lossFlag && !ThirdStrike(c, pn, delivered)
    ensures var d := OnAckReceived(c, pn, delivered, rate, now);
      var inflated := c.rtt.min.Some? && c.rtt.smoothed.Some?
                      && c.rtt.smoothed.value > 5 * Unloaded(c.rtt, d.cadence.gap);
      && (!d.slowStart <==>
            || d.cwnd >= c.ssthresh
            || (inflated && c.cadence.inflated.Some? && c.cadence.inflated.value < d.cadence.batches))
      && (c.rtt.min.Some? && c.rtt.smoothed.Some? ==>
            (d.cadence.inflated.Some? <==>
               inflated && !(c.cadence.inflated.Some? && c.cadence.inflated.value < d.cadence.batches)))
      && (inflated && c.cadence.inflated.None? ==> d.cadence.inflated == Some(d.cadence.batches))
      && (inflated && d.cadence.inflated.Some? && c.cadence.inflated.Some? ==> d.cadence.inflated == c.cadence.inflated)
  {
    RampMeasures(c, pn, delivered, rate, now);
    hide TrackRound, TrackBatch, SmoothBandwidth, Inv, ThirdStrike, Ramped;
  }

  /** A third strike ends the ramp at once, at what the best round delivered. */
  lemma ThirdStrikeSettles(c: Classic, pn: nat, delivered: nat, rate: nat, now: nat)
    requires Inv(c) && c.slowStart && ThirdStrike(c, pn, delivered)
    ensures var d := OnAckReceived(c, pn, delivered, rate, now);
      var best := Max(c.rounds.fullBytes, c.rounds.delivered + delivered);
      && !d.slowStart && d.ssthresh == Max(c.externalMinCwnd, Min(best, c.cwnd)) && d.rounds.plateau == 0
      && (d.cwnd == d.ssthresh || (!c.lossFlag && d.cwnd >= d.ssthresh + MTU))
  {
    var m := SmoothBandwidth(TrackRound(c.(cadence := TrackBatch(c.cadence, now)), delivered, pn), rate);
    var best := Max(c.rounds.fullBytes, c.rounds.delivered + delivered);
    assert !m.slowStart && m.ssthresh == m.cwnd == Max(c.externalMinCwnd, Min(best, c.cwnd))
      && m.rounds.plateau == 0 && m.lossFlag == c.lossFlag by { hide TrackBatch; }
    IncreaseIs(m);
    RaiseAtLeastMtu(Increase(m), m.cwnd, m.bwEstimate, m.rtt, m.cadence.gap);
    hide TrackRound, TrackBatch, SmoothBandwidth, Inv, Increase, RaiseIs;
  }

  /** While its round is open an ACK only adds to it; one that closes it without a third strike keeps the best
      round and counts a strike exactly when the window was opened and little more came through. */
  lemma RoundIs(c: Classic, pn: nat, delivered: nat, rate: nat, now: nat)
    requires Inv(c) && !(c.slowStart && ThirdStrike(c, pn, delivered))
    ensures var r, q := c.rounds, OnAckReceived(c, pn, delivered, rate, now).rounds;
      var total := r.delivered + delivered;
      && (r.endPn.None? || pn < r.endPn.value ==> q == r.(delivered := total))
      && (r.endPn.Some? && pn >= r.endPn.value ==>
            && q.count == r.count + 1 && q.delivered == 0 && q.lastBytes == total && q.endPn == Some(c.sndCurrSeq)
            && q.startCwnd == c.cwnd && q.fullBytes == Max(r.fullBytes, total)
            && q.plateau == if !c.slowStart || c.cwnd <= r.startCwnd || total == 0 then r.plateau
                            else if 4 * total < 5 * r.fullBytes then r.plateau + 1 else 0)
  {
    var m := SmoothBandwidth(TrackRound(c.(cadence := TrackBatch(c.cadence, now)), delivered, pn), rate);
    assert OnAckReceived(c, pn, delivered, rate, now).rounds == m.rounds by {
      hide Ramped, Increase, TrackRound, TrackBatch;
    }
    hide OnAckReceived, TrackBatch;
  }
}
