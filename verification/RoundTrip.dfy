/** The round-trip estimator of sections 2.2 and 2.3 of RFC 6298, with times in whole nanoseconds. */
module RoundTrip {
  import opened Words

  const MS: nat := 1_000_000

  datatype Rtt = Rtt(smoothed: Option<nat>, variance: nat, min: Option<nat>, latest: nat)

  const NO_SAMPLES := Rtt(None, 0, None, 0)

  /** One sample: its mean drives the smoothed value, its minimum the minimum. */
  datatype Sample = Sample(mean: nat, min: nat)

  function MinWith(m: Option<nat>, x: nat): Option<nat> {
    match m case None => Some(x) case Some(v) => Some(Min(v, x))
  }

  function Distance(a: nat, b: nat): nat { if a > b then a - b else b - a }

  function Update(r: Rtt, rtt: nat): Rtt {
    match r.smoothed
    case None => Rtt(Some(rtt), rtt / 2, MinWith(r.min, rtt), rtt)
    case Some(srtt) =>
      Rtt(Some((srtt * 7 + rtt) / 8), (r.variance * 3 + Distance(srtt, rtt)) / 4, MinWith(r.min, rtt), rtt)
  }

  function UpdateBatch(r: Rtt, mean: nat, min: nat): Rtt {
    var u := Update(r, mean);
    u.(min := MinWith(u.min, min))
  }

  /** As coded: four times the larger of the variance and 1 ms, not the larger of four variances and 1 ms. */
  function RtoWithMin(r: Rtt, floor: nat): nat {
    match r.smoothed
    case None => floor
    case Some(srtt) => Max(srtt + 4 * Max(r.variance, MS), floor)
  }

  // ---------- bounds over every run of samples ----------

  function Feed(r: Rtt, samples: seq<Sample>): Rtt
    decreases |samples|
  {
    if samples == [] then r
    else
      var n := |samples| - 1;
      UpdateBatch(Feed(r, samples[..n]), samples[n].mean, samples[n].min)
  }

  /** The estimator lies within the range of the samples it was fed. */
  ghost predicate Within(r: Rtt, lo: nat, hi: nat) {
    match r.smoothed
    case None => r.min.None? && r.variance == 0
    case Some(srtt) => r.min.Some? && lo <= r.min.value <= srtt <= hi && r.variance <= hi
  }

  lemma UpdateKeepsWithin(r: Rtt, mean: nat, min: nat, lo: nat, hi: nat)
    requires Within(r, lo, hi) && lo <= mean <= hi && lo <= min
    ensures Within(UpdateBatch(r, mean, min), lo, hi) && Within(Update(r, mean), lo, hi)
  {}

  /** The smallest value among all means and minima, while there is one. */
  ghost function Least(samples: seq<Sample>): nat
    requires samples != []
  {
    var n := |samples| - 1;
    var last := Min(samples[n].mean, samples[n].min);
    if n == 0 then last else Min(Least(samples[..n]), last)
  }

  /** However many samples: minimum at most smoothed at most the largest mean, the minimum exact, and
      the timeout between the smoothed RTT plus 4 ms and five times the largest mean (or 4 ms above it). */
  lemma {:induction false} EstimatorBounds(samples: seq<Sample>, lo: nat, hi: nat, floor: nat)
    requires forall i :: 0 <= i < |samples| ==> lo <= samples[i].mean <= hi && lo <= samples[i].min
    ensures var r := Feed(NO_SAMPLES, samples);
      && Within(r, lo, hi) && (r.smoothed.Some? <==> samples != [])
      && (samples != [] ==>
            && r.min == Some(Least(samples))
            && Max(r.smoothed.value + 4 * MS, floor) <= RtoWithMin(r, floor) <= Max(hi + 4 * Max(hi, MS), floor))
    decreases |samples|
  {
    if samples != [] {
      var n := |samples| - 1;
      forall i | 0 <= i < n ensures samples[..n][i] == samples[i] {}
      EstimatorBounds(samples[..n], lo, hi, floor);
      UpdateKeepsWithin(Feed(NO_SAMPLES, samples[..n]), samples[n].mean, samples[n].min, lo, hi);
    }
  }

  // ---------- what one sample does ----------

  /** The first sample sets the estimate; each later one moves the smoothed RTT by an eighth of the way and the
      variance, against the smoothed RTT from before, by a quarter; all rounded down. */
  lemma SampleIs(r: Rtt, rtt: nat)
    ensures var u := Update(r, rtt);
      && u.latest == rtt && u.smoothed.Some? && u.min.Some?
      && u.min.value <= rtt && (r.min.Some? ==> u.min.value <= r.min.value) && (u.min == Some(rtt) || u.min == r.min)
      && (r.smoothed.None? ==> u.smoothed.value == rtt && 2 * u.variance <= rtt < 2 * u.variance + 2)
      && (r.smoothed.Some? ==>
            var srtt := r.smoothed.value;
            && 8 * u.smoothed.value <= 7 * srtt + rtt < 8 * u.smoothed.value + 8
            && 4 * u.variance <= 3 * r.variance + (if srtt > rtt then srtt - rtt else rtt - srtt) < 4 * u.variance + 4)
  {}

  /** Equal samples from any estimate on: the distance to them falls as (7/8)^n, down to rounding. */
  lemma {:induction false} SmoothingConverges(r: Rtt, x: nat, n: nat)
    requires r.smoothed.Some?
    ensures var u := Feed(r, seq(n, _ => Sample(x, x)));
      && u.smoothed.Some?
      && Pow(8, n) * Distance(u.smoothed.value, x) <= Pow(7, n) * Distance(r.smoothed.value, x) + 7 * Pow(8, n)
    decreases n
  {
    hide Update, Pow;
    if n == 0 {
      ConvergeStart(Distance(r.smoothed.value, x));
    } else {
      var xs := seq(n, _ => Sample(x, x));
      SmoothingConverges(r, x, n - 1);
      assert xs[..n - 1] == seq(n - 1, _ => Sample(x, x));
      var before := Feed(r, xs[..n - 1]);
      SampleIs(before, x);
      ConvergeStep(Distance(r.smoothed.value, x), Distance(before.smoothed.value, x),
                   Distance(Feed(r, xs).smoothed.value, x), n);
    }
  }

  lemma ConvergeStart(d: nat)
    ensures Pow(8, 0) * d <= Pow(7, 0) * d + 7 * Pow(8, 0)
  {}

  lemma ConvergeStep(start: nat, d: nat, e: nat, n: nat)
    requires n > 0 && Pow(8, n - 1) * d <= Pow(7, n - 1) * start + 7 * Pow(8, n - 1) && 8 * e <= 7 * d + 7
    ensures Pow(8, n) * e <= Pow(7, n) * start + 7 * Pow(8, n)
  {
    var p, q := Pow(8, n - 1), Pow(7, n - 1);
    MulMono(8 * e, 7 * d + 7, p);
    assert (8 * e) * p == Pow(8, n) * e && (7 * d + 7) * p == 7 * (p * d) + 7 * p;
    assert Pow(7, n) * start == 7 * (q * start);
  }

  /** The timeout is the least value not below the floor, the smoothed RTT plus 4 ms, and plus four variances. */
  lemma RtoIs(r: Rtt, floor: nat, x: nat)
    ensures var rto := RtoWithMin(r, floor);
      && rto >= floor && (r.smoothed.None? ==> rto == floor)
      && (r.smoothed.Some? ==>
            && rto >= r.smoothed.value + 4_000_000 && rto >= r.smoothed.value + 4 * r.variance
            && (x >= floor && x >= r.smoothed.value + 4_000_000 && x >= r.smoothed.value + 4 * r.variance ==> x >= rto))
  {}

  class RttEstimator {
    var smoothedRtt: Option<nat>
    var rttVar: nat
    var minRtt: Option<nat>
    var latestRtt: nat

    function View(): Rtt
      reads this
    {
      Rtt(smoothedRtt, rttVar, minRtt, latestRtt)
    }

    constructor ()
      ensures View() == NO_SAMPLES
    {
      smoothedRtt, rttVar, minRtt, latestRtt := None, 0, None, 0;
    }

    method UpdateSample(rtt: nat)
      modifies this
      ensures View() == Update(old(View()), rtt)
    {
      latestRtt := rtt;
      minRtt := Some(if minRtt.Some? then Min(minRtt.value, rtt) else rtt);
      if smoothedRtt.None? {
        smoothedRtt := Some(rtt);
        rttVar := rtt / 2;
      } else {
        var srtt := smoothedRtt.value;
        var diff := if srtt > rtt then srtt - rtt else rtt - srtt;
        rttVar := (rttVar * 3 + diff) / 4;
        smoothedRtt := Some((srtt * 7 + rtt) / 8);
      }
    }

    method UpdateFromBatch(mean: nat, min: nat)
      modifies this
      ensures View() == UpdateBatch(old(View()), mean, min)
    {
      UpdateSample(mean);
      minRtt := Some(if minRtt.Some? then Min(minRtt.value, min) else min);
    }
  }
}
