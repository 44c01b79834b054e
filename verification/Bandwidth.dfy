/** The windowed maximum bandwidth filter: a monotonic deque against a scan of every sample. */
module Bandwidth {
  import opened Words

  datatype Sample = Sample(at: nat, rate: u64)

  const INITIAL_RTT_NS: nat := 100_000_000

  predicate InTimeOrder(s: seq<Sample>) { forall i, j :: 0 <= i < j < |s| ==> s[i].at <= s[j].at }

  predicate StrictlyFalling(s: seq<Sample>) { forall i, j :: 0 <= i < j < |s| ==> s[i].rate > s[j].rate }

  /** Brute force: the largest rate among all samples no older than the cutoff; 0 when there is none. */
  function WindowMax(fed: seq<Sample>, cutoff: nat): nat {
    if fed == [] then 0
    else
      var n := |fed| - 1;
      var m := WindowMax(fed[..n], cutoff);
      if fed[n].at >= cutoff then Max(m, fed[n].rate) else m
  }

  ghost predicate IsWindowMax(fed: seq<Sample>, cutoff: nat, m: nat) {
    && (forall i :: 0 <= i < |fed| && fed[i].at >= cutoff ==> fed[i].rate <= m)
    && (m == 0 || exists i :: 0 <= i < |fed| && fed[i].at >= cutoff && fed[i].rate == m)
  }

  lemma {:induction false} WindowMaxIs(fed: seq<Sample>, cutoff: nat)
    ensures IsWindowMax(fed, cutoff, WindowMax(fed, cutoff))
    decreases |fed|
  {
    if fed != [] {
      var n := |fed| - 1;
      WindowMaxIs(fed[..n], cutoff);
      var before, m := WindowMax(fed[..n], cutoff), WindowMax(fed, cutoff);
      forall i | 0 <= i < |fed| && fed[i].at >= cutoff ensures fed[i].rate <= m {
        if i < n { assert fed[..n][i] == fed[i]; }
      }
      if m != 0 {
        if fed[n].at >= cutoff && fed[n].rate == m {
        } else {
          var i :| 0 <= i < n && fed[..n][i].at >= cutoff && fed[..n][i].rate == before;
          assert fed[i] == fed[..n][i];
        }
      }
    }
  }

  lemma WindowMaxUnique(fed: seq<Sample>, cutoff: nat, m: nat)
    requires IsWindowMax(fed, cutoff, m)
    ensures m == WindowMax(fed, cutoff)
  {
    WindowMaxIs(fed, cutoff);
  }

  /** Every sample in [cutoff, horizon) is matched by one at or after the horizon. */
  ghost predicate Matched(fed: seq<Sample>, cutoff: nat, horizon: nat) {
    forall i :: 0 <= i < |fed| && cutoff <= fed[i].at < horizon && fed[i].rate > 0 ==> MatchedOne(fed, horizon, fed[i].rate)
  }

  ghost predicate MatchedOne(fed: seq<Sample>, horizon: nat, rate: nat) {
    exists j :: 0 <= j < |fed| && fed[j].at >= horizon && fed[j].rate >= rate
  }

  /** After an RTT increase the cutoff can fall behind the horizon. What was dropped stays dropped, so the
      maximum since the horizon can only be low, and is exact if and only if nothing unmatched was dropped. */
  lemma ForgottenReadsLow(fed: seq<Sample>, cutoff: nat, horizon: nat)
    ensures WindowMax(fed, Max(horizon, cutoff)) <= WindowMax(fed, cutoff)
    ensures WindowMax(fed, Max(horizon, cutoff)) == WindowMax(fed, cutoff) <==> Matched(fed, cutoff, horizon)
  {
    if cutoff < horizon {
      var kept := WindowMax(fed, horizon);
      WindowMaxIs(fed, cutoff);
      WindowMaxIs(fed, horizon);
      hide WindowMax;
      forall i | 0 <= i < |fed| && fed[i].rate > 0
        ensures MatchedOne(fed, horizon, fed[i].rate) <==> fed[i].rate <= kept
      {
        if fed[i].rate <= kept {
          var j :| 0 <= j < |fed| && fed[j].at >= horizon && fed[j].rate == kept;
        }
      }
    }
  }

  /** Some kept sample is at least as late and at least as large as x. */
  ghost predicate Dominated(kept: seq<Sample>, x: Sample) {
    exists k :: 0 <= k < |kept| && kept[k].at >= x.at && kept[k].rate >= x.rate
  }

  /** Every sample fed since the horizon is dominated by a kept one. */
  ghost predicate Covers(kept: seq<Sample>, fed: seq<Sample>, horizon: nat) {
    forall i :: 0 <= i < |fed| && fed[i].at >= horizon ==> Dominated(kept, fed[i])
  }

  ghost predicate Has(fed: seq<Sample>, x: Sample) { x in fed }

  /** Every kept sample was fed, and no earlier than the horizon. */
  ghost predicate Drawn(kept: seq<Sample>, fed: seq<Sample>, horizon: nat) {
    forall k :: 0 <= k < |kept| ==> kept[k].at >= horizon && Has(fed, kept[k])
  }

  /** What the deque keeps of the samples fed so far. */
  ghost predicate Deque(kept: seq<Sample>, fed: seq<Sample>, horizon: nat) {
    InTimeOrder(kept) && StrictlyFalling(kept) && Drawn(kept, fed, horizon) && Covers(kept, fed, horizon)
  }

  lemma CoveredFrom(kept: seq<Sample>, x: Sample, cutoff: nat, first: nat)
    requires StrictlyFalling(kept) && Dominated(kept, x) && cutoff <= x.at
    requires first <= |kept| && forall k :: 0 <= k < first ==> kept[k].at < cutoff
    ensures first < |kept| && x.rate <= kept[first].rate && Dominated(kept[first..], x)
  {
    var k :| 0 <= k < |kept| && kept[k].at >= x.at && kept[k].rate >= x.rate;
    assert kept[first..][k - first] == kept[k];
  }

  /** The first live entry of a falling, covering deque is the maximum of everything live. */
  lemma FirstLiveIsMax(kept: seq<Sample>, fed: seq<Sample>, horizon: nat, cutoff: nat, first: nat)
    requires Deque(kept, fed, horizon)
    requires first <= |kept| && forall k :: 0 <= k < first ==> kept[k].at < cutoff
    requires first < |kept| ==> kept[first].at >= cutoff
    ensures (if first < |kept| then kept[first].rate else 0) == WindowMax(fed, Max(horizon, cutoff))
  {
    var c := Max(horizon, cutoff);
    var m := if first < |kept| then kept[first].rate else 0;
    hide Dominated;
    forall i | 0 <= i < |fed| && fed[i].at >= c ensures fed[i].rate <= m {
      CoveredFrom(kept, fed[i], cutoff, first);
    }
    assert first < |kept| ==> Has(fed, kept[first]) && kept[first].at >= c;
    hide Covers, Drawn, StrictlyFalling;
    if first < |kept| {
      var i :| 0 <= i < |fed| && fed[i] == kept[first];
    }
    WindowMaxUnique(fed, c, m);
  }

  lemma PushKeeps(full: seq<Sample>, n: nat, fed: seq<Sample>, horizon: nat, x: Sample)
    requires n <= |full| && Deque(full, fed, horizon)
    requires horizon <= x.at && forall i :: 0 <= i < |fed| ==> fed[i].at <= x.at
    requires forall k :: n <= k < |full| ==> full[k].rate <= x.rate
    requires n > 0 ==> full[n - 1].rate > x.rate
    ensures Deque(full[..n] + [x], fed + [x], horizon)
  {
    hide Has, Dominated;
    var kept, all := full[..n] + [x], fed + [x];
    assert kept[n] == x;
    forall k | 0 <= k < n ensures kept[k] == full[k] && kept[k].at <= x.at && Has(all, kept[k]) {
      HasMore(fed, full[k], x);
    }
    HasMore(all, x, x);
    forall i | 0 <= i < |all| && all[i].at >= horizon ensures Dominated(kept, all[i]) {
      if i < |fed| {
        assert all[i] == fed[i];
        StillDominated(full, n, fed[i], x);
      } else {
        DominatesItself(kept, n);
      }
    }
  }

  lemma HasMore(fed: seq<Sample>, y: Sample, x: Sample)
    requires Has(fed, y) || (fed != [] && fed[|fed| - 1] == y)
    ensures Has(fed + [x], y) && Has(fed, y)
  {
    assert forall i :: 0 <= i < |fed| ==> (fed + [x])[i] == fed[i];
  }

  lemma DominatesItself(kept: seq<Sample>, n: nat)
    requires n < |kept|
    ensures Dominated(kept, kept[n])
  {}

  lemma StillDominated(full: seq<Sample>, n: nat, y: Sample, x: Sample)
    requires n <= |full| && Dominated(full, y) && y.at <= x.at
    requires forall k :: n <= k < |full| ==> full[k].rate <= x.rate
    ensures Dominated(full[..n] + [x], y)
  {
    var k :| 0 <= k < |full| && full[k].at >= y.at && full[k].rate >= y.rate;
    var kept := full[..n] + [x];
    assert kept[n] == x && (k < n ==> kept[k] == full[k]);
  }

  lemma DropKeeps(full: seq<Sample>, first: nat, fed: seq<Sample>, horizon: nat, cutoff: nat)
    requires first <= |full| && Deque(full, fed, horizon)
    requires forall k :: 0 <= k < first ==> full[k].at < cutoff
    requires first < |full| ==> full[first].at >= cutoff
    ensures Deque(full[first..], fed, Max(horizon, cutoff))
  {
    hide Has, Dominated;
    var kept, c := full[first..], Max(horizon, cutoff);
    forall k | 0 <= k < |kept| ensures kept[k] == full[first + k] {}
    forall i | 0 <= i < |fed| && fed[i].at >= c ensures Dominated(kept, fed[i]) {
      CoveredFrom(full, fed[i], cutoff, first);
    }
  }

  /** r is the greatest rate sampled at most `span` ago, or zero when there is none. */
  ghost predicate IsPeak(fed: seq<Sample>, span: nat, now: nat, r: nat) {
    && (forall i :: 0 <= i < |fed| && fed[i].at + span >= now ==> fed[i].rate <= r)
    && (r == 0 || exists i :: 0 <= i < |fed| && fed[i].at + span >= now && fed[i].rate == r)
  }

  lemma PeakIs(fed: seq<Sample>, span: nat, now: nat)
    ensures IsPeak(fed, span, now, WindowMax(fed, Cutoff(now, span)))
  {
    WindowMaxIs(fed, Cutoff(now, span));
    forall i | 0 <= i < |fed| ensures fed[i].at >= Cutoff(now, span) <==> fed[i].at + span >= now {
      CutoffIs(now, span, fed[i].at);
    }
  }

  class BandwidthEstimator {
    var maxBandwidth: nat
    var currentBandwidth: u64
    var samples: seq<Sample>
    const windowCount: nat
    var rttEstimate: nat

    /** Every sample ever added, the largest cutoff ever applied, the last call's time, and the pops so far. */
    ghost var fed: seq<Sample>
    ghost var horizon: nat
    ghost var clock: nat
    ghost var pops: nat

    ghost predicate Valid()
      reads this
    {
      && Deque(samples, fed, horizon)
      && (forall i :: 0 <= i < |fed| ==> fed[i].at <= clock)
      && horizon <= clock
      && pops + |samples| == |fed|
      && maxBandwidth == WindowMax(fed, horizon)
    }

    constructor (count: nat)
      ensures Valid() && fed == [] && horizon == 0 && clock == 0 && windowCount == count
      ensures rttEstimate == INITIAL_RTT_NS && maxBandwidth == 0 && currentBandwidth == 0
    {
      maxBandwidth, currentBandwidth, samples := 0, 0, [];
      windowCount := count;
      rttEstimate := INITIAL_RTT_NS;
      fed, horizon, clock, pops := [], 0, 0, 0;
    }

    function WindowDuration(): nat
      reads this
    {
      rttEstimate * windowCount
    }

    /** Drop from the back everything the new sample dominates, append it, then expire from the front. */
    method AddSample(rate: u64, now: nat)
      requires Valid() && clock <= now
      modifies this
      ensures Valid() && rttEstimate == old(rttEstimate) && clock == now
      ensures fed == old(fed) + [Sample(now, rate)]
      ensures horizon == Max(old(horizon), Cutoff(now, WindowDuration()))
      ensures currentBandwidth == rate && maxBandwidth == WindowMax(fed, horizon)
      ensures var cutoff := Cutoff(now, WindowDuration());
        && (maxBandwidth == WindowMax(fed, cutoff) <==> Matched(fed, cutoff, horizon))
        && (old(horizon) <= cutoff ==> maxBandwidth == WindowMax(fed, cutoff))
      ensures old(horizon) == 0 || old(horizon) + rttEstimate * windowCount <= now ==>
        IsPeak(fed, rttEstimate * windowCount, now, maxBandwidth)
    {
      hide WindowMax, Deque, Matched, IsPeak;
      currentBandwidth := rate;
      var full := samples;
      while |samples| > 0 && samples[|samples| - 1].rate <= rate
        invariant samples <= full && pops + |samples| == |fed|
        invariant forall k :: |samples| <= k < |full| ==> full[k].rate <= rate
        modifies this`samples, this`pops
      {
        samples := samples[..|samples| - 1];
        pops := pops + 1;
      }
      assert samples == full[..|samples|];
      PushKeeps(full, |samples|, fed, horizon, Sample(now, rate));
      samples := samples + [Sample(now, rate)];
      fed, clock := fed + [Sample(now, rate)], now;
      ExpireOld(now);
      ForgottenReadsLow(fed, Cutoff(now, WindowDuration()), horizon);
      PeakIs(fed, WindowDuration(), now);
    }

    method ExpireOld(now: nat)
      requires Deque(samples, fed, horizon)
      requires clock == now && horizon <= clock && pops + |samples| == |fed|
      requires forall i :: 0 <= i < |fed| ==> fed[i].at <= clock
      modifies this`samples, this`maxBandwidth, this`horizon, this`pops
      ensures Valid() && horizon == Max(old(horizon), Cutoff(now, WindowDuration()))
    {
      hide WindowMax, Deque;
      var cutoff := Cutoff(now, WindowDuration());
      ghost var full := samples;
      while |samples| > 0 && samples[0].at < cutoff
        invariant |samples| <= |full| && samples == full[|full| - |samples|..]
        invariant pops + |samples| == |fed|
        invariant forall k :: 0 <= k < |full| - |samples| ==> full[k].at < cutoff
        modifies this`samples, this`pops
      {
        samples := samples[1..];
        pops := pops + 1;
      }
      ghost var first := |full| - |samples|;
      assert first < |full| ==> full[first] == samples[0];
      FirstLiveIsMax(full, fed, horizon, cutoff, first);
      DropKeeps(full, first, fed, horizon, cutoff);
      horizon := Max(horizon, cutoff);
      maxBandwidth := if |samples| > 0 then samples[0].rate else 0;
    }

    method UpdateRtt(rtt: nat)
      requires Valid()
      modifies this`rttEstimate
      ensures Valid() && rttEstimate == if rtt != 0 then rtt else old(rttEstimate)
    {
      if rtt != 0 { rttEstimate := rtt; }
    }

    /** Reads without expiring: the first live entry of the deque. */
    method WindowedMaxBandwidth(now: nat) returns (r: nat)
      requires Valid()
      ensures r == WindowMax(fed, Max(horizon, Cutoff(now, WindowDuration())))
      ensures var cutoff := Cutoff(now, WindowDuration());
        && (r == WindowMax(fed, cutoff) <==> Matched(fed, cutoff, horizon))
        && (horizon <= cutoff ==> r == WindowMax(fed, cutoff))
      ensures horizon == 0 || horizon + rttEstimate * windowCount <= now ==> IsPeak(fed, rttEstimate * windowCount, now, r)
    {
      PeakIs(fed, WindowDuration(), now);
      hide Deque, WindowMax, Matched, IsPeak;
      var cutoff := Cutoff(now, WindowDuration());
      ForgottenReadsLow(fed, cutoff, horizon);
      var k := 0;
      while k < |samples| && samples[k].at < cutoff
        invariant k <= |samples| && forall i :: 0 <= i < k ==> samples[i].at < cutoff
      {
        k := k + 1;
      }
      FirstLiveIsMax(samples, fed, horizon, cutoff, k);
      r := if k < |samples| then samples[k].rate else 0;
    }
  }

  /** A peak of 9 forgotten under a short RTT: once the RTT has grown and the window reaches back to it
      again, the filter still reads 1. */
  method ForgottenPeak() returns (e: BandwidthEstimator, reading: nat)
    ensures e.Valid() && reading == 1
    ensures Cutoff(10, e.WindowDuration()) == 0 && WindowMax(e.fed, Cutoff(10, e.WindowDuration())) == 9
  {
    hide WindowMax, Matched, BandwidthEstimator.Valid;
    PeakFacts();
    e := new BandwidthEstimator(1);
    e.UpdateRtt(5);
    e.AddSample(9, 0);
    e.AddSample(1, 10);
    e.UpdateRtt(10);
    assert e.fed == [Sample(0, 9), Sample(10, 1)];
    reading := e.WindowedMaxBandwidth(10);
  }

  lemma PeakFacts()
    ensures var fed := [Sample(0, 9), Sample(10, 1)]; WindowMax(fed, 5) == 1 && WindowMax(fed, 0) == 9
  {
    var fed := [Sample(0, 9), Sample(10, 1)];
    assert fed[..1] == [Sample(0, 9)] && fed[..1][..0] == [];
  }
}
