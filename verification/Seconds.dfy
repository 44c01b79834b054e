/** Durations as fractions of a second, the form in which the controller compares and multiplies them,
    against the whole-number forms of ClassicSpec. */
module Seconds {
  import opened Words
  import opened RoundTrip
  import opened ClassicSpec

  function Secs(ns: nat): real { ns as real / 1_000_000_000.0 }

  lemma {:induction false} ProductAsReal(a: nat, b: nat)
    ensures (a * b) as real == a as real * b as real
    decreases a
  {
    if a > 0 {
      ProductAsReal(a - 1, b);
      assert a * b == (a - 1) * b + b;
      assert a as real * b as real == (a - 1) as real * b as real + b as real;
    }
  }

  lemma ScaledProduct(rate: nat, delay: nat)
    ensures rate as real * Secs(delay) == (rate * delay) as real / 1_000_000_000.0
  {
    ProductAsReal(rate, delay);
    var r, d := rate as real, delay as real;
    assert r * (d / 1_000_000_000.0) == (r * d) / 1_000_000_000.0;
  }

  /** Truncating rate times seconds gives whole bytes. */
  lemma BytesInDelay(rate: nat, delay: nat)
    ensures (rate as real * Secs(delay)).Floor == Bdp(rate, delay)
  {
    ScaledProduct(rate, delay);
    var p := rate * delay;
    var q, m := p / NS, p % NS;
    assert p == q * NS + m;
    assert p as real / 1_000_000_000.0 == q as real + m as real / 1_000_000_000.0;
  }

  /** Bytes passed in a delay, truncated from seconds. */
  method BytesOver(rate: nat, delay: nat) returns (n: nat)
    ensures n == Bdp(rate, delay)
  {
    BytesInDelay(rate, delay);
    n := (rate as real * Secs(delay)).Floor;
  }

  /** More than twice the bandwidth-delay product. */
  lemma OverTwice(cwnd: nat, rate: nat, delay: nat)
    requires rate > 0 && delay > 0
    ensures var bdp := rate as real * Secs(delay);
      bdp > 0.0 && (cwnd as real > 2.0 * bdp <==> cwnd * NS > 2 * (rate * delay))
  {
    ScaledProduct(rate, delay);
    assert rate * delay > 0;
  }

  lemma QueueBuiltInSeconds(srtt: nat, baseline: nat)
    ensures Secs(srtt) - Secs(baseline) > 0.008 + 0.25 * Secs(baseline) <==> QueueBuilt(srtt, baseline)
  {}

  lemma QueueEmptyInSeconds(srtt: nat, baseline: nat)
    ensures Secs(baseline) <= 0.0 <==> baseline == 0
    ensures Secs(srtt) - Secs(baseline) < 0.010 + 0.10 * Secs(baseline) <==>
            10 * (srtt - baseline) < 100 * MS + baseline
  {}

  lemma FiveTimes(srtt: nat, baseline: nat)
    ensures Secs(srtt) <= Secs(baseline) * 5.0 <==> srtt <= 5 * baseline
  {}

  lemma SevenEighths(cwnd: nat)
    ensures (cwnd as real * 0.875).Floor == cwnd * 7 / 8
  {
    var q, m := cwnd * 7 / 8, cwnd * 7 % 8;
    assert cwnd as real * 0.875 == q as real + m as real / 8.0;
  }

  /** The window after a loss, truncated. */
  method LessAnEighth(cwnd: nat) returns (n: nat)
    ensures n == cwnd * 7 / 8
  {
    SevenEighths(cwnd);
    n := (cwnd as real * 0.875).Floor;
  }

  lemma QuarterMore(bytes: nat, full: nat)
    ensures (bytes as real) < 1.25 * full as real <==> 4 * bytes < 5 * full
  {}
}
