/** The delivery-rate estimator: trailing marks, a span of at least half a window, and what the
    estimate can be when ACKs clump. Times are in nanoseconds, rates in bytes per second. */
module Delivery {
  import opened Words

  const NS: nat := 1_000_000_000
  const U64_MAX: nat := U64 - 1

  /** Bytes reported at an instant. */
  datatype Report = Report(at: nat, bytes: u64)

  /** An instant and the running total after it. */
  datatype Mark = Mark(at: nat, total: nat)

  function SatAdd(a: nat, b: nat): nat { Min(U64_MAX, a + b) }

  /** Bytes in the first n reports. */
  ghost function SumTo(fed: seq<Report>, n: nat): nat
    requires n <= |fed|
  {
    if n == 0 then 0 else SumTo(fed, n - 1) + fed[n - 1].bytes
  }

  lemma {:induction false} SumToMonotone(fed: seq<Report>, m: nat, n: nat)
    requires m <= n <= |fed|
    ensures SumTo(fed, m) <= SumTo(fed, n)
    decreases n
  {
    if m < n { SumToMonotone(fed, m, n - 1); }
  }

  lemma {:induction false} SumToAppend(fed: seq<Report>, x: Report, n: nat)
    requires n <= |fed|
    ensures SumTo(fed + [x], n) == SumTo(fed, n)
    decreases n
  {
    if n > 0 { SumToAppend(fed, x, n - 1); }
  }

  /** Whole bytes per second over a span, as a 64-bit word. */
  function Rate(bytes: nat, span: nat): u64
    requires span > 0
  {
    Min(U64_MAX, bytes * NS / span)
  }

  /** Drop front marks while the second one is already a window old and more than two remain. */
  function Trimmed(trail: seq<Mark>, now: nat, window: nat): seq<Mark> {
    if |trail| > 2 && now - trail[1].at >= window then Trimmed(trail[1..], now, window) else trail
  }

  lemma TrimStep(trail: seq<Mark>, now: nat, window: nat)
    ensures Trimmed(trail, now, window) ==
      if |trail| > 2 && now - trail[1].at >= window then Trimmed(trail[1..], now, window) else trail
  {}

  /** Trimming keeps a suffix; whatever it drops, the mark left in front is a window old, and unless
      two or fewer remain the one behind it is younger. */
  lemma {:induction false} TrimmedIs(trail: seq<Mark>, now: nat, window: nat)
    ensures var t := Trimmed(trail, now, window);
      && |t| <= |trail| && t == trail[|trail| - |t|..] && (trail != [] ==> t != [])
      && (|t| < |trail| ==> |t| >= 2 && now - t[0].at >= window)
      && (|t| > 2 ==> now - t[1].at < window)
    decreases |trail|
  {
    if |trail| > 2 && now - trail[1].at >= window {
      TrimmedIs(trail[1..], now, window);
      var t := Trimmed(trail[1..], now, window);
      assert trail[1..][|trail| - 1 - |t|..] == trail[|trail| - |t|..];
    }
  }

  /** The mark report i leaves: its instant and the capped running total. */
  ghost function MarkOf(fed: seq<Report>, i: nat): Mark
    requires i < |fed|
  {
    Mark(fed[i].at, Min(U64_MAX, SumTo(fed, i + 1)))
  }

  /** The trail holds the marks of the last reports, and at least the very last. */
  ghost predicate Tracks(trail: seq<Mark>, fed: seq<Report>) {
    && |trail| <= |fed| && (fed != [] ==> trail != [])
    && forall k :: 0 <= k < |trail| ==> trail[k] == MarkOf(fed, |fed| - |trail| + k)
  }

  ghost predicate InTimeOrder(fed: seq<Report>, clock: nat) {
    && (forall i, j :: 0 <= i < j < |fed| ==> fed[i].at <= fed[j].at)
    && (forall i :: 0 <= i < |fed| ==> fed[i].at <= clock)
  }

  ghost function Capped(fed: seq<Report>): u64 { Min(U64_MAX, SumTo(fed, |fed|)) }

  lemma MarkOfAppend(fed: seq<Report>, x: Report, i: nat)
    requires i < |fed|
    ensures MarkOf(fed + [x], i) == MarkOf(fed, i)
  {
    SumToAppend(fed, x, i + 1);
  }

  lemma CappedAppend(fed: seq<Report>, x: Report)
    ensures Capped(fed + [x]) == SatAdd(Capped(fed), x.bytes)
    ensures MarkOf(fed + [x], |fed|) == Mark(x.at, Capped(fed + [x]))
  {
    SumToAppend(fed, x, |fed|);
  }

  lemma TracksPush(trail: seq<Mark>, fed: seq<Report>, x: Report)
    requires Tracks(trail, fed)
    ensures Tracks(trail + [Mark(x.at, Capped(fed + [x]))], fed + [x])
  {
    hide MarkOf, Capped;
    CappedAppend(fed, x);
    var more, all := trail + [Mark(x.at, Capped(fed + [x]))], fed + [x];
    forall k | 0 <= k < |more| ensures more[k] == MarkOf(all, |all| - |more| + k) {
      if k < |trail| {
        assert more[k] == trail[k];
        MarkOfAppend(fed, x, |fed| - |trail| + k);
      }
    }
  }

  lemma TracksSuffix(trail: seq<Mark>, fed: seq<Report>, t: seq<Mark>)
    requires Tracks(trail, fed) && |t| <= |trail| && t == trail[|trail| - |t|..] && (trail != [] ==> t != [])
    ensures Tracks(t, fed)
  {
    hide MarkOf;
    forall k | 0 <= k < |t| ensures t[k] == MarkOf(fed, |fed| - |t| + k) {
      assert t[k] == trail[|trail| - |t| + k];
    }
  }

  // ---------- what an estimate rests on ----------

  /** Bytes reported after report i, up to and including report j. */
  ghost function Between(fed: seq<Report>, i: nat, j: nat): nat
    requires i <= j < |fed|
  {
    SumToMonotone(fed, i + 1, j + 1);
    SumTo(fed, j + 1) - SumTo(fed, i + 1)
  }

  /** The same as the capped running totals have it. */
  ghost function CappedBetween(fed: seq<Report>, i: nat, j: nat): nat
    requires i <= j < |fed|
  {
    SumToMonotone(fed, i + 1, j + 1);
    MarkOf(fed, j).total - MarkOf(fed, i).total
  }

  /** Bytes over a span of nanoseconds. */
  datatype Flow = Flow(bytes: nat, span: nat)

  /** The flow carries at least this many bytes per second. */
  predicate Carries(f: Flow, rate: nat) { rate * f.span <= f.bytes * NS }

  /** The greatest whole 64-bit rate that the acked bytes carry, and the sent ones too where they limit. */
  ghost predicate Greatest(rate: nat, acked: Flow, sent: Option<Flow>) {
    && rate <= U64_MAX && Carries(acked, rate) && (sent.Some? ==> Carries(sent.value, rate))
    && (rate < U64_MAX ==> !Carries(acked, rate + 1) || (sent.Some? && !Carries(sent.value, rate + 1)))
  }

  /** Two reports at least half a window apart. */
  ghost predicate Apart(fed: seq<Report>, window: nat, i: nat, j: nat) {
    i < j < |fed| && fed[i].at < fed[j].at && 2 * (fed[j].at - fed[i].at) >= window
  }

  /** What a rate was measured from: the ACKs since and up to which, and, where they limited it, the first of the
      sends so far that counted and how many sends there were. */
  datatype Basis = Basis(since: nat, upto: nat, window: nat, sentSince: Option<nat>, sentCount: nat)

  ghost function AckedFlow(fed: seq<Report>, b: Basis): Flow
    requires Apart(fed, b.window, b.since, b.upto)
  {
    Flow(CappedBetween(fed, b.since, b.upto), fed[b.upto].at - fed[b.since].at)
  }

  ghost predicate SentBefore(sent: seq<Report>, b: Basis, at: nat) {
    b.sentCount <= |sent| && (b.sentSince.Some? ==> b.sentSince.value < b.sentCount && sent[b.sentSince.value].at < at)
  }

  ghost function SentFlow(sent: seq<Report>, b: Basis, at: nat): Option<Flow>
    requires SentBefore(sent, b, at)
  {
    if b.sentSince.None? then None
    else Some(Flow(CappedBetween(sent, b.sentSince.value, b.sentCount - 1), at - sent[b.sentSince.value].at))
  }

  /** The rate is the greatest that its basis carries. */
  ghost predicate Measured(rate: nat, acked: seq<Report>, sent: seq<Report>, b: Basis) {
    && Apart(acked, b.window, b.since, b.upto) && SentBefore(sent, b, acked[b.upto].at)
    && Greatest(rate, AckedFlow(acked, b), SentFlow(sent, b, acked[b.upto].at))
  }

  lemma CappedBetweenAppend(fed: seq<Report>, x: Report, i: nat, j: nat)
    requires i <= j < |fed|
    ensures CappedBetween(fed + [x], i, j) == CappedBetween(fed, i, j)
  {
    MarkOfAppend(fed, x, i);
    MarkOfAppend(fed, x, j);
  }

  lemma MeasuredAckAppend(rate: nat, acked: seq<Report>, sent: seq<Report>, b: Basis, x: Report)
    requires Measured(rate, acked, sent, b)
    ensures Measured(rate, acked + [x], sent, b)
  {
    hide CappedBetween, Greatest;
    CappedBetweenAppend(acked, x, b.since, b.upto);
  }

  lemma MeasuredSentAppend(rate: nat, acked: seq<Report>, sent: seq<Report>, b: Basis, x: Report)
    requires Measured(rate, acked, sent, b)
    ensures Measured(rate, acked, sent + [x], b)
  {
    hide CappedBetween, Greatest;
    if b.sentSince.Some? { CappedBetweenAppend(sent, x, b.sentSince.value, b.sentCount - 1); }
  }

  /** Over any interval between reports the bytes are at most rate times length plus a burst. */
  ghost predicate Envelope(fed: seq<Report>, rate: nat, burst: nat) {
    forall i, j :: 0 <= i < j < |fed| ==>
      Between(fed, i, j) * NS <= rate * (fed[j].at - fed[i].at) + burst * NS
  }

  lemma RateBound(estimate: nat, span: nat, bytes: nat, rate: nat, burst: nat, window: nat)
    requires estimate * span <= bytes * NS <= rate * span + burst * NS && window <= 2 * span
    ensures (estimate - rate) * window <= 2 * burst * NS
  {
    assert (estimate - rate) * span <= burst * NS;
    if estimate > rate {
      MulMono(window, 2 * span, estimate - rate);
      assert (estimate - rate) * (2 * span) == 2 * ((estimate - rate) * span);
    } else {
      assert (estimate - rate) * window <= 0;
    }
  }

  /** However the reports clump, a measured rate exceeds the path's by at most 2B/W. */
  lemma EnvelopeBounds(estimate: nat, fed: seq<Report>, sent: seq<Report>, b: Basis, rate: nat, burst: nat)
    requires Measured(estimate, fed, sent, b) && Envelope(fed, rate, burst)
    ensures (estimate - rate) * b.window <= 2 * burst * NS
    ensures b.window > 0 ==> estimate <= rate + 2 * burst * NS / b.window
  {
    var i, j := b.since, b.upto;
    assert CappedBetween(fed, i, j) <= Between(fed, i, j);
    MulMono(CappedBetween(fed, i, j), Between(fed, i, j), NS);
    hide CappedBetween, SumTo;
    RateBound(estimate, fed[j].at - fed[i].at, Between(fed, i, j), rate, burst, b.window);
    if b.window > 0 { DivideOut(estimate - rate, b.window, 2 * burst * NS); }
  }

  /** Over any interval between reports the bytes are at least rate times length less a burst. */
  ghost predicate KeepsUp(fed: seq<Report>, rate: nat, burst: nat) {
    forall i, j :: 0 <= i < j < |fed| ==>
      rate * (fed[j].at - fed[i].at) <= Between(fed, i, j) * NS + burst * NS
  }

  /** And so are the bytes sent from any of the first n sends until the instant. */
  ghost predicate KeepsSending(sent: seq<Report>, n: nat, at: nat, rate: nat, burst: nat) {
    n <= |sent| && forall i :: 0 <= i < n && sent[i].at < at ==>
      rate * (at - sent[i].at) <= Between(sent, i, n - 1) * NS + burst * NS
  }

  /** A flow that carries the path's rate but for a burst, and lasts half a window, carries it but for 2B/W. */
  lemma FlowBound(f: Flow, estimate: nat, rate: nat, burst: nat, window: nat)
    requires rate * f.span <= f.bytes * NS + burst * NS && window <= 2 * f.span && !Carries(f, estimate + 1)
    ensures (rate - estimate - 1) * window <= 2 * burst * NS
  {
    var short := rate - estimate - 1;
    assert (estimate + 1) * f.span > f.bytes * NS;
    assert short * f.span == rate * f.span - (estimate + 1) * f.span;
    if short > 0 {
      MulMono(window, 2 * f.span, short);
      assert short * (2 * f.span) == 2 * (short * f.span);
    } else {
      assert short * window <= 0;
    }
  }

  lemma UncappedBetween(fed: seq<Report>, i: nat, j: nat)
    requires i <= j < |fed| && SumTo(fed, |fed|) <= U64_MAX
    ensures CappedBetween(fed, i, j) == Between(fed, i, j)
  {
    SumToMonotone(fed, i + 1, |fed|);
    SumToMonotone(fed, j + 1, |fed|);
  }

  /** If the path passes at least rate·s - burst in any s, and no less is sent, a measured rate falls short of
      the path's by at most 2B/W and one byte per second. */
  lemma FloorBounds(estimate: nat, fed: seq<Report>, sent: seq<Report>, b: Basis, rate: nat, burst: nat)
    requires Measured(estimate, fed, sent, b) && KeepsUp(fed, rate, burst) && rate <= U64_MAX
    requires SumTo(fed, |fed|) <= U64_MAX && SumTo(sent, |sent|) <= U64_MAX
    requires KeepsSending(sent, b.sentCount, fed[b.upto].at, rate, burst)
    requires b.sentSince.Some? ==> 2 * (fed[b.upto].at - sent[b.sentSince.value].at) >= b.window
    ensures (rate - estimate - 1) * b.window <= 2 * burst * NS
    ensures b.window > 0 ==> rate <= estimate + 1 + 2 * burst * NS / b.window
  {
    hide CappedBetween, Between, SumTo, KeepsUp, KeepsSending;
    if estimate == U64_MAX {
      assert (rate - estimate - 1) * b.window <= 0;
    } else if !Carries(AckedFlow(fed, b), estimate + 1) {
      AckedKeepsUp(fed, b, rate, burst);
      FlowBound(AckedFlow(fed, b), estimate, rate, burst, b.window);
    } else {
      SentKeepsUp(sent, b, fed[b.upto].at, rate, burst);
      FlowBound(SentFlow(sent, b, fed[b.upto].at).value, estimate, rate, burst, b.window);
    }
    if b.window > 0 { DivideOut(rate - estimate - 1, b.window, 2 * burst * NS); }
  }

  lemma AckedKeepsUp(fed: seq<Report>, b: Basis, rate: nat, burst: nat)
    requires Apart(fed, b.window, b.since, b.upto) && KeepsUp(fed, rate, burst) && SumTo(fed, |fed|) <= U64_MAX
    ensures var f := AckedFlow(fed, b); rate * f.span <= f.bytes * NS + burst * NS
  {
    UncappedBetween(fed, b.since, b.upto);
  }

  lemma SentKeepsUp(sent: seq<Report>, b: Basis, at: nat, rate: nat, burst: nat)
    requires SentBefore(sent, b, at) && KeepsSending(sent, b.sentCount, at, rate, burst) && SumTo(sent, |sent|) <= U64_MAX
    ensures var f := SentFlow(sent, b, at); f.Some? ==> rate * f.value.span <= f.value.bytes * NS + burst * NS
  {
    if b.sentSince.Some? { UncappedBetween(sent, b.sentSince.value, b.sentCount - 1); }
  }

  lemma DivideOut(x: int, window: nat, y: nat)
    requires window > 0 && x * window <= y
    ensures x <= y / window
  {
    var q := y / window;
    assert y == q * window + y % window;
    if x > q { MulMono(q + 1, x, window); }
  }

  /** The rate is the greatest the flow carries. */
  lemma RateIsGreatest(f: Flow)
    requires f.span > 0
    ensures Greatest(Rate(f.bytes, f.span), f, None)
    ensures Rate(f.bytes, f.span) > 0 <==> f.bytes * NS >= f.span
  {
    var y, r := f.bytes * NS, Rate(f.bytes, f.span);
    var q := y / f.span;
    assert y == q * f.span + y % f.span && (q + 1) * f.span == q * f.span + f.span;
    MulMono(r, q, f.span);
    if q > 0 { MulMono(1, q, f.span); }
  }

  predicate Measures(span: nat, window: nat) { span > 0 && 2 * span >= window }

  /** The estimate from the front mark, held to the send rate when that is known and positive. */
  function Clamp(measured: u64, sendRate: Option<u64>): u64 {
    match sendRate
    case Some(sent) => if sent > 0 then Min(measured, sent) else measured
    case None => measured
  }

  /** The two flows' rates, the smaller of them where something was sent. */
  lemma ClampIsGreatest(acked: Flow, sent: Option<Flow>)
    requires acked.span > 0 && (sent.Some? ==> sent.value.span > 0)
    ensures var known := if sent.Some? then Some(Rate(sent.value.bytes, sent.value.span)) else None;
            var limits := if sent.Some? && sent.value.bytes * NS >= sent.value.span then sent else None;
      Greatest(Clamp(Rate(acked.bytes, acked.span), known), acked, limits)
  {
    RateIsGreatest(acked);
    var a := Rate(acked.bytes, acked.span);
    if sent.Some? {
      RateIsGreatest(sent.value);
      var b := Rate(sent.value.bytes, sent.value.span);
      hide Rate;
      if b > 0 {
        CarriesLess(acked, a, Min(a, b));
        CarriesLess(sent.value, b, Min(a, b));
      }
    }
  }

  lemma CarriesLess(f: Flow, rate: nat, less: nat)
    requires Carries(f, rate) && less <= rate
    ensures Carries(f, less)
  {
    MulMono(less, rate, f.span);
  }

  lemma FrontIsOld(trail: seq<Mark>, fed: seq<Report>)
    requires Tracks(trail, fed) && fed != []
    ensures |trail| <= |fed| && trail[0].total <= Capped(fed) && trail[0].at == fed[|fed| - |trail|].at
  {
    SumToMonotone(fed, |fed| - |trail| + 1, |fed|);
  }

  lemma FrontIsPast(trail: seq<Mark>, fed: seq<Report>, clock: nat)
    requires Tracks(trail, fed) && InTimeOrder(fed, clock)
    ensures trail != [] ==> trail[0].at <= clock
    ensures |trail| <= |fed| && (trail == [] ==> fed == [])
  {}

  lemma InOrderAppend(fed: seq<Report>, x: Report, clock: nat)
    requires InTimeOrder(fed, clock) && clock <= x.at
    ensures InTimeOrder(fed + [x], x.at)
  {}

  lemma InOrderLater(fed: seq<Report>, clock: nat, now: nat)
    requires InTimeOrder(fed, clock) && clock <= now
    ensures InTimeOrder(fed, now)
  {}

  /** Appending a mark and trimming. A shortened trail starts no later than some past horizon, so while
      the horizon only advances the span reaches back a whole window or to the very first report. */
  lemma PushAndTrim(trail: seq<Mark>, fed: seq<Report>, x: Report, clock: nat, horizon: int, window: nat)
    requires Tracks(trail, fed) && InTimeOrder(fed, clock) && clock <= x.at
    requires |trail| < |fed| ==> trail[0].at <= horizon
    ensures var t := Trimmed(trail + [Mark(x.at, Capped(fed + [x]))], x.at, window);
      && Tracks(t, fed + [x]) && t != [] && t[0].at <= x.at
      && (|t| < |fed| + 1 ==> t[0].at <= x.at - window || (|trail| < |fed| && t[0].at <= horizon))
      && (|trail| == |fed| || horizon <= x.at - window ==> x.at - t[0].at >= Min(window, x.at - (fed + [x])[0].at))
  {
    hide Tracks, Trimmed, Capped, InTimeOrder, SumTo, MarkOf;
    var full, all := trail + [Mark(x.at, Capped(fed + [x]))], fed + [x];
    FrontIsPast(trail, fed, clock);
    TracksPush(trail, fed, x);
    TrimmedIs(full, x.at, window);
    var t := Trimmed(full, x.at, window);
    TracksSuffix(full, all, t);
    FrontIsOld(t, all);
    InOrderAppend(fed, x, clock);
    FrontIsPast(t, all, x.at);
    if |t| == |full| {
      assert t == full && (trail != [] ==> t[0] == trail[0]);
    }
  }

  ghost function Latest(h: Option<int>, t: int): int { if h.Some? then Max(h.value, t) else t }

  /** Which windows the ACKs so far were given: none yet, always this one, or different ones. */
  datatype Windows = Unused | Always(w: nat) | Mixed {
    function With(window: nat): Windows {
      if Unused? || this == Always(window) then Always(window) else Mixed
    }
  }

  /** A shortened trail starts no later than the horizon, which under one fixed window is never less than
      that window ago. */
  ghost predicate Reaches(trail: seq<Mark>, fed: seq<Report>, clock: nat, horizon: Option<int>, windows: Windows) {
    && (|trail| < |fed| ==> horizon.Some? && trail != [] && trail[0].at <= horizon.value)
    && (windows.Unused? ==> horizon.None?)
    && (windows.Always? && horizon.Some? ==> horizon.value <= clock - windows.w)
  }

  lemma ReachesLater(trail: seq<Mark>, fed: seq<Report>, clock: nat, horizon: Option<int>, windows: Windows, now: nat)
    requires Reaches(trail, fed, clock, horizon, windows) && clock <= now
    ensures Reaches(trail, fed, now, horizon, windows)
  {}

  lemma ReachStep(trail: seq<Mark>, fed: seq<Report>, x: Report, clock: nat, horizon: Option<int>, windows: Windows, window: nat)
    requires Tracks(trail, fed) && InTimeOrder(fed, clock) && clock <= x.at && Reaches(trail, fed, clock, horizon, windows)
    ensures var t, first := Trimmed(trail + [Mark(x.at, Capped(fed + [x]))], x.at, window), (fed + [x])[0].at;
      && Tracks(t, fed + [x]) && InTimeOrder(fed + [x], x.at) && t != [] && t[0].at <= x.at
      && Reaches(t, fed + [x], x.at, Some(Latest(horizon, x.at - window)), windows.With(window))
      && (horizon.None? || horizon.value <= x.at - window || |trail| == |fed| ==> x.at - t[0].at >= Min(window, x.at - first))
      && (windows.With(window) == Always(window) ==> x.at - t[0].at >= Min(window, x.at - first))
  {
    hide Trimmed, Capped, InTimeOrder;
    FrontIsPast(trail, fed, clock);
    InOrderAppend(fed, x, clock);
    hide Tracks;
    PushAndTrim(trail, fed, x, clock, if horizon.Some? then horizon.value else clock, window);
  }

  /** Where the sends limited a rate, they reach back a whole window or to the very first send. */
  ghost predicate SentReaches(sent: seq<Report>, b: Basis, at: nat, windows: Windows) {
    b.sentSince.Some? && windows.Always? && 0 < b.sentSince.value < |sent| ==>
      at - sent[b.sentSince.value].at >= windows.w
  }

  /** The whole claim about the current estimate: none yet, or measured. */
  ghost predicate Estimated(rate: nat, acked: seq<Report>, sent: seq<Report>, basis: Option<Basis>, windows: Windows) {
    match basis
    case None => rate == 0
    case Some(b) => Measured(rate, acked, sent, b) && SentReaches(sent, b, acked[b.upto].at, windows)
  }

  lemma EstimatedAckAppend(rate: nat, acked: seq<Report>, sent: seq<Report>, basis: Option<Basis>, windows: Windows,
                           x: Report)
    requires Estimated(rate, acked, sent, basis, windows)
    ensures Estimated(rate, acked + [x], sent, basis, windows)
  {
    hide Greatest;
    if basis.Some? { MeasuredAckAppend(rate, acked, sent, basis.value, x); }
  }

  lemma EstimatedSentAppend(rate: nat, acked: seq<Report>, sent: seq<Report>, basis: Option<Basis>, windows: Windows,
                            x: Report, window: nat)
    requires Estimated(rate, acked, sent, basis, windows) && (windows.Unused? ==> sent == [])
    ensures Estimated(rate, acked, sent + [x], basis, windows.With(window))
  {
    hide Greatest;
    if basis.Some? { MeasuredSentAppend(rate, acked, sent, basis.value, x); }
  }

  /** The bytes since the front mark of a trail. */
  lemma FrontFlow(trail: seq<Mark>, fed: seq<Report>)
    requires Tracks(trail, fed) && fed != []
    ensures var i := |fed| - |trail|;
      && 0 <= i < |fed| && trail[0].at == fed[i].at
      && Capped(fed) - trail[0].total == CappedBetween(fed, i, |fed| - 1)
  {}

  /** The estimate an ACK measures is the greatest rate its trails carry. */
  lemma EstimateIs(rate: nat, trail: seq<Mark>, acked: seq<Report>, sentTrail: seq<Mark>, sent: seq<Report>, now: nat,
                   window: nat, limits: Option<Flow>, clock: nat, horizon: Option<int>, windows: Windows)
    requires Tracks(trail, acked) && acked != [] && acked[|acked| - 1].at == now && Tracks(sentTrail, sent)
    requires trail[0].total <= Capped(acked) && trail[0].at <= now && Measures(now - trail[0].at, window)
    requires limits.Some? ==> sentTrail != [] && sentTrail[0].at < now && sentTrail[0].total <= Capped(sent)
                              && limits.value == Flow(Capped(sent) - sentTrail[0].total, now - sentTrail[0].at)
    requires Greatest(rate, Flow(Capped(acked) - trail[0].total, now - trail[0].at), limits)
    requires Reaches(sentTrail, sent, clock, horizon, windows) && clock <= now
    ensures |trail| <= |acked| && |sentTrail| <= |sent|
    ensures Estimated(rate, acked, sent,
                      Some(Basis(|acked| - |trail|, |acked| - 1, window,
                                 if limits.Some? then Some(|sent| - |sentTrail|) else None, |sent|)), windows)
  {
    hide Capped, Greatest, CappedBetween, SumTo, MarkOf;
    FrontFlow(trail, acked);
    if limits.Some? { FrontFlow(sentTrail, sent); }
  }

  class DeliveryRateEstimator {
    var totalDelivered: u64
    var trail: seq<Mark>
    var deliveryRate: u64
    var lastSpanUs: nat
    var totalSent: u64
    var sentTrail: seq<Mark>

    /** Every report so far, the time of the last call, the latest instants a window has reached
        back to, and what the current estimate was measured from. */
    ghost var acked: seq<Report>
    ghost var sent: seq<Report>
    ghost var clock: nat
    ghost var horizon: Option<int>
    ghost var windows: Windows
    ghost var sentHorizon: Option<int>
    ghost var sentWindows: Windows
    ghost var basis: Option<Basis>

    ghost predicate Valid()
      reads this
    {
      && Tracks(trail, acked) && Tracks(sentTrail, sent)
      && InTimeOrder(acked, clock) && InTimeOrder(sent, clock)
      && totalDelivered == Capped(acked) && totalSent == Capped(sent)
      && Reaches(trail, acked, clock, horizon, windows)
      && Reaches(sentTrail, sent, clock, sentHorizon, sentWindows) && (sentWindows.Unused? ==> sent == [])
      && Estimated(deliveryRate, acked, sent, basis, sentWindows)
    }

    constructor ()
      ensures Valid() && acked == [] && sent == [] && deliveryRate == 0 && clock == 0
      ensures horizon.None? && windows.Unused? && sentWindows.Unused? && basis.None?
    {
      totalDelivered, trail, deliveryRate, lastSpanUs, totalSent, sentTrail := 0, [], 0, 0, 0, [];
      acked, sent, clock, basis := [], [], 0, None;
      horizon, windows, sentHorizon, sentWindows := None, Unused, None, Unused;
    }

    /** Bytes per second handed to the wire since the front mark of the send trail. */
    function SendRate(now: nat): Option<u64>
      requires sentTrail != [] ==> sentTrail[0].total <= totalSent
      reads this
    {
      if sentTrail == [] || now <= sentTrail[0].at then None
      else Some(Rate(totalSent - sentTrail[0].total, now - sentTrail[0].at))
    }

    /** The sends since that mark, while they carry at least one byte per second. */
    ghost function Limits(now: nat): Option<Flow>
      requires sentTrail != [] ==> sentTrail[0].total <= totalSent
      reads this
    {
      if sentTrail == [] || now <= sentTrail[0].at then None
      else
        var f := Flow(totalSent - sentTrail[0].total, now - sentTrail[0].at);
        if Carries(f, 1) then Some(f) else None
    }

    method OnSent(bytes: u64, now: nat, window: nat)
      requires Valid() && clock <= now
      modifies this`totalSent, this`sentTrail, this`sent, this`clock, this`sentHorizon, this`sentWindows
      ensures Valid() && sent == old(sent) + [Report(now, bytes)] && clock == now
      ensures sentWindows == old(sentWindows).With(window)
      ensures sentTrail == Trimmed(old(sentTrail) + [Mark(now, totalSent)], now, window)
    {
      hide Tracks, Capped, Estimated, InTimeOrder, Trimmed, Reaches, Latest;
      ghost var x := Report(now, bytes);
      ReachesLater(trail, acked, clock, horizon, windows, now);
      CappedAppend(sent, x);
      EstimatedSentAppend(deliveryRate, acked, sent, basis, sentWindows, x, window);
      ReachStep(sentTrail, sent, x, clock, sentHorizon, sentWindows, window);
      InOrderLater(acked, clock, now);
      totalSent := SatAdd(totalSent, bytes);
      sentTrail := sentTrail + [Mark(now, totalSent)];
      ghost var full := sentTrail;
      while |sentTrail| > 2 && now - sentTrail[1].at >= window
        invariant Trimmed(full, now, window) == Trimmed(sentTrail, now, window)
        modifies this`sentTrail
      {
        TrimStep(sentTrail, now, window);
        sentTrail := sentTrail[1..];
      }
      TrimStep(sentTrail, now, window);
      sent, clock := sent + [x], now;
      sentHorizon, sentWindows := Some(Latest(sentHorizon, now - window)), sentWindows.With(window);
    }

    method OnAck(bytes: u64, now: nat, window: nat)
      requires Valid() && clock <= now
      modifies this`totalDelivered, this`trail, this`deliveryRate, this`lastSpanUs
      modifies this`acked, this`clock, this`horizon, this`windows, this`basis
      ensures Valid() && acked == old(acked) + [Report(now, bytes)] && clock == now
      ensures horizon == Some(Latest(old(horizon), now - window)) && windows == old(windows).With(window)
      ensures trail == Trimmed(old(trail) + [Mark(now, totalDelivered)], now, window) && trail[0].at <= now
      ensures old(horizon.None? || horizon.value <= now - window || |trail| == |acked|) ==>
        now - trail[0].at >= Min(window, now - acked[0].at)
      ensures windows == Always(window) ==> now - trail[0].at >= Min(window, now - acked[0].at)
      ensures trail[0].total <= totalDelivered && (sentTrail != [] ==> sentTrail[0].total <= totalSent)
      ensures Measures(now - trail[0].at, window) ==>
        && Greatest(deliveryRate, Flow(totalDelivered - trail[0].total, now - trail[0].at), Limits(now))
        && deliveryRate == Clamp(Rate(totalDelivered - trail[0].total, now - trail[0].at), SendRate(now))
        && lastSpanUs == (now - trail[0].at) / 1000
        && basis.Some? && basis.value.window == window && basis.value.upto == |acked| - 1
      ensures !Measures(now - trail[0].at, window) ==>
        deliveryRate == old(deliveryRate) && lastSpanUs == old(lastSpanUs) && basis == old(basis)
    {
      hide Tracks, Capped, Estimated, InTimeOrder, Rate, Trimmed, Clamp, Reaches, Latest, Windows.With, Min, Greatest;
      MarkAcked(bytes, now, window);
      FrontIsOld(trail, acked);
      if sent != [] { FrontIsOld(sentTrail, sent); } else { assert sentTrail == [] by { NothingTracked(sentTrail, sent); } }
      var span := now - trail[0].at;
      if span > 0 && 2 * span >= window {
        var measured := Rate(totalDelivered - trail[0].total, span);
        deliveryRate := Clamp(measured, SendRate(now));
        lastSpanUs := span / 1000;
        Settle(now, window);
      }
    }

    /** Record what the estimate just computed was measured from. */
    ghost method Settle(now: nat, window: nat)
      requires Tracks(trail, acked) && acked != [] && acked[|acked| - 1].at == now && Tracks(sentTrail, sent)
      requires clock <= now
      requires totalDelivered == Capped(acked) && totalSent == Capped(sent)
      requires trail != [] && trail[0].total <= totalDelivered && (sentTrail != [] ==> sentTrail[0].total <= totalSent)
      requires trail[0].at <= now && Measures(now - trail[0].at, window)
      requires Reaches(sentTrail, sent, clock, sentHorizon, sentWindows)
      requires deliveryRate == Clamp(Rate(totalDelivered - trail[0].total, now - trail[0].at), SendRate(now))
      modifies this`basis
      ensures Estimated(deliveryRate, acked, sent, basis, sentWindows)
      ensures Greatest(deliveryRate, Flow(totalDelivered - trail[0].total, now - trail[0].at), Limits(now))
      ensures basis.Some? && basis.value.window == window && basis.value.upto == |acked| - 1
    {
      hide Tracks, Capped, Estimated, Rate, Clamp, Reaches, Greatest;
      var limits := Limits(now);
      ClampIsGreatest(Flow(totalDelivered - trail[0].total, now - trail[0].at),
                      if sentTrail == [] || now <= sentTrail[0].at then None
                      else Some(Flow(totalSent - sentTrail[0].total, now - sentTrail[0].at)));
      EstimateIs(deliveryRate, trail, acked, sentTrail, sent, now, window, limits, clock, sentHorizon, sentWindows);
      basis := Some(Basis(|acked| - |trail|, |acked| - 1, window,
                          if limits.Some? then Some(|sent| - |sentTrail|) else None, |sent|));
    }

    method MarkAcked(bytes: u64, now: nat, window: nat)
      requires Valid() && clock <= now
      modifies this`totalDelivered, this`trail, this`acked, this`clock, this`horizon, this`windows
      ensures Valid() && acked == old(acked) + [Report(now, bytes)] && clock == now
      ensures horizon == Some(Latest(old(horizon), now - window)) && windows == old(windows).With(window)
      ensures trail != [] && trail[0].at <= now && basis == old(basis)
      ensures trail == Trimmed(old(trail) + [Mark(now, totalDelivered)], now, window)
      ensures old(horizon.None? || horizon.value <= now - window || |trail| == |acked|) ==>
        now - trail[0].at >= Min(window, now - acked[0].at)
      ensures windows == Always(window) ==> now - trail[0].at >= Min(window, now - acked[0].at)
    {
      hide Capped, Estimated, Tracks, InTimeOrder, Trimmed, Reaches, Latest, Windows.With, Min;
      ghost var x := Report(now, bytes);
      EstimatedAckAppend(deliveryRate, acked, sent, basis, sentWindows, x);
      ReachesLater(sentTrail, sent, clock, sentHorizon, sentWindows, now);
      CappedAppend(acked, x);
      ReachStep(trail, acked, x, clock, horizon, windows, window);
      totalDelivered := SatAdd(totalDelivered, bytes);
      trail := trail + [Mark(now, totalDelivered)];
      TrimTrail(now, window);
      acked, clock := acked + [x], now;
      horizon, windows := Some(Latest(horizon, now - window)), windows.With(window);
      InOrderLater(sent, old(clock), now);
    }

    method TrimTrail(now: nat, window: nat)
      modifies this`trail
      ensures trail == Trimmed(old(trail), now, window)
    {
      hide Trimmed;
      while |trail| > 2 && now - trail[1].at >= window
        invariant Trimmed(old(trail), now, window) == Trimmed(trail, now, window)
        modifies this`trail
      {
        TrimStep(trail, now, window);
        trail := trail[1..];
      }
      TrimStep(trail, now, window);
    }

    /** If the path never passes more than rate·s + burst in s, neither does the estimate claim much more. */
    lemma EstimateBounded(rate: nat, burst: nat)
      requires Valid() && Envelope(acked, rate, burst)
      ensures basis.None? ==> deliveryRate == 0
      ensures basis.Some? && basis.value.window > 0 ==> deliveryRate <= rate + 2 * burst * NS / basis.value.window
    {
      if basis.Some? { EnvelopeBounds(deliveryRate, acked, sent, basis.value, rate, burst); }
    }

    /** If the path never passes less than rate·s - burst in s and no less is sent, over one fixed window and from
        half a window before, neither does a measured estimate claim much less. */
    lemma EstimateKeepsUp(rate: nat, burst: nat)
      requires Valid() && basis.Some? && basis.value.window > 0 && rate <= U64_MAX
      requires KeepsUp(acked, rate, burst) && SumTo(acked, |acked|) <= U64_MAX && SumTo(sent, |sent|) <= U64_MAX
      requires Measured(deliveryRate, acked, sent, basis.value)
      requires KeepsSending(sent, basis.value.sentCount, acked[basis.value.upto].at, rate, burst)
      requires sent != [] ==>
        sentWindows == Always(basis.value.window) && 2 * (acked[basis.value.upto].at - sent[0].at) >= basis.value.window
      ensures deliveryRate + 1 + 2 * burst * NS / basis.value.window >= rate
    {
      hide SumTo, Greatest, Tracks, Reaches, InTimeOrder, Capped;
      FloorBounds(deliveryRate, acked, sent, basis.value, rate, burst);
    }
  }

  lemma NothingTracked(trail: seq<Mark>, fed: seq<Report>)
    requires Tracks(trail, fed) && fed == []
    ensures trail == []
  {}
}
