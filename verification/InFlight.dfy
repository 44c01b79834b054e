/** The bytes in flight as the periodic scan recomputes them from the streams' counters, and what
    they are worth: the chunks sent, unacked and not queued. */
module InFlight {
  import opened Words
  import opened StreamSpec
  import opened ProtocolSafety

  /** The sent chunks that are neither acked nor queued. */
  ghost function Outstanding(st: Stream): set<nat>
    requires st.Valid()
  {
    set c: nat | c < st.next && !st.acked[c] && c !in st.queue
  }

  function SumSent(streams: seq<Stream>): nat {
    if streams == [] then 0 else SumSent(streams[..|streams| - 1]) + streams[|streams| - 1].next
  }

  function SumQueued(streams: seq<Stream>): nat {
    if streams == [] then 0 else SumQueued(streams[..|streams| - 1]) + |streams[|streams| - 1].queue|
  }

  ghost function SumOutstanding(streams: seq<Stream>): nat
    requires forall i :: 0 <= i < |streams| ==> streams[i].Valid()
  {
    if streams == [] then 0 else SumOutstanding(streams[..|streams| - 1]) + |Outstanding(streams[|streams| - 1])|
  }

  /** Every acked chunk was sent, and every queued chunk was sent and is unacked. */
  ghost predicate Tidy(st: Stream)
    requires st.Valid()
  {
    && (forall c :: 0 <= c < st.Count() && st.acked[c] ==> c < st.next)
    && (forall i :: 0 <= i < |st.queue| ==> st.queue[i] < st.next && !st.acked[st.queue[i]])
  }

  ghost function AckedSet(acked: seq<bool>): set<nat> {
    set c: nat | c < |acked| && acked[c]
  }

  lemma {:induction false} CountTrueIsCard(acked: seq<bool>)
    ensures CountTrue(acked) == |AckedSet(acked)|
  {
    if acked != [] {
      var n := |acked| - 1;
      CountTrueIsCard(acked[..n]);
      assert AckedSet(acked) == AckedSet(acked[..n]) + if acked[n] then {n} else {};
    } else {
      assert AckedSet(acked) == {};
    }
  }

  lemma OutstandingAfterScan(st: Stream, now: nat, timeout: nat, clock: Clock)
    requires st.Valid() && st.StampedBy(now)
    ensures var (t, lost) := Scan(st, now, timeout, clock);
            var before := UpTo(st.next) - AckedSet(st.acked) - Members(st.queue);
            Members(lost) <= before && Outstanding(t) == before - Members(lost)
  {}

  /** One stream's share: sent minus acked minus queued minus newly lost is at most what is
      left outstanding, and exactly that when the stream is tidy. */
  lemma OutstandingShare(st: Stream, now: nat, timeout: nat, clock: Clock)
    requires st.Valid() && st.StampedBy(now)
    ensures var (t, lost) := Scan(st, now, timeout, clock);
      && st.next - CountTrue(st.acked) - |st.queue| - |lost| <= |Outstanding(t)|
      && (Tidy(st) ==> st.next - CountTrue(st.acked) - |st.queue| - |lost| == |Outstanding(t)|)
  {
    var (t, lost) := Scan(st, now, timeout, clock);
    OutstandingAfterScan(st, now, timeout, clock);
    CountTrueIsCard(st.acked);
    DistinctCard(st.queue);
    DistinctCard(lost);
    assert Tidy(st) ==> AckedSet(st.acked) <= UpTo(st.next) && Members(st.queue) <= UpTo(st.next) - AckedSet(st.acked);
    ShareCard(UpTo(st.next), AckedSet(st.acked), Members(st.queue), Members(lost));
  }

  /** Counting what is left of a set after taking three others out, the last from what remains. */
  lemma ShareCard(sent: set<nat>, acked: set<nat>, queued: set<nat>, lost: set<nat>)
    requires lost <= sent - acked - queued
    ensures |sent| - |acked| - |queued| - |lost| <= |sent - acked - queued - lost|
    ensures acked <= sent && queued <= sent - acked ==>
      |sent| - |acked| - |queued| - |lost| == |sent - acked - queued - lost|
  {
    MinusCard(sent, acked);
    MinusCard(sent - acked, queued);
    MinusCard(sent - acked - queued, lost);
  }

  /** All streams scanned at once. */
  ghost function ScanAll(streams: seq<Stream>, now: nat, timeout: nat, clock: Clock): (r: seq<Stream>)
    requires forall i :: 0 <= i < |streams| ==> streams[i].Valid() && streams[i].StampedBy(now)
    ensures |r| == |streams| && forall i :: 0 <= i < |r| ==> r[i].Valid()
  {
    seq(|streams|, i requires 0 <= i < |streams| => Scan(streams[i], now, timeout, clock).0)
  }

  /** The timed-out chunks of all streams by global index, stream after stream. */
  ghost function LostAll(streams: seq<Stream>, now: nat, timeout: nat, clock: Clock): seq<nat>
    requires forall i :: 0 <= i < |streams| ==> streams[i].Valid() && streams[i].StampedBy(now)
  {
    if streams == [] then []
    else
      var n := |streams| - 1;
      LostAll(streams[..n], now, timeout, clock) + Globals(streams[n].base, Scan(streams[n], now, timeout, clock).1)
  }

  lemma {:induction false} OutstandingTotal(streams: seq<Stream>, now: nat, timeout: nat, clock: Clock)
    requires forall i :: 0 <= i < |streams| ==> streams[i].Valid() && streams[i].StampedBy(now)
    ensures var left := SumSent(streams) - SumAcked(streams) - SumQueued(streams) - |LostAll(streams, now, timeout, clock)|;
            var after := SumOutstanding(ScanAll(streams, now, timeout, clock));
            && left <= after
            && ((forall i :: 0 <= i < |streams| ==> Tidy(streams[i])) ==> left == after)
    decreases |streams|
  {
    hide Scan, CountTrue, Tidy, Stream.Valid, Outstanding;
    if streams != [] {
      var n := |streams| - 1;
      OutstandingTotal(streams[..n], now, timeout, clock);
      OutstandingShare(streams[n], now, timeout, clock);
      assert ScanAll(streams, now, timeout, clock)[..n] == ScanAll(streams[..n], now, timeout, clock);
      assert forall i :: 0 <= i < n ==> streams[..n][i] == streams[i];
    }
  }

  /** The recount: sent less acked less queued less newly lost, each subtraction stopping at zero. */
  ghost function Recount(streams: seq<Stream>, wire: nat, now: nat, timeout: nat, clock: Clock): nat
    requires forall i :: 0 <= i < |streams| ==> streams[i].Valid() && streams[i].StampedBy(now)
  {
    wire * SatSub(SatSub(SatSub(SumSent(streams), SumAcked(streams)), SumQueued(streams)),
                  |LostAll(streams, now, timeout, clock)|)
  }

  /** It never exceeds the bytes outstanding after the scan, and is exactly those for tidy streams. */
  lemma RecountIsOutstanding(streams: seq<Stream>, wire: nat, now: nat, timeout: nat, clock: Clock)
    requires forall i :: 0 <= i < |streams| ==> streams[i].Valid() && streams[i].StampedBy(now)
    ensures var after := SumOutstanding(ScanAll(streams, now, timeout, clock));
      && Recount(streams, wire, now, timeout, clock) <= wire * after
      && ((forall i :: 0 <= i < |streams| ==> Tidy(streams[i])) ==> Recount(streams, wire, now, timeout, clock) == wire * after)
  {
    hide SumSent, SumAcked, SumQueued, SumOutstanding, LostAll, ScanAll, Tidy, Stream.Valid, Stream.StampedBy;
    OutstandingTotal(streams, now, timeout, clock);
    MulMono(SatSub(SatSub(SatSub(SumSent(streams), SumAcked(streams)), SumQueued(streams)),
                   |LostAll(streams, now, timeout, clock)|),
            SumOutstanding(ScanAll(streams, now, timeout, clock)), wire);
  }

  /** When every sent chunk of every stream is acked or queued after the scan, nothing is in flight. */
  lemma RecountZero(streams: seq<Stream>, wire: nat, now: nat, timeout: nat, clock: Clock)
    requires forall i :: 0 <= i < |streams| ==> streams[i].Valid() && streams[i].StampedBy(now)
    requires forall i :: 0 <= i < |streams| ==> Outstanding(ScanAll(streams, now, timeout, clock)[i]) == {}
    ensures Recount(streams, wire, now, timeout, clock) == 0
  {
    hide Recount, ScanAll, Outstanding, Stream.Valid, Stream.StampedBy;
    RecountIsOutstanding(streams, wire, now, timeout, clock);
    NothingOutstanding(ScanAll(streams, now, timeout, clock));
    assert wire * 0 == 0;
  }

  lemma {:induction false} NothingOutstanding(streams: seq<Stream>)
    requires forall i :: 0 <= i < |streams| ==> streams[i].Valid() && Outstanding(streams[i]) == {}
    ensures SumOutstanding(streams) == 0
    decreases |streams|
  {
    hide Outstanding, Stream.Valid;
    if streams != [] {
      var n := |streams| - 1;
      forall i | 0 <= i < n ensures streams[..n][i] == streams[i] {}
      NothingOutstanding(streams[..n]);
    }
  }
}
