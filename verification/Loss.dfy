/** The loss tracker: one window entry per sent packet, losses marked from the oldest, duplicate
    reports of one packet index suppressed until it is sent again. */
module Loss {
  import opened Words

  datatype Entry = Entry(at: nat, lost: bool)
  datatype Report = Report(at: nat, id: u64)

  ghost predicate InTimeOrder(w: seq<Entry>, clock: nat) {
    && (forall i, j :: 0 <= i < j < |w| ==> w[i].at <= w[j].at)
    && (forall i :: 0 <= i < |w| ==> w[i].at <= clock)
  }

  ghost predicate LostPrefix(w: seq<Entry>, n: nat) {
    n <= |w| && forall i :: 0 <= i < |w| ==> (w[i].lost <==> i < n)
  }

  /** Length of the leading run of entries older than the cutoff. */
  function Stale(w: seq<Entry>, cutoff: nat): nat {
    if w == [] || w[0].at >= cutoff then 0 else 1 + Stale(w[1..], cutoff)
  }

  lemma {:induction false} StaleIs(w: seq<Entry>, cutoff: nat, clock: nat)
    requires InTimeOrder(w, clock)
    ensures Stale(w, cutoff) <= |w|
    ensures forall i :: 0 <= i < |w| ==> (w[i].at < cutoff <==> i < Stale(w, cutoff))
    decreases |w|
  {
    if w != [] && w[0].at < cutoff {
      StaleIs(w[1..], cutoff, clock);
      forall i | 0 <= i < |w| ensures w[i].at < cutoff <==> i < Stale(w, cutoff) {
        if i > 0 { assert w[i] == w[1..][i - 1]; }
      }
    }
  }

  // ---------- the scanned loss rate ----------

  /** Entries at or after the cutoff, and how many of those are lost: the scan, entry by entry. */
  function Live(w: seq<Entry>, cutoff: nat): nat {
    if w == [] then 0
    else Live(w[..|w| - 1], cutoff) + if w[|w| - 1].at >= cutoff then 1 else 0
  }

  function LiveLost(w: seq<Entry>, cutoff: nat): nat {
    if w == [] then 0
    else LiveLost(w[..|w| - 1], cutoff) + if w[|w| - 1].at >= cutoff && w[|w| - 1].lost then 1 else 0
  }

  /** Both counts of the scan in closed form. */
  lemma {:induction false} ScanCounts(w: seq<Entry>, cutoff: nat, n: nat, stale: nat)
    requires stale <= |w| && n <= |w|
    requires forall i :: 0 <= i < |w| ==> (w[i].at < cutoff <==> i < stale)
    requires forall i :: 0 <= i < |w| ==> (w[i].lost <==> i < n)
    ensures Live(w, cutoff) == |w| - stale
    ensures LiveLost(w, cutoff) == SatSub(n, stale)
    decreases |w|
  {
    if w != [] {
      var m := |w| - 1;
      forall i | 0 <= i < m ensures w[..m][i] == w[i] {}
      ScanCounts(w[..m], cutoff, Min(n, m), Min(stale, m));
    }
  }

  /** The entries at most `span` old, and the lost ones among them. */
  ghost function Recent(w: seq<Entry>, now: nat, span: nat): set<nat> { set i: nat | i < |w| && w[i].at + span >= now }

  ghost function RecentLost(w: seq<Entry>, now: nat, span: nat): set<nat> {
    set i: nat | i < |w| && w[i].at + span >= now && w[i].lost
  }

  lemma {:induction false} LiveIsCard(w: seq<Entry>, now: nat, span: nat)
    ensures Live(w, Cutoff(now, span)) == |Recent(w, now, span)|
    decreases |w|
  {
    hide Cutoff;
    if w == [] {
      assert Recent(w, now, span) == {};
    } else {
      var n := |w| - 1;
      LiveIsCard(w[..n], now, span);
      CutoffIs(now, span, w[n].at);
      assert Recent(w, now, span) == Recent(w[..n], now, span) + if w[n].at + span >= now then {n} else {};
    }
  }

  lemma {:induction false} LostIsCard(w: seq<Entry>, now: nat, span: nat)
    ensures LiveLost(w, Cutoff(now, span)) == |RecentLost(w, now, span)|
    decreases |w|
  {
    hide Cutoff;
    if w == [] {
      assert RecentLost(w, now, span) == {};
    } else {
      var n := |w| - 1;
      LostIsCard(w[..n], now, span);
      CutoffIs(now, span, w[n].at);
      assert RecentLost(w, now, span) ==
             RecentLost(w[..n], now, span) + if w[n].at + span >= now && w[n].lost then {n} else {};
    }
  }

  function Ratio(part: nat, whole: nat): real {
    if whole == 0 then 0.0 else part as real / whole as real
  }

  lemma RatioTimes(part: nat, whole: nat)
    requires part <= whole
    ensures 0.0 <= Ratio(part, whole) <= 1.0
    ensures Ratio(part, whole) * whole as real == part as real && (whole == 0 ==> Ratio(part, whole) == 0.0)
  {}

  // ---------- expiry of remembered ids ----------

  /** Pop reports older than the cutoff; a popped report forgets its id only if it is the id's latest stamp. */
  function ForgetIds(fifo: seq<Report>, ids: map<u64, nat>, cutoff: nat): map<u64, nat>
    decreases |fifo|
  {
    if fifo == [] || fifo[0].at >= cutoff then ids
    else
      var x := fifo[0];
      ForgetIds(fifo[1..], if x.id in ids && ids[x.id] == x.at then ids - {x.id} else ids, cutoff)
  }

  function DropOld(fifo: seq<Report>, cutoff: nat): seq<Report> {
    if fifo == [] || fifo[0].at >= cutoff then fifo else DropOld(fifo[1..], cutoff)
  }

  ghost predicate FifoInOrder(fifo: seq<Report>, clock: nat) {
    && (forall i, j :: 0 <= i < j < |fifo| ==> fifo[i].at <= fifo[j].at)
    && (forall i :: 0 <= i < |fifo| ==> fifo[i].at <= clock)
  }

  lemma {:induction false} DropOldIs(fifo: seq<Report>, cutoff: nat, clock: nat)
    requires FifoInOrder(fifo, clock)
    ensures FifoInOrder(DropOld(fifo, cutoff), clock)
    ensures forall x :: x in DropOld(fifo, cutoff) <==> x in fifo && x.at >= cutoff
    decreases |fifo|
  {
    if fifo != [] {
      if fifo[0].at < cutoff {
        DropOldIs(fifo[1..], cutoff, clock);
        assert fifo == [fifo[0]] + fifo[1..];
      } else {
        forall x | x in fifo ensures x.at >= cutoff { var i :| 0 <= i < |fifo| && fifo[i] == x; }
      }
    }
  }

  /** An id leaves exactly when its latest stamp is older than the cutoff and stands in the queue. */
  lemma {:induction false} IdForgottenIff(fifo: seq<Report>, ids: map<u64, nat>, cutoff: nat, clock: nat, id: u64)
    requires FifoInOrder(fifo, clock)
    ensures var left := ForgetIds(fifo, ids, cutoff);
      && (id in left <==> id in ids && !(ids[id] < cutoff && Report(ids[id], id) in fifo))
      && (id in left ==> left[id] == ids[id])
    decreases |fifo|
  {
    if fifo != [] {
      var x := fifo[0];
      if x.at < cutoff {
        var next := if x.id in ids && ids[x.id] == x.at then ids - {x.id} else ids;
        IdForgottenIff(fifo[1..], next, cutoff, clock, id);
        assert fifo == [x] + fifo[1..];
      } else {
        forall y | y in fifo ensures y.at >= cutoff { var i :| 0 <= i < |fifo| && fifo[i] == y; }
      }
    }
  }

  /** An id's latest stamp stands in the queue unless it was reported again, later, while remembered;
      no queued report of an id is newer than its stamp. */
  ghost predicate IdsTracked(ids: map<u64, nat>, fifo: seq<Report>, restamped: set<u64>) {
    && restamped <= ids.Keys
    && (forall id :: id in ids ==> (id in restamped <==> Report(ids[id], id) !in fifo))
    && (forall x :: x in fifo && x.id in ids ==> x.at <= ids[x.id])
  }

  ghost predicate OnlyRestampedOverstay(ids: map<u64, nat>, cutoff: nat, restamped: set<u64>) {
    forall id :: id in ids && ids[id] < cutoff ==> id in restamped
  }

  lemma ForgetKeepsTracked(fifo: seq<Report>, ids: map<u64, nat>, cutoff: nat, clock: nat, restamped: set<u64>)
    requires FifoInOrder(fifo, clock) && IdsTracked(ids, fifo, restamped)
    ensures IdsTracked(ForgetIds(fifo, ids, cutoff), DropOld(fifo, cutoff), restamped)
    ensures OnlyRestampedOverstay(ForgetIds(fifo, ids, cutoff), cutoff, restamped)
  {
    var left := ForgetIds(fifo, ids, cutoff);
    DropOldIs(fifo, cutoff, clock);
    forall id: u64
      ensures id in left <==> id in ids && !(ids[id] < cutoff && Report(ids[id], id) in fifo)
      ensures id in left ==> left[id] == ids[id]
    {
      IdForgottenIff(fifo, ids, cutoff, clock, id);
    }
  }

  lemma SendKeepsTracked(ids: map<u64, nat>, fifo: seq<Report>, restamped: set<u64>, id: u64)
    requires IdsTracked(ids, fifo, restamped)
    ensures IdsTracked(ids - {id}, fifo, restamped - {id})
  {}

  lemma LoseKeepsTracked(ids: map<u64, nat>, fifo: seq<Report>, restamped: set<u64>, id: u64, now: nat)
    requires IdsTracked(ids, fifo, restamped) && FifoInOrder(fifo, now)
    requires forall k :: k in ids ==> ids[k] <= now
    ensures id !in ids ==> IdsTracked(ids[id := now], fifo + [Report(now, id)], restamped)
    ensures id in ids ==> IdsTracked(ids[id := now], fifo, if ids[id] < now then restamped + {id} else restamped)
  {
    var more := fifo + [Report(now, id)];
    assert forall x :: x in more <==> x in fifo || x == Report(now, id);
    forall x | x in fifo ensures x.at <= now { var i :| 0 <= i < |fifo| && fifo[i] == x; }
  }

  // ---------- the tracker ----------

  /** The same entries but for their marks. */
  ghost predicate SameTimes(a: seq<Entry>, b: seq<Entry>) { |a| == |b| && forall i :: 0 <= i < |a| ==> a[i].at == b[i].at }

  lemma SameTimesTwice(a: seq<Entry>, b: seq<Entry>, c: seq<Entry>)
    requires SameTimes(a, b) && SameTimes(b, c)
    ensures SameTimes(a, c)
  {}

  /** The indices in a report that are not already remembered. */
  function NewIds(lost: seq<u64>, ids: map<u64, nat>): set<u64> { set p | p in lost && p !in ids }

  /** The remembered ids after a report, every reported index stamped now. */
  function Stamped(ids: map<u64, nat>, lost: seq<u64>, now: nat): map<u64, nat> {
    ids + map p | p in lost :: now
  }

  lemma StampedStep(ids: map<u64, nat>, lost: seq<u64>, i: nat, now: nat)
    requires i < |lost|
    ensures Stamped(ids, lost[..i + 1], now) == Stamped(ids, lost[..i], now)[lost[i] := now]
    ensures lost[i] in Stamped(ids, lost[..i], now) <==> lost[i] in ids || lost[i] in lost[..i]
  {
    assert lost[..i + 1] == lost[..i] + [lost[i]];
  }

  /** The reports queued for them: one per such index, in the order first named. */
  function Queued(lost: seq<u64>, ids: map<u64, nat>, now: nat): seq<Report> {
    if lost == [] then []
    else
      var n := |lost| - 1;
      Queued(lost[..n], ids, now) + if lost[n] in ids || lost[n] in lost[..n] then [] else [Report(now, lost[n])]
  }

  lemma QueuedStep(front: seq<Report>, lost: seq<u64>, i: nat, ids: map<u64, nat>, now: nat)
    requires i < |lost|
    ensures front + Queued(lost[..i + 1], ids, now) ==
      if lost[i] in ids || lost[i] in lost[..i] then front + Queued(lost[..i], ids, now)
      else front + Queued(lost[..i], ids, now) + [Report(now, lost[i])]
  {
    assert lost[..i + 1][..i] == lost[..i];
    var q := Queued(lost[..i], ids, now);
    assert q + [] == q && front + (q + [Report(now, lost[i])]) == front + q + [Report(now, lost[i])];
  }

  lemma NewIdsStep(lost: seq<u64>, i: nat, ids: map<u64, nat>)
    requires i < |lost|
    ensures |NewIds(lost[..i + 1], ids)| ==
      |NewIds(lost[..i], ids)| + if lost[i] in ids || lost[i] in lost[..i] then 0 else 1
  {
    assert lost[..i + 1] == lost[..i] + [lost[i]];
    assert NewIds(lost[..i + 1], ids) == NewIds(lost[..i], ids) + if lost[i] in ids then {} else {lost[i]};
    assert lost[i] in lost[..i] ==> NewIds(lost[..i + 1], ids) == NewIds(lost[..i], ids);
  }

  class LossTracker {
    var totalSent: nat
    var totalLost: nat
    var window: seq<Entry>
    var lostPrefix: nat
    var lostIds: map<u64, nat>
    var lostFifo: seq<Report>
    const windowDuration: nat

    /** Time of the last call, and the remembered ids whose stamp was later renewed by a duplicate. */
    ghost var clock: nat
    ghost var restamped: set<u64>

    ghost predicate Valid()
      reads this
    {
      && InTimeOrder(window, clock) && LostPrefix(window, lostPrefix)
      && FifoInOrder(lostFifo, clock)
      && IdsTracked(lostIds, lostFifo, restamped)
      && (forall id :: id in lostIds ==> lostIds[id] <= clock)
      && |window| <= totalSent
    }

    constructor (duration: nat)
      ensures Valid() && window == [] && lostIds == map[] && lostFifo == []
      ensures totalSent == 0 && totalLost == 0 && clock == 0 && windowDuration == duration
    {
      totalSent, totalLost, window, lostPrefix, lostIds, lostFifo := 0, 0, [], 0, map[], [];
      windowDuration := duration;
      clock, restamped := 0, {};
    }

    method ExpireOld(now: nat)
      requires Valid() && clock <= now
      modifies this`window, this`lostPrefix, this`lostIds, this`lostFifo, this`clock
      ensures Valid() && clock == now
      ensures var cutoff := Cutoff(now, windowDuration);
        && Stale(old(window), cutoff) <= |old(window)|
        && window == old(window)[Stale(old(window), cutoff)..]
        && lostPrefix == SatSub(old(lostPrefix), Stale(old(window), cutoff))
        && lostIds == ForgetIds(old(lostFifo), old(lostIds), cutoff)
        && lostFifo == DropOld(old(lostFifo), cutoff)
        && OnlyRestampedOverstay(lostIds, cutoff, restamped)
    {
      hide InTimeOrder, LostPrefix, FifoInOrder, IdsTracked, OnlyRestampedOverstay, ForgetIds, DropOld, Stale;
      var cutoff := Cutoff(now, windowDuration);
      ghost var full, n := window, lostPrefix;
      StaleIs(window, cutoff, clock);
      DropKeepsWindow(full, Stale(full, cutoff), n, clock, now);
      DropOldIs(lostFifo, cutoff, clock);
      ForgetKeepsTracked(lostFifo, lostIds, cutoff, clock, restamped);
      FifoLater(DropOld(lostFifo, cutoff), clock, now);
      forall id | id in ForgetIds(lostFifo, lostIds, cutoff)
        ensures ForgetIds(lostFifo, lostIds, cutoff)[id] <= now
      {
        IdForgottenIff(lostFifo, lostIds, cutoff, clock, id);
      }
      DropStale(cutoff);
      ForgetOld(cutoff);
      clock := now;
    }

    method DropStale(cutoff: nat)
      modifies this`window, this`lostPrefix
      ensures Stale(old(window), cutoff) <= |old(window)|
      ensures window == old(window)[Stale(old(window), cutoff)..]
      ensures lostPrefix == SatSub(old(lostPrefix), Stale(old(window), cutoff))
    {
      ghost var full, n := window, lostPrefix;
      while |window| > 0 && window[0].at < cutoff
        invariant |window| <= |full| && window == full[|full| - |window|..]
        invariant |full| - |window| + Stale(window, cutoff) == Stale(full, cutoff)
        invariant lostPrefix == SatSub(n, |full| - |window|)
        modifies this`window, this`lostPrefix
      {
        if lostPrefix > 0 { lostPrefix := lostPrefix - 1; }
        window := window[1..];
      }
    }

    method ForgetOld(cutoff: nat)
      modifies this`lostIds, this`lostFifo
      ensures lostIds == ForgetIds(old(lostFifo), old(lostIds), cutoff)
      ensures lostFifo == DropOld(old(lostFifo), cutoff)
    {
      ghost var queue, ids := lostFifo, lostIds;
      while |lostFifo| > 0 && lostFifo[0].at < cutoff
        invariant ForgetIds(queue, ids, cutoff) == ForgetIds(lostFifo, lostIds, cutoff)
        invariant DropOld(queue, cutoff) == DropOld(lostFifo, cutoff)
        modifies this`lostFifo, this`lostIds
      {
        var x := lostFifo[0];
        lostFifo := lostFifo[1..];
        if x.id in lostIds && lostIds[x.id] == x.at { lostIds := lostIds - {x.id}; }
      }
    }

    /** A send adds one live entry and re-arms loss accounting for its index. */
    method OnPacketSent(packet: u64, now: nat)
      requires Valid() && clock <= now
      modifies this
      ensures Valid() && clock == now && totalSent == old(totalSent) + 1 && totalLost == old(totalLost)
      ensures var cutoff := Cutoff(now, windowDuration);
        && Stale(old(window), cutoff) <= |old(window)|
        && window == old(window)[Stale(old(window), cutoff)..] + [Entry(now, false)]
        && lostPrefix == SatSub(old(lostPrefix), Stale(old(window), cutoff))
        && lostIds == ForgetIds(old(lostFifo), old(lostIds), cutoff) - {packet}
        && lostFifo == DropOld(old(lostFifo), cutoff)
    {
      hide FifoInOrder, IdsTracked, OnlyRestampedOverstay, ForgetIds, DropOld, Stale;
      ExpireOld(now);
      totalSent := totalSent + 1;
      window := window + [Entry(now, false)];
      SendKeepsTracked(lostIds, lostFifo, restamped, packet);
      lostIds, restamped := lostIds - {packet}, restamped - {packet};
    }

    /** Each index not already remembered counts once and marks the oldest unmarked entry. */
    method OnPacketsLost(lost: seq<u64>, now: nat)
      requires Valid() && clock <= now
      modifies this
      ensures Valid() && clock == now && totalSent == old(totalSent)
      ensures var cutoff := Cutoff(now, windowDuration);
        var remembered := ForgetIds(old(lostFifo), old(lostIds), cutoff);
        var counted := |NewIds(lost, remembered)|;
        && totalLost == old(totalLost) + counted
        && Stale(old(window), cutoff) <= |old(window)|
        && |window| == |old(window)| - Stale(old(window), cutoff)
        && (forall i :: 0 <= i < |window| ==> window[i].at == old(window)[Stale(old(window), cutoff) + i].at)
        && lostPrefix == Min(|window|, SatSub(old(lostPrefix), Stale(old(window), cutoff)) + counted)
        && lostIds == Stamped(remembered, lost, now)
        && lostFifo == DropOld(old(lostFifo), cutoff) + Queued(lost, remembered, now)
    {
      hide ForgetIds, DropOld, Stale, OnlyRestampedOverstay, LossTracker.Valid, NewIds, Stamped, Queued, Cutoff;
      ExpireOld(now);
      MarkLost(lost, now);
    }

    method MarkLost(lost: seq<u64>, now: nat)
      requires Valid() && clock == now
      modifies this`window, this`lostPrefix, this`lostIds, this`lostFifo, this`totalLost, this`restamped
      ensures Valid()
      ensures var counted := |NewIds(lost, old(lostIds))|;
        && totalLost == old(totalLost) + counted
        && SameTimes(old(window), window)
        && lostPrefix == Min(|window|, old(lostPrefix) + counted)
        && lostIds == Stamped(old(lostIds), lost, now)
        && lostFifo == old(lostFifo) + Queued(lost, old(lostIds), now)
    {
      assert lostPrefix <= |window| && lostFifo + [] == lostFifo;
      assert SameTimes(window, window);
      hide LossTracker.Valid, NewIds, Stamped, Queued, SameTimes;
      var i := 0;
      NothingNew(lostIds, now);
      assert lost[..0] == [];
      while i < |lost|
        invariant i <= |lost| && Valid()
        invariant totalLost == old(totalLost) + |NewIds(lost[..i], old(lostIds))|
        invariant SameTimes(old(window), window) && |window| == |old(window)|
        invariant lostPrefix == Min(|window|, old(lostPrefix) + |NewIds(lost[..i], old(lostIds))|)
        invariant lostIds == Stamped(old(lostIds), lost[..i], now)
        invariant lostFifo == old(lostFifo) + Queued(lost[..i], old(lostIds), now)
        modifies this`window, this`lostPrefix, this`lostIds, this`lostFifo, this`totalLost, this`restamped
      {
        NewIdsStep(lost, i, old(lostIds));
        StampedStep(old(lostIds), lost, i, now);
        QueuedStep(old(lostFifo), lost, i, old(lostIds), now);
        ghost var before := window;
        MarkOne(lost[i], now);
        SameTimesTwice(old(window), before, window);
        i := i + 1;
      }
      assert lost[..i] == lost;
    }

    method MarkOne(id: u64, now: nat)
      requires Valid() && clock == now
      modifies this`window, this`lostPrefix, this`lostIds, this`lostFifo, this`totalLost, this`restamped
      ensures Valid() && lostIds == old(lostIds)[id := now]
      ensures SameTimes(old(window), window) && |window| == |old(window)|
      ensures old(id in lostIds) ==> unchanged(`window, `lostPrefix, `lostFifo, `totalLost)
      ensures old(id !in lostIds) ==>
        && totalLost == old(totalLost) + 1 && lostFifo == old(lostFifo) + [Report(now, id)]
        && lostPrefix == Min(|window|, old(lostPrefix) + 1)
    {
      hide IdsTracked, FifoInOrder, InTimeOrder, LostPrefix;
      LoseKeepsTracked(lostIds, lostFifo, restamped, id, now);
      FifoPush(lostFifo, now, id);
      MarkKeepsPrefix(window, lostPrefix, now);
      if id in lostIds {
        if lostIds[id] < now { restamped := restamped + {id}; }
        lostIds := lostIds[id := now];
      } else {
        lostIds := lostIds[id := now];
        lostFifo := lostFifo + [Report(now, id)];
        totalLost := totalLost + 1;
        if lostPrefix < |window| {
          window := window[lostPrefix := window[lostPrefix].(lost := true)];
          lostPrefix := lostPrefix + 1;
        }
      }
    }

    /** The scan over the window gives the closed form, and a rate. */
    method RecentLossRate(now: nat) returns (r: real)
      requires Valid()
      ensures var stale := Stale(window, Cutoff(now, windowDuration));
        && stale <= |window|
        && r == Ratio(SatSub(lostPrefix, stale), |window| - stale)
      ensures 0.0 <= r <= 1.0
      ensures r * |Recent(window, now, windowDuration)| as real == |RecentLost(window, now, windowDuration)| as real
      ensures Recent(window, now, windowDuration) == {} ==> r == 0.0
    {
      hide Stale, Cutoff, Recent, RecentLost, Ratio, Live, LiveLost, FifoInOrder, IdsTracked;
      var cutoff := Cutoff(now, windowDuration);
      RateFacts(window, now, windowDuration, lostPrefix, clock);
      var total, lost := CountRecent(cutoff);
      r := Ratio(lost, total);
    }

    method CountRecent(cutoff: nat) returns (total: nat, lost: nat)
      ensures total == Live(window, cutoff) && lost == LiveLost(window, cutoff)
    {
      total, lost := 0, 0;
      var i := 0;
      while i < |window|
        invariant i <= |window| && total == Live(window[..i], cutoff) && lost == LiveLost(window[..i], cutoff)
      {
        assert window[..i + 1][..i] == window[..i];
        if window[i].at >= cutoff {
          total := total + 1;
          if window[i].lost { lost := lost + 1; }
        }
        i := i + 1;
      }
      assert window[..i] == window;
    }
  }

  /** The scan's two counts, in closed form and as numbers of entries, and their ratio. */
  lemma RateFacts(w: seq<Entry>, now: nat, span: nat, n: nat, clock: nat)
    requires InTimeOrder(w, clock) && LostPrefix(w, n)
    ensures var cutoff := Cutoff(now, span); var stale := Stale(w, cutoff);
            var r := Ratio(LiveLost(w, cutoff), Live(w, cutoff));
      && stale <= |w| && Live(w, cutoff) == |w| - stale && LiveLost(w, cutoff) == SatSub(n, stale) && 0.0 <= r <= 1.0
      && r * |Recent(w, now, span)| as real == |RecentLost(w, now, span)| as real
      && (Recent(w, now, span) == {} ==> r == 0.0)
  {
    hide Ratio, Recent, RecentLost, InTimeOrder, LostPrefix, Stale, Live, LiveLost, Cutoff;
    var cutoff := Cutoff(now, span);
    ScanClosed(w, cutoff, n, clock);
    LiveIsCard(w, now, span);
    LostIsCard(w, now, span);
    RatioTimes(LiveLost(w, cutoff), Live(w, cutoff));
  }

  lemma ScanClosed(w: seq<Entry>, cutoff: nat, n: nat, clock: nat)
    requires InTimeOrder(w, clock) && LostPrefix(w, n)
    ensures var stale := Stale(w, cutoff);
      stale <= |w| && Live(w, cutoff) == |w| - stale && LiveLost(w, cutoff) == SatSub(n, stale) <= Live(w, cutoff)
  {
    StaleIs(w, cutoff, clock);
    ScanCounts(w, cutoff, n, Stale(w, cutoff));
  }

  lemma FifoPush(fifo: seq<Report>, now: nat, id: u64)
    requires FifoInOrder(fifo, now)
    ensures FifoInOrder(fifo + [Report(now, id)], now)
  {}

  lemma MarkKeepsPrefix(w: seq<Entry>, n: nat, clock: nat)
    requires InTimeOrder(w, clock) && LostPrefix(w, n)
    ensures n <= |w|
    ensures n < |w| ==> var marked := w[n := w[n].(lost := true)];
      InTimeOrder(marked, clock) && LostPrefix(marked, n + 1) && forall k :: 0 <= k < |w| ==> marked[k].at == w[k].at
  {}

  lemma NothingNew(ids: map<u64, nat>, now: nat)
    ensures NewIds([], ids) == {} && Stamped(ids, [], now) == ids && Queued([], ids, now) == []
  {}

  lemma FifoLater(fifo: seq<Report>, clock: nat, now: nat)
    requires FifoInOrder(fifo, clock) && clock <= now
    ensures FifoInOrder(fifo, now)
  {}

  lemma DropKeepsWindow(w: seq<Entry>, stale: nat, n: nat, clock: nat, now: nat)
    requires InTimeOrder(w, clock) && LostPrefix(w, n) && stale <= |w| && clock <= now
    ensures InTimeOrder(w[stale..], now) && LostPrefix(w[stale..], SatSub(n, stale))
  {
    forall i | 0 <= i < |w| - stale ensures w[stale..][i] == w[stale + i] {}
  }

  /** Packet 7 sent and lost at 0 and reported again at 5: however late the tracker expires, the id stays
      with a stamp older than the window. */
  method RenewedIdOverstays(now: nat) returns (t: LossTracker)
    requires now > 15
    ensures t.Valid() && t.clock == now && 7 in t.lostIds && t.lostIds[7] < Cutoff(now, t.windowDuration)
  {
    hide ForgetIds, DropOld, Stale, Stamped, Queued, NewIds, LossTracker.Valid, OnlyRestampedOverstay;
    RenewalFacts(now - 10);
    t := new LossTracker(10);
    t.OnPacketSent(7, 0);
    t.OnPacketsLost([7], 0);
    t.OnPacketsLost([7], 5);
    t.ExpireOld(now);
  }

  lemma RenewalFacts(cutoff: nat)
    requires cutoff > 5
    ensures var none: map<u64, nat>, first := map[], [Report(0, 7)];
      && ForgetIds([], none, 0) == none && none - {7} == none && DropOld([], 0) == []
      && Stamped(none, [7], 0) == map[7 := 0] && [] + Queued([7], none, 0) == first
      && ForgetIds(first, map[7 := 0], 0) == map[7 := 0] && DropOld(first, 0) == first
      && Stamped(map[7 := 0], [7], 5) == map[7 := 5] && first + Queued([7], map[7 := 0], 5) == first
      && ForgetIds(first, map[7 := 5], cutoff) == map[7 := 5]
  {
    assert [7][..0] == [] && [Report(0, 7)][1..] == [];
  }
}
