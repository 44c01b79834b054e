/** What one stream keeps while the sender recovers from a blackout. A limit divides the chunks:
    those below it can be reported by the daemon's next ACK as soon as they arrive, and those
    at or above it were sent after the blackout and have all arrived. */
module Recovery {
  import opened Words
  import opened StreamSpec
  import opened Receiver
  import opened InFlight

  /** How far past the contiguous prefix an ACK can report. */
  const REACH: nat := 8 * MAX_ACK_BITMAP_BYTES

  /** Every chunk that is sent or queued, and unacked, is within an ACK's reach of the first unacked one. */
  ghost predicate InReach(st: Stream) {
    forall c :: 0 <= c < st.Count() && !st.acked[c] && (c < st.next || c in st.queue) ==> c < Contig(st.acked) + REACH
  }

  // ---------- the invariant ----------

  ghost predicate FarIsHeld(st: Stream, held: seq<bool>, limit: nat) {
    && |held| == st.Count()
    && forall c :: limit <= c < st.Count() && !st.acked[c] && (c < st.next || c in st.queue) ==> c < st.next && held[c]
  }

  /** No unacked chunk below the limit is queued behind an unacked one above it, or still outstanding then. */
  ghost predicate NearFirst(st: Stream, limit: nat)
    requires st.Valid()
  {
    forall i :: 0 <= i < |st.queue| && st.queue[i] >= limit && !st.acked[st.queue[i]] ==> NoneNear(st, i, limit)
  }

  ghost predicate NoneNear(st: Stream, i: nat, limit: nat)
    requires st.Valid()
  {
    && (forall j :: i < j < |st.queue| ==> st.queue[j] >= limit || st.acked[st.queue[j]])
    && (forall c :: c in Outstanding(st) ==> c >= limit)
  }

  /** Outstanding chunks below the limit were sent before `since`, those above it after. */
  ghost predicate NearIsOlder(st: Stream, limit: nat, since: nat)
    requires st.Valid()
  {
    forall c :: c in Outstanding(st) ==> if c < limit then st.sentAt[c] <= since else st.sentAt[c] >= since
  }

  ghost predicate Recovering(st: Stream, held: seq<bool>, limit: nat, since: nat)
    requires st.Valid()
  {
    && limit <= Contig(st.acked) + REACH
    && (Contig(st.acked) >= limit ==> Contig(st.acked) >= st.next)
    && FarIsHeld(st, held, limit) && NearFirst(st, limit) && NearIsOlder(st, limit, since)
  }

  lemma RecoveringStarts(st: Stream, held: seq<bool>, now: nat)
    requires st.Valid() && st.StampedBy(now) && |held| == st.Count() && InReach(st)
    ensures Recovering(st, held, Contig(st.acked) + REACH, now)
  {}

  // ---------- a scan ----------

  lemma ScanOutstanding(st: Stream, now: nat, timeout: nat)
    requires st.Valid() && st.StampedBy(now)
    requires forall c :: c in Outstanding(st) ==> now - st.sentAt[c] < U32
    ensures var t := Scan(st, now, timeout, Wrapping).0;
      forall c :: c in Outstanding(t) <==> c in Outstanding(st) && now - st.sentAt[c] <= timeout
  {
    var (t, lost) := Scan(st, now, timeout, Wrapping);
    forall c ensures c in t.queue <==> c in st.queue || c in lost {}
    forall c | c in Outstanding(st) ensures c in lost <==> now - st.sentAt[c] > timeout {
      assert Age32(now, st.sentAt[c]) == now - st.sentAt[c];
    }
  }

  /** Queueing outstanding chunks in ascending order keeps the near ones first, provided that no near one
      is left outstanding when a far one is queued. */
  lemma AppendKeepsNearFirst(st: Stream, t: Stream, lost: seq<nat>, limit: nat)
    requires st.Valid() && t.Valid() && NearFirst(st, limit) && t.queue == st.queue + lost && t.acked == st.acked
    requires Outstanding(t) <= Outstanding(st) && forall i :: 0 <= i < |lost| ==> lost[i] in Outstanding(st)
    requires forall i, j :: 0 <= i < j < |lost| ==> lost[i] < lost[j]
    requires forall i, c :: 0 <= i < |lost| && lost[i] >= limit && c in Outstanding(t) ==> c >= limit
    ensures NearFirst(t, limit)
  {
    hide Outstanding;
    var n := |st.queue|;
    forall i | 0 <= i < |t.queue| && t.queue[i] >= limit && !t.acked[t.queue[i]] ensures NoneNear(t, i, limit) {
      if i < n { assert NoneNear(st, i, limit); }
    }
  }

  /** A chunk above the limit times out no earlier than those below it. */
  lemma ScanKeepsNearFirst(st: Stream, limit: nat, since: nat, now: nat, timeout: nat)
    requires st.Valid() && st.StampedBy(now) && NearFirst(st, limit) && NearIsOlder(st, limit, since)
    requires forall c :: c in Outstanding(st) ==> now - st.sentAt[c] < U32
    ensures NearFirst(Scan(st, now, timeout, Wrapping).0, limit)
  {
    var (t, lost) := Scan(st, now, timeout, Wrapping);
    ScanOutstanding(st, now, timeout);
    LostWasOutstanding(st, now, timeout);
    hide Stream.Valid, Outstanding, Scan, NearFirst;
    AppendKeepsNearFirst(st, t, lost, limit);
  }

  lemma LostWasOutstanding(st: Stream, now: nat, timeout: nat)
    requires st.Valid() && st.StampedBy(now)
    ensures var (t, lost) := Scan(st, now, timeout, Wrapping);
      && t.queue == st.queue + lost && t.acked == st.acked
      && (forall i :: 0 <= i < |lost| ==> lost[i] in Outstanding(st) && lost[i] !in Outstanding(t))
      && (forall i, j :: 0 <= i < j < |lost| ==> lost[i] < lost[j])
  {
    var (t, lost) := Scan(st, now, timeout, Wrapping);
    forall i | 0 <= i < |lost| ensures lost[i] in Outstanding(st) && lost[i] !in Outstanding(t) {
      assert lost[i] in lost && t.queue[|st.queue| + i] == lost[i];
    }
  }

  lemma ScanRecovers(st: Stream, held: seq<bool>, limit: nat, since: nat, now: nat, timeout: nat)
    requires st.Valid() && st.StampedBy(now) && Recovering(st, held, limit, since)
    requires forall c :: c in Outstanding(st) ==> now - st.sentAt[c] < U32
    ensures Recovering(Scan(st, now, timeout, Wrapping).0, held, limit, since)
  {
    var (t, lost) := Scan(st, now, timeout, Wrapping);
    ScanOutstanding(st, now, timeout);
    ScanKeepsNearFirst(st, limit, since, now, timeout);
    assert forall c :: c in t.queue <==> c in st.queue || c in lost;
  }

  // ---------- a send, its arrival and the ACK ----------

  /** What was dropped from the queue and passed over is acked, but for the chunk taken last. */
  ghost predicate Splits(st: Stream, t: Stream, picked: Option<nat>) {
    && |t.queue| <= |st.queue| && st.next <= t.next <= st.Count() && t.queue == st.queue[|st.queue| - |t.queue|..]
    && (forall i :: 0 <= i < |st.queue| - |t.queue| ==>
          st.queue[i] < st.Count()
          && (st.acked[st.queue[i]] || (picked == Some(st.queue[i]) && i == |st.queue| - |t.queue| - 1)))
    && (forall c :: st.next <= c < t.next ==> st.acked[c] || (picked == Some(c) && c == t.next - 1))
    && (picked.None? ==> t.queue == [] && t.next == st.Count())
    && (picked.Some? && t.next > st.next ==> picked.value == t.next - 1 && t.queue == [])
    && (picked.Some? && t.next == st.next ==>
          |t.queue| < |st.queue| && picked.value == st.queue[|st.queue| - |t.queue| - 1])
  }

  lemma SplitsPast(st: Stream, s: Stream, t: Stream, picked: Option<nat>)
    requires st.queue != [] && st.queue[0] < st.Count() && st.acked[st.queue[0]]
    requires s.queue == st.queue[1..] && s.next == st.next && s.acked == st.acked && Splits(s, t, picked)
    ensures Splits(st, t, picked)
  {
    assert st.queue[|st.queue| - |t.queue|..] == s.queue[|s.queue| - |t.queue|..];
    assert forall i :: 0 < i < |st.queue| ==> st.queue[i] == s.queue[i - 1];
  }

  lemma SplitsNext(st: Stream, t: Stream, picked: Option<nat>)
    requires st.queue == [] && st.next < st.Count() && st.acked[st.next]
    requires Splits(st.(next := st.next + 1), t, picked)
    ensures Splits(st, t, picked)
  {}

  lemma SplitsHere(st: Stream, t: Stream, picked: Option<nat>)
    requires st.next <= st.Count()
    requires if st.queue != [] then
               st.queue[0] < st.Count() && picked == Some(st.queue[0]) && t.queue == st.queue[1..] && t.next == st.next
             else if st.next < st.Count() then picked == Some(st.next) && t.next == st.next + 1 && t.queue == []
             else picked == None && t == st
    ensures Splits(st, t, picked)
  {}

  lemma {:induction false} PickSplits(st: Stream)
    requires st.Valid()
    ensures Splits(st, Pick(st).0, Pick(st).1)
    decreases |st.queue| + (st.Count() - st.next)
  {
    hide Splits;
    if st.queue != [] && st.acked[st.queue[0]] {
      PickSplits(PopQueue(st));
      SplitsPast(st, PopQueue(st), Pick(st).0, Pick(st).1);
    } else if st.queue == [] && st.next < st.Count() && st.acked[st.next] {
      PickSplits(st.(next := st.next + 1));
      SplitsNext(st, Pick(st).0, Pick(st).1);
    } else {
      SplitsHere(st, Pick(st).0, Pick(st).1);
    }
  }

  lemma SendOutstanding(st: Stream, now: nat)
    requires st.Valid() && st.StampedBy(now)
    ensures var (t, picked) := Send(st, now);
      && Outstanding(st) <= Outstanding(t)
      && (forall c :: c in Outstanding(t) ==> c in Outstanding(st) || picked == Some(c))
  {
    PickSplits(st);
    var t := Pick(st).0;
    var n := |st.queue| - |t.queue|;
    assert st.queue == st.queue[..n] + t.queue;
  }

  /** The marks after an ACK built from `held` has been applied. */
  ghost predicate Acknowledged(acked: seq<bool>, held: seq<bool>, after: seq<bool>) {
    && |acked| == |held| == |after|
    && forall c :: 0 <= c < |acked| ==> (after[c] <==> acked[c] || (held[c] && c < Contig(held) + REACH))
  }

  ghost predicate AllHeld(acked: seq<bool>, held: seq<bool>) {
    |acked| == |held| && forall c :: 0 <= c < |acked| && acked[c] ==> held[c]
  }

  lemma PrefixesAgree(acked: seq<bool>, held: seq<bool>, after: seq<bool>)
    requires AllHeld(acked, held) && Acknowledged(acked, held, after)
    ensures Contig(after) == Contig(held) >= Contig(acked)
  {
    var k := Contig(held);
    assert forall c :: 0 <= c < k ==> after[c];
    ContigUnique(after, k);
  }

  /** Everything about one send whose packet arrives and is answered. */
  ghost predicate RoundOf(st: Stream, held: seq<bool>, now: nat, u: Stream, heldAfter: seq<bool>)
    requires st.Valid() && st.StampedBy(now)
  {
    var (t, picked) := Send(st, now);
    && picked.Some? && |held| == st.Count() && heldAfter == held[picked.value := true]
    && Acknowledged(st.acked, heldAfter, u.acked) && u == t.(acked := u.acked) && u.Valid()
  }

  /** A picked chunk below the limit is acked. */
  lemma NearIsAcked(st: Stream, held: seq<bool>, limit: nat, now: nat, u: Stream, heldAfter: seq<bool>)
    requires st.Valid() && st.StampedBy(now) && RoundOf(st, held, now, u, heldAfter) && AllHeld(st.acked, held)
    requires limit <= Contig(st.acked) + REACH
    ensures Contig(u.acked) == Contig(heldAfter) >= Contig(st.acked)
    ensures Send(st, now).1.value < limit ==> u.acked[Send(st, now).1.value]
  {
    hide ContigFrom, Pick;
    PrefixesAgree(st.acked, heldAfter, u.acked);
  }

  lemma RoundRecovers(st: Stream, held: seq<bool>, limit: nat, since: nat, now: nat, u: Stream, heldAfter: seq<bool>)
    requires st.Valid() && st.StampedBy(now) && RoundOf(st, held, now, u, heldAfter) && AllHeld(st.acked, held)
    requires Recovering(st, held, limit, since) && since <= now
    ensures Recovering(u, heldAfter, limit, since)
  {
    NearIsAcked(st, held, limit, now, u, heldAfter);
    RoundKeepsFar(st, held, limit, now, u, heldAfter);
    RoundKeepsOrder(st, held, limit, since, now, u, heldAfter);
    hide Pick;
    if Contig(u.acked) >= limit {
      assert forall c :: 0 <= c < u.next ==> heldAfter[c];
    }
  }

  lemma RoundKeepsFar(st: Stream, held: seq<bool>, limit: nat, now: nat, u: Stream, heldAfter: seq<bool>)
    requires st.Valid() && st.StampedBy(now) && RoundOf(st, held, now, u, heldAfter) && FarIsHeld(st, held, limit)
    ensures FarIsHeld(u, heldAfter, limit)
  {
    PickSplits(st);
  }

  lemma RoundKeepsOrder(st: Stream, held: seq<bool>, limit: nat, since: nat, now: nat, u: Stream, heldAfter: seq<bool>)
    requires st.Valid() && st.StampedBy(now) && RoundOf(st, held, now, u, heldAfter) && since <= now
    requires Send(st, now).1.value < limit ==> u.acked[Send(st, now).1.value]
    requires NearFirst(st, limit) && NearIsOlder(st, limit, since)
    ensures NearFirst(u, limit) && NearIsOlder(u, limit, since)
  {
    PickSplits(st);
    SendOutstanding(st, now);
    AckOutstanding(Send(st, now).0, u);
    var n := |st.queue| - |u.queue|;
    hide Stream.Valid, Outstanding, Pick;
    DroppedKeepsNearFirst(st, u, n, limit);
  }

  lemma AckOutstanding(t: Stream, u: Stream)
    requires t.Valid() && u.Valid() && u == t.(acked := u.acked)
    requires forall c :: 0 <= c < t.Count() && t.acked[c] ==> c < u.Count() && u.acked[c]
    ensures forall c :: c in Outstanding(u) ==> c in Outstanding(t) && !u.acked[c]
  {}

  lemma DroppedKeepsNearFirst(st: Stream, u: Stream, n: nat, limit: nat)
    requires st.Valid() && u.Valid() && NearFirst(st, limit) && n <= |st.queue| && u.queue == st.queue[n..]
    requires u.Count() == st.Count() && forall c :: 0 <= c < st.Count() && st.acked[c] ==> u.acked[c]
    requires forall c :: c in Outstanding(u) ==> c in Outstanding(st) || c >= limit
    ensures NearFirst(u, limit)
  {
    hide Outstanding;
    forall i | 0 <= i < |u.queue| && u.queue[i] >= limit && !u.acked[u.queue[i]] ensures NoneNear(u, i, limit) {
      assert u.queue[i] == st.queue[n + i] && NoneNear(st, n + i, limit);
      assert forall j :: i < j < |u.queue| ==> u.queue[j] == st.queue[n + j];
    }
  }

  /** A chunk picked from the queue is below the limit. */
  lemma QueuedIsNear(st: Stream, held: seq<bool>, limit: nat, since: nat)
    requires st.Valid() && Recovering(st, held, limit, since) && Pick(st).1.Some? && Pick(st).0.next == st.next
    ensures Pick(st).1.value < limit
  {
    var p, c := Pick(st).1.value, Contig(st.acked);
    PickSplits(st);
    var at := |st.queue| - |Pick(st).0.queue| - 1;
    assert p in st.queue && c <= p;
    assert c < limit && c < st.next && c !in st.queue[..at + 1] ==> c in st.queue[at + 1..] || c in Outstanding(st);
    if p >= limit { assert false; }
  }

  /** A new chunk that is not acked after its round was sent while one below the limit was outstanding. */
  lemma UnansweredWaits(st: Stream, held: seq<bool>, limit: nat, since: nat, now: nat, u: Stream, heldAfter: seq<bool>)
    requires st.Valid() && st.StampedBy(now) && RoundOf(st, held, now, u, heldAfter) && AllHeld(st.acked, held)
    requires Recovering(st, held, limit, since) && !u.acked[Send(st, now).1.value]
    ensures st.next < u.next && Contig(st.acked) in Outstanding(st) && Contig(st.acked) < limit
  {
    var p, c := Send(st, now).1.value, Contig(st.acked);
    PickSplits(st);
    NearIsAcked(st, held, limit, now, u, heldAfter);
    if u.next == st.next { QueuedIsNear(st, held, limit, since); assert false; }
    assert c < Contig(heldAfter) + 1;
    assert c != p;
    assert c < st.next;
  }

  /** A pick that finds nothing only uses up what work was left. */
  lemma DrainRecovers(st: Stream, held: seq<bool>, limit: nat, since: nat, now: nat)
    requires st.Valid() && st.StampedBy(now) && Recovering(st, held, limit, since) && Send(st, now).1.None?
    ensures Recovering(Send(st, now).0, held, limit, since)
    ensures Outstanding(Send(st, now).0) == Outstanding(st)
  {
    PickSplits(st);
    SendOutstanding(st, now);
    var t := Send(st, now).0;
    assert Contig(st.acked) >= st.next ==> Contig(st.acked) == st.Count();
    assert NearFirst(t, limit);
  }
}
