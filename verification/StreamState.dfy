/** The sender's per-stream state as the code keeps it: an acked counter, a scan cursor over
    the acked prefix, a cursor over the applied contiguous prefix, and 32-bit send stamps.
    Each method is proved equal to the cursor-free operation of `StreamSpec` on `View()`. */
module SenderStream {
  import opened Words
  import opened StreamSpec

  /** The stamps are the send times in 32 bits. */
  ghost predicate Truncates(stamps: seq<u32>, times: seq<nat>) {
    |stamps| == |times| && forall c {:trigger stamps[c]} :: 0 <= c < |stamps| ==> stamps[c] == times[c] % U32
  }

  /** Chunk c lies in the ACK's contiguous part at or above the cursor. */
  ghost predicate FromCursor(base: nat, count: nat, cursor: nat, ack: Ack, c: nat) {
    ack.base <= ack.hc < base + count && Max(ack.base, base + cursor) <= base + c <= ack.hc
  }

  /** Where the cursor stands after the ACK. */
  ghost function CursorPast(base: nat, count: nat, cursor: nat, ack: Ack): nat {
    if ack.base <= ack.hc < base + count && base + cursor <= ack.hc then ack.hc - base + 1 else cursor
  }

  /** The cursor has passed only acked chunks just when the ACK skipped none. */
  lemma CursorAfter(base: nat, cursor: nat, past: nat, ack: Ack, was: seq<bool>, mid: seq<bool>, acked: seq<bool>)
    requires |was| == |mid| == |acked| && past == CursorPast(base, |acked|, cursor, ack) && cursor <= |acked|
    requires forall c :: 0 <= c < cursor ==> was[c]
    requires forall c :: 0 <= c < |acked| ==> (mid[c] <==> was[c] || FromCursor(base, |acked|, cursor, ack, c))
    requires forall c :: 0 <= c < |acked| ==> (mid[c] ==> acked[c])
    ensures (forall c :: 0 <= c < past && c < |acked| ==> acked[c]) <==> !SkipsUnacked(base, cursor, ack, acked)
  {
    forall c | 0 <= c < past && c < |acked| && !(cursor <= c && base + c < ack.base) ensures acked[c] {
      assert mid[c];
    }
  }

  /** An ACK applied with its contiguous part only from the cursor on. */
  ghost function ApplyAckFrom(s: Stream, cursor: nat, ack: Ack): Stream
    requires s.Valid()
  {
    s.(acked := seq(s.Count(), c requires 0 <= c < s.Count() =>
      s.acked[c] || FromCursor(s.base, s.Count(), cursor, ack, c) || BitSet(s.base, ack, c)))
  }

  /** Behind a cursor that has passed only acked chunks there is nothing left to mark. */
  lemma CursorSkipsOnlyAcked(s: Stream, cursor: nat, ack: Ack)
    requires s.Valid() && forall c :: 0 <= c < cursor && c < s.Count() ==> s.acked[c]
    ensures ApplyAckFrom(s, cursor, ack) == ApplyAck(s, ack)
  {
    hide BitSet;
    assert ApplyAckFrom(s, cursor, ack).acked == ApplyAck(s, ack).acked;
  }

  /** An ACK's bits lie past its contiguous part, so whether it skips an unacked chunk can be told
      beforehand; only a stream within 2^19 chunks of filling the 64-bit packet numbers could wrap round. */
  lemma SkipKnownBefore(s: Stream, cursor: nat, ack: Ack)
    requires s.Valid() && s.Count() <= U64 - 0x8_0000
    ensures SkipsUnacked(s.base, cursor, ack, ApplyAckFrom(s, cursor, ack).acked) <==>
            SkipsUnacked(s.base, cursor, ack, s.acked)
  {
    if ack.base <= ack.hc < s.base + s.Count() {
      forall c | 0 <= c < s.Count() && s.base + c < ack.base
        ensures ApplyAckFrom(s, cursor, ack).acked[c] == s.acked[c]
      {
        assert BitIndex(s.base, ack, c) >= 0x8_0000;
      }
    }
  }

  /** The ACK's prefix moves the cursor, but starts above it past a chunk left unacked. */
  ghost predicate SkipsUnacked(base: nat, cursor: nat, ack: Ack, acked: seq<bool>) {
    && ack.base <= ack.hc < base + |acked| && base + cursor <= ack.hc
    && exists c :: cursor <= c < |acked| && base + c < ack.base && !acked[c]
  }

  class StreamState {
    const chunkBase: nat
    const chunkCount: nat
    var nextLocal: nat
    var acked: seq<bool>
    var nAcked: nat
    var sentUs: seq<u32>
    var flags: seq<Flags>
    var scanCursor: nat
    var hcApplied: nat
    var retxQueue: seq<nat>
    /** The send times the 32-bit stamps are truncations of. */
    ghost var sentAt: seq<nat>

    ghost function View(): Stream
      reads this
    {
      Stream(chunkBase, nextLocal, acked, sentAt, flags, retxQueue)
    }

    ghost predicate Valid()
      reads this
    {
      && View().Valid()
      && |acked| == |sentUs| == chunkCount && nextLocal <= chunkCount
      && Truncates(sentUs, sentAt)
      && nAcked == CountTrue(acked)
      && scanCursor <= chunkCount
      && (forall c :: 0 <= c < scanCursor ==> acked[c])
      && (scanCursor < chunkCount ==> !acked[scanCursor])
      && hcApplied <= chunkCount
    }

    /** The prefix cursor has only passed acked chunks. */
    ghost predicate PrefixApplied()
      reads this
    {
      forall c :: 0 <= c < hcApplied && c < |acked| ==> acked[c]
    }

    constructor (base: nat, count: nat)
      requires base + count < U64
      ensures Valid() && hcApplied == 0 && PrefixApplied() && View() == NewStream(base, count)
      ensures chunkBase == base && chunkCount == count
    {
      chunkBase, chunkCount, nextLocal := base, count, 0;
      acked, nAcked := seq(count, _ => false), 0;
      sentUs, sentAt := seq(count, _ => 0), seq(count, _ => 0);
      flags := seq(count, _ => CLEAR);
      scanCursor, hcApplied, retxQueue := 0, 0, [];
      new;
      CountTrueNone(acked);
    }

    method MarkAcked(c: nat) returns (newly: bool)
      requires Valid()
      modifies this`acked, this`nAcked, this`scanCursor
      ensures Valid()
      ensures newly <==> c < chunkCount && !old(acked)[c]
      ensures acked == if newly then old(acked)[c := true] else old(acked)
    {
      if c >= |acked| || acked[c] {
        return false;
      }
      CountTrueUpdate(acked, c);
      AckKeepsValid(View(), acked[c := true]);
      hide Stream.Valid, Truncates, CountTrue;
      acked := acked[c := true];
      nAcked := nAcked + 1;
      while scanCursor < |acked| && acked[scanCursor]
        modifies this`scanCursor
        invariant scanCursor <= |acked|
        invariant forall i :: 0 <= i < scanCursor ==> acked[i]
        decreases |acked| - scanCursor
      {
        scanCursor := scanCursor + 1;
      }
      return true;
    }

    /** How old a stamp reads on the wrapping clock. */
    method AgeOf(c: nat, nowUs: u32, ghost now: nat) returns (age: u32)
      requires c < |sentUs| && Truncates(sentUs, sentAt) && nowUs == now % U32
      ensures age == Age32(now, sentAt[c])
    {
      WrappedStampsGiveAge32(now, sentAt[c]);
      age := WrappingSub32(nowUs, sentUs[c]);
    }

    method RttSampleOf(c: nat, nowUs: u32, ghost now: nat) returns (rtt: Option<nat>)
      requires Valid() && View().StampedBy(now) && nowUs == now % U32 && c < chunkCount
      ensures rtt == RttSample(flags[c], sentAt[c], now, Wrapping)
    {
      if flags[c].retransmitted {
        return None;
      }
      hide Age32, Truncates;
      var age := AgeOf(c, nowUs, now);
      return Some(Max(age, 1));
    }

    /** Record one chunk of an ACK: sample, mark, release window, report. */
    method AckOne(c: nat, nowUs: u32, ghost now: nat, ghost was: seq<bool>, newly: seq<Report>,
                  ghost start: nat, inFlight: nat, wire: nat)
      returns (newly': seq<Report>, left: nat)
      requires Valid() && View().StampedBy(now) && nowUs == now % U32 && c < chunkCount
      requires |was| == |acked| && (was[c] ==> acked[c])
      requires inFlight == Release(start, wire, |newly|)
      requires ReportsExactly(newly, chunkBase, was, acked, Samples(flags, sentAt, now, Wrapping))
      modifies this`acked, this`nAcked, this`scanCursor
      ensures Valid()
      ensures acked == old(acked)[c := true]
      ensures ReportsExactly(newly', chunkBase, was, acked, Samples(flags, sentAt, now, Wrapping))
      ensures |newly'| - |newly| == nAcked - old(nAcked)
      ensures left == Release(start, wire, |newly'|)
    {
      hide ReportsExactly, Release, CountTrue, Truncates, Stream.Valid, RttSample;
      Lengths(View());
      newly', left := newly, inFlight;
      if !acked[c] {
        var rtt := RttSampleOf(c, nowUs, now);
        ghost var samples := Samples(flags, sentAt, now, Wrapping);
        CountTrueUpdate(acked, c);
        ReportOneMore(newly, chunkBase, was, acked, samples, c);
        var _ := MarkAcked(c);
        ReleaseOneMore(start, wire, |newly|);
        left := SatSub(inFlight, wire);
        newly' := newly + [Report(chunkBase + c, rtt)];
      }
    }

    /** The contiguous prefix of an ACK, local chunks lo to hi - 1. */
    method AckPrefix(lo: nat, hi: nat, nowUs: u32, ghost now: nat, inFlight: nat, wire: nat)
      returns (newly: seq<Report>, left: nat)
      requires Valid() && View().StampedBy(now) && nowUs == now % U32 && lo <= hi <= chunkCount
      modifies this`acked, this`nAcked, this`scanCursor
      ensures Valid()
      ensures forall x :: 0 <= x < chunkCount ==> (acked[x] <==> old(acked)[x] || lo <= x < hi)
      ensures ReportsExactly(newly, chunkBase, old(acked), acked, Samples(flags, sentAt, now, Wrapping))
      ensures |newly| == nAcked - old(nAcked)
      ensures left == Release(inFlight, wire, |newly|)
    {
      hide ReportsExactly, Samples, Release, CountTrue, Truncates;
      newly, left := [], inFlight;
      NothingYet(chunkBase, acked, Samples(flags, sentAt, now, Wrapping), inFlight, wire);
      for c := lo to hi
        modifies this`acked, this`nAcked, this`scanCursor
        invariant Valid()
        invariant forall x :: 0 <= x < chunkCount ==> (acked[x] <==> old(acked)[x] || lo <= x < c)
        invariant ReportsExactly(newly, chunkBase, old(acked), acked, Samples(flags, sentAt, now, Wrapping))
        invariant |newly| == nAcked - old(nAcked)
        invariant left == Release(inFlight, wire, |newly|)
      {
        newly, left := AckOne(c, nowUs, now, old(acked), newly, inFlight, left, wire);
      }
    }

    /** Bit `bit` of byte `bi` of an ACK's bitmap. `idx` gives each chunk's bit. */
    method AckBit(ack: Ack, bi: nat, bit: nat, nowUs: u32, ghost now: nat, ghost was: seq<bool>, newly: seq<Report>,
                  ghost start: nat, inFlight: nat, wire: nat, ghost idx: seq<nat>)
      returns (newly': seq<Report>, left: nat)
      requires Valid() && View().StampedBy(now) && nowUs == now % U32
      requires bi < |ack.bitmap| && bit < 8 && idx == BitIndices(chunkBase, chunkCount, ack)
      requires |was| == |acked| && forall x :: 0 <= x < chunkCount && was[x] ==> acked[x]
      requires inFlight == Release(start, wire, |newly|)
      requires ReportsExactly(newly, chunkBase, was, acked, Samples(flags, sentAt, now, Wrapping))
      modifies this`acked, this`nAcked, this`scanCursor
      ensures Valid()
      ensures forall x :: 0 <= x < chunkCount ==>
                (acked[x] <==> old(acked)[x] || (idx[x] == 8 * bi + bit && BitAt(ack.bitmap, idx[x])))
      ensures ReportsExactly(newly', chunkBase, was, acked, Samples(flags, sentAt, now, Wrapping))
      ensures |newly'| - |newly| == nAcked - old(nAcked)
      ensures left == Release(start, wire, |newly'|)
    {
      hide ReportsExactly, Samples, Release, CountTrue, Truncates;
      newly', left := newly, inFlight;
      OneBit(chunkBase, chunkCount, ack, bi, bit);
      if Bit(ack.bitmap[bi], bit) {
        var pn := WrappingAdd64(WrappingAdd64(ack.hc, 1), 8 * bi + bit);
        var c := WrappingSub64(pn, chunkBase);
        assert c == BitTarget(chunkBase, ack, 8 * bi + bit);
        if c < chunkCount {
          newly', left := AckOne(c, nowUs, now, was, newly, start, inFlight, wire);
        }
      }
    }

    /** One nonzero byte of an ACK's bitmap, lowest bit first. */
    method AckByte(ack: Ack, bi: nat, nowUs: u32, ghost now: nat, ghost was: seq<bool>, newly: seq<Report>,
                   ghost start: nat, inFlight: nat, wire: nat, ghost idx: seq<nat>)
      returns (newly': seq<Report>, left: nat)
      requires Valid() && View().StampedBy(now) && nowUs == now % U32
      requires bi < |ack.bitmap| && idx == BitIndices(chunkBase, chunkCount, ack)
      requires |was| == |acked| && forall x :: 0 <= x < chunkCount && was[x] ==> acked[x]
      requires inFlight == Release(start, wire, |newly|)
      requires ReportsExactly(newly, chunkBase, was, acked, Samples(flags, sentAt, now, Wrapping))
      modifies this`acked, this`nAcked, this`scanCursor
      ensures Valid()
      ensures forall x :: 0 <= x < chunkCount ==>
                (acked[x] <==> old(acked)[x] || SetWithin(ack.bitmap, idx[x], 8 * bi, 8 * bi + 8))
      ensures ReportsExactly(newly', chunkBase, was, acked, Samples(flags, sentAt, now, Wrapping))
      ensures |newly'| - |newly| == nAcked - old(nAcked)
      ensures left == Release(start, wire, |newly'|)
    {
      hide ReportsExactly, Samples, Release, CountTrue, Truncates;
      newly', left := newly, inFlight;
      for bit := 0 to 8
        modifies this`acked, this`nAcked, this`scanCursor
        invariant Valid()
        invariant forall x :: 0 <= x < chunkCount ==>
                    (acked[x] <==> old(acked)[x] || SetWithin(ack.bitmap, idx[x], 8 * bi, 8 * bi + bit))
        invariant ReportsExactly(newly', chunkBase, was, acked, Samples(flags, sentAt, now, Wrapping))
        invariant |newly'| - |newly| == nAcked - old(nAcked)
        invariant left == Release(start, wire, |newly'|)
      {
        newly', left := AckBit(ack, bi, bit, nowUs, now, was, newly', start, left, wire, idx);
      }
    }

    /** The bitmap of an ACK, byte by byte, skipping zero bytes. */
    method AckBitmap(ack: Ack, nowUs: u32, ghost now: nat, ghost was: seq<bool>, newly: seq<Report>,
                     ghost start: nat, inFlight: nat, wire: nat, ghost idx: seq<nat>)
      returns (newly': seq<Report>, left: nat)
      requires Valid() && View().StampedBy(now) && nowUs == now % U32
      requires idx == BitIndices(chunkBase, chunkCount, ack)
      requires |was| == |acked| && forall x :: 0 <= x < chunkCount && was[x] ==> acked[x]
      requires inFlight == Release(start, wire, |newly|)
      requires ReportsExactly(newly, chunkBase, was, acked, Samples(flags, sentAt, now, Wrapping))
      modifies this`acked, this`nAcked, this`scanCursor
      ensures Valid()
      ensures forall x :: 0 <= x < chunkCount ==>
                (acked[x] <==> old(acked)[x] || SetWithin(ack.bitmap, idx[x], 0, 8 * |ack.bitmap|))
      ensures ReportsExactly(newly', chunkBase, was, acked, Samples(flags, sentAt, now, Wrapping))
      ensures |newly'| - |newly| == nAcked - old(nAcked)
      ensures left == Release(start, wire, |newly'|)
    {
      hide ReportsExactly, Samples, Release, CountTrue, Truncates;
      newly', left := newly, inFlight;
      for bi := 0 to |ack.bitmap|
        modifies this`acked, this`nAcked, this`scanCursor
        invariant Valid()
        invariant forall x :: 0 <= x < chunkCount ==>
                    (acked[x] <==> old(acked)[x] || SetWithin(ack.bitmap, idx[x], 0, 8 * bi))
        invariant ReportsExactly(newly', chunkBase, was, acked, Samples(flags, sentAt, now, Wrapping))
        invariant |newly'| - |newly| == nAcked - old(nAcked)
        invariant left == Release(start, wire, |newly'|)
      {
        if ack.bitmap[bi] != 0 {
          newly', left := AckByte(ack, bi, nowUs, now, was, newly', start, left, wire, idx);
        } else {
          ZeroByte(ack.bitmap, bi, idx);
        }
      }
    }

    /** Apply an ACK. The prefix is resumed at the cursor, yet the outcome is that of the full
        sweep whenever the cursor has only passed acked chunks; and the cursor keeps that
        property exactly when the ACK does not start above it past a chunk left unacked. */
    method ProcessAck(ack: Ack, nowUs: u32, ghost now: nat, inFlight: nat, wire: nat)
      returns (newly: seq<Report>, left: nat)
      requires Valid() && View().StampedBy(now) && nowUs == now % U32
      modifies this`acked, this`nAcked, this`scanCursor, this`hcApplied
      ensures Valid()
      ensures View() == ApplyAckFrom(old(View()), old(hcApplied), ack)
      ensures hcApplied == CursorPast(chunkBase, chunkCount, old(hcApplied), ack)
      ensures old(PrefixApplied()) ==> View() == ApplyAck(old(View()), ack)
      ensures ReportsExactly(newly, chunkBase, old(acked), acked, Samples(flags, sentAt, now, Wrapping))
      ensures |newly| == nAcked - old(nAcked)
      ensures left == Release(inFlight, wire, |newly|)
      ensures old(PrefixApplied()) ==> (PrefixApplied() <==> !SkipsUnacked(chunkBase, old(hcApplied), ack, acked))
      ensures old(PrefixApplied()) && chunkCount <= U64 - 0x8_0000 ==>
                (PrefixApplied() <==> !SkipsUnacked(chunkBase, old(hcApplied), ack, old(acked)))
      ensures old(PrefixApplied()) && ack.base <= chunkBase + old(hcApplied) ==> PrefixApplied()
    {
      hide ReportsExactly, Samples, Release, CountTrue, Truncates, SetWithin, BitIndices, ApplyAck, ApplyAckFrom, FromCursor;
      newly, left := ApplyPrefix(ack, nowUs, now, inFlight, wire);
      ghost var mid := acked;
      ghost var idx := BitIndices(chunkBase, chunkCount, ack);
      newly, left := AckBitmap(ack, nowUs, now, old(acked), newly, inFlight, left, wire, idx);
      PrefixThenBits(old(View()), ack, old(hcApplied), mid, acked);
      if old(PrefixApplied()) {
        CursorSkipsOnlyAcked(old(View()), old(hcApplied), ack);
        if chunkCount <= U64 - 0x8_0000 { SkipKnownBefore(old(View()), old(hcApplied), ack); }
        CursorAfter(chunkBase, old(hcApplied), hcApplied, ack, old(acked), mid, acked);
      }
    }

    /** The contiguous part of an ACK, resumed at the cursor, which then moves past it. */
    method ApplyPrefix(ack: Ack, nowUs: u32, ghost now: nat, inFlight: nat, wire: nat)
      returns (newly: seq<Report>, left: nat)
      requires Valid() && View().StampedBy(now) && nowUs == now % U32
      modifies this`acked, this`nAcked, this`scanCursor, this`hcApplied
      ensures Valid()
      ensures forall x :: 0 <= x < chunkCount ==>
                (acked[x] <==> old(acked)[x] || FromCursor(chunkBase, chunkCount, old(hcApplied), ack, x))
      ensures hcApplied == CursorPast(chunkBase, chunkCount, old(hcApplied), ack)
      ensures ReportsExactly(newly, chunkBase, old(acked), acked, Samples(flags, sentAt, now, Wrapping))
      ensures |newly| == nAcked - old(nAcked)
      ensures left == Release(inFlight, wire, |newly|)
    {
      hide ReportsExactly, Samples, Release, CountTrue, Truncates;
      newly, left := [], inFlight;
      NothingYet(chunkBase, acked, Samples(flags, sentAt, now, Wrapping), inFlight, wire);
      if ack.base <= ack.hc && ack.hc < chunkBase + chunkCount {
        var lo := Max(Max(ack.base, chunkBase), chunkBase + hcApplied);
        if lo <= ack.hc {
          newly, left := AckPrefix(lo - chunkBase, ack.hc + 1 - chunkBase, nowUs, now, inFlight, wire);
          hcApplied := ack.hc - chunkBase + 1;
        }
      }
    }

    /** Queue every sent chunk whose stamp is too old, scanning only from the cursor. The
        outcome is that of scanning the whole sent range. */
    method QueueTimedOut(nowUs: u32, timeoutUs: u32, ghost now: nat) returns (lost: seq<nat>)
      requires Valid() && View().StampedBy(now) && nowUs == now % U32
      modifies this`flags, this`retxQueue
      ensures Valid()
      ensures View() == Scan(old(View()), now, timeoutUs, Wrapping).0
      ensures |lost| == |Scan(old(View()), now, timeoutUs, Wrapping).1|
      ensures forall i :: 0 <= i < |lost| ==> lost[i] == chunkBase + Scan(old(View()), now, timeoutUs, Wrapping).1[i]
    {
      hide Expired, Requeue, Scan, CountTrue, Truncates, Age32, TimedOut, Stream.Valid;
      ghost var s := View();
      Lengths(s);
      ghost var done: seq<nat> := [];
      var sent := Min(nextLocal, chunkCount);
      var c := Min(scanCursor, sent);
      lost := [];
      SkipAcked(s, 0, c, now, timeoutUs);
      RequeueNone(s);
      assert done + Expired(s, c, now, timeoutUs, Wrapping) == Expired(s, c, now, timeoutUs, Wrapping);
      while c < sent
        modifies this`flags, this`retxQueue
        invariant 0 <= c <= sent
        invariant Expired(s, 0, now, timeoutUs, Wrapping) == done + Expired(s, c, now, timeoutUs, Wrapping)
        invariant View() == Requeue(s, done) && |flags| == chunkCount
        invariant forall i :: 0 <= i < |done| ==> done[i] < c
        invariant |lost| == |done| && forall i :: 0 <= i < |lost| ==> lost[i] == chunkBase + done[i]
      {
        ExpiredStep(s, done, c, now, timeoutUs, Wrapping);
        var took := QueueIfTimedOut(c, nowUs, timeoutUs, now, s, done);
        if took {
          lost := lost + [chunkBase + c];
          done := done + [c];
        }
        c := c + 1;
      }
      ExpiredEnds(s, done, c, now, timeoutUs);
    }

    /** One chunk of the scan. */
    method QueueIfTimedOut(c: nat, nowUs: u32, timeoutUs: u32, ghost now: nat, ghost s: Stream, ghost done: seq<nat>)
      returns (took: bool)
      requires c < |acked| == |sentUs| == |flags| && Truncates(sentUs, sentAt) && nowUs == now % U32
      requires s.Valid() && s.StampedBy(now) && View() == Requeue(s, done) && c !in done
      modifies this`flags, this`retxQueue
      ensures took <==> TimedOut(s, c, now, timeoutUs, Wrapping)
      ensures View() == Requeue(s, if took then done + [c] else done) && |flags| == old(|flags|)
    {
      hide Truncates, Age32;
      assert acked == s.acked && sentAt == s.sentAt;
      RequeueMore(s, done, c);
      hide Requeue;
      var age := AgeOf(c, nowUs, now);
      took := !acked[c] && !flags[c].inRetx && age > timeoutUs;
      if took {
        retxQueue := retxQueue + [c];
        flags := flags[c := QUEUED];
      }
    }

    method PopHead() returns (c: nat)
      requires Valid() && retxQueue != []
      modifies this`flags, this`retxQueue
      ensures Valid() && View() == PopQueue(old(View()))
      ensures c == old(retxQueue[0]) && c < chunkCount
    {
      c := retxQueue[0];
      retxQueue := retxQueue[1..];
      flags := flags[c := flags[c].(inRetx := false)];
      assert View() == PopQueue(old(View()));
    }

    /** The next chunk to send: pop the retransmit queue past chunks acked while queued, then
        the unsent chunks past those acked already; None when neither is left. */
    method PickChunk() returns (c: Option<nat>)
      requires Valid()
      modifies this`flags, this`retxQueue, this`nextLocal
      ensures Valid()
      ensures (View(), c) == Pick(old(View()))
    {
      hide PopQueue, Stream.Valid, CountTrue;
      while true
        modifies this`flags, this`retxQueue, this`nextLocal
        invariant Valid()
        invariant Pick(View()) == Pick(old(View()))
        decreases |retxQueue| + (chunkCount - nextLocal)
      {
        if retxQueue != [] {
          var head := PopHead();
          if !acked[head] {
            return Some(head);
          }
        } else if nextLocal < chunkCount {
          var head := nextLocal;
          NextValid(View());
          nextLocal := nextLocal + 1;
          if !acked[head] {
            return Some(head);
          }
        } else {
          return None;
        }
      }
    }

    /** Stamp a chunk just handed to the wire. */
    method StampSent(c: nat, nowUs: u32, ghost now: nat)
      requires Valid() && nowUs == now % U32 && c < chunkCount
      modifies this`sentUs, this`sentAt
      ensures Valid() && View() == old(View()).(sentAt := old(sentAt)[c := now])
    {
      sentUs := sentUs[c := nowUs];
      sentAt := sentAt[c := now];
    }

    /** Queue the NACKed chunks lo to hi - 1 of this stream, each at the front. */
    method NackChunks(lo: nat, hi: nat, nowUs: u32, ghost now: nat) returns (lost: seq<nat>, ghost done: seq<nat>)
      requires Valid() && View().StampedBy(now) && nowUs == now % U32 && lo <= hi <= chunkCount
      modifies this`flags, this`retxQueue
      ensures Valid()
      ensures (View(), done) == NackAll(old(View()), Range(lo, hi), now, Wrapping)
      ensures |lost| == |done| && forall i :: 0 <= i < |lost| ==> lost[i] == chunkBase + done[i]
    {
      hide NackAll, Range, Truncates, Age32, CountTrue;
      ghost var s := View();
      lost, done := [], [];
      NackNone(s, lo, now);
      for c := lo to hi
        modifies this`flags, this`retxQueue
        invariant Valid() && View().StampedBy(now)
        invariant (View(), done) == NackAll(s, Range(lo, c), now, Wrapping)
        invariant |lost| == |done| && forall i :: 0 <= i < |lost| ==> lost[i] == chunkBase + done[i]
      {
        ghost var v, was := View(), done;
        NackMore(s, lo, c, now);
        var age := AgeOf(c, nowUs, now);
        if !acked[c] && !flags[c].inRetx && !(age < RECENTLY_SENT_US) {
          retxQueue := [c] + retxQueue;
          flags := flags[c := QUEUED];
          lost := lost + [chunkBase + c];
          done := done + [c];
        }
        assert View() == NackOne(v, c, now, Wrapping);
        assert done == was + if NackTakes(v, c, now, Wrapping) then [c] else [];
      }
    }

    /** Queue the NACKed chunks of this stream, whatever ranges the packet names. */
    method ProcessNack(ranges: seq<(u64, u64)>, nowUs: u32, ghost now: nat) returns (lost: seq<nat>)
      requires Valid() && View().StampedBy(now) && nowUs == now % U32
      modifies this`flags, this`retxQueue
      ensures Valid()
      ensures View() == ApplyNack(old(View()), ranges, now, Wrapping).0
      ensures |lost| == |ApplyNack(old(View()), ranges, now, Wrapping).1|
      ensures forall i :: 0 <= i < |lost| ==> lost[i] == chunkBase + ApplyNack(old(View()), ranges, now, Wrapping).1[i]
    {
      hide NackAll, Range, NackOrder, Truncates, CountTrue;
      ghost var s := View();
      ghost var done: seq<nat> := [];
      lost := [];
      assert ranges[..0] == [];
      NackOrderNone(s, now);
      for r := 0 to |ranges|
        modifies this`flags, this`retxQueue
        invariant Valid() && View().StampedBy(now)
        invariant (View(), done) == NackAll(s, NackOrder(chunkBase, chunkCount, ranges[..r]), now, Wrapping)
        invariant |lost| == |done| && forall i :: 0 <= i < |lost| ==> lost[i] == chunkBase + done[i]
      {
        NackOrderMore(chunkBase, chunkCount, ranges, r);
        NackConcat(s, NackOrder(chunkBase, chunkCount, ranges[..r]), NackOrder(chunkBase, chunkCount, [ranges[r]]), now, Wrapping);
        NackOrderOne(chunkBase, chunkCount, ranges[r]);
        var lo := Max(ranges[r].0, chunkBase);
        var hi := Min(ranges[r].1, SatSub(chunkBase + chunkCount, 1));
        if lo <= hi && chunkCount > 0 {
          var l, d := NackChunks(lo - chunkBase, hi - chunkBase + 1, nowUs, now);
          lost, done := lost + l, done + d;
        } else {
          NackEmpty(View(), now);
          assert done + [] == done;
        }
      }
      assert ranges[..|ranges|] == ranges;
    }
  }

  lemma NextValid(s: Stream)
    requires s.Valid() && s.next < s.Count()
    ensures s.(next := s.next + 1).Valid()
  {}

  lemma NackNone(s: Stream, lo: nat, now: nat)
    requires s.Valid() && s.StampedBy(now)
    ensures NackAll(s, Range(lo, lo), now, Wrapping) == (s, [])
  {}

  lemma NackEmpty(s: Stream, now: nat)
    requires s.Valid() && s.StampedBy(now)
    ensures NackAll(s, [], now, Wrapping) == (s, [])
  {}

  lemma NackOrderNone(s: Stream, now: nat)
    requires s.Valid() && s.StampedBy(now)
    ensures NackAll(s, NackOrder(s.base, s.Count(), []), now, Wrapping) == (s, [])
  {}

  lemma NackMore(s: Stream, lo: nat, c: nat, now: nat)
    requires s.Valid() && s.StampedBy(now) && lo <= c
    ensures var (t, l) := NackAll(s, Range(lo, c), now, Wrapping);
            NackAll(s, Range(lo, c + 1), now, Wrapping) ==
            (NackOne(t, c, now, Wrapping), l + if NackTakes(t, c, now, Wrapping) then [c] else [])
  {
    hide NackAll, NackOne, NackTakes, Stream.Valid, Range;
    var (t, l) := NackAll(s, Range(lo, c), now, Wrapping);
    RangeSnoc(lo, c);
    NackConcat(s, Range(lo, c), [c], now, Wrapping);
    NackSingle(t, c, now, Wrapping);
  }

  lemma NackOrderOne(base: nat, count: nat, range: (u64, u64))
    ensures NackOrder(base, count, [range]) == Range(Max(range.0, base) - base, Min(range.1 as int + 1, base + count) - base)
    ensures Max(range.0, base) > Min(range.1, SatSub(base + count, 1)) || count == 0 ==> NackOrder(base, count, [range]) == []
  {
    assert [range][1..] == [];
  }

  lemma {:induction false} NackOrderConcat(base: nat, count: nat, a: seq<(u64, u64)>, b: seq<(u64, u64)>)
    ensures NackOrder(base, count, a + b) == NackOrder(base, count, a) + NackOrder(base, count, b)
  {
    if a == [] {
      assert a + b == b;
    } else {
      assert (a + b)[1..] == a[1..] + b;
      NackOrderConcat(base, count, a[1..], b);
    }
  }

  lemma NackOrderMore(base: nat, count: nat, ranges: seq<(u64, u64)>, r: nat)
    requires r < |ranges|
    ensures NackOrder(base, count, ranges[..r + 1]) == NackOrder(base, count, ranges[..r]) + NackOrder(base, count, [ranges[r]])
  {
    assert ranges[..r + 1] == ranges[..r] + [ranges[r]];
    NackOrderConcat(base, count, ranges[..r], [ranges[r]]);
  }

  lemma Lengths(s: Stream)
    requires s.Valid()
    ensures |s.sentAt| == |s.flags| == |s.acked| && s.next <= |s.acked| && s.base + |s.acked| < U64
  {}

  lemma AckKeepsValid(s: Stream, acked: seq<bool>)
    requires s.Valid() && |acked| == |s.acked|
    ensures s.(acked := acked).Valid()
  {}

  lemma NothingYet(base: nat, acked: seq<bool>, samples: seq<Option<nat>>, inFlight: nat, wire: nat)
    requires |samples| == |acked|
    ensures ReportsExactly([], base, acked, acked, samples)
    ensures inFlight == Release(inFlight, wire, 0)
  {}

  lemma ExpiredEnds(s: Stream, done: seq<nat>, c: nat, now: nat, timeout: nat)
    requires s.Valid() && s.StampedBy(now) && c >= s.next
    ensures done + Expired(s, c, now, timeout, Wrapping) == done
    ensures Scan(s, now, timeout, Wrapping) ==
            (Requeue(s, Expired(s, 0, now, timeout, Wrapping)), Expired(s, 0, now, timeout, Wrapping))
  {}

  /** Chunks that are all acked never time out. */
  lemma {:induction false} SkipAcked(s: Stream, from: nat, limit: nat, now: nat, timeout: nat)
    requires s.Valid() && s.StampedBy(now) && from <= limit <= s.next
    requires forall c :: from <= c < limit ==> s.acked[c]
    ensures Expired(s, from, now, timeout, Wrapping) == Expired(s, limit, now, timeout, Wrapping)
    decreases limit - from
  {
    if from < limit { SkipAcked(s, from + 1, limit, now, timeout); }
  }

  /** Marking the prefix from the cursor on, then the bitmap, marks all that is reported. */
  lemma PrefixThenBits(s: Stream, ack: Ack, cursor: nat, mid: seq<bool>, acked: seq<bool>)
    requires s.Valid() && |mid| == |acked| == s.Count()
    requires forall c :: 0 <= c < s.Count() ==> (mid[c] <==> s.acked[c] || FromCursor(s.base, s.Count(), cursor, ack, c))
    requires forall c :: 0 <= c < s.Count() ==> (acked[c] <==>
               mid[c] || SetWithin(ack.bitmap, BitIndices(s.base, s.Count(), ack)[c], 0, 8 * |ack.bitmap|))
    ensures s.(acked := acked) == ApplyAckFrom(s, cursor, ack)
  {
    hide BitIndex, BitAt;
    forall c | 0 <= c < s.Count() ensures acked[c] == ApplyAckFrom(s, cursor, ack).acked[c] {
      assert BitIndices(s.base, s.Count(), ack)[c] == BitIndex(s.base, ack, c);
    }
  }

  ghost function BitIndices(base: nat, count: nat, ack: Ack): (r: seq<nat>)
    requires base + count < U64
    ensures |r| == count
  {
    seq(count, c requires 0 <= c < count => BitIndex(base, ack, c))
  }

  /** Bit i lies in [from, to) and is set. */
  ghost predicate SetWithin(bitmap: seq<bits>, i: nat, from: nat, to: nat)
    requires to <= 8 * |bitmap|
  {
    from <= i < to && BitAt(bitmap, i)
  }

  lemma ZeroByte(bitmap: seq<bits>, bi: nat, idx: seq<nat>)
    requires bi < |bitmap| && bitmap[bi] == 0
    ensures forall x :: 0 <= x < |idx| ==> (SetWithin(bitmap, idx[x], 0, 8 * bi + 8) <==> SetWithin(bitmap, idx[x], 0, 8 * bi))
  {
    forall x | 0 <= x < |idx| && 8 * bi <= idx[x] < 8 * bi + 8 ensures !BitAt(bitmap, idx[x]) {
      assert idx[x] / 8 == bi;
    }
  }

  /** Bit 8 * bi + bit speaks of exactly one local chunk. */
  lemma OneBit(base: u64, count: nat, ack: Ack, bi: nat, bit: nat)
    requires bi < |ack.bitmap| && bit < 8 && base + count < U64
    ensures (8 * bi + bit) / 8 == bi && (8 * bi + bit) % 8 == bit
    ensures forall x :: 0 <= x < count ==>
              (BitIndices(base, count, ack)[x] == 8 * bi + bit <==> x == BitTarget(base, ack, 8 * bi + bit))
  {
    forall x | 0 <= x < count
      ensures BitIndices(base, count, ack)[x] == 8 * bi + bit <==> x == BitTarget(base, ack, 8 * bi + bit)
    {
      BitTargetIsInverse(base, ack, 8 * bi + bit, x);
    }
  }

  /** An ACK that starts at chunk 1 moves the cursor past chunk 0, and the ACK of both that follows no
      longer marks chunk 0, though applied in full it would. */
  method CursorCanSkip() returns (st: StreamState)
    ensures st.Valid() && st.acked == [false, true]
    ensures ApplyAck(ApplyAck(NewStream(0, 2), Ack(1, 1, [])), Ack(0, 1, [])).acked == [true, true]
  {
    hide CountTrue, Truncates, ReportsExactly, Samples;
    SkipFacts();
    st := new StreamState(0, 2);
    hide Stream.Valid, ApplyAck, ApplyAckFrom, CursorPast;
    var _, _ := st.ProcessAck(Ack(1, 1, []), 0, 0, 0, 0);
    var _, _ := st.ProcessAck(Ack(0, 1, []), 0, 0, 0, 0);
  }

  lemma SkipFacts()
    ensures NewStream(0, 2).Valid()
    ensures var first, both := Ack(1, 1, []), Ack(0, 1, []);
      var s := ApplyAckFrom(NewStream(0, 2), 0, first);
      && s.Valid() && CursorPast(0, 2, 0, first) == 2
      && ApplyAckFrom(s, 2, both).acked == [false, true]
      && ApplyAck(ApplyAck(NewStream(0, 2), first), both).acked == [true, true]
  {}
}
