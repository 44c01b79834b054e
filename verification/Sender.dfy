/** The sender's operations over all its streams: dividing the chunks, marking chunks that need
    not be sent, and the periodic retransmit scan that recomputes the bytes in flight. */
module Sender {
  import opened Words
  import opened StreamSpec
  import opened SenderStream
  import opened InFlight
  import opened Protocol
  import opened ProtocolSafety

  ghost predicate AllValid(streams: seq<StreamState>)
    reads streams
  {
    && (forall i, j :: 0 <= i < j < |streams| ==> streams[i] != streams[j])
    && (forall i :: 0 <= i < |streams| ==> streams[i].Valid())
  }

  ghost function Views(streams: seq<StreamState>): (r: seq<Stream>)
    reads streams
    ensures |r| == |streams|
  {
    seq(|streams|, i requires 0 <= i < |streams| reads streams => streams[i].View())
  }

  // ---------- dividing the chunks ----------

  function PerStream(total: nat, ns: nat): nat
    requires ns > 0
  {
    total / ns
  }

  function Remainder(total: nat, ns: nat): nat
    requires ns > 0
  {
    total % ns
  }

  /** First chunk of stream i: every stream before it has its share, the early ones one more. */
  function ShareBase(total: nat, ns: nat, i: nat): nat
    requires ns > 0
  {
    PerStream(total, ns) * i + Min(i, Remainder(total, ns))
  }

  lemma ShareStep(total: nat, ns: nat, i: nat)
    requires ns > 0 && i < ns
    ensures ShareBase(total, ns, i + 1) ==
            ShareBase(total, ns, i) + PerStream(total, ns) + (if i < Remainder(total, ns) then 1 else 0)
    ensures ShareBase(total, ns, i + 1) <= total
  {
    var q, r := total / ns, total % ns;
    assert q * (i + 1) == q * i + q;
    assert total == q * ns + r;
    MulMono(i + 1, ns, q);
    assert (i + 1) * q == q * (i + 1) && ns * q == q * ns;
  }

  lemma ShareEnds(total: nat, ns: nat)
    requires ns > 0
    ensures ShareBase(total, ns, 0) == 0 && ShareBase(total, ns, ns) == total
  {
    assert (total / ns) * 0 == 0;
    assert total == (total / ns) * ns + total % ns;
  }

  /** Ranges that start at their share's base and end at the next tile the chunks. */
  lemma {:induction false} SharesTile(streams: seq<Stream>, total: nat, ns: nat)
    requires ns > 0 && |streams| <= ns
    requires forall i :: 0 <= i < |streams| ==> streams[i].base == ShareBase(total, ns, i)
    requires forall i :: 0 <= i < |streams| ==> streams[i].base + streams[i].Count() == ShareBase(total, ns, i + 1)
    ensures Tiled(streams, ShareBase(total, ns, |streams|))
    decreases |streams|
  {
    hide ShareBase;
    ShareEnds(total, ns);
    if streams != [] { SharesTile(streams[..|streams| - 1], total, ns); }
  }

  ghost predicate IsNew(s: StreamState)
    reads s
  {
    s.Valid() && s.hcApplied == 0 && s.View() == NewStream(s.chunkBase, s.chunkCount)
  }

  /** Split the chunks into consecutive, near-equal ranges. They cover all chunks exactly when
      there is a stream to take them. */
  method BuildStreams(total: nat, numStreams: nat) returns (streams: seq<StreamState>)
    requires total < U64
    ensures |streams| == numStreams && fresh(streams)
    ensures forall i, j :: 0 <= i < j < numStreams ==> streams[i] != streams[j]
    ensures forall i :: 0 <= i < numStreams ==> IsNew(streams[i])
    ensures forall i :: 0 <= i < numStreams ==>
              PerStream(total, numStreams) <= streams[i].chunkCount <= PerStream(total, numStreams) + 1
    ensures Tiled(Views(streams), total) <==> numStreams > 0 || total == 0
  {
    hide ShareBase, PerStream, Tiled, IsNew, Views;
    var ns := Max(numStreams, 1);
    streams := CutStreams(total, numStreams, ns);
    ShareEnds(total, ns);
    ViewsOfNew(streams);
    SharesTile(Views(streams), total, ns);
    if numStreams == 0 { NoStreamTilesNothing(Views(streams), total); }
  }

  method CutStreams(total: nat, numStreams: nat, ns: nat) returns (streams: seq<StreamState>)
    requires total < U64 && 0 < ns && numStreams <= ns
    ensures |streams| == numStreams && fresh(streams)
    ensures forall i, j :: 0 <= i < j < numStreams ==> streams[i] != streams[j]
    ensures forall k :: 0 <= k < numStreams ==>
      && IsNew(streams[k]) && PerStream(total, ns) <= streams[k].chunkCount <= PerStream(total, ns) + 1
      && streams[k].chunkBase == ShareBase(total, ns, k)
      && streams[k].chunkBase + streams[k].chunkCount == ShareBase(total, ns, k + 1)
  {
    hide ShareBase, PerStream, Remainder, IsNew;
    var perStream, remainder := PerStream(total, ns), Remainder(total, ns);
    streams := [];
    var base := 0;
    ShareEnds(total, ns);
    for i := 0 to numStreams
      invariant |streams| == i && fresh(streams)
      invariant forall j, k :: 0 <= j < k < i ==> streams[j] != streams[k]
      invariant base == ShareBase(total, ns, i)
      invariant forall k :: 0 <= k < i ==>
        && IsNew(streams[k]) && perStream <= streams[k].chunkCount <= perStream + 1
        && streams[k].chunkBase == ShareBase(total, ns, k)
        && streams[k].chunkBase + streams[k].chunkCount == ShareBase(total, ns, k + 1)
    {
      ShareStep(total, ns, i);
      var s := NewStreamState(base, perStream + if i < remainder then 1 else 0);
      streams := streams + [s];
      base := base + s.chunkCount;
    }
  }

  method NewStreamState(base: nat, count: nat) returns (s: StreamState)
    requires base + count < U64
    ensures fresh(s) && IsNew(s) && s.chunkBase == base && s.chunkCount == count
  {
    s := new StreamState(base, count);
  }

  lemma ViewsOfNew(streams: seq<StreamState>)
    requires forall i :: 0 <= i < |streams| ==> IsNew(streams[i])
    ensures forall i :: 0 <= i < |streams| ==>
              Views(streams)[i].base == streams[i].chunkBase && Views(streams)[i].Count() == streams[i].chunkCount
  {}

  lemma NoStreamTilesNothing(streams: seq<Stream>, total: nat)
    requires |streams| == 0
    ensures Tiled(streams, total) <==> total == 0
  {}

  // ---------- chunks that need not be sent ----------

  predicate BitmapHas(bitmap: seq<bits>, g: nat) {
    g / 8 < |bitmap| && Bit(bitmap[g / 8], g % 8)
  }

  /** Byte by byte, the least significant bit first. */
  lemma BitmapHasIs(bitmap: seq<bits>, g: nat)
    ensures BitmapHas(bitmap, g) <==> g < 8 * |bitmap| && (bitmap[g / 8] >> (g % 8)) & 1 == 1
  {
    if g < 8 * |bitmap| { BitIs(bitmap[g / 8], g % 8); }
  }

  /** Mark the chunks of one stream that a resume bitmap says the daemon already has. */
  method ResumeStream(s: StreamState, bitmap: seq<bits>) returns (skipped: nat)
    requires s.Valid()
    modifies s`acked, s`nAcked, s`scanCursor
    ensures s.Valid()
    ensures forall c :: 0 <= c < s.chunkCount ==> (s.acked[c] <==> old(s.acked)[c] || BitmapHas(bitmap, s.chunkBase + c))
    ensures skipped == s.nAcked - old(s.nAcked)
  {
    hide BitmapHas, Stream.Valid, CountTrue;
    skipped := 0;
    for c := 0 to s.chunkCount
      modifies s`acked, s`nAcked, s`scanCursor
      invariant s.Valid()
      invariant forall x :: 0 <= x < s.chunkCount ==>
                  (s.acked[x] <==> old(s.acked)[x] || (x < c && BitmapHas(bitmap, s.chunkBase + x)))
      invariant skipped == s.nAcked - old(s.nAcked)
    {
      if BitmapHas(bitmap, s.chunkBase + c) {
        var newly := Mark(s, c);
        if newly { skipped := skipped + 1; }
      }
    }
  }

  /** `mark_acked`, with its effect on the counter. */
  method Mark(s: StreamState, c: nat) returns (newly: bool)
    requires s.Valid() && c < s.chunkCount
    modifies s`acked, s`nAcked, s`scanCursor
    ensures s.Valid() && s.acked == old(s.acked)[c := true]
    ensures s.nAcked == old(s.nAcked) + if newly then 1 else 0
    ensures newly <==> !old(s.acked)[c]
  {
    if !s.acked[c] { CountTrueUpdate(s.acked, c); }
    newly := s.MarkAcked(c);
  }

  /** Mark every stream's chunks that a resume bitmap says the daemon already has. */
  method PreMarkResume(streams: seq<StreamState>, bitmap: seq<bits>)
    requires AllValid(streams)
    modifies streams
    ensures AllValid(streams)
    ensures forall i :: 0 <= i < |streams| ==> streams[i].hcApplied == old(streams[i].hcApplied)
    ensures forall i :: 0 <= i < |streams| ==> streams[i].View() == old(streams[i].View()).(acked := streams[i].acked)
    ensures forall i, c :: 0 <= i < |streams| && 0 <= c < streams[i].chunkCount ==>
              (streams[i].acked[c] <==> old(streams[i].acked)[c] || BitmapHas(bitmap, streams[i].chunkBase + c))
  {
    hide BitmapHas, Stream.Valid, StreamState.Valid;
    for k := 0 to |streams|
      modifies streams
      invariant AllValid(streams)
      invariant forall i :: 0 <= i < |streams| ==> streams[i].hcApplied == old(streams[i].hcApplied)
      invariant forall i :: 0 <= i < |streams| ==> streams[i].View() == old(streams[i].View()).(acked := streams[i].acked)
      invariant forall i :: k <= i < |streams| ==> streams[i].acked == old(streams[i].acked)
      invariant forall i :: 0 <= i < k ==> |streams[i].acked| == |old(streams[i].acked)| == streams[i].chunkCount
      invariant forall i, c :: 0 <= i < k && 0 <= c < streams[i].chunkCount ==>
                  (streams[i].acked[c] <==> old(streams[i].acked)[c] || BitmapHas(bitmap, streams[i].chunkBase + c))
    {
      Lengths(streams[k]);
      var _ := ResumeStream(streams[k], bitmap);
      Lengths(streams[k]);
    }
  }

  lemma Lengths(s: StreamState)
    requires s.Valid()
    ensures |s.acked| == s.chunkCount
  {}

  /** No chunk belongs to two streams. */
  ghost predicate Disjoint(streams: seq<StreamState>) {
    forall i, j :: 0 <= i < j < |streams| ==>
      || streams[i].chunkBase + streams[i].chunkCount <= streams[j].chunkBase
      || streams[j].chunkBase + streams[j].chunkCount <= streams[i].chunkBase
  }

  /** Mark global chunk g in the stream that owns it, if any. */
  method MarkGlobal(streams: seq<StreamState>, g: nat)
    requires AllValid(streams) && Disjoint(streams)
    modifies streams
    ensures AllValid(streams)
    ensures forall i :: 0 <= i < |streams| ==> streams[i].hcApplied == old(streams[i].hcApplied)
    ensures forall i :: 0 <= i < |streams| ==> streams[i].View() == old(streams[i].View()).(acked := streams[i].acked)
    ensures forall i, c :: 0 <= i < |streams| && 0 <= c < streams[i].chunkCount ==>
              (streams[i].acked[c] <==> old(streams[i].acked)[c] || streams[i].chunkBase + c == g)
  {
    hide Stream.Valid, CountTrue;
    for k := 0 to |streams|
      invariant forall i :: 0 <= i < k ==> !(streams[i].chunkBase <= g < streams[i].chunkBase + streams[i].chunkCount)
    {
      if g >= streams[k].chunkBase && g < streams[k].chunkBase + streams[k].chunkCount {
        var _ := streams[k].MarkAcked(g - streams[k].chunkBase);
        return;
      }
    }
  }

  /** Mark the run of n chunks from first. */
  method MarkRun(streams: seq<StreamState>, first: nat, n: nat)
    requires AllValid(streams) && Disjoint(streams)
    modifies streams
    ensures AllValid(streams)
    ensures forall i :: 0 <= i < |streams| ==> streams[i].hcApplied == old(streams[i].hcApplied)
    ensures forall i :: 0 <= i < |streams| ==> streams[i].View() == old(streams[i].View()).(acked := streams[i].acked)
    ensures forall i, c :: 0 <= i < |streams| && 0 <= c < streams[i].chunkCount ==>
              (streams[i].acked[c] <==> old(streams[i].acked)[c] || first <= streams[i].chunkBase + c < first + n)
  {
    hide Stream.Valid, CountTrue, Truncates, Disjoint;
    for g := first to first + n
      modifies streams
      invariant AllValid(streams)
      invariant forall i :: 0 <= i < |streams| ==> streams[i].hcApplied == old(streams[i].hcApplied)
      invariant forall i :: 0 <= i < |streams| ==> streams[i].View() == old(streams[i].View()).(acked := streams[i].acked)
      invariant forall i, c :: 0 <= i < |streams| && 0 <= c < streams[i].chunkCount ==>
                  (streams[i].acked[c] <==> old(streams[i].acked)[c] || first <= streams[i].chunkBase + c < g)
    {
      MarkGlobal(streams, g);
    }
  }

  /** Chunk g lies in one of the runs. */
  predicate InRuns(runs: seq<(nat, nat)>, g: nat) { exists k :: 0 <= k < |runs| && runs[k].0 <= g < runs[k].0 + runs[k].1 }

  lemma InRunsStep(runs: seq<(nat, nat)>, r: nat)
    requires r < |runs|
    ensures forall g :: InRuns(runs[..r + 1], g) <==> InRuns(runs[..r], g) || runs[r].0 <= g < runs[r].0 + runs[r].1
  {
    forall g: nat ensures InRuns(runs[..r + 1], g) <==> InRuns(runs[..r], g) || runs[r].0 <= g < runs[r].0 + runs[r].1 {
      assert runs[..r + 1][r] == runs[r];
      forall k | 0 <= k < r ensures runs[..r + 1][k] == runs[..r][k] {}
      if k :| 0 <= k < r && runs[..r][k].0 <= g < runs[..r][k].0 + runs[..r][k].1 { assert runs[..r + 1][k] == runs[..r][k]; }
    }
  }

  /** Mark the chunks that lie inside holes of the source. */
  method PreMarkZeroRuns(streams: seq<StreamState>, runs: seq<(nat, nat)>)
    requires AllValid(streams) && Disjoint(streams)
    modifies streams
    ensures AllValid(streams)
    ensures forall i :: 0 <= i < |streams| ==> streams[i].hcApplied == old(streams[i].hcApplied)
    ensures forall i :: 0 <= i < |streams| ==> streams[i].View() == old(streams[i].View()).(acked := streams[i].acked)
    ensures forall i, c :: 0 <= i < |streams| && 0 <= c < streams[i].chunkCount ==>
              (streams[i].acked[c] <==> old(streams[i].acked)[c] || InRuns(runs, streams[i].chunkBase + c))
  {
    hide Stream.Valid, CountTrue, Truncates, InRuns, Disjoint;
    NoRuns();
    assert runs[..0] == [];
    for r := 0 to |runs|
      modifies streams
      invariant AllValid(streams)
      invariant forall i :: 0 <= i < |streams| ==> streams[i].hcApplied == old(streams[i].hcApplied)
      invariant forall i :: 0 <= i < |streams| ==> streams[i].View() == old(streams[i].View()).(acked := streams[i].acked)
      invariant forall i, c :: 0 <= i < |streams| && 0 <= c < streams[i].chunkCount ==>
                  (streams[i].acked[c] <==> old(streams[i].acked)[c] || InRuns(runs[..r], streams[i].chunkBase + c))
    {
      InRunsStep(runs, r);
      MarkRun(streams, runs[r].0, runs[r].1);
    }
    assert runs[..|runs|] == runs;
  }

  lemma NoRuns()
    ensures forall g :: !InRuns([], g)
  {}

  // ---------- the start of a transfer ----------

  lemma {:induction false} TiledApart(streams: seq<Stream>, total: nat)
    requires Tiled(streams, total)
    ensures forall i :: 0 <= i < |streams| ==> streams[i].base + streams[i].Count() <= total
    ensures forall i, j :: 0 <= i < j < |streams| ==> streams[i].base + streams[i].Count() <= streams[j].base
    decreases |streams|
  {
    if streams != [] {
      var n := |streams| - 1;
      TiledApart(streams[..n], streams[n].base);
      forall i | 0 <= i < n ensures streams[..n][i] == streams[i] {}
    }
  }

  /** A chunk the daemon already has: named by the resume bitmap, or inside a run of zeros. */
  predicate Had(resume: Option<seq<bits>>, runs: seq<(nat, nat)>, g: nat) {
    (resume.Some? && BitmapHas(resume.value, g)) || InRuns(runs, g)
  }

  /** The transfer about to begin: nothing sent, and a daemon that has marked what the streams have. */
  ghost function StartOf(file: seq<u8>, payload: nat, streams: seq<Stream>, out: seq<u8>): Sys {
    Sys(file, payload, streams,
        seq(|streams|, i requires 0 <= i < |streams| => seq(streams[i].Count(), _ => 0)), 0, {},
        seq(|streams|, i requires 0 <= i < |streams| => streams[i].acked), out, {}, {}, {})
  }

  lemma StartIsInit(file: seq<u8>, payload: nat, streams: seq<Stream>, out: seq<u8>)
    requires payload > 0 && |out| == |file| && Tiled(streams, TotalChunks(|file|, payload))
    requires forall i :: 0 <= i < |streams| ==> streams[i].Valid() && streams[i].StampedBy(0)
    requires forall i, c :: 0 <= i < |streams| && 0 <= c < streams[i].Count() && streams[i].acked[c] ==>
               Agrees(file, out, payload, streams[i].base + c)
    ensures Init(StartOf(file, payload, streams, out))
  {
    hide Agrees, TotalChunks, Stream.Valid, Stream.StampedBy, Tiled, StartOf;
    var s := StartOf(file, payload, streams, out);
    StartParts(file, payload, streams, out);
    TiledApart(streams, TotalChunks(|file|, payload));
    forall i | 0 <= i < |s.streams| ensures ShapedStream(s, i) { StartAt(file, payload, streams, out, i); }
    forall i | 0 <= i < |s.streams| ensures Unsent(s, i) { StartAt(file, payload, streams, out, i); }
  }

  lemma StartParts(file: seq<u8>, payload: nat, streams: seq<Stream>, out: seq<u8>)
    ensures var s := StartOf(file, payload, streams, out);
      && s.file == file && s.payload == payload && s.streams == streams && s.out == out && s.clock == 0
      && |s.received| == |s.sends| == |streams| && s.data == {} && s.acks == {} && s.samples == {} && s.extra == {}
  {}

  lemma StartAt(file: seq<u8>, payload: nat, streams: seq<Stream>, out: seq<u8>, i: nat)
    requires i < |streams|
    ensures var s := StartOf(file, payload, streams, out);
      && |s.received| == |s.sends| == |streams| && s.received[i] == streams[i].acked
      && |s.sends[i]| == streams[i].Count() && forall c :: 0 <= c < |s.sends[i]| ==> s.sends[i][c] == 0
  {}

  lemma NoChunks(payload: nat)
    requires payload > 0
    ensures TotalChunks(0, payload) == 0
  {}

  lemma NewOnes(streams: seq<StreamState>)
    requires forall i, j :: 0 <= i < j < |streams| ==> streams[i] != streams[j]
    requires forall i :: 0 <= i < |streams| ==> IsNew(streams[i])
    ensures AllValid(streams)
    ensures forall i :: 0 <= i < |streams| ==>
      && streams[i].View() == NewStream(streams[i].chunkBase, streams[i].chunkCount) && streams[i].hcApplied == 0
  {}

  /** Divide the chunks, mark what the daemon has, and the transfer can begin. */
  method StartTransfer(file: seq<u8>, payload: nat, numStreams: nat, resume: Option<seq<bits>>, runs: seq<(nat, nat)>,
                       ghost out: seq<u8>)
    returns (streams: seq<StreamState>)
    requires payload > 0 && |out| == |file| && TotalChunks(|file|, payload) < U64
    requires numStreams > 0 || file == []
    requires forall g :: 0 <= g < TotalChunks(|file|, payload) && Had(resume, runs, g) ==> Agrees(file, out, payload, g)
    ensures |streams| == numStreams && fresh(streams) && AllValid(streams)
    ensures forall i :: 0 <= i < |streams| ==> streams[i].PrefixApplied()
    ensures forall i, c :: 0 <= i < |streams| && 0 <= c < streams[i].chunkCount ==>
              (streams[i].acked[c] <==> Had(resume, runs, streams[i].chunkBase + c))
    ensures Init(StartOf(file, payload, Views(streams), out))
  {
    hide Agrees, TotalChunks, Stream.Valid, Stream.StampedBy, StreamState.Valid, StreamState.PrefixApplied, Tiled, Had, StartOf;
    var total := TotalChunks(|file|, payload);
    assert file == [] ==> total == 0 by { NoChunks(payload); }
    streams := BuildMarked(total, numStreams, resume, runs);
    ViewsAre(streams);
    TiledApart(Views(streams), total);
    StartIsInit(file, payload, Views(streams), out);
  }

  /** The divided and marked streams. */
  method BuildMarked(total: nat, numStreams: nat, resume: Option<seq<bits>>, runs: seq<(nat, nat)>)
    returns (streams: seq<StreamState>)
    requires total < U64 && (numStreams > 0 || total == 0)
    ensures |streams| == numStreams && fresh(streams) && AllValid(streams) && Tiled(Views(streams), total)
    ensures forall i :: 0 <= i < |streams| ==> streams[i].PrefixApplied() && streams[i].View().StampedBy(0)
    ensures forall i, c :: 0 <= i < |streams| && 0 <= c < streams[i].chunkCount ==>
              (streams[i].acked[c] <==> Had(resume, runs, streams[i].chunkBase + c))
  {
    hide Tiled, Had, Disjoint, StreamState.Valid, IsNew;
    streams := BuildStreams(total, numStreams);
    NewOnes(streams);
    ViewsOfNew(streams);
    TiledApart(Views(streams), total);
    AreDisjoint(streams);
    ghost var built := Views(streams);
    PreMark(streams, resume, runs);
    AllLengths(streams);
    TiledSame(built, Views(streams), total);
  }

  lemma AreDisjoint(streams: seq<StreamState>)
    requires forall i, j :: 0 <= i < j < |streams| ==>
               streams[i].chunkBase + streams[i].chunkCount <= streams[j].chunkBase
    ensures Disjoint(streams)
  {}

  lemma AllLengths(streams: seq<StreamState>)
    requires AllValid(streams)
    ensures forall i :: 0 <= i < |streams| ==> |streams[i].acked| == streams[i].chunkCount
  {}

  lemma ViewsAre(streams: seq<StreamState>)
    requires AllValid(streams)
    ensures forall i :: 0 <= i < |streams| ==>
      && Views(streams)[i] == streams[i].View() && streams[i].View().Valid()
      && Views(streams)[i].acked == streams[i].acked && Views(streams)[i].Count() == streams[i].chunkCount
      && Views(streams)[i].base == streams[i].chunkBase
  {}

  /** Both kinds of marking, one after the other. */
  method PreMark(streams: seq<StreamState>, resume: Option<seq<bits>>, runs: seq<(nat, nat)>)
    requires AllValid(streams) && Disjoint(streams)
    modifies streams
    ensures AllValid(streams)
    ensures forall i :: 0 <= i < |streams| ==> streams[i].hcApplied == old(streams[i].hcApplied)
    ensures forall i :: 0 <= i < |streams| ==> streams[i].View() == old(streams[i].View()).(acked := streams[i].acked)
    ensures forall i, c :: 0 <= i < |streams| && 0 <= c < streams[i].chunkCount ==>
              |old(streams[i].acked)| == streams[i].chunkCount && |streams[i].acked| == streams[i].chunkCount &&
              (streams[i].acked[c] <==> old(streams[i].acked)[c] || Had(resume, runs, streams[i].chunkBase + c))
  {
    hide Stream.Valid, StreamState.Valid, BitmapHas, InRuns, Disjoint;
    AllLengths(streams);
    if resume.Some? { PreMarkResume(streams, resume.value); }
    AllLengths(streams);
    PreMarkZeroRuns(streams, runs);
    AllLengths(streams);
  }

  // ---------- the retransmit scan ----------

  /** The retransmit scan: recompute the bytes in flight from the counters, queue the timed-out
      chunks of every stream and take them off. The result never exceeds the bytes outstanding,
      and is exactly those when every stream is tidy. */
  method RetransmitScan(streams: seq<StreamState>, wire: nat, nowUs: u32, timeoutUs: u32, ghost now: nat)
    returns (inFlight: nat, lost: seq<nat>)
    requires AllValid(streams) && nowUs == now % U32
    requires forall i :: 0 <= i < |streams| ==> streams[i].View().StampedBy(now)
    modifies streams
    ensures AllValid(streams)
    ensures Views(streams) == ScanAll(old(Views(streams)), now, timeoutUs, Wrapping)
    ensures lost == LostAll(old(Views(streams)), now, timeoutUs, Wrapping)
    ensures inFlight == Recount(old(Views(streams)), wire, now, timeoutUs, Wrapping)
    ensures inFlight <= wire * SumOutstanding(Views(streams))
    ensures (forall i :: 0 <= i < |streams| ==> Tidy(old(Views(streams))[i])) ==>
              inFlight == wire * SumOutstanding(Views(streams))
  {
    hide Scan, Stream.Valid, StreamState.Valid, SumSent, SumAcked, SumQueued, SumOutstanding, LostAll, Tidy;
    ghost var before := Views(streams);
    AllViewsValid(streams);
    var counted := Counted(streams, wire);
    ghost var left := SatSub(SatSub(SumSent(before), SumAcked(before)), SumQueued(before));
    inFlight, lost := ScanEach(streams, wire, nowUs, timeoutUs, now, counted, left);
    RecountIsOutstanding(before, wire, now, timeoutUs, Wrapping);
  }

  /** Scan every stream in turn, taking each timed-out chunk's bytes off. */
  method ScanEach(streams: seq<StreamState>, wire: nat, nowUs: u32, timeoutUs: u32, ghost now: nat, counted: nat,
                  ghost chunks: nat)
    returns (inFlight: nat, lost: seq<nat>)
    requires AllValid(streams) && nowUs == now % U32 && counted == wire * chunks
    requires forall i :: 0 <= i < |streams| ==> streams[i].View().Valid() && streams[i].View().StampedBy(now)
    modifies streams
    ensures AllValid(streams)
    ensures Views(streams) == ScanAll(old(Views(streams)), now, timeoutUs, Wrapping)
    ensures lost == LostAll(old(Views(streams)), now, timeoutUs, Wrapping)
    ensures inFlight == wire * SatSub(chunks, |lost|)
  {
    hide Scan, Stream.Valid, StreamState.Valid, LostAll, Stream.StampedBy, SatSub;
    ghost var before := Views(streams);
    inFlight := counted;
    NothingLost(now, timeoutUs, chunks);
    lost := [];
    for k := 0 to |streams|
      modifies streams
      invariant AllValid(streams)
      invariant forall i :: 0 <= i < k ==> streams[i].View() == Scan(before[i], now, timeoutUs, Wrapping).0
      invariant forall i :: k <= i < |streams| ==> streams[i].View() == before[i]
      invariant lost == LostAll(before[..k], now, timeoutUs, Wrapping)
      invariant inFlight == wire * SatSub(chunks, |lost|)
    {
      var l := streams[k].QueueTimedOut(nowUs, timeoutUs, now);
      inFlight := TakeOff(inFlight, wire, |l|, chunks, |lost|);
      LostAllStep(before, k, now, timeoutUs);
      assert l == Globals(before[k].base, Scan(before[k], now, timeoutUs, Wrapping).1);
      lost := lost + l;
    }
    assert before[..|streams|] == before;
  }

  lemma NothingLost(now: nat, timeout: nat, chunks: nat)
    ensures LostAll([], now, timeout, Wrapping) == [] && SatSub(chunks, 0) == chunks
  {}

  lemma LostAllStep(streams: seq<Stream>, k: nat, now: nat, timeout: nat)
    requires k < |streams| && forall i :: 0 <= i < |streams| ==> streams[i].Valid() && streams[i].StampedBy(now)
    ensures LostAll(streams[..k + 1], now, timeout, Wrapping) ==
            LostAll(streams[..k], now, timeout, Wrapping) + Globals(streams[k].base, Scan(streams[k], now, timeout, Wrapping).1)
  {
    hide Scan, Stream.Valid, Stream.StampedBy;
    assert streams[..k + 1][..k] == streams[..k];
  }

  method TakeOff(inFlight: nat, wire: nat, n: nat, ghost chunks: nat, ghost lost: nat) returns (r: nat)
    requires inFlight == wire * SatSub(chunks, lost)
    ensures r == SatSub(inFlight, wire * n) == wire * SatSub(chunks, lost + n)
  {
    SatSubScaled(wire, SatSub(chunks, lost), n);
    r := SatSub(inFlight, wire * n);
  }

  lemma SatSubScaled(wire: nat, a: nat, b: nat)
    ensures SatSub(wire * a, wire * b) == wire * SatSub(a, b)
  {
    if a <= b { MulMono(a, b, wire); } else { MulMono(b, a, wire); assert wire * (a - b) == wire * a - wire * b; }
  }

  lemma AllViewsValid(streams: seq<StreamState>)
    requires AllValid(streams)
    ensures forall i :: 0 <= i < |streams| ==> streams[i].View().Valid()
  {}

  /** Bytes in flight from the counters alone: sent less acked less queued, each subtraction
      stopping at zero. */
  method Counted(streams: seq<StreamState>, wire: nat) returns (inFlight: nat)
    requires AllValid(streams)
    ensures inFlight == wire * SatSub(SatSub(SumSent(Views(streams)), SumAcked(Views(streams))), SumQueued(Views(streams)))
  {
    hide Stream.Valid, CountTrue;
    var pending, sent, acked := 0, 0, 0;
    for k := 0 to |streams|
      invariant pending == SumQueued(Views(streams)[..k])
      invariant sent == SumSent(Views(streams)[..k])
      invariant acked == SumAcked(Views(streams)[..k])
    {
      assert Views(streams)[..k + 1][..k] == Views(streams)[..k];
      pending := pending + |streams[k].retxQueue|;
      sent := sent + Min(streams[k].nextLocal, streams[k].chunkCount);
      acked := acked + streams[k].nAcked;
    }
    assert Views(streams)[..|streams|] == Views(streams);
    inFlight := SatSub(SatSub(sent, acked), pending) * wire;
  }
}
