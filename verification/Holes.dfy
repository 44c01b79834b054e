/** Sparse files: splitting a byte range at hole boundaries, and hashing a file window by window
    with zeros in place of its holes. */
module Holes {
  import opened Words

  const SETUP_WINDOW: nat := 32 * 1024 * 1024
  const ZEROS_LEN: nat := 64 * 1024

  datatype Hole = Hole(off: nat, len: nat) {
    function End(): nat { off + len }
  }

  datatype Segment = Segment(inHole: bool, start: nat, end: nat)

  ghost predicate SortedDisjoint(holes: seq<Hole>) {
    forall i, j :: 0 <= i < j < |holes| ==> holes[i].End() <= holes[j].off
  }

  ghost predicate InHole(holes: seq<Hole>, b: nat) {
    exists i :: 0 <= i < |holes| && holes[i].off <= b < holes[i].End()
  }

  /** The segments follow one another without gap or overlap from start to pos. */
  ghost predicate Tiles(segs: seq<Segment>, start: nat, pos: nat)
    decreases |segs|
  {
    if segs == [] then start == pos
    else
      var n := |segs| - 1;
      segs[n].end == pos && segs[n].start < pos && Tiles(segs[..n], start, segs[n].start)
  }

  /** Every byte of the segment lies on the side of the holes it claims. */
  ghost predicate Pure(holes: seq<Hole>, s: Segment) {
    forall b :: s.start <= b < s.end ==> (InHole(holes, b) <==> s.inHole)
  }

  ghost predicate AllPure(holes: seq<Hole>, segs: seq<Segment>) {
    forall i :: 0 <= i < |segs| ==> Pure(holes, segs[i])
  }

  lemma Extend(holes: seq<Hole>, segs: seq<Segment>, start: nat, s: Segment)
    requires Tiles(segs, start, s.start) && s.start < s.end && AllPure(holes, segs) && Pure(holes, s)
    ensures Tiles(segs + [s], start, s.end) && AllPure(holes, segs + [s])
  {
    assert (segs + [s])[..|segs|] == segs;
  }

  /** Between the end of hole i - 1 and the start of hole i there is no hole. */
  lemma GapIsPure(holes: seq<Hole>, i: nat, start: nat, end: nat)
    requires SortedDisjoint(holes) && i <= |holes|
    requires i > 0 ==> holes[i - 1].End() <= start
    requires i < |holes| ==> end <= holes[i].off
    ensures Pure(holes, Segment(false, start, end))
  {
    forall k | 0 <= k < |holes| ensures holes[k].End() <= start || end <= holes[k].off {
      if k < i - 1 { assert holes[k].End() <= holes[i - 1].off; }
      if k > i { assert holes[i].End() <= holes[k].off; }
    }
  }

  /** The first hole that ends after start, by bisection. */
  method PartitionPoint(holes: seq<Hole>, start: nat) returns (first: nat)
    requires SortedDisjoint(holes)
    ensures first <= |holes|
    ensures forall i :: 0 <= i < |holes| ==> (holes[i].End() <= start <==> i < first)
  {
    var lo, hi := 0, |holes|;
    while lo < hi
      invariant 0 <= lo <= hi <= |holes|
      invariant forall i :: 0 <= i < lo ==> holes[i].End() <= start
      invariant forall i :: hi <= i < |holes| ==> start < holes[i].End()
    {
      var mid := (lo + hi) / 2;
      forall i | 0 <= i < mid ensures holes[i].End() <= holes[mid].End() { assert holes[i].End() <= holes[mid].off; }
      forall i | mid < i < |holes| ensures holes[mid].End() <= holes[i].End() { assert holes[mid].End() <= holes[i].off; }
      if holes[mid].End() <= start { lo := mid + 1; } else { hi := mid; }
    }
    first := lo;
  }

  /** Split [start, end) into pieces wholly inside or wholly outside the holes. */
  method Segments(holes: seq<Hole>, start: nat, end: nat) returns (out: seq<Segment>)
    requires SortedDisjoint(holes)
    ensures start < end ==> Tiles(out, start, end)
    ensures start >= end ==> out == []
    ensures AllPure(holes, out)
  {
    out := [];
    var pos := start;
    var first := PartitionPoint(holes, start);
    var i := first;
    hide Pure;
    while i < |holes| && !(pos >= end || holes[i].off >= end)
      invariant first <= i <= |holes|
      invariant i > 0 ==> holes[i - 1].End() <= pos || end <= pos
      invariant forall k :: first <= k < |holes| ==> start < holes[k].End()
      invariant start <= pos <= Max(start, end) && Tiles(out, start, pos) && AllPure(holes, out)
      invariant start >= end ==> out == [] && pos == start
      decreases |holes| - i
    {
      var hs, he := Max(holes[i].off, pos), Min(holes[i].End(), end);
      if hs > pos {
        GapIsPure(holes, i, pos, hs);
        Extend(holes, out, start, Segment(false, pos, hs));
        out := out + [Segment(false, pos, hs)];
      }
      if he > hs {
        HolePure(holes, i, hs, he);
        Extend(holes, out, start, Segment(true, hs, he));
        out := out + [Segment(true, hs, he)];
      }
      pos := Max(pos, he);
      i := i + 1;
    }
    if pos < end {
      GapIsPure(holes, i, pos, end);
      Extend(holes, out, start, Segment(false, pos, end));
      out := out + [Segment(false, pos, end)];
    }
  }

  lemma HolePure(holes: seq<Hole>, i: nat, start: nat, end: nat)
    requires i < |holes| && holes[i].off <= start && end <= holes[i].End()
    ensures Pure(holes, Segment(true, start, end))
  {}

  // ---------- the windowed hashing loop ----------

  /** The file as the loop feeds it: zeros inside the holes. */
  ghost predicate FedUpTo(fed: seq<u8>, file: seq<u8>, holes: seq<Hole>, n: nat) {
    && |fed| == n <= |file|
    && forall i :: 0 <= i < n ==> fed[i] == if InHole(holes, i) then 0 else file[i]
  }

  ghost predicate HolesReadZero(file: seq<u8>, holes: seq<Hole>) {
    forall i :: 0 <= i < |file| && InHole(holes, i) ==> file[i] == 0
  }

  lemma FeedPiece(fed: seq<u8>, piece: seq<u8>, file: seq<u8>, holes: seq<Hole>, s: Segment)
    requires FedUpTo(fed, file, holes, s.start) && s.start <= s.end <= |file| && Pure(holes, s)
    requires piece == if s.inHole then seq(s.end - s.start, _ => 0) else file[s.start..s.end]
    ensures FedUpTo(fed + piece, file, holes, s.end)
  {
    forall i | s.start <= i < s.end ensures (fed + piece)[i] == if InHole(holes, i) then 0 else file[i] {
      assert (fed + piece)[i] == piece[i - s.start];
    }
  }

  /** A hole segment, zeros a buffer at a time. */
  method FeedZeros(n: nat) returns (piece: seq<u8>)
    ensures piece == seq(n, _ => 0)
  {
    piece := [];
    while |piece| < n
      invariant |piece| <= n && piece == seq(|piece|, _ => 0)
    {
      var k := Min(n - |piece|, ZEROS_LEN);
      piece := piece + seq(k, _ => 0);
    }
  }

  lemma {:induction false} SegmentStart(segs: seq<Segment>, start: nat, pos: nat, k: nat)
    requires Tiles(segs, start, pos) && k < |segs|
    ensures segs[k].start < segs[k].end <= pos
    ensures segs[k].start == if k == 0 then start else segs[k - 1].end
    decreases |segs|
  {
    var n := |segs| - 1;
    if k < n { SegmentStart(segs[..n], start, segs[n].start, k); }
    else if n > 0 { assert segs[..n][n - 1] == segs[n - 1]; }
  }

  /** The bytes handed to the hasher: the file, with every hole read as zeros. */
  method FeedWindows(file: seq<u8>, holes: seq<Hole>) returns (fed: seq<u8>)
    requires SortedDisjoint(holes)
    ensures FedUpTo(fed, file, holes, |file|)
    ensures fed == file <==> HolesReadZero(file, holes)
  {
    hide Pure, Tiles, InHole;
    fed := [];
    var offset := 0;
    while offset < |file|
      invariant offset <= |file| && FedUpTo(fed, file, holes, offset)
    {
      var end := Min(offset + SETUP_WINDOW, |file|);
      var segs := Segments(holes, offset, end);
      for k := 0 to |segs|
        invariant FedUpTo(fed, file, holes, if k == 0 then offset else segs[k - 1].end)
      {
        SegmentStart(segs, offset, end, k);
        var s := segs[k];
        var piece := file[s.start..s.end];
        if s.inHole { piece := FeedZeros(s.end - s.start); }
        FeedPiece(fed, piece, file, holes, s);
        fed := fed + piece;
      }
      LastEnds(segs, offset, end);
      offset := end;
    }
    assert HolesReadZero(file, holes) ==> fed == file;
  }

  lemma LastEnds(segs: seq<Segment>, start: nat, pos: nat)
    requires Tiles(segs, start, pos) && start < pos
    ensures segs != [] && segs[|segs| - 1].end == pos
  {}
}
