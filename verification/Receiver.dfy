/** The daemon's per-stream receive state and the ACK it builds from it. */
module Receiver {
  import opened Words
  import opened StreamSpec

  const MAX_ACK_BITMAP_BYTES: nat := 1024

  /** Chunks received without a gap from index `from` on. */
  function ContigFrom(received: seq<bool>, from: nat): (k: nat)
    requires from <= |received|
    ensures from <= k <= |received|
    ensures forall c :: from <= c < k ==> received[c]
    ensures k < |received| ==> !received[k]
    decreases |received| - from
  {
    if from < |received| && received[from] then ContigFrom(received, from + 1) else from
  }

  function Contig(received: seq<bool>): nat { ContigFrom(received, 0) }

  lemma ContigUnique(received: seq<bool>, k: nat)
    requires k <= |received| && (forall c :: 0 <= c < k ==> received[c]) && (k < |received| ==> !received[k])
    ensures k == Contig(received)
  {}

  /** `bitmap` after the first n entries of `rest` have been packed into it. */
  function Packed(rest: seq<bool>, len: nat, n: nat): (bitmap: seq<bits>)
    requires n <= |rest| && n <= 8 * len
    ensures |bitmap| == len
  {
    if n == 0 then seq(len, _ => 0)
    else
      var b := Packed(rest, len, n - 1);
      if rest[n - 1] then b[(n - 1) / 8 := SetBit(b[(n - 1) / 8], (n - 1) % 8)] else b
  }

  lemma {:induction false} PackedMeaning(rest: seq<bool>, len: nat, n: nat, i: nat)
    requires n <= |rest| && n <= 8 * len && i < 8 * len
    ensures BitAt(Packed(rest, len, n), i) <==> i < n && rest[i]
  {
    if n > 0 {
      PackedMeaning(rest, len, n - 1, i);
      if rest[n - 1] {
        SetBitMeaning(Packed(rest, len, n - 1)[(n - 1) / 8], (n - 1) % 8, i % 8);
      }
    }
  }

  function BitmapLen(remaining: nat): (len: nat)
    ensures Min(remaining, 8 * MAX_ACK_BITMAP_BYTES) <= 8 * len <= 8 * MAX_ACK_BITMAP_BYTES
  {
    Min((remaining + 7) / 8, MAX_ACK_BITMAP_BYTES)
  }

  /** The ACK for a stream: the last packet of the contiguous prefix, wrapping to one below
      the base when there is none, and the marks just past it, least significant bit first. */
  function AckFor(base: nat, received: seq<bool>): Ack
    requires base + |received| < U64
  {
    var k := Contig(received);
    var rest := received[k..];
    Ack(base, if k > 0 then base + k - 1 else WrappingSub64(base, 1),
        Packed(rest, BitmapLen(|rest|), Min(|rest|, 8 * MAX_ACK_BITMAP_BYTES)))
  }

  /** An ACK reports exactly the received chunks of the contiguous prefix and of the 8192
      chunks past it, also when nothing is contiguous and the prefix field wraps. */
  lemma AckReportsReceived(base: nat, received: seq<bool>, c: nat)
    requires base + |received| < U64 && c < |received|
    ensures Reported(base, |received|, AckFor(base, received), c) <==>
            received[c] && c < Contig(received) + 8192
  {
    var k := Contig(received);
    var rest := received[k..];
    var ack := AckFor(base, received);
    if c >= k {
      assert BitIndex(base, ack, c) == c - k;
      assert rest[c - k] == received[c];
      if c - k < 8 * |ack.bitmap| {
        PackedMeaning(rest, BitmapLen(|rest|), Min(|rest|, 8 * MAX_ACK_BITMAP_BYTES), c - k);
      }
    }
  }

  class StreamRecvState {
    const chunkBase: nat
    const chunkCount: nat
    var received: seq<bool>
    var nReceived: nat
    var contigPrefix: nat
    /** How often a chunk was marked that already was. */
    ghost var repeats: nat

    ghost predicate Valid()
      reads this
    {
      && |received| == chunkCount && chunkBase + chunkCount < U64
      && nReceived == CountTrue(received) + repeats
      && contigPrefix == Contig(received)
    }

    constructor (base: nat, count: nat)
      requires base + count < U64
      ensures Valid() && chunkBase == base && chunkCount == count
      ensures repeats == 0 && forall c :: 0 <= c < count ==> !received[c]
    {
      chunkBase, chunkCount := base, count;
      received, nReceived, contigPrefix, repeats := seq(count, _ => false), 0, 0, 0;
      new;
      CountTrueNone(received);
    }

    /** Mark a chunk and advance the prefix over any run this completes. The counter also counts a
        chunk that was marked before. */
    method MarkReceived(c: nat)
      requires Valid() && c < chunkCount
      modifies this
      ensures Valid() && received == old(received)[c := true]
      ensures nReceived == old(nReceived) + 1
      ensures repeats == old(repeats) + if old(received)[c] then 1 else 0
    {
      if received[c] {
        assert received[c := true] == received;
        repeats := repeats + 1;
      } else {
        CountTrueUpdate(received, c);
      }
      received := received[c := true];
      nReceived := nReceived + 1;
      while contigPrefix < |received| && received[contigPrefix]
        modifies this`contigPrefix
        invariant contigPrefix <= |received|
        invariant forall i :: 0 <= i < contigPrefix ==> received[i]
        decreases |received| - contigPrefix
      {
        contigPrefix := contigPrefix + 1;
      }
      ContigUnique(received, contigPrefix);
    }

    /** An arriving chunk: one outside the stream or already held is left alone, so no chunk is ever
        counted twice. */
    method OnChunk(g: nat) returns (write: bool)
      requires Valid()
      modifies this
      ensures Valid() && repeats == old(repeats)
      ensures write <==> chunkBase <= g < chunkBase + chunkCount && !old(received)[g - chunkBase]
      ensures received == if write then old(received)[g - chunkBase := true] else old(received)
    {
      write := false;
      if chunkBase <= g && g < chunkBase + chunkCount {
        if !received[g - chunkBase] {
          write := true;
          MarkReceived(g - chunkBase);
        }
      }
    }

    method BuildAck() returns (ack: Ack)
      requires Valid()
      ensures ack == AckFor(chunkBase, received)
    {
      var hc := if contigPrefix > 0 then chunkBase + contigPrefix - 1 else WrappingSub64(chunkBase, 1);
      var rest := received[contigPrefix..];
      var len := Min((|rest| + 7) / 8, MAX_ACK_BITMAP_BYTES);
      var bitmap: seq<bits> := seq(len, _ => 0);
      var i := 0;
      while i < |rest|
        invariant 0 <= i <= Min(|rest|, 8 * MAX_ACK_BITMAP_BYTES)
        invariant bitmap == Packed(rest, BitmapLen(|rest|), i)
      {
        if i >= 8 * MAX_ACK_BITMAP_BYTES {
          break;
        }
        if rest[i] {
          bitmap := bitmap[i / 8 := SetBit(bitmap[i / 8], i % 8)];
        }
        i := i + 1;
      }
      ack := Ack(chunkBase, hc, bitmap);
    }
  }
}
