/** Machine words as the sender uses them: 64-bit packet numbers that wrap, 32-bit
    microsecond stamps that wrap, bytes and their bits, and index ranges. */
module Words {

  const U32: nat := 0x1_0000_0000
  const U64: nat := 0x1_0000_0000_0000_0000

  type u32 = x: int | 0 <= x < U32
  type u64 = x: int | 0 <= x < U64
  /** Bytes of file contents and encodings. */
  type u8 = x: int | 0 <= x < 256

  /** Bytes that are read and written bit by bit. */
  type bits = bv8

  datatype Option<+T> = None | Some(value: T)

  function Max(a: int, b: int): int { if a < b then b else a }

  function Min(a: int, b: int): int { if a < b then a else b }

  /** `saturating_sub` on unsigned words. */
  function SatSub(a: nat, b: nat): nat { if a < b then 0 else a - b }

  /** The oldest instant a window reaches; a window longer than all of time keeps everything. */
  function Cutoff(now: nat, window: nat): nat { if window <= now then now - window else 0 }

  /** A window keeps exactly the instants at most its length ago. */
  lemma CutoffIs(now: nat, window: nat, at: nat)
    ensures at >= Cutoff(now, window) <==> at + window >= now
  {}

  function Pow(base: nat, k: nat): nat { if k == 0 then 1 else base * Pow(base, k - 1) }

  function WrappingSub32(a: u32, b: u32): u32 { (a - b) % U32 }

  function WrappingAdd64(a: u64, b: u64): u64 { if a + b < U64 as int then a + b else a + b - U64 }

  function WrappingSub64(a: u64, b: u64): u64 { if a < b then a - b + U64 else a - b }

  /** The age of a stamp as the wrapping 32-bit clock reads it, from the unbounded times. */
  function Age32(now: nat, sent: nat): u32 { (now - sent) % U32 }

  lemma WrappedStampsGiveAge32(now: nat, sent: nat)
    ensures WrappingSub32(now % U32, sent % U32) == Age32(now, sent)
  {
    assert now % U32 - sent % U32 == (now - sent) - U32 * (now / U32 - sent / U32);
  }

  lemma MulMono(a: nat, b: nat, m: nat)
    requires a <= b
    ensures a * m <= b * m
  {
    assert b * m == a * m + (b - a) * m;
  }

  // ---------- bits, least significant first ----------

  function Mask(k: nat): bits
    requires k < 8
  {
    [1, 2, 4, 8, 16, 32, 64, 128][k]
  }

  predicate Bit(b: bits, k: nat)
    requires k < 8
  {
    b & Mask(k) != 0
  }

  /** Bit k is the k-th binary digit, the least significant first. */
  lemma BitIs(b: bits, k: nat)
    requires k < 8
    ensures Bit(b, k) <==> (b >> k) & 1 == 1
  {
    assert k == 0 || k == 1 || k == 2 || k == 3 || k == 4 || k == 5 || k == 6 || k == 7;
  }

  function SetBit(b: bits, k: nat): bits
    requires k < 8
  {
    b | Mask(k)
  }

  lemma SetBitMeaning(b: bits, k: nat, j: nat)
    requires k < 8 && j < 8
    ensures Bit(SetBit(b, k), j) == (j == k || Bit(b, j))
  {
    assert Mask(k) & Mask(j) == if k == j then Mask(j) else 0;
  }

  /** A bitmap as it travels in an ACK: its length field has sixteen bits. */
  type Bitmap = b: seq<bits> | |b| < 0x1_0000

  predicate BitAt(bitmap: seq<bits>, i: nat)
    requires i < 8 * |bitmap|
  {
    Bit(bitmap[i / 8], i % 8)
  }

  /** lo, lo + 1, ..., hi - 1; empty when hi <= lo. */
  function Range(lo: nat, hi: int): seq<nat> {
    seq(if lo < hi then hi - lo else 0, i requires 0 <= i => lo + i)
  }

  lemma RangeSnoc(lo: nat, hi: nat)
    requires lo <= hi
    ensures Range(lo, hi + 1) == Range(lo, hi) + [hi]
  {}

  /** How many entries of a table of marks are set. */
  function CountTrue(s: seq<bool>): (n: nat)
    ensures n <= |s|
  {
    if s == [] then 0 else CountTrue(s[..|s| - 1]) + if s[|s| - 1] then 1 else 0
  }

  lemma {:induction false} CountTrueUpdate(s: seq<bool>, i: nat)
    requires i < |s| && !s[i]
    ensures CountTrue(s[i := true]) == CountTrue(s) + 1
  {
    var t := s[i := true];
    if i == |s| - 1 {
      assert t[..|s| - 1] == s[..|s| - 1];
    } else {
      assert t[..|s| - 1] == s[..|s| - 1][i := true];
      CountTrueUpdate(s[..|s| - 1], i);
    }
  }

  lemma {:induction false} CountTrueFull(s: seq<bool>)
    ensures CountTrue(s) == |s| <==> forall i :: 0 <= i < |s| ==> s[i]
  {
    if s != [] { CountTrueFull(s[..|s| - 1]); }
  }

  lemma {:induction false} CountTrueNone(s: seq<bool>)
    requires forall i :: 0 <= i < |s| ==> !s[i]
    ensures CountTrue(s) == 0
  {
    if s != [] { CountTrueNone(s[..|s| - 1]); }
  }

  // ---------- counting with sets ----------

  ghost function Members(s: seq<nat>): set<nat> { set x | x in s }

  lemma {:induction false} DistinctCard(s: seq<nat>)
    requires forall i, j :: 0 <= i < j < |s| ==> s[i] != s[j]
    ensures |Members(s)| == |s|
  {
    if s != [] {
      var n := |s| - 1;
      DistinctCard(s[..n]);
      assert Members(s) == Members(s[..n]) + {s[n]};
    } else {
      assert Members(s) == {};
    }
  }

  ghost function UpTo(n: nat): (r: set<nat>)
    ensures |r| == n && forall c: nat :: c in r <==> c < n
  {
    if n == 0 then {} else UpTo(n - 1) + {n - 1}
  }

  lemma MinusCard(a: set<nat>, b: set<nat>)
    ensures |a - b| >= |a| - |b|
    ensures b <= a ==> |a - b| == |a| - |b|
  {
    assert |a - b| == |a| - |a * b| by { assert a == (a - b) + (a * b); }
    assert |a * b| <= |b| by { assert b == (b - a) + (a * b); }
    if b <= a { assert a * b == b; }
  }
}
