/** How a path's bytes are rendered as text: well-formed UTF-8 is kept, and each maximal ill-formed
    piece (section 3.9 of the Unicode Standard) becomes one replacement character. */
module Utf8 {
  import opened Words

  /** U+FFFD in UTF-8. */
  const REPLACEMENT: seq<u8> := [0xEF, 0xBF, 0xBD]

  predicate Continues(s: seq<u8>, i: nat) { i < |s| && 0x80 <= s[i] <= 0xBF }

  /** Bytes announced by a leading byte; 0 for a byte that cannot lead. */
  function Width(b: u8): nat {
    if b < 0x80 then 1
    else if b < 0xC2 then 0
    else if b < 0xE0 then 2
    else if b < 0xF0 then 3
    else if b < 0xF5 then 4
    else 0
  }

  /** The second byte of a longer character, narrowed after some leading bytes to shut out overlong forms,
      surrogates and values past U+10FFFF. */
  predicate SecondFits(s: seq<u8>)
    requires s != []
  {
    && Continues(s, 1)
    && (s[0] == 0xE0 ==> s[1] >= 0xA0)
    && (s[0] == 0xED ==> s[1] <= 0x9F)
    && (s[0] == 0xF0 ==> s[1] >= 0x90)
    && (s[0] == 0xF4 ==> s[1] <= 0x8F)
  }

  /** The first piece of s: its length, and whether it is a whole character. */
  function Piece(s: seq<u8>): (r: (nat, bool))
    requires s != []
    ensures 0 < r.0 <= |s|
  {
    var w := Width(s[0]);
    if w == 1 then (1, true)
    else if w == 0 || !SecondFits(s) then (1, false)
    else if w == 2 then (2, true)
    else if !Continues(s, 2) then (2, false)
    else if w == 3 then (3, true)
    else if !Continues(s, 3) then (3, false)
    else (4, true)
  }

  /** The rendering of a byte string as text. */
  function Lossy(s: seq<u8>): seq<u8>
    decreases |s|
  {
    if s == [] then []
    else
      var (n, whole) := Piece(s);
      (if whole then s[..n] else REPLACEMENT) + Lossy(s[n..])
  }

  predicate WellFormed(s: seq<u8>)
    decreases |s|
  {
    s == [] || (Piece(s).1 && WellFormed(s[Piece(s).0..]))
  }

  /** A whole character is read the same whatever follows it. */
  lemma WholePiece(s: seq<u8>, rest: seq<u8>)
    requires s != [] && Piece(s).1
    ensures Piece(s[..Piece(s).0] + rest) == Piece(s)
  {
    var n := Piece(s).0;
    var t := s[..n] + rest;
    assert forall i :: 0 <= i < n ==> t[i] == s[i];
  }

  lemma {:induction false} LossyIsWellFormed(s: seq<u8>)
    ensures WellFormed(Lossy(s))
    decreases |s|
  {
    if s != [] {
      var (n, whole) := Piece(s);
      var rest := Lossy(s[n..]);
      LossyIsWellFormed(s[n..]);
      if whole {
        WholePiece(s, rest);
        assert (s[..n] + rest)[n..] == rest;
      } else {
        assert Piece(REPLACEMENT + rest) == (3, true) && (REPLACEMENT + rest)[3..] == rest;
      }
    }
  }

  lemma {:induction false} WellFormedIsKept(s: seq<u8>)
    requires WellFormed(s)
    ensures Lossy(s) == s
    decreases |s|
  {
    if s != [] {
      var n := Piece(s).0;
      WellFormedIsKept(s[n..]);
      assert s[..n] + s[n..] == s;
    }
  }

  /** Rendering changes a string exactly when it is not well formed. */
  lemma LossyIffIllFormed(s: seq<u8>)
    ensures Lossy(s) == s <==> WellFormed(s)
  {
    if WellFormed(s) { WellFormedIsKept(s); } else { LossyIsWellFormed(s); }
  }

  // ---------- Unicode scalar values ----------

  /** A code point that can be encoded: up to U+10FFFF and not a surrogate. */
  predicate Scalar(v: nat) { v < 0xD800 || 0xE000 <= v < 0x11_0000 }

  /** The bytes of a scalar value: seven bits in one byte, or six in each continuation byte and the rest in the
      leading one. */
  function Encode(v: nat): seq<u8>
    requires Scalar(v)
  {
    if v < 0x80 then [v]
    else if v < 0x800 then [0xC0 + v / 64, 0x80 + v % 64]
    else if v < 0x1_0000 then [0xE0 + v / 4096, 0x80 + v / 64 % 64, 0x80 + v % 64]
    else [0xF0 + v / 26_2144, 0x80 + v / 4096 % 64, 0x80 + v / 64 % 64, 0x80 + v % 64]
  }

  function EncodeAll(vs: seq<nat>): seq<u8>
    requires forall i :: 0 <= i < |vs| ==> Scalar(vs[i])
  {
    if vs == [] then [] else Encode(vs[0]) + EncodeAll(vs[1..])
  }

  /** An encoded scalar value is read as one whole character, whatever follows it. */
  lemma EncodedIsWhole(v: nat, rest: seq<u8>)
    requires Scalar(v)
    ensures Piece(Encode(v) + rest) == (|Encode(v)|, true)
  {
    var s := Encode(v) + rest;
    assert forall i :: 0 <= i < |Encode(v)| ==> s[i] == Encode(v)[i];
  }

  /** The six low bits and the rest. */
  lemma Digits(x: nat, y: nat)
    requires y < 64
    ensures (64 * x + y) / 64 == x && (64 * x + y) % 64 == y
  {}

  lemma Thousands(v: nat)
    ensures v / 4096 == v / 64 / 64 && v / 26_2144 == v / 64 / 64 / 64
  {}

  lemma TwoBytes(a: nat, b: nat)
    requires 2 <= a < 32 && b < 64
    ensures var v := 64 * a + b; Scalar(v) && Encode(v) == [0xC0 + a, 0x80 + b]
  {
    Digits(a, b);
  }

  lemma ThreeBytes(a: nat, b: nat, c: nat)
    requires a < 16 && b < 64 && c < 64 && (a == 0 ==> b >= 32) && (a == 13 ==> b < 32)
    ensures var v := 64 * (64 * a + b) + c; Scalar(v) && Encode(v) == [0xE0 + a, 0x80 + b, 0x80 + c]
  {
    Digits(a, b);
    Digits(64 * a + b, c);
    Thousands(64 * (64 * a + b) + c);
  }

  lemma FourBytes(a: nat, b: nat, c: nat, d: nat)
    requires a < 5 && b < 64 && c < 64 && d < 64 && (a == 0 ==> b >= 16) && (a == 4 ==> b < 16)
    ensures var v := 64 * (64 * (64 * a + b) + c) + d; Scalar(v) && Encode(v) == [0xF0 + a, 0x80 + b, 0x80 + c, 0x80 + d]
  {
    Digits(a, b);
    Digits(64 * a + b, c);
    Digits(64 * (64 * a + b) + c, d);
    Thousands(64 * (64 * (64 * a + b) + c) + d);
  }

  /** And a whole character is an encoded scalar value. */
  lemma WholeIsEncoded(s: seq<u8>) returns (v: nat)
    requires s != [] && Piece(s).1
    ensures Scalar(v) && s[..Piece(s).0] == Encode(v)
  {
    var n := Piece(s).0;
    v := s[0];
    if n > 1 {
      var b: nat := s[1] - 0x80;
      if n == 2 {
        var a: nat := s[0] - 0xC0;
        v := 64 * a + b;
        TwoBytes(a, b);
      } else {
        var c: nat := s[2] - 0x80;
        if n == 3 {
          var a: nat := s[0] - 0xE0;
          v := 64 * (64 * a + b) + c;
          ThreeBytes(a, b, c);
        } else {
          var a: nat, d: nat := s[0] - 0xF0, s[3] - 0x80;
          v := 64 * (64 * (64 * a + b) + c) + d;
          FourBytes(a, b, c, d);
        }
      }
      hide Encode;
    }
  }

  lemma {:induction false} WellFormedDecodes(s: seq<u8>) returns (vs: seq<nat>)
    requires WellFormed(s)
    ensures (forall i :: 0 <= i < |vs| ==> Scalar(vs[i])) && EncodeAll(vs) == s
    decreases |s|
  {
    if s == [] {
      vs := [];
    } else {
      hide Piece, Encode, Scalar;
      var n := Piece(s).0;
      var v := WholeIsEncoded(s);
      var rest := WellFormedDecodes(s[n..]);
      vs := [v] + rest;
      assert vs[1..] == rest && s == s[..n] + s[n..];
    }
  }

  lemma {:induction false} EncodedIsWellFormed(vs: seq<nat>)
    requires forall i :: 0 <= i < |vs| ==> Scalar(vs[i])
    ensures WellFormed(EncodeAll(vs))
    decreases |vs|
  {
    hide Piece;
    if vs != [] {
      var rest := EncodeAll(vs[1..]);
      EncodedIsWellFormed(vs[1..]);
      EncodedIsWhole(vs[0], rest);
      assert (Encode(vs[0]) + rest)[|Encode(vs[0])|..] == rest;
    }
  }

  /** The strings kept as they are are exactly the encodings of sequences of Unicode scalar values. */
  lemma KeptIffEncoded(s: seq<u8>)
    ensures Lossy(s) == s <==> exists vs: seq<nat> :: (forall i :: 0 <= i < |vs| ==> Scalar(vs[i])) && EncodeAll(vs) == s
  {
    hide Lossy, WellFormed, EncodeAll;
    LossyIffIllFormed(s);
    if WellFormed(s) { var vs := WellFormedDecodes(s); }
    if vs: seq<nat> :| (forall i :: 0 <= i < |vs| ==> Scalar(vs[i])) && EncodeAll(vs) == s { EncodedIsWellFormed(vs); }
  }

  /** s starts some scalar value's encoding, without completing it. */
  ghost predicate Begins(s: seq<u8>) { exists v :: Scalar(v) && |s| < |Encode(v)| && s == Encode(v)[..|s|] }

  /** An ill-formed piece is one byte, or the start of a character; and with the byte after it, it is not. */
  lemma IllFormedIsMaximal(s: seq<u8>)
    requires s != [] && !Piece(s).1
    ensures var n := Piece(s).0; (n == 1 || Begins(s[..n])) && (n < |s| ==> !Begins(s[..n + 1]))
  {
    var n := Piece(s).0;
    if n > 1 { PieceBegins(s); }
    if n < |s| && Begins(s[..n + 1]) {
      var v :| Scalar(v) && n + 1 < |Encode(v)| && s[..n + 1] == Encode(v)[..n + 1];
      BeginningIsRead(s, v, n + 1);
      assert false;
    }
  }

  lemma PieceBegins(s: seq<u8>)
    requires s != [] && !Piece(s).1 && Piece(s).0 > 1
    ensures Begins(s[..Piece(s).0])
  {
    var n := Piece(s).0;
    var t := s[..n] + if n == 3 then [0x80] else if Width(s[0]) == 3 then [0x80] else [0x80, 0x80];
    assert forall i :: 0 <= i < n ==> t[i] == s[i];
    assert Piece(t) == (|t|, true);
    var v := WholeIsEncoded(t);
    assert t[..|t|] == t && t[..n] == s[..n];
  }

  /** The start of a character is read past, as far as it goes. */
  lemma BeginningIsRead(s: seq<u8>, v: nat, k: nat)
    requires Scalar(v) && 0 < k < |Encode(v)| && k <= |s| && s[..k] == Encode(v)[..k]
    ensures Piece(s).0 >= k
  {
    assert forall i :: 0 <= i < k ==> s[i] == s[..k][i] == Encode(v)[i];
    EncodedIsWhole(v, []);
    assert Encode(v) + [] == Encode(v);
    var e := Encode(v);
    hide Encode, Scalar;
    assert Width(s[0]) == Width(e[0]);
  }
}
