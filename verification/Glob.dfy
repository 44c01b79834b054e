/** The glob matcher that filters directory walks: pattern syntax, the meaning of a token list,
    and the two-row dynamic program that decides it. */
module Glob {
  import opened Words

  const SLASH: u8 := 47
  const STAR: u8 := 42
  const QUESTION: u8 := 63
  const OPEN: u8 := 91
  const CLOSE: u8 := 93
  const BANG: u8 := 33
  const CARET: u8 := 94
  const DASH: u8 := 45

  datatype Tok =
    | Lit(c: u8)
    | Any
    | Star
    | DoubleStar
    | Class(negated: bool, ranges: seq<(u8, u8)>)

  // ---------- meaning of a token list ----------

  predicate InRanges(ranges: seq<(u8, u8)>, c: u8) {
    exists i :: 0 <= i < |ranges| && ranges[i].0 <= c <= ranges[i].1
  }

  /** Whether a token that stands for one byte accepts c; only a literal accepts `/`. */
  predicate TakesByte(t: Tok, c: u8) {
    match t
    case Lit(x) => c == x
    case Any => c != SLASH
    case Class(negated, ranges) => InRanges(ranges, c) != negated && c != SLASH
    case _ => false
  }

  predicate NoSlash(text: seq<u8>) { forall i :: 0 <= i < |text| ==> text[i] != SLASH }

  /** `**` directly before a literal `/`. */
  predicate SlashFollows(toks: seq<Tok>) { |toks| > 1 && toks[1] == Lit(SLASH) }

  /** `*` stands for any run without `/`; `**` for any run; and `**` before a literal `/` may
      also stand, together with that `/`, for any run with no `/` required after it. */
  ghost predicate Matches(toks: seq<Tok>, text: seq<u8>)
    decreases |toks|
  {
    if toks == [] then text == []
    else match toks[0]
      case Star => exists k :: 0 <= k <= |text| && NoSlash(text[..k]) && Matches(toks[1..], text[k..])
      case DoubleStar =>
        || (exists k :: 0 <= k <= |text| && Matches(toks[1..], text[k..]))
        || (SlashFollows(toks) && exists k :: 0 <= k <= |text| && Matches(toks[2..], text[k..]))
      case t => text != [] && TakesByte(t, text[0]) && Matches(toks[1..], text[1..])
  }

  lemma NoSlashTail(text: seq<u8>)
    requires text != []
    ensures NoSlash(text) <==> text[0] != SLASH && NoSlash(text[1..])
  {
    forall i | 1 <= i < |text| ensures text[i] == text[1..][i - 1] {}
  }

  /** `*` matches here, or swallows one byte and matches from the next. */
  lemma StarStep(toks: seq<Tok>, text: seq<u8>)
    requires toks != [] && toks[0].Star?
    ensures Matches(toks, text) <==>
            Matches(toks[1..], text) || (text != [] && text[0] != SLASH && Matches(toks, text[1..]))
  {
    if Matches(toks, text) {
      var k :| 0 <= k <= |text| && NoSlash(text[..k]) && Matches(toks[1..], text[k..]);
      if k == 0 {
        assert text[0..] == text;
      } else {
        assert text[..k][0] == text[0];
        assert text[1..][k - 1..] == text[k..];
        NoSlashTail(text[..k]);
        assert text[..k][1..] == text[1..][..k - 1];
      }
    }
    if Matches(toks[1..], text) {
      assert text[0..] == text && NoSlash(text[..0]);
    }
    if text != [] && text[0] != SLASH && Matches(toks, text[1..]) {
      var k :| 0 <= k <= |text[1..]| && NoSlash(text[1..][..k]) && Matches(toks[1..], text[1..][k..]);
      assert text[1..][k..] == text[k + 1..];
      NoSlashTail(text[..k + 1]);
      assert text[..k + 1][1..] == text[1..][..k];
    }
  }

  /** `**` matches nothing here (or swallows a following `/` too), or swallows one byte. */
  lemma DoubleStarStep(toks: seq<Tok>, text: seq<u8>)
    requires toks != [] && toks[0].DoubleStar?
    ensures Matches(toks, text) <==>
            || Matches(toks[1..], text)
            || (SlashFollows(toks) && Matches(toks[2..], text))
            || (text != [] && Matches(toks, text[1..]))
  {
    assert text[0..] == text;
    if text != [] {
      RunStep(toks[1..], text);
      if SlashFollows(toks) { RunStep(toks[2..], text); }
    }
  }

  lemma RunStep(rest: seq<Tok>, text: seq<u8>)
    requires text != []
    ensures (exists k :: 0 <= k <= |text| && Matches(rest, text[k..])) <==>
            Matches(rest, text) || exists k :: 0 <= k <= |text[1..]| && Matches(rest, text[1..][k..])
  {
    assert text[0..] == text;
    forall k | 1 <= k <= |text| ensures text[k..] == text[1..][k - 1..] {}
    if k :| 0 <= k <= |text| && Matches(rest, text[k..]) {
      if k > 0 { assert Matches(rest, text[1..][k - 1..]); }
    }
    if k :| 0 <= k <= |text[1..]| && Matches(rest, text[1..][k..]) {
      assert text[1..][k..] == text[k + 1..];
    }
  }

  // ---------- the dynamic program ----------

  /** Two rows, filled from the right and swapped; a row about to be filled still holds the row
      of two tokens later. `**` before `/` consults a recursive match of the tokens past it. */
  method GlobToks(toks: seq<Tok>, text: seq<u8>) returns (r: bool)
    ensures r <==> Matches(toks, text)
    decreases |toks|
  {
    hide Matches;
    MatchesNone(text);
    var n, m := |toks|, |text|;
    var next := new bool[m + 1](_ => false);
    next[m] := true;
    var cur := new bool[m + 1](_ => false);
    assert toks[n..] == [] && text[m..] == [];
    for i := n downto 0
      invariant cur.Length == next.Length == m + 1 && cur != next && fresh(cur) && fresh(next)
      invariant forall j :: 0 <= j <= m ==> (next[j] <==> Matches(toks[i..], text[j..]))
    {
      var skipTwo := toks[i].DoubleStar? && i + 1 < n && toks[i + 1] == Lit(SLASH);
      for j := m + 1 downto 0
        invariant cur.Length == next.Length == m + 1 && cur != next && fresh(cur) && fresh(next)
        invariant forall k :: 0 <= k <= m ==> (next[k] <==> Matches(toks[i + 1..], text[k..]))
        invariant forall k :: j <= k <= m ==> (cur[k] <==> Matches(toks[i..], text[k..]))
      {
        RowStep(toks, text, i, j);
        match toks[i] {
          case Star => cur[j] := next[j] || (j < m && text[j] != SLASH && cur[j + 1]);
          case DoubleStar => cur[j] := next[j] || (j < m && cur[j + 1]);
          case Any => cur[j] := j < m && text[j] != SLASH && next[j + 1];
          case Lit(c) => cur[j] := j < m && text[j] == c && next[j + 1];
          case Class(negated, ranges) =>
            cur[j] := j < m && InRanges(ranges, text[j]) != negated && text[j] != SLASH && next[j + 1];
        }
        if skipTwo && !cur[j] {
          var sub := GlobToks(toks[i + 2..], text[j..]);
          if sub { cur[j] := true; }
        }
      }
      cur, next := next, cur;
    }
    assert toks[0..] == toks && text[0..] == text;
    r := next[0];
  }

  lemma MatchesNone(text: seq<u8>)
    ensures forall k :: 0 <= k <= |text| ==> (Matches([], text[k..]) <==> k == |text|)
  {}

  /** One cell from its neighbours. */
  lemma RowStep(toks: seq<Tok>, text: seq<u8>, i: nat, j: nat)
    requires i < |toks| && j <= |text|
    ensures var here, rest := toks[i..], toks[i + 1..];
      match toks[i]
      case Star => Matches(here, text[j..]) <==>
        Matches(rest, text[j..]) || (j < |text| && text[j] != SLASH && Matches(here, text[j + 1..]))
      case DoubleStar => Matches(here, text[j..]) <==>
        || Matches(rest, text[j..]) || (j < |text| && Matches(here, text[j + 1..]))
        || (i + 1 < |toks| && toks[i + 1] == Lit(SLASH) && Matches(toks[i + 2..], text[j..]))
      case t => Matches(here, text[j..]) <==> j < |text| && TakesByte(t, text[j]) && Matches(rest, text[j + 1..])
  {
    hide Matches;
    var here := toks[i..];
    assert here[0] == toks[i] && here[1..] == toks[i + 1..];
    assert |here| > 1 ==> here[1] == toks[i + 1] && here[2..] == toks[i + 2..];
    assert j < |text| ==> text[j..][0] == text[j] && text[j..][1..] == text[j + 1..];
    match toks[i]
    case Star => StarStep(here, text[j..]);
    case DoubleStar => DoubleStarStep(here, text[j..]);
    case _ => ByteStep(here, text[j..]);
  }

  lemma ByteStep(toks: seq<Tok>, text: seq<u8>)
    requires toks != [] && !toks[0].Star? && !toks[0].DoubleStar?
    ensures Matches(toks, text) <==> text != [] && TakesByte(toks[0], text[0]) && Matches(toks[1..], text[1..])
  {}

  /** As coded, `**` and a following `/` together stand for any run of bytes, whether or not the
      run ends at a segment boundary. */
  lemma DoubleStarSlash(rest: seq<Tok>, text: seq<u8>)
    ensures Matches([DoubleStar, Lit(SLASH)] + rest, text) <==> exists k :: 0 <= k <= |text| && Matches(rest, text[k..])
  {
    var toks := [DoubleStar, Lit(SLASH)] + rest;
    assert toks[2..] == rest && toks[1..][1..] == rest && toks[1..][0] == Lit(SLASH);
    if k :| 0 <= k <= |text| && Matches(toks[1..], text[k..]) {
      ByteStep(toks[1..], text[k..]);
      assert text[k..][1..] == text[k + 1..];
    }
  }

  /** So a double star and slash before a name also accept that name as the tail of a longer one. */
  lemma DoubleStarSlashSplitsNames(x: u8, c: u8)
    ensures Matches([DoubleStar, Lit(SLASH), Lit(c)], [x, c])
  {
    var text := [x, c];
    assert text[1..] == [c] && [c][1..] == [] && [Lit(c)][1..] == [];
    assert Matches([Lit(c)], text[1..]);
    DoubleStarSlash([Lit(c)], text);
    assert [DoubleStar, Lit(SLASH)] + [Lit(c)] == [DoubleStar, Lit(SLASH), Lit(c)];
  }

  // ---------- separators ----------

  function SlashesIn(text: seq<u8>): nat {
    if text == [] then 0 else (if text[0] == SLASH then 1 else 0) + SlashesIn(text[1..])
  }

  function SlashToks(toks: seq<Tok>): nat {
    if toks == [] then 0 else (if toks[0] == Lit(SLASH) then 1 else 0) + SlashToks(toks[1..])
  }

  lemma {:induction false} SlashesSplit(text: seq<u8>, k: nat)
    requires k <= |text| && NoSlash(text[..k])
    ensures SlashesIn(text) == SlashesIn(text[k..])
    decreases k
  {
    if k == 0 {
      assert text[0..] == text;
    } else {
      NoSlashTail(text[..k]);
      assert text[..k][0] == text[0] && text[..k][1..] == text[1..][..k - 1];
      SlashesSplit(text[1..], k - 1);
      assert text[1..][k - 1..] == text[k..];
    }
  }

  /** Without `**`, a match consumes each `/` of the text with a literal `/` of the pattern. */
  lemma {:induction false} SlashesAgree(toks: seq<Tok>, text: seq<u8>)
    requires DoubleStar !in toks && Matches(toks, text)
    ensures SlashesIn(text) == SlashToks(toks)
    decreases |toks|
  {
    if toks != [] {
      if toks[0].Star? {
        var k :| 0 <= k <= |text| && NoSlash(text[..k]) && Matches(toks[1..], text[k..]);
        SlashesSplit(text, k);
        SlashesAgree(toks[1..], text[k..]);
      } else {
        ByteStep(toks, text);
        SlashesAgree(toks[1..], text[1..]);
      }
    }
  }

  // ---------- pattern syntax ----------

  /** The items of a class up to its closing bracket, and the bytes after it. */
  function ClassItems(s: seq<u8>, first: bool): (r: Option<(seq<(u8, u8)>, seq<u8>)>)
    ensures r.Some? ==> |r.value.1| < |s|
    decreases |s|
  {
    if s == [] then None
    else if s[0] == CLOSE && !first then Some(([], s[1..]))
    else
      var range := |s| > 2 && s[1] == DASH && s[2] != CLOSE;
      var item := if range then (s[0], s[2]) else (s[0], s[0]);
      match ClassItems(if range then s[3..] else s[1..], false)
      case None => None
      case Some(more) => Some(([item] + more.0, more.1))
  }

  predicate Negates(s: seq<u8>) { s != [] && (s[0] == BANG || s[0] == CARET) }

  /** A class read from just after its opening bracket; None when it is never closed. */
  function ClassAfter(s: seq<u8>): (r: Option<(Tok, seq<u8>)>)
    ensures r.Some? ==> r.value.0.Class? && |r.value.1| < |s|
  {
    match ClassItems(if Negates(s) then s[1..] else s, true)
    case None => None
    case Some(c) => Some((Class(Negates(s), c.0), c.1))
  }

  lemma {:induction false} ItemsLeaveSuffix(s: seq<u8>, first: bool)
    ensures var r := ClassItems(s, first); r.Some? ==> r.value.1 == s[|s| - |r.value.1|..]
    decreases |s|
  {
    if s != [] && !(s[0] == CLOSE && !first) {
      var range := |s| > 2 && s[1] == DASH && s[2] != CLOSE;
      ItemsLeaveSuffix(if range then s[3..] else s[1..], false);
    }
  }

  function DropStars(s: seq<u8>): (r: seq<u8>)
    ensures |r| <= |s|
  {
    if s != [] && s[0] == STAR then DropStars(s[1..]) else s
  }

  function Tokens(s: seq<u8>): seq<Tok>
    decreases |s|
  {
    if s == [] then []
    else if s[0] == STAR then
      if |s| > 1 && s[1] == STAR then [DoubleStar] + Tokens(DropStars(s[2..])) else [Star] + Tokens(s[1..])
    else if s[0] == QUESTION then [Any] + Tokens(s[1..])
    else if s[0] == OPEN && ClassAfter(s[1..]).Some? then
      var c := ClassAfter(s[1..]).value;
      [c.0] + Tokens(c.1)
    else [Lit(s[0])] + Tokens(s[1..])
  }

  /** Index loop over one class; returns the token and the index past its closing bracket. */
  method ParseClass(pat: seq<u8>, i: nat) returns (r: Option<(Tok, nat)>)
    requires i < |pat|
    ensures r.Some? <==> ClassAfter(pat[i + 1..]).Some?
    ensures r.Some? ==> i < r.value.1 <= |pat| && ClassAfter(pat[i + 1..]).value == (r.value.0, pat[r.value.1..])
  {
    hide ClassItems;
    var j := i + 1;
    var negate := j < |pat| && (pat[j] == BANG || pat[j] == CARET);
    if negate { j := j + 1; }
    var ranges: seq<(u8, u8)> := [];
    var first := true;
    ghost var all := ClassItems(pat[j..], true);
    assert all == Prepend([], all) by { if all.Some? { assert [] + all.value.0 == all.value.0; } }
    assert ClassAfter(pat[i + 1..]) == match all case None => None case Some(c) => Some((Class(negate, c.0), c.1));
    while j < |pat|
      invariant i < j <= |pat|
      invariant all == Prepend(ranges, ClassItems(pat[j..], first))
    {
      ItemStep(pat, j, first);
      if pat[j] == CLOSE && !first {
        assert ranges + [] == ranges;
        return Some((Class(negate, ranges), j + 1));
      }
      first := false;
      if j + 2 < |pat| && pat[j + 1] == DASH && pat[j + 2] != CLOSE {
        PrependMore(ranges, (pat[j], pat[j + 2]), ClassItems(pat[j + 3..], false));
        ranges := ranges + [(pat[j], pat[j + 2])];
        j := j + 3;
      } else {
        PrependMore(ranges, (pat[j], pat[j]), ClassItems(pat[j + 1..], false));
        ranges := ranges + [(pat[j], pat[j])];
        j := j + 1;
      }
    }
    ItemStep(pat, j, first);
    r := None;
  }

  lemma ItemStep(pat: seq<u8>, j: nat, first: bool)
    requires j <= |pat|
    ensures ClassItems(pat[j..], first) ==
      if j == |pat| then None
      else if pat[j] == CLOSE && !first then Some(([], pat[j + 1..]))
      else if j + 2 < |pat| && pat[j + 1] == DASH && pat[j + 2] != CLOSE
      then Prepend([(pat[j], pat[j + 2])], ClassItems(pat[j + 3..], false))
      else Prepend([(pat[j], pat[j])], ClassItems(pat[j + 1..], false))
  {
    var s := pat[j..];
    assert j < |pat| ==> s[0] == pat[j] && s[1..] == pat[j + 1..];
    assert j + 2 < |pat| ==> s[1] == pat[j + 1] && s[2] == pat[j + 2] && s[3..] == pat[j + 3..];
  }

  ghost function Prepend(done: seq<(u8, u8)>, r: Option<(seq<(u8, u8)>, seq<u8>)>): Option<(seq<(u8, u8)>, seq<u8>)> {
    match r case None => None case Some(c) => Some((done + c.0, c.1))
  }

  lemma PrependMore(done: seq<(u8, u8)>, x: (u8, u8), r: Option<(seq<(u8, u8)>, seq<u8>)>)
    ensures Prepend(done, Prepend([x], r)) == Prepend(done + [x], r)
  {
    if r.Some? { assert done + ([x] + r.value.0) == done + [x] + r.value.0; }
  }

  /** One turn of the tokenizer: the token at i and the index after it. */
  method NextToken(pat: seq<u8>, i: nat) returns (t: Tok, n: nat)
    requires i < |pat|
    ensures i < n <= |pat| && Tokens(pat[i..]) == [t] + Tokens(pat[n..])
  {
    ghost var s := pat[i..];
    assert s[0] == pat[i] && s[1..] == pat[i + 1..];
    if pat[i] == STAR && i + 1 < |pat| && pat[i + 1] == STAR {
      n := i + 2;
      assert s[1] == pat[i + 1] && s[2..] == pat[n..];
      while n < |pat| && pat[n] == STAR
        invariant i < n <= |pat|
        invariant DropStars(s[2..]) == DropStars(pat[n..])
      {
        assert pat[n..][1..] == pat[n + 1..];
        n := n + 1;
      }
      return DoubleStar, n;
    }
    assert |s| > 1 ==> s[1] == pat[i + 1];
    if pat[i] == STAR { return Star, i + 1; }
    if pat[i] == QUESTION { return Any, i + 1; }
    if pat[i] == OPEN {
      var c := ParseClass(pat, i);
      if c.Some? { return c.value.0, c.value.1; }
    }
    return Lit(pat[i]), i + 1;
  }

  method Tokenize(pat: seq<u8>) returns (toks: seq<Tok>)
    ensures toks == Tokens(pat)
  {
    hide Tokens;
    toks := [];
    var i := 0;
    assert pat[0..] == pat && [] + Tokens(pat) == Tokens(pat);
    while i < |pat|
      invariant i <= |pat|
      invariant Tokens(pat) == toks + Tokens(pat[i..])
    {
      var t, n := NextToken(pat, i);
      assert toks + ([t] + Tokens(pat[n..])) == toks + [t] + Tokens(pat[n..]);
      toks, i := toks + [t], n;
    }
    NoTokens(pat[i..]);
  }

  lemma NoTokens(s: seq<u8>)
    ensures s == [] ==> Tokens(s) == []
  {}

  // ---------- rendering ----------

  function RenderRanges(ranges: seq<(u8, u8)>): seq<u8> {
    if ranges == [] then [] else [ranges[0].0, DASH, ranges[0].1] + RenderRanges(ranges[1..])
  }

  function RenderTok(t: Tok): seq<u8> {
    match t
    case Lit(c) => [c]
    case Any => [QUESTION]
    case Star => [STAR]
    case DoubleStar => [STAR, STAR]
    case Class(negated, ranges) => [OPEN] + (if negated then [BANG] else []) + RenderRanges(ranges) + [CLOSE]
  }

  function Render(toks: seq<Tok>): seq<u8> {
    if toks == [] then [] else RenderTok(toks[0]) + Render(toks[1..])
  }

  /** Ranges that can be written down: only the first may start with a closing bracket. */
  predicate Writable(ranges: seq<(u8, u8)>) {
    forall i :: 0 <= i < |ranges| ==> ranges[i].1 != CLOSE && (i > 0 ==> ranges[i].0 != CLOSE)
  }

  predicate CanonicalTok(t: Tok) {
    match t
    case Lit(c) => c != STAR && c != QUESTION && c != OPEN
    case Class(negated, ranges) =>
      && ranges != [] && Writable(ranges)
      && (!negated ==> ranges[0].0 != BANG && ranges[0].0 != CARET)
    case _ => true
  }

  predicate Starry(t: Tok) { t.Star? || t.DoubleStar? }

  predicate Canonical(toks: seq<Tok>) {
    && (forall i :: 0 <= i < |toks| ==> CanonicalTok(toks[i]))
    && (forall i :: 0 < i < |toks| ==> Starry(toks[i]) ==> !Starry(toks[i - 1]))
  }

  lemma {:induction false} ItemsRoundTrip(ranges: seq<(u8, u8)>, rest: seq<u8>, first: bool)
    requires Writable(ranges) && (if first then ranges != [] else ranges != [] ==> ranges[0].0 != CLOSE)
    ensures ClassItems(RenderRanges(ranges) + [CLOSE] + rest, first) == Some((ranges, rest))
    decreases |ranges|
  {
    var s := RenderRanges(ranges) + [CLOSE] + rest;
    if ranges == [] {
      assert s[1..] == rest;
    } else {
      assert s[3..] == RenderRanges(ranges[1..]) + [CLOSE] + rest;
      assert s[0] == ranges[0].0 && s[1] == DASH && s[2] == ranges[0].1;
      forall i | 1 <= i < |ranges| ensures ranges[1..][i - 1] == ranges[i] {}
      ItemsRoundTrip(ranges[1..], rest, false);
      assert [ranges[0]] + ranges[1..] == ranges;
    }
  }

  lemma ClassRoundTrip(t: Tok, rest: seq<u8>)
    requires t.Class? && CanonicalTok(t)
    ensures ClassAfter((RenderTok(t) + rest)[1..]) == Some((t, rest))
  {
    ItemsRoundTrip(t.ranges, rest, true);
    var items := RenderRanges(t.ranges);
    var body := items + [CLOSE] + rest;
    assert body[0] == t.ranges[0].0;
    hide ClassItems, RenderRanges, Writable;
    var s := (RenderTok(t) + rest)[1..];
    if t.negated {
      assert RenderTok(t) + rest == [OPEN, BANG] + body;
      assert s[0] == BANG && s[1..] == body;
    } else {
      assert RenderTok(t) + rest == [OPEN] + body;
      assert s == body;
    }
  }

  lemma TokRoundTrip(t: Tok, tail: seq<u8>)
    requires CanonicalTok(t) && (Starry(t) && tail != [] ==> tail[0] != STAR)
    ensures Tokens(RenderTok(t) + tail) == [t] + Tokens(tail)
  {
    hide ClassAfter, RenderRanges, Writable;
    var s := RenderTok(t) + tail;
    match t
    case Class(_, _) => ClassRoundTrip(t, tail);
    case DoubleStar => assert s[2..] == tail;
    case _ => assert s[1..] == tail;
  }

  /** A canonical token list survives being written as a pattern and tokenized again. */
  lemma {:induction false} RenderRoundTrip(toks: seq<Tok>)
    requires Canonical(toks)
    ensures Tokens(Render(toks)) == toks
    decreases |toks|
  {
    hide Tokens, RenderTok, CanonicalTok;
    if toks == [] {
      NoTokens([]);
    } else {
      var rest := toks[1..];
      forall i | 1 <= i < |toks| ensures toks[i] == rest[i - 1] {}
      RenderRoundTrip(rest);
      if Starry(toks[0]) { NotStarFirst(toks); }
      TokRoundTrip(toks[0], Render(rest));
    }
  }

  lemma NotStarFirst(toks: seq<Tok>)
    requires Canonical(toks) && toks != [] && Starry(toks[0])
    ensures var tail := Render(toks[1..]); tail == [] || tail[0] != STAR
  {
    if |toks| > 1 {
      assert toks[1..][0] == toks[1] && CanonicalTok(toks[1]) && !Starry(toks[1]);
    }
  }

  // ---------- patterns without a double star ----------

  predicate NoDoubleStar(s: seq<u8>) { forall i :: 0 < i < |s| ==> s[i] == STAR ==> s[i - 1] != STAR }

  lemma NoDoubleStarSuffix(s: seq<u8>, k: nat)
    requires NoDoubleStar(s) && k <= |s|
    ensures NoDoubleStar(s[k..])
  {
    forall i | 0 < i < |s| - k ensures s[k..][i] == STAR ==> s[k..][i - 1] != STAR {
      assert s[k..][i] == s[i + k] && s[k..][i - 1] == s[i + k - 1];
    }
  }

  lemma {:induction false} PlainTokens(s: seq<u8>)
    requires NoDoubleStar(s)
    ensures DoubleStar !in Tokens(s)
    decreases |s|
  {
    if s != [] {
      NoDoubleStarSuffix(s, 1);
      PlainTokens(s[1..]);
      var c := ClassAfter(s[1..]);
      if c.Some? {
        ItemsLeaveSuffix(if Negates(s[1..]) then s[2..] else s[1..], true);
        assert s[1..][1..] == s[2..] || |s| < 2;
        NoDoubleStarSuffix(s, |s| - |c.value.1|);
        PlainTokens(c.value.1);
      }
    }
  }

  /** A pattern without two adjacent stars accepts only texts with as many `/` as it has outside classes. */
  lemma PlainPatternKeepsDepth(pattern: seq<u8>, text: seq<u8>)
    requires NoDoubleStar(pattern) && Accepts(pattern, text)
    ensures SlashesIn(text) == SlashToks(Tokens(pattern))
  {
    PlainTokens(pattern);
    SlashesAgree(Tokens(pattern), text);
  }

  // ---------- whole patterns ----------

  /** The text after the last `/`. */
  function BaseName(text: seq<u8>): seq<u8> { text[NameStart(text, |text|)..] }

  /** The index after the last `/` among the first n bytes. */
  function NameStart(text: seq<u8>, n: nat): (k: nat)
    requires n <= |text|
    ensures k <= n && (forall i :: k <= i < n ==> text[i] != SLASH) && (k > 0 ==> text[k - 1] == SLASH)
  {
    if n == 0 || text[n - 1] == SLASH then n else NameStart(text, n - 1)
  }

  /** The base name is the longest suffix without a slash. */
  lemma BaseNameIs(text: seq<u8>)
    ensures var r := BaseName(text);
      && NoSlash(r) && |r| <= |text| && r == text[|text| - |r|..]
      && (|r| < |text| ==> text[|text| - |r| - 1] == SLASH)
  {
    var k := NameStart(text, |text|);
    forall i | 0 <= i < |text| - k ensures text[k..][i] != SLASH { assert text[k..][i] == text[k + i]; }
  }

  ghost predicate Accepts(pattern: seq<u8>, text: seq<u8>) { Matches(Tokens(pattern), text) }

  /** A pattern without `/` is also tried against the base name. */
  method GlobMatch(pattern: seq<u8>, text: seq<u8>) returns (r: bool)
    ensures r <==> Accepts(pattern, text) || (SLASH !in pattern && Accepts(pattern, BaseName(text)))
  {
    var toks := Tokenize(pattern);
    if SLASH !in pattern {
      var base := GlobToks(toks, BaseName(text));
      if base { return true; }
    }
    r := GlobToks(toks, text);
  }

  // ---------- what patterns accept, byte by byte ----------

  /** One item of a bracket expression as written: a byte, or two with a dash between. */
  datatype Item = One(b: u8) | Span(lo: u8, hi: u8) {
    function First(): u8 { if One? then b else lo }

    function Bytes(): seq<u8> { if One? then [b] else [lo, DASH, hi] }

    predicate Takes(c: u8) { if One? then c == b else lo <= c <= hi }
  }

  function Written(items: seq<Item>): seq<u8> {
    if items == [] then [] else items[0].Bytes() + Written(items[1..])
  }

  /** Items that read back as written: a closing bracket only as the very first byte, and after a single byte no
      dash except as the last item. */
  predicate Readable(items: seq<Item>, first: bool) {
    items != [] ==>
      && (items[0].First() == CLOSE ==> first)
      && (items[0].Span? ==> items[0].hi != CLOSE)
      && (items[0].One? && |items| > 1 && items[1].First() == DASH ==> |items| == 2 && items[1].One?)
      && Readable(items[1..], false)
  }

  function RangeOf(i: Item): (u8, u8) { if i.One? then (i.b, i.b) else (i.lo, i.hi) }

  function RangesOf(items: seq<Item>): seq<(u8, u8)> { seq(|items|, i requires 0 <= i < |items| => RangeOf(items[i])) }

  lemma {:induction false} ItemsRead(items: seq<Item>, rest: seq<u8>, first: bool)
    requires Readable(items, first) && (first ==> items != [])
    ensures ClassItems(Written(items) + [CLOSE] + rest, first) == Some((RangesOf(items), rest))
    decreases |items|
  {
    var s := Written(items) + [CLOSE] + rest;
    if items == [] {
      assert s[1..] == rest && s[0] == CLOSE;
    } else {
      var more := Written(items[1..]) + [CLOSE] + rest;
      ItemsRead(items[1..], rest, false);
      WrittenFirst(items[1..]);
      assert s == items[0].Bytes() + more;
      assert [RangeOf(items[0])] + RangesOf(items[1..]) == RangesOf(items);
      hide Written, RangesOf;
      ItemRead(items, more, first);
    }
  }

  /** One item is read off the front, and the rest follows it. */
  lemma ItemRead(items: seq<Item>, more: seq<u8>, first: bool)
    requires items != [] && Readable(items, first) && more != []
    requires if |items| == 1 then more[0] == CLOSE else more[0] == items[1].First()
    requires |items| == 2 && items[1].One? ==> |more| > 1 && more[1] == CLOSE
    ensures ClassItems(items[0].Bytes() + more, first) == Prepend([RangeOf(items[0])], ClassItems(more, false))
  {
    var s := items[0].Bytes() + more;
    if items[0].One? { assert s[1..] == more; } else { assert s[3..] == more; }
  }

  lemma WrittenFirst(items: seq<Item>)
    ensures items != [] ==> Written(items) != [] && Written(items)[0] == items[0].First()
    ensures |items| == 1 && items[0].One? ==> Written(items) == [items[0].b]
  {
    if |items| == 1 { assert items[1..] == []; }
  }

  lemma TakenByRanges(items: seq<Item>, c: u8)
    ensures InRanges(RangesOf(items), c) <==> exists i :: 0 <= i < |items| && items[i].Takes(c)
  {
    forall i | 0 <= i < |items| ensures (RangesOf(items)[i].0 <= c <= RangesOf(items)[i].1) <==> items[i].Takes(c) {}
  }

  lemma OneTokenAccepts(t: Tok, text: seq<u8>)
    requires !t.Star? && !t.DoubleStar?
    ensures Matches([t], text) <==> |text| == 1 && TakesByte(t, text[0])
  {
    ByteStep([t], text);
    assert [t][1..] == [];
  }

  /** A bracket expression accepts exactly the single bytes that one of its items takes, or that none takes when it
      is negated, and never a slash. */
  lemma ClassAccepts(negation: seq<u8>, items: seq<Item>, text: seq<u8>)
    requires negation in {[], [BANG], [CARET]} && items != [] && Readable(items, true)
    requires negation == [] ==> items[0].First() != BANG && items[0].First() != CARET
    ensures Accepts([OPEN] + negation + Written(items) + [CLOSE], text) <==>
      |text| == 1 && text[0] != SLASH && ((exists i :: 0 <= i < |items| && items[i].Takes(text[0])) <==> negation == [])
  {
    hide Tokens, Matches, InRanges, RangesOf, Readable, Written;
    ClassReads(negation, items);
    OneTokenAccepts(Class(negation != [], RangesOf(items)), text);
    if |text| == 1 { TakenByRanges(items, text[0]); }
  }

  lemma ClassReads(negation: seq<u8>, items: seq<Item>)
    requires negation in {[], [BANG], [CARET]} && items != [] && Readable(items, true)
    requires negation == [] ==> items[0].First() != BANG && items[0].First() != CARET
    ensures Tokens([OPEN] + negation + Written(items) + [CLOSE]) == [Class(negation != [], RangesOf(items))]
  {
    hide RangesOf, Readable, ClassItems;
    ItemsRead(items, [], true);
    WrittenFirst(items);
    var body := Written(items) + [CLOSE];
    hide Written;
    assert body + [] == body;
    var t := Class(negation != [], RangesOf(items));
    if negation == [] {
      assert [OPEN] + negation + Written(items) + [CLOSE] == [OPEN] + body;
      assert ([OPEN] + body)[1..] == body;
      OneClass([OPEN] + body, t);
    } else {
      assert [OPEN] + negation + Written(items) + [CLOSE] == [OPEN] + (negation + body);
      assert ([OPEN] + (negation + body))[1..] == negation + body && (negation + body)[1..] == body;
      OneClass([OPEN] + (negation + body), t);
    }
  }

  lemma OneClass(pattern: seq<u8>, t: Tok)
    requires pattern != [] && pattern[0] == OPEN && ClassAfter(pattern[1..]) == Some((t, []))
    ensures Tokens(pattern) == [t]
  {
    NoTokens([]);
  }

  /** `[x-y]` accepts exactly the bytes from x to y, `[!x-y]` and `[^x-y]` exactly those outside, but no slash. */
  lemma RangeAccepts(x: u8, y: u8, text: seq<u8>)
    requires y != CLOSE
    ensures x != BANG && x != CARET ==>
      (Accepts([OPEN, x, DASH, y, CLOSE], text) <==> |text| == 1 && text[0] != SLASH && x <= text[0] <= y)
    ensures Accepts([OPEN, BANG, x, DASH, y, CLOSE], text) <==> |text| == 1 && text[0] != SLASH && !(x <= text[0] <= y)
    ensures Accepts([OPEN, CARET, x, DASH, y, CLOSE], text) <==> |text| == 1 && text[0] != SLASH && !(x <= text[0] <= y)
  {
    hide Accepts;
    if x != BANG && x != CARET { SpanAccepts([], x, y, text); }
    SpanAccepts([BANG], x, y, text);
    SpanAccepts([CARET], x, y, text);
    assert [OPEN] + [] + [x, DASH, y, CLOSE] == [OPEN, x, DASH, y, CLOSE];
    assert [OPEN] + [BANG] + [x, DASH, y, CLOSE] == [OPEN, BANG, x, DASH, y, CLOSE];
    assert [OPEN] + [CARET] + [x, DASH, y, CLOSE] == [OPEN, CARET, x, DASH, y, CLOSE];
  }

  lemma SpanAccepts(negation: seq<u8>, x: u8, y: u8, text: seq<u8>)
    requires negation in {[], [BANG], [CARET]} && y != CLOSE && (negation == [] ==> x != BANG && x != CARET)
    ensures Accepts([OPEN] + negation + [x, DASH, y, CLOSE], text) <==>
      |text| == 1 && text[0] != SLASH && (x <= text[0] <= y <==> negation == [])
  {
    var items := [Span(x, y)];
    assert items[1..] == [] && Written(items) == [x, DASH, y];
    hide Accepts;
    ClassAccepts(negation, items, text);
    assert [OPEN] + negation + [x, DASH, y] + [CLOSE] == [OPEN] + negation + [x, DASH, y, CLOSE];
    assert |text| == 1 ==> (items[0].Takes(text[0]) <==> x <= text[0] <= y);
  }

  /** `[x]` accepts exactly x, unless it is a slash. */
  lemma SingleAccepts(x: u8, text: seq<u8>)
    requires x != BANG && x != CARET
    ensures Accepts([OPEN, x, CLOSE], text) <==> text == [x] && x != SLASH
  {
    var items := [One(x)];
    assert items[1..] == [] && Written(items) == [x];
    ClassAccepts([], items, text);
    assert [OPEN] + [] + Written(items) + [CLOSE] == [OPEN, x, CLOSE];
    assert |text| == 1 ==> (items[0].Takes(text[0]) <==> text[0] == x);
  }

  /** A pattern without special bytes accepts itself and nothing else. */
  lemma {:induction false} PlainAccepts(pattern: seq<u8>, text: seq<u8>)
    requires forall i :: 0 <= i < |pattern| ==> pattern[i] != STAR && pattern[i] != QUESTION && pattern[i] != OPEN
    ensures Accepts(pattern, text) <==> text == pattern
    decreases |pattern|
  {
    if pattern != [] {
      var rest := pattern[1..];
      assert pattern[0] != STAR && pattern[0] != QUESTION && pattern[0] != OPEN;
      assert Tokens(pattern) == [Lit(pattern[0])] + Tokens(rest);
      assert ([Lit(pattern[0])] + Tokens(rest))[1..] == Tokens(rest);
      if text != [] {
        PlainAccepts(rest, text[1..]);
        assert text == pattern <==> text[0] == pattern[0] && text[1..] == rest by {
          assert pattern == [pattern[0]] + rest && text == [text[0]] + text[1..];
        }
      }
    }
  }
}
