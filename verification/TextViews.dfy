/**
  Normalisation and the compact view of backend/internal/textfilter/textfilter.go: full-width runes folded,
  lower case, everything but letters and digits dropped. Keywords are matched on the compact view and mapped
  back to the original text through `compactIdx`.
 */
module TextViews {
  import opened Collections
  import opened Runes

  /** The Unicode tables the filter consults (Go's `unicode` package). */
  datatype Unicode = Unicode(lower: Rune -> Rune, letter: Rune -> bool, digit: Rune -> bool)

  datatype Kept = Dropped | Keep(rune: Rune)

  function FoldRune(u: Unicode, r: Rune): Rune {
    u.lower(
      if 0xFF01 <= r <= 0xFF5E then r - 0xFEE0
      else if r == 0x3000 then 0x20
      else if r == 0x3002 || r == 0xFF61 || r == 0x2024 || r == 0xFE52 then 0x2E
      else r)
  }

  function CompactRune(u: Unicode, r: Rune): Kept {
    var f := FoldRune(u, r);
    if u.letter(f) || u.digit(f) then Keep(f) else Dropped
  }

  predicate IsAsciiAlnum(u: Unicode, r: Rune) {
    r < 0x80 && (u.letter(r) || u.digit(r))
  }

  predicate IsAsciiWord(w: seq<Rune>) {
    forall i :: 0 <= i < |w| ==> w[i] < 0x80
  }

  /** A pure-ASCII word must not touch an ASCII letter or digit in the compact view; `end` is inclusive. */
  predicate AsciiBoundary(u: Unicode, c: seq<Rune>, start: nat, end: nat)
    requires start <= end < |c|
  {
    && !(start > 0 && IsAsciiAlnum(u, c[start - 1]))
    && !(end + 1 < |c| && IsAsciiAlnum(u, c[end + 1]))
  }

  // ------------------------------------------------------------------
  // Compaction
  // ------------------------------------------------------------------

  /** The runes kept by `CompactRune`, in order. */
  ghost function Compact(u: Unicode, s: seq<Rune>): (c: seq<Rune>)
    ensures |c| <= |s|
  {
    if s == [] then []
    else Compact(u, s[..|s| - 1]) + match CompactRune(u, s[|s| - 1]) case Dropped => [] case Keep(r) => [r]
  }

  /** Where the kept runes stand in `s`. */
  ghost function KeptIdx(u: Unicode, s: seq<Rune>): (idx: seq<nat>)
    ensures |idx| == |Compact(u, s)|
    ensures forall k :: 0 <= k < |idx| ==> idx[k] < |s|
  {
    if s == [] then []
    else KeptIdx(u, s[..|s| - 1]) + if CompactRune(u, s[|s| - 1]).Dropped? then [] else [|s| - 1]
  }

  /** `compact` and `compactIdx` of buildViews. */
  method BuildCompact(u: Unicode, orig: seq<Rune>) returns (compact: seq<Rune>, compactIdx: seq<nat>)
    ensures compact == Compact(u, orig) && compactIdx == KeptIdx(u, orig)
  {
    compact, compactIdx := [], [];
    for i := 0 to |orig|
      invariant compact == Compact(u, orig[..i]) && compactIdx == KeptIdx(u, orig[..i])
    {
      assert orig[..i + 1][..i] == orig[..i];
      var c := CompactRune(u, orig[i]);
      if c.Keep? {
        compact, compactIdx := compact + [c.rune], compactIdx + [i];
      }
    }
    assert orig[..|orig|] == orig;
  }

  /** NormalizeWord: a word goes through the same compaction as the text. */
  method NormalizeWord(u: Unicode, w: seq<Rune>) returns (n: seq<Rune>)
    ensures n == Compact(u, w)
  {
    n := [];
    for i := 0 to |w|
      invariant n == Compact(u, w[..i])
    {
      assert w[..i + 1][..i] == w[..i];
      var c := CompactRune(u, w[i]);
      if c.Keep? {
        n := n + [c.rune];
      }
    }
    assert w[..|w|] == w;
  }

  lemma {:induction false} CompactConcat(u: Unicode, s: seq<Rune>, t: seq<Rune>)
    ensures Compact(u, s + t) == Compact(u, s) + Compact(u, t)
  {
    if t == [] {
      assert s + t == s;
    } else {
      CompactConcat(u, s, t[..|t| - 1]);
      assert (s + t)[..|s + t| - 1] == s + t[..|t| - 1];
    }
  }

  /** The compact view of a text is that of its pieces, one after the other. */
  lemma CompactSplit(u: Unicode, s: seq<Rune>, i: nat, j: nat)
    requires i <= j <= |s|
    ensures Compact(u, s) == Compact(u, s[..i]) + Compact(u, s[i..j]) + Compact(u, s[j..])
    ensures Compact(u, s[..j]) == Compact(u, s[..i]) + Compact(u, s[i..j])
  {
    assert s == s[..j] + s[j..] && s[..j] == s[..i] + s[i..j];
    CompactConcat(u, s[..j], s[j..]);
    CompactConcat(u, s[..i], s[i..j]);
  }

  lemma CompactSnoc(u: Unicode, s: seq<Rune>, r: Rune)
    ensures Compact(u, s + [r]) == Compact(u, s) + match CompactRune(u, r) case Dropped => [] case Keep(f) => [f]
  {
    assert (s + [r])[..|s|] == s;
  }

  /** Entry `k` of the index: a kept rune with exactly `k` kept runes before it. */
  ghost predicate IsKeptAt(u: Unicode, s: seq<Rune>, p: nat, k: nat) {
    p < |s| && CompactRune(u, s[p]).Keep? && |Compact(u, s[..p])| == k
  }

  lemma {:induction false} KeptIdxSound(u: Unicode, s: seq<Rune>, k: nat)
    requires k < |KeptIdx(u, s)|
    ensures IsKeptAt(u, s, KeptIdx(u, s)[k], k)
  {
    var t, idx := s[..|s| - 1], KeptIdx(u, s);
    if k < |KeptIdx(u, t)| {
      KeptIdxSound(u, t, k);
      assert t[..idx[k]] == s[..idx[k]];
    }
  }

  /** Every kept position is listed, at the number of kept runes before it. */
  lemma KeptIdxComplete(u: Unicode, s: seq<Rune>, p: nat)
    requires p < |s| && CompactRune(u, s[p]).Keep?
    ensures var k := |Compact(u, s[..p])|; k < |KeptIdx(u, s)| && KeptIdx(u, s)[k] == p
  {
    var k := |Compact(u, s[..p])|;
    assert s[..p + 1] == s[..p] + [s[p]];
    CompactSnoc(u, s[..p], s[p]);
    CompactSplit(u, s, p, p + 1);
    KeptIdxSound(u, s, k);
    KeptAtUnique(u, s, p, KeptIdx(u, s)[k], k);
  }

  /** Kept positions are ordered as the number of kept runes before them. */
  lemma KeptOrder(u: Unicode, s: seq<Rune>, p: nat, j: nat, q: nat, k: nat)
    requires IsKeptAt(u, s, p, j) && IsKeptAt(u, s, q, k) && p < q
    ensures j < k
  {
    CompactSplit(u, s[..q], p, p + 1);
    assert s[..q][..p] == s[..p] && s[..q][p..p + 1] == [] + [s[p]];
    CompactSnoc(u, [], s[p]);
  }

  lemma KeptAtUnique(u: Unicode, s: seq<Rune>, p: nat, q: nat, k: nat)
    requires IsKeptAt(u, s, p, k) && IsKeptAt(u, s, q, k)
    ensures p == q
  {
    if p < q {
      KeptOrder(u, s, p, k, q, k);
    } else if q < p {
      KeptOrder(u, s, q, k, p, k);
    }
  }

  lemma KeptIdxOrder(u: Unicode, s: seq<Rune>, a: nat, b: nat)
    requires a <= b < |KeptIdx(u, s)|
    ensures KeptIdx(u, s)[a] <= KeptIdx(u, s)[b]
  {
    KeptIdxSound(u, s, a);
    KeptIdxSound(u, s, b);
    if KeptIdx(u, s)[b] < KeptIdx(u, s)[a] {
      KeptOrder(u, s, KeptIdx(u, s)[b], b, KeptIdx(u, s)[a], a);
    }
  }

  /**
    The window between two kept positions, ends included: its compaction is the matching window of the
    compact view, and what stands before and after it compacts to what stands before and after that window.
   */
  lemma WindowCompact(u: Unicode, s: seq<Rune>, c: seq<Rune>, a: nat, b: nat, p: nat, q: nat)
    requires a <= b < |KeptIdx(u, s)| && p == KeptIdx(u, s)[a] && q == KeptIdx(u, s)[b] + 1
    requires c == Compact(u, s)
    ensures p < q <= |s| && b < |c|
    ensures CompactRune(u, s[p]).Keep? && CompactRune(u, s[q - 1]).Keep?
    ensures Compact(u, s[p..q]) == c[a..b + 1]
    ensures Compact(u, s[..p]) == c[..a]
    ensures Compact(u, s[q..]) == c[b + 1..]
  {
    KeptIdxOrder(u, s, a, b);
    KeptIdxSound(u, s, a);
    KeptIdxSound(u, s, b);
    KeptEnd(u, s, q - 1, b);
    CutAt(u, s, p, q);
  }

  lemma KeptEnd(u: Unicode, s: seq<Rune>, p: nat, k: nat)
    requires IsKeptAt(u, s, p, k)
    ensures |Compact(u, s[..p + 1])| == k + 1
  {
    assert s[..p + 1] == s[..p] + [s[p]];
    CompactSnoc(u, s[..p], s[p]);
  }

  lemma CutAt(u: Unicode, s: seq<Rune>, p: nat, q: nat)
    requires p <= q <= |s|
    ensures var a, b, c := |Compact(u, s[..p])|, |Compact(u, s[..q])|, Compact(u, s);
            && a <= b <= |c| && Compact(u, s[p..q]) == c[a..b] && Compact(u, s[..p]) == c[..a] && Compact(u, s[q..]) == c[b..]
  {
    CompactSplit(u, s, p, q);
  }

  // ------------------------------------------------------------------
  // The link view
  // ------------------------------------------------------------------

  const DOT_WORD: Rune := 0x70B9 // the Chinese word for "dot"
  const SPACE: Rune := 0x20
  const DOT: Rune := 0x2E

  predicate IsAsciiLetter(u: Unicode, r: Rune) {
    r < 0x80 && u.letter(r)
  }

  /** The rune the dot word sees on its left: the first that is not a space. */
  ghost function LeftOf(s: seq<Rune>, i: int): (p: int)
    requires i <= |s|
    ensures p < i || i <= 0
    ensures p < |s| && (p >= 0 ==> s[p] != SPACE)
    decreases i
  {
    if i <= 0 then -1 else if s[i - 1] == SPACE then LeftOf(s, i - 1) else i - 1
  }

  ghost function RightOf(s: seq<Rune>, i: nat): (n: nat)
    requires i <= |s|
    ensures i <= n <= |s| && (n < |s| ==> s[n] != SPACE)
    decreases |s| - i
  {
    if i == |s| then i else if s[i] == SPACE then RightOf(s, i + 1) else i
  }

  /** Position `i` of `s` is a dot word between an ASCII letter or digit and an ASCII letter. */
  ghost predicate IsDotWord(u: Unicode, s: seq<Rune>, i: nat)
    requires i < |s|
  {
    var p, n := LeftOf(s, i), RightOf(s, i + 1);
    s[i] == DOT_WORD && p >= 0 && n < |s| && IsAsciiAlnum(u, s[p]) && IsAsciiLetter(u, s[n])
  }

  /** All dot words of `s` read as dots at once. */
  ghost function DotsRead(u: Unicode, s: seq<Rune>): (t: seq<Rune>)
    ensures |t| == |s|
  {
    seq(|s|, i requires 0 <= i < |s| => if IsDotWord(u, s, i) then DOT else s[i])
  }

  /**
    The second pass of buildViews rewrites the link view in place while it looks left and right in it; the
    result is the simultaneous reading of the view it started from.
   */
  method ReadDots(u: Unicode, link: array<Rune>)
    requires !IsAsciiAlnum(u, DOT)
    modifies link
    ensures link[..] == DotsRead(u, old(link[..]))
  {
    ghost var was := link[..];
    for i := 0 to link.Length
      invariant link[..] == DotsRead(u, was)[..i] + was[i..]
    {
      ghost var now := link[..];
      NeighboursKept(u, was, now, i);
      var dot := ReadsAsDot(u, link, i);
      if dot {
        link[i] := DOT;
      }
      assert link[..] == if dot then now[i := DOT] else now;
      OneMoreDot(u, was, now, i);
    }
  }

  lemma OneMoreDot(u: Unicode, was: seq<Rune>, now: seq<Rune>, i: nat)
    requires i < |was| && now == DotsRead(u, was)[..i] + was[i..]
    ensures (if IsDotWord(u, was, i) then now[i := DOT] else now) == DotsRead(u, was)[..i + 1] + was[i + 1..]
  {
  }

  /** The two neighbour searches of the pass. */
  method ReadsAsDot(u: Unicode, link: array<Rune>, i: nat) returns (dot: bool)
    requires i < link.Length
    ensures dot == IsDotWord(u, link[..], i)
  {
    if link[i] != DOT_WORD {
      return false;
    }
    var p, n := i - 1, i + 1;
    while p >= 0 && link[p] == SPACE
      invariant -1 <= p < i && LeftOf(link[..], i) == LeftOf(link[..], p + 1)
    {
      p := p - 1;
    }
    while n < link.Length && link[n] == SPACE
      invariant i < n <= link.Length && RightOf(link[..], i + 1) == RightOf(link[..], n)
      decreases link.Length - n
    {
      n := n + 1;
    }
    return p >= 0 && n < link.Length && IsAsciiAlnum(u, link[p]) && IsAsciiLetter(u, link[n]);
  }

  /** Dots already read do not change what a later dot word sees. */
  lemma NeighboursKept(u: Unicode, was: seq<Rune>, now: seq<Rune>, i: nat)
    requires i < |was| && now == DotsRead(u, was)[..i] + was[i..]
    requires !IsAsciiAlnum(u, DOT)
    ensures IsDotWord(u, now, i) <==> IsDotWord(u, was, i)
  {
    SameLeft(u, was, now, i, i);
    SameRight(was, now, i + 1);
  }

  lemma {:induction false} SameLeft(u: Unicode, was: seq<Rune>, now: seq<Rune>, i: nat, j: int)
    requires i < |was| && now == DotsRead(u, was)[..i] + was[i..] && j <= i
    ensures LeftOf(now, j) == LeftOf(was, j)
    decreases j
  {
    if j > 0 {
      assert now[j - 1] == DotsRead(u, was)[j - 1];
      SameLeft(u, was, now, i, j - 1);
    }
  }

  lemma {:induction false} SameRight(was: seq<Rune>, now: seq<Rune>, j: nat)
    requires |was| == |now| && j <= |was| && was[j..] == now[j..]
    ensures RightOf(now, j) == RightOf(was, j)
    decreases |was| - j
  {
    if j < |was| {
      assert was[j] == was[j..][0] == now[j..][0] == now[j];
      assert was[j + 1..] == was[j..][1..] == now[j..][1..] == now[j + 1..];
      SameRight(was, now, j + 1);
    }
  }

  // ------------------------------------------------------------------
  // Inserting runes that compaction drops
  // ------------------------------------------------------------------

  /** `t` is `s` with some runes that compaction drops inserted anywhere. */
  ghost predicate InsertsDropped(u: Unicode, s: seq<Rune>, t: seq<Rune>)
    decreases |t|
  {
    if t == [] then s == []
    else
      || (s != [] && s[0] == t[0] && InsertsDropped(u, s[1..], t[1..]))
      || (CompactRune(u, t[0]).Dropped? && InsertsDropped(u, s, t[1..]))
  }

  lemma {:induction false} DroppedInsertionsVanish(u: Unicode, s: seq<Rune>, t: seq<Rune>)
    requires InsertsDropped(u, s, t)
    ensures Compact(u, s) == Compact(u, t)
    decreases |t|
  {
    if t != [] {
      assert t == [t[0]] + t[1..];
      CompactConcat(u, [t[0]], t[1..]);
      if s != [] && s[0] == t[0] && InsertsDropped(u, s[1..], t[1..]) {
        assert s == [s[0]] + s[1..];
        CompactConcat(u, [s[0]], s[1..]);
        DroppedInsertionsVanish(u, s[1..], t[1..]);
      } else {
        DroppedInsertionsVanish(u, s, t[1..]);
        assert [t[0]][..0] == [];
      }
    }
  }

  // ------------------------------------------------------------------
  // Other forms of the same rune
  // ------------------------------------------------------------------

  /** `w` is another form of `p`: full width, the ideographic space, or a full stop of another script. */
  predicate FormOf(w: Rune, p: Rune) {
    || (0x21 <= p <= 0x7E && w == p + 0xFEE0)
    || (p == 0x20 && w == 0x3000)
    || (p == 0x2E && (w == 0x3002 || w == 0xFF61 || w == 0x2024 || w == 0xFE52))
  }

  predicate Alike(a: Rune, b: Rune) {
    a == b || FormOf(a, b) || FormOf(b, a)
  }

  ghost predicate AlikeTexts(s: seq<Rune>, t: seq<Rune>) {
    |s| == |t| && forall i :: 0 <= i < |s| ==> Alike(s[i], t[i])
  }

  lemma AlikeFold(u: Unicode, a: Rune, b: Rune)
    requires Alike(a, b)
    ensures FoldRune(u, a) == FoldRune(u, b) && CompactRune(u, a) == CompactRune(u, b)
  {
  }

  /** A text and the same in other forms have one compact view. */
  lemma {:induction false} AlikeCompact(u: Unicode, s: seq<Rune>, t: seq<Rune>)
    requires AlikeTexts(s, t)
    ensures Compact(u, s) == Compact(u, t) && KeptIdx(u, s) == KeptIdx(u, t)
  {
    if s != [] {
      var n := |s| - 1;
      AlikeFold(u, s[n], t[n]);
      AlikeCompact(u, s[..n], t[..n]);
    }
  }

  /** A rune that is no other form compacts to its lower case if that is a letter or digit, and to nothing otherwise. */
  lemma PlainCompact(u: Unicode, r: Rune)
    requires forall p :: !FormOf(r, p)
    ensures Compact(u, [r]) == if u.letter(u.lower(r)) || u.digit(u.lower(r)) then [u.lower(r)] else []
  {
    assert FormOf(0x3000, 0x20) && FormOf(0x3002, 0x2E) && FormOf(0xFF61, 0x2E) && FormOf(0x2024, 0x2E) && FormOf(0xFE52, 0x2E);
    assert 0xFF01 <= r <= 0xFF5E ==> FormOf(r, r - 0xFEE0);
    assert [r][..0] == [];
  }

  /** The compact view holds letters and digits only. */
  lemma {:induction false} CompactRunes(u: Unicode, s: seq<Rune>)
    ensures forall i :: 0 <= i < |Compact(u, s)| ==> u.letter(Compact(u, s)[i]) || u.digit(Compact(u, s)[i])
  {
    if s != [] {
      CompactRunes(u, s[..|s| - 1]);
    }
  }
}
