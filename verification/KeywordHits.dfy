/**
  Keyword hits of backend/internal/textfilter/textfilter.go: the automaton runs on the compact view, matches
  of pure-ASCII words are checked for a boundary, and what remains is mapped back to the original text.
 */
module KeywordHits {
  import opened Collections
  import opened Runes
  import opened NaiveMatching
  import opened Automata
  import opened TextViews

  /** One hit: original rune positions, half open. */
  datatype Hit = Hit(cat: Category, start: nat, end: nat)

  // ------------------------------------------------------------------
  // Compiling word lists
  // ------------------------------------------------------------------

  function PatternFor(w: seq<Rune>, cat: Category): Pattern {
    Pattern(|w|, cat, IsAsciiWord(w))
  }

  /** Normal forms of a word list; words that normalise to nothing are left out. */
  ghost function Normalized(u: Unicode, list: seq<seq<Rune>>): (words: seq<seq<Rune>>)
    ensures NonEmptyWords(words)
  {
    if list == [] then []
    else Normalized(u, list[..|list| - 1]) + var n := Compact(u, list[|list| - 1]); if n == [] then [] else [n]
  }

  /** Lengths and ASCII flags describe the words; words are not empty. */
  ghost predicate Compiled(words: seq<seq<Rune>>, meta: seq<Pattern>) {
    && |words| == |meta| && NonEmptyWords(words)
    && forall pi :: 0 <= pi < |words| ==> meta[pi] == PatternFor(words[pi], meta[pi].cat)
  }

  /** The `add` step of Compile: the normal forms of `list`, each with its pattern, after what was there. */
  method AddWords(u: Unicode, list: seq<seq<Rune>>, cat: Category, words0: seq<seq<Rune>>, meta0: seq<Pattern>)
    returns (words: seq<seq<Rune>>, meta: seq<Pattern>)
    requires |words0| == |meta0|
    ensures words == words0 + Normalized(u, list) && |meta| == |words|
    ensures forall pi :: 0 <= pi < |words| ==> meta[pi] == if pi < |meta0| then meta0[pi] else PatternFor(words[pi], cat)
  {
    words, meta := words0, meta0;
    for i := 0 to |list|
      invariant words == words0 + Normalized(u, list[..i]) && |meta| == |words|
      invariant forall pi :: 0 <= pi < |words| ==> meta[pi] == if pi < |meta0| then meta0[pi] else PatternFor(words[pi], cat)
    {
      assert list[..i + 1][..i] == list[..i];
      var n := NormalizeWord(u, list[i]);
      if |n| == 0 {
        continue;
      }
      words, meta := words + [n], meta + [PatternFor(n, cat)];
    }
    assert list[..|list|] == list;
  }

  // ------------------------------------------------------------------
  // Hits
  // ------------------------------------------------------------------

  /** A match that fits the compact view `c`. */
  ghost predicate Fits(words: seq<seq<Rune>>, c: seq<Rune>, m: Match) {
    m.pi < |words| && m.end < |c| && 0 < |words[m.pi]| <= m.end + 1 && c[m.end + 1 - |words[m.pi]|..m.end + 1] == words[m.pi]
  }

  ghost predicate Accepted(u: Unicode, words: seq<seq<Rune>>, c: seq<Rune>, m: Match)
    requires Fits(words, c, m)
  {
    IsAsciiWord(words[m.pi]) ==> AsciiBoundary(u, c, m.end + 1 - |words[m.pi]|, m.end)
  }

  ghost function ToHit(words: seq<seq<Rune>>, meta: seq<Pattern>, idx: seq<nat>, m: Match): Hit
    requires |words| == |meta| && m.pi < |words| && m.end < |idx| && 0 < |words[m.pi]| <= m.end + 1
  {
    Hit(meta[m.pi].cat, idx[m.end + 1 - |words[m.pi]|], idx[m.end] + 1)
  }

  ghost function HitsOf(u: Unicode, words: seq<seq<Rune>>, meta: seq<Pattern>, c: seq<Rune>, idx: seq<nat>, ms: seq<Match>): seq<Hit>
    requires |words| == |meta| && |idx| == |c| && forall i :: 0 <= i < |ms| ==> Fits(words, c, ms[i])
  {
    if ms == [] then []
    else
      var m := ms[|ms| - 1];
      var before := HitsOf(u, words, meta, c, idx, ms[..|ms| - 1]);
      if Accepted(u, words, c, m) then before + [ToHit(words, meta, idx, m)] else before
  }

  lemma MatchesFit(words: seq<seq<Rune>>, c: seq<Rune>)
    requires NonEmptyWords(words)
    ensures forall i :: 0 <= i < |AllMatches(words, c)| ==> Fits(words, c, AllMatches(words, c)[i])
  {
    forall i | 0 <= i < |AllMatches(words, c)|
      ensures Fits(words, c, AllMatches(words, c)[i])
    {
      MatchFits(words, c, AllMatches(words, c)[i]);
    }
  }

  lemma MatchFits(words: seq<seq<Rune>>, c: seq<Rune>, m: Match)
    requires NonEmptyWords(words)
    ensures m in AllMatches(words, c) <==> Fits(words, c, m)
  {
    MatchesExact(words, c, |c|, m);
    if m.pi < |words| && m.end < |c| && |words[m.pi]| <= m.end + 1 {
      var a := m.end + 1 - |words[m.pi]|;
      assert c[..m.end + 1][a..] == c[a..m.end + 1];
    }
  }

  /** The keyword hits of a text, in callback order. */
  ghost function KeywordHitsOf(u: Unicode, words: seq<seq<Rune>>, meta: seq<Pattern>, orig: seq<Rune>): seq<Hit>
    requires Compiled(words, meta)
  {
    MatchesFit(words, Compact(u, orig));
    HitsOf(u, words, meta, Compact(u, orig), KeptIdx(u, orig), AllMatches(words, Compact(u, orig)))
  }

  /** The scan callback of Check, once per match. */
  method HitsFor(u: Unicode, ghost words: seq<seq<Rune>>, pats: seq<Pattern>, compact: seq<Rune>, compactIdx: seq<nat>, ms: seq<Match>)
    returns (hits: seq<Hit>)
    requires Compiled(words, pats) && |compactIdx| == |compact|
    requires forall i :: 0 <= i < |ms| ==> Fits(words, compact, ms[i])
    ensures hits == HitsOf(u, words, pats, compact, compactIdx, ms)
  {
    hits := [];
    for i := 0 to |ms|
      invariant hits == HitsOf(u, words, pats, compact, compactIdx, ms[..i])
    {
      assert ms[..i + 1][..i] == ms[..i];
      var p, end := pats[ms[i].pi], ms[i].end;
      var start := end - p.length + 1;
      if p.ascii && !AsciiBoundary(u, compact, start, end) {
        continue;
      }
      hits := hits + [Hit(p.cat, compactIdx[start], compactIdx[end] + 1)];
    }
    assert ms[..|ms|] == ms;
  }

  /** The two scans of Check, over the keywords and over the allow words. */
  method SpanHits(u: Unicode, a: Automaton, ghost orig: seq<Rune>, compact: seq<Rune>, compactIdx: seq<nat>) returns (hits: seq<Hit>)
    requires a.Valid() && Compiled(a.words, a.pats)
    requires compact == Compact(u, orig) && compactIdx == KeptIdx(u, orig)
    ensures hits == KeywordHitsOf(u, a.words, a.pats, orig)
  {
    MatchesFit(a.words, compact);
    ghost var steps;
    var ms;
    ms, steps := a.Scan(compact);
    hits := HitsFor(u, a.words, a.pats, compact, compactIdx, ms);
  }

  // ------------------------------------------------------------------
  // What a keyword hit is, on the original text
  // ------------------------------------------------------------------

  /** Neither the last rune of `before` nor the first of `after` is an ASCII letter or digit. */
  ghost predicate Separate(u: Unicode, before: seq<Rune>, after: seq<Rune>) {
    && (before != [] ==> !IsAsciiAlnum(u, before[|before| - 1]))
    && (after != [] ==> !IsAsciiAlnum(u, after[0]))
  }

  /**
    Word `pi` occurs as `orig[start..end]`: the interval starts and ends on kept runes, compacts to the
    word's normal form, and a pure-ASCII word does not touch an ASCII letter or digit on either side of it
    (whatever dropped runes lie between).
   */
  ghost predicate OccursAt(u: Unicode, words: seq<seq<Rune>>, orig: seq<Rune>, pi: nat, start: nat, end: nat) {
    && pi < |words| && start < end <= |orig|
    && CompactRune(u, orig[start]).Keep? && CompactRune(u, orig[end - 1]).Keep?
    && Compact(u, orig[start..end]) == words[pi]
    && (IsAsciiWord(words[pi]) ==> Separate(u, Compact(u, orig[..start]), Compact(u, orig[end..])))
  }

  lemma BoundaryIffSeparate(u: Unicode, c: seq<Rune>, a: nat, b: nat)
    requires a <= b < |c|
    ensures AsciiBoundary(u, c, a, b) <==> Separate(u, c[..a], c[b + 1..])
  {
    assert a > 0 ==> c[..a][a - 1] == c[a - 1];
    assert b + 1 < |c| ==> c[b + 1..][0] == c[b + 1];
  }

  lemma AcceptedIffOccurs(u: Unicode, words: seq<seq<Rune>>, meta: seq<Pattern>, orig: seq<Rune>, m: Match, h: Hit)
    requires Compiled(words, meta) && Fits(words, Compact(u, orig), m)
    requires h == ToHit(words, meta, KeptIdx(u, orig), m)
    ensures Accepted(u, words, Compact(u, orig), m) <==> OccursAt(u, words, orig, m.pi, h.start, h.end)
  {
    var a, b, c := m.end + 1 - |words[m.pi]|, m.end, Compact(u, orig);
    WindowCompact(u, orig, c, a, b, h.start, h.end);
    BoundaryIffSeparate(u, c, a, b);
  }

  /** The places in the compact view that an occurrence starts and ends at. */
  lemma OccurrencePlaces(u: Unicode, words: seq<seq<Rune>>, orig: seq<Rune>, pi: nat, start: nat, end: nat) returns (a: nat, b: nat)
    requires OccursAt(u, words, orig, pi, start, end)
    ensures a <= b < |Compact(u, orig)| == |KeptIdx(u, orig)|
    ensures KeptIdx(u, orig)[a] == start && KeptIdx(u, orig)[b] + 1 == end
    ensures Compact(u, orig)[a..b + 1] == words[pi]
  {
    KeptIdxComplete(u, orig, start);
    KeptIdxComplete(u, orig, end - 1);
    a, b := |Compact(u, orig[..start])|, |Compact(u, orig[..end - 1])|;
    CutAt(u, orig, start, end);
    LastKept(u, orig, end);
  }

  /** The interval of an occurrence comes from a match. */
  lemma OccurrenceMatches(u: Unicode, words: seq<seq<Rune>>, meta: seq<Pattern>, orig: seq<Rune>, pi: nat, start: nat, end: nat) returns (m: Match)
    requires Compiled(words, meta) && OccursAt(u, words, orig, pi, start, end)
    ensures m.pi == pi && Fits(words, Compact(u, orig), m)
    ensures ToHit(words, meta, KeptIdx(u, orig), m) == Hit(meta[pi].cat, start, end)
  {
    var a, b := OccurrencePlaces(u, words, orig, pi, start, end);
    m := Match(pi, b);
  }

  lemma LastKept(u: Unicode, orig: seq<Rune>, end: nat)
    requires 0 < end <= |orig|
    ensures Compact(u, orig[..end]) == Compact(u, orig[..end - 1]) + Compact(u, [orig[end - 1]])
  {
    TakeSnoc(orig, end - 1);
    CompactConcat(u, orig[..end - 1], [orig[end - 1]]);
  }

  lemma {:induction false} HitsOfExact(u: Unicode, words: seq<seq<Rune>>, meta: seq<Pattern>, c: seq<Rune>, idx: seq<nat>, ms: seq<Match>, h: Hit)
    requires |words| == |meta| && |idx| == |c| && forall i :: 0 <= i < |ms| ==> Fits(words, c, ms[i])
    ensures h in HitsOf(u, words, meta, c, idx, ms) <==>
              exists i :: 0 <= i < |ms| && Accepted(u, words, c, ms[i]) && ToHit(words, meta, idx, ms[i]) == h
  {
    if ms != [] {
      var t := ms[..|ms| - 1];
      HitsOfExact(u, words, meta, c, idx, t, h);
      assert forall i :: 0 <= i < |t| ==> t[i] == ms[i];
    }
  }

  lemma HitOccurs(u: Unicode, words: seq<seq<Rune>>, meta: seq<Pattern>, orig: seq<Rune>, h: Hit) returns (pi: nat)
    requires Compiled(words, meta) && h in KeywordHitsOf(u, words, meta, orig)
    ensures pi < |words| && meta[pi].cat == h.cat && OccursAt(u, words, orig, pi, h.start, h.end)
  {
    var c, idx := Compact(u, orig), KeptIdx(u, orig);
    var ms := AllMatches(words, c);
    MatchesFit(words, c);
    HitsOfExact(u, words, meta, c, idx, ms, h);
    var i :| 0 <= i < |ms| && Accepted(u, words, c, ms[i]) && ToHit(words, meta, idx, ms[i]) == h;
    AcceptedIffOccurs(u, words, meta, orig, ms[i], h);
    pi := ms[i].pi;
  }

  lemma OccurrenceHits(u: Unicode, words: seq<seq<Rune>>, meta: seq<Pattern>, orig: seq<Rune>, pi: nat, h: Hit)
    requires Compiled(words, meta) && OccursAt(u, words, orig, pi, h.start, h.end) && meta[pi].cat == h.cat
    ensures h in KeywordHitsOf(u, words, meta, orig)
  {
    var c := Compact(u, orig);
    var ms := AllMatches(words, c);
    var m := OccurrenceMatches(u, words, meta, orig, pi, h.start, h.end);
    MatchesFit(words, c);
    HitsOfExact(u, words, meta, c, KeptIdx(u, orig), ms, h);
    AcceptedIffOccurs(u, words, meta, orig, m, h);
    MatchFits(words, c, m);
    var i :| 0 <= i < |ms| && ms[i] == m;
  }

  /** The keyword hits of a text are exactly the occurrences of the compiled words, with their category. */
  lemma KeywordHitsExact(u: Unicode, words: seq<seq<Rune>>, meta: seq<Pattern>, orig: seq<Rune>, h: Hit)
    requires Compiled(words, meta)
    ensures h in KeywordHitsOf(u, words, meta, orig) <==>
              exists pi :: 0 <= pi < |words| && meta[pi].cat == h.cat && OccursAt(u, words, orig, pi, h.start, h.end)
  {
    if h in KeywordHitsOf(u, words, meta, orig) {
      var pi := HitOccurs(u, words, meta, orig, h);
    }
    if pi :| 0 <= pi < |words| && meta[pi].cat == h.cat && OccursAt(u, words, orig, pi, h.start, h.end) {
      OccurrenceHits(u, words, meta, orig, pi, h);
    }
  }

  /** Hits lie inside the text and are not empty. */
  ghost predicate InText(orig: seq<Rune>, hits: seq<Hit>) {
    forall i :: 0 <= i < |hits| ==> hits[i].start < hits[i].end <= |orig|
  }

  lemma KeywordHitsInText(u: Unicode, words: seq<seq<Rune>>, meta: seq<Pattern>, orig: seq<Rune>)
    requires Compiled(words, meta)
    ensures InText(orig, KeywordHitsOf(u, words, meta, orig))
  {
    var hits := KeywordHitsOf(u, words, meta, orig);
    forall i | 0 <= i < |hits|
      ensures hits[i].start < hits[i].end <= |orig|
    {
      KeywordHitsExact(u, words, meta, orig, hits[i]);
      assert hits[i] in hits;
    }
  }

  // ------------------------------------------------------------------
  // Noise between the letters changes nothing
  // ------------------------------------------------------------------

  /** What a hit reads as: its category and the compaction of its text. */
  ghost function Reading(u: Unicode, orig: seq<Rune>, h: Hit): (Category, seq<Rune>) {
    (h.cat, if h.start <= h.end <= |orig| then Compact(u, orig[h.start..h.end]) else [])
  }

  ghost function Readings(u: Unicode, orig: seq<Rune>, hits: seq<Hit>): seq<(Category, seq<Rune>)> {
    if hits == [] then [] else Readings(u, orig, hits[..|hits| - 1]) + [Reading(u, orig, hits[|hits| - 1])]
  }

  lemma ReadingsSnoc(u: Unicode, orig: seq<Rune>, hits: seq<Hit>, h: Hit)
    ensures Readings(u, orig, hits + [h]) == Readings(u, orig, hits) + [Reading(u, orig, h)]
  {
    assert (hits + [h])[..|hits|] == hits;
  }

  /** The reading of a hit is the category and the normal form of its word, wherever the text puts it. */
  lemma ReadingOfMatch(u: Unicode, words: seq<seq<Rune>>, meta: seq<Pattern>, s: seq<Rune>, m: Match, h: Hit)
    requires Compiled(words, meta) && Fits(words, Compact(u, s), m)
    requires h == ToHit(words, meta, KeptIdx(u, s), m)
    ensures Reading(u, s, h) == (meta[m.pi].cat, words[m.pi])
  {
    var a, c := m.end + 1 - |words[m.pi]|, Compact(u, s);
    WindowCompact(u, s, c, a, m.end, h.start, h.end);
    assert Compact(u, s[h.start..h.end]) == c[a..m.end + 1] == words[m.pi];
  }

  /** The accepted matches of a compact view, as categories and words. */
  ghost function AcceptedWords(u: Unicode, words: seq<seq<Rune>>, meta: seq<Pattern>, c: seq<Rune>, ms: seq<Match>): seq<(Category, seq<Rune>)>
    requires |words| == |meta| && forall i :: 0 <= i < |ms| ==> Fits(words, c, ms[i])
  {
    if ms == [] then []
    else
      var m := ms[|ms| - 1];
      var before := AcceptedWords(u, words, meta, c, ms[..|ms| - 1]);
      if Accepted(u, words, c, m) then before + [(meta[m.pi].cat, words[m.pi])] else before
  }

  /** Hits read as the accepted words: nothing of the original text but its compact view matters. */
  lemma {:induction false} HitsReadAsWords(u: Unicode, words: seq<seq<Rune>>, meta: seq<Pattern>, s: seq<Rune>, c: seq<Rune>, idx: seq<nat>, ms: seq<Match>)
    requires Compiled(words, meta) && c == Compact(u, s) && idx == KeptIdx(u, s)
    requires forall i :: 0 <= i < |ms| ==> Fits(words, c, ms[i])
    ensures Readings(u, s, HitsOf(u, words, meta, c, idx, ms)) == AcceptedWords(u, words, meta, c, ms)
  {
    if ms != [] {
      var m, front := ms[|ms| - 1], ms[..|ms| - 1];
      HitsReadAsWords(u, words, meta, s, c, idx, front);
      var h, hits := ToHit(words, meta, idx, m), HitsOf(u, words, meta, c, idx, front);
      ReadingOfMatch(u, words, meta, s, m, h);
      ReadingsSnoc(u, s, hits, h);
    }
  }

  /**
    Inserting runes that compaction drops (spaces, punctuation, zero-width runes, emoji) anywhere in a text
    leaves the sequence of keyword matches unchanged: the same categories and words, in the same order.
   */
  lemma NoiseKeepsKeywords(u: Unicode, words: seq<seq<Rune>>, meta: seq<Pattern>, s: seq<Rune>, t: seq<Rune>)
    requires Compiled(words, meta) && InsertsDropped(u, s, t)
    ensures Readings(u, s, KeywordHitsOf(u, words, meta, s)) == Readings(u, t, KeywordHitsOf(u, words, meta, t))
  {
    DroppedInsertionsVanish(u, s, t);
    MatchesFit(words, Compact(u, s));
    HitsReadAsWords(u, words, meta, s, Compact(u, s), KeptIdx(u, s), AllMatches(words, Compact(u, s)));
    HitsReadAsWords(u, words, meta, t, Compact(u, s), KeptIdx(u, t), AllMatches(words, Compact(u, s)));
  }

  // ------------------------------------------------------------------
  // What an occurrence is, in terms of the Unicode tables
  // ------------------------------------------------------------------

  /**
    `orig[start..end]` spells `w`: it starts and ends on a letter or digit and compacts to `w`, and if `w` is pure ASCII
    the next letters or digits on both sides, if any, are not ASCII.
   */
  ghost predicate Spells(u: Unicode, w: seq<Rune>, orig: seq<Rune>, start: nat, end: nat) {
    && start < end <= |orig| && Compact(u, [orig[start]]) != [] && Compact(u, [orig[end - 1]]) != []
    && Compact(u, orig[start..end]) == w
    && ((forall i :: 0 <= i < |w| ==> w[i] < 0x80) ==>
          var before, after := Compact(u, orig[..start]), Compact(u, orig[end..]);
          (before != [] ==> before[|before| - 1] >= 0x80) && (after != [] ==> after[0] >= 0x80))
  }

  lemma OneRune(u: Unicode, r: Rune)
    ensures Compact(u, [r]) != [] <==> CompactRune(u, r).Keep?
  {
    assert [r][..0] == [];
  }

  lemma OccursSpells(u: Unicode, words: seq<seq<Rune>>, orig: seq<Rune>, pi: nat, start: nat, end: nat)
    ensures OccursAt(u, words, orig, pi, start, end) <==> pi < |words| && Spells(u, words[pi], orig, start, end)
  {
    if start < end <= |orig| {
      OneRune(u, orig[start]);
      OneRune(u, orig[end - 1]);
      CompactRunes(u, orig[..start]);
      CompactRunes(u, orig[end..]);
    }
  }

  lemma {:induction false} NormalizedMembers(u: Unicode, list: seq<seq<Rune>>, n: seq<Rune>)
    ensures n in Normalized(u, list) <==> n != [] && exists i :: 0 <= i < |list| && Compact(u, list[i]) == n
  {
    if list != [] {
      var k := |list| - 1;
      NormalizedMembers(u, list[..k], n);
      assert forall i :: 0 <= i < k ==> list[..k][i] == list[i];
    }
  }

  /** Spelling a text in other forms of its runes changes no keyword hit. */
  lemma AlikeKeywords(u: Unicode, words: seq<seq<Rune>>, meta: seq<Pattern>, s: seq<Rune>, t: seq<Rune>)
    requires AlikeTexts(s, t) && Compiled(words, meta)
    ensures KeywordHitsOf(u, words, meta, s) == KeywordHitsOf(u, words, meta, t)
  {
    AlikeCompact(u, s, t);
  }
}
