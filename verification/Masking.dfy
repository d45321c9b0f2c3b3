/**
  From hits to a masked text (Check in backend/internal/textfilter/textfilter.go): hits inside an allow span
  are removed in place, the rest sorted, overlapping or touching intervals merged, and each merged interval
  replaced by `**`.

  The reference is a position by position reading of the text (`MaskFrom`): uncovered runes stay, every
  maximal run of covered runes becomes one `**`.
 */
module Masking {
  import opened Collections
  import opened Runes
  import opened KeywordHits

  const MASK_TEXT: seq<Rune> := [0x2A, 0x2A]

  datatype Span = Span(start: nat, end: nat)

  // ------------------------------------------------------------------
  // Allow spans
  // ------------------------------------------------------------------

  predicate Inside(h: Hit, a: Span) {
    h.start >= a.start && h.end <= a.end
  }

  predicate CoveredBy(h: Hit, spans: seq<Span>) {
    exists i :: 0 <= i < |spans| && Inside(h, spans[i])
  }

  /** The hits no allow span contains, in order. */
  ghost function Uncovered(hits: seq<Hit>, spans: seq<Span>): (kept: seq<Hit>)
    ensures |kept| <= |hits|
  {
    if hits == [] then []
    else
      var kept := Uncovered(hits[..|hits| - 1], spans);
      var h := hits[|hits| - 1];
      if CoveredBy(h, spans) then kept else kept + [h]
  }

  lemma {:induction false} UncoveredExact(hits: seq<Hit>, spans: seq<Span>, h: Hit)
    ensures h in Uncovered(hits, spans) <==> h in hits && !CoveredBy(h, spans)
  {
    if hits != [] {
      var front := hits[..|hits| - 1];
      UncoveredExact(front, spans, h);
      assert h in hits <==> h in front || h == hits[|hits| - 1];
    }
  }

  /** ... each as often as before. */
  lemma {:induction false} UncoveredCount(hits: seq<Hit>, spans: seq<Span>, h: Hit)
    ensures multiset(Uncovered(hits, spans))[h] == if CoveredBy(h, spans) then 0 else multiset(hits)[h]
  {
    if hits != [] {
      var front := hits[..|hits| - 1];
      UncoveredCount(front, spans, h);
      assert hits == front + [hits[|hits| - 1]];
    }
  }

  method IsCovered(h: Hit, spans: seq<Span>) returns (covered: bool)
    ensures covered == CoveredBy(h, spans)
  {
    for i := 0 to |spans|
      invariant forall j :: 0 <= j < i ==> !Inside(h, spans[j])
    {
      if Inside(h, spans[i]) {
        return true;
      }
    }
    return false;
  }

  /** `kept := hits[:0]`: the kept hits are written over the front of the very array being read. */
  method DropCovered(hits: array<Hit>, spans: seq<Span>) returns (kept: nat)
    modifies hits
    ensures kept <= hits.Length && hits[..kept] == Uncovered(old(hits[..]), spans)
  {
    kept := 0;
    for i := 0 to hits.Length
      invariant kept <= i && hits[..kept] == Uncovered(old(hits[..])[..i], spans)
      invariant forall k :: i <= k < hits.Length ==> hits[k] == old(hits[k])
    {
      assert old(hits[..])[..i + 1][..i] == old(hits[..])[..i];
      var h := hits[i];
      var covered := IsCovered(h, spans);
      if !covered {
        ghost var before := hits[..kept];
        hits[kept] := h;
        assert hits[..kept] == before;
        kept := kept + 1;
      }
    }
    assert old(hits[..])[..hits.Length] == old(hits[..]);
  }

  // ------------------------------------------------------------------
  // Order
  // ------------------------------------------------------------------

  /** The comparison of sort.Slice; ties are in no particular order. */
  predicate InHitOrder(a: Hit, b: Hit) {
    a.start < b.start || (a.start == b.start && a.end >= b.end)
  }

  ghost predicate SortedHits(hits: seq<Hit>) {
    forall i, j :: 0 <= i < j < |hits| ==> InHitOrder(hits[i], hits[j])
  }

  /** sort.Slice, of which only order and permutation are promised. */
  method SortHits(hits: seq<Hit>) returns (sorted: seq<Hit>)
    ensures multiset(sorted) == multiset(hits) && SortedHits(sorted)
  {
    sorted := [];
    for i := 0 to |hits|
      invariant multiset(sorted) == multiset(hits[..i]) && SortedHits(sorted)
    {
      assert hits[..i + 1] == hits[..i] + [hits[i]];
      sorted := InsertHit(sorted, hits[i]);
    }
    assert hits[..|hits|] == hits;
  }

  method InsertHit(before: seq<Hit>, h: Hit) returns (sorted: seq<Hit>)
    requires SortedHits(before)
    ensures multiset(sorted) == multiset(before) + multiset{h} && SortedHits(sorted)
  {
    var k: nat := |before|;
    while k > 0 && !InHitOrder(before[k - 1], h)
      invariant k <= |before|
      invariant forall j :: k <= j < |before| ==> !InHitOrder(before[j], h)
    {
      k := k - 1;
    }
    InsertedSorted(before, k, h);
    sorted := before[..k] + [h] + before[k..];
    assert before == before[..k] + before[k..];
  }

  lemma InsertedSorted(before: seq<Hit>, k: nat, h: Hit)
    requires SortedHits(before) && k <= |before|
    requires k > 0 ==> InHitOrder(before[k - 1], h)
    requires forall j :: k <= j < |before| ==> InHitOrder(h, before[j])
    ensures SortedHits(before[..k] + [h] + before[k..])
  {
    var sorted := before[..k] + [h] + before[k..];
    forall i, j | 0 <= i < j < |sorted|
      ensures InHitOrder(sorted[i], sorted[j])
    {
      assert sorted[i] == if i < k then before[i] else if i == k then h else before[i - 1];
      assert sorted[j] == if j < k then before[j] else if j == k then h else before[j - 1];
      assert i < k - 1 ==> InHitOrder(before[i], before[k - 1]);
    }
  }

  // ------------------------------------------------------------------
  // Merging
  // ------------------------------------------------------------------

  /** Position `p` lies in some hit. */
  ghost predicate Covers(hits: seq<Hit>, p: int) {
    exists i :: 0 <= i < |hits| && hits[i].start <= p < hits[i].end
  }

  ghost predicate InSpans(spans: seq<Span>, p: int) {
    exists i :: 0 <= i < |spans| && spans[i].start <= p < spans[i].end
  }

  /** Non-empty intervals in order, with at least one position between neighbours. */
  ghost predicate Separated(spans: seq<Span>) {
    && (forall i :: 0 <= i < |spans| ==> spans[i].start < spans[i].end)
    && (forall i, j :: 0 <= i < j < |spans| ==> spans[i].end < spans[j].start)
  }

  /** Merged intervals are ordered and strictly separated, and cover exactly what the hits cover. */
  method MergeHits(hits: seq<Hit>) returns (merged: seq<Span>)
    requires SortedHits(hits) && forall i :: 0 <= i < |hits| ==> hits[i].start < hits[i].end
    ensures Separated(merged)
    ensures forall p :: InSpans(merged, p) <==> Covers(hits, p)
  {
    merged := [];
    for i := 0 to |hits|
      invariant Separated(merged)
      invariant merged != [] ==> i > 0 && merged[|merged| - 1].start <= hits[i - 1].start
      invariant merged == [] ==> i == 0
      invariant forall p :: InSpans(merged, p) <==> Covers(hits[..i], p)
    {
      var h, n := hits[i], |merged|;
      ghost var before := merged;
      assert i > 0 ==> InHitOrder(hits[i - 1], h);
      if n > 0 && h.start <= merged[n - 1].end {
        if h.end > merged[n - 1].end {
          merged := merged[n - 1 := Span(merged[n - 1].start, h.end)];
        }
      } else {
        merged := merged + [Span(h.start, h.end)];
      }
      MergeStep(before, merged, hits[..i], h);
      assert hits[..i + 1] == hits[..i] + [h];
    }
    assert hits[..|hits|] == hits;
  }

  /** One more hit, starting at or after the last interval's start. */
  lemma MergeStep(before: seq<Span>, after: seq<Span>, hits: seq<Hit>, h: Hit)
    requires Separated(before) && h.start < h.end
    requires forall p :: InSpans(before, p) <==> Covers(hits, p)
    requires before != [] ==> before[|before| - 1].start <= h.start
    requires
      if before != [] && h.start <= before[|before| - 1].end then
        var last := before[|before| - 1];
        after == if h.end > last.end then before[|before| - 1 := Span(last.start, h.end)] else before
      else after == before + [Span(h.start, h.end)]
    ensures forall p :: InSpans(after, p) <==> Covers(hits + [h], p)
  {
    forall p
      ensures InSpans(after, p) <==> Covers(hits + [h], p)
    {
      CoversSnoc(hits, h, p);
      assert InSpans(before, p) <==> Covers(hits, p);
      var n := |before|;
      if n > 0 && h.start <= before[n - 1].end {
        if InSpans(before, p) {
          var i :| 0 <= i < n && before[i].start <= p < before[i].end;
          assert after[i].start <= p < after[i].end;
        }
        if h.start <= p < h.end {
          assert after[n - 1].start <= p < after[n - 1].end;
        }
        if InSpans(after, p) {
          var i :| 0 <= i < n && after[i].start <= p < after[i].end;
          assert i < n - 1 ==> before[i] == after[i];
          if !(before[i].start <= p < before[i].end) {
            assert i == n - 1 && before[i].end <= p < h.end;
          }
        }
      } else {
        if InSpans(before, p) {
          var i :| 0 <= i < n && before[i].start <= p < before[i].end;
          assert after[i] == before[i];
        }
        assert after[n] == Span(h.start, h.end);
        if InSpans(after, p) {
          var i :| 0 <= i < n + 1 && after[i].start <= p < after[i].end;
          assert i < n ==> before[i] == after[i];
        }
      }
    }
  }

  lemma CoversSnoc(hits: seq<Hit>, h: Hit, p: int)
    ensures Covers(hits + [h], p) <==> Covers(hits, p) || h.start <= p < h.end
  {
    var all := hits + [h];
    if Covers(hits, p) {
      var i :| 0 <= i < |hits| && hits[i].start <= p < hits[i].end;
      assert all[i].start <= p < all[i].end;
    }
    if h.start <= p < h.end {
      assert all[|hits|].start <= p < all[|hits|].end;
    }
  }

  // ------------------------------------------------------------------
  // Splicing
  // ------------------------------------------------------------------

  /** The masked text from position `p` on: uncovered runes stay, a covered run becomes one `**`. */
  ghost function MaskFrom(orig: seq<Rune>, hits: seq<Hit>, p: nat): seq<Rune>
    decreases |orig| - p
  {
    if p >= |orig| then []
    else if !Covers(hits, p) then [orig[p]] + MaskFrom(orig, hits, p + 1)
    else if p > 0 && Covers(hits, p - 1) then MaskFrom(orig, hits, p + 1)
    else MASK_TEXT + MaskFrom(orig, hits, p + 1)
  }

  ghost function Masked(orig: seq<Rune>, hits: seq<Hit>): seq<Rune> {
    MaskFrom(orig, hits, 0)
  }

  /** An uncovered stretch is copied. */
  lemma {:induction false} MaskCopies(orig: seq<Rune>, hits: seq<Hit>, a: nat, b: nat)
    requires a <= b <= |orig| && forall p :: a <= p < b ==> !Covers(hits, p)
    ensures MaskFrom(orig, hits, a) == orig[a..b] + MaskFrom(orig, hits, b)
    decreases b - a
  {
    if a < b {
      var rest := MaskFrom(orig, hits, b);
      calc {
        MaskFrom(orig, hits, a);
        [orig[a]] + MaskFrom(orig, hits, a + 1);
        { MaskCopies(orig, hits, a + 1, b); }
        [orig[a]] + (orig[a + 1..b] + rest);
        { assert orig[a..b] == [orig[a]] + orig[a + 1..b]; }
        orig[a..b] + rest;
      }
    }
  }

  /** The rest of a covered stretch disappears. */
  lemma {:induction false} MaskSkips(orig: seq<Rune>, hits: seq<Hit>, a: nat, b: nat)
    requires 0 < a <= b <= |orig| && forall p :: a - 1 <= p < b ==> Covers(hits, p)
    ensures MaskFrom(orig, hits, a) == MaskFrom(orig, hits, b)
    decreases b - a
  {
    if a < b {
      MaskSkips(orig, hits, a + 1, b);
    }
  }

  /** A covered run that starts at `a` reads as one `**`. */
  lemma MaskRun(orig: seq<Rune>, hits: seq<Hit>, a: nat, b: nat)
    requires a < b <= |orig| && (a > 0 ==> !Covers(hits, a - 1)) && forall p :: a <= p < b ==> Covers(hits, p)
    ensures MaskFrom(orig, hits, a) == [0x2A, 0x2A] + MaskFrom(orig, hits, b)
  {
    MaskSkips(orig, hits, a + 1, b);
  }

  lemma GapsAroundSpan(spans: seq<Span>, k: nat, last: nat)
    requires Separated(spans) && k < |spans| && last == if k == 0 then 0 else spans[k - 1].end
    ensures last <= spans[k].start
    ensures forall p :: last <= p < spans[k].start ==> !InSpans(spans, p)
    ensures !InSpans(spans, spans[k].start - 1)
  {
  }

  /** One step of the splice loop: copy up to the interval, write `**`, go on after it. */
  lemma SpliceStep(orig: seq<Rune>, hits: seq<Hit>, spans: seq<Span>, k: nat, last: nat)
    requires Separated(spans) && k < |spans| && spans[|spans| - 1].end <= |orig|
    requires forall p :: InSpans(spans, p) <==> Covers(hits, p)
    requires last == if k == 0 then 0 else spans[k - 1].end
    ensures last <= spans[k].start < spans[k].end <= |orig|
    ensures MaskFrom(orig, hits, last) == orig[last..spans[k].start] + (MASK_TEXT + MaskFrom(orig, hits, spans[k].end))
  {
    var m := spans[k];
    GapsAroundSpan(spans, k, last);
    forall p | last <= p < m.start
      ensures !Covers(hits, p)
    {
      assert !InSpans(spans, p);
    }
    forall p | m.start <= p < m.end
      ensures Covers(hits, p)
    {
      assert InSpans(spans, p);
    }
    assert m.start > 0 ==> !InSpans(spans, m.start - 1);
    MaskCopies(orig, hits, last, m.start);
    MaskRun(orig, hits, m.start, m.end);
  }

  /** The splice loop of Check. */
  method Splice(orig: seq<Rune>, merged: seq<Span>, ghost hits: seq<Hit>) returns (masked: seq<Rune>)
    requires Separated(merged) && (merged != [] ==> merged[|merged| - 1].end <= |orig|)
    requires forall p :: InSpans(merged, p) <==> Covers(hits, p)
    ensures masked == Masked(orig, hits)
  {
    masked := [];
    var last: nat := 0;
    for k := 0 to |merged|
      invariant last == (if k == 0 then 0 else merged[k - 1].end) <= |orig|
      invariant Masked(orig, hits) == masked + MaskFrom(orig, hits, last)
    {
      SpliceStep(orig, hits, merged, k, last);
      ghost var before, rest := masked, MaskFrom(orig, hits, merged[k].end);
      masked := masked + orig[last..merged[k].start];
      masked := masked + MASK_TEXT;
      assert before + (orig[last..merged[k].start] + (MASK_TEXT + rest)) == masked + rest;
      last := merged[k].end;
    }
    forall p | last <= p < |orig|
      ensures !Covers(hits, p)
    {
      assert !InSpans(merged, p);
    }
    MaskCopies(orig, hits, last, |orig|);
    masked := masked + orig[last..];
  }
}
