/**
  Long digit runs (digitRunHits in backend/internal/textfilter/textfilter.go): digits in any script, at most
  two separators between neighbours. The reference is the partition of all digit positions into maximal
  blocks of neighbours; a block is reported by its number of digits and the text before it.
 */
module DigitRuns {
  import opened Collections
  import opened Runes
  import opened TextViews
  import opened KeywordHits

  datatype Digit = NoDigit | Is(ascii: Rune)

  /** ASCII digits, Chinese and financial numerals, circled digits; `f` is folded. */
  function DigitOf(f: Rune): Digit {
    if 0x30 <= f <= 0x39 then Is(f)
    else if f == 0x96F6 || f == 0x3007 || f == 0x24EA then Is(0x30)
    else if f == 0x4E00 || f == 0x58F9 || f == 0x5E7A || f == 0x2460 then Is(0x31)
    else if f == 0x4E8C || f == 0x8D30 || f == 0x2461 then Is(0x32)
    else if f == 0x4E09 || f == 0x53C1 || f == 0x2462 then Is(0x33)
    else if f == 0x56DB || f == 0x8086 || f == 0x2463 then Is(0x34)
    else if f == 0x4E94 || f == 0x4F0D || f == 0x2464 then Is(0x35)
    else if f == 0x516D || f == 0x9646 || f == 0x2465 then Is(0x36)
    else if f == 0x4E03 || f == 0x67D2 || f == 0x2466 then Is(0x37)
    else if f == 0x516B || f == 0x634C || f == 0x2467 then Is(0x38)
    else if f == 0x4E5D || f == 0x7396 || f == 0x2468 then Is(0x39)
    else NoDigit
  }

  function DigitValue(u: Unicode, r: Rune): Digit {
    DigitOf(FoldRune(u, r))
  }

  predicate IsDigitSeparator(f: Rune) {
    f == 0x20 || f == 0x2D || f == 0x5F || f == 0x2E || f == 0xB7 || f == 0x3001 || f == 0x2C || f == 0xFF0C
    || f == 0x2F || f == 0x7C || f == 0x09 || f == 0x2014 || f == 0xFF0D || f == 0x7E || f == 0x2A
  }

  /** A digit at `p`. */
  predicate IsD(u: Unicode, s: seq<Rune>, p: int) {
    0 <= p < |s| && DigitValue(u, s[p]).Is?
  }

  /** A separator at `p`. */
  predicate IsSep(u: Unicode, s: seq<Rune>, p: int) {
    0 <= p < |s| && IsDigitSeparator(FoldRune(u, s[p]))
  }

  lemma NoDigitSeparates(f: Rune)
    ensures IsDigitSeparator(f) ==> DigitOf(f) == NoDigit
  {
  }

  lemma DigitsAreNotSeparators(u: Unicode, s: seq<Rune>, p: int)
    ensures !(IsD(u, s, p) && IsSep(u, s, p))
  {
    if 0 <= p < |s| {
      NoDigitSeparates(FoldRune(u, s[p]));
    }
  }

  // ------------------------------------------------------------------
  // Blocks
  // ------------------------------------------------------------------

  /** Two neighbouring digits, with at most two separators and nothing else between them. */
  ghost predicate Gap(u: Unicode, s: seq<Rune>, p: int, q: int) {
    IsD(u, s, p) && IsD(u, s, q) && p < q <= p + 3 && forall k :: p < k < q ==> IsSep(u, s, k)
  }

  /** From every digit of `[a, b)` but the last a gap leads on inside. */
  ghost predicate Chain(u: Unicode, s: seq<Rune>, a: int, b: int) {
    && a < b && IsD(u, s, a) && IsD(u, s, b - 1)
    && forall p :: a <= p < b - 1 && IsD(u, s, p) ==> HasNext(u, s, p, b)
  }

  ghost predicate HasNext(u: Unicode, s: seq<Rune>, p: int, b: int) {
    exists q :: q < b && Gap(u, s, p, q)
  }

  ghost predicate NoGapFrom(u: Unicode, s: seq<Rune>, p: int) {
    forall q :: !Gap(u, s, p, q)
  }

  ghost predicate NoGapInto(u: Unicode, s: seq<Rune>, q: int) {
    forall p :: !Gap(u, s, p, q)
  }

  /** A maximal chain. */
  ghost predicate Block(u: Unicode, s: seq<Rune>, a: int, b: int) {
    Chain(u, s, a, b) && NoGapInto(u, s, a) && NoGapFrom(u, s, b - 1)
  }

  /** The digits of `[a, b)`, as ASCII. */
  ghost function DigitsOf(u: Unicode, s: seq<Rune>, a: int, b: int): (ds: seq<Rune>)
    requires 0 <= a && b <= |s|
    decreases b - a
  {
    if b <= a then []
    else
      var before := DigitsOf(u, s, a, b - 1);
      match DigitValue(u, s[b - 1]) case NoDigit => before case Is(d) => before + [d]
  }

  /** At least 9 digits, or 5 to 8 right after a contact hint in the 12 runes before. */
  ghost predicate Reported(u: Unicode, s: seq<Rune>, link: seq<Rune>, hint: seq<Rune> -> bool, a: int, b: int)
    requires 0 <= a <= |link| && b <= |s|
  {
    var n := |DigitsOf(u, s, a, b)|;
    n >= 9 || (n >= 5 && hint(link[(if a < 12 then 0 else a - 12)..a]))
  }

  lemma SeparatorsAddNoDigits(u: Unicode, s: seq<Rune>, a: int, b: int, c: int)
    requires 0 <= a <= b <= c <= |s| && forall k :: b <= k < c ==> !IsD(u, s, k)
    ensures DigitsOf(u, s, a, c) == DigitsOf(u, s, a, b)
    decreases c - b
  {
    if b < c {
      SeparatorsAddNoDigits(u, s, a, b, c - 1);
      assert !IsD(u, s, c - 1);
    }
  }

  /** A chain takes in the digit its last digit leads to. */
  lemma ChainGrows(u: Unicode, s: seq<Rune>, a: int, b: int, j: int)
    requires Chain(u, s, a, b) && Gap(u, s, b - 1, j)
    ensures Chain(u, s, a, j + 1)
    ensures 0 <= a && j < |s| && |DigitsOf(u, s, a, j + 1)| == |DigitsOf(u, s, a, b)| + 1
  {
    forall p | a <= p < j && IsD(u, s, p)
      ensures HasNext(u, s, p, j + 1)
    {
      if p < b - 1 {
        assert HasNext(u, s, p, b);
      } else if p > b - 1 {
        DigitsAreNotSeparators(u, s, p);
      }
    }
    forall k | b <= k < j
      ensures !IsD(u, s, k)
    {
      DigitsAreNotSeparators(u, s, k);
    }
    SeparatorsAddNoDigits(u, s, a, b, j);
  }

  // ------------------------------------------------------------------
  // Every digit belongs to exactly one block
  // ------------------------------------------------------------------

  /** Inside a chain every digit but the first is reached by a gap. */
  lemma ChainReaches(u: Unicode, s: seq<Rune>, a: int, b: int, p: int)
    requires Chain(u, s, a, b) && a < p < b && IsD(u, s, p)
    ensures !NoGapInto(u, s, p)
  {
    var q := p - 1;
    while !IsD(u, s, q)
      invariant a <= q < p && forall k :: q < k < p ==> !IsD(u, s, k)
      decreases q
    {
      q := q - 1;
    }
    assert HasNext(u, s, q, b);
    var q' :| q' < b && Gap(u, s, q, q');
    if q' > p {
      DigitsAreNotSeparators(u, s, p);
    }
    assert Gap(u, s, q, p);
  }

  lemma ChainLeaves(u: Unicode, s: seq<Rune>, a: int, b: int, p: int)
    requires Chain(u, s, a, b) && a <= p < b - 1 && IsD(u, s, p)
    ensures !NoGapFrom(u, s, p)
  {
    assert HasNext(u, s, p, b);
  }

  /** Two blocks with a common digit are the same block. */
  lemma BlocksDisjoint(u: Unicode, s: seq<Rune>, a: int, b: int, a': int, b': int, p: int)
    requires Block(u, s, a, b) && Block(u, s, a', b') && a <= p < b && a' <= p < b'
    ensures a == a' && b == b'
  {
    if a < a' {
      ChainReaches(u, s, a, b, a');
    } else if a' < a {
      ChainReaches(u, s, a', b', a);
    }
    if b < b' {
      ChainLeaves(u, s, a', b', b - 1);
    } else if b' < b {
      ChainLeaves(u, s, a, b, b' - 1);
    }
  }

  /** Every digit lies in a block. */
  lemma BlockOf(u: Unicode, s: seq<Rune>, p: int) returns (a: int, b: int)
    requires IsD(u, s, p)
    ensures Block(u, s, a, b) && a <= p < b
  {
    a, b := p, p + 1;
    while !NoGapInto(u, s, a)
      invariant Chain(u, s, a, b) && 0 <= a <= p < b
      decreases a
    {
      var q :| Gap(u, s, q, a);
      forall k | q <= k < b - 1 && IsD(u, s, k)
        ensures HasNext(u, s, k, b)
      {
        if q < k < a {
          DigitsAreNotSeparators(u, s, k);
        } else if k >= a {
          assert HasNext(u, s, k, b);
        }
      }
      a := q;
    }
    while !NoGapFrom(u, s, b - 1)
      invariant Chain(u, s, a, b) && NoGapInto(u, s, a) && a <= p < b <= |s|
      decreases |s| - b
    {
      var q :| Gap(u, s, b - 1, q);
      ChainGrows(u, s, a, b, q);
      b := q + 1;
    }
  }

  // ------------------------------------------------------------------
  // The scan
  // ------------------------------------------------------------------

  /** No gap crosses `i`, so a block lies wholly before or wholly from `i` on. */
  ghost predicate Cut(u: Unicode, s: seq<Rune>, i: int) {
    forall p, q :: p < i <= q ==> !Gap(u, s, p, q)
  }

  /** From digit `start` to the end of its chain. */
  method RunFrom(u: Unicode, s: seq<Rune>, start: nat) returns (end: nat, digits: seq<Rune>)
    requires IsD(u, s, start)
    ensures Chain(u, s, start, end) && NoGapFrom(u, s, end - 1) && end <= |s|
    ensures |digits| == |DigitsOf(u, s, start, end)|
  {
    end, digits := start, [];
    var j: nat := start;
    while j < |s|
      invariant start <= end <= j <= |s|
      invariant if end == start then j == start && digits == []
                else Chain(u, s, start, end) && |digits| == |DigitsOf(u, s, start, end)| && (j == end || Gap(u, s, end - 1, j))
      decreases |s| - j
    {
      var d := DigitValue(u, s[j]);
      if d.Is? {
        if end == start {
          assert DigitsOf(u, s, start, start) == [];
        } else {
          assert j == end ==> Gap(u, s, end - 1, j);
          ChainGrows(u, s, start, end, j);
        }
        digits := digits + [d.ascii];
        end := j + 1;
        j := j + 1;
        continue;
      }
      var k := j;
      while k < |s| && k - j < 2 && IsDigitSeparator(FoldRune(u, s[k]))
        invariant j <= k <= |s| && k - j <= 2 && forall p :: j <= p < k ==> IsSep(u, s, p)
      {
        k := k + 1;
      }
      if k > j && k < |s| && DigitValue(u, s[k]).Is? {
        assert Gap(u, s, end - 1, k);
        j := k;
        continue;
      }
      NoNeighbour(u, s, end - 1, k);
      break;
    }
  }

  /** The separator loop stopped at `k` without reaching a digit. */
  lemma NoNeighbour(u: Unicode, s: seq<Rune>, p: int, k: int)
    requires IsD(u, s, p) && p + 1 <= k <= |s| && k - (p + 1) <= 2 && !IsD(u, s, p + 1)
    requires forall i :: p + 1 <= i < k ==> IsSep(u, s, i)
    requires k < |s| && k - (p + 1) < 2 ==> !IsSep(u, s, k)
    requires !(k > p + 1 && IsD(u, s, k))
    ensures NoGapFrom(u, s, p)
  {
    forall q
      ensures !Gap(u, s, p, q)
    {
      if Gap(u, s, p, q) {
        DigitsAreNotSeparators(u, s, q);
      }
    }
  }

  /**
    The reported hits are exactly the blocks with enough digits, in order and disjoint. The phone-number test
    never decides: eleven digits are reported anyway.
   */
  method DigitRunHits(u: Unicode, orig: seq<Rune>, link: seq<Rune>, hint: seq<Rune> -> bool, mobile: seq<Rune> -> bool) returns (hits: seq<Hit>)
    requires |link| == |orig|
    ensures forall i, j :: 0 <= i < j < |hits| ==> hits[i].end <= hits[j].start
    ensures forall a: nat, b: nat :: Hit(Contact, a, b) in hits <==>
              b <= |orig| && Block(u, orig, a, b) && Reported(u, orig, link, hint, a, b)
    ensures forall i :: 0 <= i < |hits| ==> hits[i].cat == Contact && hits[i].start < hits[i].end <= |orig|
  {
    hits := [];
    var i: nat := 0;
    while i < |orig|
      invariant i <= |orig| && Cut(u, orig, i)
      invariant forall k :: 0 <= k < |hits| ==> hits[k].cat == Contact && hits[k].start < hits[k].end <= i
      invariant forall k, l :: 0 <= k < l < |hits| ==> hits[k].end <= hits[l].start
      invariant forall a: nat, b: nat :: Hit(Contact, a, b) in hits <==>
                  a < i && b <= |orig| && Block(u, orig, a, b) && Reported(u, orig, link, hint, a, b)
      decreases |orig| - i
    {
      if DigitValue(u, orig[i]) == NoDigit {
        i := i + 1;
        continue;
      }
      var start := i;
      var end, digits := RunFrom(u, orig, start);
      BlockHere(u, orig, start, end);
      i := end;
      var cnt := |digits|;
      if cnt >= 11 && mobile(digits) {
      } else if cnt >= 9 {
      } else if cnt >= 5 {
        var prefixStart := if start < 12 then 0 else start - 12;
        if !hint(link[prefixStart..start]) {
          continue;
        }
      } else {
        continue;
      }
      hits := hits + [Hit(Contact, start, end)];
    }
  }

  /** The chain found from a cut is a block, the only one starting before its end, and its end is a cut. */
  lemma BlockHere(u: Unicode, s: seq<Rune>, start: nat, end: nat)
    requires Cut(u, s, start) && Chain(u, s, start, end) && NoGapFrom(u, s, end - 1)
    ensures Block(u, s, start, end) && Cut(u, s, end)
    ensures forall a, b :: start <= a < end && Block(u, s, a, b) ==> a == start && b == end
  {
    forall a, b | start <= a < end && Block(u, s, a, b)
      ensures a == start && b == end
    {
      assert NoGapInto(u, s, start);
      BlocksDisjoint(u, s, start, end, a, b, a);
    }
    forall p, q | p < end <= q
      ensures !Gap(u, s, p, q)
    {
      if start <= p < end - 1 && Gap(u, s, p, q) {
        DigitsAreNotSeparators(u, s, end - 1);
      }
    }
  }

  // ------------------------------------------------------------------
  // Digits and separators in other forms
  // ------------------------------------------------------------------

  /** Two texts with the same digits and separators at the same places. */
  ghost predicate SameFigures(u: Unicode, s: seq<Rune>, t: seq<Rune>) {
    |s| == |t| && forall p :: 0 <= p < |s| ==> DigitValue(u, s[p]) == DigitValue(u, t[p]) && (IsSep(u, s, p) <==> IsSep(u, t, p))
  }

  lemma AlikeFigures(u: Unicode, s: seq<Rune>, t: seq<Rune>)
    requires AlikeTexts(s, t)
    ensures SameFigures(u, s, t)
  {
    forall p | 0 <= p < |s|
      ensures DigitValue(u, s[p]) == DigitValue(u, t[p]) && (IsSep(u, s, p) <==> IsSep(u, t, p))
    {
      AlikeFold(u, s[p], t[p]);
    }
  }

  lemma SameGaps(u: Unicode, s: seq<Rune>, t: seq<Rune>)
    requires SameFigures(u, s, t)
    ensures forall p :: IsD(u, s, p) <==> IsD(u, t, p)
    ensures forall p, q :: Gap(u, s, p, q) <==> Gap(u, t, p, q)
  {
  }

  lemma SameBlocks(u: Unicode, s: seq<Rune>, t: seq<Rune>, a: int, b: int)
    requires SameFigures(u, s, t)
    ensures Block(u, s, a, b) <==> Block(u, t, a, b)
  {
    SameGaps(u, s, t);
    SameNexts(u, s, t, b);
    SameNexts(u, t, s, b);
  }

  lemma SameNexts(u: Unicode, s: seq<Rune>, t: seq<Rune>, b: int)
    requires SameFigures(u, s, t)
    ensures forall p :: HasNext(u, s, p, b) ==> HasNext(u, t, p, b)
    ensures forall p :: NoGapFrom(u, t, p) ==> NoGapFrom(u, s, p)
    ensures forall p :: NoGapInto(u, t, p) ==> NoGapInto(u, s, p)
  {
    SameGaps(u, s, t);
    forall p | HasNext(u, s, p, b)
      ensures HasNext(u, t, p, b)
    {
      var q :| q < b && Gap(u, s, p, q);
      assert Gap(u, t, p, q);
    }
  }

  lemma {:induction false} SameDigits(u: Unicode, s: seq<Rune>, t: seq<Rune>, a: int, b: int)
    requires SameFigures(u, s, t) && 0 <= a && b <= |s|
    ensures DigitsOf(u, s, a, b) == DigitsOf(u, t, a, b)
    decreases b - a
  {
    if a < b {
      SameDigits(u, s, t, a, b - 1);
    }
  }

  // ------------------------------------------------------------------
  // Which runes are digits, and that long numbers are found
  // ------------------------------------------------------------------

  /** Place k: the characters besides the ASCII digit that read as k. */
  const NUMERALS: seq<string> := ["零〇⓪", "一壹幺①", "二贰②", "三叁③", "四肆④", "五伍⑤", "六陆⑥", "七柒⑦", "八捌⑧", "九玖⑨"]

  const SEPARATORS: string := " -_.·、,，/|\t—－~*"

  predicate Among(f: Rune, s: string) {
    exists i :: 0 <= i < |s| && s[i] as int == f
  }

  /** A rune as the reading of a number sees it. */
  lemma DigitsExactly(f: Rune, k: nat)
    requires k < 10
    ensures DigitOf(f) == Is(0x30 + k) <==> f == 0x30 + k || Among(f, NUMERALS[k])
    ensures DigitOf(f).Is? ==> 0x30 <= DigitOf(f).ascii <= 0x39
  {
    assert |NUMERALS[k]| <= 4;
    if |NUMERALS[k]| == 4 {
      FourAmong(f, NUMERALS[k]);
    } else {
      ThreeAmong(f, NUMERALS[k]);
    }
  }

  lemma FourAmong(f: Rune, s: string)
    requires |s| == 4
    ensures Among(f, s) <==> f == s[0] as int || f == s[1] as int || f == s[2] as int || f == s[3] as int
  {
  }

  lemma ThreeAmong(f: Rune, s: string)
    requires |s| == 3
    ensures Among(f, s) <==> f == s[0] as int || f == s[1] as int || f == s[2] as int
  {
  }

  lemma SeparatorsExactly(f: Rune)
    ensures IsDigitSeparator(f) <==> Among(f, SEPARATORS)
  {
    if IsDigitSeparator(f) {
      var i := if f == 0x20 then 0 else if f == 0x2D then 1 else if f == 0x5F then 2 else if f == 0x2E then 3
               else if f == 0xB7 then 4 else if f == 0x3001 then 5 else if f == 0x2C then 6 else if f == 0xFF0C then 7
               else if f == 0x2F then 8 else if f == 0x7C then 9 else if f == 0x09 then 10 else if f == 0x2014 then 11
               else if f == 0xFF0D then 12 else if f == 0x7E then 13 else 14;
      assert SEPARATORS[i] as int == f;
    }
  }

  /** Digits at `ps`, each at most three places after the one before, with separators between. */
  ghost predicate NumberAt(u: Unicode, s: seq<Rune>, ps: seq<nat>) {
    && ps != [] && IsD(u, s, ps[0])
    && forall i :: 0 <= i < |ps| - 1 ==> Gap(u, s, ps[i], ps[i + 1])
  }

  /** The block of the first digit holds them all. */
  lemma {:induction false} NumberInBlock(u: Unicode, s: seq<Rune>, ps: seq<nat>, a: int, b: int, k: nat)
    requires NumberAt(u, s, ps) && Block(u, s, a, b) && a <= ps[0] < b && k < |ps|
    ensures ps[0] <= ps[k] < b && IsD(u, s, ps[k])
  {
    if k > 0 {
      NumberInBlock(u, s, ps, a, b, k - 1);
      assert Gap(u, s, ps[k - 1], ps[k]);
      if ps[k - 1] < b - 1 {
        assert HasNext(u, s, ps[k - 1], b);
        var q :| q < b && Gap(u, s, ps[k - 1], q);
        if q < ps[k] {
          DigitsAreNotSeparators(u, s, q);
        }
      }
    }
  }

  /** A block has as many digits as any rising list of digit places in it, or more. */
  lemma {:induction false} AtLeastSoMany(u: Unicode, s: seq<Rune>, a: int, b: int, ps: seq<nat>)
    requires 0 <= a <= b <= |s| && forall i :: 0 <= i < |ps| ==> a <= ps[i] < b && IsD(u, s, ps[i])
    requires forall i, j :: 0 <= i < j < |ps| ==> ps[i] < ps[j]
    ensures |ps| <= |DigitsOf(u, s, a, b)|
    decreases b - a
  {
    if ps != [] {
      var n := |ps| - 1;
      if ps[n] == b - 1 {
        AtLeastSoMany(u, s, a, b - 1, ps[..n]);
      } else {
        AtLeastSoMany(u, s, a, b - 1, ps);
      }
    }
  }

  lemma {:induction false} NumberRises(u: Unicode, s: seq<Rune>, ps: seq<nat>, i: nat, j: nat)
    requires NumberAt(u, s, ps) && i < j < |ps|
    ensures ps[i] < ps[j]
  {
    assert Gap(u, s, ps[j - 1], ps[j]);
    if i < j - 1 {
      NumberRises(u, s, ps, i, j - 1);
    }
  }

  /** Nine digits in a row, however written and separated, lie in a reported block. */
  lemma LongNumberFound(u: Unicode, s: seq<Rune>, link: seq<Rune>, hint: seq<Rune> -> bool, ps: seq<nat>) returns (a: nat, b: nat)
    requires NumberAt(u, s, ps) && |ps| >= 9 && |link| == |s|
    ensures b <= |s| && a <= ps[0] && ps[|ps| - 1] < b && Block(u, s, a, b) && Reported(u, s, link, hint, a, b)
  {
    var x, y := BlockOf(u, s, ps[0]);
    a, b := x, y;
    forall k | 0 <= k < |ps|
      ensures ps[0] <= ps[k] < b && IsD(u, s, ps[k])
    {
      NumberInBlock(u, s, ps, a, b, k);
    }
    forall i, j | 0 <= i < j < |ps|
      ensures ps[i] < ps[j]
    {
      NumberRises(u, s, ps, i, j);
    }
    AtLeastSoMany(u, s, a, b, ps);
  }
}
