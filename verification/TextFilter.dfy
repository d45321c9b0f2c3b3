/**
  Compile and Check of backend/internal/textfilter/textfilter.go. The regular expressions for addresses and
  contact details are parameters: each maps the link view to the hits it finds.
 */
module TextFilter {
  import opened Collections
  import opened Runes
  import opened NaiveMatching
  import opened Automata
  import opened TextViews
  import opened KeywordHits
  import opened Masking
  import opened DigitRuns

  datatype Mode = Mask | Whole | OtherMode

  datatype Config = Config(enabled: bool, mode: Mode, categories: set<Category>,
                           customWords: seq<seq<Rune>>, allowWords: seq<seq<Rune>>)

  /** The built-in word lists. */
  datatype Builtin = Builtin(ad: seq<seq<Rune>>, porn: seq<seq<Rune>>, gambling: seq<seq<Rune>>)

  /** The regular-expression matchers on the link view. */
  datatype Matchers = Matchers(links: seq<Rune> -> seq<Hit>, contacts: seq<Rune> -> seq<Hit>,
                               hint: seq<Rune> -> bool, mobile: seq<Rune> -> bool, format: Rune -> bool)

  datatype HitText = HitText(cat: Category, text: seq<Rune>)

  datatype Result = Result(filtered: bool, masked: seq<Rune>, categories: seq<Category>, hits: seq<HitText>)

  /** Matchers report non-empty spans of the view, each under its own category. */
  ghost predicate Sane(m: Matchers) {
    forall v: seq<Rune> ::
      && InText(v, m.links(v)) && (forall i :: 0 <= i < |m.links(v)| ==> m.links(v)[i].cat == Link)
      && InText(v, m.contacts(v)) && (forall i :: 0 <= i < |m.contacts(v)| ==> m.contacts(v)[i].cat == Contact)
  }

  function CategoryOrder(c: Category): nat {
    match c
    case Ad => 0
    case Link => 1
    case Porn => 2
    case Gambling => 3
    case Contact => 4
    case _ => 5
  }

  /** The link view: folded runes, format characters as spaces, dot words as dots. */
  ghost function LinkView(u: Unicode, m: Matchers, orig: seq<Rune>): (v: seq<Rune>)
    ensures |v| == |orig|
  {
    DotsRead(u, seq(|orig|, i requires 0 <= i < |orig| => if m.format(orig[i]) then SPACE else FoldRune(u, orig[i])))
  }

  method BuildLink(u: Unicode, m: Matchers, orig: seq<Rune>) returns (link: seq<Rune>)
    requires !IsAsciiAlnum(u, DOT)
    ensures link == LinkView(u, m, orig)
  {
    var a := new Rune[|orig|](i requires 0 <= i < |orig| => if m.format(orig[i]) then SPACE else FoldRune(u, orig[i]));
    assert a[..] == seq(|orig|, i requires 0 <= i < |orig| => if m.format(orig[i]) then SPACE else FoldRune(u, orig[i]));
    ReadDots(u, a);
    link := a[..];
  }

  /** A format character reads as a space, and a rune that is no other form and no dot word as its lower case. */
  lemma LinkOfPlain(u: Unicode, m: Matchers, s: seq<Rune>, i: nat)
    requires i < |s|
    ensures m.format(s[i]) ==> LinkView(u, m, s)[i] == 0x20
    ensures !m.format(s[i]) && (forall p :: !FormOf(s[i], p)) && u.lower(s[i]) != 0x70B9 ==> LinkView(u, m, s)[i] == u.lower(s[i])
  {
    assert FormOf(0x3000, 0x20) && FormOf(0x3002, 0x2E) && FormOf(0xFF61, 0x2E) && FormOf(0x2024, 0x2E) && FormOf(0xFE52, 0x2E);
    assert 0xFF01 <= s[i] <= 0xFF5E ==> FormOf(s[i], s[i] - 0xFEE0);
  }

  /** The dot word between two ASCII letters reads as a full stop. */
  lemma DotWordReads(u: Unicode, m: Matchers, x: seq<Rune>, a: Rune, b: Rune, y: seq<Rune>)
    requires 0x61 <= a <= 0x7A && 0x61 <= b <= 0x7A && u.letter(a) && u.letter(b) && u.lower(a) == a && u.lower(b) == b
    requires u.lower(0x70B9) == 0x70B9 && !m.format(a) && !m.format(b) && !m.format(0x70B9)
    ensures LinkView(u, m, x + [a, 0x70B9, b] + y)[|x| + 1] == 0x2E
  {
    var s := x + [a, 0x70B9, b] + y;
    var v := seq(|s|, i requires 0 <= i < |s| => if m.format(s[i]) then SPACE else FoldRune(u, s[i]));
    assert s[|x|] == a && s[|x| + 1] == 0x70B9 && s[|x| + 2] == b;
    assert v[|x|] == a && v[|x| + 1] == 0x70B9 && v[|x| + 2] == b;
    assert LeftOf(v, |x| + 1) == |x| && RightOf(v, |x| + 2) == |x| + 2;
  }

  lemma AlikeLinks(u: Unicode, m: Matchers, s: seq<Rune>, t: seq<Rune>)
    requires AlikeTexts(s, t) && forall i :: 0 <= i < |s| ==> m.format(s[i]) == m.format(t[i])
    ensures LinkView(u, m, s) == LinkView(u, m, t)
  {
    forall i | 0 <= i < |s|
      ensures FoldRune(u, s[i]) == FoldRune(u, t[i])
    {
      AlikeFold(u, s[i], t[i]);
    }
    var a := seq(|s|, i requires 0 <= i < |s| => if m.format(s[i]) then SPACE else FoldRune(u, s[i]));
    var b := seq(|t|, i requires 0 <= i < |t| => if m.format(t[i]) then SPACE else FoldRune(u, t[i]));
    assert a == b;
  }

  // ------------------------------------------------------------------
  // Categories of a result
  // ------------------------------------------------------------------

  ghost predicate InCategoryOrder(cs: seq<Category>) {
    forall i, j :: 0 <= i < j < |cs| ==> CategoryOrder(cs[i]) < CategoryOrder(cs[j])
  }

  /** The order in which categories are told. */
  const ORDER: seq<Category> := [Ad, Link, Porn, Gambling, Contact, Custom]

  lemma OrderMeans(cs: seq<Category>, p: nat, q: nat, i: nat, j: nat)
    requires InCategoryOrder(cs) && p < |ORDER| && q < |ORDER| && i < j < |cs| && cs[i] == ORDER[p] && cs[j] == ORDER[q]
    ensures p < q
  {
  }

  /** The distinct categories of the hits, in the fixed order. */
  method CategoriesOf(hits: seq<Hit>) returns (cs: seq<Category>)
    requires forall i :: 0 <= i < |hits| ==> hits[i].cat != Unset
    ensures InCategoryOrder(cs)
    ensures forall c :: c in cs <==> exists i :: 0 <= i < |hits| && hits[i].cat == c
  {
    cs := [];
    for i := 0 to |hits|
      invariant InCategoryOrder(cs) && forall c :: c in cs ==> c != Unset
      invariant forall c :: c in cs <==> exists k :: 0 <= k < i && hits[k].cat == c
    {
      if hits[i].cat !in cs {
        cs := InsertCategory(cs, hits[i].cat);
      }
    }
  }

  method InsertCategory(before: seq<Category>, c: Category) returns (cs: seq<Category>)
    requires InCategoryOrder(before) && c !in before && c != Unset && Unset !in before
    ensures InCategoryOrder(cs)
    ensures forall d :: d in cs <==> d in before || d == c
  {
    var k: nat := 0;
    while k < |before| && CategoryOrder(before[k]) < CategoryOrder(c)
      invariant k <= |before|
      invariant forall j :: 0 <= j < k ==> CategoryOrder(before[j]) < CategoryOrder(c)
    {
      k := k + 1;
    }
    cs := before[..k] + [c] + before[k..];
    assert k < |before| ==> before[k] in before;
    InsertedCategory(before, k, c);
    InsertedMembers(before, k, c);
  }

  lemma InsertedMembers<T>(before: seq<T>, k: nat, c: T)
    requires k <= |before|
    ensures forall d :: d in before[..k] + [c] + before[k..] <==> d in before || d == c
  {
    assert before == before[..k] + before[k..];
  }

  lemma InsertedCategory(before: seq<Category>, k: nat, c: Category)
    requires InCategoryOrder(before) && k <= |before|
    requires forall j :: 0 <= j < k ==> CategoryOrder(before[j]) < CategoryOrder(c)
    requires k < |before| ==> CategoryOrder(c) < CategoryOrder(before[k])
    ensures InCategoryOrder(before[..k] + [c] + before[k..])
  {
    var cs := before[..k] + [c] + before[k..];
    forall i, j | 0 <= i < j < |cs|
      ensures CategoryOrder(cs[i]) < CategoryOrder(cs[j])
    {
      assert cs[i] == if i < k then before[i] else if i == k then c else before[i - 1];
      assert cs[j] == if j < k then before[j] else if j == k then c else before[j - 1];
    }
  }

  // ------------------------------------------------------------------
  // The filter
  // ------------------------------------------------------------------

  /** The keywords of a configuration with their categories: the enabled built-in lists, then the custom words. */
  ghost function KeywordWords(u: Unicode, cfg: Config, b: Builtin): (words: seq<seq<Rune>>)
    ensures NonEmptyWords(words)
  {
    (if Ad in cfg.categories then Normalized(u, b.ad) else [])
    + (if Porn in cfg.categories then Normalized(u, b.porn) else [])
    + (if Gambling in cfg.categories then Normalized(u, b.gambling) else [])
    + Normalized(u, cfg.customWords)
  }

  /** The category of keyword `pi`, by the list it came from; the lists hold `a`, `p` and `g` words before the custom ones. */
  function CategoryAt(a: nat, p: nat, g: nat, pi: nat): Category {
    if pi < a then Ad else if pi < a + p then Porn else if pi < a + p + g then Gambling else Custom
  }

  ghost function KeywordCategory(u: Unicode, cfg: Config, b: Builtin, pi: nat): Category {
    CategoryAt(if Ad in cfg.categories then |Normalized(u, b.ad)| else 0,
               if Porn in cfg.categories then |Normalized(u, b.porn)| else 0,
               if Gambling in cfg.categories then |Normalized(u, b.gambling)| else 0, pi)
  }

  method CompileKeywords(u: Unicode, cfg: Config, b: Builtin) returns (words: seq<seq<Rune>>, meta: seq<Pattern>)
    ensures words == KeywordWords(u, cfg, b) && |meta| == |words|
    ensures forall pi :: 0 <= pi < |words| ==> meta[pi] == PatternFor(words[pi], KeywordCategory(u, cfg, b, pi))
  {
    words, meta := AddIf(u, Ad in cfg.categories, b.ad, Ad, [], []);
    assert words == if Ad in cfg.categories then Normalized(u, b.ad) else [];
    words, meta := AddIf(u, Porn in cfg.categories, b.porn, Porn, words, meta);
    words, meta := AddIf(u, Gambling in cfg.categories, b.gambling, Gambling, words, meta);
    words, meta := AddWords(u, cfg.customWords, Custom, words, meta);
  }

  method AddIf(u: Unicode, on: bool, list: seq<seq<Rune>>, cat: Category, words0: seq<seq<Rune>>, meta0: seq<Pattern>)
    returns (words: seq<seq<Rune>>, meta: seq<Pattern>)
    requires |words0| == |meta0|
    ensures words == words0 + (if on then Normalized(u, list) else []) && |meta| == |words|
    ensures forall pi :: 0 <= pi < |words| ==> meta[pi] == if pi < |meta0| then meta0[pi] else PatternFor(words[pi], cat)
  {
    words, meta := words0, meta0;
    if on {
      words, meta := AddWords(u, list, cat, words, meta);
    }
  }

  /** Some word occurs as an interval containing the hit. */
  ghost predicate WordAround(u: Unicode, words: seq<seq<Rune>>, text: seq<Rune>, h: Hit) {
    exists pi: nat, s: nat, e: nat :: OccursAt(u, words, text, pi, s, e) && s <= h.start && h.end <= e
  }

  lemma AroundIffCovered(u: Unicode, words: seq<seq<Rune>>, meta: seq<Pattern>, text: seq<Rune>, found: seq<Hit>, spans: seq<Span>, h: Hit)
    requires Compiled(words, meta) && found == KeywordHitsOf(u, words, meta, text)
    requires |spans| == |found| && forall i :: 0 <= i < |found| ==> spans[i] == Span(found[i].start, found[i].end)
    ensures CoveredBy(h, spans) <==> WordAround(u, words, text, h)
  {
    if CoveredBy(h, spans) {
      var i :| 0 <= i < |spans| && Inside(h, spans[i]);
      assert found[i] in found;
      CoveringWord(u, words, meta, text, found[i], h);
    }
    if WordAround(u, words, text, h) {
      var pi: nat, s: nat, e: nat :| OccursAt(u, words, text, pi, s, e) && s <= h.start && h.end <= e;
      var f := Hit(meta[pi].cat, s, e);
      OccurrenceHits(u, words, meta, text, pi, f);
      var i :| 0 <= i < |found| && found[i] == f;
      assert Inside(h, spans[i]);
    }
  }

  lemma CoveringWord(u: Unicode, words: seq<seq<Rune>>, meta: seq<Pattern>, text: seq<Rune>, f: Hit, h: Hit)
    requires Compiled(words, meta) && f in KeywordHitsOf(u, words, meta, text) && f.start <= h.start && h.end <= f.end
    ensures WordAround(u, words, text, h)
  {
    KeywordHitsExact(u, words, meta, text, f);
    var pi: nat :| pi < |words| && OccursAt(u, words, text, pi, f.start, f.end);
  }

  lemma JoinedHits(text: seq<Rune>, a: seq<Hit>, b: seq<Hit>, c: seq<Hit>, d: seq<Hit>)
    requires InText(text, a) && InText(text, b) && InText(text, c) && InText(text, d)
    requires forall i :: 0 <= i < |a| ==> a[i].cat != Unset
    requires forall i :: 0 <= i < |b| ==> b[i].cat != Unset
    requires forall i :: 0 <= i < |c| ==> c[i].cat != Unset
    requires forall i :: 0 <= i < |d| ==> d[i].cat != Unset
    ensures InText(text, a + b + c + d) && forall i :: 0 <= i < |a + b + c + d| ==> (a + b + c + d)[i].cat != Unset
  {
  }

  lemma JoinedCount(a: seq<Hit>, b: seq<Hit>, c: seq<Hit>, d: seq<Hit>, h: Hit)
    ensures multiset(a + b + c + d)[h] == multiset(a)[h] + multiset(b)[h] + multiset(c)[h] + multiset(d)[h]
    ensures h in a + b + c + d <==> h in a || h in b || h in c || h in d
  {
  }

  /** Disjoint runs are distinct. */
  lemma {:induction false} OnceEach(runs: seq<Hit>, h: Hit)
    requires forall i, j :: 0 <= i < j < |runs| ==> runs[i].end <= runs[j].start
    requires forall i :: 0 <= i < |runs| ==> runs[i].start < runs[i].end
    ensures multiset(runs)[h] == if h in runs then 1 else 0
  {
    if runs != [] {
      var n := |runs| - 1;
      OnceEach(runs[..n], h);
      assert runs == runs[..n] + [runs[n]];
      assert runs[n] !in runs[..n];
    }
  }

  /** The words whose occurrences are hits of category `c`. */
  function ListFor(cfg: Config, b: Builtin, c: Category): seq<seq<Rune>> {
    match c
    case Ad => if Ad in cfg.categories then b.ad else []
    case Porn => if Porn in cfg.categories then b.porn else []
    case Gambling => if Gambling in cfg.categories then b.gambling else []
    case Custom => cfg.customWords
    case _ => []
  }

  /** `text[start..end]` spells a word of the list that does not normalise to nothing. */
  ghost predicate SpellsOne(u: Unicode, list: seq<seq<Rune>>, text: seq<Rune>, start: nat, end: nat) {
    exists i :: 0 <= i < |list| && Compact(u, list[i]) != [] && Spells(u, Compact(u, list[i]), text, start, end)
  }

  lemma MemberSpells(u: Unicode, list: seq<seq<Rune>>, n: seq<Rune>, text: seq<Rune>, start: nat, end: nat)
    requires n in Normalized(u, list) && Spells(u, n, text, start, end)
    ensures SpellsOne(u, list, text, start, end)
  {
    NormalizedMembers(u, list, n);
  }

  lemma SpelledWord(u: Unicode, list: seq<seq<Rune>>, text: seq<Rune>, start: nat, end: nat) returns (n: seq<Rune>)
    requires SpellsOne(u, list, text, start, end)
    ensures n in Normalized(u, list) && Spells(u, n, text, start, end)
  {
    var i :| 0 <= i < |list| && Compact(u, list[i]) != [] && Spells(u, Compact(u, list[i]), text, start, end);
    n := Compact(u, list[i]);
    NormalizedMembers(u, list, n);
  }

  /** The keyword at `pi` comes from the list of its category. */
  lemma WordFromList(u: Unicode, cfg: Config, b: Builtin, pi: nat)
    requires pi < |KeywordWords(u, cfg, b)|
    ensures KeywordWords(u, cfg, b)[pi] in Normalized(u, ListFor(cfg, b, KeywordCategory(u, cfg, b, pi)))
  {
  }

  /** ... and every word of a list is a keyword under its category. */
  lemma ListInWords(u: Unicode, cfg: Config, b: Builtin, c: Category, n: seq<Rune>) returns (pi: nat)
    requires n in Normalized(u, ListFor(cfg, b, c))
    ensures pi < |KeywordWords(u, cfg, b)| && KeywordWords(u, cfg, b)[pi] == n && KeywordCategory(u, cfg, b, pi) == c
  {
    var ws := Normalized(u, ListFor(cfg, b, c));
    var k :| 0 <= k < |ws| && ws[k] == n;
    var a := if Ad in cfg.categories then |Normalized(u, b.ad)| else 0;
    var p := if Porn in cfg.categories then |Normalized(u, b.porn)| else 0;
    var g := if Gambling in cfg.categories then |Normalized(u, b.gambling)| else 0;
    pi := k + match c case Ad => 0 case Porn => a case Gambling => a + p case _ => a + p + g;
  }

  class Filter {
    const u: Unicode
    var cfg: Config
    ghost var builtin: Builtin
    var keywords: Automaton
    var allow: Automaton

    ghost predicate Valid()
      reads this, keywords, allow
    {
      && keywords.Valid() && Compiled(keywords.words, keywords.pats)
      && keywords.words == KeywordWords(u, cfg, builtin)
      && (forall pi :: 0 <= pi < |keywords.pats| ==> keywords.pats[pi].cat == KeywordCategory(u, cfg, builtin, pi))
      && allow.Valid() && Compiled(allow.words, allow.pats)
      && allow.words == Normalized(u, cfg.allowWords)
      && cfg.mode != OtherMode
    }

    /** Compile: any mode but `whole` becomes `mask`; words that normalise to nothing are ignored. */
    constructor (u: Unicode, cfg: Config, b: Builtin)
      ensures Valid() && fresh(keywords) && fresh(allow) && this.u == u && builtin == b
      ensures this.cfg == if cfg.mode == Whole then cfg else cfg.(mode := Mask)
    {
      var words, meta := CompileKeywords(u, cfg, b);
      var keywords := new Automaton(words, meta);
      var allowWords, allowMeta := AddWords(u, cfg.allowWords, Unset, [], []);
      var allow := new Automaton(allowWords, allowMeta);
      this.u := u;
      this.cfg := if cfg.mode == Whole then cfg else cfg.(mode := Mask);
      this.builtin := b;
      this.keywords := keywords;
      this.allow := allow;
    }

    // ----------------------------------------------------------------
    // Check
    // ----------------------------------------------------------------

    /** What counts as a hit: a keyword occurrence, an address, a contact match, a long digit run. */
    ghost predicate IsHit(m: Matchers, text: seq<Rune>, h: Hit)
      requires |keywords.pats| == |keywords.words|
      reads this, keywords
    {
      || IsKeyword(text, h)
      || (Link in cfg.categories && h in m.links(LinkView(u, m, text)))
      || (Contact in cfg.categories && h in m.contacts(LinkView(u, m, text)))
      || (Contact in cfg.categories && IsDigitRun(m, text, h))
    }

    ghost predicate IsKeyword(text: seq<Rune>, h: Hit)
      requires |keywords.pats| == |keywords.words|
      reads this, keywords
    {
      exists pi :: 0 <= pi < |keywords.words| && keywords.pats[pi].cat == h.cat && OccursAt(u, keywords.words, text, pi, h.start, h.end)
    }

    ghost predicate IsDigitRun(m: Matchers, text: seq<Rune>, h: Hit) {
      && h.cat == Contact && h.start <= h.end <= |text| && Block(u, text, h.start, h.end)
      && Reported(u, text, LinkView(u, m, text), m.hint, h.start, h.end)
    }

    /** How often a hit is found: once per keyword match and per matcher hit, and once as a digit run. */
    ghost function Found(m: Matchers, text: seq<Rune>, h: Hit): nat
      requires Compiled(keywords.words, keywords.pats)
      reads this, keywords
    {
      multiset(KeywordHitsOf(u, keywords.words, keywords.pats, text))[h]
      + (if Link in cfg.categories then multiset(m.links(LinkView(u, m, text)))[h] else 0)
      + (if Contact in cfg.categories then multiset(m.contacts(LinkView(u, m, text)))[h] else 0)
      + (if Contact in cfg.categories && IsDigitRun(m, text, h) then 1 else 0)
    }

    /** An allow word occurs around the hit. */
    ghost predicate Allowed(text: seq<Rune>, h: Hit)
      reads this, allow
    {
      WordAround(u, allow.words, text, h)
    }

    ghost predicate Live(m: Matchers, text: seq<Rune>, h: Hit)
      requires |keywords.pats| == |keywords.words|
      reads this, keywords, allow
    {
      IsHit(m, text, h) && !Allowed(text, h)
    }

    method FindKeywords(text: seq<Rune>, compact: seq<Rune>, compactIdx: seq<nat>) returns (words: seq<Hit>)
      requires Valid()
      requires compact == Compact(u, text) && compactIdx == KeptIdx(u, text)
      ensures words == KeywordHitsOf(u, keywords.words, keywords.pats, text)
      ensures forall h :: h in words <==> IsKeyword(text, h)
      ensures InText(text, words) && forall i :: 0 <= i < |words| ==> words[i].cat != Unset
    {
      words := SpanHits(u, keywords, text, compact, compactIdx);
      KeywordHitsInText(u, keywords.words, keywords.pats, text);
      forall h
        ensures h in words <==> IsKeyword(text, h)
      {
        KeywordHitsExact(u, keywords.words, keywords.pats, text, h);
      }
      assert forall i :: 0 <= i < |words| ==> words[i].cat != Unset by {
        forall i | 0 <= i < |words|
          ensures words[i].cat != Unset
        {
          assert words[i] in words;
        }
      }
    }

    /** Steps 1 to 3: all hits, before allow words. */
    method FindHits(m: Matchers, text: seq<Rune>, compact: seq<Rune>, compactIdx: seq<nat>) returns (hits: seq<Hit>)
      requires Valid() && Sane(m) && !IsAsciiAlnum(u, DOT)
      requires compact == Compact(u, text) && compactIdx == KeptIdx(u, text)
      ensures AllHits(m, text, hits)
      ensures InText(text, hits) && forall i :: 0 <= i < |hits| ==> hits[i].cat != Unset
    {
      var words := FindKeywords(text, compact, compactIdx);
      var links, contacts, runs := FindShapes(m, text);
      hits := words + links + contacts + runs;
      JoinedHits(text, words, links, contacts, runs);
      FoundAll(m, text, words, links, contacts, runs);
    }

    ghost predicate ShapesOf(m: Matchers, text: seq<Rune>, links: seq<Hit>, contacts: seq<Hit>, runs: seq<Hit>)
      reads this`cfg
    {
      && links == (if Link in cfg.categories then m.links(LinkView(u, m, text)) else [])
      && contacts == (if Contact in cfg.categories then m.contacts(LinkView(u, m, text)) else [])
      && (forall h :: h in runs <==> Contact in cfg.categories && IsDigitRun(m, text, h))
      && (forall h :: multiset(runs)[h] == if h in runs then 1 else 0)
    }

    lemma FoundAll(m: Matchers, text: seq<Rune>, words: seq<Hit>, links: seq<Hit>, contacts: seq<Hit>, runs: seq<Hit>)
      requires Compiled(keywords.words, keywords.pats) && words == KeywordHitsOf(u, keywords.words, keywords.pats, text)
      requires ShapesOf(m, text, links, contacts, runs)
      requires forall h :: h in words <==> IsKeyword(text, h)
      ensures AllHits(m, text, words + links + contacts + runs)
    {
      var hits := words + links + contacts + runs;
      forall h
        ensures multiset(hits)[h] == Found(m, text, h) && (h in hits <==> IsHit(m, text, h))
      {
        JoinedCount(words, links, contacts, runs, h);
      }
    }

    /** Steps 2 and 3: addresses, contact matches, digit runs. */
    method FindShapes(m: Matchers, text: seq<Rune>) returns (links: seq<Hit>, contacts: seq<Hit>, runs: seq<Hit>)
      requires Sane(m) && !IsAsciiAlnum(u, DOT)
      ensures ShapesOf(m, text, links, contacts, runs)
      ensures InText(text, links) && InText(text, contacts) && InText(text, runs)
      ensures forall i :: 0 <= i < |links| ==> links[i].cat == Link
      ensures forall i :: 0 <= i < |contacts| ==> contacts[i].cat == Contact
      ensures forall i :: 0 <= i < |runs| ==> runs[i].cat != Unset
    {
      var link := BuildLink(u, m, text);
      links := if Link in cfg.categories then m.links(link) else [];
      contacts := if Contact in cfg.categories then m.contacts(link) else [];
      assert InText(link, m.links(link)) && InText(link, m.contacts(link));
      runs := FindRuns(m, text, link);
    }

    method FindRuns(m: Matchers, text: seq<Rune>, link: seq<Rune>) returns (runs: seq<Hit>)
      requires link == LinkView(u, m, text)
      ensures forall h :: h in runs <==> Contact in cfg.categories && IsDigitRun(m, text, h)
      ensures forall h :: multiset(runs)[h] == if h in runs then 1 else 0
      ensures InText(text, runs) && forall i :: 0 <= i < |runs| ==> runs[i].cat != Unset
    {
      if Contact !in cfg.categories {
        return [];
      }
      runs := DigitRunHits(u, text, link, m.hint, m.mobile);
      forall h
        ensures multiset(runs)[h] == if h in runs then 1 else 0
      {
        OnceEach(runs, h);
      }
      forall h: Hit
        ensures h in runs <==> IsDigitRun(m, text, h)
      {
        assert h.cat == Contact ==> h == Hit(Contact, h.start, h.end);
      }
    }

    /** Removes the hits inside an allow word. */
    method DropAllowed(text: seq<Rune>, compact: seq<Rune>, compactIdx: seq<nat>, hits: seq<Hit>) returns (kept: seq<Hit>)
      requires Valid()
      requires compact == Compact(u, text) && compactIdx == KeptIdx(u, text)
      ensures NotAllowed(text, hits, kept)
    {
      var found := SpanHits(u, allow, text, compact, compactIdx);
      var spans := seq(|found|, i requires 0 <= i < |found| => Span(found[i].start, found[i].end));
      forall h: Hit
        ensures CoveredBy(h, spans) <==> Allowed(text, h)
      {
        AroundIffCovered(u, allow.words, allow.pats, text, found, spans, h);
      }
      var a := new Hit[|hits|](i requires 0 <= i < |hits| => hits[i]);
      assert a[..] == hits;
      var n := DropCovered(a, spans);
      kept := a[..n];
      forall h
        ensures h in kept <==> h in hits && !Allowed(text, h)
        ensures multiset(kept)[h] == if Allowed(text, h) then 0 else multiset(hits)[h]
      {
        UncoveredExact(hits, spans, h);
        UncoveredCount(hits, spans, h);
      }
    }

    /** `live` lists the hits that count, each as often as it is found. */
    ghost predicate CountsExactly(m: Matchers, text: seq<Rune>, live: seq<Hit>)
      requires Compiled(keywords.words, keywords.pats)
      reads this, keywords, allow
    {
      && (forall h :: h in live <==> Live(m, text, h))
      && (forall h :: multiset(live)[h] == if Allowed(text, h) then 0 else Found(m, text, h))
    }

    /** What is answered when `live` are the hits that count. */
    ghost predicate Answers(text: seq<Rune>, live: seq<Hit>, res: Result)
      requires InText(text, live)
      reads this`cfg
    {
      && (live == [] ==> res == Result(false, text, [], []))
      && (live != [] ==>
            && res.filtered
            && InCategoryOrder(res.categories)
            && (forall c :: c in res.categories <==> exists i :: 0 <= i < |live| && live[i].cat == c)
            && |res.hits| == |live|
            && (forall i :: 0 <= i < |live| ==> res.hits[i] == HitText(live[i].cat, text[live[i].start..live[i].end]))
            && (forall i, j :: 0 <= i < j < |live| ==>
                  live[i].start < live[j].start || (live[i].start == live[j].start && live[i].end >= live[j].end))
            && res.masked == if cfg.mode == Whole then [0x2A, 0x2A] else Masked(text, live))
    }

    ghost predicate AllHits(m: Matchers, text: seq<Rune>, hits: seq<Hit>)
      requires Compiled(keywords.words, keywords.pats)
      reads this, keywords
    {
      && (forall h :: h in hits <==> IsHit(m, text, h))
      && (forall h :: multiset(hits)[h] == Found(m, text, h))
    }

    ghost predicate NotAllowed(text: seq<Rune>, hits: seq<Hit>, kept: seq<Hit>)
      reads this, allow
    {
      && (forall h :: h in kept <==> h in hits && !Allowed(text, h))
      && (forall h :: multiset(kept)[h] == if Allowed(text, h) then 0 else multiset(hits)[h])
    }

    lemma NothingFound(m: Matchers, text: seq<Rune>, hits: seq<Hit>)
      requires Compiled(keywords.words, keywords.pats) && AllHits(m, text, hits) && hits == []
      ensures CountsExactly(m, text, [])
    {
      forall h
        ensures Found(m, text, h) == 0 && !Live(m, text, h)
      {
        assert h !in hits && multiset(hits)[h] == 0;
      }
    }

    lemma KeptCount(m: Matchers, text: seq<Rune>, hits: seq<Hit>, kept: seq<Hit>, live: seq<Hit>)
      requires Compiled(keywords.words, keywords.pats)
      requires AllHits(m, text, hits) && NotAllowed(text, hits, kept) && multiset(live) == multiset(kept)
      ensures CountsExactly(m, text, live)
    {
      SameHits(kept, live);
      forall h
        ensures multiset(live)[h] == if Allowed(text, h) then 0 else Found(m, text, h)
      {
        assert multiset(kept)[h] == multiset(live)[h];
      }
    }

    lemma KeptUsable(text: seq<Rune>, hits: seq<Hit>, kept: seq<Hit>)
      requires NotAllowed(text, hits, kept) && InText(text, hits) && forall i :: 0 <= i < |hits| ==> hits[i].cat != Unset
      ensures InText(text, kept) && forall i :: 0 <= i < |kept| ==> kept[i].cat != Unset
    {
      forall i | 0 <= i < |kept|
        ensures kept[i] in hits
      {
        assert kept[i] in kept;
      }
    }

    /** `live` are the hits that count; the result tells them, and masks them exactly. */
    method Check(m: Matchers, text: seq<Rune>) returns (res: Result, ghost live: seq<Hit>)
      requires Valid() && Sane(m) && !IsAsciiAlnum(u, DOT)
      ensures !cfg.enabled || text == [] ==> res == Result(false, text, [], [])
      ensures cfg.enabled && text != [] ==> CountsExactly(m, text, live)
      ensures cfg.enabled && text != [] ==> InText(text, live) && Answers(text, live, res)
    {
      res, live := Result(false, text, [], []), [];
      if !cfg.enabled || |text| == 0 {
        return;
      }
      var compact, compactIdx := BuildCompact(u, text);
      var hits := FindHits(m, text, compact, compactIdx);
      if |hits| == 0 {
        NothingFound(m, text, hits);
        return;
      }
      var kept := DropAllowed(text, compact, compactIdx, hits);
      if |kept| == 0 {
        KeptCount(m, text, hits, kept, []);
        return;
      }
      KeptUsable(text, hits, kept);
      res, live := Respond(text, kept);
      KeptCount(m, text, hits, kept, live);
    }

    /** The result for the hits that count. */
    method Respond(text: seq<Rune>, kept: seq<Hit>) returns (res: Result, live: seq<Hit>)
      requires kept != [] && InText(text, kept) && forall i :: 0 <= i < |kept| ==> kept[i].cat != Unset
      ensures multiset(live) == multiset(kept) && InText(text, live) && live != [] && Answers(text, live, res)
    {
      var sorted := SortHits(kept);
      SameHits(kept, sorted);
      assert forall i :: 0 <= i < |sorted| ==> sorted[i] in kept;
      live := sorted;
      var categories := CategoriesOf(sorted);
      var texts := seq(|sorted|, i requires 0 <= i < |sorted| => HitText(sorted[i].cat, text[sorted[i].start..sorted[i].end]));
      var masked := MASK_TEXT;
      if cfg.mode != Whole {
        var merged := MergeHits(sorted);
        LastSpanInText(text, sorted, merged);
        masked := Splice(text, merged, sorted);
      }
      res := Result(true, masked, categories, texts);
    }

    // ----------------------------------------------------------------
    // Other spellings of a text
    // ----------------------------------------------------------------

    lemma AlikeRuns(m: Matchers, s: seq<Rune>, t: seq<Rune>, h: Hit)
      requires AlikeTexts(s, t) && LinkView(u, m, s) == LinkView(u, m, t)
      ensures IsDigitRun(m, s, h) <==> IsDigitRun(m, t, h)
    {
      AlikeFigures(u, s, t);
      SameBlocks(u, s, t, h.start, h.end);
      if h.start <= h.end <= |s| {
        SameDigits(u, s, t, h.start, h.end);
      }
    }

    lemma AlikeAllowed(s: seq<Rune>, t: seq<Rune>, h: Hit)
      requires AlikeTexts(s, t) && Compiled(allow.words, allow.pats)
      ensures Allowed(s, h) <==> Allowed(t, h)
    {
      AlikeKeywords(u, allow.words, allow.pats, s, t);
      var found := KeywordHitsOf(u, allow.words, allow.pats, s);
      var spans := seq(|found|, i requires 0 <= i < |found| => Span(found[i].start, found[i].end));
      AroundIffCovered(u, allow.words, allow.pats, s, found, spans, h);
      AroundIffCovered(u, allow.words, allow.pats, t, found, spans, h);
    }

    /**
      Writing any runes of a text in another form, full width for ASCII, an ideographic space, a full stop of another
      script, or back, changes no hit: the same places are found, as often, allowed and masked.
     */
    lemma OtherFormsChangeNoHit(m: Matchers, s: seq<Rune>, t: seq<Rune>, h: Hit)
      requires Valid() && AlikeTexts(s, t) && forall i :: 0 <= i < |s| ==> m.format(s[i]) == m.format(t[i])
      ensures Live(m, s, h) <==> Live(m, t, h)
      ensures Found(m, s, h) == Found(m, t, h) && (Allowed(s, h) <==> Allowed(t, h))
    {
      AlikeLinks(u, m, s, t);
      AlikeRuns(m, s, t, h);
      AlikeAllowed(s, t, h);
      AlikeIsKeyword(s, t, h);
      AlikeFound(m, s, t, h);
    }

    lemma AlikeFound(m: Matchers, s: seq<Rune>, t: seq<Rune>, h: Hit)
      requires Compiled(keywords.words, keywords.pats) && AlikeTexts(s, t)
      requires LinkView(u, m, s) == LinkView(u, m, t) && (IsDigitRun(m, s, h) <==> IsDigitRun(m, t, h))
      ensures Found(m, s, h) == Found(m, t, h)
    {
      AlikeKeywords(u, keywords.words, keywords.pats, s, t);
    }

    lemma AlikeIsKeyword(s: seq<Rune>, t: seq<Rune>, h: Hit)
      requires Compiled(keywords.words, keywords.pats) && AlikeTexts(s, t)
      ensures IsKeyword(s, h) <==> IsKeyword(t, h)
    {
      AlikeKeywords(u, keywords.words, keywords.pats, s, t);
      KeywordHitsExact(u, keywords.words, keywords.pats, s, h);
      KeywordHitsExact(u, keywords.words, keywords.pats, t, h);
    }

    /** Nine digits of a row are masked, unless an allow word occurs around them. */
    lemma LongNumberCounts(m: Matchers, text: seq<Rune>, ps: seq<nat>) returns (h: Hit)
      requires Valid() && Contact in cfg.categories && NumberAt(u, text, ps) && |ps| >= 9
      ensures h.cat == Contact && h.start <= ps[0] && ps[|ps| - 1] < h.end <= |text|
      ensures Live(m, text, h) <==> !Allowed(text, h)
    {
      var a, b := LongNumberFound(u, text, LinkView(u, m, text), m.hint, ps);
      h := Hit(Contact, a, b);
    }

    // ----------------------------------------------------------------
    // What counts, in terms of the configuration
    // ----------------------------------------------------------------

    /** A keyword hit spells a word of a list that is on, under that list's category. */
    lemma KeywordSpells(text: seq<Rune>, h: Hit)
      requires Valid()
      ensures IsKeyword(text, h) <==> SpellsOne(u, ListFor(cfg, builtin, h.cat), text, h.start, h.end)
    {
      if IsKeyword(text, h) {
        var pi :| 0 <= pi < |keywords.words| && keywords.pats[pi].cat == h.cat && OccursAt(u, keywords.words, text, pi, h.start, h.end);
        OccursSpells(u, keywords.words, text, pi, h.start, h.end);
        WordFromList(u, cfg, builtin, pi);
        MemberSpells(u, ListFor(cfg, builtin, h.cat), keywords.words[pi], text, h.start, h.end);
      }
      if SpellsOne(u, ListFor(cfg, builtin, h.cat), text, h.start, h.end) {
        var n := SpelledWord(u, ListFor(cfg, builtin, h.cat), text, h.start, h.end);
        var pi := ListInWords(u, cfg, builtin, h.cat, n);
        OccursSpells(u, keywords.words, text, pi, h.start, h.end);
        assert keywords.pats[pi].cat == h.cat;
      }
    }

    /** A hit is allowed exactly if some interval around it spells an allow word. */
    lemma AllowedSpells(text: seq<Rune>, h: Hit)
      requires Valid()
      ensures Allowed(text, h) <==>
              exists s: nat, e: nat :: SpellsOne(u, cfg.allowWords, text, s, e) && s <= h.start && h.end <= e
    {
      if Allowed(text, h) {
        var pi: nat, s: nat, e: nat :| OccursAt(u, allow.words, text, pi, s, e) && s <= h.start && h.end <= e;
        OccursSpells(u, allow.words, text, pi, s, e);
        assert allow.words[pi] in Normalized(u, cfg.allowWords);
        MemberSpells(u, cfg.allowWords, allow.words[pi], text, s, e);
      }
      if s: nat, e: nat :| SpellsOne(u, cfg.allowWords, text, s, e) && s <= h.start && h.end <= e {
        var n := SpelledWord(u, cfg.allowWords, text, s, e);
        var pi: nat :| pi < |allow.words| && allow.words[pi] == n;
        OccursSpells(u, allow.words, text, pi, s, e);
      }
    }
  }

  lemma SameHits(a: seq<Hit>, b: seq<Hit>)
    requires multiset(a) == multiset(b)
    ensures |a| == |b| && forall h :: h in a <==> h in b
  {
    assert |multiset(a)| == |a| && |multiset(b)| == |b|;
    forall h
      ensures h in a <==> h in b
    {
      assert h in a <==> h in multiset(a);
      assert h in b <==> h in multiset(b);
    }
  }

  lemma LastSpanInText(text: seq<Rune>, hits: seq<Hit>, merged: seq<Span>)
    requires InText(text, hits) && Separated(merged)
    requires forall p :: InSpans(merged, p) <==> Covers(hits, p)
    ensures merged != [] ==> merged[|merged| - 1].end <= |text|
  {
    if merged != [] {
      var last := merged[|merged| - 1];
      assert last.start <= last.end - 1 < last.end;
      assert InSpans(merged, last.end - 1);
    }
  }
}
