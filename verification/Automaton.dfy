/**
  The Aho-Corasick automaton of backend/internal/textfilter/automaton.go: a trie over the words, failure
  links set breadth-first, output lists propagated along the links, and the scan that follows them.

  The reference is naive matching (`AllMatches`): at every position, every word that ends there.
 */
module NaiveMatching {
  import opened Collections
  import opened Runes

  /** One callback of the scan: pattern `pi` ends at index `end` (inclusive). */
  datatype Match = Match(pi: nat, end: nat)

  /** The indices below `k` of the words equal to `p`, in index order. */
  ghost function OwnUpTo(words: seq<seq<Rune>>, p: seq<Rune>, k: nat): (own: seq<nat>)
    requires k <= |words|
    ensures forall i :: 0 <= i < |own| ==> own[i] < k && words[own[i]] == p
  {
    if k == 0 then []
    else OwnUpTo(words, p, k - 1) + if words[k - 1] == p then [k - 1] else []
  }

  ghost function Own(words: seq<seq<Rune>>, p: seq<Rune>): (own: seq<nat>)
    ensures forall i :: 0 <= i < |own| ==> own[i] < |words| && words[own[i]] == p
  {
    OwnUpTo(words, p, |words|)
  }

  /** The words that end `t`: longest first, equal words in index order. */
  ghost function EndingHere(words: seq<seq<Rune>>, t: seq<Rune>): (out: seq<nat>)
    ensures forall i :: 0 <= i < |out| ==> out[i] < |words|
  {
    if t == [] then [] else Own(words, t) + EndingHere(words, t[1..])
  }

  ghost function Tag(pis: seq<nat>, end: nat): (ms: seq<Match>)
    ensures |ms| == |pis| && forall i :: 0 <= i < |ms| ==> ms[i] == Match(pis[i], end)
  {
    seq(|pis|, i requires 0 <= i < |pis| => Match(pis[i], end))
  }

  /** Every word occurrence in the first `n` runes, by the position it ends at. */
  ghost function MatchesUpTo(words: seq<seq<Rune>>, text: seq<Rune>, n: nat): (ms: seq<Match>)
    requires n <= |text|
    ensures forall i :: 0 <= i < |ms| ==> ms[i].pi < |words| && ms[i].end < n
  {
    if n == 0 then []
    else MatchesUpTo(words, text, n - 1) + Tag(EndingHere(words, text[..n]), n - 1)
  }

  ghost function AllMatches(words: seq<seq<Rune>>, text: seq<Rune>): (ms: seq<Match>)
    ensures forall i :: 0 <= i < |ms| ==> ms[i].pi < |words| && ms[i].end < |text|
  {
    MatchesUpTo(words, text, |text|)
  }

  ghost predicate NonEmptyWords(words: seq<seq<Rune>>) {
    forall pi :: 0 <= pi < |words| ==> words[pi] != []
  }

  lemma {:induction false} OwnUpToExact(words: seq<seq<Rune>>, p: seq<Rune>, k: nat)
    requires k <= |words|
    ensures forall pi: nat :: pi in OwnUpTo(words, p, k) <==> pi < k && words[pi] == p
    ensures forall i, j :: 0 <= i < j < |OwnUpTo(words, p, k)| ==> OwnUpTo(words, p, k)[i] < OwnUpTo(words, p, k)[j]
  {
    if k > 0 {
      OwnUpToExact(words, p, k - 1);
      var before := OwnUpTo(words, p, k - 1);
      forall pi: nat
        ensures pi in OwnUpTo(words, p, k) <==> pi < k && words[pi] == p
      {
        assert pi in OwnUpTo(words, p, k) <==> pi in before || (pi == k - 1 && words[k - 1] == p);
      }
    }
  }

  lemma {:induction false} NoneOwn(words: seq<seq<Rune>>, p: seq<Rune>, k: nat)
    requires k <= |words| && forall pi :: 0 <= pi < k ==> words[pi] != p
    ensures OwnUpTo(words, p, k) == []
  {
    if k > 0 {
      NoneOwn(words, p, k - 1);
    }
  }

  /** `EndingHere` lists exactly the words that are suffixes of `t`. */
  lemma {:induction false} EndingHereExact(words: seq<seq<Rune>>, t: seq<Rune>, pi: nat)
    requires NonEmptyWords(words)
    ensures pi in EndingHere(words, t) <==> pi < |words| && IsSuffix(words[pi], t)
  {
    if t != [] {
      EndingHereExact(words, t[1..], pi);
      OwnUpToExact(words, t, |words|);
      assert pi in EndingHere(words, t) <==> pi in Own(words, t) || pi in EndingHere(words, t[1..]);
      if pi < |words| {
        if |words[pi]| < |t| {
          ProperSuffix(words[pi], t);
        } else if |words[pi]| == |t| {
          SameLengthSuffix(words[pi], t);
        }
      }
    }
  }

  /** Callback order at one position: longer words first, equal words by index. */
  ghost predicate LongestFirst(words: seq<seq<Rune>>, out: seq<nat>)
    requires forall i :: 0 <= i < |out| ==> out[i] < |words|
  {
    forall i, j :: 0 <= i < j < |out| ==>
      |words[out[i]]| > |words[out[j]]| || (words[out[i]] == words[out[j]] && out[i] < out[j])
  }

  lemma {:induction false} EndingHereOrdered(words: seq<seq<Rune>>, t: seq<Rune>)
    ensures LongestFirst(words, EndingHere(words, t))
    ensures forall i :: 0 <= i < |EndingHere(words, t)| ==> |words[EndingHere(words, t)[i]]| <= |t|
  {
    if t != [] {
      EndingHereOrdered(words, t[1..]);
      OwnUpToExact(words, t, |words|);
      var own, rest := Own(words, t), EndingHere(words, t[1..]);
      var out := EndingHere(words, t);
      assert forall i :: 0 <= i < |out| ==> out[i] == if i < |own| then own[i] else rest[i - |own|];
    }
  }

  /** The order of all callbacks: by position, then longest word first, then by index. */
  ghost predicate Before(words: seq<seq<Rune>>, a: Match, b: Match) {
    a.pi < |words| && b.pi < |words|
    && (a.end < b.end
        || (a.end == b.end && |words[a.pi]| > |words[b.pi]|)
        || (a.end == b.end && words[a.pi] == words[b.pi] && a.pi < b.pi))
  }

  ghost predicate InOrder(words: seq<seq<Rune>>, ms: seq<Match>) {
    forall i, j :: 0 <= i < j < |ms| ==> Before(words, ms[i], ms[j])
  }

  /** Naive matching reports a word at a position exactly when it ends there. */
  lemma {:induction false} MatchesExact(words: seq<seq<Rune>>, text: seq<Rune>, n: nat, m: Match)
    requires NonEmptyWords(words) && n <= |text|
    ensures m in MatchesUpTo(words, text, n) <==>
              m.pi < |words| && m.end < n && IsSuffix(words[m.pi], text[..m.end + 1])
  {
    if n > 0 {
      MatchesExact(words, text, n - 1, m);
      EndingHereExact(words, text[..n], m.pi);
      var before, out := MatchesUpTo(words, text, n - 1), EndingHere(words, text[..n]);
      var here := Tag(out, n - 1);
      assert m in MatchesUpTo(words, text, n) <==> m in before || m in here;
      if m.pi in out && m.end == n - 1 {
        var i :| 0 <= i < |out| && out[i] == m.pi;
        assert here[i] == m;
      }
    }
  }

  /** ... and once, in callback order. */
  lemma {:induction false} MatchesOrdered(words: seq<seq<Rune>>, text: seq<Rune>, n: nat)
    requires n <= |text|
    ensures InOrder(words, MatchesUpTo(words, text, n))
  {
    if n > 0 {
      MatchesOrdered(words, text, n - 1);
      EndingHereOrdered(words, text[..n]);
      var before, out := MatchesUpTo(words, text, n - 1), EndingHere(words, text[..n]);
      var here := Tag(out, n - 1);
      var ms := MatchesUpTo(words, text, n);
      assert forall i, j :: 0 <= i < j < |here| ==> Before(words, here[i], here[j]) by {
        forall i, j | 0 <= i < j < |here|
          ensures Before(words, here[i], here[j])
        {
          assert here[i] == Match(out[i], n - 1) && here[j] == Match(out[j], n - 1);
        }
      }
      forall i, j | 0 <= i < j < |ms|
        ensures Before(words, ms[i], ms[j])
      {
        assert ms[i] == if i < |before| then before[i] else here[i - |before|];
        assert ms[j] == if j < |before| then before[j] else here[j - |before|];
        if i < |before| <= j {
          assert before[i].end < n - 1 == here[j - |before|].end;
        } else if |before| <= i {
          assert Before(words, here[i - |before|], here[j - |before|]);
        } else {
          assert Before(words, before[i], before[j]);
        }
      }
    }
  }
}

module Automata {
  import opened Collections
  import opened Runes
  import opened NaiveMatching

  datatype Pattern = Pattern(length: nat, cat: Category, ascii: bool)

  datatype Node = Node(next: map<Rune, nat>, fail: nat, out: seq<nat>)

  // ------------------------------------------------------------------
  // The trie
  // ------------------------------------------------------------------

  ghost predicate Edge(nodes: seq<Node>, u: nat, r: Rune, v: nat) {
    u < |nodes| && r in nodes[u].next && nodes[u].next[r] == v
  }

  ghost predicate HasParent(nodes: seq<Node>, v: nat) {
    exists u: nat, r :: Edge(nodes, u, r, v)
  }

  /** `paths[v]` spells node `v`; edges extend paths, every node but the root hangs off an edge. */
  ghost predicate TrieOk(nodes: seq<Node>, paths: seq<seq<Rune>>) {
    && |nodes| == |paths| && |nodes| > 0 && paths[0] == []
    && (forall u, v :: 0 <= u < |paths| && 0 <= v < |paths| && paths[u] == paths[v] ==> u == v)
    && (forall u: nat, r, v: nat :: Edge(nodes, u, r, v) ==> 0 < v < |nodes| && paths[v] == paths[u] + [r])
    && (forall v :: 0 < v < |nodes| ==> HasParent(nodes, v))
  }

  lemma Parent(nodes: seq<Node>, paths: seq<seq<Rune>>, v: nat) returns (u: nat, r: Rune)
    requires TrieOk(nodes, paths) && 0 < v < |nodes|
    ensures Edge(nodes, u, r, v) && paths[v] == paths[u] + [r]
    ensures paths[u] == paths[v][..|paths[v]| - 1] && r == paths[v][|paths[v]| - 1]
  {
    assert HasParent(nodes, v);
    u, r :| Edge(nodes, u, r, v);
    assert paths[v] == paths[u] + [r];
  }

  /** A node hangs off one edge only. */
  lemma OneParent(nodes: seq<Node>, paths: seq<seq<Rune>>, u: nat, r: Rune, v: nat)
    requires TrieOk(nodes, paths) && Edge(nodes, u, r, v)
    ensures forall u': nat, r' :: Edge(nodes, u', r', v) ==> u' == u && r' == r
  {
    forall u': nat, r' | Edge(nodes, u', r', v)
      ensures u' == u && r' == r
    {
      assert paths[v] == paths[u] + [r] && paths[v] == paths[u'] + [r'];
      assert paths[u] == paths[v][..|paths[v]| - 1] == paths[u'];
      assert r == paths[v][|paths[v]| - 1] == r';
    }
  }

  ghost predicate SameEdges(a: seq<Node>, b: seq<Node>) {
    |a| == |b| && forall u :: 0 <= u < |a| ==> a[u].next == b[u].next
  }

  lemma EdgesFrame(a: seq<Node>, b: seq<Node>, paths: seq<seq<Rune>>)
    requires TrieOk(a, paths) && SameEdges(a, b)
    ensures TrieOk(b, paths)
    ensures forall u: nat, r, v: nat :: Edge(a, u, r, v) <==> Edge(b, u, r, v)
  {
    assert forall u: nat, r, v: nat :: Edge(a, u, r, v) <==> Edge(b, u, r, v);
    forall v: nat | 0 < v < |b|
      ensures HasParent(b, v)
    {
      var u, r := Parent(a, paths, v);
      assert Edge(b, u, r, v);
    }
  }

  /** A node has an edge on `r` exactly when its path extended by `r` is in the trie. */
  lemma EdgeIffPath(nodes: seq<Node>, paths: seq<seq<Rune>>, u: nat, r: Rune)
    requires TrieOk(nodes, paths) && u < |nodes|
    ensures r in nodes[u].next <==> paths[u] + [r] in paths
    ensures r in nodes[u].next ==> Edge(nodes, u, r, nodes[u].next[r])
  {
    if r in nodes[u].next {
      assert Edge(nodes, u, r, nodes[u].next[r]);
    }
    if paths[u] + [r] in paths {
      var v: nat :| v < |paths| && paths[v] == paths[u] + [r];
      var u', r' := Parent(nodes, paths, v);
      assert paths[u] == paths[v][..|paths[v]| - 1];
    }
  }

  lemma PrefixClosed(nodes: seq<Node>, paths: seq<seq<Rune>>, p: seq<Rune>, r: Rune)
    requires TrieOk(nodes, paths) && p + [r] in paths
    ensures p in paths
  {
    var v: nat :| v < |paths| && paths[v] == p + [r];
    var u, r' := Parent(nodes, paths, v);
    assert p == paths[v][..|paths[v]| - 1];
  }

  ghost function WithChild(nodes: seq<Node>, cur: nat, r: Rune): seq<Node>
    requires cur < |nodes|
  {
    (nodes + [Node(map[], 0, [])])[cur := nodes[cur].(next := nodes[cur].next[r := |nodes|])]
  }

  lemma TrieExtend(nodes: seq<Node>, paths: seq<seq<Rune>>, cur: nat, r: Rune)
    requires TrieOk(nodes, paths) && cur < |nodes| && r !in nodes[cur].next
    ensures paths[cur] + [r] !in paths
    ensures TrieOk(WithChild(nodes, cur, r), paths + [paths[cur] + [r]])
  {
    EdgeIffPath(nodes, paths, cur, r);
    var nodes', paths' := WithChild(nodes, cur, r), paths + [paths[cur] + [r]];
    forall u: nat, r', v: nat | Edge(nodes', u, r', v)
      ensures 0 < v < |nodes'| && paths'[v] == paths'[u] + [r']
    {
      if !(u == cur && r' == r) {
        assert Edge(nodes, u, r', v);
      }
    }
    forall v: nat | 0 < v < |nodes'|
      ensures HasParent(nodes', v)
    {
      if v == |nodes| {
        assert Edge(nodes', cur, r, v);
      } else {
        var u, r' := Parent(nodes, paths, v);
        assert Edge(nodes', u, r', v);
      }
    }
  }

  /** After the first `k` words: they are in the trie, and each node lists those it spells. */
  ghost predicate Inserted(nodes: seq<Node>, paths: seq<seq<Rune>>, words: seq<seq<Rune>>, k: nat) {
    && TrieOk(nodes, paths) && k <= |words|
    && (forall pi :: 0 <= pi < k ==> words[pi] in paths)
    && (forall v :: 0 <= v < |nodes| ==> nodes[v].fail == 0 && nodes[v].out == OwnUpTo(words, paths[v], k))
  }

  lemma InsertChild(nodes: seq<Node>, paths: seq<seq<Rune>>, words: seq<seq<Rune>>, k: nat, cur: nat, r: Rune)
    requires Inserted(nodes, paths, words, k) && cur < |nodes| && r !in nodes[cur].next
    ensures Inserted(WithChild(nodes, cur, r), paths + [paths[cur] + [r]], words, k)
  {
    TrieExtend(nodes, paths, cur, r);
    NoneOwn(words, paths[cur] + [r], k);
  }

  lemma InsertOutput(nodes: seq<Node>, paths: seq<seq<Rune>>, words: seq<seq<Rune>>, k: nat, cur: nat)
    requires Inserted(nodes, paths, words, k) && k < |words| && cur < |nodes| && paths[cur] == words[k]
    ensures Inserted(nodes[cur := nodes[cur].(out := nodes[cur].out + [k])], paths, words, k + 1)
  {
    var nodes' := nodes[cur := nodes[cur].(out := nodes[cur].out + [k])];
    EdgesFrame(nodes, nodes', paths);
    forall v | 0 <= v < |nodes|
      ensures nodes'[v].fail == 0 && nodes'[v].out == OwnUpTo(words, paths[v], k + 1)
    {
      assert v != cur ==> paths[v] != words[k];
    }
  }

  // ------------------------------------------------------------------
  // Failure links
  // ------------------------------------------------------------------

  /** Node `v` spells the longest suffix of `t` that is in the trie. */
  ghost predicate Longest(paths: seq<seq<Rune>>, v: nat, t: seq<Rune>) {
    && v < |paths| && IsSuffix(paths[v], t)
    && forall s :: s in paths && IsSuffix(s, t) ==> |s| <= |paths[v]|
  }

  /** The failure link of `n`, node `v`, spells the longest proper suffix of `v`'s path that is in the trie. */
  ghost predicate FailOk(n: Node, paths: seq<seq<Rune>>, v: nat) {
    v < |paths| && if paths[v] == [] then n.fail == 0 else Longest(paths, n.fail, paths[v][1..])
  }

  /** Invariant of the failure walk over the suffixes of `t`: nothing longer than `f` extends by `r`. */
  ghost predicate Walking(paths: seq<seq<Rune>>, f: nat, t: seq<Rune>, r: Rune) {
    && f < |paths| && IsSuffix(paths[f], t)
    && forall s :: s in paths && IsSuffix(s, t) && |s| > |paths[f]| ==> s + [r] !in paths
  }

  lemma WalkStep(nodes: seq<Node>, paths: seq<seq<Rune>>, f: nat, t: seq<Rune>, r: Rune)
    requires TrieOk(nodes, paths) && Walking(paths, f, t, r)
    requires f != 0 && FailOk(nodes[f], paths, f) && r !in nodes[f].next
    ensures nodes[f].fail < |nodes| && |paths[nodes[f].fail]| < |paths[f]|
    ensures Walking(paths, nodes[f].fail, t, r)
  {
    var g := nodes[f].fail;
    assert paths[f] != paths[0];
    var tail := paths[f][1..];
    assert IsSuffix(tail, paths[f]);
    SuffixTransitive(tail, paths[f], t);
    SuffixTransitive(paths[g], tail, t);
    EdgeIffPath(nodes, paths, f, r);
    forall s | s in paths && IsSuffix(s, t) && |s| > |paths[g]|
      ensures s + [r] !in paths
    {
      if |s| == |paths[f]| {
        SuffixesNest(s, paths[f], t);
        SameLengthSuffix(s, paths[f]);
      } else if |s| < |paths[f]| {
        SuffixesNest(s, tail, t);
      }
    }
  }

  /** Where the walk that stopped at `n` goes on `r`: along the edge, or to the root. */
  ghost function Target(n: Node, r: Rune): nat {
    if r in n.next then n.next[r] else 0
  }

  lemma WalkEnd(nodes: seq<Node>, paths: seq<seq<Rune>>, f: nat, t: seq<Rune>, r: Rune)
    requires TrieOk(nodes, paths) && Walking(paths, f, t, r)
    requires f == 0 || r in nodes[f].next
    ensures Longest(paths, Target(nodes[f], r), t + [r])
  {
    EdgeIffPath(nodes, paths, f, r);
    var v := Target(nodes[f], r);
    SuffixSnoc(paths[f], t, r);
    forall s | s in paths && IsSuffix(s, t + [r])
      ensures |s| <= |paths[v]|
    {
      if s != [] {
        var s' := s[..|s| - 1];
        assert s[|s| - 1] == (t + [r])[|t|];
        assert s == s' + [r];
        SuffixSnoc(s', t, r);
        PrefixClosed(nodes, paths, s', r);
        if |s'| == |paths[f]| {
          SuffixesNest(s', paths[f], t);
          SameLengthSuffix(s', paths[f]);
        }
      }
    }
  }

  /** Words are in the trie, so dropping to the longest suffix in the trie loses no word. */
  lemma {:induction false} LongestKeepsWords(words: seq<seq<Rune>>, paths: seq<seq<Rune>>, v: nat, t: seq<Rune>)
    requires forall pi :: 0 <= pi < |words| ==> words[pi] in paths
    requires Longest(paths, v, t)
    ensures EndingHere(words, t) == EndingHere(words, paths[v])
  {
    if |paths[v]| == |t| {
      SameLengthSuffix(paths[v], t);
    } else {
      SameLengthSuffix(t, t);
      assert t !in paths;
      NoneOwn(words, t, |words|);
      ProperSuffix(paths[v], t);
      forall s | s in paths && IsSuffix(s, t[1..])
        ensures |s| <= |paths[v]|
      {
        ProperSuffix(s, t);
      }
      LongestKeepsWords(words, paths, v, t[1..]);
    }
  }

  // ------------------------------------------------------------------
  // Breadth-first linking
  // ------------------------------------------------------------------

  ghost predicate Linked(n: Node, paths: seq<seq<Rune>>, words: seq<seq<Rune>>, v: nat) {
    v < |paths| && FailOk(n, paths, v) && n.out == EndingHere(words, paths[v])
  }

  /** Nodes in `done` (and the root) are linked; the others still list only their own words. */
  ghost predicate Outputs(nodes: seq<Node>, paths: seq<seq<Rune>>, words: seq<seq<Rune>>, done: set<nat>) {
    && |nodes| == |paths|
    && forall v {:trigger nodes[v]} :: 0 <= v < |nodes| ==>
         if v == 0 || v in done then Linked(nodes[v], paths, words, v) else nodes[v].out == Own(words, paths[v])
  }

  ghost predicate Progress(nodes: seq<Node>, paths: seq<seq<Rune>>, words: seq<seq<Rune>>, done: set<nat>) {
    && TrieOk(nodes, paths)
    && (forall pi :: 0 <= pi < |words| ==> words[pi] in paths)
    && Outputs(nodes, paths, words, done)
  }

  /** The queue holds `done` minus `processed`, ordered by depth, on levels `level` and `level + 1`. */
  ghost predicate Queued(paths: seq<seq<Rune>>, queue: seq<nat>, processed: set<nat>, done: set<nat>, level: nat) {
    && (forall v :: v in done <==> v in processed || v in queue)
    && (forall v :: v in processed ==> v !in queue)
    && (forall v :: v in done ==> 0 < v < |paths|)
    && (forall i :: 0 <= i < |queue| ==> queue[i] < |paths|)
    && (forall i, j :: 0 <= i < j < |queue| ==> queue[i] != queue[j] && |paths[queue[i]]| <= |paths[queue[j]]|)
    && (forall i :: 0 <= i < |queue| ==> level <= |paths[queue[i]]| <= level + 1)
    && (forall v :: 0 < v < |paths| && |paths[v]| <= level ==> v in done)
  }

  /**
    A node is done exactly when it hangs off the root or off a processed node, except for the children of
    `cur` on the runes still in `rest`.
   */
  ghost predicate ChildrenDone(nodes: seq<Node>, processed: set<nat>, done: set<nat>, cur: nat, rest: set<Rune>) {
    forall u: nat, r, v: nat :: Edge(nodes, u, r, v) ==>
      (v in done <==> (u == 0 || u in processed) && !(u == cur && r in rest))
  }

  ghost function Below(n: nat): (s: set<nat>)
    ensures forall v: nat :: v in s <==> v < n
  {
    if n == 0 then {} else Below(n - 1) + {n - 1}
  }

  /** Before a pop the level may move to the depth of the queue's head. */
  lemma NextLevel(nodes: seq<Node>, paths: seq<seq<Rune>>, queue: seq<nat>, processed: set<nat>, done: set<nat>, level: nat)
    requires TrieOk(nodes, paths) && Queued(paths, queue, processed, done, level) && ChildrenDone(nodes, processed, done, 0, {})
    requires queue != [] && queue[0] < |paths|
    ensures Queued(paths, queue, processed, done, |paths[queue[0]]|)
  {
    assert queue[0] in queue;
    var d := |paths[queue[0]]|;
    forall v: nat | 0 < v < |paths| && |paths[v]| <= d
      ensures v in done
    {
      if |paths[v]| == level + 1 == d {
        var u, r := Parent(nodes, paths, v);
      }
    }
  }

  /** When the queue is empty every node is linked. */
  lemma {:induction false} AllDone(nodes: seq<Node>, paths: seq<seq<Rune>>, processed: set<nat>, done: set<nat>, v: nat)
    requires TrieOk(nodes, paths) && ChildrenDone(nodes, processed, done, 0, {})
    requires done <= processed
    requires 0 < v < |nodes|
    ensures v in done
    decreases |paths[v]|
  {
    var u, r := Parent(nodes, paths, v);
    if u != 0 {
      AllDone(nodes, paths, processed, done, u);
    }
  }

  ghost function WithLink(nodes: seq<Node>, v: nat, f: nat): seq<Node>
    requires v < |nodes| && f < |nodes|
  {
    nodes[v := Node(nodes[v].next, f, nodes[v].out + nodes[f].out)]
  }

  lemma LinkOutput(n: Node, m: Node, paths: seq<seq<Rune>>, words: seq<seq<Rune>>, v: nat, f: nat)
    requires forall pi :: 0 <= pi < |words| ==> words[pi] in paths
    requires v < |paths| && f < |paths| && paths[v] != [] && Longest(paths, f, paths[v][1..])
    requires n.out == Own(words, paths[v]) && m.out == EndingHere(words, paths[f])
    ensures Linked(Node(n.next, f, n.out + m.out), paths, words, v)
  {
    LongestKeepsWords(words, paths, f, paths[v][1..]);
  }

  /** Linking `v` to a linked `f` spelling its longest proper suffix leaves every other node as it was. */
  lemma LinkNode(nodes: seq<Node>, paths: seq<seq<Rune>>, words: seq<seq<Rune>>, done: set<nat>, v: nat, f: nat)
    requires Progress(nodes, paths, words, done) && 0 < v < |nodes| && v !in done
    requires f < |nodes| && (f == 0 || f in done)
    requires paths[v] != [] && Longest(paths, f, paths[v][1..])
    ensures Progress(WithLink(nodes, v, f), paths, words, done + {v})
    ensures SameEdges(nodes, WithLink(nodes, v, f))
    ensures forall u: nat, r, w: nat :: Edge(nodes, u, r, w) <==> Edge(WithLink(nodes, v, f), u, r, w)
  {
    LinkOutput(nodes[v], nodes[f], paths, words, v, f);
    EdgesFrame(nodes, WithLink(nodes, v, f), paths);
  }

  lemma Enqueue(paths: seq<seq<Rune>>, queue: seq<nat>, processed: set<nat>, done: set<nat>, level: nat, v: nat)
    requires Queued(paths, queue, processed, done, level)
    requires 0 < v < |paths| && v !in done && |paths[v]| == level + 1
    ensures Queued(paths, queue + [v], processed, done + {v}, level)
  {
    var queue' := queue + [v];
    assert forall w :: w in queue' <==> w in queue || w == v;
    assert forall i :: 0 <= i < |queue| ==> queue[i] in queue;
  }

  lemma Dequeue(paths: seq<seq<Rune>>, queue: seq<nat>, processed: set<nat>, done: set<nat>, level: nat)
    requires Queued(paths, queue, processed, done, level) && queue != []
    ensures Queued(paths, queue[1..], processed + {queue[0]}, done, level)
    ensures queue[0] in done && queue[0] !in processed
  {
    assert queue[0] in queue;
    assert forall w :: w in queue <==> w == queue[0] || w in queue[1..];
  }

  lemma ChildLinked(nodes: seq<Node>, nodes': seq<Node>, processed: set<nat>, done: set<nat>, cur: nat, rest: set<Rune>, r: Rune, v: nat)
    requires ChildrenDone(nodes, processed, done, cur, rest)
    requires Edge(nodes, cur, r, v) && (cur == 0 || cur in processed)
    requires forall u: nat, r' :: Edge(nodes, u, r', v) ==> u == cur && r' == r
    requires forall u: nat, r', w: nat :: Edge(nodes, u, r', w) <==> Edge(nodes', u, r', w)
    ensures ChildrenDone(nodes', processed, done + {v}, cur, rest - {r})
  {
  }

  lemma LinkChild(nodes: seq<Node>, paths: seq<seq<Rune>>, words: seq<seq<Rune>>,
                  queue: seq<nat>, processed: set<nat>, done: set<nat>, level: nat, cur: nat, rest: set<Rune>,
                  r: Rune, v: nat, f: nat)
    requires Progress(nodes, paths, words, done)
    requires Queued(paths, queue, processed, done, level)
    requires ChildrenDone(nodes, processed, done, cur, rest)
    requires r in rest && Edge(nodes, cur, r, v) && (cur == 0 || cur in processed) && |paths[cur]| == level
    requires f < |nodes| && (f == 0 || f in done) && Longest(paths, f, paths[v][1..])
    ensures Progress(WithLink(nodes, v, f), paths, words, done + {v})
    ensures Queued(paths, queue + [v], processed, done + {v}, level)
    ensures ChildrenDone(WithLink(nodes, v, f), processed, done + {v}, cur, rest - {r})
    ensures SameEdges(nodes, WithLink(nodes, v, f))
  {
    assert paths[v] == paths[cur] + [r];
    assert v !in done;
    Enqueue(paths, queue, processed, done, level, v);
    assert ChildrenDone(WithLink(nodes, v, f), processed, done + {v}, cur, rest - {r}) by {
      LinkNode(nodes, paths, words, done, v, f);
      OneParent(nodes, paths, cur, r, v);
      ChildLinked(nodes, WithLink(nodes, v, f), processed, done, cur, rest, r, v);
    }
    LinkNode(nodes, paths, words, done, v, f);
  }

  lemma TailOfChild(nodes: seq<Node>, paths: seq<seq<Rune>>, u: nat, r: Rune, v: nat)
    requires TrieOk(nodes, paths) && u != 0 && Edge(nodes, u, r, v)
    ensures v < |paths| && paths[u] != [] && paths[v] != [] && paths[v][1..] == paths[u][1..] + [r]
  {
    assert paths[v] == paths[u] + [r];
    assert paths[u] != paths[0];
  }

  class Automaton {
    var nodes: seq<Node>
    var pats: seq<Pattern>
    ghost var words: seq<seq<Rune>>
    ghost var paths: seq<seq<Rune>>

    ghost predicate Valid()
      reads this
    {
      && TrieOk(nodes, paths) && |pats| == |words| && NonEmptyWords(words)
      && (forall pi :: 0 <= pi < |words| ==> words[pi] in paths)
      && (forall v :: 0 <= v < |nodes| ==> Linked(nodes[v], paths, words, v))
    }

    constructor (words: seq<seq<Rune>>, meta: seq<Pattern>)
      requires |words| == |meta| && NonEmptyWords(words)
      ensures Valid() && this.words == words && pats == meta
    {
      nodes := [Node(map[], 0, [])];
      pats := meta;
      this.words := words;
      paths := [[]];
      new;
      InsertWords(words);
      LinkFailures();
    }

    /** Builds the trie; each node lists the words it spells. */
    method InsertWords(ws: seq<seq<Rune>>)
      requires ws == words
      requires nodes == [Node(map[], 0, [])] && paths == [[]]
      modifies this`nodes, this`paths
      ensures Inserted(nodes, paths, words, |words|)
    {
      for pi := 0 to |ws|
        invariant Inserted(nodes, paths, words, pi)
      {
        InsertWord(ws[pi], pi);
      }
    }

    /** One word: its nodes, then the word itself in the output of its last node. */
    method InsertWord(w: seq<Rune>, pi: nat)
      requires Inserted(nodes, paths, words, pi) && pi < |words| && w == words[pi]
      modifies this`nodes, this`paths
      ensures Inserted(nodes, paths, words, pi + 1)
    {
      var cur := Spell(w, pi);
      InsertOutput(nodes, paths, words, pi, cur);
      nodes := nodes[cur := nodes[cur].(out := nodes[cur].out + [pi])];
    }

    /** The node that spells `w`, made where it is missing. */
    method Spell(w: seq<Rune>, ghost pi: nat) returns (cur: nat)
      requires Inserted(nodes, paths, words, pi)
      modifies this`nodes, this`paths
      ensures Inserted(nodes, paths, words, pi) && cur < |nodes| && paths[cur] == w
    {
      cur := 0;
      for k := 0 to |w|
        invariant Inserted(nodes, paths, words, pi) && cur < |nodes| && paths[cur] == w[..k]
      {
        var r := w[k];
        TakeSnoc(w, k);
        EdgeIffPath(nodes, paths, cur, r);
        if r !in nodes[cur].next {
          InsertChild(nodes, paths, words, pi, cur, r);
          cur := AddChild(cur, r);
        } else {
          cur := nodes[cur].next[r];
        }
      }
      TakeAll(w);
    }

    /** Appends a node and the edge to it. */
    method AddChild(cur: nat, r: Rune) returns (nx: nat)
      requires |nodes| == |paths| && cur < |nodes|
      modifies this`nodes, this`paths
      ensures nodes == WithChild(old(nodes), cur, r) && paths == old(paths) + [old(paths)[cur] + [r]] && nx == old(|nodes|)
    {
      nx := |nodes|;
      nodes := nodes + [Node(map[], 0, [])];
      nodes := nodes[cur := nodes[cur].(next := nodes[cur].next[r := nx])];
      paths := paths + [paths[cur] + [r]];
    }

    /** The children of the root: their failure link is the root, their own words are all that ends there. */
    method LinkRoot() returns (queue: seq<nat>, ghost done: set<nat>)
      requires Inserted(nodes, paths, words, |words|) && NonEmptyWords(words)
      modifies this`nodes
      ensures |nodes| == old(|nodes|)
      ensures Progress(nodes, paths, words, done) && Queued(paths, queue, {}, done, 0)
      ensures ChildrenDone(nodes, {}, done, 0, {})
    {
      queue, done := [], {};
      NoneOwn(words, [], |words|);
      var rest := nodes[0].next.Keys;
      while rest != {}
        invariant |nodes| == old(|nodes|)
        invariant Progress(nodes, paths, words, done) && Queued(paths, queue, {}, done, 0)
        invariant ChildrenDone(nodes, {}, done, 0, rest)
        invariant rest <= nodes[0].next.Keys
        decreases rest
      {
        var r := Any(rest);
        var child := nodes[0].next[r];
        assert Edge(nodes, 0, r, child);
        assert paths[child] == [r] && paths[child][1..] == [];
        LinkChild(nodes, paths, words, queue, {}, done, 0, 0, rest, r, child, 0);
        ghost var linked := WithLink(nodes, child, 0);
        assert nodes[child].out + nodes[0].out == nodes[child].out;
        nodes := nodes[child := nodes[child].(fail := 0)];
        assert nodes == linked;
        queue, rest, done := queue + [child], rest - {r}, done + {child};
      }
    }

    /** Links the children of `u`, the node just taken off the queue, and queues them. */
    method LinkChildren(u: nat, before: seq<nat>, ghost processed: set<nat>, ghost before': set<nat>, ghost level: nat)
      returns (queue: seq<nat>, ghost done: set<nat>)
      requires u < |paths| && u in processed && u in before' && |paths[u]| == level
      requires Progress(nodes, paths, words, before') && Queued(paths, before, processed, before', level)
      requires ChildrenDone(nodes, processed, before', u, nodes[u].next.Keys)
      modifies this`nodes
      ensures |nodes| == old(|nodes|)
      ensures Progress(nodes, paths, words, done) && Queued(paths, queue, processed, done, level)
      ensures ChildrenDone(nodes, processed, done, u, {})
    {
      queue, done := before, before';
      var rest := nodes[u].next.Keys;
      while rest != {}
        invariant |nodes| == old(|nodes|) && u in done
        invariant Progress(nodes, paths, words, done)
        invariant Queued(paths, queue, processed, done, level)
        invariant ChildrenDone(nodes, processed, done, u, rest)
        invariant rest <= nodes[u].next.Keys
        decreases rest
      {
        var r := Any(rest);
        ghost var was := nodes;
        assert Edge(was, u, r, was[u].next[r]);
        var v;
        ghost var g;
        v, g := LinkChildOn(u, r, done);
        LinkChild(was, paths, words, queue, processed, done, level, u, rest, r, v, g);
        queue, rest, done := queue + [v], rest - {r}, done + {v};
      }
    }

    /** The child of `u` on `r`: its link goes to `g`, the node of the longest proper suffix of its path. */
    method LinkChildOn(u: nat, r: Rune, ghost done: set<nat>) returns (v: nat, ghost g: nat)
      requires Progress(nodes, paths, words, done) && u in done && u < |paths| && r in nodes[u].next
      requires u != 0 && forall w :: 0 < w < |paths| && |paths[w]| <= |paths[u]| ==> w in done
      modifies this`nodes
      ensures v == old(nodes)[u].next[r] && v < |paths| && paths[v] != []
      ensures g < |paths| && (g == 0 || g in done) && Longest(paths, g, paths[v][1..])
      ensures |old(nodes)| == |paths| && nodes == WithLink(old(nodes), v, g)
    {
      v := nodes[u].next[r];
      assert Edge(nodes, u, r, v);
      TailOfChild(nodes, paths, u, r, v);
      var f := Walk(u, r, done);
      g := Target(nodes[f], r);
      assert r in nodes[f].next ==> Edge(nodes, f, r, g);
      SetLink(v, f, r);
    }

    /** Points `v` at the node the walk found and appends that node's output to its own. */
    method SetLink(v: nat, f: nat, r: Rune)
      requires v < |nodes| && f < |nodes|
      requires Target(nodes[f], r) < |nodes| && Target(nodes[f], r) != v
      modifies this`nodes
      ensures nodes == WithLink(old(nodes), v, Target(old(nodes)[f], r))
    {
      if r in nodes[f].next && nodes[f].next[r] != v {
        nodes := nodes[v := nodes[v].(fail := nodes[f].next[r])];
      } else {
        nodes := nodes[v := nodes[v].(fail := 0)];
      }
      nodes := nodes[v := nodes[v].(out := nodes[v].out + nodes[nodes[v].fail].out)];
    }

    /** From the failure link of `u` down the links until an edge on `r` or the root. */
    method Walk(u: nat, r: Rune, ghost done: set<nat>) returns (f: nat)
      requires Progress(nodes, paths, words, done) && u in done && u < |paths| && paths[u] != []
      requires forall v :: 0 < v < |paths| && |paths[v]| <= |paths[u]| ==> v in done
      ensures f < |paths| && |paths[f]| < |paths[u]|
      ensures Longest(paths, Target(nodes[f], r), paths[u][1..] + [r])
    {
      assert Linked(nodes[u], paths, words, u);
      f := nodes[u].fail;
      while f != 0
        invariant Walking(paths, f, paths[u][1..], r)
        invariant |paths[f]| < |paths[u]|
        decreases |paths[f]|
      {
        if r in nodes[f].next {
          break;
        }
        assert Linked(nodes[f], paths, words, f);
        WalkStep(nodes, paths, f, paths[u][1..], r);
        f := nodes[f].fail;
      }
      WalkEnd(nodes, paths, f, paths[u][1..], r);
    }

    /** Sets failure links and completes output lists, breadth-first. */
    method LinkFailures()
      requires Inserted(nodes, paths, words, |words|) && NonEmptyWords(words)
      modifies this`nodes
      ensures TrieOk(nodes, paths)
      ensures forall v :: 0 <= v < |nodes| ==> Linked(nodes[v], paths, words, v)
    {
      ghost var processed: set<nat>, done: set<nat>, level: nat := {}, {}, 0;
      var queue: seq<nat>;
      queue, done := LinkRoot();
      while queue != []
        invariant Progress(nodes, paths, words, done) && Queued(paths, queue, processed, done, level)
        invariant ChildrenDone(nodes, processed, done, 0, {})
        decreases Below(|nodes|) - processed
      {
        var u := queue[0];
        NextLevel(nodes, paths, queue, processed, done, level);
        level := |paths[u]|;
        Dequeue(paths, queue, processed, done, level);
        queue := queue[1..];
        processed := processed + {u};
        queue, done := LinkChildren(u, queue, processed, done, level);
      }
      forall v: nat | 0 < v < |nodes|
        ensures v in done
      {
        AllDone(nodes, paths, processed, done, v);
      }
    }

    /** One rune of the scan: follow failure links until `r` extends the node, then move along the edge. */
    method Step(cur: nat, r: Rune, ghost t: seq<Rune>) returns (nx: nat, ghost steps: nat)
      requires Valid() && Longest(paths, cur, t)
      ensures Longest(paths, nx, t + [r])
      ensures nx < |paths| && steps + |paths[nx]| <= |paths[cur]| + 1
    {
      nx, steps := cur, 0;
      while nx != 0
        invariant Walking(paths, nx, t, r)
        invariant steps + |paths[nx]| <= |paths[cur]|
        decreases |paths[nx]|
      {
        if r in nodes[nx].next {
          break;
        }
        assert Linked(nodes[nx], paths, words, nx);
        WalkStep(nodes, paths, nx, t, r);
        nx := nodes[nx].fail;
        steps := steps + 1;
      }
      WalkEnd(nodes, paths, nx, t, r);
      if r in nodes[nx].next {
        assert Edge(nodes, nx, r, nodes[nx].next[r]);
        nx := nodes[nx].next[r];
      }
    }

    /**
      Reports the matches of `text` in callback order. `steps` counts the failure links followed: over the
      whole scan at most one per rune read.
     */
    method Scan(text: seq<Rune>) returns (hits: seq<Match>, ghost steps: nat)
      requires Valid()
      ensures hits == AllMatches(words, text)
      ensures steps <= |text|
    {
      hits, steps := [], 0;
      if |pats| == 0 {
        NoWords(words, text, |text|);
        return;
      }
      var cur: nat := 0;
      for i := 0 to |text|
        invariant Longest(paths, cur, text[..i])
        invariant hits == MatchesUpTo(words, text, i)
        invariant steps + |paths[cur]| <= i
      {
        TakeSnoc(text, i);
        ghost var followed;
        cur, followed := Step(cur, text[i], text[..i]);
        steps := steps + followed;
        OutputOf(cur, text[..i + 1]);
        hits := Report(hits, nodes[cur].out, i);
      }
      TakeAll(text);
    }

    /** The output list of the node the scan is at names the words ending here. */
    lemma OutputOf(cur: nat, t: seq<Rune>)
      requires Valid() && Longest(paths, cur, t)
      ensures cur < |nodes| && nodes[cur].out == EndingHere(words, t)
    {
      assert Linked(nodes[cur], paths, words, cur);
      LongestKeepsWords(words, paths, cur, t);
    }

    /** The callbacks of one position. */
    static method Report(before: seq<Match>, out: seq<nat>, end: nat) returns (hits: seq<Match>)
      ensures hits == before + Tag(out, end)
    {
      hits := before;
      for k := 0 to |out|
        invariant hits == before + Tag(out[..k], end)
      {
        assert out[..k + 1] == out[..k] + [out[k]];
        hits := hits + [Match(out[k], end)];
      }
      assert out[..|out|] == out;
    }
  }

  lemma {:induction false} NoWordEnds(words: seq<seq<Rune>>, t: seq<Rune>)
    requires words == []
    ensures EndingHere(words, t) == []
  {
    if t != [] {
      NoWordEnds(words, t[1..]);
    }
  }

  lemma {:induction false} NoWords(words: seq<seq<Rune>>, text: seq<Rune>, n: nat)
    requires words == [] && n <= |text|
    ensures MatchesUpTo(words, text, n) == []
  {
    if n > 0 {
      NoWords(words, text, n - 1);
      NoWordEnds(words, text[..n]);
    }
  }
}
