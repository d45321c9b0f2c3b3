/** Text as the Go side sees it: a string is a sequence of runes (Unicode code points). */
module Runes {
  type Rune = int

  /** The hit categories of the filter; `Unset` is the empty category of an allow word. */
  datatype Category = Ad | Link | Porn | Gambling | Contact | Custom | Unset

  /** `s` ends `t`. */
  predicate IsSuffix<T(==)>(s: seq<T>, t: seq<T>) {
    |s| <= |t| && t[|t| - |s|..] == s
  }

  /** Two suffixes of one sequence: the shorter one ends the longer one. */
  lemma SuffixesNest<T>(s: seq<T>, s': seq<T>, t: seq<T>)
    requires IsSuffix(s, t) && IsSuffix(s', t) && |s| <= |s'|
    ensures IsSuffix(s, s')
  {
    assert t[|t| - |s|..] == t[|t| - |s'|..][|s'| - |s|..];
  }

  lemma SuffixTransitive<T>(s: seq<T>, s': seq<T>, t: seq<T>)
    requires IsSuffix(s, s') && IsSuffix(s', t)
    ensures IsSuffix(s, t)
  {
    assert t[|t| - |s|..] == t[|t| - |s'|..][|s'| - |s|..];
  }

  lemma ProperSuffix<T>(s: seq<T>, t: seq<T>)
    requires |s| < |t|
    ensures IsSuffix(s, t) <==> IsSuffix(s, t[1..])
  {
    assert t[|t| - |s|..] == t[1..][|t| - 1 - |s|..];
  }

  lemma SameLengthSuffix<T>(s: seq<T>, t: seq<T>)
    requires |s| == |t|
    ensures IsSuffix(s, t) <==> s == t
  {
    assert t[0..] == t;
  }

  lemma SuffixSnoc<T>(s: seq<T>, t: seq<T>, r: T)
    ensures IsSuffix(s + [r], t + [r]) <==> IsSuffix(s, t)
  {
    if |s| <= |t| {
      assert (t + [r])[|t| - |s|..] == t[|t| - |s|..] + [r];
      assert s == (s + [r])[..|s|];
      assert t[|t| - |s|..] == (t[|t| - |s|..] + [r])[..|s|];
    }
  }
}
