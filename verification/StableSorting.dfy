/** Stable sorting by a time, shared by the widget's message store and the agent console's merge. */
module StableSorting {
  ghost predicate Ordered<T>(xs: seq<T>, time: T -> int) {
    forall i, j :: 0 <= i < j < |xs| ==> time(xs[i]) <= time(xs[j])
  }

  /** The elements of one time, in order. */
  function AtTime<T>(xs: seq<T>, time: T -> int, t: int): seq<T> {
    if xs == [] then []
    else
      var rest := AtTime(xs[..|xs| - 1], time, t);
      if time(xs[|xs| - 1]) == t then rest + [xs[|xs| - 1]] else rest
  }

  /** `x` goes after everything that is not later. */
  function Insert<T>(xs: seq<T>, x: T, time: T -> int): (r: seq<T>)
    ensures |r| == |xs| + 1
  {
    if xs == [] || time(xs[|xs| - 1]) <= time(x) then xs + [x]
    else Insert(xs[..|xs| - 1], x, time) + [xs[|xs| - 1]]
  }

  /** A stable sort. */
  function Sorted<T>(xs: seq<T>, time: T -> int): (r: seq<T>)
    ensures |r| == |xs|
  {
    if xs == [] then [] else Insert(Sorted(xs[..|xs| - 1], time), xs[|xs| - 1], time)
  }

  /** What is not earlier than any of the elements goes after them. */
  lemma AppendOrdered<T>(r: seq<T>, elements: seq<T>, last: T, time: T -> int)
    requires Ordered(r, time) && multiset(r) == multiset(elements)
    requires forall e :: e in elements ==> time(e) <= time(last)
    ensures Ordered(r + [last], time)
  {
    forall i | 0 <= i < |r|
      ensures time(r[i]) <= time(last)
    {
      assert r[i] in multiset(r);
    }
  }

  lemma {:induction false} InsertOrdered<T>(xs: seq<T>, x: T, time: T -> int)
    requires Ordered(xs, time)
    ensures Ordered(Insert(xs, x, time), time)
    ensures multiset(Insert(xs, x, time)) == multiset(xs) + multiset{x}
  {
    if xs != [] {
      var n := |xs| - 1;
      assert xs == xs[..n] + [xs[n]];
      if time(xs[n]) > time(x) {
        InsertOrdered(xs[..n], x, time);
        AppendOrdered(Insert(xs[..n], x, time), xs[..n] + [x], xs[n], time);
      }
    }
  }

  lemma {:induction false} InsertStable<T>(xs: seq<T>, x: T, time: T -> int, t: int)
    requires Ordered(xs, time)
    ensures AtTime(Insert(xs, x, time), time, t) == AtTime(xs, time, t) + if time(x) == t then [x] else []
  {
    var r := Insert(xs, x, time);
    if xs == [] || time(xs[|xs| - 1]) <= time(x) {
      assert r[..|xs|] == xs;
    } else {
      var n := |xs| - 1;
      InsertStable(xs[..n], x, time, t);
      assert r[..|r| - 1] == Insert(xs[..n], x, time);
      if time(x) == t {
        NothingLater(xs, time, t);
      }
    }
  }

  /** A later last element does not belong to time `t`. */
  lemma NothingLater<T>(xs: seq<T>, time: T -> int, t: int)
    requires xs != [] && time(xs[|xs| - 1]) > t
    ensures AtTime(xs, time, t) == AtTime(xs[..|xs| - 1], time, t)
  {
  }

  /** Sorted by time, the same elements, and elements of one time in their old order. */
  lemma {:induction false} SortedIsStable<T>(xs: seq<T>, time: T -> int)
    ensures Ordered(Sorted(xs, time), time) && multiset(Sorted(xs, time)) == multiset(xs)
    ensures forall t :: AtTime(Sorted(xs, time), time, t) == AtTime(xs, time, t)
  {
    if xs != [] {
      var n := |xs| - 1;
      SortedIsStable(xs[..n], time);
      var s := Sorted(xs[..n], time);
      InsertOrdered(s, xs[n], time);
      assert xs == xs[..n] + [xs[n]];
      forall t
        ensures AtTime(Sorted(xs, time), time, t) == AtTime(xs, time, t)
      {
        InsertStable(s, xs[n], time, t);
      }
    }
  }
}
