/**
  Rate limits: the server's fixed window on a Redis counter (backend/internal/security/ratelimit.go) and the two
  sliding windows of the clients (widget/public/hall-core.js, admin/src/modules/hallMessages.js). Clocks are in
  milliseconds and do not go back.
 */
module Spans {
  import opened Collections

  ghost predicate Rising(times: seq<int>) {
    forall i, j :: 0 <= i <= j < |times| ==> times[i] <= times[j]
  }

  /** The positions whose time lies in the half-open span of length `w` from `s`. */
  ghost function InSpan(times: seq<int>, s: int, w: int): set<nat> {
    set i: nat | i < |times| && s <= times[i] < s + w
  }

  ghost function Between(lo: nat, hi: nat): (xs: set<nat>)
    requires lo <= hi
    ensures |xs| == hi - lo && forall i: nat :: i in xs <==> lo <= i < hi
    decreases hi - lo
  {
    if lo == hi then {} else Between(lo, hi - 1) + {hi - 1}
  }

  /** Positions among the `n` from `lo` on. */
  lemma FewIn(xs: set<nat>, lo: nat, n: nat)
    requires forall i :: i in xs ==> lo <= i < lo + n
    ensures |xs| <= n
  {
    SubsetSize(xs, Between(lo, lo + n));
  }

  /** Any `limit` + 1 consecutive times span at least `w`. */
  ghost predicate Spaced(times: seq<int>, limit: nat, w: int) {
    forall i, j :: 0 <= i && i + limit <= j < |times| ==> times[i] + w <= times[j]
  }

  /** Spaced times: at most `limit` in any half-open span of length `w`. */
  lemma SpacedBound(times: seq<int>, limit: nat, w: int, s: int)
    requires Rising(times) && Spaced(times, limit, w)
    ensures |InSpan(times, s, w)| <= limit
  {
    var xs := InSpan(times, s, w);
    if xs != {} {
      var lo := Least(xs);
      FewIn(xs, lo, limit);
    }
  }

  lemma {:induction false} Least(xs: set<nat>) returns (lo: nat)
    requires xs != {}
    ensures lo in xs && forall i :: i in xs ==> lo <= i
    decreases |xs|
  {
    var x :| x in xs;
    lo := x;
    assert forall i :: i in xs ==> i == x || i in xs - {x};
    if xs - {x} != {} {
      var rest := Least(xs - {x});
      lo := if rest < x then rest else x;
    }
  }
}

module SlidingWindows {
  import opened Spans

  /** _prune: hits as old as the window go from the front. */
  function Pruned(hits: seq<int>, now: int, w: int): seq<int> {
    if hits != [] && now - hits[0] >= w then Pruned(hits[1..], now, w) else hits
  }

  /** What pruning leaves of rising hits is exactly those younger than the window. */
  lemma {:induction false} PrunedIsRest(hits: seq<int>, now: int, w: int) returns (k: nat)
    requires Rising(hits)
    ensures k <= |hits| && Pruned(hits, now, w) == hits[k..]
    ensures forall i :: 0 <= i < |hits| ==> (now - hits[i] >= w <==> i < k)
  {
    if hits != [] && now - hits[0] >= w {
      var n := PrunedIsRest(hits[1..], now, w);
      k := n + 1;
      assert forall i :: 1 <= i < |hits| ==> hits[i] == hits[1..][i - 1];
    } else {
      k := 0;
    }
  }

  /** The admin limiter's filter. */
  function Recent(hits: seq<int>, t: int, w: int): seq<int> {
    if hits == [] then []
    else
      var rest := Recent(hits[1..], t, w);
      if hits[0] <= t && t - hits[0] < w then [hits[0]] + rest else rest
  }

  /** While the clock does not go back, the two clients forget the same hits. */
  lemma {:induction false} RecentIsPruned(hits: seq<int>, t: int, w: int)
    requires Rising(hits) && forall i :: 0 <= i < |hits| ==> hits[i] <= t
    ensures Recent(hits, t, w) == Pruned(hits, t, w)
  {
    if hits != [] {
      RecentIsPruned(hits[1..], t, w);
      if t - hits[0] < w {
        assert hits[1..] == [] || hits[1..][0] == hits[1];
        assert Pruned(hits[1..], t, w) == hits[1..];
        assert hits == [hits[0]] + hits[1..];
      }
    }
  }

  ghost predicate WouldTake(hits: seq<int>, t: int, limit: nat, w: int) {
    |Pruned(hits, t, w)| < limit
  }

  /**
    `taken` is every grant so far; `hits` is its end, and what has been forgotten is as old as the window. No more
    than `limit` are remembered, and no `limit` + 1 grants lie within a window.
   */
  ghost predicate WindowOk(hits: seq<int>, taken: seq<int>, clock: int, limit: nat, w: int) {
    && limit > 0 && w > 0
    && |hits| <= |taken| && hits == taken[|taken| - |hits|..] && |hits| <= limit
    && Rising(taken) && (forall i :: 0 <= i < |taken| ==> taken[i] <= clock)
    && (forall i :: 0 <= i < |taken| - |hits| ==> clock - taken[i] >= w)
    && Spaced(taken, limit, w)
  }

  lemma HitsRising(hits: seq<int>, taken: seq<int>, clock: int, limit: nat, w: int)
    requires WindowOk(hits, taken, clock, limit, w)
    ensures Rising(hits) && forall i :: 0 <= i < |hits| ==> hits[i] <= clock
  {
    assert forall i :: 0 <= i < |hits| ==> hits[i] == taken[|taken| - |hits| + i];
  }

  lemma PruneKeeps(hits: seq<int>, taken: seq<int>, clock: int, limit: nat, w: int, now: int)
    requires WindowOk(hits, taken, clock, limit, w) && clock <= now
    ensures WindowOk(Pruned(hits, now, w), taken, now, limit, w)
    ensures forall i :: 0 <= i < |Pruned(hits, now, w)| ==> now - Pruned(hits, now, w)[i] < w
  {
    HitsRising(hits, taken, clock, limit, w);
    var k := PrunedIsRest(hits, now, w);
    var n := |taken| - |hits|;
    assert hits[k..] == taken[n + k..];
    forall i | 0 <= i < n + k
      ensures now - taken[i] >= w
    {
      if i >= n {
        assert hits[i - n] == taken[i];
      }
    }
  }

  lemma TakeKeeps(hits: seq<int>, taken: seq<int>, limit: nat, w: int, now: int)
    requires WindowOk(hits, taken, now, limit, w) && |hits| < limit
    ensures WindowOk(hits + [now], taken + [now], now, limit, w)
  {
    var all := taken + [now];
    forall i, j | 0 <= i && i + limit <= j < |all|
      ensures all[i] + w <= all[j]
    {
      assert i < |taken| - |hits| || j < |taken|;
    }
  }

  /** A refusal is justified: `limit` grants lie within the window that ends now. */
  lemma RefusalJustified(hits: seq<int>, taken: seq<int>, limit: nat, w: int, now: int)
    requires WindowOk(hits, taken, now, limit, w) && |hits| >= limit && forall i :: 0 <= i < |hits| ==> now - hits[i] < w
    ensures |taken| >= limit && forall i :: |taken| - limit <= i < |taken| ==> now - w < taken[i] <= now
  {
    assert forall i :: 0 <= i < |hits| ==> hits[i] == taken[|taken| - |hits| + i];
  }

  /** When the next take succeeds: once the oldest of `limit` remembered hits is as old as the window. */
  lemma NextTake(hits: seq<int>, limit: nat, w: int, t: int)
    requires Rising(hits) && 0 < |hits| == limit
    ensures WouldTake(hits, t, limit, w) <==> t >= hits[0] + w
  {
    var k := PrunedIsRest(hits, t, w);
  }

  class SlidingWindow {
    const limit: nat
    const windowMs: int
    var hits: seq<int>
    ghost var taken: seq<int>
    ghost var clock: int

    ghost predicate Valid()
      reads this
    {
      WindowOk(hits, taken, clock, limit, windowMs)
    }

    constructor (limit: int, windowMs: int, ghost now: int)
      ensures Valid() && taken == [] && clock == now
      ensures this.limit == (if limit > 0 then limit else 5) && this.windowMs == (if windowMs > 0 then windowMs else 10000)
    {
      this.limit := if limit > 0 then limit else 5;
      this.windowMs := if windowMs > 0 then windowMs else 10000;
      hits := [];
      taken, clock := [], now;
    }

    method Prune(now: int)
      requires Valid() && clock <= now
      modifies this`hits, this`clock
      ensures Valid() && clock == now && hits == Pruned(old(hits), now, windowMs)
      ensures forall i :: 0 <= i < |hits| ==> now - hits[i] < windowMs
    {
      PruneKeeps(hits, taken, clock, limit, windowMs, now);
      ghost var before := hits;
      while |hits| > 0 && now - hits[0] >= windowMs
        invariant Pruned(hits, now, windowMs) == Pruned(before, now, windowMs)
        decreases |hits|
      {
        hits := hits[1..];
      }
      clock := now;
    }

    method TryTake(now: int) returns (ok: bool)
      requires Valid() && clock <= now
      modifies this
      ensures Valid() && clock == now
      ensures ok <==> WouldTake(old(hits), now, limit, windowMs)
      ensures taken == if ok then old(taken) + [now] else old(taken)
      ensures !ok ==> |taken| >= limit && forall i :: |taken| - limit <= i < |taken| ==> now - windowMs < taken[i] <= now
    {
      Prune(now);
      if |hits| >= limit {
        RefusalJustified(hits, taken, limit, windowMs, now);
        return false;
      }
      TakeKeeps(hits, taken, limit, windowMs, now);
      hits := hits + [now];
      taken := taken + [now];
      return true;
    }

    /** Exact: without another take, a take succeeds from `now + wait` on and never before. */
    method RetryInMs(now: int) returns (wait: int)
      requires Valid() && clock <= now
      modifies this`hits, this`clock
      ensures Valid() && clock == now && wait >= 0 && hits == Pruned(old(hits), now, windowMs)
      ensures forall t :: t >= now ==> (WouldTake(hits, t, limit, windowMs) <==> t >= now + wait)
    {
      Prune(now);
      HitsRising(hits, taken, clock, limit, windowMs);
      if |hits| < limit {
        forall t
          ensures WouldTake(hits, t, limit, windowMs)
        {
          var k := PrunedIsRest(hits, t, windowMs);
        }
        return 0;
      }
      forall t
        ensures WouldTake(hits, t, limit, windowMs) <==> t >= hits[0] + windowMs
      {
        NextTake(hits, limit, windowMs, t);
      }
      wait := windowMs - (now - hits[0]);
      if wait < 0 {
        wait := 0;
      }
    }
  }

  class SlidingWindowLimiter {
    const max: nat
    const windowMs: int
    var hits: seq<int>
    ghost var taken: seq<int>
    ghost var clock: int

    ghost predicate Valid()
      reads this
    {
      WindowOk(hits, taken, clock, max, windowMs)
    }

    constructor (max: int, windowMs: int, ghost now: int)
      ensures Valid() && taken == [] && clock == now
      ensures this.max == (if max > 1 then max else 1) && this.windowMs == (if windowMs > 1 then windowMs else 1)
    {
      this.max := if max > 1 then max else 1;
      this.windowMs := if windowMs > 1 then windowMs else 1;
      hits := [];
      taken, clock := [], now;
    }

    method TryAcquire(t: int) returns (ok: bool)
      requires Valid() && clock <= t
      modifies this
      ensures Valid() && clock == t
      ensures ok <==> WouldTake(old(hits), t, max, windowMs)
      ensures taken == if ok then old(taken) + [t] else old(taken)
      ensures !ok ==> |taken| >= max && forall i :: |taken| - max <= i < |taken| ==> t - windowMs < taken[i] <= t
    {
      HitsRising(hits, taken, clock, max, windowMs);
      RecentIsPruned(hits, t, windowMs);
      PruneKeeps(hits, taken, clock, max, windowMs, t);
      hits := Recent(hits, t, windowMs);
      clock := t;
      if |hits| >= max {
        RefusalJustified(hits, taken, max, windowMs, t);
        return false;
      }
      TakeKeeps(hits, taken, max, windowMs, t);
      hits := hits + [t];
      taken := taken + [t];
      return true;
    }
  }

  /** The bound either client keeps. */
  lemma WindowBound(hits: seq<int>, taken: seq<int>, clock: int, limit: nat, w: int, s: int)
    requires WindowOk(hits, taken, clock, limit, w)
    ensures |InSpan(taken, s, w)| <= limit
  {
    SpacedBound(taken, limit, w, s);
  }
}

module FixedWindows {
  import opened Collections
  import opened Spans

  /** One request: its time and the position of the first request of the key's life it fell into. */
  datatype Taken = Taken(at: int, first: nat, granted: bool)

  ghost predicate RequestOk(trace: seq<Taken>, i: nat, limit: int)
    requires i < |trace|
  {
    && trace[i].first <= i && trace[trace[i].first].first == trace[i].first
    && (trace[i].granted <==> i - trace[i].first + 1 <= limit)
  }

  /** Lives follow one another, and each begins a window or more after the one before. */
  ghost predicate PairOk(trace: seq<Taken>, i: nat, j: nat, w: int)
    requires i < j < |trace|
  {
    && trace[i].at <= trace[j].at && trace[i].first <= trace[j].first
    && (trace[i].first != trace[j].first ==>
          i < trace[j].first <= j && trace[i].first <= i && trace[trace[i].first].at + w <= trace[trace[j].first].at)
  }

  ghost predicate TraceOk(trace: seq<Taken>, limit: int, w: int) {
    && (forall i: nat :: i < |trace| ==> RequestOk(trace, i, limit))
    && (forall i: nat, j: nat :: i < j < |trace| ==> PairOk(trace, i, j, w))
  }

  /** Every life began a window or more ago. */
  ghost predicate Ended(trace: seq<Taken>, w: int, now: int) {
    forall i: nat :: i < |trace| ==> trace[i].first < |trace| && trace[trace[i].first].at + w <= now
  }

  ghost function GrantedIn(trace: seq<Taken>, first: nat): set<nat> {
    set i: nat | i < |trace| && trace[i].first == first && trace[i].granted
  }

  ghost function GrantedWithin(trace: seq<Taken>, s: int, w: int): set<nat> {
    set i: nat | i < |trace| && s <= trace[i].at < s + w && trace[i].granted
  }

  /** At most `limit` grants in one life of the key. */
  lemma PerLife(trace: seq<Taken>, limit: nat, w: int, first: nat)
    requires TraceOk(trace, limit, w)
    ensures |GrantedIn(trace, first)| <= limit
  {
    forall i | i in GrantedIn(trace, first)
      ensures first <= i < first + limit
    {
      assert RequestOk(trace, i, limit);
    }
    FewIn(GrantedIn(trace, first), first, limit);
  }

  /** A half-open span of one window meets at most two lives. */
  lemma TwoLives(trace: seq<Taken>, limit: int, w: int, s: int, i: nat, j: nat, k: nat)
    requires TraceOk(trace, limit, w) && i < j < k < |trace| && s <= trace[i].at && trace[k].at < s + w
    ensures trace[j].first == trace[i].first || trace[j].first == trace[k].first
  {
    TimesRise(trace, limit, w, i, trace[j].first);
    assert RequestOk(trace, j, limit) && RequestOk(trace, k, limit);
    TimesRise(trace, limit, w, trace[k].first, k);
    assert PairOk(trace, i, j, w) && PairOk(trace, j, k, w);
  }

  lemma TimesRise(trace: seq<Taken>, limit: int, w: int, i: nat, j: nat)
    requires TraceOk(trace, limit, w)
    ensures i <= j < |trace| ==> trace[i].at <= trace[j].at
  {
    if i < j < |trace| {
      assert PairOk(trace, i, j, w);
    }
  }

  /** At most twice the limit in any half-open span of one window. */
  lemma PerSpan(trace: seq<Taken>, limit: nat, w: int, s: int)
    requires TraceOk(trace, limit, w)
    ensures |GrantedWithin(trace, s, w)| <= 2 * limit
  {
    var xs := GrantedWithin(trace, s, w);
    if xs != {} {
      var lo := Least(xs);
      var hi := Greatest(xs);
      var a, b := GrantedIn(trace, trace[lo].first), GrantedIn(trace, trace[hi].first);
      forall j | j in xs
        ensures j in a + b
      {
        if lo < j < hi {
          TwoLives(trace, limit, w, s, lo, j, hi);
        }
      }
      PerLife(trace, limit, w, trace[lo].first);
      PerLife(trace, limit, w, trace[hi].first);
      SubsetSize(xs, a + b);
    }
  }

  lemma {:induction false} Greatest(xs: set<nat>) returns (hi: nat)
    requires xs != {}
    ensures hi in xs && forall i :: i in xs ==> i <= hi
    decreases |xs|
  {
    var x :| x in xs;
    hi := x;
    assert forall i :: i in xs ==> i == x || i in xs - {x};
    if xs - {x} != {} {
      var rest := Greatest(xs - {x});
      hi := if rest > x then rest else x;
    }
  }

  /** A refused request comes after `limit` grants in the same life. */
  lemma RefusalJustified(trace: seq<Taken>, limit: nat, w: int, i: nat)
    requires TraceOk(trace, limit, w) && i < |trace| && !trace[i].granted
    ensures |GrantedIn(trace[..i], trace[i].first)| == limit
  {
    var f := trace[i].first;
    var xs := GrantedIn(trace[..i], f);
    assert RequestOk(trace, i, limit);
    forall j: nat
      ensures j in xs <==> f <= j < f + limit
    {
      if j < i {
        assert RequestOk(trace, j, limit) && PairOk(trace, j, i, w);
        if f < j {
          assert PairOk(trace, f, j, w);
        }
      }
    }
    assert xs == Between(f, f + limit);
  }

  // ------------------------------------------------------------------
  // The Redis counter
  // ------------------------------------------------------------------

  datatype Key = NoKey | Counter(n: nat, ttl: bool, expireAt: int)

  /** The counter counts the requests of the current life, which lasts a window or more from its first request. */
  ghost predicate CounterOk(key: Key, trace: seq<Taken>, w: int, now: int) {
    match key
    case NoKey => Ended(trace, w, now)
    case Counter(n, ttl, expireAt) =>
      && 0 < n <= |trace| && trace[|trace| - 1].first == |trace| - n
      && (ttl ==> trace[|trace| - n].at + w <= expireAt)
  }

  /** What the key is at `now`: Redis drops an expired one. */
  function At(key: Key, now: int): Key {
    if key.Counter? && key.ttl && now >= key.expireAt then NoKey else key
  }

  /** INCR, and PEXPIRE on the first count or when the expiry is lost. */
  function Counted(key: Key, now: int, w: int): Key {
    match key
    case NoKey => Counter(1, true, now + w)
    case Counter(n, ttl, expireAt) => Counter(n + 1, true, if ttl then expireAt else now + w)
  }

  lemma ExpiryKeeps(key: Key, trace: seq<Taken>, limit: int, w: int, clock: int, now: int)
    requires TraceOk(trace, limit, w) && w >= 1 && CounterOk(key, trace, w, clock) && clock <= now
    ensures CounterOk(At(key, now), trace, w, now)
  {
    if At(key, now) != key {
      assert RequestOk(trace, |trace| - 1, limit);
      LivesEnd(trace, limit, w, now);
    }
  }

  ghost predicate TimesBy(trace: seq<Taken>, clock: int) {
    forall i :: 0 <= i < |trace| ==> trace[i].at <= clock
  }

  ghost function Recorded(trace: seq<Taken>, now: int, n: nat, limit: int): seq<Taken>
    requires n <= |trace| + 1
  {
    trace + [Taken(now, |trace| + 1 - n, n <= limit)]
  }

  lemma CountFits(key: Key, trace: seq<Taken>, w: int, now: int)
    requires CounterOk(key, trace, w, now)
    ensures 0 < Counted(key, now, w).n <= |trace| + 1
  {
  }

  lemma CountKeepsTrace(key: Key, trace: seq<Taken>, limit: int, w: int, now: int, n: nat)
    requires TraceOk(trace, limit, w) && w >= 1 && CounterOk(key, trace, w, now) && TimesBy(trace, now)
    requires n == Counted(key, now, w).n && 0 < n <= |trace| + 1
    ensures TraceOk(Recorded(trace, now, n, limit), limit, w)
  {
    TraceSnoc(trace, limit, w, now, n, key.NoKey?);
  }

  lemma CountKeepsCounter(key: Key, trace: seq<Taken>, limit: int, w: int, now: int, n: nat)
    requires CounterOk(key, trace, w, now) && TimesBy(trace, now)
    requires n == Counted(key, now, w).n && 0 < n <= |trace| + 1
    ensures CounterOk(Counted(key, now, w), Recorded(trace, now, n, limit), w, now)
    ensures TimesBy(Recorded(trace, now, n, limit), now)
  {
  }

  /** Everything that holds between requests. */
  ghost predicate StateOk(key: Key, trace: seq<Taken>, clock: int, limit: int, w: int) {
    w >= 1 && TraceOk(trace, limit, w) && CounterOk(key, trace, w, clock) && TimesBy(trace, clock)
  }

  /** One run of the script. */
  lemma ScriptKeeps(key: Key, trace: seq<Taken>, clock: int, limit: int, w: int, now: int, n: nat)
    requires StateOk(key, trace, clock, limit, w) && clock <= now && n == Counted(At(key, now), now, w).n
    ensures 0 < n <= |trace| + 1 && StateOk(Counted(At(key, now), now, w), Recorded(trace, now, n, limit), now, limit, w)
  {
    ExpiryKeeps(key, trace, limit, w, clock, now);
    CountFits(At(key, now), trace, w, now);
    CountKeepsTrace(At(key, now), trace, limit, w, now, n);
    CountKeepsCounter(At(key, now), trace, limit, w, now, n);
  }

  class RateLimiter {
    const limit: int
    const windowMs: int
    var key: Key
    ghost var trace: seq<Taken>
    ghost var clock: int

    ghost predicate Valid()
      reads this
    {
      StateOk(key, trace, clock, limit, windowMs)
    }

    /** A window below a millisecond counts as one. */
    constructor (limit: int, windowMs: int, ghost now: int)
      ensures Valid() && trace == [] && clock == now
      ensures this.limit == limit && this.windowMs == (if windowMs < 1 then 1 else windowMs)
    {
      this.limit := limit;
      this.windowMs := if windowMs < 1 then 1 else windowMs;
      key := NoKey;
      trace, clock := [], now;
    }

    /** The key loses its expiry (a PERSIST by hand). */
    method Persist()
      requires Valid()
      modifies this`key
      ensures Valid()
      ensures key == if old(key).Counter? then old(key).(ttl := false) else old(key)
    {
      if key.Counter? {
        key := key.(ttl := false);
      }
    }

    method FixedWindowScript(now: int) returns (n: nat)
      requires Valid() && clock <= now
      modifies this
      ensures Valid() && clock == now && key == Counted(At(old(key), now), now, windowMs) && n == key.n
      ensures 0 < n <= |old(trace)| + 1 && trace == Recorded(old(trace), now, n, limit)
    {
      var k := CountedKey(key, now, windowMs);
      n := k.n;
      ScriptKeeps(key, trace, clock, limit, windowMs, now, n);
      key := k;
      trace := Recorded(trace, now, n, limit);
      clock := now;
    }

    static method CountedKey(key: Key, now: int, windowMs: int) returns (k: Key)
      requires key.Counter? ==> key.n > 0
      ensures k == Counted(At(key, now), now, windowMs)
    {
      k := key;
      if k.Counter? && k.ttl && now >= k.expireAt {
        k := NoKey;
      }
      var n := if k.Counter? then k.n + 1 else 1;
      if n == 1 {
        k := Counter(n, true, now + windowMs);
      } else if !k.ttl {
        k := Counter(n, true, now + windowMs);
      } else {
        k := k.(n := n);
      }
    }

    /** allow: within a life the first `limit` requests pass and the rest are refused. */
    method Allow(now: int) returns (ok: bool)
      requires Valid() && clock <= now
      modifies this
      ensures Valid() && clock == now
      ensures |trace| == |old(trace)| + 1 && trace[..|old(trace)|] == old(trace)
      ensures trace[|trace| - 1].at == now && trace[|trace| - 1].granted == ok
    {
      var n := FixedWindowScript(now);
      ok := n <= limit;
    }
  }

  /** When the last life has lasted a window, so have all. */
  lemma LivesEnd(trace: seq<Taken>, limit: int, w: int, now: int)
    requires TraceOk(trace, limit, w) && w >= 1 && |trace| > 0 && RequestOk(trace, |trace| - 1, limit)
    requires trace[trace[|trace| - 1].first].at + w <= now
    ensures Ended(trace, w, now)
  {
    forall i: nat | i < |trace|
      ensures trace[i].first < |trace| && trace[trace[i].first].at + w <= now
    {
      assert RequestOk(trace, i, limit);
      if i < |trace| - 1 {
        assert PairOk(trace, i, |trace| - 1, w);
      }
    }
  }

  /** One more request: the first of a new life after all others have ended, or the next of the current one. */
  lemma TraceSnoc(trace: seq<Taken>, limit: int, w: int, now: int, n: nat, fresh_: bool)
    requires TraceOk(trace, limit, w) && w >= 1 && forall i :: 0 <= i < |trace| ==> trace[i].at <= now
    requires fresh_ ==> n == 1 && Ended(trace, w, now)
    requires !fresh_ ==> 1 < n <= |trace| + 1 && trace[|trace| - 1].first == |trace| + 1 - n
    ensures TraceOk(trace + [Taken(now, |trace| + 1 - n, n <= limit)], limit, w)
  {
    var m := |trace|;
    var all := trace + [Taken(now, m + 1 - n, n <= limit)];
    forall i: nat | i < |all|
      ensures RequestOk(all, i, limit)
    {
      if i < m {
        assert RequestOk(trace, i, limit);
      } else if !fresh_ {
        assert RequestOk(trace, m - 1, limit);
      }
    }
    forall i: nat, j: nat | i < j < |all|
      ensures PairOk(all, i, j, w)
    {
      assert RequestOk(trace, i, limit);
      if j < m {
        assert RequestOk(trace, j, limit) && PairOk(trace, i, j, w);
      } else if !fresh_ && i < m - 1 {
        assert RequestOk(trace, m - 1, limit) && PairOk(trace, i, m - 1, w);
      }
    }
  }
}
