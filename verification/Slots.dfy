/**
  Leased slots of backend/internal/hall/state.go: a sorted set of identities scored by the end of their lease,
  under a key that expires three leases after the last grant or renewal. Every operation runs at a time `now`
  of one clock that never goes back.
 */
module Slots {
  import opened Collections

  type Id = string

  /** One slot key: lease ends by member, and when the key itself expires. */
  datatype State = State(score: map<Id, int>, expireAt: int)

  datatype Op =
    | Acquire(id: Id)
    | Renew(id: Id)
    | Release(id: Id)
    | Members
    | Clear

  const EMPTY := State(map[], 0)

  /** What the key holds at `now`; an expired key is empty. */
  function At(s: State, now: int): map<Id, int> {
    if now >= s.expireAt then map[] else s.score
  }

  /** The members whose lease has not ended. */
  function Live(score: map<Id, int>, now: int): (live: map<Id, int>)
    ensures live.Keys <= score.Keys
  {
    map id | id in score && score[id] > now :: score[id]
  }

  ghost predicate Holds(s: State, now: int, id: Id) {
    id in s.score && s.score[id] > now
  }

  /** The effect of one operation with lease length `lease` and at most `max` members. */
  function Apply(s: State, op: Op, now: int, lease: int, max: int): State {
    match op
    case Acquire(id) =>
      var live := Live(At(s, now), now);
      if max > 0 && (id in live || |live| < max) then State(live[id := now + lease], now + 3 * lease)
      else State(live, s.expireAt)
    case Renew(id) =>
      var score := At(s, now);
      if score == map[] then State(map[], s.expireAt)
      else State(if id in score then score[id := now + lease] else score, now + 3 * lease)
    case Release(id) => State(At(s, now) - {id}, s.expireAt)
    case Members => State(Live(At(s, now), now), s.expireAt)
    case Clear => State(map[], s.expireAt)
  }

  /** At clock `clock`: no lease outlives its key by less than two leases, none was granted in the future. */
  ghost predicate Ok(s: State, clock: int, lease: int) {
    lease > 0 && s.expireAt <= clock + 3 * lease
    && forall id :: id in s.score ==> s.score[id] + 2 * lease <= s.expireAt
  }

  /** The key's own expiry never takes a lease that has not ended. */
  lemma KeyExpiryTakesNoLease(s: State, clock: int, lease: int, now: int)
    requires Ok(s, clock, lease)
    ensures Live(At(s, now), now) == Live(s.score, now)
    ensures forall id :: id in Live(At(s, now), now) <==> Holds(s, now, id)
  {
    if now >= s.expireAt {
      forall id | id in s.score
        ensures s.score[id] <= now
      {
      }
      assert Live(s.score, now) == map[];
    }
  }

  lemma ReleaseHolds(s: State, clock: int, lease: int, id: Id, now: int, max: int)
    requires Ok(s, clock, lease)
    ensures forall x :: Holds(Apply(s, Release(id), now, lease, max), now, x) <==> Holds(s, now, x) && x != id
  {
    KeyExpiryTakesNoLease(s, clock, lease, now);
    forall x
      ensures Holds(Apply(s, Release(id), now, lease, max), now, x) <==> Holds(s, now, x) && x != id
    {
      assert Holds(s, now, x) ==> x in Live(At(s, now), now);
    }
  }

  /** A grant changes nobody else's holding; releasing it again leaves the asker without a slot. */
  lemma AcquireHolds(s: State, clock: int, lease: int, id: Id, now: int, max: int)
    requires Ok(s, clock, lease)
    ensures forall x :: x != id ==> (Holds(Apply(s, Acquire(id), now, lease, max), now, x) <==> Holds(s, now, x))
    ensures max > 0 && Holds(s, now, id) ==> Holds(Apply(s, Acquire(id), now, lease, max), now, id)
  {
    KeyExpiryTakesNoLease(s, clock, lease, now);
    forall x | x != id
      ensures Holds(Apply(s, Acquire(id), now, lease, max), now, x) <==> Holds(s, now, x)
    {
      assert Holds(s, now, x) <==> x in Live(At(s, now), now);
    }
    assert Holds(s, now, id) <==> id in Live(At(s, now), now);
  }

  /** Renewing a held lease changes nobody's holding. */
  lemma RenewHolds(s: State, clock: int, lease: int, id: Id, now: int, max: int)
    requires Ok(s, clock, lease) && Holds(s, now, id)
    ensures forall x :: Holds(Apply(s, Renew(id), now, lease, max), now, x) <==> Holds(s, now, x)
  {
    KeyExpiryTakesNoLease(s, clock, lease, now);
    forall x
      ensures Holds(Apply(s, Renew(id), now, lease, max), now, x) <==> Holds(s, now, x)
    {
      assert Holds(s, now, x) ==> x in Live(At(s, now), now);
      assert id in Live(At(s, now), now);
    }
  }

  /**
    What a stretch of releases and renewals at `now` comes to: exactly the holdings of `freed` end, and no lease that is
    left has another end than before but those of `renewed`, which now last a whole term.
   */
  ghost predicate Rescored(s: State, s': State, freed: set<Id>, renewed: set<Id>, now: int, lease: int) {
    && (forall x :: Holds(s', now, x) <==> Holds(s, now, x) && x !in freed)
    && (forall x :: x in s'.score ==> x in s.score && s'.score[x] == if x in renewed then now + lease else s.score[x])
  }

  lemma RescoredTwice(s: State, s1: State, s2: State, freed: set<Id>, freed': set<Id>, renewed: set<Id>, renewed': set<Id>, now: int, lease: int)
    requires Rescored(s, s1, freed, renewed, now, lease) && Rescored(s1, s2, freed', renewed', now, lease)
    ensures Rescored(s, s2, freed + freed', renewed + renewed', now, lease)
  {
  }

  lemma RenewRescores(s: State, clock: int, lease: int, id: Id, now: int, max: int)
    requires Ok(s, clock, lease) && clock <= now && Holds(s, now, id)
    ensures Rescored(s, Apply(s, Renew(id), now, lease, max), {}, {id}, now, lease)
  {
    RenewHolds(s, clock, lease, id, now, max);
  }

  lemma ReleaseRescores(s: State, clock: int, lease: int, id: Id, now: int, max: int)
    requires Ok(s, clock, lease)
    ensures Rescored(s, Apply(s, Release(id), now, lease, max), {id}, {}, now, lease)
  {
    ReleaseHolds(s, clock, lease, id, now, max);
  }

  /** What every operation keeps and promises. */
  lemma StepKeeps(s: State, clock: int, op: Op, now: int, lease: int, max: int)
    requires Ok(s, clock, lease) && clock <= now
    ensures Ok(Apply(s, op, now, lease, max), now, lease)
    ensures |s.score| <= max ==> |Apply(s, op, now, lease, max).score| <= max
    ensures !op.Acquire? ==> Apply(s, op, now, lease, max).score.Keys <= s.score.Keys
  {
    var s' := Apply(s, op, now, lease, max);
    SubsetSize(Live(At(s, now), now).Keys, s.score.Keys);
    if !op.Acquire? {
      SubsetSize(s'.score.Keys, s.score.Keys);
    } else if s'.score != Live(At(s, now), now) {
      AddedKey(Live(At(s, now), now), op.id, now + lease);
    }
  }

  lemma AddedKey(m: map<Id, int>, id: Id, v: int)
    ensures |m[id := v]| == if id in m then |m| else |m| + 1
  {
    assert m[id := v].Keys == m.Keys + {id};
    assert |m[id := v].Keys| == |m.Keys + {id}|;
  }

  // ------------------------------------------------------------------
  // Whole runs
  // ------------------------------------------------------------------

  datatype Event = Event(op: Op, now: int)

  /** Times never go back. */
  ghost predicate Forward(clock: int, es: seq<Event>) {
    forall i :: 0 <= i < |es| ==> clock <= es[i].now && forall j :: i < j < |es| ==> es[i].now <= es[j].now
  }

  ghost function Run(s: State, es: seq<Event>, lease: int, max: int): State
    decreases |es|
  {
    if es == [] then s else Run(Apply(s, es[0].op, es[0].now, lease, max), es[1..], lease, max)
  }

  /**
    Under every interleaving of grants, renewals, releases, listings and clears, at every moment: the set never
    has more than `max` members, expired ones included, and no live lease is lost to the key's expiry.
   */
  lemma {:induction false} RunStaysBounded(s: State, clock: int, es: seq<Event>, lease: int, max: nat)
    requires Ok(s, clock, lease) && |s.score| <= max && Forward(clock, es)
    ensures var end := if es == [] then clock else es[|es| - 1].now;
            var s' := Run(s, es, lease, max);
            Ok(s', end, lease) && |s'.score| <= max && forall now :: Live(At(s', now), now) == Live(s'.score, now)
    decreases |es|
  {
    if es == [] {
      forall now
        ensures Live(At(s, now), now) == Live(s.score, now)
      {
        KeyExpiryTakesNoLease(s, clock, lease, now);
      }
    } else {
      StepKeeps(s, clock, es[0].op, es[0].now, lease, max);
      RunStaysBounded(Apply(s, es[0].op, es[0].now, lease, max), es[0].now, es[1..], lease, max);
    }
  }

  /** Nothing in `es` takes the slot away, and all of it happens before `until`. */
  ghost predicate LeftAlone(es: seq<Event>, id: Id, until: int) {
    forall i :: 0 <= i < |es| ==> es[i].op != Release(id) && es[i].op != Clear && es[i].now < until
  }

  lemma StepLeavesLease(s: State, clock: int, e: Event, lease: int, max: int, id: Id, until: int)
    requires Ok(s, clock, lease) && clock <= e.now < until <= clock + lease
    requires e.op != Release(id) && e.op != Clear && id in s.score && s.score[id] >= until
    ensures var s' := Apply(s, e.op, e.now, lease, max);
            id in s'.score && s'.score[id] >= until
  {
    KeyExpiryTakesNoLease(s, clock, lease, e.now);
    assert Holds(s, e.now, id);
  }

  /** Whatever others do, a lease that runs until `until` or longer still does after any run that leaves it alone. */
  lemma {:induction false} RunLeavesLease(s: State, clock: int, es: seq<Event>, lease: int, max: int, id: Id, until: int)
    requires Ok(s, clock, lease) && Forward(clock, es) && LeftAlone(es, id, until) && until <= clock + lease
    requires id in s.score && s.score[id] >= until
    ensures var s' := Run(s, es, lease, max);
            id in s'.score && s'.score[id] >= until
    decreases |es|
  {
    if es != [] {
      StepLeavesLease(s, clock, es[0], lease, max, id, until);
      StepKeeps(s, clock, es[0].op, es[0].now, lease, max);
      RunLeavesLease(Apply(s, es[0].op, es[0].now, lease, max), es[0].now, es[1..], lease, max, id, until);
    }
  }

  /**
    A lease granted or renewed lasts its whole term under every interleaving: it is held at any time `t` before its
    end, after whatever happened up to `t` but a release of it or a clear.
   */
  lemma LeaseLasts(s: State, clock: int, e: Event, es: seq<Event>, lease: int, max: int, id: Id, t: int)
    requires Ok(s, clock, lease) && clock <= e.now <= t < e.now + lease && max > 0
    requires e.op == Acquire(id) || e.op == Renew(id)
    requires Holds(Apply(s, e.op, e.now, lease, max), e.now, id)
    requires Forward(e.now, es) && LeftAlone(es, id, t + 1)
    ensures Holds(Run(Apply(s, e.op, e.now, lease, max), es, lease, max), t, id)
  {
    var s1 := Apply(s, e.op, e.now, lease, max);
    StepKeeps(s, clock, e.op, e.now, lease, max);
    assert s1.score[id] == e.now + lease;
    RunLeavesLease(s1, e.now, es, lease, max, id, t + 1);
  }

  // ------------------------------------------------------------------
  // The Redis scripts
  // ------------------------------------------------------------------

  class SlotSet {
    const lease: int
    var s: State
    ghost var clock: int

    ghost predicate Valid()
      reads this
    {
      Ok(s, clock, lease)
    }

    constructor (lease: int, now: int)
      requires lease > 0 && 0 <= now
      ensures Valid() && s == EMPTY && this.lease == lease && clock == now
    {
      this.lease := lease;
      s := EMPTY;
      clock := now;
    }

    /** ZREMRANGEBYSCORE up to now: ended leases go; so does everything once the key has expired. */
    method Sweep(now: int)
      requires Valid() && clock <= now
      modifies this`s, this`clock
      ensures Valid() && clock == now && s == Apply(old(s), Members, now, lease, 0)
    {
      StepKeeps(s, clock, Members, now, lease, 0);
      s := s.(score := Live(At(s, now), now));
      clock := now;
    }

    /**
      acquireSlot. `used` is the number of members after the call; a request is refused only when `max` other
      leases are live.
     */
    method AcquireSlot(id: Id, now: int, max: int) returns (ok: bool, newly: bool, used: nat)
      requires Valid() && clock <= now
      modifies this
      ensures Valid() && clock == now && s == Apply(old(s), Acquire(id), now, lease, max)
      ensures used == |s.score|
      ensures ok <==> Holds(s, now, id) && max > 0
      ensures newly <==> ok && !Holds(old(s), now, id)
      ensures !ok && max > 0 ==> !Holds(old(s), now, id) && |Live(old(s).score, now)| >= max
    {
      KeyExpiryTakesNoLease(s, clock, lease, now);
      StepKeeps(s, clock, Acquire(id), now, lease, max);
      ghost var held := Holds(s, now, id);
      Sweep(now);
      if max <= 0 {
        return false, false, |s.score|;
      }
      if id in s.score {
        AddedKey(s.score, id, now + lease);
        s := State(s.score[id := now + lease], now + 3 * lease);
        return true, false, |s.score|;
      }
      var n := |s.score|;
      if n >= max {
        return false, false, n;
      }
      AddedKey(s.score, id, now + lease);
      s := State(s.score[id := now + lease], now + 3 * lease);
      return true, true, n + 1;
    }

    method ReleaseSlot(id: Id, now: int) returns (released: bool)
      requires Valid() && clock <= now
      modifies this
      ensures Valid() && clock == now && s == Apply(old(s), Release(id), now, lease, 0)
      ensures released <==> id in At(old(s), now)
    {
      StepKeeps(s, clock, Release(id), now, lease, 0);
      released := id in At(s, now);
      s := s.(score := At(s, now) - {id});
      clock := now;
    }

    /** ZADD XX and PEXPIRE: only a member's lease is extended. */
    method RenewSlot(id: Id, now: int)
      requires Valid() && clock <= now
      modifies this
      ensures Valid() && clock == now && s == Apply(old(s), Renew(id), now, lease, 0)
    {
      StepKeeps(s, clock, Renew(id), now, lease, 0);
      var score := At(s, now);
      if id in score {
        score := score[id := now + lease];
      }
      s := State(score, if score == map[] then s.expireAt else now + 3 * lease);
      clock := now;
    }

    method SlotMembers(now: int) returns (ids: set<Id>)
      requires Valid() && clock <= now
      modifies this
      ensures Valid() && clock == now && s == Apply(old(s), Members, now, lease, 0)
      ensures forall id :: id in ids <==> Holds(old(s), now, id)
      ensures ids == s.score.Keys
    {
      KeyExpiryTakesNoLease(s, clock, lease, now);
      Sweep(now);
      ids := s.score.Keys;
    }

    /** ZSCORE against the clock. */
    method HoldsSlot(id: Id, now: int) returns (held: bool)
      requires Valid() && clock <= now
      ensures held == Holds(s, now, id)
    {
      KeyExpiryTakesNoLease(s, clock, lease, now);
      held := id in At(s, now) && At(s, now)[id] > now;
      assert held ==> id in Live(At(s, now), now);
      assert Holds(s, now, id) ==> id in Live(At(s, now), now);
    }

    method ClearSlots(now: int)
      requires Valid() && clock <= now
      modifies this
      ensures Valid() && clock == now && s == Apply(old(s), Clear, now, lease, 0)
    {
      StepKeeps(s, clock, Clear, now, lease, 0);
      s := s.(score := map[]);
      clock := now;
    }
  }
}
