/**
  The message store of widget/public/hall-core.js: ordered by time, unique by id, bounded, with tombstones
  for deleted messages.

  Streaming insertion with eviction is proved to refine the batch form: the last `limit` messages of the
  stable sort by time of everything inserted.
 */
module Messages {
  import opened Collections
  import StableSorting

  type Id = string

  /** A message; `seenAt` and `local` are set on this side only, `props` holds everything else. */
  datatype Msg = Msg(id: Id, ts: int, seenAt: Option<int>, local: Option<string>, props: map<string, string>)

  predicate ValidId(id: Id) {
    1 <= |id| <= 64 && forall i :: 0 <= i < |id| ==>
      'A' <= id[i] <= 'Z' || 'a' <= id[i] <= 'z' || '0' <= id[i] <= '9' || id[i] == '_' || id[i] == '-'
  }

  /** Object.assign({}, old, msg): fields of `msg` win. */
  function Merge(was: Msg, msg: Msg): Msg {
    Msg(msg.id, msg.ts, if msg.seenAt.Some? then msg.seenAt else was.seenAt,
        if msg.local.Some? then msg.local else was.local, was.props + msg.props)
  }

  /**
    `m` is what `was` becomes under `msg`: every field given by `msg` has its new value, every other field the old one,
    and there are no further fields.
   */
  ghost predicate Overwritten(m: Msg, was: Msg, msg: Msg) {
    && m.id == msg.id && m.ts == msg.ts
    && (forall k :: k in m.props <==> k in was.props || k in msg.props)
    && (forall k :: k in msg.props ==> m.props[k] == msg.props[k])
    && (forall k :: k in was.props && k !in msg.props ==> m.props[k] == was.props[k])
    && m.local == (if msg.local.Some? then msg.local else was.local)
    && m.seenAt == (if msg.seenAt.Some? then msg.seenAt else was.seenAt)
  }

  lemma MergeOverwrites(was: Msg, msg: Msg)
    ensures Overwritten(Merge(was, msg), was, msg)
  {
  }

  /** Well-formed ids, by their alphabet. */
  lemma ValidIdExactly(id: Id)
    ensures ValidId(id) <==>
            && 1 <= |id| <= 64
            && forall i :: 0 <= i < |id| ==> id[i] in "ABCDEFGHIJKLMNOPQRSTUVWXYZ" || id[i] in "abcdefghijklmnopqrstuvwxyz" || id[i] in "0123456789_-"
  {
    assert forall c: char :: c in "ABCDEFGHIJKLMNOPQRSTUVWXYZ" <==> 'A' <= c <= 'Z';
    assert forall c: char :: c in "abcdefghijklmnopqrstuvwxyz" <==> 'a' <= c <= 'z';
    assert forall c: char :: c in "0123456789_-" <==> '0' <= c <= '9' || c == '_' || c == '-';
  }

  ghost predicate Sorted(ms: seq<Msg>) {
    forall i, j :: 0 <= i < j < |ms| ==> ms[i].ts <= ms[j].ts
  }

  ghost predicate UniqueIds(ms: seq<Msg>) {
    forall i, j :: 0 <= i < j < |ms| ==> ms[i].id != ms[j].id
  }

  ghost predicate HasId(ms: seq<Msg>, id: Id) {
    exists i :: 0 <= i < |ms| && ms[i].id == id
  }

  /** Where a message of time `ts` goes: after the last one that is not newer. */
  ghost function IndexFor(ms: seq<Msg>, ts: int): (i: nat)
    ensures i <= |ms|
    ensures i > 0 ==> ms[i - 1].ts <= ts
    ensures forall k :: i <= k < |ms| ==> ms[k].ts > ts
  {
    if ms == [] || ms[|ms| - 1].ts <= ts then |ms| else IndexFor(ms[..|ms| - 1], ts)
  }

  ghost function InsertAt(ms: seq<Msg>, i: nat, m: Msg): (r: seq<Msg>)
    requires i <= |ms|
    ensures |r| == |ms| + 1
  {
    ms[..i] + [m] + ms[i..]
  }

  ghost function RemoveAt(ms: seq<Msg>, i: nat): (r: seq<Msg>)
    requires i < |ms|
    ensures |r| == |ms| - 1
  {
    ms[..i] + ms[i + 1..]
  }

  ghost function InsertByTs(ms: seq<Msg>, m: Msg): (r: seq<Msg>)
    ensures |r| == |ms| + 1
  {
    InsertAt(ms, IndexFor(ms, m.ts), m)
  }

  lemma InsertedAt(ms: seq<Msg>, i: nat, m: Msg)
    requires i <= |ms|
    ensures forall k :: 0 <= k <= |ms| ==> InsertAt(ms, i, m)[k] == if k < i then ms[k] else if k == i then m else ms[k - 1]
    ensures multiset(InsertAt(ms, i, m)) == multiset(ms) + multiset{m}
  {
    var r := InsertAt(ms, i, m);
    assert ms == ms[..i] + ms[i..];
    forall k | 0 <= k <= |ms|
      ensures r[k] == if k < i then ms[k] else if k == i then m else ms[k - 1]
    {
    }
  }

  lemma InsertKeepsOrder(ms: seq<Msg>, m: Msg)
    requires Sorted(ms)
    ensures Sorted(InsertByTs(ms, m))
  {
    var at, r := IndexFor(ms, m.ts), InsertByTs(ms, m);
    InsertedAt(ms, at, m);
    forall i, j | 0 <= i < j < |r|
      ensures r[i].ts <= r[j].ts
    {
      assert r[i] == if i < at then ms[i] else if i == at then m else ms[i - 1];
      assert r[j] == if j < at then ms[j] else if j == at then m else ms[j - 1];
    }
  }

  /** The slot is determined by its two sides. */
  lemma OneSlot(ms: seq<Msg>, ts: int, i: nat)
    requires i <= |ms| && (i > 0 ==> ms[i - 1].ts <= ts) && forall k :: i <= k < |ms| ==> ms[k].ts > ts
    ensures IndexFor(ms, ts) == i
  {
  }

  lemma InsertKeepsIds(ms: seq<Msg>, i: nat, m: Msg)
    requires UniqueIds(ms) && i <= |ms| && !HasId(ms, m.id)
    ensures UniqueIds(InsertAt(ms, i, m))
    ensures forall id :: HasId(InsertAt(ms, i, m), id) <==> HasId(ms, id) || id == m.id
  {
    var r := InsertAt(ms, i, m);
    InsertedAt(ms, i, m);
    forall id
      ensures HasId(r, id) <==> HasId(ms, id) || id == m.id
    {
      if HasId(ms, id) {
        var k :| 0 <= k < |ms| && ms[k].id == id;
        assert r[if k < i then k else k + 1].id == id;
      }
      assert r[i].id == m.id;
    }
  }

  lemma RemovedAt(ms: seq<Msg>, i: nat, r: seq<Msg>)
    requires i < |ms| && r == RemoveAt(ms, i)
    ensures forall k :: 0 <= k < |r| ==> r[k] == if k < i then ms[k] else ms[k + 1]
  {
  }

  lemma RemoveKeepsIds(ms: seq<Msg>, i: nat)
    requires i < |ms| && UniqueIds(ms)
    ensures UniqueIds(RemoveAt(ms, i))
    ensures forall id :: HasId(RemoveAt(ms, i), id) <==> HasId(ms, id) && id != ms[i].id
  {
    var r := RemoveAt(ms, i);
    RemovedAt(ms, i, r);
    forall j, k | 0 <= j < k < |r|
      ensures r[j].id != r[k].id
    {
      assert r[j] == ms[if j < i then j else j + 1] && r[k] == ms[if k < i then k else k + 1];
    }
    forall id
      ensures HasId(r, id) <==> HasId(ms, id) && id != ms[i].id
    {
      if HasId(ms, id) && id != ms[i].id {
        var k :| 0 <= k < |ms| && ms[k].id == id;
        assert r[if k < i then k else k - 1].id == id;
      }
    }
  }

  lemma RemoveKeepsOrder(ms: seq<Msg>, i: nat)
    requires i < |ms|
    ensures Sorted(ms) ==> Sorted(RemoveAt(ms, i))
    ensures UniqueIds(ms) ==> UniqueIds(RemoveAt(ms, i))
    ensures UniqueIds(ms) ==> forall id :: HasId(RemoveAt(ms, i), id) <==> HasId(ms, id) && id != ms[i].id
  {
    RemovedAt(ms, i, RemoveAt(ms, i));
    if UniqueIds(ms) {
      RemoveKeepsIds(ms, i);
    }
  }

  /** Sorted by time, no id twice, `byId` is the index of `ms`. */
  ghost predicate Indexed(ms: seq<Msg>, byId: map<Id, Msg>) {
    && Sorted(ms) && UniqueIds(ms)
    && (forall id :: id in byId <==> HasId(ms, id))
    && Lookup(ms, byId)
  }

  ghost predicate Lookup(ms: seq<Msg>, byId: map<Id, Msg>) {
    forall i :: 0 <= i < |ms| ==> ms[i].id in byId && byId[ms[i].id] == ms[i]
  }

  lemma LookupInsert(ms: seq<Msg>, byId: map<Id, Msg>, i: nat, m: Msg)
    requires Lookup(ms, byId) && m.id !in byId && i <= |ms|
    ensures Lookup(InsertAt(ms, i, m), byId[m.id := m])
  {
    InsertedAt(ms, i, m);
  }

  lemma IndexInsert(ms: seq<Msg>, byId: map<Id, Msg>, m: Msg)
    requires Indexed(ms, byId) && m.id !in byId
    ensures Indexed(InsertByTs(ms, m), byId[m.id := m])
  {
    InsertKeepsOrder(ms, m);
    InsertKeepsIds(ms, IndexFor(ms, m.ts), m);
    LookupInsert(ms, byId, IndexFor(ms, m.ts), m);
  }

  lemma LookupRemove(ms: seq<Msg>, byId: map<Id, Msg>, i: nat)
    requires Lookup(ms, byId) && UniqueIds(ms) && i < |ms|
    ensures Lookup(RemoveAt(ms, i), byId - {ms[i].id})
  {
    var r := RemoveAt(ms, i);
    forall k | 0 <= k < |r|
      ensures r[k].id in byId - {ms[i].id} && (byId - {ms[i].id})[r[k].id] == r[k]
    {
      assert r[k] == ms[if k < i then k else k + 1];
    }
  }

  lemma IndexRemove(ms: seq<Msg>, byId: map<Id, Msg>, i: nat)
    requires Indexed(ms, byId) && i < |ms|
    ensures Indexed(RemoveAt(ms, i), byId - {ms[i].id})
    ensures forall id :: HasId(RemoveAt(ms, i), id) <==> HasId(ms, id) && id != ms[i].id
  {
    RemoveKeepsOrder(ms, i);
    LookupRemove(ms, byId, i);
  }

  /** Ids are well formed and not among the deleted. */
  ghost predicate Undeleted(ms: seq<Msg>, deleted: set<Id>) {
    forall id :: HasId(ms, id) ==> ValidId(id) && id !in deleted
  }

  lemma RemoveUndeleted(ms: seq<Msg>, i: nat, deleted: set<Id>, deleted': set<Id>)
    requires UniqueIds(ms) && i < |ms| && Undeleted(ms, deleted) && deleted' <= deleted + {ms[i].id}
    ensures Undeleted(RemoveAt(ms, i), deleted') && !HasId(RemoveAt(ms, i), ms[i].id)
  {
    RemoveKeepsOrder(ms, i);
  }

  /** The deletions remembered, each once. */
  ghost predicate Remembered(order: seq<Id>, deleted: set<Id>) {
    && (forall id :: id in deleted <==> id in order)
    && (forall i, j :: 0 <= i < j < |order| ==> order[i] != order[j])
  }

  lemma RememberOne(order: seq<Id>, deleted: set<Id>, id: Id)
    requires Remembered(order, deleted) && id !in deleted
    ensures Remembered(order + [id], deleted + {id})
  {
  }

  lemma ForgetOldest(order: seq<Id>, deleted: set<Id>)
    requires Remembered(order, deleted) && order != []
    ensures Remembered(order[1..], deleted - {order[0]})
  {
    assert order == [order[0]] + order[1..];
  }

  // ------------------------------------------------------------------
  // Batch form: stable sort, keep the last ones
  // ------------------------------------------------------------------

  function TsOf(m: Msg): int {
    m.ts
  }

  ghost function SortByTs(ms: seq<Msg>): (r: seq<Msg>)
    ensures |r| == |ms|
  {
    StableSorting.Sorted(ms, TsOf)
  }

  /** Inserting at the slot the store finds is the insertion of the stable sort. */
  lemma {:induction false} InsertByTsIsStable(ms: seq<Msg>, m: Msg)
    ensures InsertByTs(ms, m) == StableSorting.Insert(ms, m, TsOf)
  {
    if ms != [] && ms[|ms| - 1].ts > m.ts {
      var n := |ms| - 1;
      var i := IndexFor(ms, m.ts);
      InsertByTsIsStable(ms[..n], m);
      assert ms[i..] == ms[..n][i..] + [ms[n]] && ms[..i] == ms[..n][..i];
      assert InsertAt(ms, i, m) == InsertAt(ms[..n], i, m) + [ms[n]];
    }
  }

  /** The batch form orders by time, permutes, and keeps each time's messages in arrival order. */
  lemma SortIsStable(ms: seq<Msg>)
    ensures Sorted(SortByTs(ms)) && multiset(SortByTs(ms)) == multiset(ms)
    ensures forall t :: StableSorting.AtTime(SortByTs(ms), TsOf, t) == StableSorting.AtTime(ms, TsOf, t)
  {
    StableSorting.SortedIsStable(ms, TsOf);
    InTimeOrder(SortByTs(ms));
  }

  lemma InTimeOrder(ms: seq<Msg>)
    requires StableSorting.Ordered(ms, TsOf)
    ensures Sorted(ms)
  {
    forall i, j | 0 <= i < j < |ms|
      ensures ms[i].ts <= ms[j].ts
    {
      assert TsOf(ms[i]) <= TsOf(ms[j]);
    }
  }

  /** The last `limit` messages. */
  ghost function Newest(ms: seq<Msg>, limit: nat): seq<Msg> {
    if |ms| <= limit then ms else ms[|ms| - limit..]
  }

  /** Insert, then drop the oldest while over the limit. */
  ghost function InsertEvict(ms: seq<Msg>, m: Msg, limit: nat): seq<Msg> {
    Newest(InsertByTs(ms, m), limit)
  }

  lemma InsertRight(ms: seq<Msg>, cut: nat, i: nat, m: Msg)
    requires cut <= i <= |ms|
    ensures InsertAt(ms, i, m)[cut + 1..] == InsertAt(ms[cut..], i - cut, m)[1..]
  {
    assert ms[..i][cut..] == ms[cut..][..i - cut];
    assert InsertAt(ms, i, m)[cut..] == InsertAt(ms[cut..], i - cut, m);
  }

  lemma InsertLeft(ms: seq<Msg>, cut: nat, i: nat, m: Msg)
    requires i <= cut <= |ms|
    ensures InsertAt(ms, i, m)[cut + 1..] == ms[cut..]
  {
  }

  lemma NewestOfOneMore(ms: seq<Msg>, limit: nat)
    requires |ms| == limit + 1
    ensures Newest(ms, limit) == ms[1..]
  {
  }

  lemma NewerSlot(ms: seq<Msg>, cut: nat, m: Msg)
    requires cut <= IndexFor(ms, m.ts)
    ensures InsertByTs(ms, m)[cut + 1..] == InsertByTs(ms[cut..], m)[1..]
  {
    var i := IndexFor(ms, m.ts);
    OneSlot(ms[cut..], m.ts, i - cut);
    InsertRight(ms, cut, i, m);
  }

  lemma OlderSlot(ms: seq<Msg>, cut: nat, m: Msg)
    requires IndexFor(ms, m.ts) < cut <= |ms|
    ensures InsertByTs(ms, m)[cut + 1..] == InsertByTs(ms[cut..], m)[1..]
  {
    OneSlot(ms[cut..], m.ts, 0);
    InsertLeft(ms, cut, IndexFor(ms, m.ts), m);
    InsertLeft(ms[cut..], 0, 0, m);
  }

  /** Evicting before an insertion loses nothing that the batch form would keep. */
  lemma EvictionCommutes(ms: seq<Msg>, m: Msg, limit: nat)
    ensures InsertEvict(Newest(ms, limit), m, limit) == Newest(InsertByTs(ms, m), limit)
  {
    if |ms| > limit {
      var cut := |ms| - limit;
      NewestOfOneMore(InsertByTs(ms[cut..], m), limit);
      if cut <= IndexFor(ms, m.ts) {
        NewerSlot(ms, cut, m);
      } else {
        OlderSlot(ms, cut, m);
      }
      assert Newest(InsertByTs(ms, m), limit) == InsertByTs(ms, m)[cut + 1..];
    }
  }

  /** The batch form of one more message. */
  lemma NextKept(ms: seq<Msg>, k: nat, limit: nat)
    requires k < |ms|
    ensures InsertEvict(Newest(SortByTs(ms[..k]), limit), ms[k], limit) == Newest(SortByTs(ms[..k + 1]), limit)
  {
    assert ms[..k + 1][..k] == ms[..k];
    InsertByTsIsStable(SortByTs(ms[..k]), ms[k]);
    EvictionCommutes(SortByTs(ms[..k]), ms[k], limit);
  }

  lemma NewId(ms: seq<Msg>, k: nat, limit: nat)
    requires UniqueIds(ms) && k < |ms|
    ensures !HasId(Newest(SortByTs(ms[..k]), limit), ms[k].id)
  {
    if HasId(Newest(SortByTs(ms[..k]), limit), ms[k].id) {
      KeptWasGiven(ms[..k], limit, ms[k].id);
    }
  }

  /** What is kept was inserted. */
  lemma KeptWasGiven(ms: seq<Msg>, limit: nat, id: Id)
    requires HasId(Newest(SortByTs(ms), limit), id)
    ensures HasId(ms, id)
  {
    var sorted := SortByTs(ms);
    SortIsStable(ms);
    var kept := Newest(sorted, limit);
    var i :| 0 <= i < |kept| && kept[i].id == id;
    assert kept[i] in sorted;
    assert kept[i] in multiset(sorted);
    assert kept[i] in ms;
  }
}

module MessageStores {
  import opened Collections
  import opened Messages

  const KEEP_LIMIT: nat := 200
  const TOMBSTONE_MAX: nat := 500

  datatype Upserted =
    | Ignore(evicted: seq<Id>)
    | Insert(index: nat, msg: Msg, evicted: seq<Id>)
    | Update(index: nat, msg: Msg, moved: bool)

  /** What upsert must do with a new message of a good id. */
  ghost predicate Inserted(limit: nat, before: seq<Msg>, after: seq<Msg>, msg: Msg, r: Upserted) {
    var i, all := IndexFor(before, msg.ts), InsertByTs(before, msg);
    && after == InsertEvict(before, msg, limit)
    && if |all| <= limit then r == Insert(i, msg, [])
       else if i == 0 then r == Ignore([])
       else r == Insert(i - 1, msg, [all[0].id])
  }

  /** What upsert must do with a message stored at `o`: its fields are overwritten, and it moves to its new time. */
  ghost predicate Updated(before: seq<Msg>, o: nat, after: seq<Msg>, msg: Msg, r: Upserted)
    requires o < |before|
  {
    var rest := RemoveAt(before, o);
    var i := IndexFor(rest, msg.ts);
    r.Update? && Overwritten(r.msg, before[o], msg) && after == InsertAt(rest, i, r.msg) && r == Update(i, r.msg, i != o)
  }

  lemma UpdateOutcome(before: seq<Msg>, o: nat, rest: seq<Msg>, after: seq<Msg>, msg: Msg, merged: Msg, i: nat, r: Upserted)
    requires o < |before| && rest == RemoveAt(before, o) && merged == Merge(before[o], msg)
    requires i == IndexFor(rest, merged.ts) && after == InsertByTs(rest, merged) && r == Update(i, merged, i != o)
    ensures Updated(before, o, after, msg, r)
  {
    MergeOverwrites(before[o], msg);
  }

  lemma InsertOutcome(limit: nat, before: seq<Msg>, after: seq<Msg>, msg: Msg, all: seq<Msg>, at: nat, evicted: seq<Id>, r: Upserted)
    requires at == IndexFor(before, msg.ts) && all == InsertByTs(before, msg) && after == Newest(all, limit)
    requires evicted == if |all| <= limit then [] else [all[0].id]
    requires r == if at < |evicted| then Ignore([]) else Insert(at - |evicted|, msg, evicted)
    ensures Inserted(limit, before, after, msg, r)
  {
  }

  /** `m` has of everything said about `id` in `ms` what was said last. */
  ghost predicate Told(ms: seq<Msg>, id: Id, m: Msg) {
    && m.id == id
    && (forall key :: key in m.props <==> Says(ms, id, key))
    && (forall i, key :: LastSays(ms, id, key, i) ==> key in m.props && m.props[key] == ms[i].props[key])
    && (forall i :: Last(ms, id, i) ==> m.ts == ms[i].ts)
    && (m.local.Some? ==> exists i :: 0 <= i < |ms| && ms[i].id == id && ms[i].local == m.local)
    && (forall i :: Last(ms, id, i) && ms[i].local.Some? ==> m.local == ms[i].local)
  }

  ghost predicate Says(ms: seq<Msg>, id: Id, key: string) {
    exists i :: 0 <= i < |ms| && ms[i].id == id && key in ms[i].props
  }

  ghost predicate LastSays(ms: seq<Msg>, id: Id, key: string, i: int) {
    && 0 <= i < |ms| && ms[i].id == id && key in ms[i].props
    && forall j :: i < j < |ms| && ms[j].id == id ==> key !in ms[j].props
  }

  ghost predicate Last(ms: seq<Msg>, id: Id, i: int) {
    0 <= i < |ms| && ms[i].id == id && forall j :: i < j < |ms| ==> ms[j].id != id
  }

  ghost predicate AllTold(ms: seq<Msg>, byId: map<Id, Msg>) {
    && (forall id :: id in byId <==> HasId(ms, id))
    && (forall id :: id in byId ==> Told(ms, id, byId[id]))
  }

  lemma SaysSnoc(ms: seq<Msg>, msg: Msg, id: Id, key: string)
    ensures Says(ms + [msg], id, key) <==> Says(ms, id, key) || (msg.id == id && key in msg.props)
  {
    var all := ms + [msg];
    if Says(ms, id, key) {
      var i :| 0 <= i < |ms| && ms[i].id == id && key in ms[i].props;
      assert all[i].id == id && key in all[i].props;
    }
    if msg.id == id && key in msg.props {
      assert all[|ms|].id == id && key in all[|ms|].props;
    }
  }

  lemma HasIdSnoc(ms: seq<Msg>, m: Msg)
    ensures forall id :: HasId(ms + [m], id) <==> HasId(ms, id) || id == m.id
  {
    forall id
      ensures HasId(ms + [m], id) <==> HasId(ms, id) || id == m.id
    {
      if HasId(ms, id) {
        var i :| 0 <= i < |ms| && ms[i].id == id;
        assert (ms + [m])[i].id == id;
      }
      assert (ms + [m])[|ms|] == m;
    }
  }

  /** What is told of other ids stays. */
  lemma OtherTold(ms: seq<Msg>, msg: Msg, id: Id, m: Msg)
    requires Told(ms, id, m) && msg.id != id
    ensures Told(ms + [msg], id, m)
  {
    var all := ms + [msg];
    forall key
      ensures key in m.props <==> Says(all, id, key)
    {
      SaysSnoc(ms, msg, id, key);
    }
    forall i, key | LastSays(all, id, key, i)
      ensures key in m.props && m.props[key] == all[i].props[key]
    {
      assert all[i] == ms[i] && forall j :: i < j < |ms| ==> ms[j] == all[j];
      assert LastSays(ms, id, key, i);
    }
    forall i | Last(all, id, i)
      ensures m.ts == all[i].ts && (all[i].local.Some? ==> m.local == all[i].local)
    {
      assert all[i] == ms[i] && forall j :: i < j < |ms| ==> ms[j] == all[j];
      assert Last(ms, id, i);
    }
    if m.local.Some? {
      var i :| 0 <= i < |ms| && ms[i].id == id && ms[i].local == m.local;
      assert all[i] == ms[i];
    }
  }

  /** A first or a further message about an id. */
  lemma ToldNext(ms: seq<Msg>, msg: Msg, m: Msg, was: Msg)
    requires if HasId(ms, msg.id) then Told(ms, msg.id, was) && Overwritten(m, was, msg) else m == msg
    ensures Told(ms + [msg], msg.id, m)
  {
    var all, id, n := ms + [msg], msg.id, |ms|;
    forall key
      ensures key in m.props <==> Says(all, id, key)
    {
      SaysSnoc(ms, msg, id, key);
    }
    forall i, key | LastSays(all, id, key, i)
      ensures key in m.props && m.props[key] == all[i].props[key]
    {
      if i < n {
        assert all[n] == msg && all[i] == ms[i] && forall j :: i < j < n ==> ms[j] == all[j];
        assert LastSays(ms, id, key, i);
        assert HasId(ms, id);
      }
    }
    forall i | Last(all, id, i)
      ensures i == n
    {
      assert all[n].id == id;
    }
    LocalTold(ms, msg, m, was);
  }

  lemma LocalTold(ms: seq<Msg>, msg: Msg, m: Msg, was: Msg)
    requires if HasId(ms, msg.id) then Told(ms, msg.id, was) && Overwritten(m, was, msg) else m == msg
    ensures m.local.Some? ==> exists i :: 0 <= i < |ms + [msg]| && (ms + [msg])[i].id == msg.id && (ms + [msg])[i].local == m.local
  {
    var all := ms + [msg];
    if m.local.Some? {
      if msg.local.Some? || !HasId(ms, msg.id) {
        assert all[|ms|] == msg && m.local == msg.local;
      } else {
        var i :| 0 <= i < |ms| && ms[i].id == msg.id && ms[i].local == was.local;
        assert all[i] == ms[i];
      }
    }
  }

  lemma ToldSnoc(ms: seq<Msg>, byId: map<Id, Msg>, msg: Msg, m: Msg)
    requires AllTold(ms, byId)
    requires if msg.id in byId then Overwritten(m, byId[msg.id], msg) else m == msg
    ensures AllTold(ms + [msg], byId[msg.id := m])
  {
    HasIdSnoc(ms, msg);
    ToldNext(ms, msg, m, if msg.id in byId then byId[msg.id] else msg);
    forall id | id in byId && id != msg.id
      ensures Told(ms + [msg], id, byId[id])
    {
      OtherTold(ms, msg, id, byId[id]);
    }
  }

  lemma NothingTold(byId: map<Id, Msg>)
    requires forall id :: id !in byId
    ensures AllTold([], byId)
  {
  }

  lemma PutBack(byId: map<Id, Msg>, m: Msg)
    ensures (byId - {m.id})[m.id := m] == byId[m.id := m]
  {
  }

  class MessageStore {
    const limit: nat
    var items: seq<Msg>
    var byId: map<Id, Msg>
    var tombstones: set<Id>
    var tombOrder: seq<Id>

    ghost predicate Valid()
      reads this
    {
      && 0 < limit && |items| <= limit && |tombOrder| <= TOMBSTONE_MAX
      && Indexed(items, byId) && Undeleted(items, tombstones) && Remembered(tombOrder, tombstones)
    }

    constructor (limit: int)
      ensures Valid() && items == [] && tombOrder == []
      ensures this.limit == if limit > 0 then limit else 200
    {
      this.limit := if limit > 0 then limit else KEEP_LIMIT;
      items, byId, tombstones, tombOrder := [], map[], {}, [];
    }

    /** Found from the end: most messages are the newest. */
    method FindIndexFor(ts: int) returns (i: nat)
      ensures i == IndexFor(items, ts)
    {
      i := |items|;
      assert items[..i] == items;
      while i > 0 && items[i - 1].ts > ts
        invariant i <= |items| && IndexFor(items[..i], ts) == IndexFor(items, ts)
      {
        assert items[..i][..i - 1] == items[..i - 1];
        i := i - 1;
      }
    }

    method IndexOf(id: Id) returns (i: int)
      ensures i == -1 ==> !HasId(items, id)
      ensures i != -1 ==> 0 <= i < |items| && items[i].id == id
    {
      i := |items| - 1;
      while i >= 0
        invariant -1 <= i < |items| && forall k :: i < k < |items| ==> items[k].id != id
      {
        if items[i].id == id {
          return;
        }
        i := i - 1;
      }
      i := -1;
    }

    /** The position of a stored message; there is one. */
    ghost function Position(id: Id): (i: nat)
      requires Indexed(items, byId) && id in byId
      reads this
      ensures i < |items| && items[i].id == id
      ensures forall k :: 0 <= k < |items| && items[k].id == id ==> k == i
    {
      assert HasId(items, id);
      var i :| 0 <= i < |items| && items[i].id == id;
      i
    }

    method Upsert(msg: Msg) returns (r: Upserted)
      requires Valid()
      modifies this
      ensures Valid()
      ensures tombstones == old(tombstones) && tombOrder == old(tombOrder)
      ensures !ValidId(msg.id) || msg.id in old(tombstones) ==> r == Ignore([]) && items == old(items)
      ensures ValidId(msg.id) && msg.id !in old(tombstones) && msg.id in old(byId) ==>
                Updated(old(items), old(Position(msg.id)), items, msg, r)
      ensures ValidId(msg.id) && msg.id !in old(tombstones) && msg.id !in old(byId) ==>
                Inserted(limit, old(items), items, msg, r)
      ensures r.Update? || (r.Insert? && r.evicted == []) ==> byId == old(byId)[msg.id := r.msg]
    {
      if !ValidId(msg.id) || msg.id in tombstones {
        return Ignore([]);
      }
      if msg.id in byId {
        r := UpdateStored(msg);
      } else {
        r := InsertNew(msg);
      }
    }

    /** A stored id: out, merged, and back in by its time. */
    method UpdateStored(msg: Msg) returns (r: Upserted)
      requires Valid() && ValidId(msg.id) && msg.id !in tombstones && msg.id in byId
      modifies this`items, this`byId
      ensures Valid() && Updated(old(items), old(Position(msg.id)), items, msg, r) && byId == old(byId)[msg.id := r.msg]
    {
      ghost var before := items;
      var oldIndex := IndexOf(msg.id);
      var merged := Merge(byId[msg.id], msg);
      var ni := Move(merged, oldIndex);
      r := Update(ni, merged, ni != oldIndex);
      UpdateOutcome(before, oldIndex, RemoveAt(before, oldIndex), items, msg, merged, ni, r);
    }

    /** The message stored at `o` goes out and comes back, merged, by its time. */
    method Move(merged: Msg, ghost o: nat) returns (i: nat)
      requires Valid() && ValidId(merged.id) && merged.id !in tombstones && o < |items| && items[o].id == merged.id
      modifies this`items, this`byId
      ensures Valid()
      ensures i == IndexFor(RemoveAt(old(items), o), merged.ts) && items == InsertByTs(RemoveAt(old(items), o), merged)
      ensures byId == old(byId)[merged.id := merged]
    {
      RemoveUndeleted(items, o, tombstones, tombstones);
      PutBack(byId, merged);
      TakeOut(merged.id, o);
      i := PutIn(merged);
    }

    /** A new id: in by its time, then the oldest out while over the limit. */
    method InsertNew(msg: Msg) returns (r: Upserted)
      requires Valid() && ValidId(msg.id) && msg.id !in tombstones && msg.id !in byId
      modifies this`items, this`byId
      ensures Valid() && Inserted(limit, old(items), items, msg, r)
      ensures r.Insert? && r.evicted == [] ==> byId == old(byId)[msg.id := r.msg]
    {
      ghost var before, all := items, InsertByTs(items, msg);
      var at := PutIn(msg);
      assert items == all && |items| <= limit + 1;
      var evicted := EvictOverLimit();
      assert items == Newest(all, limit);
      var index := at - |evicted|;
      // an index below 0: older than everything kept, in and straight out again
      r := if index < 0 then Ignore([]) else Insert(index, msg, evicted);
      InsertOutcome(limit, before, items, msg, all, at, evicted, r);
    }

    /** Drops the oldest messages while there are too many; one insertion leaves at most one too many. */
    method EvictOverLimit() returns (evicted: seq<Id>)
      requires Indexed(items, byId) && Undeleted(items, tombstones) && |items| <= limit + 1
      modifies this`items, this`byId
      ensures Indexed(items, byId) && Undeleted(items, tombstones)
      ensures items == Newest(old(items), limit)
      ensures evicted == if |old(items)| <= limit then [] else [old(items)[0].id]
      ensures |old(items)| <= limit ==> byId == old(byId)
    {
      ghost var all := items;
      evicted := [];
      while |items| > limit
        invariant Indexed(items, byId) && Undeleted(items, tombstones)
        invariant if |items| == |all| then items == all && evicted == [] && byId == old(byId) else |all| > limit && items == all[1..] && evicted == [all[0].id]
        decreases |items|
      {
        var gone := Shift();
        evicted := evicted + [gone];
      }
    }

    /** Splices a message in after the last one that is not newer. */
    method PutIn(msg: Msg) returns (i: nat)
      requires Indexed(items, byId) && Undeleted(items, tombstones)
      requires ValidId(msg.id) && msg.id !in tombstones && msg.id !in byId
      modifies this`items, this`byId
      ensures Indexed(items, byId) && Undeleted(items, tombstones)
      ensures i == IndexFor(old(items), msg.ts) && items == InsertByTs(old(items), msg) && byId == old(byId)[msg.id := msg]
    {
      i := FindIndexFor(msg.ts);
      IndexInsert(items, byId, msg);
      InsertKeepsIds(items, i, msg);
      items := items[..i] + [msg] + items[i..];
      byId := byId[msg.id := msg];
    }

    /** items.shift() and its entry of the index. */
    method Shift() returns (id: Id)
      requires Indexed(items, byId) && Undeleted(items, tombstones) && items != []
      modifies this`items, this`byId
      ensures Indexed(items, byId) && Undeleted(items, tombstones)
      ensures items == old(items)[1..] && id == old(items)[0].id
    {
      id := items[0].id;
      IndexRemove(items, byId, 0);
      assert items[1..] == RemoveAt(items, 0);
      items := items[1..];
      byId := byId - {id};
    }

    /** Takes a stored message, at `o`, out of the list and the index. */
    method TakeOut(id: Id, ghost o: nat)
      requires Indexed(items, byId) && o < |items| && items[o].id == id
      modifies this`items, this`byId
      ensures Indexed(items, byId) && byId == old(byId) - {id} && items == RemoveAt(old(items), o)
    {
      var i := IndexOf(id);
      assert i == o;
      IndexRemove(items, byId, i);
      items := items[..i] + items[i + 1..];
      byId := byId - {id};
    }

    /** A deletion leaves a tombstone; the oldest tombstones go when there are more than 500. */
    method Remove(id: Id) returns (removed: bool)
      requires Valid()
      modifies this
      ensures Valid()
      ensures !ValidId(id) ==> !removed && items == old(items) && tombOrder == old(tombOrder)
      ensures ValidId(id) ==>
                && removed == (id in old(byId)) && id in tombstones
                && items == (if id in old(byId) then RemoveAt(old(items), old(Position(id))) else old(items))
                && tombOrder == Buried(old(tombOrder), id)
    {
      if !ValidId(id) {
        return false;
      }
      ghost var deleted := tombstones;
      if id !in tombstones {
        Bury(id);
      }
      if id !in byId {
        return false;
      }
      RemoveUndeleted(items, Position(id), deleted, tombstones);
      TakeOut(id, Position(id));
      return true;
    }

    ghost function Buried(order: seq<Id>, id: Id): seq<Id> {
      if id in order then order
      else if |order| < 500 then order + [id]
      else order[1..] + [id]
    }

    method Bury(id: Id)
      requires Remembered(tombOrder, tombstones) && |tombOrder| <= TOMBSTONE_MAX && id !in tombstones
      modifies this`tombstones, this`tombOrder
      ensures Remembered(tombOrder, tombstones) && |tombOrder| <= TOMBSTONE_MAX && tombOrder == Buried(old(tombOrder), id)
      ensures id in tombstones && tombstones <= old(tombstones) + {id}
    {
      RememberOne(tombOrder, tombstones, id);
      tombstones := tombstones + {id};
      tombOrder := tombOrder + [id];
      ghost var all := tombOrder;
      while |tombOrder| > TOMBSTONE_MAX
        invariant if |tombOrder| == |all| then tombOrder == all else |tombOrder| == TOMBSTONE_MAX && tombOrder == all[1..]
        invariant |all| == |old(tombOrder)| + 1 && all[|all| - 1] == id
        invariant Remembered(tombOrder, tombstones) && tombstones <= old(tombstones) + {id}
        decreases |tombOrder|
      {
        ForgetOldest(tombOrder, tombstones);
        tombstones := tombstones - {tombOrder[0]};
        tombOrder := tombOrder[1..];
      }
      assert tombOrder[|tombOrder| - 1] == id;
    }

    /** An abandoned echo goes without a tombstone. */
    method Drop(id: Id) returns (dropped: bool)
      requires Valid()
      modifies this`items, this`byId
      ensures Valid()
      ensures dropped == (id in old(byId))
      ensures items == if id in old(byId) then RemoveAt(old(items), old(Position(id))) else old(items)
    {
      if id !in byId {
        return false;
      }
      RemoveUndeleted(items, Position(id), tombstones, tombstones);
      TakeOut(id, Position(id));
      return true;
    }

    /**
      Any messages with good ids, the same id as often as one likes, as long as they fit: what is stored of an id are
      the fields given for it, each with the value given last.
     */
    method UpsertMany(ms: seq<Msg>)
      requires Valid() && items == [] && tombstones == {} && |ms| <= limit
      requires forall i :: 0 <= i < |ms| ==> ValidId(ms[i].id)
      modifies this
      ensures Valid() && AllTold(ms, byId)
    {
      NothingTold(byId);
      for k := 0 to |ms|
        invariant Valid() && tombstones == {} && |items| <= k && AllTold(ms[..k], byId)
      {
        TakeSnoc(ms, k);
        UpsertTold(ms[..k], ms[k]);
      }
      TakeAll(ms);
    }

    method UpsertTold(ghost told: seq<Msg>, msg: Msg)
      requires Valid() && tombstones == {} && |items| < limit && ValidId(msg.id) && AllTold(told, byId)
      modifies this
      ensures Valid() && tombstones == {} && |items| <= |old(items)| + 1 && AllTold(told + [msg], byId)
    {
      ghost var before := byId;
      var m := UpsertAnother(msg);
      ToldSnoc(told, before, msg, m);
    }

    /** One more message while there is room. */
    method UpsertAnother(msg: Msg) returns (m: Msg)
      requires Valid() && tombstones == {} && |items| < limit && ValidId(msg.id)
      modifies this
      ensures Valid() && tombstones == {} && |items| <= |old(items)| + 1
      ensures byId == old(byId)[msg.id := m]
      ensures if msg.id in old(byId) then Overwritten(m, old(byId)[msg.id], msg) else m == msg
    {
      var r := Upsert(msg);
      m := r.msg;
    }

    /**
      Any messages with distinct good ids, inserted one by one into an empty store: what is stored is the end of
      their stable sort by time.
     */
    method UpsertAll(ms: seq<Msg>)
      requires Valid() && items == [] && tombstones == {}
      requires UniqueIds(ms) && forall i :: 0 <= i < |ms| ==> ValidId(ms[i].id)
      modifies this
      ensures Valid() && items == Newest(SortByTs(ms), limit)
    {
      for k := 0 to |ms|
        invariant Valid() && tombstones == {} && items == Newest(SortByTs(ms[..k]), limit)
      {
        UpsertNext(ms, k);
      }
      assert ms[..|ms|] == ms;
    }

    method UpsertNext(ms: seq<Msg>, k: nat)
      requires Valid() && tombstones == {} && k < |ms| && UniqueIds(ms) && ValidId(ms[k].id)
      requires items == Newest(SortByTs(ms[..k]), limit)
      modifies this
      ensures Valid() && tombstones == {} && items == Newest(SortByTs(ms[..k + 1]), limit)
    {
      NewId(ms, k, limit);
      NextKept(ms, k, limit);
      ghost var before := items;
      var r := Upsert(ms[k]);
      assert Inserted(limit, before, items, ms[k], r);
    }
  }
}
