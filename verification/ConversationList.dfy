/**
  The visitor list of backend/internal/store/conversation_list.go. A list is produced in two stages: one grouped
  query sorts and pages the visitors, a second one fetches the page's representatives. It is shown to be the same
  page of the direct query: rank each visitor's conversations, keep the first, join, filter, sort.
 */
module ConversationList {
  import opened Collections

  /** A key, by its place in the order of its column. */
  datatype Id = Id(rank: int)

  datatype Conv = Conv(id: Id, visitor: Id, open: bool, updated: int, started: int, unread: nat, engaged: bool, deleted: bool)

  datatype Profile = Profile(pinnedAt: Option<int>, blocked: bool, note: string, markedUnread: bool)

  /** One snapshot. `tags` lists a visitor's tags, `previews` the last message of a conversation, where there are any. */
  datatype Db = Db(convs: set<Conv>, visitors: map<Id, string>, profiles: map<Id, Profile>, tags: map<Id, seq<string>>,
                   previews: map<Id, string>)

  /** Only contacted visitors or all; only those with the tag, when it is not empty. */
  datatype Query = Query(contacted: bool, tag: string)

  /** Conversation ids are a primary key. */
  ghost predicate UniqueIds(convs: set<Conv>) {
    forall c, d :: c in convs && d in convs && c.id == d.id ==> c == d
  }

  ghost function Alive(db: Db, v: Id): set<Conv> {
    set c | c in db.convs && c.visitor == v && !c.deleted
  }

  /** MAX(visitor_engaged) = 1. */
  ghost predicate Engaged(db: Db, v: Id) {
    exists c :: c in Alive(db, v) && c.engaged
  }

  ghost predicate Blocked(db: Db, v: Id) {
    v in db.profiles && db.profiles[v].blocked
  }

  ghost predicate Tagged(db: Db, v: Id, tag: string) {
    tag == "" || (v in db.tags && tag in db.tags[v])
  }

  // ------------------------------------------------------------------
  // Representatives
  // ------------------------------------------------------------------

  /** Open first, then the latest update, the latest start, the greatest id. */
  predicate Outranks(c: Conv, d: Conv) {
    if c.open != d.open then c.open
    else if c.updated != d.updated then c.updated > d.updated
    else if c.started != d.started then c.started > d.started
    else c.id.rank > d.id.rank
  }

  ghost predicate RankOne(convs: set<Conv>, c: Conv) {
    c in convs && forall d :: d in convs && d != c ==> Outranks(c, d)
  }

  /** The row ROW_NUMBER gives 1. */
  ghost function Best(convs: set<Conv>): (best: Conv)
    requires convs != {} && UniqueIds(convs)
    ensures RankOne(convs, best)
    decreases convs
  {
    var c :| c in convs;
    var others := convs - {c};
    assert forall d :: d in convs ==> d == c || d in others;
    if others == {} then c
    else
      var d := Best(others);
      if Outranks(c, d) then c else d
  }

  /** MAX(updated_at): NULL over no rows. */
  ghost function MaxUpdated(convs: set<Conv>): (m: Option<int>)
    ensures m == None <==> convs == {}
    ensures m.Some? ==> (exists c :: c in convs && c.updated == m.value) && forall c :: c in convs ==> c.updated <= m.value
    decreases convs
  {
    if convs == {} then None
    else
      var c :| c in convs;
      var m := MaxUpdated(convs - {c});
      if m.Some? && m.value > c.updated then m else Some(c.updated)
  }

  /** COALESCE(MAX(CASE WHEN status = 'open' THEN updated_at END), MAX(updated_at)). */
  ghost function LastActive(convs: set<Conv>): int
    requires convs != {}
  {
    var m := MaxUpdated(set c | c in convs && c.open);
    if m.Some? then m.value else MaxUpdated(convs).value
  }

  /** The grouped sort key is the representative's updated_at. */
  lemma LastActiveIsRepresentatives(convs: set<Conv>)
    requires convs != {} && UniqueIds(convs)
    ensures LastActive(convs) == Best(convs).updated
  {
    var best := Best(convs);
    var open := set c | c in convs && c.open;
    if open != {} {
      var c :| c in open && c.updated == MaxUpdated(open).value;
      assert best.open;
      assert best in open;
    } else {
      var c :| c in convs && c.updated == MaxUpdated(convs).value;
      assert c !in open && best !in open;
    }
  }

  // ------------------------------------------------------------------
  // ORDER BY
  // ------------------------------------------------------------------

  /** The sort columns; an unpinned visitor's pin time is NULL, the same for all. */
  datatype Key = Key(pinnedAt: Option<int>, active: int, visitor: Id)

  /** Pinned first, latest pin first; then latest activity; then greatest visitor id. */
  predicate Before(k: Key, l: Key) {
    if k.pinnedAt != l.pinnedAt then k.pinnedAt.Some? && (l.pinnedAt.Some? ==> k.pinnedAt.value > l.pinnedAt.value)
    else if k.active != l.active then k.active > l.active
    else k.visitor.rank > l.visitor.rank
  }

  ghost predicate Ordered(ks: seq<Key>) {
    forall i, j :: 0 <= i < j < |ks| ==> Before(ks[i], ks[j])
  }

  lemma OrderedCons(k: Key, ks: seq<Key>)
    requires Ordered(ks) && forall l :: l in ks ==> Before(k, l)
    ensures Ordered([k] + ks)
  {
  }

  ghost function Insert(ks: seq<Key>, k: Key): (r: seq<Key>)
    requires Ordered(ks) && k !in ks
    ensures Ordered(r) && |r| == |ks| + 1
    ensures forall l :: l in r <==> l == k || l in ks
  {
    if ks == [] then [k]
    else if Before(k, ks[0]) then
      OrderedCons(k, ks);
      [k] + ks
    else
      var rest := Insert(ks[1..], k);
      assert Before(ks[0], k);
      OrderedCons(ks[0], rest);
      [ks[0]] + rest
  }

  ghost function Sorted(ks: set<Key>): (r: seq<Key>)
    ensures Ordered(r) && |r| == |ks|
    ensures forall k :: k in r <==> k in ks
    decreases ks
  {
    if ks == {} then []
    else
      var k :| k in ks;
      Insert(Sorted(ks - {k}), k)
  }

  /** There is one sorted list of a set. */
  lemma {:induction false} OrderedUnique(s: seq<Key>, t: seq<Key>)
    requires Ordered(s) && Ordered(t) && forall k :: k in s <==> k in t
    ensures s == t
  {
    if |s| > 0 {
      assert s[0] in t;
    }
    if |t| > 0 {
      assert t[0] in s;
      assert s[0] == t[0];
      forall k
        ensures k in s[1..] <==> k in t[1..]
      {
        assert k in s[1..] <==> k in s && k != s[0];
        assert k in t[1..] <==> k in t && k != t[0];
      }
      OrderedUnique(s[1..], t[1..]);
    }
  }

  function PinnedAt(db: Db, v: Id): Option<int> {
    if v in db.profiles then db.profiles[v].pinnedAt else None
  }

  /** LIMIT and OFFSET. */
  function Page<T>(s: seq<T>, limit: nat, offset: nat): seq<T> {
    if offset >= |s| then [] else if offset + limit >= |s| then s[offset..] else s[offset..offset + limit]
  }

  // ------------------------------------------------------------------
  // The direct query
  // ------------------------------------------------------------------

  /** A row of the list as the interface returns it. */
  datatype Row = Row(id: Id, visitor: Id, unread: nat, open: bool, started: int, updated: int, contacted: bool,
                     info: string, note: string, tags: seq<string>, pinned: bool, markedUnread: bool,
                     lastMessage: Option<string>)

  /** The rank-1 conversation of a visitor who is known, not blocked, and passes the query. */
  ghost predicate Listed(db: Db, q: Query, c: Conv) {
    && c in db.convs && !c.deleted && RankOne(Alive(db, c.visitor), c)
    && c.visitor in db.visitors && !Blocked(db, c.visitor) && Tagged(db, c.visitor, q.tag)
    && (q.contacted ==> Engaged(db, c.visitor))
  }

  ghost function ConvKey(db: Db, c: Conv): Key {
    Key(PinnedAt(db, c.visitor), c.updated, c.visitor)
  }

  /** All listed conversations, sorted by pin time, their own updated_at and visitor. */
  ghost predicate DirectList(db: Db, q: Query, full: seq<Conv>) {
    && (forall c :: c in full <==> Listed(db, q, c))
    && (forall i, j :: 0 <= i < j < |full| ==> Before(ConvKey(db, full[i]), ConvKey(db, full[j])))
  }

  /** The joined row of a visitor's representative; a visitor marked unread shows at least one unread message. */
  ghost function RowOf(db: Db, c: Conv): Row {
    var p := if c.visitor in db.profiles then db.profiles[c.visitor] else Profile(None, false, "", false);
    Row(c.id, c.visitor, if p.markedUnread && c.unread == 0 then 1 else c.unread, c.open, c.started, c.updated,
        Engaged(db, c.visitor), if c.visitor in db.visitors then db.visitors[c.visitor] else "", p.note,
        if c.visitor in db.tags then db.tags[c.visitor] else [], p.pinnedAt.Some?, p.markedUnread,
        if c.id in db.previews then Some(db.previews[c.id]) else None)
  }

  ghost function Rows(db: Db, cs: seq<Conv>): seq<Row> {
    seq(|cs|, i requires 0 <= i < |cs| => RowOf(db, cs[i]))
  }

  // ------------------------------------------------------------------
  // The two stages
  // ------------------------------------------------------------------

  /** GROUP BY visitor_id, with HAVING for contacted visitors only. */
  ghost function Groups(db: Db, contacted: bool): set<Id> {
    set c | c in db.convs && !c.deleted && (contacted ==> Engaged(db, c.visitor)) :: c.visitor
  }

  lemma GroupHasConvs(db: Db, contacted: bool, v: Id)
    ensures v in Groups(db, contacted) <==> Alive(db, v) != {} && (contacted ==> Engaged(db, v))
  {
    if Alive(db, v) != {} {
      var c :| c in Alive(db, v);
      assert c in db.convs && !c.deleted && c.visitor == v;
    }
    if v in Groups(db, contacted) {
      var c :| c in db.convs && !c.deleted && (contacted ==> Engaged(db, c.visitor)) && c.visitor == v;
      assert c in Alive(db, v);
    }
  }

  ghost function GroupKey(db: Db, v: Id): Key {
    Key(PinnedAt(db, v), if Alive(db, v) != {} then LastActive(Alive(db, v)) else 0, v)
  }

  ghost predicate InPage(db: Db, q: Query, v: Id) {
    v in Groups(db, q.contacted) && v in db.visitors && !Blocked(db, v) && Tagged(db, v, q.tag)
  }

  /** Stage 1 before ORDER BY: a sort key for each visitor of the groups joined with visitors and profiles. */
  ghost function PageKeys(db: Db, q: Query): set<Key> {
    set v | v in Groups(db, q.contacted) && InPage(db, q, v) :: GroupKey(db, v)
  }

  /** Stage 1. */
  ghost function PageIds(db: Db, q: Query, limit: nat, offset: nat): seq<Id> {
    VisitorsOf(Page(Sorted(PageKeys(db, q)), limit, offset))
  }

  ghost function VisitorsOf(ks: seq<Key>): seq<Id> {
    seq(|ks|, i requires 0 <= i < |ks| => ks[i].visitor)
  }

  /** What the second stage's queries return of one visitor. */
  datatype ListRow = ListRow(conv: Conv, contacted: bool, info: string, note: string, pinned: bool, markedUnread: bool)

  /** Stage 2: the rank-1 conversations of the page's visitors, joined with visitors and profiles. */
  ghost function Representatives(db: Db, vids: seq<Id>): map<Id, ListRow>
    requires UniqueIds(db.convs)
  {
    map v | v in vids && Alive(db, v) != {} && v in db.visitors ::
      var p := if v in db.profiles then db.profiles[v] else Profile(None, false, "", false);
      ListRow(Best(Alive(db, v)), Engaged(db, v), db.visitors[v], p.note, p.pinnedAt.Some?, p.markedUnread)
  }

  function AssembledRow(v: Id, r: ListRow, previews: map<Id, string>, tags: map<Id, seq<string>>): Row {
    Row(r.conv.id, r.conv.visitor, if r.markedUnread && r.conv.unread == 0 then 1 else r.conv.unread, r.conv.open,
        r.conv.started, r.conv.updated, r.contacted, r.info, r.note, if v in tags then tags[v] else [], r.pinned,
        r.markedUnread, if r.conv.id in previews then Some(previews[r.conv.id]) else None)
  }

  /** The rows of the visitors that have a representative, in the order of `vids`. */
  function Assembled(vids: seq<Id>, reps: map<Id, ListRow>, previews: map<Id, string>, tags: map<Id, seq<string>>): seq<Row> {
    if vids == [] then []
    else
      var rest := Assembled(vids[..|vids| - 1], reps, previews, tags);
      var v := vids[|vids| - 1];
      if v in reps then rest + [AssembledRow(v, reps[v], previews, tags)] else rest
  }

  method AssembleVisitorRows(vids: seq<Id>, reps: map<Id, ListRow>, previews: map<Id, string>, tags: map<Id, seq<string>>)
      returns (out: seq<Row>)
    ensures out == Assembled(vids, reps, previews, tags)
  {
    out := [];
    for k := 0 to |vids|
      invariant out == Assembled(vids[..k], reps, previews, tags)
    {
      var vid := vids[k];
      assert vids[..k + 1][..k] == vids[..k];
      if vid !in reps {
        continue;
      }
      var r := reps[vid];
      var unread := r.conv.unread;
      if r.markedUnread && unread == 0 {
        unread := 1;
      }
      var row := Row(r.conv.id, r.conv.visitor, unread, r.conv.open, r.conv.started, r.conv.updated, r.contacted, r.info,
                     r.note, [], r.pinned, r.markedUnread, None);
      if vid in tags {
        row := row.(tags := tags[vid]);
      }
      if r.conv.id in previews {
        row := row.(lastMessage := Some(previews[r.conv.id]));
      }
      out := out + [row];
    }
    TakeAll(vids);
  }

  /** listVisitorAggregated on one snapshot. */
  ghost function TwoStage(db: Db, q: Query, limit: nat, offset: nat): seq<Row>
    requires UniqueIds(db.convs)
  {
    var vids := PageIds(db, q, limit, offset);
    Assembled(vids, Representatives(db, vids), db.previews, db.tags)
  }

  // ------------------------------------------------------------------
  // The two stages give the direct query's page
  // ------------------------------------------------------------------

  lemma RankOneIsBest(convs: set<Conv>, c: Conv)
    requires convs != {} && UniqueIds(convs)
    ensures RankOne(convs, c) <==> c == Best(convs)
  {
    var best := Best(convs);
    assert c != best && c in convs ==> Outranks(best, c);
  }

  /** The visitors' keys of stage 1 are the keys of the listed conversations. */
  lemma KeysAgree(db: Db, q: Query, v: Id)
    requires UniqueIds(db.convs)
    ensures InPage(db, q, v) <==> Alive(db, v) != {} && Listed(db, q, Best(Alive(db, v)))
    ensures Alive(db, v) != {} ==> Best(Alive(db, v)).visitor == v && LastActive(Alive(db, v)) == Best(Alive(db, v)).updated
  {
    GroupHasConvs(db, q.contacted, v);
    if Alive(db, v) != {} {
      LastActiveIsRepresentatives(Alive(db, v));
    }
  }

  ghost function Keys(db: Db, cs: seq<Conv>): seq<Key> {
    seq(|cs|, i requires 0 <= i < |cs| => ConvKey(db, cs[i]))
  }

  /** Stage 1 sorts the visitors as the direct query sorts their representatives. */
  lemma SortedKeys(db: Db, q: Query, full: seq<Conv>)
    requires UniqueIds(db.convs) && DirectList(db, q, full)
    ensures Keys(db, full) == Sorted(PageKeys(db, q))
  {
    var ks := Keys(db, full);
    forall k
      ensures k in ks <==> k in PageKeys(db, q)
    {
      var v := k.visitor;
      KeysAgree(db, q, v);
      if k in ks {
        var i :| 0 <= i < |ks| && ks[i] == k;
        assert full[i] in full;
        assert full[i] in Alive(db, v);
        RankOneIsBest(Alive(db, v), full[i]);
      }
      if k in PageKeys(db, q) {
        var best := Best(Alive(db, v));
        assert best in full;
        var i :| 0 <= i < |full| && full[i] == best;
        assert ks[i] == k;
      }
    }
    OrderedUnique(ks, Sorted(PageKeys(db, q)));
  }

  ghost predicate RepresentedBy(db: Db, reps: map<Id, ListRow>, cs: seq<Conv>) {
    forall c :: c in cs ==> c.visitor in reps && AssembledRow(c.visitor, reps[c.visitor], db.previews, db.tags) == RowOf(db, c)
  }

  lemma {:induction false} AssembledIsRows(db: Db, vids: seq<Id>, reps: map<Id, ListRow>, cs: seq<Conv>)
    requires |vids| == |cs| && forall i :: 0 <= i < |cs| ==> vids[i] == cs[i].visitor
    requires RepresentedBy(db, reps, cs)
    ensures Assembled(vids, reps, db.previews, db.tags) == Rows(db, cs)
  {
    if cs != [] {
      var n := |cs| - 1;
      AssembledIsRows(db, vids[..n], reps, cs[..n]);
      assert cs[n] in cs;
      assert Rows(db, cs) == Rows(db, cs[..n]) + [RowOf(db, cs[n])];
    }
  }

  lemma PageMembers<T>(s: seq<T>, limit: nat, offset: nat)
    ensures |Page(s, limit, offset)| == if offset >= |s| then 0 else if offset + limit >= |s| then |s| - offset else limit
    ensures forall i :: 0 <= i < |Page(s, limit, offset)| ==> Page(s, limit, offset)[i] == s[offset + i]
  {
  }

  /** The representative fetched for a listed conversation's visitor is that conversation. */
  lemma FetchedIsListed(db: Db, q: Query, vids: seq<Id>, c: Conv)
    requires UniqueIds(db.convs) && Listed(db, q, c) && c.visitor in vids
    ensures c.visitor in Representatives(db, vids)
    ensures AssembledRow(c.visitor, Representatives(db, vids)[c.visitor], db.previews, db.tags) == RowOf(db, c)
  {
    assert c in Alive(db, c.visitor);
    RankOneIsBest(Alive(db, c.visitor), c);
  }

  lemma PageOfKeys(db: Db, full: seq<Conv>, limit: nat, offset: nat)
    ensures Page(Keys(db, full), limit, offset) == Keys(db, Page(full, limit, offset))
  {
    PageMembers(full, limit, offset);
    PageMembers(Keys(db, full), limit, offset);
  }

  /** Stage 1 pages the visitors of the direct list. */
  lemma PageIdsAreVisitors(db: Db, q: Query, limit: nat, offset: nat, full: seq<Conv>, cs: seq<Conv>)
    requires UniqueIds(db.convs) && DirectList(db, q, full) && cs == Page(full, limit, offset)
    ensures |PageIds(db, q, limit, offset)| == |cs|
    ensures forall i :: 0 <= i < |cs| ==> PageIds(db, q, limit, offset)[i] == cs[i].visitor
  {
    SortedKeys(db, q, full);
    PageOfKeys(db, full, limit, offset);
    assert PageIds(db, q, limit, offset) == VisitorsOf(Keys(db, cs));
  }

  lemma PageIsListed(db: Db, q: Query, limit: nat, offset: nat, full: seq<Conv>, c: Conv)
    requires DirectList(db, q, full) && c in Page(full, limit, offset)
    ensures Listed(db, q, c)
  {
    PageMembers(full, limit, offset);
    assert c in full;
  }

  lemma FetchedRepresent(db: Db, q: Query, limit: nat, offset: nat, full: seq<Conv>, cs: seq<Conv>, vids: seq<Id>)
    requires UniqueIds(db.convs) && DirectList(db, q, full) && cs == Page(full, limit, offset)
    requires |vids| == |cs| && forall i :: 0 <= i < |cs| ==> vids[i] == cs[i].visitor
    ensures RepresentedBy(db, Representatives(db, vids), cs)
  {
    forall c | c in cs
      ensures c.visitor in Representatives(db, vids)
      ensures AssembledRow(c.visitor, Representatives(db, vids)[c.visitor], db.previews, db.tags) == RowOf(db, c)
    {
      PageIsListed(db, q, limit, offset, full, c);
      var i :| 0 <= i < |cs| && cs[i] == c;
      assert vids[i] in vids;
      FetchedIsListed(db, q, vids, c);
    }
  }

  /** For every snapshot, query, limit and offset, the two-stage list is the direct list's page. */
  lemma TwoStageIsDirect(db: Db, q: Query, limit: nat, offset: nat, full: seq<Conv>)
    requires UniqueIds(db.convs) && DirectList(db, q, full)
    ensures TwoStage(db, q, limit, offset) == Rows(db, Page(full, limit, offset))
  {
    var vids := PageIds(db, q, limit, offset);
    var cs := Page(full, limit, offset);
    PageIdsAreVisitors(db, q, limit, offset, full, cs);
    FetchedRepresent(db, q, limit, offset, full, cs, vids);
    AssembledIsRows(db, vids, Representatives(db, vids), cs);
  }

  ghost predicate ShownKey(db: Db, q: Query, k: Key)
    requires UniqueIds(db.convs)
  {
    Alive(db, k.visitor) != {} && Listed(db, q, Best(Alive(db, k.visitor))) && ConvKey(db, Best(Alive(db, k.visitor))) == k
  }

  lemma PageKeyShown(db: Db, q: Query, k: Key)
    requires UniqueIds(db.convs)
    ensures k in PageKeys(db, q) <==> ShownKey(db, q, k)
  {
    KeysAgree(db, q, k.visitor);
    if ShownKey(db, q, k) {
      assert k == GroupKey(db, k.visitor);
    }
  }

  lemma ListedKeyShown(db: Db, q: Query, c: Conv)
    requires UniqueIds(db.convs) && Listed(db, q, c)
    ensures Alive(db, c.visitor) != {} && Best(Alive(db, c.visitor)) == c && ShownKey(db, q, ConvKey(db, c))
  {
    assert c in Alive(db, c.visitor);
    RankOneIsBest(Alive(db, c.visitor), c);
  }

  ghost function BestOf(db: Db, k: Key): Conv
    requires UniqueIds(db.convs) && Alive(db, k.visitor) != {}
  {
    Best(Alive(db, k.visitor))
  }

  ghost function BestConvs(db: Db, ks: seq<Key>): seq<Conv>
    requires UniqueIds(db.convs) && forall k :: k in ks ==> Alive(db, k.visitor) != {}
  {
    seq(|ks|, i requires 0 <= i < |ks| => assert ks[i] in ks; BestOf(db, ks[i]))
  }

  lemma BestConvsInOrder(db: Db, q: Query, ks: seq<Key>)
    requires UniqueIds(db.convs) && Ordered(ks) && forall k :: k in ks ==> Alive(db, k.visitor) != {} && ShownKey(db, q, k)
    ensures Keys(db, BestConvs(db, ks)) == ks
    ensures forall c :: c in BestConvs(db, ks) ==> Listed(db, q, c)
  {
    var full := BestConvs(db, ks);
    forall i | 0 <= i < |ks|
      ensures ConvKey(db, full[i]) == ks[i] && Listed(db, q, full[i])
    {
      assert ks[i] in ks;
    }
  }

  lemma KeysInOrder(db: Db, full: seq<Conv>)
    ensures Ordered(Keys(db, full)) <==> forall i, j :: 0 <= i < j < |full| ==> Before(ConvKey(db, full[i]), ConvKey(db, full[j]))
  {
    var ks := Keys(db, full);
    assert |ks| == |full| && forall i :: 0 <= i < |ks| ==> ks[i] == ConvKey(db, full[i]);
  }

  /** There is such a direct list, and only one. */
  lemma DirectListExists(db: Db, q: Query) returns (full: seq<Conv>)
    requires UniqueIds(db.convs)
    ensures DirectList(db, q, full)
  {
    var ks := Sorted(PageKeys(db, q));
    forall k
      ensures k in ks <==> ShownKey(db, q, k)
    {
      PageKeyShown(db, q, k);
    }
    full := BestConvs(db, ks);
    BestConvsInOrder(db, q, ks);
    KeysInOrder(db, full);
    forall c | Listed(db, q, c)
      ensures c in full
    {
      ListedKeyShown(db, q, c);
      var i :| 0 <= i < |ks| && ks[i] == ConvKey(db, c);
      assert full[i] == c;
    }
  }

  lemma DirectListUnique(db: Db, q: Query, full: seq<Conv>, full': seq<Conv>)
    requires UniqueIds(db.convs) && DirectList(db, q, full) && DirectList(db, q, full')
    ensures full == full'
  {
    SortedKeys(db, q, full);
    SortedKeys(db, q, full');
    assert |full| == |Keys(db, full)| == |full'|;
    forall i | 0 <= i < |full|
      ensures full[i] == full'[i]
    {
      assert Keys(db, full)[i] == Keys(db, full')[i];
      assert full[i] in full && full'[i] in full';
      SameVisitorSameConv(db, q, full[i], full'[i]);
    }
  }

  /** A visitor is listed once. */
  lemma SameVisitorSameConv(db: Db, q: Query, c: Conv, d: Conv)
    requires UniqueIds(db.convs) && Listed(db, q, c) && Listed(db, q, d) && c.visitor == d.visitor
    ensures c == d
  {
    assert c in Alive(db, c.visitor);
    RankOneIsBest(Alive(db, c.visitor), c);
    RankOneIsBest(Alive(db, c.visitor), d);
  }

  // ------------------------------------------------------------------
  // What the list shows
  // ------------------------------------------------------------------

  /** When the visitor was pinned, if it is. */
  ghost predicate PinnedSince(db: Db, v: Id, at: int) {
    v in db.profiles && db.profiles[v].pinnedAt == Some(at)
  }

  /** The listed conversation a row shows. */
  lemma RowShows(db: Db, q: Query, limit: nat, offset: nat, full: seq<Conv>, i: nat)
    requires UniqueIds(db.convs) && DirectList(db, q, full) && i < |TwoStage(db, q, limit, offset)|
    ensures offset + i < |full| && TwoStage(db, q, limit, offset)[i] == RowOf(db, full[offset + i]) && Listed(db, q, full[offset + i])
  {
    TwoStageIsDirect(db, q, limit, offset, full);
    PageMembers(full, limit, offset);
    assert full[offset + i] in full;
  }

  /**
    The order of the rows: pinned visitors first, the latest pin first; within that the latest update first; then the
    greatest visitor id.
   */
  lemma RowsInOrder(db: Db, q: Query, limit: nat, offset: nat, i: nat, j: nat)
    requires UniqueIds(db.convs) && i < j < |TwoStage(db, q, limit, offset)|
    ensures var a, b := TwoStage(db, q, limit, offset)[i], TwoStage(db, q, limit, offset)[j];
            && (b.pinned ==> a.pinned)
            && (forall s, t :: PinnedSince(db, a.visitor, s) && PinnedSince(db, b.visitor, t) ==> s >= t)
            && ((!a.pinned && !b.pinned) || (exists s :: PinnedSince(db, a.visitor, s) && PinnedSince(db, b.visitor, s)) ==>
                  a.updated > b.updated || (a.updated == b.updated && a.visitor.rank > b.visitor.rank))
  {
    var full := DirectListExists(db, q);
    RowShows(db, q, limit, offset, full, i);
    RowShows(db, q, limit, offset, full, j);
    assert Before(ConvKey(db, full[offset + i]), ConvKey(db, full[offset + j]));
  }

  /** `d` is a conversation of `v` that has not been deleted. */
  ghost predicate ConvOf(db: Db, v: Id, d: Conv) {
    d in db.convs && d.visitor == v && !d.deleted
  }

  /** Whether a visitor is to be shown. */
  ghost predicate ToShow(db: Db, q: Query, v: Id) {
    && (exists d :: ConvOf(db, v, d)) && v in db.visitors
    && !(v in db.profiles && db.profiles[v].blocked)
    && (q.tag != "" ==> v in db.tags && q.tag in db.tags[v])
    && (q.contacted ==> exists d :: ConvOf(db, v, d) && d.engaged)
  }

  /**
    What a row tells: of a visitor who is to be shown an open conversation if there is one, among those the one updated
    last, then started last, then with the greatest id; whether the visitor is pinned and was ever contacted; and one
    unread message at least if the visitor is marked unread.
   */
  lemma RowTells(db: Db, q: Query, limit: nat, offset: nat, i: nat) returns (c: Conv)
    requires UniqueIds(db.convs) && i < |TwoStage(db, q, limit, offset)|
    ensures var r := TwoStage(db, q, limit, offset)[i];
            && ToShow(db, q, r.visitor) && ConvOf(db, r.visitor, c)
            && r.id == c.id && r.open == c.open && r.updated == c.updated && r.started == c.started
            && (forall d :: ConvOf(db, r.visitor, d) ==>
                  && (d.open ==> r.open)
                  && (d.open == r.open ==>
                        && d.updated <= r.updated
                        && (d.updated == r.updated ==> d.started <= r.started)
                        && (d.updated == r.updated && d.started == r.started ==> d.id.rank <= r.id.rank)))
            && r.info == db.visitors[r.visitor]
            && (r.pinned <==> exists s :: PinnedSince(db, r.visitor, s))
            && (r.contacted <==> exists d :: ConvOf(db, r.visitor, d) && d.engaged)
            && (r.markedUnread <==> r.visitor in db.profiles && db.profiles[r.visitor].markedUnread)
            && r.unread == (if c.unread == 0 && r.markedUnread then 1 else c.unread)
            && r.tags == (if r.visitor in db.tags then db.tags[r.visitor] else [])
            && r.lastMessage == if c.id in db.previews then Some(db.previews[c.id]) else None
  {
    var full := DirectListExists(db, q);
    RowShows(db, q, limit, offset, full, i);
    c := full[offset + i];
    SameConvs(db, c.visitor);
    ShownConv(db, c);
    if PinnedAt(db, c.visitor).Some? {
      assert PinnedSince(db, c.visitor, PinnedAt(db, c.visitor).value);
    }
  }

  lemma SameConvs(db: Db, v: Id)
    ensures forall d :: d in Alive(db, v) <==> ConvOf(db, v, d)
    ensures Engaged(db, v) <==> exists d :: ConvOf(db, v, d) && d.engaged
  {
    assert forall d :: d in Alive(db, v) <==> ConvOf(db, v, d);
    if Engaged(db, v) {
      var c :| c in Alive(db, v) && c.engaged;
      assert ConvOf(db, v, c) && c.engaged;
    }
  }

  lemma ShownConv(db: Db, c: Conv)
    requires ConvOf(db, c.visitor, c) && RankOne(Alive(db, c.visitor), c)
    ensures forall d :: ConvOf(db, c.visitor, d) ==>
              && (d.open ==> c.open)
              && (d.open == c.open ==>
                    && d.updated <= c.updated
                    && (d.updated == c.updated ==> d.started <= c.started)
                    && (d.updated == c.updated && d.started == c.started ==> d.id.rank <= c.id.rank))
  {
    forall d | ConvOf(db, c.visitor, d)
      ensures d == c || Outranks(c, d)
    {
      assert d in Alive(db, c.visitor);
    }
  }

  /** A visitor is on the list, and so on one of its pages, exactly if to be shown. */
  lemma ListedIffToShow(db: Db, q: Query, full: seq<Conv>, v: Id)
    requires UniqueIds(db.convs) && DirectList(db, q, full)
    ensures (exists i :: 0 <= i < |TwoStage(db, q, |full|, 0)| && TwoStage(db, q, |full|, 0)[i].visitor == v) <==> ToShow(db, q, v)
  {
    TwoStageIsDirect(db, q, |full|, 0, full);
    PageMembers(full, |full|, 0);
    var rows := TwoStage(db, q, |full|, 0);
    SameConvs(db, v);
    if ToShow(db, q, v) {
      var d :| ConvOf(db, v, d);
      assert d in Alive(db, v);
      var best := Best(Alive(db, v));
      assert best in full;
      var i :| 0 <= i < |full| && full[i] == best;
      assert rows[i].visitor == v;
    }
    if i :| 0 <= i < |rows| && rows[i].visitor == v {
      var c := RowTells(db, q, |full|, 0, i);
    }
  }

  // ------------------------------------------------------------------
  // Paging and counting
  // ------------------------------------------------------------------

  const DEFAULT_LIMIT := 50
  const MAX_LIMIT := 200

  /** normalizeListPage. */
  function NormalizeListPage(limit: int, offset: int): (p: (nat, nat))
    ensures 1 <= p.0 <= MAX_LIMIT
    ensures p.0 == (if 1 <= limit <= 200 then limit else 50) && p.1 == (if offset < 0 then 0 else offset)
  {
    (if limit <= 0 || limit > MAX_LIMIT then DEFAULT_LIMIT else limit, if offset < 0 then 0 else offset)
  }

  /** listVisitorAggregated for whatever limit and offset it is given. */
  lemma ListIsDirectPage(db: Db, q: Query, limit: int, offset: int, full: seq<Conv>)
    requires UniqueIds(db.convs) && DirectList(db, q, full)
    ensures var p := NormalizeListPage(limit, offset);
            && TwoStage(db, q, p.0, p.1) == Rows(db, Page(full, p.0, p.1))
            && |TwoStage(db, q, p.0, p.1)| <= (if 1 <= limit <= 200 then limit else 50)
  {
    var p := NormalizeListPage(limit, offset);
    TwoStageIsDirect(db, q, p.0, p.1, full);
    PageMembers(full, p.0, p.1);
  }

  /** Page `p` of the list holds what stands at positions p * limit up to p * limit + limit. */
  lemma OnPage(full: seq<Conv>, limit: nat, offset: nat, i: nat)
    requires i < |full|
    requires forall i, j :: 0 <= i < j < |full| ==> full[i] != full[j]
    ensures full[i] in Page(full, limit, offset) <==> offset <= i < offset + limit
  {
    PageMembers(full, limit, offset);
    if offset <= i < offset + limit {
      assert Page(full, limit, offset)[i - offset] == full[i];
    }
  }

  /** Successive pages are disjoint and cover the list: a listed conversation is on exactly one of them. */
  lemma OnExactlyOnePage(db: Db, q: Query, full: seq<Conv>, limit: nat, c: Conv) returns (page: nat)
    requires DirectList(db, q, full) && limit > 0 && Listed(db, q, c)
    ensures forall p: nat :: c in Page(full, limit, p * limit) <==> p == page
  {
    var i :| 0 <= i < |full| && full[i] == c;
    page := i / limit;
    forall p: nat
      ensures c in Page(full, limit, p * limit) <==> p == page
    {
      OnPage(full, limit, p * limit, i);
      Quotient(i, limit, p);
    }
  }

  lemma Quotient(i: nat, limit: nat, p: nat)
    requires limit > 0
    ensures p * limit <= i < p * limit + limit <==> p == i / limit
  {
    var d := i / limit;
    assert d * limit <= i < d * limit + limit;
    if p < d {
      assert (p + 1) * limit <= d * limit;
    } else if p > d {
      assert (d + 1) * limit <= p * limit;
    }
  }

  /** countVisibleVisitors: the groups not blocked and passing the tag, whether or not the visitor has a row. */
  ghost function Counted(db: Db, q: Query): set<Id> {
    set v | v in Groups(db, q.contacted) && !Blocked(db, v) && Tagged(db, v, q.tag)
  }

  ghost function KeySet(db: Db, vs: set<Id>): set<Key> {
    set v | v in vs :: GroupKey(db, v)
  }

  lemma {:induction false} KeyPerVisitor(db: Db, vs: set<Id>)
    ensures |KeySet(db, vs)| == |vs|
  {
    if vs != {} {
      var v :| v in vs;
      KeyPerVisitor(db, vs - {v});
      assert KeySet(db, vs) == KeySet(db, vs - {v}) + {GroupKey(db, v)};
    }
  }

  ghost function KnownCounted(db: Db, q: Query): set<Id> {
    set v | v in Counted(db, q) && v in db.visitors
  }

  lemma ListLength(db: Db, q: Query, full: seq<Conv>)
    requires UniqueIds(db.convs) && DirectList(db, q, full)
    ensures |full| == |KnownCounted(db, q)|
  {
    SortedKeys(db, q, full);
    KeyPerVisitor(db, KnownCounted(db, q));
    assert PageKeys(db, q) == KeySet(db, KnownCounted(db, q));
  }

  /** The count is the length of the list exactly when every counted visitor has a visitors row. */
  lemma CountIsLength(db: Db, q: Query, full: seq<Conv>)
    requires UniqueIds(db.convs) && DirectList(db, q, full)
    ensures |full| <= |Counted(db, q)|
    ensures |full| == |Counted(db, q)| <==> forall v :: v in Counted(db, q) ==> v in db.visitors
  {
    ListLength(db, q, full);
    assert Counted(db, q) == KnownCounted(db, q) + (Counted(db, q) - KnownCounted(db, q));
  }
}
